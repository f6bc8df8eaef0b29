/** `normalise`: blank runs collapse, trailing space goes, and everything else stays. */
module Normalise {
  import opened Seqs
  import opened Text

  const NEWLINE := '\n'

  // ---- lines ----

  /** A carriage return before the line feed belongs to the line ending. */
  function Chop(line: string): string {
    if line != "" && line[|line| - 1] == '\r' then line[..|line| - 1] else line
  }

  /** `str::lines`: a final line feed ends the last line and starts none. */
  function Lines(text: string): seq<string>
    decreases |text|
  {
    if text == "" then []
    else if NEWLINE !in text then [text]
    else
      var i := IndexOf(text, NEWLINE);
      [Chop(text[..i])] + Lines(text[i + 1..])
  }

  function Joined(lines: seq<string>): string
    decreases |lines|
  {
    if lines == [] then ""
    else if |lines| == 1 then lines[0]
    else Joined(lines[..|lines| - 1]) + ([NEWLINE] + lines[|lines| - 1])
  }

  /** Each line with its line feed. */
  function Written(lines: seq<string>): string
    decreases |lines|
  {
    if lines == [] then "" else Written(lines[..|lines| - 1]) + (lines[|lines| - 1] + [NEWLINE])
  }

  // ---- what is in the lines: the non-blank ones, and where a blank one comes before ----

  datatype Mark = Mark(gap: bool, line: string)

  /** The marks of the lines, and whether a blank line ends them. */
  datatype Marked = Marked(marks: seq<Mark>, blank: bool)

  function Marks(lines: seq<string>): Marked
    decreases |lines|
  {
    if lines == [] then Marked([], false)
    else
      var before := Marks(lines[..|lines| - 1]);
      var trimmed := TrimEnd(lines[|lines| - 1]);
      if trimmed == "" then before.(blank := true)
      else Marked(before.marks + [Mark(before.blank, trimmed)], false)
  }

  /** One blank line for each gap. */
  function Rebuilt(marks: seq<Mark>): seq<string>
    decreases |marks|
  {
    if marks == [] then []
    else
      var last := marks[|marks| - 1];
      Rebuilt(marks[..|marks| - 1]) + if last.gap then ["", last.line] else [last.line]
  }

  /** The first line starts the text: no gap before it and no leading space. */
  function Headed(marks: seq<Mark>): seq<Mark> {
    if marks == [] then [] else [Mark(false, TrimStart(marks[0].line))] + marks[1..]
  }

  /** The normal form of a text, from its marks alone. */
  function Normal(text: string): string {
    Joined(Rebuilt(Headed(Marks(Lines(text)).marks)))
  }

  /** What the loop has written: the marks rebuilt, and a pending blank line. */
  function Collapsed(m: Marked): seq<string> {
    Rebuilt(m.marks) + if m.blank then [""] else []
  }

  // ---- the loop ----

  lemma WrittenAppends(lines: seq<string>, line: string)
    ensures Written(lines + [line]) == Written(lines) + (line + [NEWLINE])
  {
    assert (lines + [line])[..|lines|] == lines;
  }

  lemma RebuiltAppends(marks: seq<Mark>, mark: Mark)
    ensures Rebuilt(marks + [mark]) == Rebuilt(marks) + if mark.gap then ["", mark.line] else [mark.line]
  {
    assert (marks + [mark])[..|marks|] == marks;
  }

  lemma TrimIsBlank(s: string)
    ensures Trim(TrimEnd(s)) == "" <==> TrimEnd(s) == ""
  {
    TrimEndCuts(s);
    TrimIsEmptyIffBlank(TrimEnd(s));
  }

  /** What a line adds to what is written: its trimmed text, or nothing for a repeated blank line. */
  lemma CollapsedAppends(lines: seq<string>, line: string)
    ensures var m := Marks(lines);
            var trimmed := TrimEnd(line);
            && Marks(lines + [line]).blank == (trimmed == "")
            && Collapsed(Marks(lines + [line])) ==
               if trimmed == "" && m.blank then Collapsed(m) else Collapsed(m) + [trimmed]
  {
    assert (lines + [line])[..|lines|] == lines;
    var m := Marks(lines);
    var trimmed := TrimEnd(line);
    if trimmed == "" {
      NothingAppended(Rebuilt(m.marks));
    } else {
      RebuiltAppends(m.marks, Mark(m.blank, trimmed));
      NothingAppended(Rebuilt(m.marks));
      NothingAppended(Rebuilt(m.marks + [Mark(m.blank, trimmed)]));
      assert ["", trimmed] == [""] + [trimmed];
      AppendLater(Rebuilt(m.marks), [""], [trimmed], ["", trimmed]);
    }
  }

  method Normalise(text: string) returns (r: string)
    ensures r == Normal(text)
  {
    var out := "";
    var blank := 0;
    var lines := Lines(text);
    for i := 0 to |lines|
      invariant out == Written(Collapsed(Marks(lines[..i])))
      invariant blank >= 0 && (blank > 0 <==> Marks(lines[..i]).blank)
    {
      assert lines[..i + 1] == lines[..i] + [lines[i]];
      CollapsedAppends(lines[..i], lines[i]);
      var trimmed := TrimEnd(lines[i]);
      TrimIsBlank(lines[i]);
      WrittenAppends(Collapsed(Marks(lines[..i])), trimmed);
      if Trim(trimmed) == "" {
        blank := blank + 1;
        if blank > 1 {
          continue;
        }
      } else {
        blank := 0;
      }
      out := out + (trimmed + [NEWLINE]);
    }
    assert lines[..|lines|] == lines;
    r := Trim(out);
    TrimmedIsNormal(text);
  }

  // ---- trimming what the loop wrote ----

  /** Right-trimmed and not empty, on one line. */
  predicate Solid(line: string) {
    line != "" && !IsWhitespace(line[|line| - 1]) && NEWLINE !in line
  }

  predicate AllSolid(marks: seq<Mark>) {
    forall i :: 0 <= i < |marks| ==> Solid(marks[i].line)
  }

  lemma {:induction false} TrimEndDrops(s: string, tail: string)
    requires IsBlank(tail)
    ensures TrimEnd(s + tail) == TrimEnd(s)
    decreases |tail|
  {
    if tail == "" {
      NothingAppended(s);
    } else {
      LastOfWhole(s, tail);
      TrimEndDrops(s, tail[..|tail| - 1]);
    }
  }

  lemma TrimEndKeeps(s: string)
    requires s != "" && !IsWhitespace(s[|s| - 1])
    ensures TrimEnd(s) == s
  {
  }

  lemma {:induction false} TrimStartInside(s: string, rest: string)
    requires !IsBlank(s)
    ensures TrimStart(s + rest) == TrimStart(s) + rest
    decreases |s|
  {
    if IsWhitespace(s[0]) {
      assert (s + rest)[1..] == s[1..] + rest;
      var k :| 0 <= k < |s| && !IsWhitespace(s[k]);
      assert s[1..][k - 1] == s[k];
      TrimStartInside(s[1..], rest);
    }
  }

  lemma {:induction false} LinesAreOneLine(text: string)
    ensures forall i :: 0 <= i < |Lines(text)| ==> NEWLINE !in Lines(text)[i]
    decreases |text|
  {
    if text != "" && NEWLINE in text {
      LinesAreOneLine(text[IndexOf(text, NEWLINE) + 1..]);
    }
  }

  lemma {:induction false} MarksAreSolid(lines: seq<string>)
    requires forall i :: 0 <= i < |lines| ==> NEWLINE !in lines[i]
    ensures AllSolid(Marks(lines).marks)
    decreases |lines|
  {
    if lines != [] {
      MarksAreSolid(lines[..|lines| - 1]);
      TrimEndCuts(lines[|lines| - 1]);
    }
  }

  lemma {:induction false} WrittenIsJoined(lines: seq<string>)
    requires lines != []
    ensures Written(lines) == Joined(lines) + [NEWLINE]
    decreases |lines|
  {
    if |lines| > 1 {
      var front, last := lines[..|lines| - 1], lines[|lines| - 1];
      WrittenIsJoined(front);
      assert (Joined(front) + [NEWLINE]) + (last + [NEWLINE]) == (Joined(front) + ([NEWLINE] + last)) + [NEWLINE];
    } else {
      assert lines[..0] == [];
      assert "" + (lines[0] + [NEWLINE]) == lines[0] + [NEWLINE];
    }
  }

  lemma {:induction false} JoinedFront(line: string, rest: seq<string>)
    requires rest != []
    ensures Joined([line] + rest) == line + ([NEWLINE] + Joined(rest))
    decreases |rest|
  {
    LastOfWhole([line], rest);
    if |rest| > 1 {
      var front, last := rest[..|rest| - 1], rest[|rest| - 1];
      JoinedFront(line, front);
      assert (line + ([NEWLINE] + Joined(front))) + ([NEWLINE] + last)
          == line + ([NEWLINE] + (Joined(front) + ([NEWLINE] + last)));
    } else {
      assert rest[..0] == [];
      NothingAppended([line]);
    }
  }

  lemma {:induction false} RebuiltFront(mark: Mark, rest: seq<Mark>)
    ensures Rebuilt([mark] + rest) == (if mark.gap then ["", mark.line] else [mark.line]) + Rebuilt(rest)
    decreases |rest|
  {
    var block := if mark.gap then ["", mark.line] else [mark.line];
    if rest == [] {
      NothingAppended([mark]);
      NothingAppended(block);
      RebuiltAppends([], mark);
    } else {
      var front, last := rest[..|rest| - 1], rest[|rest| - 1];
      RebuiltFront(mark, front);
      LastOfWhole([mark], rest);
      AppendLater(block, Rebuilt(front), if last.gap then ["", last.line] else [last.line], Rebuilt(rest));
    }
  }

  lemma JoinedEnds(marks: seq<Mark>)
    requires marks != [] && AllSolid(marks)
    ensures var s := Joined(Rebuilt(marks)); s != "" && !IsWhitespace(s[|s| - 1])
  {
    RebuiltEnds(marks);
    LinesEndSolid(Rebuilt(marks), marks[|marks| - 1].line);
  }

  lemma RebuiltEnds(marks: seq<Mark>)
    requires marks != [] && AllSolid(marks)
    ensures var lines, last := Rebuilt(marks), marks[|marks| - 1].line;
            lines != [] && lines[|lines| - 1] == last && Solid(last)
  {
  }

  lemma LinesEndSolid(lines: seq<string>, last: string)
    requires lines != [] && lines[|lines| - 1] == last && Solid(last)
    ensures var s := Joined(lines); s != "" && !IsWhitespace(s[|s| - 1])
  {
    JoinedEndsAsLast(lines);
  }

  lemma JoinedEndsAsLast(lines: seq<string>)
    requires lines != [] && lines[|lines| - 1] != ""
    ensures var s, last := Joined(lines), lines[|lines| - 1]; s != "" && s[|s| - 1] == last[|last| - 1]
  {
  }

  /** Leading space of the whole is leading space of the first line, and a gap before it. */
  lemma TrimStartIsHeaded(marks: seq<Mark>)
    requires marks != [] && AllSolid(marks)
    ensures TrimStart(Joined(Rebuilt(marks))) == Joined(Rebuilt(Headed(marks)))
  {
    var first, rest := marks[0], marks[1..];
    assert marks == [first] + rest && Solid(first.line);
    RebuiltFront(first, rest);
    RebuiltFront(Mark(false, TrimStart(first.line)), rest);
    TrimStartOfLines(first.line, Rebuilt(rest));
    if first.gap {
      TrimStartOfGap(first.line, Rebuilt(rest));
    }
  }

  lemma TrimStartOfGap(line: string, rest: seq<string>)
    ensures TrimStart(Joined(["", line] + rest)) == TrimStart(Joined([line] + rest))
  {
    var lines := [line] + rest;
    assert ["", line] + rest == [""] + lines;
    JoinedFront("", lines);
    NothingAppended([NEWLINE] + Joined(lines));
    assert ([NEWLINE] + Joined(lines))[1..] == Joined(lines);
  }

  lemma TrimStartOfLines(line: string, rest: seq<string>)
    requires Solid(line)
    ensures TrimStart(Joined([line] + rest)) == Joined([TrimStart(line)] + rest)
  {
    assert !IsBlank(line);
    if rest == [] {
      NothingAppended([line]);
      NothingAppended([TrimStart(line)]);
    } else {
      JoinedFront(line, rest);
      JoinedFront(TrimStart(line), rest);
      TrimStartInside(line, [NEWLINE] + Joined(rest));
    }
  }

  lemma TrimOfSolid(s: string, tail: string)
    requires s != "" && !IsWhitespace(s[|s| - 1]) && IsBlank(tail)
    ensures Trim(s + tail) == TrimStart(s)
  {
    assert !IsBlank(s);
    TrimStartInside(s, tail);
    TrimEndDrops(TrimStart(s), tail);
    TrimStartKeepsEnd(s);
    TrimEndKeeps(TrimStart(s));
  }

  /** Trimming what the loop wrote gives the normal form. */
  lemma TrimmedIsNormal(text: string)
    ensures Trim(Written(Collapsed(Marks(Lines(text))))) == Normal(text)
  {
    var m := Marks(Lines(text));
    LinesAreOneLine(text);
    MarksAreSolid(Lines(text));
    if m.marks == [] {
      TrimOfNothing(m.blank);
    } else {
      WrittenEnds(m);
      TrimOfWritten(m);
      TrimStartIsHeaded(m.marks);
    }
  }

  lemma TrimOfNothing(blank: bool)
    ensures Trim(Written(Collapsed(Marked([], blank)))) == ""
  {
    WrittenAppends([], "");
    NothingAppended([NEWLINE]);
    NothingAppended([""]);
    assert IsWhitespace(NEWLINE);
    assert Written([""]) == [NEWLINE];
    TrimIsEmptyIffBlank([NEWLINE]);
    TrimIsEmptyIffBlank("");
  }

  lemma WrittenEnds(m: Marked)
    requires m.marks != []
    ensures Written(Collapsed(m)) == Joined(Rebuilt(m.marks)) + if m.blank then [NEWLINE, NEWLINE] else [NEWLINE]
  {
    var lines := Rebuilt(m.marks);
    WrittenIsJoined(lines);
    if m.blank {
      WrittenAppends(lines, "");
      EndsTwice(Joined(lines));
    } else {
      NothingAppended(lines);
    }
  }

  lemma EndsTwice(s: string)
    ensures (s + [NEWLINE]) + ("" + [NEWLINE]) == s + [NEWLINE, NEWLINE]
  {
  }

  lemma TrimOfWritten(m: Marked)
    requires m.marks != [] && AllSolid(m.marks)
    requires Written(Collapsed(m)) == Joined(Rebuilt(m.marks)) + if m.blank then [NEWLINE, NEWLINE] else [NEWLINE]
    ensures Trim(Written(Collapsed(m))) == TrimStart(Joined(Rebuilt(m.marks)))
  {
    JoinedEnds(m.marks);
    var tail := if m.blank then [NEWLINE, NEWLINE] else [NEWLINE];
    TailIsBlank(tail);
    TrimOfSolid(Joined(Rebuilt(m.marks)), tail);
  }

  lemma TailIsBlank(tail: string)
    requires forall i :: 0 <= i < |tail| ==> tail[i] == NEWLINE
    ensures IsBlank(tail)
  {
    assert IsWhitespace(NEWLINE);
  }

  // ---- reading the result again ----

  lemma {:induction false} LinesOfJoined(lines: seq<string>)
    requires forall i :: 0 <= i < |lines| ==> NEWLINE !in lines[i] && Chop(lines[i]) == lines[i]
    requires lines != [] ==> lines[|lines| - 1] != ""
    ensures Lines(Joined(lines)) == lines
    decreases |lines|
  {
    if |lines| > 1 {
      var rest := lines[1..];
      LinesOfJoined(rest);
      assert lines == [lines[0]] + rest;
      JoinedFront(lines[0], rest);
      LineIsFirst(lines[0], Joined(rest));
    } else if |lines| == 1 {
      assert lines == [lines[0]];
    }
  }

  lemma LineIsFirst(line: string, rest: string)
    requires NEWLINE !in line && Chop(line) == line
    ensures Lines(line + ([NEWLINE] + rest)) == [line] + Lines(rest)
  {
    FirstIndex(line, NEWLINE, rest);
    LineCuts(line, rest);
    LinesUnfold(line + ([NEWLINE] + rest), |line|);
  }

  lemma LinesUnfold(text: string, i: nat)
    requires NEWLINE in text && IndexOf(text, NEWLINE) == i
    ensures Lines(text) == [Chop(text[..i])] + Lines(text[i + 1..])
  {
  }

  lemma LineCuts(line: string, rest: string)
    ensures var text := line + ([NEWLINE] + rest);
            |text| > |line| && text[..|line|] == line && text[|line| + 1..] == rest
  {
  }

  lemma {:induction false} FirstIndex(line: string, c: char, rest: string)
    requires c !in line
    ensures var text := line + ([c] + rest); c in text && IndexOf(text, c) == |line|
    decreases |line|
  {
    var text := line + ([c] + rest);
    assert text[|line|] == c;
    if line != "" {
      FirstIndex(line[1..], c, rest);
      assert text[1..] == line[1..] + ([c] + rest);
      assert text[0] == line[0] && line[0] in line;
    }
  }

  lemma MarksAppend(lines: seq<string>, line: string)
    ensures var m := Marks(lines);
            Marks(lines + [line]) == if TrimEnd(line) == "" then m.(blank := true)
                                     else Marked(m.marks + [Mark(m.blank, TrimEnd(line))], false)
  {
    assert (lines + [line])[..|lines|] == lines;
  }

  /** Rebuilding loses nothing: the marks come back. */
  lemma {:induction false} MarksOfRebuilt(marks: seq<Mark>)
    requires AllSolid(marks)
    ensures Marks(Rebuilt(marks)) == Marked(marks, false)
    decreases |marks|
  {
    if marks != [] {
      var front, last := marks[..|marks| - 1], marks[|marks| - 1];
      MarksOfRebuilt(front);
      assert Solid(last.line);
      var lines := Rebuilt(front);
      assert marks == front + [last];
      if last.gap {
        MarksAppend(lines, "");
        MarksAppend(lines + [""], last.line);
        assert lines + ["", last.line] == (lines + [""]) + [last.line];
      } else {
        MarksAppend(lines, last.line);
      }
    }
  }

  lemma HeadedIsSolid(marks: seq<Mark>)
    requires AllSolid(marks)
    ensures AllSolid(Headed(marks))
  {
    if marks != [] {
      var line := marks[0].line;
      assert Solid(line);
      TrimStartCuts(line);
      TrimStartKeepsEnd(line);
    }
  }

  /** The lines of rebuilt marks: no two blank in a row, nothing trailing, and the first and last not blank. */
  predicate Tidy(lines: seq<string>) {
    && (forall i :: 0 <= i < |lines| ==> TrimEnd(lines[i]) == lines[i] && NEWLINE !in lines[i])
    && (forall i, j :: 0 <= i && j == i + 1 < |lines| ==> lines[i] != "" || lines[j] != "")
    && (lines != [] ==> lines[|lines| - 1] != "")
  }

  lemma {:induction false} RebuiltIsTidy(marks: seq<Mark>)
    requires AllSolid(marks)
    ensures Tidy(Rebuilt(marks))
    ensures marks != [] ==> |Rebuilt(marks)| > 0
    decreases |marks|
  {
    if marks != [] {
      var front, last := marks[..|marks| - 1], marks[|marks| - 1];
      RebuiltIsTidy(front);
      assert Solid(last.line);
      TrimEndKeeps(last.line);
      assert last.line != "";
    }
  }

  lemma ChopKeeps(line: string)
    requires TrimEnd(line) == line
    ensures Chop(line) == line
  {
    if line != "" && line[|line| - 1] == '\r' {
      TrimEndCuts(line[..|line| - 1]);
    }
  }

  /** The normal form read back: the same non-blank lines and gaps, but for what comes before the first. */
  lemma ContentIsKept(text: string)
    ensures Lines(Normal(text)) == Rebuilt(Headed(Marks(Lines(text)).marks))
    ensures Marks(Lines(Normal(text))) == Marked(Headed(Marks(Lines(text)).marks), false)
  {
    var marks := Headed(Marks(Lines(text)).marks);
    LinesAreOneLine(text);
    MarksAreSolid(Lines(text));
    HeadedIsSolid(Marks(Lines(text)).marks);
    RebuiltIsTidy(marks);
    forall i | 0 <= i < |Rebuilt(marks)| ensures Chop(Rebuilt(marks)[i]) == Rebuilt(marks)[i] {
      ChopKeeps(Rebuilt(marks)[i]);
    }
    LinesOfJoined(Rebuilt(marks));
    MarksOfRebuilt(marks);
  }

  /** No two blank lines in a row, no trailing space, and neither end blank. */
  lemma NormalIsTidy(text: string)
    ensures Tidy(Lines(Normal(text)))
    ensures Lines(Normal(text)) != [] ==> TrimStart(Lines(Normal(text))[0]) == Lines(Normal(text))[0] != ""
  {
    ContentIsKept(text);
    LinesAreOneLine(text);
    MarksAreSolid(Lines(text));
    var marks := Headed(Marks(Lines(text)).marks);
    HeadedIsSolid(Marks(Lines(text)).marks);
    RebuiltIsTidy(marks);
    if marks != [] {
      assert marks == [marks[0]] + marks[1..];
      RebuiltFront(marks[0], marks[1..]);
      assert Solid(marks[0].line);
      TrimStartCuts(Marks(Lines(text)).marks[0].line);
    }
  }

  /** Normalising twice is normalising once. */
  lemma NormalIsIdempotent(text: string)
    ensures Normal(Normal(text)) == Normal(text)
  {
    ContentIsKept(text);
    var marks := Marks(Lines(text)).marks;
    if marks != [] {
      TrimStartCuts(marks[0].line);
      assert TrimStart(TrimStart(marks[0].line)) == TrimStart(marks[0].line);
      assert Headed(Headed(marks)) == Headed(marks);
    }
  }
}
