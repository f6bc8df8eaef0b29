/** What `normalise` does to a text, said without the marks: which characters stay, and which texts stay whole. */
module NormaliseLaws {
  import opened Seqs
  import opened Text
  import opened Normalise

  // ---- every character that is not white space stays, in its order ----

  function Ink(s: string): string
    decreases |s|
  {
    if s == "" then "" else Ink(s[..|s| - 1]) + if IsWhitespace(s[|s| - 1]) then "" else [s[|s| - 1]]
  }

  lemma {:induction false} InkAppends(a: string, b: string)
    ensures Ink(a + b) == Ink(a) + Ink(b)
    decreases |b|
  {
    if b == "" {
      NothingAppended(a);
      NothingAppended(Ink(a));
    } else {
      LastOfWhole(a, b);
      InkAppends(a, b[..|b| - 1]);
      AppendLater(Ink(a), Ink(b[..|b| - 1]), if IsWhitespace(b[|b| - 1]) then "" else [b[|b| - 1]], Ink(b));
    }
  }

  lemma {:induction false} BlankHasNoInk(s: string)
    requires IsBlank(s)
    ensures Ink(s) == ""
    decreases |s|
  {
    if s != "" {
      BlankHasNoInk(s[..|s| - 1]);
    }
  }

  lemma BlanksHaveNoInk(lead: string, s: string, tail: string)
    requires IsBlank(lead) && IsBlank(tail)
    ensures Ink((lead + s) + tail) == Ink(s)
  {
    InkAppends(lead + s, tail);
    InkAppends(lead, s);
    BlankHasNoInk(lead);
    BlankHasNoInk(tail);
    NothingAppended(Ink(s));
  }

  lemma TrimKeepsInk(s: string)
    ensures Ink(Trim(s)) == Ink(s)
  {
    var lead, tail := TrimIsInner(s);
    BlanksHaveNoInk(lead, Trim(s), tail);
  }

  lemma TrimEndKeepsInk(s: string)
    ensures Ink(TrimEnd(s)) == Ink(s)
  {
    TrimEndCuts(s);
    var tail := s[|TrimEnd(s)|..];
    NothingAppended(TrimEnd(s));
    assert s == TrimEnd(s) + tail;
    BlanksHaveNoInk("", TrimEnd(s), tail);
  }

  lemma SpaceHasNoInk()
    ensures IsBlank([NEWLINE]) && IsBlank(['\r']) && IsBlank(['\r', NEWLINE])
  {
    assert IsWhitespace(NEWLINE) && IsWhitespace('\r');
  }

  function InkOf(lines: seq<string>): string
    decreases |lines|
  {
    if lines == [] then "" else InkOf(lines[..|lines| - 1]) + Ink(lines[|lines| - 1])
  }

  lemma InkOfOneMore(lines: seq<string>, line: string)
    ensures InkOf(lines + [line]) == InkOf(lines) + Ink(line)
  {
    assert (lines + [line])[..|lines|] == lines;
  }

  lemma {:induction false} InkOfFront(line: string, rest: seq<string>)
    ensures InkOf([line] + rest) == Ink(line) + InkOf(rest)
    decreases |rest|
  {
    if rest == [] {
      NothingAppended([line]);
      InkOfOneMore([], line);
      NothingAppended(Ink(line));
    } else {
      var front, last := rest[..|rest| - 1], rest[|rest| - 1];
      LastOfWhole([line], rest);
      InkOfFront(line, front);
      AppendLater(Ink(line), InkOf(front), Ink(last), InkOf(rest));
    }
  }

  lemma ChopKeepsInk(line: string)
    ensures Ink(Chop(line)) == Ink(line)
  {
    if Chop(line) != line {
      SpaceHasNoInk();
      assert line == Chop(line) + ['\r'];
      NothingAppended(Chop(line));
      BlanksHaveNoInk("", Chop(line), ['\r']);
    }
  }

  lemma LineThenRest(text: string, i: nat)
    requires i < |text| && text[i] == NEWLINE
    ensures Ink(text) == Ink(text[..i]) + Ink(text[i + 1..])
  {
    assert text == (text[..i] + [NEWLINE]) + text[i + 1..];
    InkAppends(text[..i] + [NEWLINE], text[i + 1..]);
    InkAppends(text[..i], [NEWLINE]);
    SpaceHasNoInk();
    BlankHasNoInk([NEWLINE]);
    NothingAppended(Ink(text[..i]));
  }

  lemma {:induction false} LinesKeepInk(text: string)
    ensures InkOf(Lines(text)) == Ink(text)
    decreases |text|
  {
    if text != "" && NEWLINE in text {
      var i := IndexOf(text, NEWLINE);
      LinesKeepInk(text[i + 1..]);
      InkOfFront(Chop(text[..i]), Lines(text[i + 1..]));
      ChopKeepsInk(text[..i]);
      LineThenRest(text, i);
    } else if text != "" {
      InkOfOneMore([], text);
      NothingAppended([text]);
      NothingAppended(Ink(text));
    }
  }

  lemma {:induction false} WrittenKeepsInk(lines: seq<string>)
    ensures Ink(Written(lines)) == InkOf(lines)
    decreases |lines|
  {
    if lines != [] {
      var front, last := lines[..|lines| - 1], lines[|lines| - 1];
      WrittenKeepsInk(front);
      InkAppends(Written(front), last + [NEWLINE]);
      InkAppends(last, [NEWLINE]);
      SpaceHasNoInk();
      BlankHasNoInk([NEWLINE]);
      NothingAppended(Ink(last));
    }
  }

  lemma LineKeepsInk(written: seq<string>, line: string, after: seq<string>)
    requires after == written + [TrimEnd(line)] || (TrimEnd(line) == "" && after == written)
    ensures InkOf(after) == InkOf(written) + Ink(line)
  {
    TrimEndKeepsInk(line);
    InkOfOneMore(written, TrimEnd(line));
    NothingAppended(InkOf(written));
  }

  lemma CollapsedLine(lines: seq<string>, line: string)
    requires InkOf(Collapsed(Marks(lines))) == InkOf(lines)
    ensures InkOf(Collapsed(Marks(lines + [line]))) == InkOf(lines + [line])
  {
    CollapsedAppends(lines, line);
    LineKeepsInk(Collapsed(Marks(lines)), line, Collapsed(Marks(lines + [line])));
    InkOfOneMore(lines, line);
  }

  lemma {:induction false} CollapsedKeepsInk(lines: seq<string>, n: nat)
    requires n <= |lines|
    ensures InkOf(Collapsed(Marks(lines[..n]))) == InkOf(lines[..n])
  {
    if n == 0 {
      NothingIsCollapsed(lines[..n]);
    } else {
      CollapsedKeepsInk(lines, n - 1);
      FrontGrows(lines, n - 1);
      CollapsedLine(lines[..n - 1], lines[n - 1]);
    }
  }

  lemma NothingIsCollapsed(lines: seq<string>)
    requires lines == []
    ensures InkOf(Collapsed(Marks(lines))) == InkOf(lines)
  {
  }

  /** Nothing but white space comes or goes. */
  lemma InkIsKept(text: string)
    ensures Ink(Normal(text)) == Ink(text)
  {
    var lines := Collapsed(Marks(Lines(text)));
    TrimmedIsNormal(text);
    TrimKeepsInk(Written(lines));
    WrittenKeepsInk(lines);
    CollapsedKeepsInk(Lines(text), |Lines(text)|);
    assert Lines(text)[..|Lines(text)|] == Lines(text);
    LinesKeepInk(text);
  }

  // ---- lines end as `str::lines` says ----

  /** A line feed, with a carriage return before it or not, ends a line. */
  lemma LineEndings(line: string, rest: string)
    requires NEWLINE !in line && (line != "" ==> line[|line| - 1] != '\r')
    ensures Lines(line + ([NEWLINE] + rest)) == [line] + Lines(rest)
    ensures Lines((line + ['\r']) + ([NEWLINE] + rest)) == [line] + Lines(rest)
    ensures Lines(line) == if line == "" then [] else [line]
  {
    LineIsFirst(line, rest);
    var returned := line + ['\r'];
    assert Chop(returned) == line;
    FirstIndex(returned, NEWLINE, rest);
    LineCuts(returned, rest);
    LinesUnfold(returned + ([NEWLINE] + rest), |returned|);
  }

  // ---- tidy texts stay as they are ----

  lemma {:induction false} TidyLinesStay(lines: seq<string>)
    requires forall i :: 0 <= i < |lines| ==> TrimEnd(lines[i]) == lines[i]
    requires forall i, j :: 0 <= i && j == i + 1 < |lines| ==> lines[i] != "" || lines[j] != ""
    ensures Collapsed(Marks(lines)) == lines
    ensures lines != [] ==> (Marks(lines).blank <==> lines[|lines| - 1] == "")
    decreases |lines|
  {
    if lines == [] {
      assert Collapsed(Marks([])) == [];
    } else {
      var front, last := lines[..|lines| - 1], lines[|lines| - 1];
      TidyLinesStay(front);
      assert lines == front + [last];
      CollapsedAppends(front, last);
    }
  }

  lemma FirstMarkIsLine(marks: seq<Mark>)
    requires marks != [] && Rebuilt(marks)[0] != ""
    ensures !marks[0].gap && marks[0].line == Rebuilt(marks)[0]
  {
    assert marks == [marks[0]] + marks[1..];
    RebuiltFront(marks[0], marks[1..]);
  }

  /** Lines without trailing space, no two blank in a row, neither end blank and the first not indented: the text
    * they make is its own normal form.
    */
  lemma TidyTextStays(lines: seq<string>)
    requires Tidy(lines)
    requires lines != [] ==> lines[0] != "" && TrimStart(lines[0]) == lines[0]
    ensures Normal(Joined(lines)) == Joined(lines)
  {
    forall i | 0 <= i < |lines| ensures Chop(lines[i]) == lines[i] {
      ChopKeeps(lines[i]);
    }
    LinesOfJoined(lines);
    TidyLinesStay(lines);
    var m := Marks(lines);
    if lines == [] {
      assert m.marks == [];
    } else {
      assert !m.blank;
      NothingAppended(Rebuilt(m.marks));
      FirstMarkIsLine(m.marks);
      assert Headed(m.marks) == m.marks;
    }
  }
}
