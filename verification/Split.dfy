/** `split`: the quote-aware tokenizer of the command line. */
module Split {
  import opened Wrappers
  import opened Seqs
  import opened Text

  predicate IsMark(c: char) {
    c == '"' || c == '\''
  }

  // ---- the character loop as steps ----

  /** The loop's variables. */
  datatype State = State(words: seq<string>, current: string, started: bool, quote: Option<char>)

  const START := State([], "", false, None)

  function Step(s: State, c: char): State {
    match s.quote
    case Some(open) => if c == open then s.(quote := None) else s.(current := s.current + [c])
    case None =>
      if IsMark(c) then s.(quote := Some(c), started := true)
      else if IsWhitespace(c) then
        if s.started then State(s.words + [s.current], "", false, None) else s
      else s.(current := s.current + [c], started := true)
  }

  function Feed(s: State, text: string): State
    decreases |text|
  {
    if text == "" then s else Step(Feed(s, text[..|text| - 1]), text[|text| - 1])
  }

  function Finish(s: State): Result<seq<string>, string> {
    if s.quote.Some? then Err("quote") else Ok(s.words + if s.started then [s.current] else [])
  }

  method Split(text: string) returns (r: Result<seq<string>, string>)
    ensures r == Finish(Feed(START, text))
  {
    var words: seq<string> := [];
    var current := "";
    var started := false;
    var quote: Option<char> := None;
    for i := 0 to |text|
      invariant State(words, current, started, quote) == Feed(START, text[..i])
    {
      assert text[..i + 1][..i] == text[..i];
      var character := text[i];
      if quote.Some? {
        if character == quote.value {
          quote := None;
        } else {
          current := current + [character];
        }
      } else if character == '"' || character == '\'' {
        quote := Some(character);
        started := true;
      } else if IsWhitespace(character) {
        if started {
          words := words + [current];
          current := "";
          started := false;
        }
      } else {
        current := current + [character];
        started := true;
      }
    }
    assert text[..|text|] == text;
    NothingAppended(words);
    if quote.Some? {
      return Err("quote");
    }
    if started {
      words := words + [current];
    }
    return Ok(words);
  }

  // ---- the grammar: words of bare and quoted pieces, separated by white space ----

  datatype Piece = Bare(text: string) | Quoted(mark: char, text: string)

  datatype Item = Item(pieces: seq<Piece>, gap: string)

  datatype Line = Line(lead: string, items: seq<Item>)

  predicate PieceOk(p: Piece) {
    match p
    case Bare(text) => text != "" && forall i :: 0 <= i < |text| ==> !IsMark(text[i]) && !IsWhitespace(text[i])
    case Quoted(mark, text) => IsMark(mark) && mark !in text
  }

  predicate PiecesOk(ps: seq<Piece>) {
    forall i :: 0 <= i < |ps| ==> PieceOk(ps[i])
  }

  /** A word has a piece, if only an empty quoted one. */
  predicate ItemOk(item: Item) {
    item.pieces != [] && PiecesOk(item.pieces) && IsBlank(item.gap)
  }

  predicate Separated(items: seq<Item>) {
    forall i :: 0 <= i < |items| ==> ItemOk(items[i]) && items[i].gap != ""
  }

  /** Only the last word may be followed by nothing. */
  predicate LineOk(line: Line) {
    && IsBlank(line.lead)
    && (forall i :: 0 <= i < |line.items| ==> ItemOk(line.items[i]))
    && (forall i :: 0 <= i < |line.items| - 1 ==> line.items[i].gap != "")
  }

  function PieceText(p: Piece): string {
    match p
    case Bare(text) => text
    case Quoted(mark, text) => [mark] + text + [mark]
  }

  function PiecesText(ps: seq<Piece>): string
    decreases |ps|
  {
    if ps == [] then "" else PiecesText(ps[..|ps| - 1]) + PieceText(ps[|ps| - 1])
  }

  function WordOf(ps: seq<Piece>): string
    decreases |ps|
  {
    if ps == [] then "" else WordOf(ps[..|ps| - 1]) + ps[|ps| - 1].text
  }

  function ItemsText(items: seq<Item>): string
    decreases |items|
  {
    if items == [] then ""
    else ItemsText(items[..|items| - 1]) + ItemText(items[|items| - 1])
  }

  function ItemText(item: Item): string {
    PiecesText(item.pieces) + item.gap
  }

  function Words(items: seq<Item>): seq<string>
    decreases |items|
  {
    if items == [] then [] else Words(items[..|items| - 1]) + [WordOf(items[|items| - 1].pieces)]
  }

  function LineText(line: Line): string {
    line.lead + ItemsText(line.items)
  }

  // ---- a line of the grammar is split into its words ----

  lemma FeedOne(s: State, text: string, c: char)
    ensures Feed(s, text + [c]) == Step(Feed(s, text), c)
  {
    assert (text + [c])[..|text|] == text;
  }

  lemma {:induction false} FeedAppends(s: State, a: string, b: string)
    ensures Feed(s, a + b) == Feed(Feed(s, a), b)
    decreases |b|
  {
    if b == "" {
      assert a + b == a;
    } else {
      FeedAppends(s, a, b[..|b| - 1]);
      assert a + b == (a + b[..|b| - 1]) + [b[|b| - 1]];
      FeedOne(s, a + b[..|b| - 1], b[|b| - 1]);
    }
  }

  lemma {:induction false} FeedBare(s: State, text: string)
    requires s.quote.None? && forall i :: 0 <= i < |text| ==> !IsMark(text[i]) && !IsWhitespace(text[i])
    ensures Feed(s, text) == s.(current := s.current + text, started := s.started || text != "")
    decreases |text|
  {
    if text != "" {
      FeedBare(s, text[..|text| - 1]);
      assert s.current + text == (s.current + text[..|text| - 1]) + [text[|text| - 1]];
    } else {
      assert s.current + text == s.current;
    }
  }

  lemma {:induction false} FeedInside(s: State, text: string)
    requires s.quote.Some? && s.quote.value !in text
    ensures Feed(s, text) == s.(current := s.current + text)
    decreases |text|
  {
    if text != "" {
      FeedInside(s, text[..|text| - 1]);
      assert s.current + text == (s.current + text[..|text| - 1]) + [text[|text| - 1]];
    } else {
      assert s.current + text == s.current;
    }
  }

  lemma FeedPiece(s: State, p: Piece)
    requires s.quote.None? && PieceOk(p)
    ensures Feed(s, PieceText(p)) == s.(current := s.current + p.text, started := true)
  {
    match p {
      case Bare(text) => FeedBare(s, text);
      case Quoted(mark, text) =>
        assert [mark][..0] == "";
        var inside := Step(s, mark);
        assert Feed(s, [mark]) == inside;
        FeedInside(inside, text);
        FeedAppends(s, [mark], text);
        FeedOne(s, [mark] + text, mark);
    }
  }

  lemma {:induction false} FeedPieces(s: State, ps: seq<Piece>)
    requires s.quote.None? && PiecesOk(ps)
    ensures Feed(s, PiecesText(ps)) == s.(current := s.current + WordOf(ps), started := s.started || ps != [])
    decreases |ps|
  {
    if ps != [] {
      var front, last := ps[..|ps| - 1], ps[|ps| - 1];
      FeedPieces(s, front);
      FeedAppends(s, PiecesText(front), PieceText(last));
      FeedPiece(Feed(s, PiecesText(front)), last);
      AppendLater(s.current, WordOf(front), last.text, WordOf(ps));
    } else {
      NothingAppended(s.current);
    }
  }

  lemma {:induction false} FeedGap(s: State, gap: string)
    requires s.quote.None? && IsBlank(gap)
    ensures Feed(s, gap) == if gap != "" && s.started then State(s.words + [s.current], "", false, None) else s
    decreases |gap|
  {
    if gap != "" {
      FeedGap(s, gap[..|gap| - 1]);
      MarksAreNotSpace(gap[|gap| - 1]);
    }
  }

  lemma MarksAreNotSpace(c: char)
    ensures !(IsMark(c) && IsWhitespace(c))
  {
    if IsMark(c) {
      OutOfRanges(c as int, WHITE_SPACE);
    }
  }

  lemma FeedItem(s: State, item: Item)
    requires s.quote.None? && !s.started && s.current == "" && ItemOk(item)
    ensures Feed(s, ItemText(item)) ==
            if item.gap != "" then State(s.words + [WordOf(item.pieces)], "", false, None)
            else State(s.words, WordOf(item.pieces), true, None)
  {
    FeedPieces(s, item.pieces);
    NothingAppended(WordOf(item.pieces));
    FeedAppends(s, PiecesText(item.pieces), item.gap);
    FeedGap(Feed(s, PiecesText(item.pieces)), item.gap);
  }

  lemma {:induction false} FeedItems(items: seq<Item>)
    requires Separated(items)
    ensures Feed(START, ItemsText(items)) == State(Words(items), "", false, None)
    decreases |items|
  {
    if items != [] {
      var front, last := items[..|items| - 1], items[|items| - 1];
      FeedItems(front);
      FeedItem(State(Words(front), "", false, None), last);
      FeedAppends(START, ItemsText(front), ItemText(last));
    }
  }

  lemma FeedLead(lead: string, rest: string)
    requires IsBlank(lead)
    ensures Feed(START, lead + rest) == Feed(START, rest)
  {
    FeedGap(START, lead);
    FeedAppends(START, lead, rest);
  }

  /** Every line of the grammar splits into exactly its words. */
  lemma LinesAreSplit(line: Line)
    requires LineOk(line)
    ensures Finish(Feed(START, LineText(line))) == Ok(Words(line.items))
  {
    FeedLead(line.lead, ItemsText(line.items));
    NothingAppended(Words(line.items));
    if line.items != [] {
      var front, last := line.items[..|line.items| - 1], line.items[|line.items| - 1];
      FeedItems(front);
      FeedAppends(START, ItemsText(front), ItemText(last));
      FeedItem(State(Words(front), "", false, None), last);
    }
  }

  // ---- whatever splits is a line of the grammar ----

  /** A quote still open and what it holds so far. */
  datatype Part = Part(mark: char, text: string)

  /** How a prefix of a line reads: finished words, the pieces of the current one and the open quote. */
  datatype Reading = Reading(lead: string, items: seq<Item>, pieces: seq<Piece>, part: Option<Part>)

  function Widen(items: seq<Item>, c: char): seq<Item>
    requires items != []
  {
    var last := items[|items| - 1];
    items[..|items| - 1] + [last.(gap := last.gap + [c])]
  }

  function Extend(r: Reading, c: char): Reading {
    match r.part
    case Some(Part(mark, text)) =>
      if c == mark then r.(pieces := r.pieces + [Quoted(mark, text)], part := None)
      else r.(part := Some(Part(mark, text + [c])))
    case None =>
      if IsMark(c) then r.(part := Some(Part(c, "")))
      else if !IsWhitespace(c) then r.(pieces := r.pieces + [Bare([c])])
      else if r.pieces != [] then r.(items := r.items + [Item(r.pieces, [c])], pieces := [])
      else if r.items == [] then r.(lead := r.lead + [c])
      else r.(items := Widen(r.items, c))
  }

  function PartText(part: Option<Part>): string {
    if part.Some? then [part.value.mark] + part.value.text else ""
  }

  function ReadingText(r: Reading): string {
    (r.lead + ItemsText(r.items)) + (PiecesText(r.pieces) + PartText(r.part))
  }

  predicate ReadingOk(r: Reading) {
    && IsBlank(r.lead) && PiecesOk(r.pieces) && Separated(r.items)
    && (r.part.Some? ==> IsMark(r.part.value.mark) && r.part.value.mark !in r.part.value.text)
  }

  function StateOf(r: Reading): State {
    State(Words(r.items), WordOf(r.pieces) + if r.part.Some? then r.part.value.text else "",
          r.pieces != [] || r.part.Some?, if r.part.Some? then Some(r.part.value.mark) else None)
  }

  lemma ItemsAppend(items: seq<Item>, item: Item)
    ensures ItemsText(items + [item]) == ItemsText(items) + ItemText(item)
    ensures Words(items + [item]) == Words(items) + [WordOf(item.pieces)]
  {
    assert (items + [item])[..|items|] == items;
  }

  lemma PiecesAppend(ps: seq<Piece>, p: Piece)
    ensures PiecesText(ps + [p]) == PiecesText(ps) + PieceText(p)
    ensures WordOf(ps + [p]) == WordOf(ps) + p.text
  {
    assert (ps + [p])[..|ps|] == ps;
  }

  lemma WidenAppends(items: seq<Item>, c: char)
    requires items != [] && Separated(items) && IsWhitespace(c)
    ensures ItemsText(Widen(items, c)) == ItemsText(items) + [c]
    ensures Words(Widen(items, c)) == Words(items) && Separated(Widen(items, c))
  {
    var front, last := items[..|items| - 1], items[|items| - 1];
    ItemsAppend(front, last.(gap := last.gap + [c]));
    AppendLater(PiecesText(last.pieces), last.gap, [c], last.gap + [c]);
    AppendLater(ItemsText(front), ItemText(last), [c], ItemText(last.(gap := last.gap + [c])));
  }

  lemma ExtendToClose(r: Reading, c: char)
    requires ReadingOk(r) && r.part.Some? && c == r.part.value.mark
    ensures ReadingOk(Extend(r, c)) && StateOf(Extend(r, c)) == Step(StateOf(r), c)
    ensures ReadingText(Extend(r, c)) == ReadingText(r) + [c]
  {
    var Part(mark, text) := r.part.value;
    var piece := Quoted(mark, text);
    PiecesAppend(r.pieces, piece);
    NothingAppended(WordOf(r.pieces + [piece]));
    NothingAppended(PiecesText(r.pieces + [piece]));
    AppendLater(PiecesText(r.pieces), PartText(r.part), [c], PieceText(piece));
    AppendLater(r.lead + ItemsText(r.items), PiecesText(r.pieces) + PartText(r.part), [c],
                PiecesText(r.pieces + [piece]));
  }

  lemma ExtendQuoted(r: Reading, c: char)
    requires ReadingOk(r) && r.part.Some? && c != r.part.value.mark
    ensures ReadingOk(Extend(r, c)) && StateOf(Extend(r, c)) == Step(StateOf(r), c)
    ensures ReadingText(Extend(r, c)) == ReadingText(r) + [c]
  {
    var Part(mark, text) := r.part.value;
    var part := Some(Part(mark, text + [c]));
    AppendLater(WordOf(r.pieces), text, [c], text + [c]);
    AppendLater([mark], text, [c], text + [c]);
    AppendLater(PiecesText(r.pieces), PartText(r.part), [c], PartText(part));
    AppendLater(r.lead + ItemsText(r.items), PiecesText(r.pieces) + PartText(r.part), [c],
                PiecesText(r.pieces) + PartText(part));
  }

  lemma ExtendInQuote(r: Reading, c: char)
    requires ReadingOk(r) && r.part.Some?
    ensures ReadingOk(Extend(r, c)) && StateOf(Extend(r, c)) == Step(StateOf(r), c)
    ensures ReadingText(Extend(r, c)) == ReadingText(r) + [c]
  {
    if c == r.part.value.mark {
      ExtendToClose(r, c);
    } else {
      ExtendQuoted(r, c);
    }
  }

  lemma ExtendWithMark(r: Reading, c: char)
    requires ReadingOk(r) && r.part.None? && IsMark(c)
    ensures ReadingOk(Extend(r, c)) && StateOf(Extend(r, c)) == Step(StateOf(r), c)
    ensures ReadingText(Extend(r, c)) == ReadingText(r) + [c]
  {
    NothingAppended(WordOf(r.pieces));
    NothingAppended(PiecesText(r.pieces));
    NothingAppended([c]);
    AppendLater(r.lead + ItemsText(r.items), PiecesText(r.pieces), [c], PiecesText(r.pieces) + [c]);
  }

  lemma ExtendWithBare(r: Reading, c: char)
    requires ReadingOk(r) && r.part.None? && !IsMark(c) && !IsWhitespace(c)
    ensures ReadingOk(Extend(r, c)) && StateOf(Extend(r, c)) == Step(StateOf(r), c)
    ensures ReadingText(Extend(r, c)) == ReadingText(r) + [c]
  {
    PiecesAppend(r.pieces, Bare([c]));
    NothingAppended(WordOf(r.pieces));
    NothingAppended(WordOf(r.pieces + [Bare([c])]));
    NothingAppended(PiecesText(r.pieces));
    NothingAppended(PiecesText(r.pieces + [Bare([c])]));
    AppendLater(r.lead + ItemsText(r.items), PiecesText(r.pieces), [c], PiecesText(r.pieces) + [c]);
  }

  /** White space after a word ends it. */
  lemma ExtendWithGap(r: Reading, c: char)
    requires ReadingOk(r) && r.part.None? && IsWhitespace(c) && !IsMark(c) && r.pieces != []
    ensures ReadingOk(Extend(r, c)) && StateOf(Extend(r, c)) == Step(StateOf(r), c)
    ensures ReadingText(Extend(r, c)) == ReadingText(r) + [c]
  {
    var item := Item(r.pieces, [c]);
    ItemsAppend(r.items, item);
    NothingAppended(WordOf(r.pieces));
    NothingAppended(PiecesText(r.pieces));
    NothingAppended(r.lead + ItemsText(r.items + [item]));
    AppendLater(r.lead, ItemsText(r.items), ItemText(item), ItemsText(r.items) + ItemText(item));
    AppendLater(r.lead + ItemsText(r.items), PiecesText(r.pieces), [c], ItemText(item));
  }

  /** White space between words widens the gap before. */
  lemma ExtendWithWidth(r: Reading, c: char)
    requires ReadingOk(r) && r.part.None? && IsWhitespace(c) && !IsMark(c) && r.pieces == []
    ensures ReadingOk(Extend(r, c)) && StateOf(Extend(r, c)) == Step(StateOf(r), c)
    ensures ReadingText(Extend(r, c)) == ReadingText(r) + [c]
  {
    NothingAppended(r.lead + ItemsText(r.items));
    NothingAppended(r.lead);
    NothingAppended(r.lead + [c]);
    if r.items != [] {
      WidenAppends(r.items, c);
      AppendLater(r.lead, ItemsText(r.items), [c], ItemsText(r.items) + [c]);
      NothingAppended(r.lead + (ItemsText(r.items) + [c]));
    }
  }

  lemma ExtendReads(r: Reading, c: char)
    requires ReadingOk(r)
    ensures ReadingOk(Extend(r, c)) && StateOf(Extend(r, c)) == Step(StateOf(r), c)
    ensures ReadingText(Extend(r, c)) == ReadingText(r) + [c]
  {
    if r.part.Some? {
      ExtendInQuote(r, c);
    } else if IsMark(c) {
      ExtendWithMark(r, c);
    } else if !IsWhitespace(c) {
      ExtendWithBare(r, c);
    } else if r.pieces != [] {
      ExtendWithGap(r, c);
    } else {
      ExtendWithWidth(r, c);
    }
  }

  function Read(text: string): Reading
    decreases |text|
  {
    if text == "" then Reading("", [], [], None) else Extend(Read(text[..|text| - 1]), text[|text| - 1])
  }

  /** The reading accounts for every character and for the loop's state. */
  predicate Explains(r: Reading, text: string) {
    ReadingOk(r) && ReadingText(r) == text && StateOf(r) == Feed(START, text)
  }

  lemma ExplanationsExtend(r: Reading, front: string, c: char)
    requires Explains(r, front)
    ensures Explains(Extend(r, c), front + [c])
  {
    ExtendReads(r, c);
    FeedOne(START, front, c);
  }

  lemma NothingIsExplained()
    ensures Explains(Reading("", [], [], None), "")
  {
    NothingAppended("");
  }

  lemma {:induction false} ReadExplains(text: string)
    ensures Explains(Read(text), text)
    decreases |text|
  {
    if text == "" {
      NothingIsExplained();
    } else {
      var front, c := text[..|text| - 1], text[|text| - 1];
      assert text == front + [c];
      assert Read(text) == Extend(Read(front), c);
      ReadExplains(front);
      ExplanationsExtend(Read(front), front, c);
    }
  }

  /** Whatever splits was written by a line of the grammar with those words. */
  lemma SplitsAreLines(text: string) returns (line: Line)
    requires Finish(Feed(START, text)).Ok?
    ensures LineOk(line) && LineText(line) == text && Finish(Feed(START, text)) == Ok(Words(line.items))
  {
    var r := Read(text);
    ReadExplains(text);
    line := LineOf(r);
  }

  lemma LineOf(r: Reading) returns (line: Line)
    requires ReadingOk(r) && r.part.None?
    ensures LineOk(line) && LineText(line) == ReadingText(r) && Finish(StateOf(r)) == Ok(Words(line.items))
  {
    NothingAppended(PiecesText(r.pieces));
    NothingAppended(WordOf(r.pieces));
    NothingAppended(Words(r.items));
    if r.pieces == [] {
      line := Line(r.lead, r.items);
      NothingAppended(LineText(line));
    } else {
      var item := Item(r.pieces, "");
      line := Line(r.lead, r.items + [item]);
      ItemsAppend(r.items, item);
      AppendLater(r.lead, ItemsText(r.items), ItemText(item), ItemsText(r.items) + ItemText(item));
    }
  }

  // ---- failing ----

  /** The quote open after a text, by the marks alone. */
  function OpenMark(text: string): Option<char>
    decreases |text|
  {
    if text == "" then None
    else
      var before, c := OpenMark(text[..|text| - 1]), text[|text| - 1];
      if before == Some(c) then None else if before.None? && IsMark(c) then Some(c) else before
  }

  lemma {:induction false} QuoteIsOpenMark(text: string)
    ensures Feed(START, text).quote == OpenMark(text)
    decreases |text|
  {
    if text != "" {
      QuoteIsOpenMark(text[..|text| - 1]);
    }
  }

  /** It fails exactly when a quote is left open, and exactly when no line of the grammar reads so. */
  lemma FailsIffQuoteIsOpen(text: string)
    ensures Finish(Feed(START, text)).Err? <==> OpenMark(text).Some?
    ensures Finish(Feed(START, text)).Err? <==> forall line :: LineOk(line) ==> LineText(line) != text
  {
    QuoteIsOpenMark(text);
    if Finish(Feed(START, text)).Ok? {
      var line := SplitsAreLines(text);
      assert LineOk(line);
    } else {
      forall line | LineOk(line) ensures LineText(line) != text {
        LinesAreSplit(line);
      }
    }
  }

  // ---- two lines on one ----

  lemma {:induction false} FeedAfter(words: seq<string>, text: string)
    ensures var s := Feed(START, text);
            Feed(State(words, "", false, None), text) == s.(words := words + s.words)
    decreases |text|
  {
    if text == "" {
      assert words + [] == words;
    } else {
      var front := text[..|text| - 1];
      FeedAfter(words, front);
      var s := Feed(START, front);
      assert words + (s.words + [s.current]) == (words + s.words) + [s.current];
    }
  }

  /** A balanced line, white space and a second line: the words of both, or the second line's error. */
  lemma SplitsConcatenate(a: string, gap: string, b: string)
    requires Finish(Feed(START, a)).Ok? && IsBlank(gap) && gap != ""
    ensures Finish(Feed(START, a + gap + b)) ==
            match Finish(Feed(START, b))
            case Ok(words) => Ok(Finish(Feed(START, a)).value + words)
            case Err(e) => Err(e)
  {
    var s := Feed(START, a);
    var words := Finish(s).value;
    FeedGap(s, gap);
    NothingUnstarted(a);
    assert s.words + [] == s.words;
    FeedAppends(START, a, gap);
    FeedAppends(START, a + gap, b);
    FeedAfter(words, b);
    var t := Feed(START, b);
    if t.started {
      assert words + (t.words + [t.current]) == (words + t.words) + [t.current];
    } else {
      assert words + (t.words + []) == (words + t.words) + [];
    }
  }

  lemma {:induction false} NothingUnstarted(text: string)
    ensures var s := Feed(START, text); !s.started ==> s.current == "" && s.quote.None?
    decreases |text|
  {
    if text != "" {
      NothingUnstarted(text[..|text| - 1]);
    }
  }

  // ---- a printer ----

  /** Double quotes around everything but double quotes, single quotes around those. */
  function Shell(word: string): (ps: seq<Piece>)
    decreases |word|
  {
    if '"' !in word then [Quoted('"', word)]
    else
      var at := IndexOf(word, '"');
      CutAt(word, at) + Shell(word[at + 1..])
  }

  function Printed(words: seq<string>): string
    decreases |words|
  {
    if words == [] then "" else Printed(words[..|words| - 1]) + ItemText(Item(Shell(words[|words| - 1]), " "))
  }

  lemma {:induction false} PiecesConcatenate(a: seq<Piece>, b: seq<Piece>)
    ensures WordOf(a + b) == WordOf(a) + WordOf(b)
    decreases |b|
  {
    if b == [] {
      NothingAppended(a);
      NothingAppended(WordOf(a));
    } else {
      var front, last := b[..|b| - 1], b[|b| - 1];
      PiecesConcatenate(a, front);
      LastOfWhole(a, b);
      PiecesAppend(a + front, last);
      AppendLater(WordOf(a), WordOf(front), last.text, WordOf(b));
    }
  }

  /** The two pieces up to and including a double quote. */
  function CutAt(word: string, at: nat): seq<Piece>
    requires at < |word|
  {
    [Quoted('"', word[..at]), Quoted('\'', "\"")]
  }

  lemma CutKeeps(word: string, at: nat)
    requires at < |word| && word[at] == '"' && '"' !in word[..at]
    ensures PiecesOk(CutAt(word, at)) && WordOf(CutAt(word, at)) + word[at + 1..] == word
  {
    var first, second := Quoted('"', word[..at]), Quoted('\'', "\"");
    PiecesAppend([], first);
    PiecesAppend([first], second);
    NothingAppended([first]);
    NothingAppended(word[..at]);
    assert [first] + [second] == CutAt(word, at);
    Rejoined(word, at);
  }

  lemma Rejoined(word: string, at: nat)
    requires at < |word|
    ensures (word[..at] + [word[at]]) + word[at + 1..] == word
  {
  }

  lemma {:induction false} ShellKeepsWord(word: string)
    ensures Shell(word) != [] && PiecesOk(Shell(word)) && WordOf(Shell(word)) == word
    decreases |word|
  {
    if '"' in word {
      var at := IndexOf(word, '"');
      ShellKeepsWord(word[at + 1..]);
      CutKeeps(word, at);
      PiecesConcatenate(CutAt(word, at), Shell(word[at + 1..]));
    } else {
      PiecesAppend([], Quoted('"', word));
      NothingAppended([Quoted('"', word)]);
      NothingAppended(word);
    }
  }

  /** Quoting any words and splitting the line gives them back, empty words and quotes included. */
  lemma {:induction false} PrintedIsSplit(words: seq<string>)
    ensures Finish(Feed(START, Printed(words))) == Ok(words)
    ensures Feed(START, Printed(words)) == State(words, "", false, None)
    decreases |words|
  {
    NothingAppended(words);
    if words != [] {
      var front, last := words[..|words| - 1], words[|words| - 1];
      assert words == front + [last];
      assert Printed(words) == Printed(front) + ItemText(Item(Shell(last), " "));
      PrintedIsSplit(front);
      WordIsAdded(Printed(front), front, last);
    }
  }

  lemma WordIsAdded(text: string, words: seq<string>, word: string)
    requires Feed(START, text) == State(words, "", false, None)
    ensures Feed(START, text + ItemText(Item(Shell(word), " "))) == State(words + [word], "", false, None)
  {
    var item := Item(Shell(word), " ");
    ShellKeepsWord(word);
    SpaceIsBlank();
    FeedItem(State(words, "", false, None), item);
    FeedAppends(START, text, ItemText(item));
  }

  lemma SpaceIsBlank()
    ensures IsBlank(" ")
  {
  }
}
