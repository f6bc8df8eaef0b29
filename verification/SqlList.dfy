/** String literals for filters: doubled quotes, and a reader that shows nothing is lost or escapes. */
module SqlList {
  import opened Wrappers
  import opened Seqs

  const QUOTE := '\''

  /** `value.replace('\'', "''")`. */
  function Escape(value: string): string {
    if value == "" then "" else (if value[0] == QUOTE then [QUOTE, QUOTE] else [value[0]]) + Escape(value[1..])
  }

  function Literal(value: string): string {
    [QUOTE] + (Escape(value) + [QUOTE])
  }

  /** Literals joined with commas. */
  function List(values: seq<string>): string {
    if values == [] then ""
    else if |values| == 1 then Literal(values[0])
    else Literal(values[0]) + ([','] + List(values[1..]))
  }

  // ---- reading SQL string literals ----

  /** The value up to the closing quote, and what follows it; two quotes in a row are one of the value's. */
  function ReadBody(text: string): (r: Option<(string, string)>)
    ensures r.Some? ==> |r.value.1| < |text|
    decreases |text|
  {
    if text == "" then None
    else if text[0] != QUOTE then
      match ReadBody(text[1..])
      case None => None
      case Some((value, rest)) => Some(([text[0]] + value, rest))
    else if |text| > 1 && text[1] == QUOTE then
      match ReadBody(text[2..])
      case None => None
      case Some((value, rest)) => Some(([QUOTE] + value, rest))
    else Some(("", text[1..]))
  }

  /** Comma-separated literals, and nothing else. */
  function ReadList(text: string): Option<seq<string>>
    decreases |text|
  {
    if text == "" || text[0] != QUOTE then None
    else
      match ReadBody(text[1..])
      case None => None
      case Some((value, rest)) =>
        if rest == "" then Some([value])
        else if rest[0] != ',' then None
        else
          match ReadList(rest[1..])
          case None => None
          case Some(values) => Some([value] + values)
  }

  /** Reading a literal stops at its own closing quote, whatever the value holds. */
  lemma {:induction false} LiteralIsRead(value: string, rest: string)
    requires rest == "" || rest[0] != QUOTE
    ensures ReadBody((Escape(value) + [QUOTE]) + rest) == Some((value, rest))
  {
    var text := (Escape(value) + [QUOTE]) + rest;
    if value == "" {
      NothingAppended([QUOTE]);
      assert text == [QUOTE] + rest;
    } else {
      LiteralIsRead(value[1..], rest);
      var tail := (Escape(value[1..]) + [QUOTE]) + rest;
      if value[0] == QUOTE {
        assert text == [QUOTE, QUOTE] + tail;
        assert text[2..] == tail;
      } else {
        assert text == [value[0]] + tail;
        assert text[1..] == tail;
      }
      assert value == [value[0]] + value[1..];
    }
  }

  /** Only an escaped value is read as that value. */
  lemma {:induction false} ReadIsEscaped(text: string)
    ensures match ReadBody(text)
            case None => true
            case Some((value, rest)) =>
              text == (Escape(value) + [QUOTE]) + rest && (rest == "" || rest[0] != QUOTE)
    decreases |text|
  {
    if text != "" && text[0] != QUOTE {
      ReadIsEscaped(text[1..]);
      EscapeUnfolds(text[0], text[1..]);
    } else if |text| > 1 && text[1] == QUOTE {
      ReadIsEscaped(text[2..]);
      EscapeUnfolds(QUOTE, text[2..]);
      assert text == [QUOTE, QUOTE] + text[2..];
    } else if text != "" {
      NothingAppended([QUOTE]);
    }
  }

  lemma EscapeUnfolds(c: char, text: string)
    ensures match ReadBody(text)
            case None => true
            case Some((value, rest)) =>
              Escape([c] + value) == (if c == QUOTE then [QUOTE, QUOTE] else [c]) + Escape(value)
  {
    if ReadBody(text).Some? {
      assert ([c] + ReadBody(text).value.0)[1..] == ReadBody(text).value.0;
    }
  }

  /** Any nonempty list of values comes back, quotes and commas included. */
  lemma {:induction false} ListIsRead(values: seq<string>)
    requires values != []
    ensures ReadList(List(values)) == Some(values)
  {
    var value := values[0];
    if |values| == 1 {
      LiteralIsRead(value, "");
      NothingAppended(Escape(value) + [QUOTE]);
      assert List(values)[1..] == Escape(value) + [QUOTE];
      assert values == [value];
    } else {
      ListIsRead(values[1..]);
      LiteralThenRest(value, List(values[1..]));
      assert values == [value] + values[1..];
    }
  }

  lemma LiteralThenRest(value: string, more: string)
    ensures var text := Literal(value) + ([','] + more);
            && text != "" && text[0] == QUOTE && ReadBody(text[1..]) == Some((value, [','] + more))
            && ([','] + more)[1..] == more
  {
    var rest := [','] + more;
    LiteralIsRead(value, rest);
    assert (Literal(value) + rest)[1..] == (Escape(value) + [QUOTE]) + rest;
  }

  lemma ListUnfolds(value: string, values: seq<string>)
    requires values != []
    ensures List([value] + values) == Literal(value) + ([','] + List(values))
  {
    assert ([value] + values)[1..] == values;
  }

  /** The reader takes nothing but printed lists. */
  lemma {:induction false} ReadIsList(text: string)
    ensures match ReadList(text)
            case None => true
            case Some(values) => values != [] && List(values) == text
    decreases |text|
  {
    if ReadList(text).Some? {
      ReadIsEscaped(text[1..]);
      var (value, rest) := ReadBody(text[1..]).value;
      assert text == [QUOTE] + text[1..];
      if rest == "" {
        NothingAppended(Escape(value) + [QUOTE]);
      } else {
        ReadIsList(rest[1..]);
        ListUnfolds(value, ReadList(rest[1..]).value);
        assert rest == [','] + rest[1..];
        AppendLater([QUOTE], Escape(value) + [QUOTE], rest, text[1..]);
      }
    }
  }

  /** A text is accepted exactly when it is the list of the values read. */
  lemma ReadsExactlyLists(text: string, values: seq<string>)
    requires values != []
    ensures ReadList(text) == Some(values) <==> text == List(values)
  {
    ReadIsList(text);
    ListIsRead(values);
  }

  lemma LiteralIsInjective(a: string, b: string)
    requires Literal(a) == Literal(b)
    ensures a == b
  {
    ListIsRead([a]);
    ListIsRead([b]);
  }
}
