/** What printed literals and lists look like, said without the printer's parts. */
module SqlText {
  import opened Seqs
  import opened SqlList

  /** A value without an apostrophe stands as it is between two. */
  lemma {:induction false} PlainValueIsQuoted(value: string)
    requires '\'' !in value
    ensures Literal(value) == "'" + (value + "'")
  {
    EscapeOfPlain(value);
  }

  lemma {:induction false} EscapeOfPlain(value: string)
    requires '\'' !in value
    ensures Escape(value) == value
  {
    if value != "" {
      EscapeOfPlain(value[1..]);
      assert value == [value[0]] + value[1..];
    }
  }

  /** An apostrophe is printed as two; what comes before and after it is printed as on its own. */
  lemma ApostropheIsDoubled(before: string, after: string)
    ensures var front, back := Literal(before), Literal(after);
            && |front| >= 2 && |back| >= 2
            && Literal((before + "'") + after) == (front[..|front| - 1] + "''") + back[1..]
  {
    EscapeAppends(before + "'", after);
    EscapeAppends(before, "'");
    EscapedApostrophe();
    Spliced(QUOTE, Escape(before), "''", Escape(after));
  }

  lemma EscapedApostrophe()
    ensures Escape("'") == "''"
  {
    assert Escape("'") == [QUOTE, QUOTE] + Escape("");
  }

  lemma Spliced(q: char, x: string, m: string, y: string)
    ensures var front, back := [q] + (x + [q]), [q] + (y + [q]);
            [q] + (((x + m) + y) + [q]) == (front[..|front| - 1] + m) + back[1..]
  {
    assert ([q] + (x + [q]))[..|x| + 1] == [q] + x;
    assert ([q] + (y + [q]))[1..] == y + [q];
  }

  lemma {:induction false} EscapeAppends(a: string, b: string)
    ensures Escape(a + b) == Escape(a) + Escape(b)
  {
    if a == "" {
      NothingAppended(b);
      NothingAppended(Escape(b));
    } else {
      EscapeAppends(a[1..], b);
      assert (a + b)[1..] == a[1..] + b;
      AppendLater(if a[0] == QUOTE then [QUOTE, QUOTE] else [a[0]], Escape(a[1..]), Escape(b), Escape(a[1..] + b));
    }
  }

  /** Commas stand between the literals and nowhere else outside them. */
  lemma {:induction false} ListIsJoined(values: seq<string>, more: seq<string>)
    ensures List([]) == ""
    ensures |values| == 1 ==> List(values) == Literal(values[0])
    ensures values != [] && more != [] ==> List(values + more) == (List(values) + ",") + List(more)
  {
    if values != [] && more != [] {
      assert (values + more)[1..] == values[1..] + more;
      if |values| > 1 {
        ListIsJoined(values[1..], more);
        var first, rest, others := Literal(values[0]), List(values[1..]), List(more);
        assert first + ([','] + ((rest + ",") + others)) == ((first + ([','] + rest)) + ",") + others;
      } else {
        assert values[1..] + more == more;
      }
    }
  }
}
