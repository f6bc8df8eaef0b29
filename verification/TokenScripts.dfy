/** The token estimate said by characters: which script each one is of, and how many of a script make a token. */
module TokenScripts {
  import opened Text
  import opened TokenEstimate

  ghost predicate Listed(c: char, ranges: seq<(int, int)>) {
    exists i :: 0 <= i < |ranges| && ranges[i].0 <= c as int <= ranges[i].1
  }

  ghost predicate IsSpace(c: char) {
    Listed(c, WHITE_SPACE)
  }

  ghost predicate IsCyrillic(c: char) {
    !IsSpace(c) && Listed(c, CYRILLIC)
  }

  ghost predicate IsIdeographic(c: char) {
    !IsSpace(c) && !IsCyrillic(c) && Listed(c, IDEOGRAPHIC)
  }

  ghost predicate IsOther(c: char) {
    !IsSpace(c) && !IsCyrillic(c) && !IsIdeographic(c)
  }

  /** The characters of `s` that `p` holds of. */
  ghost function Only(s: string, p: char -> bool): (r: string)
    ensures |r| <= |s| && forall i :: 0 <= i < |r| ==> p(r[i])
  {
    if s == "" then "" else Only(s[..|s| - 1], p) + if p(s[|s| - 1]) then [s[|s| - 1]] else []
  }

  lemma ScriptIsByTable(c: char)
    ensures ScriptOf(c) == Space <==> IsSpace(c)
    ensures ScriptOf(c) == Cyrillic <==> IsCyrillic(c)
    ensures ScriptOf(c) == Ideographic <==> IsIdeographic(c)
    ensures ScriptOf(c) == Other <==> IsOther(c)
  {
    InRangesIsInSome(c as int, WHITE_SPACE);
    InRangesIsInSome(c as int, CYRILLIC);
    InRangesIsInSome(c as int, IDEOGRAPHIC);
  }

  lemma {:induction false} CountIsOnly(s: string, k: Script, p: char -> bool)
    requires forall c :: p(c) <==> ScriptOf(c) == k
    ensures Count(s, k) == |Only(s, p)|
  {
    if s != "" {
      CountIsOnly(s[..|s| - 1], k, p);
    }
  }

  lemma CountsAreOnly(s: string)
    ensures Count(s, Cyrillic) == |Only(s, IsCyrillic)|
    ensures Count(s, Ideographic) == |Only(s, IsIdeographic)|
    ensures Count(s, Other) == |Only(s, IsOther)|
  {
    forall c
      ensures IsCyrillic(c) <==> ScriptOf(c) == Cyrillic
      ensures IsIdeographic(c) <==> ScriptOf(c) == Ideographic
      ensures IsOther(c) <==> ScriptOf(c) == Other
    {
      ScriptIsByTable(c);
    }
    CountIsOnly(s, Cyrillic, IsCyrillic);
    CountIsOnly(s, Ideographic, IsIdeographic);
    CountIsOnly(s, Other, IsOther);
  }

  lemma RoundedUp(n: nat, q: nat)
    ensures n <= 3 * q < n + 3 ==> DivCeil(n, 3) == q
    ensures n <= 4 * q < n + 4 ==> DivCeil(n, 4) == q
  {
  }

  /** Each ideograph is a token, every three Cyrillic characters are one and every four of the rest; what is left
    * over of a script is one more.
    */
  lemma EstimateIsByScript(s: string, thirds: nat, quarters: nat)
    requires |Only(s, IsCyrillic)| <= 3 * thirds < |Only(s, IsCyrillic)| + 3
    requires |Only(s, IsOther)| <= 4 * quarters < |Only(s, IsOther)| + 4
    ensures Estimate(s) == |Only(s, IsIdeographic)| + thirds + quarters
  {
    CountsAreOnly(s);
    RoundedUp(Count(s, Cyrillic), thirds);
    RoundedUp(Count(s, Other), quarters);
  }

  /** The scripts of the commonest characters. */
  lemma CommonScripts(c: char)
    ensures c in "\t\n\r " ==> IsSpace(c)
    ensures '!' <= c <= '~' ==> IsOther(c)
    ensures 0x0400 <= c as int <= 0x052F ==> IsCyrillic(c)
    ensures 0x4E00 <= c as int <= 0x9FFF ==> IsIdeographic(c)
  {
    assert WHITE_SPACE[0].0 <= c as int <= WHITE_SPACE[0].1 <==> 9 <= c as int <= 13;
    assert WHITE_SPACE[1].0 <= c as int <= WHITE_SPACE[1].1 <==> c as int == 32;
    assert CYRILLIC[0].0 == 0x0400 && CYRILLIC[0].1 == 0x052F;
    assert IDEOGRAPHIC[4].0 == 0x4E00 && IDEOGRAPHIC[4].1 == 0x9FFF;
  }
}
