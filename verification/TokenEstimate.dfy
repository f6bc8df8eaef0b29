/** The token estimate: a count of characters by script, rounded up script by script. */
module TokenEstimate {
  import opened Text

  datatype Script = Space | Cyrillic | Ideographic | Other

  const CYRILLIC: seq<(int, int)> := [(0x0400, 0x052F), (0x1C80, 0x1C8F), (0x2DE0, 0x2DFF), (0xA640, 0xA69F)]

  const IDEOGRAPHIC: seq<(int, int)> :=
    [(0x1100, 0x11FF), (0x3040, 0x30FF), (0x3130, 0x318F), (0x3400, 0x4DBF),
     (0x4E00, 0x9FFF), (0xAC00, 0xD7AF), (0xF900, 0xFAFF), (0x20000, 0x2FA1F)]

  function ScriptOf(c: char): Script {
    if IsWhitespace(c) then Space
    else if InRanges(c as int, CYRILLIC) then Cyrillic
    else if InRanges(c as int, IDEOGRAPHIC) then Ideographic
    else Other
  }

  function Count(s: string, k: Script): nat {
    if s == "" then 0 else Count(s[..|s| - 1], k) + if ScriptOf(s[|s| - 1]) == k then 1 else 0
  }

  function DivCeil(n: nat, d: nat): nat
    requires d > 0
  {
    (n + d - 1) / d
  }

  function Estimate(s: string): nat {
    Count(s, Ideographic) + DivCeil(Count(s, Cyrillic), 3) + DivCeil(Count(s, Other), 4)
  }

  /** `estimate_tokens`: one pass over the characters. */
  method EstimateTokens(text: string) returns (tokens: nat)
    ensures tokens == Estimate(text)
  {
    var cyrillic, ideographic, other := 0, 0, 0;
    for i := 0 to |text|
      invariant cyrillic == Count(text[..i], Cyrillic)
      invariant ideographic == Count(text[..i], Ideographic)
      invariant other == Count(text[..i], Other)
    {
      assert text[..i + 1][..i] == text[..i];
      match ScriptOf(text[i])
      case Space =>
      case Cyrillic => cyrillic := cyrillic + 1;
      case Ideographic => ideographic := ideographic + 1;
      case Other => other := other + 1;
    }
    assert text[..|text|] == text;
    tokens := ideographic + DivCeil(cyrillic, 3) + DivCeil(other, 4);
  }

  lemma {:induction false} CountAppends(a: string, b: string, k: Script)
    ensures Count(a + b, k) == Count(a, k) + Count(b, k)
  {
    if b == "" {
      assert a + b == a;
    } else {
      CountAppends(a, b[..|b| - 1], k);
      assert (a + b)[..|a + b| - 1] == a + b[..|b| - 1];
    }
  }

  lemma {:induction false} BlankCounts(s: string, k: Script)
    requires IsBlank(s) && k != Space
    ensures Count(s, k) == 0
  {
    if s != "" {
      BlankCounts(s[..|s| - 1], k);
    }
  }

  /** Rounding up script by script is subadditive: splitting a text never lowers its estimate. */
  lemma EstimateIsSubadditive(a: string, b: string)
    ensures Estimate(a + b) <= Estimate(a) + Estimate(b)
  {
    CountAppends(a, b, Ideographic);
    CountAppends(a, b, Cyrillic);
    CountAppends(a, b, Other);
  }

  lemma BlankIsFree(s: string)
    requires IsBlank(s)
    ensures Estimate(s) == 0
  {
    BlankCounts(s, Ideographic);
    BlankCounts(s, Cyrillic);
    BlankCounts(s, Other);
  }

  /** Blank text between two pieces costs nothing. */
  lemma GapIsFree(a: string, gap: string, b: string)
    requires IsBlank(gap)
    ensures Estimate(a + gap + b) <= Estimate(a) + Estimate(b)
  {
    EstimateIsSubadditive(a + gap, b);
    EstimateIsSubadditive(a, gap);
    BlankIsFree(gap);
  }

  /** A text with anything in it costs at least one token. */
  lemma {:induction false} EstimateIsZeroIffBlank(s: string)
    ensures Estimate(s) == 0 <==> IsBlank(s)
  {
    if IsBlank(s) {
      BlankIsFree(s);
    } else {
      var i :| 0 <= i < |s| && !IsWhitespace(s[i]);
      var k := ScriptOf(s[i]);
      assert s == s[..i] + [s[i]] + s[i + 1..];
      CountAppends(s[..i] + [s[i]], s[i + 1..], k);
      CountAppends(s[..i], [s[i]], k);
      assert Count([s[i]], k) == 1;
    }
  }
}
