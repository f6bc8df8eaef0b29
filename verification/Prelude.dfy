/** Optional values and the outcome of a fallible operation. */
module Wrappers {

  datatype Option<+T> = None | Some(value: T)

  datatype Result<+T, +E> = Ok(value: T) | Err(error: E)
}

/** Bookkeeping about sequences. */
module Seqs {

  lemma FrontGrows<T>(s: seq<T>, i: nat)
    requires i < |s|
    ensures s[..i + 1] == s[..i] + [s[i]]
  {
  }

  /** The first place of a member. */
  function IndexOf<T(==)>(s: seq<T>, x: T): (i: nat)
    requires x in s
    ensures i < |s| && s[i] == x && x !in s[..i]
  {
    if s[0] == x then 0
    else
      var i := IndexOf(s[1..], x);
      assert s[..i + 1] == [s[0]] + s[1..][..i];
      i + 1
  }

  /** At most `n` elements from the front. */
  function Take<T>(s: seq<T>, n: nat): seq<T> {
    if |s| <= n then s else s[..n]
  }

  /** Appending to the whole is appending to its second part. */
  lemma AppendLater<T>(a: seq<T>, b: seq<T>, c: seq<T>, d: seq<T>)
    requires d == b + c
    ensures (a + b) + c == a + d
  {
  }

  /** The last element of the second part is the last of the whole. */
  lemma LastOfWhole<T>(a: seq<T>, b: seq<T>)
    requires b != []
    ensures a + b == (a + b[..|b| - 1]) + [b[|b| - 1]]
    ensures (a + b)[..|a + b| - 1] == a + b[..|b| - 1] && (a + b)[|a + b| - 1] == b[|b| - 1]
  {
  }

  lemma NothingAppended<T>(a: seq<T>)
    ensures a + [] == a && [] + a == a
  {
  }
}

/** White space and trimming, as `char::is_whitespace` and `str::trim` define them. */
module Text {

  /** Closed ranges of code points. */
  predicate InRanges(code: int, ranges: seq<(int, int)>) {
    ranges != [] && (ranges[0].0 <= code <= ranges[0].1 || InRanges(code, ranges[1..]))
  }

  lemma {:induction false} OutOfRanges(code: int, ranges: seq<(int, int)>)
    requires forall i :: 0 <= i < |ranges| ==> !(ranges[i].0 <= code <= ranges[i].1)
    ensures !InRanges(code, ranges)
  {
    if ranges != [] {
      OutOfRanges(code, ranges[1..]);
    }
  }

  lemma {:induction false} InRangesIsInSome(code: int, ranges: seq<(int, int)>)
    ensures InRanges(code, ranges) <==> exists i :: 0 <= i < |ranges| && ranges[i].0 <= code <= ranges[i].1
  {
    if ranges != [] {
      InRangesIsInSome(code, ranges[1..]);
      forall i | 0 <= i < |ranges| && ranges[i].0 <= code <= ranges[i].1 ensures InRanges(code, ranges) {
        if i > 0 {
          assert ranges[1..][i - 1] == ranges[i];
        }
      }
    }
  }

  /** The Unicode White_Space property. */
  const WHITE_SPACE: seq<(int, int)> :=
    [(0x09, 0x0D), (0x20, 0x20), (0x85, 0x85), (0xA0, 0xA0), (0x1680, 0x1680), (0x2000, 0x200A),
     (0x2028, 0x2029), (0x202F, 0x202F), (0x205F, 0x205F), (0x3000, 0x3000)]

  predicate IsWhitespace(c: char) {
    InRanges(c as int, WHITE_SPACE)
  }

  predicate IsBlank(s: string) {
    forall i :: 0 <= i < |s| ==> IsWhitespace(s[i])
  }

  function TrimStart(s: string): string {
    if s != "" && IsWhitespace(s[0]) then TrimStart(s[1..]) else s
  }

  function TrimEnd(s: string): string {
    if s != "" && IsWhitespace(s[|s| - 1]) then TrimEnd(s[..|s| - 1]) else s
  }

  function Trim(s: string): string {
    TrimEnd(TrimStart(s))
  }

  /** Only a leading blank stretch goes, and all of it. */
  lemma {:induction false} TrimStartCuts(s: string)
    ensures var r := TrimStart(s);
            && |r| <= |s| && r == s[|s| - |r|..] && IsBlank(s[..|s| - |r|])
            && (r != "" ==> !IsWhitespace(r[0]))
  {
    if s != "" && IsWhitespace(s[0]) {
      TrimStartCuts(s[1..]);
      var r := TrimStart(s[1..]);
      assert s[..|s| - |r|] == [s[0]] + s[1..][..|s| - 1 - |r|];
    }
  }

  /** Trimming the start keeps what is not white space at the end. */
  lemma {:induction false} TrimStartKeepsEnd(s: string)
    requires s != "" && !IsWhitespace(s[|s| - 1])
    ensures TrimStart(s) != "" && TrimStart(s)[|TrimStart(s)| - 1] == s[|s| - 1]
  {
    if IsWhitespace(s[0]) {
      TrimStartKeepsEnd(s[1..]);
    }
  }

  /** Only a trailing blank stretch goes, and all of it. */
  lemma {:induction false} TrimEndCuts(s: string)
    ensures var r := TrimEnd(s);
            && |r| <= |s| && r == s[..|r|] && IsBlank(s[|r|..])
            && (r != "" ==> !IsWhitespace(r[|r| - 1]))
  {
    if s != "" && IsWhitespace(s[|s| - 1]) {
      TrimEndCuts(s[..|s| - 1]);
      var r := TrimEnd(s[..|s| - 1]);
      assert s[|r|..] == s[..|s| - 1][|r|..] + [s[|s| - 1]];
    }
  }

  /** Trimming takes away blank stretches at both ends, and no white space is left there. */
  lemma TrimIsInner(s: string) returns (lead: string, tail: string)
    ensures s == (lead + Trim(s)) + tail && IsBlank(lead) && IsBlank(tail)
    ensures Trim(s) != "" ==> !IsWhitespace(Trim(s)[0]) && !IsWhitespace(Trim(s)[|Trim(s)| - 1])
  {
    var t := TrimStart(s);
    TrimStartCuts(s);
    TrimEndCuts(t);
    lead, tail := s[..|s| - |t|], t[|Trim(s)|..];
    assert t == Trim(s) + tail;
  }

  lemma TrimIsIdempotent(s: string)
    ensures Trim(Trim(s)) == Trim(s)
  {
    var t := TrimStart(s);
    TrimStartCuts(s);
    TrimEndCuts(t);
    assert TrimStart(TrimEnd(t)) == TrimEnd(t);
  }

  /** Trimming leaves nothing exactly when the text is blank. */
  lemma TrimIsEmptyIffBlank(s: string)
    ensures Trim(s) == "" <==> IsBlank(s)
  {
    var t := TrimStart(s);
    TrimStartCuts(s);
    TrimEndCuts(t);
    assert s == s[..|s| - |t|] + t;
    assert TrimEnd(t) == "" ==> t[0..] == t;
  }
}

/** Orderings on strings and on sequences of strings, and the stable sort `slice::sort_by`. */
module Ordering {

  /** `a < b` for `str::cmp`: UTF-8 byte order agrees with code point order. */
  predicate Less(a: string, b: string) {
    b != "" && (a == "" || a[0] < b[0] || (a[0] == b[0] && Less(a[1..], b[1..])))
  }

  predicate AtMost(a: string, b: string) {
    a == b || Less(a, b)
  }

  lemma {:induction false} LessIsStrict(a: string, b: string)
    requires Less(a, b)
    ensures a != b && !Less(b, a)
  {
    if a != "" && a[0] == b[0] {
      LessIsStrict(a[1..], b[1..]);
    }
  }

  /** In plain terms: equal up to some position, and there `a` ends or has the smaller character. */
  lemma LessIsFirstDifference(a: string, b: string)
    ensures Less(a, b) <==>
            exists k: nat :: k <= |a| && k < |b| && a[..k] == b[..k] && (k == |a| || a[k] < b[k])
  {
    if Less(a, b) {
      var k := FirstDifference(a, b);
    }
    forall k: nat | k <= |a| && k < |b| && a[..k] == b[..k] && (k == |a| || a[k] < b[k]) ensures Less(a, b) {
      DifferenceDecides(a, b, k);
    }
  }

  lemma {:induction false} FirstDifference(a: string, b: string) returns (k: nat)
    requires Less(a, b)
    ensures k <= |a| && k < |b| && a[..k] == b[..k] && (k == |a| || a[k] < b[k])
  {
    if a == "" || a[0] < b[0] {
      k := 0;
    } else {
      var m := FirstDifference(a[1..], b[1..]);
      k := m + 1;
      assert a[..k] == [a[0]] + a[1..][..m] && b[..k] == [b[0]] + b[1..][..m];
    }
  }

  lemma {:induction false} DifferenceDecides(a: string, b: string, k: nat)
    requires k <= |a| && k < |b| && a[..k] == b[..k] && (k == |a| || a[k] < b[k])
    ensures Less(a, b)
  {
    if k > 0 {
      assert a[0] == a[..k][0] == b[..k][0] == b[0];
      assert a[1..][..k - 1] == a[..k][1..] && b[1..][..k - 1] == b[..k][1..];
      DifferenceDecides(a[1..], b[1..], k - 1);
    }
  }

  lemma LessIsIrreflexive(a: string)
    ensures !Less(a, a)
  {
    if Less(a, a) {
      LessIsStrict(a, a);
    }
  }

  lemma {:induction false} LessIsTransitive(a: string, b: string, c: string)
    requires Less(a, b) && Less(b, c)
    ensures Less(a, c)
  {
    if a != "" && a[0] == b[0] && b[0] == c[0] {
      LessIsTransitive(a[1..], b[1..], c[1..]);
    }
  }

  lemma {:induction false} LessIsTotal(a: string, b: string)
    ensures Less(a, b) || a == b || Less(b, a)
  {
    if a != "" && b != "" && a[0] == b[0] {
      LessIsTotal(a[1..], b[1..]);
      assert a == [a[0]] + a[1..] && b == [b[0]] + b[1..];
    }
  }

  /** Keys compared field by field, the way chained `cmp` calls do. */
  predicate KeyAtMost(x: seq<string>, y: seq<string>) {
    x == [] || (y != [] && (Less(x[0], y[0]) || (x[0] == y[0] && KeyAtMost(x[1..], y[1..]))))
  }

  lemma {:induction false} KeysAreTotal(x: seq<string>, y: seq<string>)
    ensures KeyAtMost(x, y) || KeyAtMost(y, x)
  {
    if x != [] && y != [] {
      LessIsTotal(x[0], y[0]);
      KeysAreTotal(x[1..], y[1..]);
    }
  }

  lemma {:induction false} KeysAreTransitive(x: seq<string>, y: seq<string>, z: seq<string>)
    requires KeyAtMost(x, y) && KeyAtMost(y, z)
    ensures KeyAtMost(x, z)
  {
    if x != [] {
      LessIsIrreflexive(x[0]);
      if x[0] == y[0] && y[0] == z[0] {
        KeysAreTransitive(x[1..], y[1..], z[1..]);
      } else if Less(x[0], y[0]) && Less(y[0], z[0]) {
        LessIsTransitive(x[0], y[0], z[0]);
      }
    }
  }

  lemma {:induction false} EqualKeys(x: seq<string>, y: seq<string>)
    requires |x| == |y| && KeyAtMost(x, y) && KeyAtMost(y, x)
    ensures x == y
  {
    if x != [] {
      if x[0] != y[0] {
        LessIsStrict(x[0], y[0]);
      } else {
        LessIsIrreflexive(x[0]);
        EqualKeys(x[1..], y[1..]);
        assert x == [x[0]] + x[1..] && y == [y[0]] + y[1..];
      }
    }
  }

  // ---- the stable sort ----

  ghost predicate Total<T(!new)>(le: (T, T) -> bool) {
    forall x, y :: le(x, y) || le(y, x)
  }

  ghost predicate Transitive<T(!new)>(le: (T, T) -> bool) {
    forall x, y, z :: le(x, y) && le(y, z) ==> le(x, z)
  }

  /** Sorted by `le`, with the elements `le` cannot tell apart in the order `tie`. */
  ghost predicate Sorted<T(!new)>(s: seq<T>, le: (T, T) -> bool, tie: (T, T) -> bool) {
    forall i, j :: 0 <= i < j < |s| ==> le(s[i], s[j]) && (le(s[j], s[i]) ==> tie(s[i], s[j]))
  }

  /** Elements `le` cannot tell apart occur in the order `tie`. */
  ghost predicate TiesInOrder<T(!new)>(s: seq<T>, le: (T, T) -> bool, tie: (T, T) -> bool) {
    forall i, j :: 0 <= i < j < |s| && le(s[i], s[j]) && le(s[j], s[i]) ==> tie(s[i], s[j])
  }

  function Insert<T>(x: T, s: seq<T>, le: (T, T) -> bool): (r: seq<T>)
    ensures multiset(r) == multiset(s) + multiset{x}
  {
    if s == [] || le(x, s[0]) then
      [x] + s
    else
      assert s == [s[0]] + s[1..];
      [s[0]] + Insert(x, s[1..], le)
  }

  /** `slice::sort_by`: stable, and only the comparison decides. */
  function SortBy<T>(s: seq<T>, le: (T, T) -> bool): (r: seq<T>)
    ensures multiset(r) == multiset(s)
  {
    if s == [] then []
    else
      assert s == [s[0]] + s[1..];
      Insert(s[0], SortBy(s[1..], le), le)
  }

  lemma MembersAgree<T>(a: seq<T>, b: seq<T>)
    requires multiset(a) == multiset(b)
    ensures |a| == |b| && forall x :: x in a <==> x in b
  {
    assert |a| == |multiset(a)| && |b| == |multiset(b)|;
    forall x ensures x in a <==> x in b {
      assert x in a <==> x in multiset(a);
      assert x in b <==> x in multiset(b);
    }
  }

  lemma {:induction false} InsertSorts<T(!new)>(x: T, s: seq<T>, le: (T, T) -> bool, tie: (T, T) -> bool)
    requires Total(le) && Transitive(le) && Sorted(s, le, tie)
    requires forall y :: y in s && le(x, y) && le(y, x) ==> tie(x, y)
    ensures Sorted(Insert(x, s, le), le, tie)
  {
    if s == [] || le(x, s[0]) {
      forall j | 0 <= j < |s| ensures le(x, s[j]) && (le(s[j], x) ==> tie(x, s[j])) {
        assert s[j] in s;
      }
    } else {
      InsertSorts(x, s[1..], le, tie);
      var rest := Insert(x, s[1..], le);
      forall j | 0 <= j < |rest| ensures le(s[0], rest[j]) && (le(rest[j], s[0]) ==> tie(s[0], rest[j])) {
        assert rest[j] in multiset(rest);
        if rest[j] != x {
          assert rest[j] in s[1..];
        }
      }
    }
  }

  lemma {:induction false} SortBySorts<T(!new)>(s: seq<T>, le: (T, T) -> bool, tie: (T, T) -> bool)
    requires Total(le) && Transitive(le) && TiesInOrder(s, le, tie)
    ensures Sorted(SortBy(s, le), le, tie)
  {
    if s != [] {
      var rest := s[1..];
      assert TiesInOrder(rest, le, tie);
      SortBySorts(rest, le, tie);
      MembersAgree(SortBy(rest, le), rest);
      forall y | y in SortBy(rest, le) && le(s[0], y) && le(y, s[0]) ensures tie(s[0], y) {
        var j :| 0 <= j < |rest| && rest[j] == y;
        assert s[j + 1] == y;
      }
      InsertSorts(s[0], SortBy(rest, le), le, tie);
    }
  }

  /** A strict order: nothing precedes itself, and never both ways. */
  ghost predicate Strictly<T(!new)>(s: seq<T>, before: (T, T) -> bool) {
    forall i, j :: 0 <= i < j < |s| ==> before(s[i], s[j])
  }

  ghost predicate Asymmetric<T(!new)>(before: (T, T) -> bool) {
    forall x, y :: before(x, y) ==> !before(y, x)
  }

  /** Two strictly ordered sequences with the same members are equal: order plus content fix the list. */
  lemma {:induction false} StrictListsAreUnique<T(!new)>(a: seq<T>, b: seq<T>, before: (T, T) -> bool)
    requires Asymmetric(before) && Strictly(a, before) && Strictly(b, before)
    requires forall x :: x in a <==> x in b
    ensures a == b
  {
    assert a != [] ==> a[0] in b;
    assert b != [] ==> b[0] in a;
    if a != [] && b != [] {
      var i :| 0 <= i < |b| && b[i] == a[0];
      var j :| 0 <= j < |a| && a[j] == b[0];
      assert a[0] == b[0];
      forall x ensures x in a[1..] <==> x in b[1..] {
        assert x in a[1..] ==> x in a && x != a[0];
        assert x in b[1..] ==> x in b && x != b[0];
        assert x in a && x != a[0] ==> x in a[1..];
        assert x in b && x != b[0] ==> x in b[1..];
      }
      StrictListsAreUnique(a[1..], b[1..], before);
      assert a == [a[0]] + a[1..] && b == [b[0]] + b[1..];
    }
  }

  // ---- sequences of strings, compared position by position ----

  /** Same length, and smaller at the first position where they differ. */
  ghost predicate WordsLess(u: seq<string>, v: seq<string>) {
    |u| == |v| && exists k :: 0 <= k < |u| && u[..k] == v[..k] && Less(u[k], v[k])
  }

  /** Shorter first, then position by position. */
  ghost predicate Before(u: seq<string>, v: seq<string>) {
    |u| < |v| || WordsLess(u, v)
  }

  ghost predicate NotAfter(u: seq<string>, v: seq<string>) {
    u == v || Before(u, v)
  }

  lemma PrefixesAgree(u: seq<string>, v: seq<string>, k: nat, i: nat)
    requires i < k <= |u| && k <= |v| && u[..k] == v[..k]
    ensures u[i] == v[i]
  {
    assert u[..k][i] == v[..k][i];
  }

  lemma BeforeIsStrict(u: seq<string>, v: seq<string>)
    requires Before(u, v)
    ensures u != v && !Before(v, u)
  {
    if |u| == |v| {
      var k :| 0 <= k < |u| && u[..k] == v[..k] && Less(u[k], v[k]);
      LessIsStrict(u[k], v[k]);
      if WordsLess(v, u) {
        var m :| 0 <= m < |v| && v[..m] == u[..m] && Less(v[m], u[m]);
        LessIsStrict(v[m], u[m]);
        if m < k {
          PrefixesAgree(u, v, k, m);
        } else if k < m {
          PrefixesAgree(u, v, m, k);
        }
      }
    }
  }

  lemma BeforeIsTransitive(u: seq<string>, v: seq<string>, w: seq<string>)
    requires Before(u, v) && Before(v, w)
    ensures Before(u, w)
  {
    if |u| == |w| {
      var k :| 0 <= k < |u| && u[..k] == v[..k] && Less(u[k], v[k]);
      var m :| 0 <= m < |v| && v[..m] == w[..m] && Less(v[m], w[m]);
      var p := if k < m then k else m;
      assert u[..p] == u[..k][..p] == v[..k][..p] == v[..p];
      assert v[..p] == v[..m][..p] == w[..m][..p] == w[..p];
      if k < m {
        PrefixesAgree(v, w, m, k);
      } else if m < k {
        PrefixesAgree(u, v, k, m);
      } else {
        LessIsTransitive(u[k], v[k], w[k]);
      }
      assert Less(u[p], w[p]);
    }
  }

  lemma BeforeExtends(u: seq<string>, v: seq<string>, a: string, b: string)
    requires Before(u, v)
    ensures Before(u + [a], v + [b])
  {
    if |u| == |v| {
      var k :| 0 <= k < |u| && u[..k] == v[..k] && Less(u[k], v[k]);
      assert (u + [a])[..k] == u[..k] && (v + [b])[..k] == v[..k];
      assert Less((u + [a])[k], (v + [b])[k]);
    }
  }

  lemma LastDecides(u: seq<string>, a: string, b: string)
    requires Less(a, b)
    ensures Before(u + [a], u + [b])
  {
    assert (u + [a])[..|u|] == u == (u + [b])[..|u|];
  }
}
