/**
 * The section-aware chunker: segments are joined, grouped by top-level section, split into units
 * and packed group by group.
 */
module ChunkSegments {
  import opened Wrappers
  import opened Seqs
  import opened Text
  import opened ChunkUnits
  import opened ChunkUnitLaws
  import opened ChunkPack
  import opened ChunkPackLaws

  datatype Error = BadConfig

  const SEPARATOR: string := "\n\n"

  /** The first `n` segments, joined by separators. */
  function JoinTo(segments: seq<Segment>, n: nat): string
    requires n <= |segments|
  {
    if n == 0 then "" else if n == 1 then segments[0].text
    else JoinTo(segments, n - 1) + SEPARATOR + segments[n - 1].text
  }

  function Joined(segments: seq<Segment>): string {
    JoinTo(segments, |segments|)
  }

  /** Where segment `i` stands in the joined text. */
  function Offset(segments: seq<Segment>, i: nat): nat
    requires i <= |segments|
  {
    if i == 0 then 0 else |JoinTo(segments, i)| + |SEPARATOR|
  }

  function Top(section: seq<string>): Option<string> {
    if section == [] then None else Some(section[0])
  }

  /** The same top-level section: the paths start alike, or both are empty. */
  predicate SameTop(x: seq<string>, y: seq<string>) {
    (x == [] <==> y == []) && (x != [] && y != [] ==> x[0] == y[0])
  }

  /** Where the run of segments with the top-level section of `start` ends. */
  function RunEnd(segments: seq<Segment>, start: nat, end: nat): (r: nat)
    requires start < end <= |segments|
    ensures end <= r <= |segments|
    decreases |segments| - end
  {
    if end < |segments| && Top(segments[end].section) == Top(segments[start].section)
    then RunEnd(segments, start, end + 1) else end
  }

  /** A document: its segments with their given splits, joined, and where each segment stands. */
  datatype Doc = Doc(segments: seq<Segment>, splits: seq<Splits>, joined: string, offsets: seq<nat>)

  ghost predicate AllDivide(segments: seq<Segment>, splits: seq<Splits>) {
    && |splits| == |segments|
    && forall i {:trigger Divides(segments[i].text, splits[i])} ::
         0 <= i < |segments| ==> Divides(segments[i].text, splits[i])
  }

  /** Where segment `i` ends. */
  function End(doc: Doc, i: nat): nat
    requires i < |doc.segments| == |doc.offsets|
  {
    doc.offsets[i] + |doc.segments[i].text|
  }

  /** The segments stand in the joined text in order, with nothing but white space between them. */
  ghost predicate LaidOut(doc: Doc) {
    && |doc.offsets| == |doc.segments|
    && (forall i :: 0 <= i < |doc.segments| ==> OccursAt(doc.joined, doc.segments[i].text, doc.offsets[i]))
    && (doc.segments == [] ==> doc.joined == "")
    && (doc.segments != [] ==> doc.offsets[0] == 0 && End(doc, |doc.segments| - 1) == |doc.joined|)
    && (forall i, j :: 0 <= i && j == i + 1 < |doc.segments| ==> IsGap(doc, i, j))
  }

  /** Something blank, and nothing else, is between two segments. */
  ghost predicate IsGap(doc: Doc, i: nat, j: nat)
    requires i < |doc.segments| == |doc.offsets| && j < |doc.segments|
  {
    && End(doc, i) < doc.offsets[j] <= |doc.joined|
    && forall p :: End(doc, i) <= p < doc.offsets[j] ==> IsWhitespace(doc.joined[p])
  }

  ghost predicate Valid(doc: Doc) {
    AllDivide(doc.segments, doc.splits) && LaidOut(doc)
  }

  // ---- segments in the joined text ----

  lemma {:induction false} JoinsGrow(segments: seq<Segment>, i: nat, n: nat)
    requires i <= n <= |segments|
    ensures |JoinTo(segments, i)| <= |JoinTo(segments, n)|
    ensures JoinTo(segments, n)[..|JoinTo(segments, i)|] == JoinTo(segments, i)
    decreases n
  {
    if i < n {
      JoinsGrow(segments, i, n - 1);
      JoinExtends(segments, n - 1);
    }
  }

  lemma JoinExtends(segments: seq<Segment>, n: nat)
    requires n < |segments|
    ensures |JoinTo(segments, n)| <= |JoinTo(segments, n + 1)|
    ensures JoinTo(segments, n + 1)[..|JoinTo(segments, n)|] == JoinTo(segments, n)
  {
    if n > 0 {
      var a := JoinTo(segments, n);
      assert JoinTo(segments, n + 1) == a + (SEPARATOR + segments[n].text);
    }
  }

  lemma SegmentEndsJoin(segments: seq<Segment>, i: nat)
    requires i < |segments|
    ensures (Offset(segments, i) + |segments[i].text|) == |JoinTo(segments, i + 1)|
    ensures JoinTo(segments, i + 1)[Offset(segments, i)..] == segments[i].text
    ensures i + 1 < |segments| ==> (Offset(segments, i) + |segments[i].text|) + |SEPARATOR| == Offset(segments, i + 1)
  {
    if i > 0 {
      var a := JoinTo(segments, i) + SEPARATOR;
      assert JoinTo(segments, i + 1) == a + segments[i].text;
    }
  }

  lemma SegmentIsJoined(segments: seq<Segment>, i: nat)
    requires i < |segments|
    ensures OccursAt(Joined(segments), segments[i].text, Offset(segments, i))
  {
    SegmentEndsJoin(segments, i);
    JoinsGrow(segments, i + 1, |segments|);
    var all, part := Joined(segments), JoinTo(segments, i + 1);
    assert all[Offset(segments, i)..(Offset(segments, i) + |segments[i].text|)] ==
           all[..|part|][Offset(segments, i)..] == part[Offset(segments, i)..];
  }

  lemma SeparatorIsJoined(segments: seq<Segment>, i: nat, p: nat)
    requires i + 1 < |segments| && Offset(segments, i) + |segments[i].text| <= p < Offset(segments, i + 1)
    ensures p < |Joined(segments)| && IsWhitespace(Joined(segments)[p])
  {
    SegmentEndsJoin(segments, i);
    JoinsGrow(segments, i + 2, |segments|);
    var all, next := Joined(segments), JoinTo(segments, i + 2);
    assert next == JoinTo(segments, i + 1) + SEPARATOR + segments[i + 1].text;
    assert all[p] == all[..|next|][p] == next[p] == SEPARATOR[p - |JoinTo(segments, i + 1)|];
  }

  /** The document of a list of segments. */
  function DocOf(segments: seq<Segment>, splits: seq<Splits>): Doc {
    Doc(segments, splits, Joined(segments), seq(|segments|, i requires 0 <= i < |segments| => Offset(segments, i)))
  }

  lemma TextsOccur(segments: seq<Segment>, doc: Doc)
    requires doc == DocOf(segments, doc.splits)
    ensures forall i :: 0 <= i < |segments| ==> OccursAt(doc.joined, segments[i].text, doc.offsets[i])
  {
    forall i | 0 <= i < |segments| ensures OccursAt(doc.joined, segments[i].text, doc.offsets[i]) {
      SegmentIsJoined(segments, i);
    }
  }

  lemma GapIsSeparator(segments: seq<Segment>, doc: Doc, i: nat, j: nat)
    requires doc == DocOf(segments, doc.splits) && j == i + 1 < |segments|
    ensures IsGap(doc, i, j)
  {
    SegmentEndsJoin(segments, i);
    SegmentIsJoined(segments, j);
    assert doc.offsets[i] == Offset(segments, i) && doc.offsets[j] == Offset(segments, j);
    forall p | End(doc, i) <= p < doc.offsets[j] ensures IsWhitespace(doc.joined[p]) {
      SeparatorIsJoined(segments, i, p);
    }
  }

  lemma JoinIsLayout(segments: seq<Segment>, splits: seq<Splits>)
    ensures LaidOut(DocOf(segments, splits))
  {
    var doc := DocOf(segments, splits);
    TextsOccur(segments, doc);
    EndsMeet(segments, doc);
    GapsAreSeparators(segments, doc);
  }

  lemma EndsMeet(segments: seq<Segment>, doc: Doc)
    requires doc == DocOf(segments, doc.splits)
    ensures segments == [] ==> doc.joined == ""
    ensures segments != [] ==> doc.offsets[0] == 0 && End(doc, |segments| - 1) == |doc.joined|
  {
    if segments != [] {
      SegmentEndsJoin(segments, |segments| - 1);
    }
  }

  lemma GapsAreSeparators(segments: seq<Segment>, doc: Doc)
    requires doc == DocOf(segments, doc.splits)
    ensures forall i, j :: 0 <= i && j == i + 1 < |segments| ==> IsGap(doc, i, j)
  {
    forall i, j | 0 <= i && j == i + 1 < |segments| ensures IsGap(doc, i, j) {
      GapIsSeparator(segments, doc, i, j);
    }
  }

  // ---- positions ----

  /** Between two segments there is only white space. */
  lemma NextOffset(doc: Doc, j: nat)
    requires LaidOut(doc) && j + 1 < |doc.segments|
    ensures doc.offsets[j] <= End(doc, j) < doc.offsets[j + 1] <= |doc.joined|
    ensures forall p :: End(doc, j) <= p < doc.offsets[j + 1] ==> IsWhitespace(doc.joined[p])
  {
    assert IsGap(doc, j, j + 1);
  }

  lemma {:induction false} OffsetsGrow(doc: Doc, i: nat, j: nat)
    requires LaidOut(doc) && i < j < |doc.segments|
    ensures End(doc, i) < doc.offsets[j] <= |doc.joined|
    decreases j
  {
    NextOffset(doc, j - 1);
    if i < j - 1 {
      OffsetsGrow(doc, i, j - 1);
    }
  }

  /** The units of segments `start` to `end`. */
  function GroupUnits(doc: Doc, start: nat, end: nat, size: nat): seq<Unit>
    requires Valid(doc) && start <= end <= |doc.segments|
    decreases end
  {
    if start == end then []
    else GroupUnits(doc, start, end - 1, size) +
         SegmentUnits(doc.segments[end - 1].text, doc.splits[end - 1], doc.offsets[end - 1], end - 1, size)
  }

  // ---- one group ----

  /** A unit of a group: the laws of its segment, and a place inside its segment. */
  ghost predicate GroupLaw(doc: Doc, start: nat, end: nat, size: nat, u: Unit)
    requires Valid(doc) && end <= |doc.segments|
  {
    && start <= u.segment < end
    && doc.offsets[u.segment] <= u.start && u.end <= End(doc, u.segment)
    && SegmentLaw(doc.joined, doc.segments[u.segment].text, doc.splits[u.segment],
                  doc.offsets[u.segment], u.segment, size, u)
  }

  /** The same but for what the unit counts. */
  ghost predicate GroupPlace(doc: Doc, start: nat, end: nat, size: nat, u: Unit)
    requires Valid(doc) && end <= |doc.segments|
  {
    && start <= u.segment < end
    && doc.offsets[u.segment] <= u.start && u.end <= End(doc, u.segment)
    && SegmentPlace(doc.joined, doc.segments[u.segment].text, doc.splits[u.segment],
                    doc.offsets[u.segment], u.segment, size, u)
  }

  lemma LawIsPlace(doc: Doc, start: nat, end: nat, size: nat, u: Unit)
    requires Valid(doc) && end <= |doc.segments| && GroupLaw(doc, start, end, size, u)
    ensures GroupPlace(doc, start, end, size, u)
  {
  }

  ghost predicate GroupLaws(doc: Doc, start: nat, end: nat, size: nat, us: seq<Unit>)
    requires Valid(doc) && end <= |doc.segments|
  {
    forall i {:trigger GroupLaw(doc, start, end, size, us[i])} ::
      0 <= i < |us| ==> GroupLaw(doc, start, end, size, us[i])
  }

  lemma SegmentInGroup(doc: Doc, start: nat, i: nat, size: nat)
    requires Valid(doc) && start <= i < |doc.segments|
    ensures var us := SegmentUnits(doc.segments[i].text, doc.splits[i], doc.offsets[i], i, size);
            && End(doc, i) <= |doc.joined|
            && InRow(us, doc.offsets[i], End(doc, i)) && Covered(doc.joined, us, doc.offsets[i], End(doc, i))
            && GroupLaws(doc, start, i + 1, size, us)
  {
    var text, sp := doc.segments[i].text, doc.splits[i];
    assert Divides(text, sp);
    assert OccursAt(doc.joined, doc.segments[i].text, doc.offsets[i]);
    SegmentObeys(doc.joined, text, sp, doc.offsets[i], i, size, |sp.clusters|);
    var us := SegmentUnits(text, sp, doc.offsets[i], i, size);
    forall m | 0 <= m < |us| ensures GroupLaw(doc, start, i + 1, size, us[m]) {
      assert SegmentLaw(doc.joined, text, sp, doc.offsets[i], i, size, us[m]);
    }
  }

  ghost predicate GroupRow(doc: Doc, start: nat, end: nat, size: nat, us: seq<Unit>)
    requires Valid(doc) && start < end <= |doc.segments|
  {
    && End(doc, end - 1) <= |doc.joined|
    && InRow(us, doc.offsets[start], End(doc, end - 1))
    && Covered(doc.joined, us, doc.offsets[start], End(doc, end - 1))
    && GroupLaws(doc, start, end, size, us)
  }

  lemma GroupLawsJoin(doc: Doc, start: nat, end: nat, size: nat, us: seq<Unit>, vs: seq<Unit>)
    requires Valid(doc) && end + 1 <= |doc.segments|
    requires GroupLaws(doc, start, end, size, us) && GroupLaws(doc, start, end + 1, size, vs)
    ensures GroupLaws(doc, start, end + 1, size, us + vs)
  {
    forall i | 0 <= i < |us + vs| ensures GroupLaw(doc, start, end + 1, size, (us + vs)[i]) {
      if i < |us| {
        assert GroupLaw(doc, start, end, size, us[i]);
      } else {
        assert GroupLaw(doc, start, end + 1, size, vs[i - |us|]);
      }
    }
  }

  lemma GroupRowGrows(doc: Doc, start: nat, end: nat, size: nat, us: seq<Unit>, more: seq<Unit>)
    requires Valid(doc) && start < end < |doc.segments| && GroupRow(doc, start, end, size, us)
    requires End(doc, end) <= |doc.joined|
    requires InRow(more, doc.offsets[end], End(doc, end))
    requires Covered(doc.joined, more, doc.offsets[end], End(doc, end))
    ensures InRow(us + more, doc.offsets[start], End(doc, end))
    ensures Covered(doc.joined, us + more, doc.offsets[start], End(doc, end))
  {
    NextOffset(doc, end - 1);
    RowsJoin(doc.joined, us, more, doc.offsets[start], End(doc, end - 1), doc.offsets[end], End(doc, end));
  }

  lemma GroupUnitsStep(doc: Doc, start: nat, last: nat, size: nat)
    requires Valid(doc) && start <= last < |doc.segments|
    ensures GroupUnits(doc, start, last + 1, size) ==
            GroupUnits(doc, start, last, size) +
            SegmentUnits(doc.segments[last].text, doc.splits[last], doc.offsets[last], last, size)
  {
  }

  lemma GroupGrows(doc: Doc, start: nat, last: nat, end: nat, size: nat, us: seq<Unit>, more: seq<Unit>)
    requires Valid(doc) && start < last < end <= |doc.segments| && end == last + 1
    requires GroupRow(doc, start, last, size, us)
    requires more == SegmentUnits(doc.segments[last].text, doc.splits[last], doc.offsets[last], last, size)
    ensures GroupRow(doc, start, end, size, us + more)
  {
    SegmentInGroup(doc, start, last, size);
    GroupRowGrows(doc, start, last, size, us, more);
    GroupLawsJoin(doc, start, last, size, us, more);
  }

  lemma FirstOfGroup(doc: Doc, start: nat, end: nat, size: nat)
    requires Valid(doc) && start < |doc.segments| && end == start + 1
    ensures GroupRow(doc, start, end, size, GroupUnits(doc, start, end, size))
  {
    SegmentInGroup(doc, start, start, size);
    GroupUnitsStep(doc, start, start, size);
    var more := SegmentUnits(doc.segments[start].text, doc.splits[start], doc.offsets[start], start, size);
    assert GroupUnits(doc, start, start, size) == [];
    assert [] + more == more;
  }

  lemma {:induction false} GroupObeys(doc: Doc, start: nat, end: nat, size: nat)
    requires Valid(doc) && start < end <= |doc.segments|
    ensures GroupRow(doc, start, end, size, GroupUnits(doc, start, end, size))
    decreases end
  {
    var last := end - 1;
    if start == last {
      FirstOfGroup(doc, start, end, size);
    } else {
      GroupObeys(doc, start, last, size);
      GroupStepObeys(doc, start, last, end, size);
    }
  }

  lemma GroupStepObeys(doc: Doc, start: nat, last: nat, end: nat, size: nat)
    requires Valid(doc) && start < last < end <= |doc.segments| && end == last + 1
    requires GroupRow(doc, start, last, size, GroupUnits(doc, start, last, size))
    ensures GroupRow(doc, start, end, size, GroupUnits(doc, start, end, size))
  {
    GroupUnitsStep(doc, start, last, size);
    GroupGrows(doc, start, last, end, size, GroupUnits(doc, start, last, size),
               SegmentUnits(doc.segments[last].text, doc.splits[last], doc.offsets[last], last, size));
  }

  lemma GroupIsPlaced(doc: Doc, start: nat, end: nat, size: nat)
    requires Valid(doc) && start < end <= |doc.segments|
    ensures var us := GroupUnits(doc, start, end, size);
            Placed(us, |doc.joined|, |doc.segments|) && AllFair(doc.joined, us)
  {
    GroupObeys(doc, start, end, size);
    var us := GroupUnits(doc, start, end, size);
    forall i | 0 <= i < |us| ensures us[i].segment < |doc.segments| && Fair(doc.joined, us[i]) {
      assert GroupLaw(doc, start, end, size, us[i]);
    }
  }

  // ---- the whole document ----

  /** The chunks of the group of segments `start` to `end`. */
  function GroupChunks(doc: Doc, start: nat, end: nat, size: nat, overlap: nat): seq<SectionChunk>
    requires Valid(doc) && start < end <= |doc.segments|
  {
    GroupIsPlaced(doc, start, end, size);
    Packed(doc.joined, doc.segments, GroupUnits(doc, start, end, size), size, overlap)
  }

  /** The chunks of everything from segment `start` on. */
  function ChunksFrom(doc: Doc, start: nat, size: nat, overlap: nat): seq<SectionChunk>
    requires Valid(doc)
    decreases |doc.segments| - start
  {
    if start >= |doc.segments| then []
    else
      var end := RunEnd(doc.segments, start, start + 1);
      GroupChunks(doc, start, end, size, overlap) + ChunksFrom(doc, end, size, overlap)
  }

  method JoinSegments(segments: seq<Segment>) returns (joined: string, offsets: seq<nat>)
    ensures joined == Joined(segments)
    ensures |offsets| == |segments| && forall i :: 0 <= i < |segments| ==> offsets[i] == Offset(segments, i)
  {
    joined, offsets := "", [];
    for index := 0 to |segments|
      invariant joined == JoinTo(segments, index)
      invariant |offsets| == index && forall i :: 0 <= i < index ==> offsets[i] == Offset(segments, i)
    {
      if index > 0 {
        joined := joined + SEPARATOR;
      }
      offsets := offsets + [|joined|];
      joined := joined + segments[index].text;
    }
  }

  ghost predicate Collected(doc: Doc, start: nat, index: nat, size: nat, units: seq<Unit>)
    requires Valid(doc) && start <= index <= |doc.segments|
  {
    units == GroupUnits(doc, start, index, size)
  }

  /** One turn of the segment loop. */
  method PushSegment(doc: Doc, groupStart: nat, index: nat, size: nat, units0: seq<Unit>) returns (units: seq<Unit>)
    requires Valid(doc) && groupStart <= index < |doc.segments| && Collected(doc, groupStart, index, size, units0)
    ensures Collected(doc, groupStart, index + 1, size, units)
  {
    units := PushUnits(doc.segments[index].text, doc.splits[index], doc.offsets[index], index, size, units0);
    GroupUnitsStep(doc, groupStart, index, size);
  }

  /** The units of a group, segment by segment. */
  method CollectUnits(doc: Doc, groupStart: nat, groupEnd: nat, size: nat) returns (units: seq<Unit>)
    requires Valid(doc) && groupStart <= groupEnd <= |doc.segments|
    ensures units == GroupUnits(doc, groupStart, groupEnd, size)
  {
    units := [];
    assert Collected(doc, groupStart, groupStart, size, units);
    for index := groupStart to groupEnd
      invariant Collected(doc, groupStart, index, size, units)
    {
      units := PushSegment(doc, groupStart, index, size, units);
    }
  }

  /** One group: finds its end, collects its units and packs them. */
  method ChunkGroup(doc: Doc, groupStart: nat, size: nat, overlap: nat)
    returns (groupEnd: nat, chunks: seq<SectionChunk>)
    requires Valid(doc) && groupStart < |doc.segments|
    ensures groupEnd == RunEnd(doc.segments, groupStart, groupStart + 1)
    ensures chunks == GroupChunks(doc, groupStart, groupEnd, size, overlap)
  {
    groupEnd := groupStart + 1;
    while groupEnd < |doc.segments| && Top(doc.segments[groupEnd].section) == Top(doc.segments[groupStart].section)
      invariant groupStart < groupEnd <= |doc.segments|
      invariant RunEnd(doc.segments, groupStart, groupEnd) == RunEnd(doc.segments, groupStart, groupStart + 1)
    {
      groupEnd := groupEnd + 1;
    }
    var units := CollectUnits(doc, groupStart, groupEnd, size);
    GroupIsPlaced(doc, groupStart, groupEnd, size);
    chunks := Pack(doc.joined, doc.segments, units, size, overlap);
  }

  method Chunk(segments: seq<Segment>, splits: seq<Splits>, size: nat, overlap: nat)
    returns (r: Result<seq<SectionChunk>, Error>)
    requires AllDivide(segments, splits)
    ensures Valid(DocOf(segments, splits))
    ensures r == if size == 0 || overlap >= size then Err(BadConfig)
                 else Ok(ChunksFrom(DocOf(segments, splits), 0, size, overlap))
  {
    JoinIsLayout(segments, splits);
    if size == 0 || overlap >= size {
      return Err(BadConfig);
    }
    var joined, offsets := JoinSegments(segments);
    var doc := Doc(segments, splits, joined, offsets);
    assert doc == DocOf(segments, splits);
    var chunks: seq<SectionChunk> := [];
    var groupStart: nat := 0;
    while groupStart < |segments|
      invariant chunks + ChunksFrom(doc, groupStart, size, overlap) == ChunksFrom(doc, 0, size, overlap)
      decreases |segments| - groupStart
    {
      var groupEnd, more := ChunkGroup(doc, groupStart, size, overlap);
      AppendLater(chunks, more, ChunksFrom(doc, groupEnd, size, overlap), ChunksFrom(doc, groupStart, size, overlap));
      chunks := chunks + more;
      groupStart := groupEnd;
    }
    assert chunks + [] == chunks;
    return Ok(chunks);
  }
}
