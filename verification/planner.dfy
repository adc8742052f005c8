/** The batch planner: from parsed points to read requests. */
module Planner {
  import opened Bytes
  import opened Areas
  import opened Types
  import opened Decoder
  import opened Greedy

  /** A point with its parsed address, if the text was accepted. */
  datatype Entry = Entry(point: Point, parsed: Option<ParsedAddress>)

  datatype Member = Member(point: Point, parsed: ParsedAddress)

  datatype GroupedPoint = GroupedPoint(member: Member, offset: int)

  /** One read request and the points it serves. */
  datatype PointGroup = PointGroup(areaCode: byte, startAddr: u16, count: u16, points: seq<GroupedPoint>, isBit: bool)

  /** What points of one list have in common. */
  datatype Key = Key(areaCode: byte, isBit: bool)

  /** Bytes the planner reserves for a point. */
  function PlannedBytes(m: Member): nat {
    var size := DataTypeSize(m.point.dataType);
    if size != 0 then size else if m.parsed.isString then m.parsed.stringLen else 2
  }

  function Words(m: Member): nat { (PlannedBytes(m) + 1) / 2 }

  function SpanOf(m: Member): Span { Span(m.parsed.address, Words(m)) }

  function Spans(ms: seq<Member>): (ps: seq<Span>)
    ensures |ps| == |ms|
  {
    seq(|ms|, i requires 0 <= i < |ms| => SpanOf(ms[i]))
  }

  predicate IsBitPoint(m: Member) { m.parsed.isBit || m.point.dataType.BIT? }

  function KeyOf(m: Member): Key {
    if IsBitPoint(m) then Key(BitAccessCode(m.parsed.areaCode), true) else Key(m.parsed.areaCode, false)
  }

  // ----- the lists -----

  predicate NotAfter(a: Member, b: Member) {
    || a.parsed.address < b.parsed.address
    || (a.parsed.address == b.parsed.address && a.parsed.bit <= b.parsed.bit)
  }

  predicate InOrder(ms: seq<Member>) {
    forall i, j :: 0 <= i < j < |ms| ==> NotAfter(ms[i], ms[j])
  }

  lemma InOrderSpans(ms: seq<Member>)
    requires InOrder(ms)
    ensures Sorted(Spans(ms))
  {
  }

  /** The parsed points of one key, in input order. */
  function MembersOf(entries: seq<Entry>, k: Key): (r: seq<Member>)
    ensures forall m :: m in r ==> KeyOf(m) == k
  {
    if entries == [] then []
    else
      var rest := MembersOf(entries[..|entries| - 1], k);
      var e := entries[|entries| - 1];
      if e.parsed.Some? && KeyOf(Member(e.point, e.parsed.value)) == k
      then rest + [Member(e.point, e.parsed.value)] else rest
  }

  /** All points whose address parsed, in input order. */
  function AllMembers(entries: seq<Entry>): seq<Member> {
    if entries == [] then []
    else
      var rest := AllMembers(entries[..|entries| - 1]);
      var e := entries[|entries| - 1];
      if e.parsed.Some? then rest + [Member(e.point, e.parsed.value)] else rest
  }

  // ----- groups of one list -----

  function GroupedAt(ms: seq<Member>, lo: nat, k: nat): GroupedPoint
    requires lo < |ms| && k < |ms|
  {
    GroupedPoint(ms[k], (ms[k].parsed.address - ms[lo].parsed.address) * 2)
  }

  /** The request for members lo..hi of a word list; both header fields are 16 bits wide. */
  function WordGroup(area: byte, ms: seq<Member>, lo: nat, hi: nat): PointGroup
    requires lo < hi <= |ms|
  {
    var start := ms[lo].parsed.address;
    PointGroup(area, start % 65536, (MaxEnd(Spans(ms), lo, hi) - start) % 65536,
               PointsOf(ms, lo, hi), false)
  }

  function PointsOf(ms: seq<Member>, lo: nat, hi: nat): (r: seq<GroupedPoint>)
    requires lo < hi <= |ms|
    ensures |r| == hi - lo
  {
    seq(hi - lo, i requires 0 <= i < hi - lo => GroupedAt(ms, lo, lo + i))
  }

  /** The greedy groups of a word list, from member lo on. */
  function WordGroups(area: byte, ms: seq<Member>, lo: nat, limit: int): (r: seq<PointGroup>)
    requires lo <= |ms|
    ensures |r| == |Cuts(Spans(ms), lo, limit)|
    decreases |ms| - lo
  {
    if lo == |ms| then []
    else
      var e := GroupEnd(Spans(ms), lo, lo + 1, limit);
      [WordGroup(area, ms, lo, e)] + WordGroups(area, ms, e, limit)
  }

  function BitGroup(area: byte, m: Member): PointGroup {
    PointGroup(area, m.parsed.address % 65536, 1, [GroupedPoint(m, 0)], true)
  }

  function BitGroups(area: byte, ms: seq<Member>): (r: seq<PointGroup>)
    ensures |r| == |ms| && forall i :: 0 <= i < |ms| ==> r[i] == BitGroup(area, ms[i])
  {
    seq(|ms|, i requires 0 <= i < |ms| => BitGroup(area, ms[i]))
  }

  function KeyGroups(k: Key, ms: seq<Member>, limit: int): seq<PointGroup> {
    if k.isBit then BitGroups(k.areaCode, ms) else WordGroups(k.areaCode, ms, 0, limit)
  }

  // ----- the whole plan -----

  function PlanGroups(order: seq<Key>, lists: map<Key, seq<Member>>, limit: int): seq<PointGroup>
    requires forall k :: k in order ==> k in lists
  {
    if order == [] then []
    else
      var last := order[|order| - 1];
      PlanGroups(order[..|order| - 1], lists, limit) + KeyGroups(last, lists[last], limit)
  }

  ghost predicate Distinct<T>(s: seq<T>) {
    forall i, j :: 0 <= i < j < |s| ==> s[i] != s[j]
  }

  predicate SortedList(ms: seq<Member>, of: seq<Member>) {
    InOrder(ms) && multiset(ms) == multiset(of)
  }

  /**
   * A result of the planner: the lists in some order (map iteration is unordered), each sorted
   * in some way (ties are unordered), cut up greedily.
   */
  ghost predicate IsPlan(
    entries: seq<Entry>, limit: int, order: seq<Key>, lists: map<Key, seq<Member>>, groups: seq<PointGroup>)
  {
    && Distinct(order)
    && (forall k :: k in order <==> MembersOf(entries, k) != [])
    && (forall k :: k in order ==> k in lists && SortedList(lists[k], MembersOf(entries, k)))
    && groups == PlanGroups(order, lists, limit)
  }

  // ----- sorting -----

  /** A sorted arrangement exists, so there is something for the library sort to return. */
  function Insert(m: Member, ms: seq<Member>): (r: seq<Member>) {
    if ms == [] || NotAfter(m, ms[0]) then [m] + ms else [ms[0]] + Insert(m, ms[1..])
  }

  lemma {:induction false} InsertIsSorted(m: Member, ms: seq<Member>)
    requires InOrder(ms)
    ensures InOrder(Insert(m, ms)) && multiset(Insert(m, ms)) == multiset(ms) + multiset{m}
  {
    if ms == [] || NotAfter(m, ms[0]) {
    } else {
      var t := ms[1..];
      InsertIsSorted(m, t);
      assert ms == [ms[0]] + t;
      var r := Insert(m, t);
      forall j | 0 <= j < |r| ensures NotAfter(ms[0], r[j]) {
        assert r[j] in multiset(r);
        assert r[j] in multiset(t) || r[j] == m;
        assert r[j] in t || r[j] == m;
      }
    }
  }

  function Sorting(ms: seq<Member>): (r: seq<Member>) {
    if ms == [] then [] else Insert(ms[0], Sorting(ms[1..]))
  }

  lemma {:induction false} SortingSorts(ms: seq<Member>)
    ensures SortedList(Sorting(ms), ms)
  {
    if ms == [] {
    } else {
      SortingSorts(ms[1..]);
      InsertIsSorted(ms[0], Sorting(ms[1..]));
      assert ms == [ms[0]] + ms[1..];
    }
  }

  // ----- the planner as it runs -----

  /** Addresses and sizes within the 16-bit fields they are stored in. */
  predicate Fits(m: Member) { m.parsed.address < 65536 && Words(m) < 65536 }

  predicate AllFit(ms: seq<Member>) { forall m :: m in ms ==> Fits(m) }

  lemma GroupCountFits(ms: seq<Member>, lo: nat, hi: nat, limit: int)
    requires AllFit(ms) && limit < 65536 && IsGroup(Spans(ms), lo, hi, limit)
    ensures 0 <= MaxEnd(Spans(ms), lo, hi) - ms[lo].parsed.address < 65536
  {
    GroupSize(Spans(ms), lo, hi, limit);
    MaxEndIsMax(Spans(ms), lo, hi);
    assert ms[lo] in ms;
  }

  /** The open group holds members lo..i, its fields exact, and the scan keeps at least those. */
  ghost predicate ScanState(area: byte, ms: seq<Member>, limit: int, lo: nat, i: nat, current: PointGroup) {
    && lo < i <= |ms|
    && IsGroup(Spans(ms), lo, i, limit)
    && GroupEnd(Spans(ms), lo, lo + 1, limit) == GroupEnd(Spans(ms), lo, i, limit)
    && current.areaCode == area && !current.isBit
    && current.startAddr == ms[lo].parsed.address
    && current.startAddr + current.count == MaxEnd(Spans(ms), lo, i)
    && current.points == PointsOf(ms, lo, i)
  }

  /** A group opened at member i. */
  lemma ScanOpens(area: byte, ms: seq<Member>, limit: int, i: nat)
    requires AllFit(ms) && i < |ms|
    ensures ScanState(area, ms, limit, i, i + 1, Opened(area, ms[i]))
  {
    assert ms[i] in ms;
    assert MaxEnd(Spans(ms), i, i + 1) == SpanOf(ms[i]).End();
    assert PointsOf(ms, i, i + 1) == [GroupedAt(ms, i, i)];
  }

  /** A member accepted into the open group. */
  lemma ScanJoins(area: byte, ms: seq<Member>, limit: int, lo: nat, i: nat, current: PointGroup)
    requires AllFit(ms) && limit < 65536 && ScanState(area, ms, limit, lo, i, current)
    requires i < |ms| && Joins(Spans(ms), lo, i, limit)
    ensures ScanState(area, ms, limit, lo, i + 1, Extended(current, ms[i]))
  {
    var ps := Spans(ms);
    assert IsGroup(ps, lo, i + 1, limit);
    GroupCountFits(ms, lo, i + 1, limit);
    var newEnd := ps[i].End();
    assert MaxEnd(ps, lo, i + 1) == if newEnd > MaxEnd(ps, lo, i) then newEnd else MaxEnd(ps, lo, i);
    PointsSnoc(ms, lo, i);
  }

  lemma PointsSnoc(ms: seq<Member>, lo: nat, i: nat)
    requires lo < i < |ms|
    ensures PointsOf(ms, lo, i + 1) == PointsOf(ms, lo, i) + [GroupedAt(ms, lo, i)]
  {
  }

  lemma WordGroupsFirst(area: byte, ms: seq<Member>, limit: int, lo: nat, i: nat)
    requires lo < i <= |ms| && GroupEnd(Spans(ms), lo, lo + 1, limit) == GroupEnd(Spans(ms), lo, i, limit)
    requires i == |ms| || !Joins(Spans(ms), lo, i, limit)
    ensures WordGroups(area, ms, lo, limit) == [WordGroup(area, ms, lo, i)] + WordGroups(area, ms, i, limit)
  {
    assert GroupEnd(Spans(ms), lo, i, limit) == i;
  }

  lemma ScanIsGroup(area: byte, ms: seq<Member>, limit: int, lo: nat, i: nat, current: PointGroup)
    requires AllFit(ms) && limit < 65536 && ScanState(area, ms, limit, lo, i, current)
    ensures current == WordGroup(area, ms, lo, i)
  {
    assert ms[lo] in ms;
    GroupCountFits(ms, lo, i, limit);
  }

  lemma Regroup(a: seq<PointGroup>, g: PointGroup, b: seq<PointGroup>)
    ensures a + ([g] + b) == (a + [g]) + b
  {
  }

  lemma ScanCloses(area: byte, ms: seq<Member>, limit: int, lo: nat, i: nat, current: PointGroup, done: seq<PointGroup>)
    requires AllFit(ms) && limit < 65536 && ScanState(area, ms, limit, lo, i, current)
    requires i == |ms| || !Joins(Spans(ms), lo, i, limit)
    requires Scanned(area, ms, limit, lo, done)
    ensures Scanned(area, ms, limit, i, done + [current])
  {
    ScanIsGroup(area, ms, limit, lo, i, current);
    WordGroupsFirst(area, ms, limit, lo, i);
    Regroup(done, current, WordGroups(area, ms, i, limit));
  }

  /** The test the scan makes is the joining rule. */
  lemma ScanDecides(area: byte, ms: seq<Member>, limit: int, lo: nat, i: nat, current: PointGroup)
    requires ScanState(area, ms, limit, lo, i, current) && i < |ms|
    ensures Joins(Spans(ms), lo, i, limit)
      <==> ms[i].parsed.address <= current.startAddr + current.count + 10
           && (ms[i].parsed.address + Words(ms[i]) - current.startAddr) * 2 <= limit * 2
  {
    assert Spans(ms)[i] == SpanOf(ms[i]) && Spans(ms)[lo] == SpanOf(ms[lo]);
  }

  /** The groups closed so far and those from `lo` on make up the whole. */
  ghost predicate Scanned(area: byte, ms: seq<Member>, limit: int, lo: nat, done: seq<PointGroup>) {
    lo <= |ms| && done + WordGroups(area, ms, lo, limit) == WordGroups(area, ms, 0, limit)
  }

  /** A group that starts with one member. */
  function Opened(area: byte, m: Member): PointGroup {
    PointGroup(area, m.parsed.address % 65536, Words(m) % 65536, [GroupedPoint(m, 0)], false)
  }

  /** The open group with one more member. */
  function Extended(current: PointGroup, m: Member): PointGroup {
    var newEnd := m.parsed.address + Words(m);
    var count := if newEnd > current.startAddr + current.count then (newEnd - current.startAddr) % 65536 else current.count;
    current.(count := count, points := current.points + [GroupedPoint(m, (m.parsed.address - current.startAddr) * 2)])
  }

  /** The scan before member i: the closed groups, and the open one from `lo` on. */
  ghost predicate Scanning(area: byte, ms: seq<Member>, limit: int, i: nat, lo: nat, current: PointGroup, done: seq<PointGroup>) {
    && Scanned(area, ms, limit, lo, done)
    && if i == 0 then lo == 0 && current.points == [] else ScanState(area, ms, limit, lo, i, current)
  }

  lemma ScanStarts(area: byte, ms: seq<Member>, limit: int, current: PointGroup)
    requires current.points == []
    ensures Scanning(area, ms, limit, 0, 0, current, [])
  {
    assert [] + WordGroups(area, ms, 0, limit) == WordGroups(area, ms, 0, limit);
  }

  /** After the last member the open group, if any, completes the groups. */
  lemma ScanEnds(area: byte, ms: seq<Member>, limit: int, lo: nat, current: PointGroup, done: seq<PointGroup>)
    requires AllFit(ms) && limit < 65536 && Scanning(area, ms, limit, |ms|, lo, current, done)
    ensures (if |current.points| > 0 then done + [current] else done) == WordGroups(area, ms, 0, limit)
  {
    if |ms| > 0 {
      ScanCloses(area, ms, limit, lo, |ms|, current, done);
    }
    assert WordGroups(area, ms, |ms|, limit) == [];
  }

  /** One turn of the scan: open, join, or close and open. */
  method ScanPoint(area: byte, ms: seq<Member>, maxFrameLength: int, i: nat, current: PointGroup, result: seq<PointGroup>, ghost lo: nat)
    returns (current': PointGroup, result': seq<PointGroup>, ghost lo': nat)
    requires AllFit(ms) && maxFrameLength < 65536 && i < |ms|
    requires Scanning(area, ms, maxFrameLength, i, lo, current, result)
    ensures Scanning(area, ms, maxFrameLength, i + 1, lo', current', result')
  {
    current', result', lo' := current, result, lo;
    var m := ms[i];
    if |current.points| == 0 {
      ScanOpens(area, ms, maxFrameLength, i);
      current' := Opened(area, m);
    } else {
      ScanDecides(area, ms, maxFrameLength, lo, i, current);
      var endAddr := current.startAddr + current.count;
      var totalBytes := (m.parsed.address + Words(m) - current.startAddr) * 2;
      if m.parsed.address <= endAddr + 10 && totalBytes <= maxFrameLength * 2 {
        ScanJoins(area, ms, maxFrameLength, lo, i, current);
        current' := Extended(current, m);
      } else {
        ScanCloses(area, ms, maxFrameLength, lo, i, current, result);
        ScanOpens(area, ms, maxFrameLength, i);
        current', result', lo' := Opened(area, m), result + [current], i;
      }
    }
  }

  /** The greedy scan over one sorted word list. */
  method ScanWords(area: byte, ms: seq<Member>, maxFrameLength: int) returns (result: seq<PointGroup>)
    requires AllFit(ms) && maxFrameLength < 65536
    ensures result == WordGroups(area, ms, 0, maxFrameLength)
  {
    result := [];
    var current := PointGroup(area, 0, 0, [], false);
    ghost var lo := 0;
    ScanStarts(area, ms, maxFrameLength, current);
    for i := 0 to |ms|
      invariant Scanning(area, ms, maxFrameLength, i, lo, current, result)
    {
      current, result, lo := ScanPoint(area, ms, maxFrameLength, i, current, result, lo);
    }
    ScanEnds(area, ms, maxFrameLength, lo, current, result);
    if |current.points| > 0 {
      result := result + [current];
    }
  }

  /** The library sort: any sorted arrangement, since ties are not kept in order. */
  method SortPoints(ms: seq<Member>) returns (sorted: seq<Member>)
    ensures SortedList(sorted, ms)
  {
    SortingSorts(ms);
    sorted :| SortedList(sorted, ms);
  }

  method GroupPoints(entries: seq<Entry>, maxFrameLength: int)
    returns (result: seq<PointGroup>, ghost order: seq<Key>, ghost lists: map<Key, seq<Member>>)
    requires AllFit(AllMembers(entries)) && maxFrameLength < 65536
    ensures IsPlan(entries, maxFrameLength, order, lists, result)
  {
    var groupsMap := CollectLists(entries);
    result, order, lists := [], [], map[];
    var keys := groupsMap.Keys;
    while keys != {}
      invariant keys <= groupsMap.Keys
      invariant Distinct(order) && forall k :: k in order <==> k in groupsMap && k !in keys
      invariant forall k :: k in order ==> k in lists && SortedList(lists[k], MembersOf(entries, k))
      invariant result == PlanGroups(order, lists, maxFrameLength)
    {
      var key :| key in keys;
      var points := SortPoints(groupsMap[key]);
      var groups;
      if key.isBit {
        groups := ListBits(key.areaCode, points);
      } else {
        SortedListFits(entries, key, points);
        groups := ScanWords(key.areaCode, points, maxFrameLength);
      }
      PlanSnoc(order, lists, maxFrameLength, key, points);
      order, lists := order + [key], lists[key := points];
      result := result + groups;
      keys := keys - {key};
    }
  }

  /** One request for every bit point. */
  method ListBits(area: byte, points: seq<Member>) returns (groups: seq<PointGroup>)
    ensures groups == BitGroups(area, points)
  {
    groups := [];
    for i := 0 to |points|
      invariant groups == BitGroups(area, points[..i])
    {
      var p := points[i];
      groups := groups + [PointGroup(area, p.parsed.address % 65536, 1, [GroupedPoint(p, 0)], true)];
    }
    assert points[..|points|] == points;
  }

  /** Appends every parsed point to the list of its key. */
  method CollectLists(entries: seq<Entry>) returns (groupsMap: map<Key, seq<Member>>)
    ensures forall k :: k in groupsMap <==> MembersOf(entries, k) != []
    ensures forall k :: k in groupsMap ==> groupsMap[k] == MembersOf(entries, k)
  {
    groupsMap := map[];
    for i := 0 to |entries|
      invariant forall k :: k in groupsMap <==> MembersOf(entries[..i], k) != []
      invariant forall k :: k in groupsMap ==> groupsMap[k] == MembersOf(entries[..i], k)
    {
      assert entries[..i + 1][..i] == entries[..i];
      if entries[i].parsed.None? {
        continue;
      }
      var parsed := entries[i].parsed.value;
      var isBit := parsed.isBit || entries[i].point.dataType.BIT?;
      var key := Key(parsed.areaCode, isBit);
      if isBit {
        var bitCode := BitAreaCode(parsed.areaCode);
        if bitCode.Some? {
          key := key.(areaCode := bitCode.value);
        }
      }
      var m := Member(entries[i].point, parsed);
      assert key == KeyOf(m);
      groupsMap := groupsMap[key := (if key in groupsMap then groupsMap[key] else []) + [m]];
    }
    assert entries[..|entries|] == entries;
  }

  lemma {:induction false} MembersAmongAll(entries: seq<Entry>, k: Key)
    ensures forall m :: m in MembersOf(entries, k) ==> m in AllMembers(entries)
  {
    if entries != [] {
      MembersAmongAll(entries[..|entries| - 1], k);
    }
  }

  lemma SortedListFits(entries: seq<Entry>, k: Key, points: seq<Member>)
    requires AllFit(AllMembers(entries)) && SortedList(points, MembersOf(entries, k))
    ensures AllFit(points)
  {
    MembersAmongAll(entries, k);
    forall m | m in points ensures Fits(m) {
      assert m in multiset(points);
      assert m in MembersOf(entries, k);
    }
  }

  lemma PlanSnoc(order: seq<Key>, lists: map<Key, seq<Member>>, limit: int, key: Key, points: seq<Member>)
    requires (forall k :: k in order ==> k in lists) && key !in order
    ensures PlanGroups(order + [key], lists[key := points], limit)
         == PlanGroups(order, lists, limit) + KeyGroups(key, points, limit)
  {
    assert (order + [key])[..|order|] == order;
    PlanIgnores(order, lists, limit, key, points);
  }

  lemma {:induction false} PlanIgnores(order: seq<Key>, lists: map<Key, seq<Member>>, limit: int, key: Key, points: seq<Member>)
    requires (forall k :: k in order ==> k in lists) && key !in order
    ensures PlanGroups(order, lists[key := points], limit) == PlanGroups(order, lists, limit)
  {
    if order != [] {
      assert forall k :: k in order[..|order| - 1] ==> k in order;
      PlanIgnores(order[..|order| - 1], lists, limit, key, points);
    }
  }
}
