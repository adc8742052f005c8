/**
 * The exact reach of the batching law: whenever a point is not safe, some batch changes what it
 * reads as.
 */
module BatchLimits {
  import opened Bytes
  import opened Areas
  import opened Types
  import opened Decoder
  import opened Address
  import opened Greedy
  import opened Planner
  import opened Plc
  import opened Exchange
  import opened Scheduler
  import opened BatchLaws

  /** A plan for points of one word list. */
  lemma PlanOfList(entries: seq<Entry>, limit: int, k: Key, ms: seq<Member>)
    requires ms != [] && MembersOf(entries, k) == ms && InOrder(ms)
    requires forall j :: j != k ==> MembersOf(entries, j) == []
    ensures IsPlan(entries, limit, [k], map[k := ms], KeyGroups(k, ms, limit))
  {
    assert [k][..0] == [];
    assert PlanGroups([k], map[k := ms], limit) == [] + KeyGroups(k, ms, limit);
  }

  lemma MembersOfOne(e: Entry, k: Key)
    requires e.parsed.Some?
    ensures MembersOf([e], k) ==
      if KeyOf(Member(e.point, e.parsed.value)) == k then [Member(e.point, e.parsed.value)] else []
    ensures AllMembers([e]) == [Member(e.point, e.parsed.value)]
  {
    assert [e][..0] == [];
  }

  lemma MembersOfTwo(d: Entry, e: Entry, k: Key)
    requires d.parsed.Some? && e.parsed.Some?
    requires KeyOf(Member(d.point, d.parsed.value)) == KeyOf(Member(e.point, e.parsed.value))
    ensures MembersOf([d, e], k) ==
      if KeyOf(Member(e.point, e.parsed.value)) == k
      then [Member(d.point, d.parsed.value), Member(e.point, e.parsed.value)] else []
    ensures AllMembers([d, e]) == [Member(d.point, d.parsed.value), Member(e.point, e.parsed.value)]
  {
    assert [d, e][..1] == [d];
    MembersOfOne(d, k);
  }

  /** A memory of text: no byte is NUL. */
  ghost predicate AllText(mem: Memory) {
    mem.Valid() && forall id, i :: 0 <= i < |mem.Get(id)| ==> mem.Get(id)[i] != 0
  }

  lemma TextMemory() returns (mem: Memory)
    ensures AllText(mem)
  {
    mem := Memory(seq(65536, _ => 65), seq(12288, _ => 65), seq(1024, _ => 65), seq(1024, _ => 65), seq(1024, _ => 65));
  }

  /** What an unsafe point is: text longer than its planned words, which may be joined and extended. */
  predicate Exposed(m: Member, limit: int) {
    && !IsBitPoint(m) && m.parsed.isString && m.parsed.stringLen > 2 * Words(m) && Words(m) <= limit
    && WordAreaOf(m.parsed.areaCode).Some?
    && m.parsed.address + Words(m) < AreaWords(WordAreaOf(m.parsed.areaCode).value)
  }

  lemma ExposedIsUnsafe(m: Member, limit: int)
    ensures Exposed(m, limit) <==> !BatchSafe(m, limit)
  {
  }

  /** The same area and words, one word longer. */
  predicate Beside(q: Member, m: Member) {
    && !IsBitPoint(q) && q.parsed.areaCode == m.parsed.areaCode
    && q.parsed.address == m.parsed.address && q.parsed.bit == m.parsed.bit && Words(q) == Words(m) + 1
  }

  lemma CanonicalText(b: ParsedAddress) returns (text: string)
    requires WellFormed(b)
    ensures ParseAddress(text) == Ok(b)
  {
    text := Canonical(b);
    CanonicalRoundTrip(b);
  }

  lemma LongerText(a: ParsedAddress, n: nat)
    requires WellFormed(a) && a.isString && 0 < n <= MAX_INT
    ensures WellFormed(a.(stringLen := n))
  {
  }

  lemma OneWordLonger(p: Point, a: ParsedAddress, q: Point)
    requires a.isString && !a.isBit && q.dataType.STRING?
    ensures Beside(Member(q, a.(stringLen := 2 * Words(Member(p, a)) + 1)), Member(p, a))
  {
  }

  /** Every text address has such a neighbour, written in the address grammar. */
  lemma NeighbourOf(p: Point, a: ParsedAddress) returns (q: Point, d: Entry)
    requires WellFormed(a) && a.isString && Words(Member(p, a)) < 65536
    ensures EntryOf(q) == d && d.point == q && d.parsed.Some? && q.id != p.id
    ensures Beside(Member(q, d.parsed.value), Member(p, a))
  {
    var n := 2 * Words(Member(p, a)) + 1;
    LongerText(a, n);
    var b := a.(stringLen := n);
    var text := CanonicalText(b);
    q := Point(p.id + ['+'], text, STRING);
    assert |q.id| == |p.id| + 1;
    d := Entry(q, Some(b));
    EntryOfText(q, b);
    OneWordLonger(p, a, q);
  }

  lemma PairJoins(q: Member, m: Member, limit: int)
    requires Beside(q, m) && Exposed(m, limit) && limit < 65536
    ensures var ps := Spans([q, m]);
      GroupEnd(ps, 0, 1, limit) == 2 && MaxEnd(ps, 0, 2) == SpanOf(q).End()
  {
    var ps := Spans([q, m]);
    assert ps[0] == SpanOf(q) && ps[1] == SpanOf(m);
    assert MaxEnd(ps, 0, 1) == ps[0].End();
    assert Joins(ps, 0, 1, limit);
    assert GroupEnd(ps, 0, 2, limit) == 2;
  }

  /** The greedy scan puts both points into one request. */
  lemma SharedRequest(area: byte, q: Member, m: Member, limit: int)
    requires Beside(q, m) && Exposed(m, limit) && limit < 65536
    ensures WordGroups(area, [q, m], 0, limit) ==
      [PointGroup(area, m.parsed.address, Words(m) + 1, [GroupedPoint(q, 0), GroupedPoint(m, 0)], false)]
  {
    var ms := [q, m];
    PairJoins(q, m, limit);
    assert PointsOf(ms, 0, 2) == [GroupedAt(ms, 0, 0), GroupedAt(ms, 0, 1)];
    assert WordGroups(area, ms, 2, limit) == [];
  }

  /** What a string-form point reads as from data without a NUL: as much as there is of its length. */
  lemma TextReading(data: seq<byte>, p: GroupedPoint, g: PointGroup)
    requires !g.isBit && p.offset == 0 && p.member.parsed.isString && !p.member.parsed.isBit
    requires 0 !in data
    ensures var n := if p.member.parsed.stringLen < |data| then p.member.parsed.stringLen else |data|;
      ReadingOf(g, p, Some(data)) == Good(VString(data[..n]))
  {
    var n := if p.member.parsed.stringLen < |data| then p.member.parsed.stringLen else |data|;
    CutNulIdentity(data[..n]);
    assert data[0..n] == data[..n] && data[..n][..n] == data[..n];
  }

  lemma TextSlice(mem: Memory, code: byte, start: nat, count: nat)
    requires AllText(mem) && WordAreaOf(code).Some? && start + count <= AreaWords(WordAreaOf(code).value)
    ensures var s := WordSlice(mem, code, start, count);
      s.Some? && |s.value| == 2 * count && 0 !in s.value
  {
  }

  /** A word request over text: the point reads as all of its length that was fetched. */
  lemma GroupText(mem: Memory, link: Link, g: PointGroup, p: GroupedPoint)
    requires AllText(mem) && Transparent(link) && !g.isBit && IsWordArea(g.areaCode)
    requires WordAreaOf(g.areaCode).Some? && g.startAddr < 65536 && g.count < 65536
    requires g.startAddr + g.count <= AreaWords(WordAreaOf(g.areaCode).value)
    requires p.offset == 0 && p.member.parsed.isString && !p.member.parsed.isBit
    ensures var r := ReadingOf(g, p, ReadGroup(mem, link, g));
      var n := p.member.parsed.stringLen;
      r.Good? && r.value.VString? && |r.value.text| == if n < 2 * g.count then n else 2 * g.count
  {
    ReadGroupWords(mem, link, g);
    TextSlice(mem, g.areaCode, g.startAddr, g.count);
    TextReading(GroupSlice(mem, g).value, p, g);
  }

  lemma PairPlan(d: Entry, e: Entry, limit: int)
    returns (order: seq<Key>, lists: map<Key, seq<Member>>, group: PointGroup)
    requires d.parsed.Some? && e.parsed.Some? && limit < 65536
    requires Beside(Member(d.point, d.parsed.value), Member(e.point, e.parsed.value))
    requires Exposed(Member(e.point, e.parsed.value), limit)
    ensures IsPlan([d, e], limit, order, lists, [group]) && AllFit(AllMembers([d, e]))
    ensures var q, m := Member(d.point, d.parsed.value), Member(e.point, e.parsed.value);
      group == PointGroup(m.parsed.areaCode, m.parsed.address, Words(m) + 1, [GroupedPoint(q, 0), GroupedPoint(m, 0)], false)
  {
    var q, m := Member(d.point, d.parsed.value), Member(e.point, e.parsed.value);
    var k := Key(m.parsed.areaCode, false);
    forall j ensures MembersOf([d, e], j) == if j == k then [q, m] else [] {
      MembersOfTwo(d, e, j);
    }
    MembersOfTwo(d, e, k);
    PlanOfList([d, e], limit, k, [q, m]);
    SharedRequest(k.areaCode, q, m, limit);
    order, lists := [k], map[k := [q, m]];
    group := KeyGroups(k, [q, m], limit)[0];
  }

  /** In the shared request the point reads as text that runs into the neighbour's word. */
  lemma PairReading(d: Entry, e: Entry, limit: int, order: seq<Key>, lists: map<Key, seq<Member>>,
                    group: PointGroup, mem: Memory, link: Link) returns (r: Reading)
    requires AllText(mem) && Transparent(link) && d.parsed.Some? && e.parsed.Some? && d.point.id != e.point.id
    requires IsPlan([d, e], limit, order, lists, [group])
    requires var q, m := Member(d.point, d.parsed.value), Member(e.point, e.parsed.value);
      && Exposed(m, limit) && IsWordArea(m.parsed.areaCode) && Beside(q, m)
      && group == PointGroup(m.parsed.areaCode, m.parsed.address, Words(m) + 1, [GroupedPoint(q, 0), GroupedPoint(m, 0)], false)
    ensures var results := Collect(StartResults([d, e]), [group], MemorySource(mem, link));
      e.point.id in results && r == results[e.point.id]
    ensures r.Good? && r.value.VString? && |r.value.text| > 2 * Words(Member(e.point, e.parsed.value))
  {
    var g, i := ResultOfPoint([d, e], limit, order, lists, [group], MemorySource(mem, link), 1);
    r := ReadingOf(group, group.points[i], ReadGroup(mem, link, group));
    GroupText(mem, link, group, group.points[i]);
  }

  lemma ExposedAlone(m: Member, limit: int)
    requires Exposed(m, limit)
    ensures SingleGroup(m) == PointGroup(m.parsed.areaCode, m.parsed.address, Words(m), [GroupedPoint(m, 0)], false)
  {
  }

  /** Alone, it reads as the text its planned words hold. */
  lemma AloneText(mem: Memory, m: Member, limit: int, link: Link)
    requires AllText(mem) && Transparent(link) && Exposed(m, limit) && IsWordArea(m.parsed.areaCode)
    ensures var r := AloneReading(mem, link, m);
      r.Good? && r.value.VString? && |r.value.text| == 2 * Words(m)
  {
    ExposedAlone(m, limit);
    var g := SingleGroup(m);
    GroupText(mem, link, g, GroupedPoint(m, 0));
  }

  lemma SinglePlan(e: Entry, limit: int) returns (order: seq<Key>, lists: map<Key, seq<Member>>, groups: seq<PointGroup>)
    requires e.parsed.Some?
    ensures IsPlan([e], limit, order, lists, groups)
    ensures AllMembers([e]) == [Member(e.point, e.parsed.value)]
  {
    var m := Member(e.point, e.parsed.value);
    var k := KeyOf(m);
    forall j ensures MembersOf([e], j) == if j == k then [m] else [] {
      MembersOfOne(e, j);
    }
    MembersOfOne(e, k);
    PlanOfList([e], limit, k, [m]);
    order, lists, groups := [k], map[k := [m]], KeyGroups(k, [m], limit);
  }

  /** A reading that differs from the point's own is not what it reads as alone. */
  lemma NotAlone(p: Point, e: Entry, limit: int, mem: Memory, link: Link, r: Reading)
    requires mem.Valid() && Transparent(link) && limit < 65536
    requires Entries([p]) == [e] && e.point == p && e.parsed.Some? && Fits(Member(p, e.parsed.value))
    requires AloneReading(mem, link, Member(p, e.parsed.value)) != r
    ensures !ReadsAloneAs(p, limit, mem, link, r)
  {
    var order, lists, groups := SinglePlan(e, limit);
    AloneIsABatchOfOne(e, limit, order, lists, groups, mem, link);
    assert IsPlan(Entries([p]), limit, order, lists, groups);
  }

  lemma EntryFacts(p: Point)
    requires EntryOf(p).parsed.Some?
    ensures EntryOf(p).point == p && WellFormed(EntryOf(p).parsed.value) && IsWordArea(EntryOf(p).parsed.value.areaCode)
  {
    ParseIsWellFormed(p.address);
  }

  lemma TwoEntries(q: Point, d: Entry, p: Point, e: Entry)
    requires EntryOf(q) == d && EntryOf(p) == e
    ensures Entries([q, p]) == [d, e] && Entries([p]) == [e]
  {
  }

  lemma PairDiffers(p: Point, e: Entry, q: Point, d: Entry, limit: int, mem: Memory, link: Link)
    returns (order: seq<Key>, lists: map<Key, seq<Member>>, groups: seq<PointGroup>)
    requires AllText(mem) && Transparent(link) && limit < 65536 && q.id != p.id
    requires Entries([q, p]) == [d, e] && Entries([p]) == [e]
    requires e.point == p && d.point == q && e.parsed.Some? && d.parsed.Some?
    requires Fits(Member(p, e.parsed.value)) && IsWordArea(e.parsed.value.areaCode)
    requires Exposed(Member(p, e.parsed.value), limit) && Beside(Member(q, d.parsed.value), Member(p, e.parsed.value))
    ensures IsPlan(Entries([q, p]), limit, order, lists, groups) && AllFit(AllMembers(Entries([q, p])))
    ensures p.id in BatchResults([q, p], groups, MemorySource(mem, link))
    ensures var r := BatchResults([q, p], groups, MemorySource(mem, link))[p.id];
      r.Good? && !ReadsAloneAs(p, limit, mem, link, r)
  {
    var group;
    order, lists, group := PairPlan(d, e, limit);
    groups := [group];
    var r := PairReading(d, e, limit, order, lists, group, mem, link);
    AloneText(mem, Member(p, e.parsed.value), limit, link);
    NotAlone(p, e, limit, mem, link, r);
  }

  /**
   * Every unsafe point has a batch of two and a memory on which it reads as a longer text than
   * it does alone.
   */
  lemma UnsafePointCanDiffer(p: Point, limit: int, link: Link)
    returns (q: Point, order: seq<Key>, lists: map<Key, seq<Member>>, groups: seq<PointGroup>, mem: Memory)
    requires Transparent(link) && limit < 65536 && EntryOf(p).parsed.Some?
    requires Fits(Member(p, EntryOf(p).parsed.value)) && !BatchSafe(Member(p, EntryOf(p).parsed.value), limit)
    ensures mem.Valid() && q.id != p.id && IsPlan(Entries([q, p]), limit, order, lists, groups)
    ensures AllFit(AllMembers(Entries([q, p])))
    ensures p.id in BatchResults([q, p], groups, MemorySource(mem, link))
    ensures var r := BatchResults([q, p], groups, MemorySource(mem, link))[p.id];
      r.Good? && !ReadsAloneAs(p, limit, mem, link, r)
  {
    mem := TextMemory();
    var e := EntryOf(p);
    EntryFacts(p);
    ExposedIsUnsafe(Member(p, e.parsed.value), limit);
    var d;
    q, d := NeighbourOf(p, e.parsed.value);
    TwoEntries(q, d, p, e);
    order, lists, groups := PairDiffers(p, e, q, d, limit, mem, link);
  }
}
