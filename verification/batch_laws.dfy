/** Batching refines single reads: what a point reads as in a batch is what it reads as alone. */
module BatchLaws {
  import opened Bytes
  import opened Areas
  import opened Types
  import opened Decoder
  import opened Address
  import opened Protocol
  import opened Planner
  import opened PlanLaws
  import opened Plc
  import opened Exchange
  import opened Scheduler

  // ----- reading a group from a memory -----

  function ReadGroup(m: Memory, link: Link, g: PointGroup): Option<seq<byte>> {
    if !g.isBit then
      match ReadWords(m, link, g.areaCode, g.startAddr, g.count)
      case Ok(data) => Some(data)
      case Err(_) => None
    else if g.points == [] then Some([])
    else
      var a := g.points[0].member.parsed;
      match ReadBits(m, link, g.areaCode, a.address % 65536, a.bit % 256, 1)
      case Ok(bits) => Some(BitBytesOf(bits))
      case Err(_) => None
  }

  /** A PLC whose memory stays as it is during the batch. */
  function MemorySource(m: Memory, link: Link): Source {
    (n, g) => ReadGroup(m, link, g)
  }

  function SingleGroup(m: Member): PointGroup {
    if IsBitPoint(m) then BitGroup(BitAccessCode(m.parsed.areaCode), m)
    else PointGroup(m.parsed.areaCode, m.parsed.address % 65536, Words(m) % 65536, [GroupedPoint(m, 0)], false)
  }

  /** The reading of a point by itself. */
  function AloneReading(mem: Memory, link: Link, m: Member): Reading {
    ReadingOf(SingleGroup(m), GroupedPoint(m, 0), ReadGroup(mem, link, SingleGroup(m)))
  }

  /** Words start..start+count of an area, if it has them. */
  function WordSlice(mem: Memory, code: byte, start: nat, count: nat): Option<seq<byte>>
    requires mem.Valid()
  {
    match WordAreaOf(code)
    case None => None
    case Some(id) =>
      if start + count <= AreaWords(id) then Some(mem.Get(id)[2 * start..2 * (start + count)]) else None
  }

  lemma ReadGroupWords(mem: Memory, link: Link, g: PointGroup)
    requires mem.Valid() && Transparent(link) && !g.isBit && IsWordArea(g.areaCode)
    ensures ReadGroup(mem, link, g) == WordSlice(mem, g.areaCode, g.startAddr, g.count)
  {
    var a := MemoryAddress(g.areaCode, g.startAddr, 0);
    ReadMemWords(mem, a, g.count);
    assert Succeeded(link.exchange(mem, ReadCommand(a, g.count)).1)
        == Answer(ReadMem(mem, a, g.count).0, ReadMem(mem, a, g.count).1);
  }

  lemma ReadMemWords(mem: Memory, a: MemoryAddress, count: u16)
    requires mem.Valid() && IsWordArea(a.area)
    ensures var r := ReadMem(mem, a, count);
      WordSlice(mem, a.area, a.address, count) == if r.1 == END_NORMAL then Some(r.0) else None
  {
  }

  /** The PLC behind a transparent link gives every request the bytes it asks for. */
  lemma MemorySourceIsHonest(mem: Memory, link: Link)
    requires mem.Valid() && Transparent(link)
    ensures Honest(MemorySource(mem, link))
  {
    var read := MemorySource(mem, link);
    forall n, g | read(n, g).Some? && Addressed(g)
      ensures |read(n, g).value| == if g.isBit then 1 else 2 * g.count
    {
      if !g.isBit {
        ReadGroupWords(mem, link, g);
      }
    }
  }

  // ----- cutting a point out of a larger buffer -----

  /**
   * Whether a point can safely share a request. The planner sizes a point by its data type while
   * the decoder sizes a string-form address by its length; they disagree when a string-form
   * address comes with a shorter numeric type. Then more data must never lie behind the point:
   * it is too large to be joined, or it ends its area.
   */
  predicate BatchSafe(m: Member, limit: int) {
    || IsBitPoint(m) || !m.parsed.isString || m.parsed.stringLen <= 2 * Words(m)
    || Words(m) > limit
    || (match WordAreaOf(m.parsed.areaCode)
        case None => true
        case Some(id) => m.parsed.address + Words(m) >= AreaWords(id))
  }

  lemma PlannedWords(m: Member)
    ensures DataTypeSize(m.point.dataType) <= 2 * Words(m)
    ensures !m.parsed.isString && DataTypeSize(m.point.dataType) == 0 ==> Words(m) == 1
  {
  }

  /** Decoding from the middle of a buffer is decoding from the point's own words. */
  lemma DecodeShift(data: seq<byte>, own: seq<byte>, p: GroupedPoint, g: PointGroup, h: PointGroup)
    requires !g.isBit && !h.isBit && p.offset >= 0
    requires var w := 2 * Words(p.member);
      && p.offset + w <= |data| && own == data[p.offset..p.offset + w]
      && (p.member.parsed.isString ==> p.member.parsed.stringLen <= w || p.offset + w == |data|)
    ensures DecodePoint(data, p, g) == DecodePoint(own, GroupedPoint(p.member, 0), h)
  {
    var a := p.member.parsed;
    var w := 2 * Words(p.member);
    PlannedWords(p.member);
    if a.isString {
      var n := if a.stringLen < w then a.stringLen else w;
      assert own[0..n] == data[p.offset..p.offset + n];
    } else {
      var size := DataTypeSize(p.member.point.dataType);
      var n := if size == 0 then 2 else size;
      assert own[0..0 + n] == data[p.offset..p.offset + n];
    }
  }

  lemma SliceOfSlice(s: seq<byte>, a: nat, b: nat, o: nat, n: nat)
    requires a + o + n <= b <= |s|
    ensures s[a..b][o..o + n] == s[a + o..a + o + n]
  {
    var l, r := s[a..b][o..o + n], s[a + o..a + o + n];
    assert |l| == |r| && forall i :: 0 <= i < n ==> l[i] == r[i];
  }

  function GroupSlice(mem: Memory, g: PointGroup): Option<seq<byte>>
    requires mem.Valid()
  {
    WordSlice(mem, g.areaCode, g.startAddr, g.count)
  }

  /** The point's own words lie in the answer at its offset. */
  lemma OwnWords(mem: Memory, g: PointGroup, p: GroupedPoint)
    requires mem.Valid() && PlacedIn(g, p) && Fits(p.member) && GroupSlice(mem, g).Some?
    ensures var data := GroupSlice(mem, g).value;
      var w := 2 * Words(p.member);
      && |data| == 2 * g.count && p.offset + w <= |data|
      && GroupSlice(mem, SingleGroup(p.member)) == Some(data[p.offset..p.offset + w])
  {
    var k := p.member.parsed.address - g.startAddr;
    var h := SingleGroup(p.member);
    assert h.startAddr == g.startAddr + k && h.count == Words(p.member) && h.areaCode == g.areaCode;
    SliceWithin(mem, g.areaCode, g.startAddr, g.count, k, Words(p.member));
  }

  lemma SliceWithin(mem: Memory, code: byte, start: nat, count: nat, k: nat, n: nat)
    requires mem.Valid() && WordSlice(mem, code, start, count).Some? && k + n <= count
    ensures var data := WordSlice(mem, code, start, count).value;
      |data| == 2 * count && WordSlice(mem, code, start + k, n) == Some(data[2 * k..2 * k + 2 * n])
  {
    var bytes := mem.Get(WordAreaOf(code).value);
    SliceOfSlice(bytes, 2 * start, 2 * (start + count), 2 * k, 2 * n);
  }

  /** Where planner and decoder disagree about a safe point's size, nothing lies behind it. */
  lemma SafeTail(mem: Memory, g: PointGroup, i: nat, limit: int)
    requires mem.Valid() && GroupSound(g, limit) && !g.isBit && i < |g.points|
    requires BatchSafe(g.points[i].member, limit) && GroupSlice(mem, g).Some?
    ensures var p := g.points[i];
      p.member.parsed.isString ==>
        p.member.parsed.stringLen <= 2 * Words(p.member) || p.offset + 2 * Words(p.member) == 2 * g.count
  {
    var p := g.points[i];
    assert PlacedIn(g, p) && PlacedIn(g, g.points[0]);
  }

  /** What a safe point reads as in an answered group is what it reads as alone. */
  lemma WordPointRefines(mem: Memory, link: Link, g: PointGroup, i: nat, limit: int)
    requires mem.Valid() && Transparent(link) && GroupSound(g, limit) && !g.isBit && i < |g.points|
    requires IsWordArea(g.areaCode) && Fits(g.points[i].member) && BatchSafe(g.points[i].member, limit)
    requires ReadGroup(mem, link, g).Some?
    ensures ReadingOf(g, g.points[i], ReadGroup(mem, link, g)) == AloneReading(mem, link, g.points[i].member)
  {
    var p := g.points[i];
    assert PlacedIn(g, p);
    ReadGroupWords(mem, link, g);
    ReadGroupWords(mem, link, SingleGroup(p.member));
    OwnWords(mem, g, p);
    SafeTail(mem, g, i, limit);
    var data := GroupSlice(mem, g).value;
    var own := data[p.offset..p.offset + 2 * Words(p.member)];
    DecodeShift(data, own, p, g, SingleGroup(p.member));
  }

  // ----- the whole batch -----

  ghost predicate DistinctIds(entries: seq<Entry>) {
    forall i, j :: 0 <= i < j < |entries| ==> entries[i].point.id != entries[j].point.id
  }

  /** The words a point needs exist. Bit points do not share requests, so they do not count. */
  predicate InRange(m: Member) {
    IsBitPoint(m) ||
    (match WordAreaOf(m.parsed.areaCode)
     case None => false
     case Some(id) => m.parsed.address + Words(m) <= AreaWords(id))
  }

  ghost predicate AllInRange(entries: seq<Entry>) {
    forall m :: m in AllMembers(entries) ==> InRange(m)
  }

  /** Addresses as the parser leaves them. */
  ghost predicate WordCodes(entries: seq<Entry>) {
    forall i :: 0 <= i < |entries| && entries[i].parsed.Some? ==> IsWordArea(entries[i].parsed.value.areaCode)
  }

  /** A point's result comes from a request that serves this very point. */
  lemma ResultOfPoint(entries: seq<Entry>, limit: int, order: seq<Key>, lists: map<Key, seq<Member>>,
                      groups: seq<PointGroup>, read: Source, j: nat) returns (g: nat, i: nat)
    requires IsPlan(entries, limit, order, lists, groups) && DistinctIds(entries)
    requires j < |entries| && entries[j].parsed.Some?
    ensures g < |groups| && i < |groups[g].points|
    ensures groups[g].points[i].member == Member(entries[j].point, entries[j].parsed.value)
    ensures var r := Collect(StartResults(entries), groups, read);
      && entries[j].point.id in r
      && r[entries[j].point.id] == ReadingOf(groups[g], groups[g].points[i], read(g, groups[g]))
  {
    var id := entries[j].point.id;
    CollectOrigin(StartResults(entries), groups, read, id);
    PlanHoldsPoint(entries, limit, order, lists, groups, j);
    g, i :| FromGroup(groups, read, g, i, id, Collect(StartResults(entries), groups, read)[id]);
    var k := HeldIsInput(entries, limit, order, lists, groups, g, i);
    assert k == j;
  }

  lemma BitPointRefines(mem: Memory, link: Link, g: PointGroup, limit: int)
    requires GroupSound(g, limit) && g.isBit
    ensures ReadingOf(g, g.points[0], ReadGroup(mem, link, g)) == AloneReading(mem, link, g.points[0].member)
  {
  }

  /** A request for points that are all in range is answered. */
  lemma InRangeIsAnswered(mem: Memory, link: Link, g: PointGroup, limit: int)
    requires mem.Valid() && Transparent(link) && GroupSound(g, limit) && !g.isBit && IsWordArea(g.areaCode)
    requires forall i :: 0 <= i < |g.points| ==> InRange(g.points[i].member)
    ensures ReadGroup(mem, link, g).Some?
  {
    ReadGroupWords(mem, link, g);
    var i :| 0 <= i < |g.points| && g.points[i].offset + 2 * Words(g.points[i].member) == 2 * g.count;
    assert PlacedIn(g, g.points[i]);
  }

  lemma EntryRefines(entries: seq<Entry>, limit: int, order: seq<Key>, lists: map<Key, seq<Member>>,
                     groups: seq<PointGroup>, mem: Memory, link: Link, j: nat)
    requires IsPlan(entries, limit, order, lists, groups) && DistinctIds(entries) && WordCodes(entries)
    requires AllFit(AllMembers(entries)) && limit < 65536 && mem.Valid() && Transparent(link)
    requires j < |entries| && entries[j].parsed.Some?
    ensures var m := Member(entries[j].point, entries[j].parsed.value);
      var results := Collect(StartResults(entries), groups, MemorySource(mem, link));
      && m.point.id in results
      && var r := results[m.point.id];
      BatchSafe(m, limit) ==>
        (r.Good? || AllInRange(entries) ==> r == AloneReading(mem, link, m))
  {
    var m := Member(entries[j].point, entries[j].parsed.value);
    var g, i := ResultOfPoint(entries, limit, order, lists, groups, MemorySource(mem, link), j);
    PlanIsSound(entries, limit, order, lists, groups);
    var group := groups[g];
    assert group in groups;
    if group.isBit {
      BitPointRefines(mem, link, group, limit);
    } else {
      assert PlacedIn(group, group.points[i]);
      InAllMembers(entries, m);
      assert entries[j] == Entry(m.point, Some(m.parsed));
      if AllInRange(entries) {
        InRangeIsAnswered(mem, link, group, limit);
      }
      if ReadGroup(mem, link, group).Some? && BatchSafe(m, limit) {
        WordPointRefines(mem, link, group, i, limit);
      }
    }
  }

  // ----- a batch of one -----

  lemma {:induction false} GroupsAreSmall(groups: seq<PointGroup>, g: nat)
    requires g < |groups|
    ensures |groups[g].points| <= |GroupMembers(groups)|
  {
    if g > 0 {
      GroupsAreSmall(groups[1..], g - 1);
    }
  }

  /** In a plan for one point, its word request is the point's own. */
  lemma OnlyPoint(e: Entry, limit: int, order: seq<Key>, lists: map<Key, seq<Member>>, groups: seq<PointGroup>, g: nat)
    requires IsPlan([e], limit, order, lists, groups) && e.parsed.Some?
    requires AllFit(AllMembers([e])) && limit < 65536
    requires g < |groups| && !groups[g].isBit
    ensures var m := Member(e.point, e.parsed.value);
      groups[g].points == [GroupedPoint(m, 0)] && groups[g] == SingleGroup(m)
  {
    var m := Member(e.point, e.parsed.value);
    var group := groups[g];
    PlanIsSound([e], limit, order, lists, groups);
    assert group in groups;
    OneMember(e, limit, order, lists, groups);
    GroupsAreSmall(groups, g);
    var j := HeldIsInput([e], limit, order, lists, groups, g, 0);
    assert group.points == [GroupedPoint(m, 0)];
    assert m in AllMembers([e]);
    SoundSingleton(group, m, limit);
  }

  lemma SoundSingleton(g: PointGroup, m: Member, limit: int)
    requires GroupSound(g, limit) && !g.isBit && g.points == [GroupedPoint(m, 0)] && Fits(m)
    ensures g == SingleGroup(m)
  {
    assert PlacedIn(g, g.points[0]);
  }

  lemma OneMember(e: Entry, limit: int, order: seq<Key>, lists: map<Key, seq<Member>>, groups: seq<PointGroup>)
    requires IsPlan([e], limit, order, lists, groups) && e.parsed.Some?
    ensures |GroupMembers(groups)| == 1
  {
    PointsConserved([e], limit, order, lists, groups);
    assert [e][..0] == [];
    assert AllMembers([e]) == [Member(e.point, e.parsed.value)];
    assert |multiset(GroupMembers(groups))| == |GroupMembers(groups)|;
    assert |multiset(AllMembers([e]))| == 1;
  }

  /** Reading a batch of one point gives that point's own reading, under every plan. */
  lemma AloneIsABatchOfOne(e: Entry, limit: int, order: seq<Key>, lists: map<Key, seq<Member>>,
                           groups: seq<PointGroup>, mem: Memory, link: Link)
    requires IsPlan([e], limit, order, lists, groups) && e.parsed.Some?
    requires AllFit(AllMembers([e])) && limit < 65536 && mem.Valid() && Transparent(link)
    ensures var results := Collect(StartResults([e]), groups, MemorySource(mem, link));
      && e.point.id in results
      && results[e.point.id] == AloneReading(mem, link, Member(e.point, e.parsed.value))
  {
    var g, i := ResultOfPoint([e], limit, order, lists, groups, MemorySource(mem, link), 0);
    PlanIsSound([e], limit, order, lists, groups);
    assert groups[g] in groups;
    if groups[g].isBit {
      BitPointRefines(mem, link, groups[g], limit);
    } else {
      OnlyPoint(e, limit, order, lists, groups, g);
    }
  }

  // ----- the theorem, on points as the caller gives them -----

  lemma {:induction false} EntriesHaveWordCodes(points: seq<Point>)
    ensures WordCodes(Entries(points))
  {
    forall i | 0 <= i < |points| && Entries(points)[i].parsed.Some?
      ensures IsWordArea(Entries(points)[i].parsed.value.areaCode)
    {
      ParseIsWellFormed(points[i].address);
    }
  }

  ghost predicate DistinctPointIds(points: seq<Point>) {
    forall i, j :: 0 <= i < j < |points| ==> points[i].id != points[j].id
  }

  /** What the driver returns for point `p` read in a batch of its own. */
  ghost predicate ReadsAloneAs(p: Point, limit: int, mem: Memory, link: Link, r: Reading) {
    forall order, lists, groups :: IsPlan(Entries([p]), limit, order, lists, groups) ==>
      var results := BatchResults([p], groups, MemorySource(mem, link));
      p.id in results && results[p.id] == r
  }

  lemma EntriesFacts(points: seq<Point>)
    requires DistinctPointIds(points)
    ensures DistinctIds(Entries(points)) && WordCodes(Entries(points))
  {
    var entries := Entries(points);
    forall a, b | 0 <= a < b < |entries| ensures entries[a].point.id != entries[b].point.id {
      assert entries[a] == EntryOf(points[a]) && entries[b] == EntryOf(points[b]);
    }
    EntriesHaveWordCodes(points);
  }

  lemma EntryAt(points: seq<Point>, j: nat)
    requires j < |points|
    ensures Entries(points)[j] == EntryOf(points[j]) && EntryOf(points[j]).point == points[j]
  {
  }

  lemma EntryOfText(q: Point, b: ParsedAddress)
    requires ParseAddress(q.address) == Ok(b)
    ensures EntryOf(q) == Entry(q, Some(b))
  {
  }

  lemma OneEntryFits(entries: seq<Entry>, j: nat, e: Entry)
    requires j < |entries| && entries[j] == e && e.parsed.Some? && AllFit(AllMembers(entries))
    ensures AllFit(AllMembers([e]))
  {
    var m := Member(e.point, e.parsed.value);
    assert [e][..0] == [];
    InAllMembers(entries, m);
    assert e == Entry(m.point, Some(m.parsed));
  }

  lemma ReadsAlone(p: Point, e: Entry, limit: int, mem: Memory, link: Link)
    requires Entries([p]) == [e] && e.point == p && e.parsed.Some?
    requires AllFit(AllMembers([e])) && limit < 65536 && mem.Valid() && Transparent(link)
    ensures ReadsAloneAs(p, limit, mem, link, AloneReading(mem, link, Member(p, e.parsed.value)))
  {
    forall order, lists, groups | IsPlan(Entries([p]), limit, order, lists, groups)
      ensures var results := BatchResults([p], groups, MemorySource(mem, link));
        p.id in results && results[p.id] == AloneReading(mem, link, Member(p, e.parsed.value))
    {
      AloneIsABatchOfOne(e, limit, order, lists, groups, mem, link);
    }
  }

  /**
   * Batching refines single reads: over a fixed memory and under every plan, each Good value of
   * a safe point is what a read of that point alone returns, and when all points of the batch
   * are in range every result is.
   */
  lemma BatchRefinesSingle(points: seq<Point>, limit: int, order: seq<Key>, lists: map<Key, seq<Member>>,
                           groups: seq<PointGroup>, mem: Memory, link: Link, j: nat)
    requires IsPlan(Entries(points), limit, order, lists, groups) && DistinctPointIds(points)
    requires AllFit(AllMembers(Entries(points))) && limit < 65536 && mem.Valid() && Transparent(link)
    requires j < |points| && EntryOf(points[j]).parsed.Some?
    requires BatchSafe(Member(points[j], EntryOf(points[j]).parsed.value), limit)
    ensures points[j].id in BatchResults(points, groups, MemorySource(mem, link))
    ensures var r := BatchResults(points, groups, MemorySource(mem, link))[points[j].id];
      r.Good? || AllInRange(Entries(points)) ==> ReadsAloneAs(points[j], limit, mem, link, r)
  {
    var p, e := points[j], EntryOf(points[j]);
    EntriesFacts(points);
    EntryAt(points, j);
    EntryRefines(Entries(points), limit, order, lists, groups, mem, link, j);
    OneEntryFits(Entries(points), j, e);
    assert Entries([p]) == [e];
    ReadsAlone(p, e, limit, mem, link);
  }
}
