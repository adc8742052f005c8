/** Batch reads and point writes: parse, plan, exchange, decode. */
module Scheduler {
  import opened Bytes
  import opened Areas
  import opened Types
  import opened Decoder
  import opened Address
  import opened Planner
  import opened PlanLaws
  import opened Plc
  import opened Exchange

  datatype Reading = Good(value: Value) | Bad

  function EntryOf(p: Point): Entry {
    match ParseAddress(p.address)
    case Ok(a) => Entry(p, Some(a))
    case Err(_) => Entry(p, None)
  }

  function Entries(points: seq<Point>): (r: seq<Entry>)
    ensures |r| == |points|
  {
    seq(|points|, i requires 0 <= i < |points| => EntryOf(points[i]))
  }

  // ----- one request -----

  /** What the n-th request of a batch answers: data, or nothing when it fails. */
  type Source = (nat, PointGroup) -> Option<seq<byte>>

  /** A request the planner can make: bits, or words of a word area. */
  predicate Addressed(g: PointGroup) {
    g.points != [] && (g.isBit || IsWordArea(g.areaCode))
  }

  /** A successful answer to such a request has the length that was asked for. */
  ghost predicate Honest(read: Source) {
    forall n, g :: read(n, g).Some? && Addressed(g) ==>
      |read(n, g).value| == if g.isBit then 1 else 2 * g.count
  }

  /** Cuts one point out of a group's data. */
  function DecodePoint(data: seq<byte>, p: GroupedPoint, g: PointGroup): Result<Value, DecodeError> {
    if g.isBit then
      if |data| < 1 then Err(DataTooShort) else Ok(VBool(data[0] % 2 == 1))
    else
      var a := p.member.parsed;
      var size := DataTypeSize(p.member.point.dataType);
      if a.isString then
        var wanted := p.offset + a.stringLen;
        var end := if wanted > |data| then |data| else wanted;
        if 0 <= p.offset <= end then DecodeValue(data[p.offset..end], STRING, a) else Err(SlicePanic)
      else
        var n := if size == 0 then 2 else size;
        if p.offset + n > |data| then Err(DataTooShort)
        else if p.offset < 0 then Err(SlicePanic)
        else DecodeValue(data[p.offset..p.offset + n], p.member.point.dataType, a)
  }

  function ReadingOf(g: PointGroup, p: GroupedPoint, answer: Option<seq<byte>>): Reading {
    match answer
    case None => Bad
    case Some(data) =>
      match DecodePoint(data, p, g)
      case Ok(v) => Good(v)
      case Err(_) => Bad
  }

  // ----- the result map -----

  function StartResults(entries: seq<Entry>): map<string, Reading> {
    if entries == [] then map[]
    else
      var rest := StartResults(entries[..|entries| - 1]);
      var e := entries[|entries| - 1];
      if e.parsed.None? then rest[e.point.id := Bad] else rest
  }

  lemma StartSnoc(entries: seq<Entry>, e: Entry)
    ensures StartResults(entries + [e])
         == if e.parsed.None? then StartResults(entries)[e.point.id := Bad] else StartResults(entries)
  {
    assert (entries + [e])[..|entries|] == entries;
  }

  lemma StartNext(entries: seq<Entry>, i: nat)
    requires i < |entries|
    ensures entries[..i + 1] == entries[..i] + [entries[i]]
    ensures StartResults(entries[..i + 1])
         == if entries[i].parsed.None? then StartResults(entries[..i])[entries[i].point.id := Bad] else StartResults(entries[..i])
  {
    StartSnoc(entries[..i], entries[i]);
    assert entries[..i + 1] == entries[..i] + [entries[i]];
  }

  function AfterPoints(results: map<string, Reading>, g: PointGroup, k: nat, answer: Option<seq<byte>>): map<string, Reading>
    requires k <= |g.points|
  {
    if k == 0 then results
    else
      var p := g.points[k - 1];
      AfterPoints(results, g, k - 1, answer)[p.member.point.id := ReadingOf(g, p, answer)]
  }

  function Collect(start: map<string, Reading>, groups: seq<PointGroup>, read: Source): map<string, Reading> {
    if groups == [] then start
    else
      var n := |groups| - 1;
      AfterPoints(Collect(start, groups[..n], read), groups[n], |groups[n].points|, read(n, groups[n]))
  }

  /** What a batch read returns for a given plan. */
  function BatchResults(points: seq<Point>, groups: seq<PointGroup>, read: Source): map<string, Reading> {
    Collect(StartResults(Entries(points)), groups, read)
  }

  // ----- which group a result came from -----

  ghost predicate FromGroup(groups: seq<PointGroup>, read: Source, g: nat, i: nat, id: string, r: Reading) {
    && g < |groups| && i < |groups[g].points|
    && groups[g].points[i].member.point.id == id
    && r == ReadingOf(groups[g], groups[g].points[i], read(g, groups[g]))
  }

  lemma {:induction false} AfterPointsOrigin(results: map<string, Reading>, g: PointGroup, k: nat, answer: Option<seq<byte>>, id: string)
    requires k <= |g.points|
    ensures var r := AfterPoints(results, g, k, answer);
      if exists i :: 0 <= i < k && g.points[i].member.point.id == id
      then id in r && exists i :: 0 <= i < k && g.points[i].member.point.id == id && r[id] == ReadingOf(g, g.points[i], answer)
      else (id in r <==> id in results) && (id in r ==> r[id] == results[id])
  {
    if k > 0 {
      AfterPointsOrigin(results, g, k - 1, answer, id);
      if g.points[k - 1].member.point.id == id {
        assert AfterPoints(results, g, k, answer)[id] == ReadingOf(g, g.points[k - 1], answer);
      }
    }
  }

  ghost predicate Holds(g: PointGroup, id: string) {
    exists i :: 0 <= i < |g.points| && g.points[i].member.point.id == id
  }

  /** A result comes from a group that holds its id, or is untouched when none does. */
  lemma {:induction false} CollectOrigin(start: map<string, Reading>, groups: seq<PointGroup>, read: Source, id: string)
    ensures var r := Collect(start, groups, read);
      if exists g :: 0 <= g < |groups| && Holds(groups[g], id)
      then id in r && exists g, i :: FromGroup(groups, read, g, i, id, r[id])
      else (id in r <==> id in start) && (id in r ==> r[id] == start[id])
  {
    if groups != [] {
      var n := |groups| - 1;
      var before := Collect(start, groups[..n], read);
      var r := Collect(start, groups, read);
      CollectOrigin(start, groups[..n], read, id);
      AfterPointsOrigin(before, groups[n], |groups[n].points|, read(n, groups[n]), id);
      if Holds(groups[n], id) {
        var i :| 0 <= i < |groups[n].points| && groups[n].points[i].member.point.id == id
          && r[id] == ReadingOf(groups[n], groups[n].points[i], read(n, groups[n]));
        assert FromGroup(groups, read, n, i, id, r[id]);
      } else if exists g :: 0 <= g < |groups| && Holds(groups[g], id) {
        var g0 :| 0 <= g0 < |groups| && Holds(groups[g0], id);
        assert Holds(groups[..n][g0], id);
        var g, i :| FromGroup(groups[..n], read, g, i, id, before[id]);
        assert FromGroup(groups, read, g, i, id, r[id]);
      } else {
        forall g | 0 <= g < n ensures !Holds(groups[..n][g], id) {
          assert !Holds(groups[g], id);
        }
      }
    }
  }

  lemma {:induction false} StartResultsHold(entries: seq<Entry>, id: string)
    ensures id in StartResults(entries)
      <==> exists i :: 0 <= i < |entries| && entries[i].parsed.None? && entries[i].point.id == id
    ensures id in StartResults(entries) ==> StartResults(entries)[id] == Bad
  {
    if entries != [] {
      var n := |entries| - 1;
      StartResultsHold(entries[..n], id);
      if id in StartResults(entries[..n]) {
        var i :| 0 <= i < n && entries[..n][i].parsed.None? && entries[..n][i].point.id == id;
        assert entries[i].parsed.None?;
      }
      forall i | 0 <= i < |entries| && entries[i].parsed.None? && entries[i].point.id == id
        ensures id in StartResults(entries)
      {
        if i < n {
          assert entries[..n][i].parsed.None?;
        }
      }
    }
  }

  lemma {:induction false} InAllMembers(entries: seq<Entry>, m: Member)
    ensures m in AllMembers(entries)
      <==> exists i :: 0 <= i < |entries| && entries[i] == Entry(m.point, Some(m.parsed))
  {
    if entries != [] {
      var n := |entries| - 1;
      InAllMembers(entries[..n], m);
      if m in AllMembers(entries[..n]) {
        var i :| 0 <= i < n && entries[..n][i] == Entry(m.point, Some(m.parsed));
        assert entries[i] == Entry(m.point, Some(m.parsed));
      }
      forall i | 0 <= i < |entries| && entries[i] == Entry(m.point, Some(m.parsed))
        ensures m in AllMembers(entries)
      {
        if i < n {
          assert entries[..n][i] == entries[i];
        }
      }
    }
  }

  function Ids(points: seq<Point>): set<string> { set p | p in points :: p.id }

  /** Some group holds the point, when its address parsed. */
  lemma PlanHoldsPoint(entries: seq<Entry>, limit: int, order: seq<Key>, lists: map<Key, seq<Member>>, groups: seq<PointGroup>, j: nat)
    requires IsPlan(entries, limit, order, lists, groups)
    requires j < |entries| && entries[j].parsed.Some?
    ensures exists g :: 0 <= g < |groups| && Holds(groups[g], entries[j].point.id)
  {
    var m := Member(entries[j].point, entries[j].parsed.value);
    InAllMembers(entries, m);
    assert entries[j] == Entry(m.point, Some(m.parsed));
    PlanServes(entries, limit, order, lists, groups, m);
    var g, i :| 0 <= g < |groups| && 0 <= i < |groups[g].points| && groups[g].points[i].member == m;
    assert Holds(groups[g], entries[j].point.id);
  }

  /** Every point a group holds is an entry of the input. */
  lemma HeldIsInput(entries: seq<Entry>, limit: int, order: seq<Key>, lists: map<Key, seq<Member>>, groups: seq<PointGroup>, g: nat, i: nat)
    returns (j: nat)
    requires IsPlan(entries, limit, order, lists, groups)
    requires g < |groups| && i < |groups[g].points|
    ensures var m := groups[g].points[i].member;
      j < |entries| && entries[j] == Entry(m.point, Some(m.parsed)) && m in AllMembers(entries)
  {
    var m := groups[g].points[i].member;
    InGroupMembers(groups, m);
    PointsConserved(entries, limit, order, lists, groups);
    assert m in multiset(GroupMembers(groups));
    InAllMembers(entries, m);
    j :| 0 <= j < |entries| && entries[j] == Entry(m.point, Some(m.parsed));
  }

  lemma ResultHasInputId(entries: seq<Entry>, limit: int, order: seq<Key>, lists: map<Key, seq<Member>>, groups: seq<PointGroup>, read: Source, id: string)
    requires IsPlan(entries, limit, order, lists, groups)
    requires id in Collect(StartResults(entries), groups, read)
    ensures exists j :: 0 <= j < |entries| && entries[j].point.id == id
  {
    CollectOrigin(StartResults(entries), groups, read, id);
    StartResultsHold(entries, id);
    if g :| 0 <= g < |groups| && Holds(groups[g], id) {
      var i :| 0 <= i < |groups[g].points| && groups[g].points[i].member.point.id == id;
      var j := HeldIsInput(entries, limit, order, lists, groups, g, i);
      assert entries[j].point.id == id;
    }
  }

  lemma InputIdHasResult(entries: seq<Entry>, limit: int, order: seq<Key>, lists: map<Key, seq<Member>>, groups: seq<PointGroup>, read: Source, j: nat)
    requires IsPlan(entries, limit, order, lists, groups) && j < |entries|
    ensures entries[j].point.id in Collect(StartResults(entries), groups, read)
  {
    var id := entries[j].point.id;
    CollectOrigin(StartResults(entries), groups, read, id);
    StartResultsHold(entries, id);
    if entries[j].parsed.Some? {
      PlanHoldsPoint(entries, limit, order, lists, groups, j);
    }
  }

  /** The result map has exactly the input ids, whatever the group order and the read failures. */
  lemma ResultKeys(points: seq<Point>, limit: int, order: seq<Key>, lists: map<Key, seq<Member>>, groups: seq<PointGroup>, read: Source)
    requires IsPlan(Entries(points), limit, order, lists, groups)
    ensures BatchResults(points, groups, read).Keys == Ids(points)
  {
    var entries := Entries(points);
    var r := BatchResults(points, groups, read);
    forall id | id in r ensures id in Ids(points) {
      ResultHasInputId(entries, limit, order, lists, groups, read, id);
      var j :| 0 <= j < |entries| && entries[j].point.id == id;
      assert points[j] in points && EntryOf(points[j]).point == points[j];
    }
    forall p | p in points ensures p.id in r {
      var j :| 0 <= j < |points| && points[j] == p;
      assert entries[j] == EntryOf(p);
      InputIdHasResult(entries, limit, order, lists, groups, read, j);
    }
  }

  lemma ParsedHasWordArea(p: Point)
    requires EntryOf(p).parsed.Some?
    ensures IsWordArea(EntryOf(p).parsed.value.areaCode)
  {
    ParseIsWellFormed(p.address);
  }

  lemma GroupIsAddressed(points: seq<Point>, limit: int, order: seq<Key>, lists: map<Key, seq<Member>>, groups: seq<PointGroup>, g: nat)
    requires IsPlan(Entries(points), limit, order, lists, groups) && g < |groups| && GroupSound(groups[g], limit)
    ensures Addressed(groups[g])
  {
    var group := groups[g];
    assert group.points != [];
    if !group.isBit {
      var j := HeldIsInput(Entries(points), limit, order, lists, groups, g, 0);
      assert PlacedIn(group, group.points[0]);
      ParsedHasWordArea(points[j]);
    }
  }

  /** Every request of a plan for points as the caller gives them is a proper one. */
  lemma PlanIsAddressed(points: seq<Point>, limit: int, order: seq<Key>, lists: map<Key, seq<Member>>, groups: seq<PointGroup>)
    requires IsPlan(Entries(points), limit, order, lists, groups)
    requires forall g :: g in groups ==> GroupSound(g, limit)
    ensures forall g :: g in groups ==> Addressed(g)
  {
    forall g | g in groups ensures Addressed(g) {
      var i :| 0 <= i < |groups| && groups[i] == g;
      GroupIsAddressed(points, limit, order, lists, groups, i);
    }
  }

  // ----- writing a point -----

  datatype WriteError = BadAddress | BadValue(decode: DecodeError) | DriverFailed(driver: DriverError)

  /** How many words go out for an encoded value, and the bytes: text fields are padded to whole words. */
  function WriteData(t: DataType, a: ParsedAddress, encoded: seq<byte>): (u16, seq<byte>) {
    if t.STRING? && a.stringLen > 0 then
      var count := (a.stringLen + 1) / 2 % 65536;
      (count, if |encoded| < count * 2 then Pad(encoded, count * 2) else encoded)
    else ((|encoded| + 1) / 2 % 65536, encoded)
  }

  function WriteEncoded(m: Memory, link: Link, t: DataType, a: ParsedAddress, encoded: seq<byte>): (Memory, Result<seq<byte>, DriverError>) {
    if a.isBit || t.BIT? then
      var on := |encoded| > 0 && encoded[0] != 0;
      WriteBits(m, link, BitAccessCode(a.areaCode), a.address % 65536, a.bit % 256, [on])
    else
      var (count, data) := WriteData(t, a, encoded);
      WriteWords(m, link, a.areaCode, a.address % 65536, count, data)
  }

  /** A point write: the memory it leaves, and what went wrong if anything did. */
  function Written(m: Memory, link: Link, conv: FloatConversion, e: Entry, v: Value): (Memory, Option<WriteError>) {
    match e.parsed
    case None => (m, Some(BadAddress))
    case Some(a) =>
      match EncodeValue(conv, v, e.point.dataType, a)
      case Err(err) => (m, Some(BadValue(err)))
      case Ok(encoded) =>
        var (m', done) := WriteEncoded(m, link, e.point.dataType, a, encoded);
        match done
        case Ok(_) => (m', None)
        case Err(err) => (m', Some(DriverFailed(err)))
  }

  // ----- the scheduler object -----

  class PointScheduler {
    var maxFrameLength: int
    var totalRequests: int
    var successCount: int
    var failureCount: int

    constructor ()
      ensures maxFrameLength == 64 && totalRequests == successCount == failureCount == 0
    {
      maxFrameLength, totalRequests, successCount, failureCount := 64, 0, 0, 0;
    }

    /**
     * A batch read over any source of answers. The result is that of a plan for the points; each
     * request is counted once, as a success or a failure.
     */
    method ReadPoints(points: seq<Point>, read: Source)
      returns (results: map<string, Reading>, ghost groups: seq<PointGroup>, ghost order: seq<Key>, ghost lists: map<Key, seq<Member>>)
      requires AllFit(AllMembers(Entries(points))) && maxFrameLength < 65536 && Honest(read)
      modifies this`totalRequests, this`successCount, this`failureCount
      ensures IsPlan(Entries(points), maxFrameLength, order, lists, groups)
      ensures results == BatchResults(points, groups, read)
      ensures results.Keys == Ids(points)
      ensures totalRequests == old(totalRequests) + |groups|
      ensures successCount == old(successCount) + |Answered(groups, read)|
      ensures failureCount == old(failureCount) + |Failed(groups, read)|
      ensures |Answered(groups, read)| + |Failed(groups, read)| == |groups|
    {
      var parsedPoints, initial := ParseAll(points);
      var plan;
      plan, order, lists := GroupPoints(parsedPoints, maxFrameLength);
      groups := plan;
      PlanIsSound(parsedPoints, maxFrameLength, order, lists, groups);
      PlanIsAddressed(points, maxFrameLength, order, lists, groups);
      results := ReadGroups(initial, plan, read);
      SuccessesCount(plan, read);
      ResultKeys(points, maxFrameLength, order, lists, groups, read);
    }

    /** A point write over the exchange; counted once, as a success or a failure. */
    method WritePoint(m: Memory, link: Link, conv: FloatConversion, point: Point, value: Value)
      returns (after: Memory, err: Option<WriteError>)
      modifies this`totalRequests, this`successCount, this`failureCount
      ensures (after, err) == Written(m, link, conv, EntryOf(point), value)
      ensures totalRequests == old(totalRequests) + 1
      ensures successCount == old(successCount) + if err.None? then 1 else 0
      ensures failureCount == old(failureCount) + if err.None? then 0 else 1
    {
      totalRequests := totalRequests + 1;
      var parsed := ParseAddress(point.address);
      if parsed.Err? {
        failureCount := failureCount + 1;
        return m, Some(BadAddress);
      }
      var encoded := EncodeValue(conv, value, point.dataType, parsed.value);
      if encoded.Err? {
        failureCount := failureCount + 1;
        return m, Some(BadValue(encoded.error));
      }
      var (m', done) := WriteEncoded(m, link, point.dataType, parsed.value, encoded.value);
      if done.Err? {
        failureCount := failureCount + 1;
        return m', Some(DriverFailed(done.error));
      }
      successCount := successCount + 1;
      return m', None;
    }

    /** Parses every address; those that fail are Bad from the start. */
    static method ParseAll(points: seq<Point>) returns (parsedPoints: seq<Entry>, results: map<string, Reading>)
      ensures parsedPoints == Entries(points) && results == StartResults(Entries(points))
    {
      parsedPoints, results := [], map[];
      for i := 0 to |points|
        invariant parsedPoints == Entries(points)[..i]
        invariant results == StartResults(parsedPoints)
      {
        var entry := EntryOf(points[i]);
        StartNext(Entries(points), i);
        parsedPoints := parsedPoints + [entry];
        if entry.parsed.None? {
          results := results[points[i].id := Bad];
        }
      }
    }

    /** The request loop, with its counters. */
    method ReadGroups(initial: map<string, Reading>, plan: seq<PointGroup>, read: Source)
      returns (results: map<string, Reading>)
      requires Honest(read) && forall g :: g in plan ==> GroupSound(g, maxFrameLength) && Addressed(g)
      modifies this`totalRequests, this`successCount, this`failureCount
      ensures results == Collect(initial, plan, read)
      ensures totalRequests == old(totalRequests) + |plan|
      ensures successCount == old(successCount) + |Answered(plan, read)|
      ensures failureCount == old(failureCount) + |Failed(plan, read)|
    {
      results := initial;
      for k := 0 to |plan|
        invariant results == Collect(initial, plan[..k], read)
        invariant totalRequests == old(totalRequests) + k
        invariant successCount == old(successCount) + Successes(plan[..k], read)
        invariant failureCount == old(failureCount) + (k - Successes(plan[..k], read))
      {
        assert plan[..k + 1][..k] == plan[..k];
        assert plan[k] in plan;
        totalRequests := totalRequests + 1;
        var answer := read(k, plan[k]);
        if answer.None? {
          failureCount := failureCount + 1;
        } else {
          successCount := successCount + 1;
        }
        results := TakeGroup(results, plan[k], answer, maxFrameLength);
      }
      assert plan[..|plan|] == plan;
      SuccessesCount(plan, read);
    }

    /** Stores the value of every point of one group; no slice leaves the data. */
    static method TakeGroup(before: map<string, Reading>, g: PointGroup, answer: Option<seq<byte>>, limit: int)
      returns (results: map<string, Reading>)
      requires GroupSound(g, limit)
      requires answer.Some? ==> |answer.value| == if g.isBit then 1 else 2 * g.count
      ensures results == AfterPoints(before, g, |g.points|, answer)
    {
      results := before;
      for i := 0 to |g.points|
        invariant results == AfterPoints(before, g, i, answer)
      {
        var p := g.points[i];
        if answer.None? {
          results := results[p.member.point.id := Bad];
        } else {
          NoPanic(answer.value, p, g);
          var decoded := DecodePoint(answer.value, p, g);
          assert decoded != Err(SlicePanic);
          results := results[p.member.point.id := if decoded.Ok? then Good(decoded.value) else Bad];
        }
      }
    }
  }

  /** The requests, by number, that were answered, and those that were not. */
  ghost function Answered(groups: seq<PointGroup>, read: Source): set<int> {
    set k | 0 <= k < |groups| && read(k, groups[k]).Some?
  }

  ghost function Failed(groups: seq<PointGroup>, read: Source): set<int> {
    set k | 0 <= k < |groups| && read(k, groups[k]).None?
  }

  /** The counters count exactly those. */
  lemma {:induction false} SuccessesCount(groups: seq<PointGroup>, read: Source)
    ensures Successes(groups, read) == |Answered(groups, read)|
    ensures |groups| - Successes(groups, read) == |Failed(groups, read)|
  {
    if groups != [] {
      var n := |groups| - 1;
      var rest := groups[..n];
      SuccessesCount(rest, read);
      if read(n, groups[n]).Some? {
        assert Answered(groups, read) == Answered(rest, read) + {n};
        assert Failed(groups, read) == Failed(rest, read);
      } else {
        assert Answered(groups, read) == Answered(rest, read);
        assert Failed(groups, read) == Failed(rest, read) + {n};
      }
    }
  }

  /** How many of the requests were answered. */
  function Successes(groups: seq<PointGroup>, read: Source): nat {
    if groups == [] then 0
    else
      var n := |groups| - 1;
      Successes(groups[..n], read) + if read(n, groups[n]).Some? then 1 else 0
  }

  lemma NoPanic(data: seq<byte>, p: GroupedPoint, g: PointGroup)
    requires g.isBit || (PlacedIn(g, p) && |data| == 2 * g.count)
    ensures DecodePoint(data, p, g) != Err(SlicePanic)
  {
  }
}
