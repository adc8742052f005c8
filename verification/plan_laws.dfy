/** What every plan guarantees: no point lost or doubled, sound requests, as few as possible. */
module PlanLaws {
  import opened Bytes
  import opened Areas
  import opened Greedy
  import opened Planner

  // ----- conservation -----

  function MembersIn(points: seq<GroupedPoint>): (r: seq<Member>)
    ensures |r| == |points| && forall i :: 0 <= i < |points| ==> r[i] == points[i].member
  {
    seq(|points|, i requires 0 <= i < |points| => points[i].member)
  }

  /** The points of all groups, group after group. */
  function GroupMembers(groups: seq<PointGroup>): seq<Member> {
    if groups == [] then [] else MembersIn(groups[0].points) + GroupMembers(groups[1..])
  }

  lemma {:induction false} GroupMembersAppend(a: seq<PointGroup>, b: seq<PointGroup>)
    ensures GroupMembers(a + b) == GroupMembers(a) + GroupMembers(b)
  {
    if a == [] {
      assert a + b == b;
    } else {
      assert (a + b)[1..] == a[1..] + b;
      GroupMembersAppend(a[1..], b);
    }
  }

  lemma MembersOfPoints(ms: seq<Member>, lo: nat, hi: nat)
    requires lo < hi <= |ms|
    ensures MembersIn(PointsOf(ms, lo, hi)) == ms[lo..hi]
  {
    var r := MembersIn(PointsOf(ms, lo, hi));
    forall i | 0 <= i < hi - lo ensures r[i] == ms[lo..hi][i] {
      assert PointsOf(ms, lo, hi)[i] == GroupedAt(ms, lo, lo + i);
    }
  }

  lemma GroupMembersCons(g: PointGroup, gs: seq<PointGroup>)
    ensures GroupMembers([g] + gs) == MembersIn(g.points) + GroupMembers(gs)
  {
    assert ([g] + gs)[1..] == gs;
  }

  lemma CutAt(ms: seq<Member>, lo: nat, e: nat)
    requires lo <= e <= |ms|
    ensures ms[lo..] == ms[lo..e] + ms[e..]
  {
  }

  /** The greedy groups of a list are the list, cut up. */
  lemma {:induction false} WordGroupsMembers(area: byte, ms: seq<Member>, lo: nat, limit: int)
    requires lo <= |ms|
    ensures GroupMembers(WordGroups(area, ms, lo, limit)) == ms[lo..]
    decreases |ms| - lo
  {
    if lo < |ms| {
      var e := GroupEnd(Spans(ms), lo, lo + 1, limit);
      WordGroupsMembers(area, ms, e, limit);
      GroupMembersCons(WordGroup(area, ms, lo, e), WordGroups(area, ms, e, limit));
      MembersOfPoints(ms, lo, e);
      CutAt(ms, lo, e);
    }
  }

  lemma {:induction false} BitGroupsMembers(area: byte, ms: seq<Member>)
    ensures GroupMembers(BitGroups(area, ms)) == ms
  {
    if ms != [] {
      assert BitGroups(area, ms)[1..] == BitGroups(area, ms[1..]);
      BitGroupsMembers(area, ms[1..]);
    }
  }

  lemma KeyGroupsMembers(k: Key, ms: seq<Member>, limit: int)
    ensures GroupMembers(KeyGroups(k, ms, limit)) == ms
  {
    if k.isBit {
      BitGroupsMembers(k.areaCode, ms);
    } else {
      WordGroupsMembers(k.areaCode, ms, 0, limit);
    }
  }

  ghost predicate Keyed(order: seq<Key>, lists: map<Key, seq<Member>>) {
    forall k :: k in order ==> k in lists && forall m :: m in lists[k] ==> KeyOf(m) == k
  }

  function Count(ms: seq<Member>, m: Member): nat { multiset(ms)[m] }

  lemma {:induction false} PlanCount(order: seq<Key>, lists: map<Key, seq<Member>>, limit: int, m: Member)
    requires Distinct(order) && Keyed(order, lists)
    ensures Count(GroupMembers(PlanGroups(order, lists, limit)), m)
         == if KeyOf(m) in order then Count(lists[KeyOf(m)], m) else 0
  {
    if order != [] {
      var rest, last := order[..|order| - 1], order[|order| - 1];
      assert order == rest + [last];
      PlanCount(rest, lists, limit, m);
      GroupMembersAppend(PlanGroups(rest, lists, limit), KeyGroups(last, lists[last], limit));
      KeyGroupsMembers(last, lists[last], limit);
      if KeyOf(m) != last {
        assert m !in lists[last];
        assert m !in multiset(lists[last]);
      }
    }
  }

  lemma {:induction false} MembersCount(entries: seq<Entry>, m: Member)
    ensures Count(AllMembers(entries), m) == Count(MembersOf(entries, KeyOf(m)), m)
  {
    if entries != [] {
      MembersCount(entries[..|entries| - 1], m);
    }
  }

  lemma PlanIsKeyed(entries: seq<Entry>, limit: int, order: seq<Key>, lists: map<Key, seq<Member>>, groups: seq<PointGroup>)
    requires IsPlan(entries, limit, order, lists, groups)
    ensures Keyed(order, lists)
  {
    forall k, m | k in order && m in lists[k] ensures KeyOf(m) == k {
      assert m in multiset(lists[k]);
      assert m in MembersOf(entries, k);
    }
  }

  /** Every parsed point is in the plan exactly as often as in the input. */
  lemma PointsConserved(entries: seq<Entry>, limit: int, order: seq<Key>, lists: map<Key, seq<Member>>, groups: seq<PointGroup>)
    requires IsPlan(entries, limit, order, lists, groups)
    ensures multiset(GroupMembers(groups)) == multiset(AllMembers(entries))
  {
    PlanIsKeyed(entries, limit, order, lists, groups);
    forall m: Member ensures multiset(GroupMembers(groups))[m] == multiset(AllMembers(entries))[m] {
      PlanCount(order, lists, limit, m);
      MembersCount(entries, m);
      var k := KeyOf(m);
      if k in order {
        assert multiset(lists[k]) == multiset(MembersOf(entries, k));
      } else {
        assert MembersOf(entries, k) == [];
      }
    }
  }

  lemma {:induction false} InGroupMembers(groups: seq<PointGroup>, m: Member)
    ensures m in GroupMembers(groups) <==> exists g, i :: 0 <= g < |groups| && 0 <= i < |groups[g].points| && groups[g].points[i].member == m
  {
    if groups != [] {
      InGroupMembers(groups[1..], m);
      if m in MembersIn(groups[0].points) {
        var i :| 0 <= i < |groups[0].points| && MembersIn(groups[0].points)[i] == m;
        assert groups[0].points[i].member == m;
      } else if m in GroupMembers(groups[1..]) {
        var g, i :| 0 <= g < |groups[1..]| && 0 <= i < |groups[1..][g].points| && groups[1..][g].points[i].member == m;
        assert groups[g + 1].points[i].member == m;
      }
      forall g, i | 0 <= g < |groups| && 0 <= i < |groups[g].points| && groups[g].points[i].member == m
        ensures m in GroupMembers(groups)
      {
        if g == 0 {
          assert MembersIn(groups[0].points)[i] == m;
        } else {
          assert groups[1..][g - 1].points[i].member == m;
        }
      }
    }
  }

  // ----- sound requests -----

  function SumWords(points: seq<GroupedPoint>): nat {
    if points == [] then 0 else SumWords(points[..|points| - 1]) + Words(points[|points| - 1].member)
  }

  /** A word point lies inside its group at its own offset. */
  predicate PlacedIn(g: PointGroup, p: GroupedPoint) {
    && !IsBitPoint(p.member) && p.member.parsed.areaCode == g.areaCode
    && p.offset >= 0 && p.offset == 2 * (p.member.parsed.address - g.startAddr)
    && p.offset + 2 * Words(p.member) <= 2 * g.count
  }

  /**
   * A request serves points of one area and kind. A bit request is one point. A word request
   * places every point, ends where its furthest point ends, keeps to the frame limit unless its
   * first point alone exceeds it, and wastes at most ten words a merge.
   */
  ghost predicate GroupSound(g: PointGroup, limit: int) {
    if g.isBit then
      && |g.points| == 1 && IsBitPoint(g.points[0].member)
      && g == BitGroup(BitAccessCode(g.points[0].member.parsed.areaCode), g.points[0].member)
    else
      && g.points != []
      && (forall i :: 0 <= i < |g.points| ==> PlacedIn(g, g.points[i]))
      && (forall i :: 0 < i < |g.points| ==> g.points[i].offset + 2 * Words(g.points[i].member) <= 2 * limit)
      && g.points[0].offset == 0
      && (exists i :: 0 <= i < |g.points| && g.points[i].offset + 2 * Words(g.points[i].member) == 2 * g.count)
      && (g.count <= limit || g.count == Words(g.points[0].member))
      && g.count <= SumWords(g.points) + GAP * (|g.points| - 1)
  }

  lemma {:induction false} SumOfSpans(ms: seq<Member>, lo: nat, hi: nat)
    requires lo < hi <= |ms|
    ensures SumWords(PointsOf(ms, lo, hi)) == TotalWords(Spans(ms), lo, hi)
    decreases hi
  {
    if hi == lo + 1 {
      assert PointsOf(ms, lo, hi)[0] == GroupedAt(ms, lo, lo + 0);
      assert PointsOf(ms, lo, hi)[..0] == [];
      assert TotalWords(Spans(ms), lo, lo) == 0;
    } else {
      PointsSnoc(ms, lo, hi - 1);
      assert PointsOf(ms, lo, hi)[..hi - 1 - lo] == PointsOf(ms, lo, hi - 1);
      SumOfSpans(ms, lo, hi - 1);
    }
  }

  /** A word request covers the words of each of its points. */
  lemma WordGroupSpans(area: byte, ms: seq<Member>, lo: nat, hi: nat, limit: int, k: nat)
    requires AllFit(ms) && limit < 65536 && IsGroup(Spans(ms), lo, hi, limit) && lo <= k < hi
    ensures var g := WordGroup(area, ms, lo, hi);
      g.startAddr == ms[lo].parsed.address && SpanOf(ms[k]).End() <= g.startAddr + g.count
  {
    assert ms[lo] in ms;
    GroupCountFits(ms, lo, hi, limit);
    MaxEndIsMax(Spans(ms), lo, hi);
    assert Spans(ms)[k].End() <= MaxEnd(Spans(ms), lo, hi);
  }

  lemma WordGroupPlaces(area: byte, ms: seq<Member>, lo: nat, hi: nat, limit: int, i: nat)
    requires AllFit(ms) && limit < 65536 && InOrder(ms) && IsGroup(Spans(ms), lo, hi, limit)
    requires forall m :: m in ms ==> KeyOf(m) == Key(area, false)
    requires i < hi - lo
    ensures PlacedIn(WordGroup(area, ms, lo, hi), PointsOf(ms, lo, hi)[i])
  {
    var m := ms[lo + i];
    assert m in ms && ms[lo] in ms;
    WordGroupSpans(area, ms, lo, hi, limit, lo + i);
    assert i > 0 ==> NotAfter(ms[lo], m);
    assert PointsOf(ms, lo, hi)[i] == GroupedAt(ms, lo, lo + i);
  }

  /** The first point starts the request; every other one kept it within the limit. */
  lemma WordGroupJoined(ms: seq<Member>, lo: nat, hi: nat, limit: int, i: nat)
    requires IsGroup(Spans(ms), lo, hi, limit) && i < hi - lo
    ensures var p := PointsOf(ms, lo, hi)[i];
      (i == 0 ==> p.offset == 0) && (i > 0 ==> p.offset + 2 * Words(p.member) <= 2 * limit)
  {
    assert PointsOf(ms, lo, hi)[i] == GroupedAt(ms, lo, lo + i);
    assert i > 0 ==> Joins(Spans(ms), lo, lo + i, limit);
  }

  lemma WordGroupEnd(area: byte, ms: seq<Member>, lo: nat, hi: nat, limit: int)
    requires AllFit(ms) && limit < 65536 && IsGroup(Spans(ms), lo, hi, limit)
    ensures var g := WordGroup(area, ms, lo, hi);
      g.startAddr == ms[lo].parsed.address && g.startAddr + g.count == MaxEnd(Spans(ms), lo, hi)
  {
    assert ms[lo] in ms;
    GroupCountFits(ms, lo, hi, limit);
  }

  /** Some point of the group ends where the request ends. */
  lemma WordGroupReaches(area: byte, ms: seq<Member>, lo: nat, hi: nat, limit: int)
    requires AllFit(ms) && limit < 65536 && IsGroup(Spans(ms), lo, hi, limit)
    ensures var g := WordGroup(area, ms, lo, hi);
      exists i :: 0 <= i < |g.points| && g.points[i].offset + 2 * Words(g.points[i].member) == 2 * g.count
  {
    var g := WordGroup(area, ms, lo, hi);
    WordGroupEnd(area, ms, lo, hi, limit);
    MaxEndIsMax(Spans(ms), lo, hi);
    var k :| lo <= k < hi && Spans(ms)[k].End() == MaxEnd(Spans(ms), lo, hi);
    assert g.points[k - lo] == GroupedAt(ms, lo, lo + (k - lo));
    assert Spans(ms)[k] == SpanOf(ms[k]);
  }

  lemma WordGroupCount(area: byte, ms: seq<Member>, lo: nat, hi: nat, limit: int)
    requires AllFit(ms) && limit < 65536 && IsGroup(Spans(ms), lo, hi, limit)
    ensures var g := WordGroup(area, ms, lo, hi);
      && (g.count <= limit || g.count == Words(g.points[0].member))
      && g.count <= SumWords(g.points) + GAP * (|g.points| - 1)
  {
    GroupCountFits(ms, lo, hi, limit);
    GroupSize(Spans(ms), lo, hi, limit);
    SumOfSpans(ms, lo, hi);
    assert PointsOf(ms, lo, hi)[0] == GroupedAt(ms, lo, lo + 0);
  }

  lemma WordGroupSound(area: byte, ms: seq<Member>, lo: nat, hi: nat, limit: int)
    requires AllFit(ms) && limit < 65536 && InOrder(ms) && IsGroup(Spans(ms), lo, hi, limit)
    requires forall m :: m in ms ==> KeyOf(m) == Key(area, false)
    ensures GroupSound(WordGroup(area, ms, lo, hi), limit)
  {
    var g := WordGroup(area, ms, lo, hi);
    WordGroupReaches(area, ms, lo, hi, limit);
    WordGroupCount(area, ms, lo, hi, limit);
    forall i | 0 <= i < |g.points|
      ensures PlacedIn(g, g.points[i])
      ensures i > 0 ==> g.points[i].offset + 2 * Words(g.points[i].member) <= 2 * limit
    {
      WordGroupPlaces(area, ms, lo, hi, limit, i);
      WordGroupJoined(ms, lo, hi, limit, i);
    }
    WordGroupJoined(ms, lo, hi, limit, 0);
  }

  ghost predicate AllSound(gs: seq<PointGroup>, limit: int) {
    forall g :: g in gs ==> GroupSound(g, limit)
  }

  lemma AllSoundCons(g: PointGroup, gs: seq<PointGroup>, limit: int)
    requires GroupSound(g, limit) && AllSound(gs, limit)
    ensures AllSound([g] + gs, limit)
  {
  }

  lemma FirstWordGroupSound(area: byte, ms: seq<Member>, lo: nat, limit: int)
    requires AllFit(ms) && limit < 65536 && InOrder(ms) && lo < |ms|
    requires forall m :: m in ms ==> KeyOf(m) == Key(area, false)
    ensures GroupSound(WordGroup(area, ms, lo, GroupEnd(Spans(ms), lo, lo + 1, limit)), limit)
  {
    GroupEndIsMaximal(Spans(ms), lo, lo + 1, limit);
    WordGroupSound(area, ms, lo, GroupEnd(Spans(ms), lo, lo + 1, limit), limit);
  }

  lemma {:induction false} WordGroupsSound(area: byte, ms: seq<Member>, lo: nat, limit: int)
    requires AllFit(ms) && limit < 65536 && InOrder(ms) && lo <= |ms|
    requires forall m :: m in ms ==> KeyOf(m) == Key(area, false)
    ensures AllSound(WordGroups(area, ms, lo, limit), limit)
    decreases |ms| - lo
  {
    if lo < |ms| {
      var e := GroupEnd(Spans(ms), lo, lo + 1, limit);
      FirstWordGroupSound(area, ms, lo, limit);
      WordGroupsSound(area, ms, e, limit);
      AllSoundCons(WordGroup(area, ms, lo, e), WordGroups(area, ms, e, limit), limit);
    }
  }

  lemma KeyGroupsSound(k: Key, ms: seq<Member>, limit: int)
    requires AllFit(ms) && limit < 65536 && InOrder(ms)
    requires forall m :: m in ms ==> KeyOf(m) == k
    ensures forall g :: g in KeyGroups(k, ms, limit) ==> GroupSound(g, limit)
  {
    if k.isBit {
      forall g | g in BitGroups(k.areaCode, ms) ensures GroupSound(g, limit) {
        var i :| 0 <= i < |ms| && g == BitGroup(k.areaCode, ms[i]);
        assert ms[i] in ms;
      }
    } else {
      WordGroupsSound(k.areaCode, ms, 0, limit);
    }
  }

  lemma {:induction false} PlanGroupsSound(order: seq<Key>, lists: map<Key, seq<Member>>, limit: int)
    requires Keyed(order, lists) && limit < 65536
    requires forall k :: k in order ==> AllFit(lists[k]) && InOrder(lists[k])
    ensures forall g :: g in PlanGroups(order, lists, limit) ==> GroupSound(g, limit)
  {
    if order != [] {
      var rest, last := order[..|order| - 1], order[|order| - 1];
      assert forall k :: k in rest ==> k in order;
      PlanGroupsSound(rest, lists, limit);
      KeyGroupsSound(last, lists[last], limit);
    }
  }

  /** Every request of every plan is sound and serves only points of the input. */
  lemma PlanIsSound(entries: seq<Entry>, limit: int, order: seq<Key>, lists: map<Key, seq<Member>>, groups: seq<PointGroup>)
    requires IsPlan(entries, limit, order, lists, groups)
    requires AllFit(AllMembers(entries)) && limit < 65536
    ensures forall g :: g in groups ==> GroupSound(g, limit)
    ensures forall g, i :: 0 <= g < |groups| && 0 <= i < |groups[g].points| ==>
      groups[g].points[i].member in AllMembers(entries)
  {
    PlanIsKeyed(entries, limit, order, lists, groups);
    forall k | k in order ensures AllFit(lists[k]) {
      SortedListFits(entries, k, lists[k]);
    }
    PlanGroupsSound(order, lists, limit);
    PointsConserved(entries, limit, order, lists, groups);
    forall g, i | 0 <= g < |groups| && 0 <= i < |groups[g].points|
      ensures groups[g].points[i].member in AllMembers(entries)
    {
      var m := groups[g].points[i].member;
      InGroupMembers(groups, m);
      assert m in multiset(GroupMembers(groups));
    }
  }

  /** Every parsed point is served by some request. */
  lemma PlanServes(entries: seq<Entry>, limit: int, order: seq<Key>, lists: map<Key, seq<Member>>, groups: seq<PointGroup>, m: Member)
    requires IsPlan(entries, limit, order, lists, groups) && m in AllMembers(entries)
    ensures exists g, i :: 0 <= g < |groups| && 0 <= i < |groups[g].points| && groups[g].points[i].member == m
  {
    PointsConserved(entries, limit, order, lists, groups);
    assert m in multiset(AllMembers(entries));
    InGroupMembers(groups, m);
  }

  /** Two points share a request when the second starts at most ten words behind the first and ends within the limit. */
  lemma TwoPoints(area: byte, m: Member, q: Member, limit: int)
    ensures |WordGroups(area, [m, q], 0, limit)| ==
      if q.parsed.address <= m.parsed.address + Words(m) + 10 && q.parsed.address + Words(q) - m.parsed.address <= limit
      then 1 else 2
  {
    var ms := [m, q];
    var ps := Spans(ms);
    assert ps[0] == SpanOf(m) && ps[1] == SpanOf(q);
    assert MaxEnd(ps, 0, 1) == ps[0].End();
    assert GroupEnd(ps, 0, 2, limit) == 2 && GroupEnd(ps, 1, 2, limit) == 2;
    assert WordGroups(area, ms, 2, limit) == [];
  }

  // ----- as few requests as possible -----

  /** For each word list in the order the sort gave, no legal grouping of it uses fewer requests than the planner's. */
  lemma WordRequestsMinimal(area: byte, ms: seq<Member>, limit: int, cuts: seq<nat>)
    requires InOrder(ms) && IsPartition(Spans(ms), 0, cuts, limit)
    ensures |WordGroups(area, ms, 0, limit)| <= |cuts|
  {
    InOrderSpans(ms);
    GreedyIsOptimal(Spans(ms), cuts, limit);
  }
}
