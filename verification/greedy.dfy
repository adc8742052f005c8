/**
 * The greedy merge of the batch planner, on bare address spans: why it is a legal grouping, how
 * large its requests get, and that no legal grouping needs fewer requests.
 */
module Greedy {

  /** The words one point occupies. */
  datatype Span = Span(addr: nat, words: nat) {
    function End(): nat { addr + words }
  }

  const GAP := 10

  ghost predicate Sorted(ps: seq<Span>) {
    forall i, j :: 0 <= i <= j < |ps| ==> ps[i].addr <= ps[j].addr
  }

  /** The first word after the points lo..hi. */
  function MaxEnd(ps: seq<Span>, lo: nat, hi: nat): (e: nat)
    requires lo < hi <= |ps|
    decreases hi
  {
    if hi == lo + 1 then ps[lo].End()
    else
      var e := MaxEnd(ps, lo, hi - 1);
      if ps[hi - 1].End() > e then ps[hi - 1].End() else e
  }

  /** It is the largest end of those points. */
  lemma {:induction false} MaxEndIsMax(ps: seq<Span>, lo: nat, hi: nat)
    requires lo < hi <= |ps|
    ensures forall k :: lo <= k < hi ==> ps[k].End() <= MaxEnd(ps, lo, hi)
    ensures exists k :: lo <= k < hi && ps[k].End() == MaxEnd(ps, lo, hi)
    decreases hi
  {
    if hi == lo + 1 {
      assert ps[lo].End() == MaxEnd(ps, lo, hi);
    } else {
      MaxEndIsMax(ps, lo, hi - 1);
      var k :| lo <= k < hi - 1 && ps[k].End() == MaxEnd(ps, lo, hi - 1);
      assert ps[if ps[hi - 1].End() > ps[k].End() then hi - 1 else k].End() == MaxEnd(ps, lo, hi);
    }
  }

  /** The joining rule: at most GAP words past the group, and the request stays within the limit. */
  predicate Joins(ps: seq<Span>, lo: nat, hi: nat, limit: int)
    requires lo < hi < |ps|
  {
    && ps[hi].addr <= MaxEnd(ps, lo, hi) + GAP
    && ps[hi].End() - ps[lo].addr <= limit
  }

  /** Points lo..hi may share one request: each joined the ones before it. */
  predicate IsGroup(ps: seq<Span>, lo: nat, hi: nat, limit: int) {
    && lo < hi <= |ps|
    && forall k :: lo < k < hi ==> Joins(ps, lo, k, limit)
  }

  /** Where the greedy scan closes the group that starts at lo, having accepted up to hi. */
  function GroupEnd(ps: seq<Span>, lo: nat, hi: nat, limit: int): (e: nat)
    requires lo < hi <= |ps|
    ensures hi <= e <= |ps|
    decreases |ps| - hi
  {
    if hi < |ps| && Joins(ps, lo, hi, limit) then GroupEnd(ps, lo, hi + 1, limit) else hi
  }

  /** The ends of the groups the greedy scan makes from lo on. */
  function Cuts(ps: seq<Span>, lo: nat, limit: int): (cuts: seq<nat>)
    requires lo <= |ps|
    decreases |ps| - lo
  {
    if lo == |ps| then []
    else
      var e := GroupEnd(ps, lo, lo + 1, limit);
      [e] + Cuts(ps, e, limit)
  }

  /** Any way of cutting the points from lo on into legal contiguous groups. */
  ghost predicate IsPartition(ps: seq<Span>, lo: nat, cuts: seq<nat>, limit: int)
    decreases |cuts|
  {
    if cuts == [] then lo == |ps|
    else IsGroup(ps, lo, cuts[0], limit) && IsPartition(ps, cuts[0], cuts[1..], limit)
  }

  /** The scan accepts as long as it can and stops only at a point that may not join. */
  lemma {:induction false} GroupEndIsMaximal(ps: seq<Span>, lo: nat, hi: nat, limit: int)
    requires IsGroup(ps, lo, hi, limit)
    ensures var e := GroupEnd(ps, lo, hi, limit);
      IsGroup(ps, lo, e, limit) && (e == |ps| || !Joins(ps, lo, e, limit))
    decreases |ps| - hi
  {
    if hi < |ps| && Joins(ps, lo, hi, limit) {
      GroupEndIsMaximal(ps, lo, hi + 1, limit);
    }
  }

  lemma {:induction false} GreedyIsPartition(ps: seq<Span>, lo: nat, limit: int)
    requires lo <= |ps|
    ensures IsPartition(ps, lo, Cuts(ps, lo, limit), limit)
    decreases |ps| - lo
  {
    if lo < |ps| {
      GroupEndIsMaximal(ps, lo, lo + 1, limit);
      GreedyIsPartition(ps, GroupEnd(ps, lo, lo + 1, limit), limit);
    }
  }

  /** A group the scan could still extend to `e` is extended at least that far. */
  lemma {:induction false} GroupEndReaches(ps: seq<Span>, lo: nat, hi: nat, e: nat, limit: int)
    requires IsGroup(ps, lo, e, limit) && lo < hi <= e
    ensures e <= GroupEnd(ps, lo, hi, limit)
    decreases e - hi
  {
    if hi < e {
      GroupEndReaches(ps, lo, hi + 1, e, limit);
    }
  }

  /**
   * The point at which greedy closed a group reaches further than every point of that group
   * that the rival's group also holds.
   */
  lemma ClosingPointDominates(ps: seq<Span>, g: nat, a: nat, b: nat, e: nat, limit: int)
    requires g < b < a < e
    requires IsGroup(ps, g, a, limit) && IsGroup(ps, b, e, limit)
    requires !Joins(ps, g, a, limit)
    ensures forall j :: b <= j < a ==> ps[j].End() <= ps[a].End()
  {
    assert Joins(ps, b, a, limit);
    MaxEndIsMax(ps, b, a);
    MaxEndIsMax(ps, g, a);
    assert ps[a].End() - ps[g].addr > limit;
    forall j | b <= j < a ensures ps[j].End() <= ps[a].End() {
      assert Joins(ps, g, j, limit);
    }
  }

  /** So the rest of the rival's group is legal on its own, starting at that point. */
  lemma TailIsGroup(ps: seq<Span>, g: nat, a: nat, b: nat, e: nat, limit: int)
    requires Sorted(ps)
    requires b <= a < e && IsGroup(ps, b, e, limit)
    requires a == b || (g < b && IsGroup(ps, g, a, limit) && !Joins(ps, g, a, limit))
    ensures IsGroup(ps, a, e, limit)
  {
    if b < a {
      ClosingPointDominates(ps, g, a, b, e, limit);
      forall k | a < k < e ensures Joins(ps, a, k, limit) {
        assert Joins(ps, b, k, limit);
        MaxEndIsMax(ps, b, k);
        MaxEndIsMax(ps, a, k);
        var j :| b <= j < k && ps[j].End() == MaxEnd(ps, b, k);
        assert ps[j].End() <= MaxEnd(ps, a, k);
      }
    }
  }

  /** Greedy's previous group, if it made one, began before the rival's current group. */
  ghost predicate Ahead(ps: seq<Span>, g: nat, a: nat, b: nat, limit: int) {
    b <= a <= |ps| && (a == b || (g < b && IsGroup(ps, g, a, limit) && (a == |ps| || !Joins(ps, g, a, limit))))
  }

  /** Inside a rival's group, greedy's next group reaches its end at least. */
  lemma GreedyStep(ps: seq<Span>, g: nat, a: nat, b: nat, e: nat, limit: int)
    requires Sorted(ps) && Ahead(ps, g, a, b, limit)
    requires a < e && IsGroup(ps, b, e, limit)
    ensures Ahead(ps, a, GroupEnd(ps, a, a + 1, limit), e, limit)
  {
    TailIsGroup(ps, g, a, b, e, limit);
    GroupEndReaches(ps, a, a + 1, e, limit);
    GroupEndIsMaximal(ps, a, a + 1, limit);
  }

  /** Greedy stays ahead: started no earlier than the rival, it needs no more groups. */
  lemma {:induction false} StaysAhead(ps: seq<Span>, g: nat, a: nat, b: nat, cuts: seq<nat>, limit: int)
    requires Sorted(ps) && Ahead(ps, g, a, b, limit)
    requires IsPartition(ps, b, cuts, limit)
    ensures |Cuts(ps, a, limit)| <= |cuts|
    decreases |cuts|
  {
    if a < |ps| {
      var e := cuts[0];
      if e <= a {
        assert Ahead(ps, g, a, e, limit);
        StaysAhead(ps, g, a, e, cuts[1..], limit);
      } else {
        GreedyStep(ps, g, a, b, e, limit);
        StaysAhead(ps, a, GroupEnd(ps, a, a + 1, limit), e, cuts[1..], limit);
      }
    }
  }

  /** No legal grouping of the sorted points, oversized ones included, has fewer requests. */
  lemma GreedyIsOptimal(ps: seq<Span>, cuts: seq<nat>, limit: int)
    requires Sorted(ps)
    requires IsPartition(ps, 0, cuts, limit)
    ensures |Cuts(ps, 0, limit)| <= |cuts|
  {
    StaysAhead(ps, 0, 0, 0, cuts, limit);
  }

  // ----- how much a group reads -----

  function TotalWords(ps: seq<Span>, lo: nat, hi: nat): nat
    requires lo <= hi <= |ps|
    decreases hi
  {
    if lo == hi then 0 else TotalWords(ps, lo, hi - 1) + ps[hi - 1].words
  }

  /** A request covers its points, wastes at most GAP words a merge, and keeps to the limit. */
  lemma {:induction false} GroupSize(ps: seq<Span>, lo: nat, hi: nat, limit: int)
    requires IsGroup(ps, lo, hi, limit)
    ensures var count := MaxEnd(ps, lo, hi) - ps[lo].addr;
      && (count <= limit || count == ps[lo].words)
      && count <= TotalWords(ps, lo, hi) + GAP * (hi - lo - 1)
    decreases hi
  {
    if hi > lo + 1 {
      GroupSize(ps, lo, hi - 1, limit);
      MaxEndIsMax(ps, lo, hi - 1);
      assert Joins(ps, lo, hi - 1, limit);
    } else {
      assert TotalWords(ps, lo, lo) == 0;
    }
  }

}
