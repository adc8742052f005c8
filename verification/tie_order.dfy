/**
 * Points at the same address may be sorted either way. How many requests that costs, which order
 * needs the fewest, and exactly when the order at hand is as good as any.
 */
module TieOrder {
  import opened Bytes
  import opened Greedy
  import opened Planner

  predicate Oversized(p: Span, limit: int) { p.words > limit }

  /** At each address the longer points come first. */
  ghost predicate LongestFirst(ps: seq<Span>) {
    forall i, j :: 0 <= i <= j < |ps| && ps[i].addr == ps[j].addr ==> ps[j].words <= ps[i].words
  }

  /** A point within the limit may lead a group only where no oversized point shares its address. */
  ghost predicate FairLead(ps: seq<Span>, lo: nat, limit: int)
    requires lo < |ps|
  {
    Oversized(ps[lo], limit) || forall p :: p in ps && p.addr == ps[lo].addr ==> !Oversized(p, limit)
  }

  /** Every greedy group from lo on is fairly led. */
  ghost predicate WellLed(ps: seq<Span>, lo: nat, limit: int)
    requires lo <= |ps|
    decreases |ps| - lo
  {
    lo == |ps| || (FairLead(ps, lo, limit) && WellLed(ps, GroupEnd(ps, lo, lo + 1, limit), limit))
  }

  // ----- where a group must end, in terms of the points and not of their order -----

  ghost predicate SameSpans(ps: seq<Span>, qs: seq<Span>) {
    forall p :: p in ps <==> p in qs
  }

  lemma SameMultiset(ps: seq<Span>, qs: seq<Span>)
    requires multiset(ps) == multiset(qs)
    ensures SameSpans(ps, qs)
  {
    forall p ensures p in ps <==> p in qs {
      assert p in ps <==> p in multiset(ps);
      assert p in qs <==> p in multiset(qs);
    }
  }

  /** All points from address a up to b end more than the gap before b. */
  ghost predicate Gap(ps: seq<Span>, a: nat, b: nat) {
    forall q :: q in ps && a <= q.addr < b ==> q.End() + GAP < b
  }

  /** A request that starts at address a cannot take in all points at address b. */
  ghost predicate Breaks(ps: seq<Span>, a: nat, b: nat, limit: int) {
    exists p :: p in ps && p.addr == b && (Gap(ps, a, b) || p.End() - a > limit)
  }

  ghost predicate FirstBreak(ps: seq<Span>, a: nat, b: nat, limit: int) {
    a < b && Breaks(ps, a, b, limit) && forall c: nat :: a < c < b ==> !Breaks(ps, a, c, limit)
  }

  ghost predicate NoBreak(ps: seq<Span>, a: nat, limit: int) {
    forall c: nat :: a < c ==> !Breaks(ps, a, c, limit)
  }

  /** The point at lo is oversized, or reaches as far as any point before it at its address. */
  ghost predicate Leads(ps: seq<Span>, lo: nat, limit: int) {
    lo < |ps| && (Oversized(ps[lo], limit) ||
      forall j :: 0 <= j < lo && ps[j].addr == ps[lo].addr ==> ps[j].End() <= ps[lo].End())
  }

  /** The first group led at an address: no oversized point there comes before. */
  ghost predicate LeadsFirst(ps: seq<Span>, lo: nat, limit: int) {
    && Leads(ps, lo, limit)
    && forall j :: 0 <= j < lo && ps[j].addr == ps[lo].addr ==> !Oversized(ps[j], limit)
  }

  /** The first point at an address. */
  lemma {:induction false} FirstAt(ps: seq<Span>, j: nat) returns (k: nat)
    requires Sorted(ps) && j < |ps|
    ensures k <= j && ps[k].addr == ps[j].addr && forall i :: 0 <= i < k ==> ps[i].addr < ps[j].addr
  {
    if j > 0 && ps[j - 1].addr == ps[j].addr {
      k := FirstAt(ps, j - 1);
    } else {
      k := j;
      assert j > 0 ==> ps[j - 1].addr < ps[j].addr;
    }
  }

  /** Nothing the group took in breaks it. */
  lemma GroupUnbroken(ps: seq<Span>, lo: nat, e: nat, c: nat, limit: int)
    requires Sorted(ps) && IsGroup(ps, lo, e, limit) && ps[lo].addr < c && (e == |ps| || c < ps[e].addr)
    ensures !Breaks(ps, ps[lo].addr, c, limit)
  {
    var a := ps[lo].addr;
    forall p | p in ps && p.addr == c ensures !Gap(ps, a, c) && p.End() - a <= limit {
      var j :| 0 <= j < |ps| && ps[j] == p;
      assert lo < j < e;
      assert Joins(ps, lo, j, limit);
      var k := FirstAt(ps, j);
      assert lo < k;
      assert Joins(ps, lo, k, limit);
      MaxEndIsMax(ps, lo, k);
      var i :| lo <= i < k && ps[i].End() == MaxEnd(ps, lo, k);
      assert ps[i] in ps && a <= ps[i].addr < c;
    }
  }

  /** A later group at the same address is led by an oversized point. */
  lemma TiesJoin(ps: seq<Span>, lo: nat, e: nat, limit: int)
    requires Sorted(ps) && lo < e < |ps| && !Joins(ps, lo, e, limit) && ps[e].addr == ps[lo].addr
    ensures Oversized(ps[e], limit)
  {
    MaxEndIsMax(ps, lo, e);
    assert ps[lo].End() <= MaxEnd(ps, lo, e);
  }

  lemma GroupBreaks(ps: seq<Span>, lo: nat, e: nat, limit: int)
    requires Sorted(ps) && Leads(ps, lo, limit) && lo < e < |ps| && !Joins(ps, lo, e, limit) && ps[lo].addr < ps[e].addr
    ensures Breaks(ps, ps[lo].addr, ps[e].addr, limit)
  {
    var a, b := ps[lo].addr, ps[e].addr;
    assert ps[e] in ps;
    MaxEndIsMax(ps, lo, e);
    assert ps[lo].End() <= MaxEnd(ps, lo, e);
    if b > MaxEnd(ps, lo, e) + GAP && !Oversized(ps[lo], limit) {
      forall q | q in ps && a <= q.addr < b ensures q.End() + GAP < b {
        var j :| 0 <= j < |ps| && ps[j] == q;
        assert j < e;
        assert j < lo ==> q.addr == a;
      }
    }
  }

  /** The point that opens the next group at a higher address leads there first: those that joined end sooner. */
  lemma NextLeads(ps: seq<Span>, lo: nat, e: nat, limit: int)
    requires Sorted(ps) && IsGroup(ps, lo, e, limit) && e < |ps| && !Joins(ps, lo, e, limit) && ps[lo].addr < ps[e].addr
    ensures LeadsFirst(ps, e, limit)
  {
    MaxEndIsMax(ps, lo, e);
    forall j | 0 <= j < e && ps[j].addr == ps[e].addr ensures ps[j].End() <= ps[e].End() && !Oversized(ps[j], limit) {
      assert lo < j;
      assert Joins(ps, lo, j, limit);
    }
  }

  lemma SameBreaks(ps: seq<Span>, qs: seq<Span>, a: nat, b: nat, limit: int)
    requires SameSpans(ps, qs)
    ensures Breaks(ps, a, b, limit) <==> Breaks(qs, a, b, limit)
  {
    assert Gap(ps, a, b) <==> Gap(qs, a, b);
  }

  lemma SameFirstBreak(ps: seq<Span>, qs: seq<Span>, a: nat, b: nat, c: nat, limit: int)
    requires FirstBreak(ps, a, b, limit) && FirstBreak(qs, a, c, limit)
    requires forall x: nat :: Breaks(ps, a, x, limit) <==> Breaks(qs, a, x, limit)
    ensures b == c
  {
    assert Breaks(qs, a, b, limit) && Breaks(ps, a, c, limit);
  }

  // ----- all groups led at one address -----

  /** Oversized points at address a, from index i on. */
  function LongOnes(ps: seq<Span>, a: nat, i: nat, limit: int): nat
    requires i <= |ps|
    decreases |ps| - i
  {
    if i == |ps| then 0
    else (if ps[i].addr == a && Oversized(ps[i], limit) then 1 else 0) + LongOnes(ps, a, i + 1, limit)
  }

  lemma {:induction false} NoneBetween(ps: seq<Span>, a: nat, i: nat, j: nat, limit: int)
    requires i <= j <= |ps|
    requires forall k :: i <= k < j ==> !(ps[k].addr == a && Oversized(ps[k], limit))
    ensures LongOnes(ps, a, i, limit) == LongOnes(ps, a, j, limit)
    decreases j - i
  {
    if i < j {
      NoneBetween(ps, a, i + 1, j, limit);
    }
  }

  /** The next group led at a higher address, or the end. */
  ghost predicate NextAddress(ps: seq<Span>, a: nat, e: nat, limit: int) {
    && e <= |ps|
    && if e < |ps| then FirstBreak(ps, a, ps[e].addr, limit) && LeadsFirst(ps, e, limit) else NoBreak(ps, a, limit)
  }

  lemma LastLead(ps: seq<Span>, lo: nat, e: nat, limit: int)
    requires Sorted(ps) && Leads(ps, lo, limit) && IsGroup(ps, lo, e, limit)
    requires e == |ps| || (!Joins(ps, lo, e, limit) && ps[lo].addr < ps[e].addr)
    ensures NextAddress(ps, ps[lo].addr, e, limit)
  {
    forall c: nat | ps[lo].addr < c && (e == |ps| || c < ps[e].addr) ensures !Breaks(ps, ps[lo].addr, c, limit) {
      GroupUnbroken(ps, lo, e, c, limit);
    }
    if e < |ps| {
      GroupBreaks(ps, lo, e, limit);
      NextLeads(ps, lo, e, limit);
    }
  }

  /** Groups at one address: the one at lo and one for each oversized point behind it. */
  lemma {:induction false} Block(ps: seq<Span>, lo: nat, limit: int) returns (e: nat)
    requires Sorted(ps) && Leads(ps, lo, limit)
    ensures lo < e && NextAddress(ps, ps[lo].addr, e, limit)
    ensures |Cuts(ps, lo, limit)| == 1 + LongOnes(ps, ps[lo].addr, lo + 1, limit) + |Cuts(ps, e, limit)|
    ensures WellLed(ps, lo, limit) <==> FairLead(ps, lo, limit) && WellLed(ps, e, limit)
    decreases |ps| - lo
  {
    var a, next := ps[lo].addr, GroupEnd(ps, lo, lo + 1, limit);
    GroupEndIsMaximal(ps, lo, lo + 1, limit);
    NoneJoined(ps, lo, next, limit);
    if next < |ps| && ps[next].addr == a {
      TiesJoin(ps, lo, next, limit);
      e := Block(ps, next, limit);
      LaterLead(ps, lo, next, e, limit);
    } else {
      NoneBetween(ps, a, next, |ps|, limit);
      LastLead(ps, lo, next, limit);
      e := next;
    }
  }

  /** No oversized point at the group's address joined it. */
  lemma NoneJoined(ps: seq<Span>, lo: nat, next: nat, limit: int)
    requires IsGroup(ps, lo, next, limit)
    ensures LongOnes(ps, ps[lo].addr, lo + 1, limit) == LongOnes(ps, ps[lo].addr, next, limit)
  {
    forall k | lo + 1 <= k < next ensures !(ps[k].addr == ps[lo].addr && Oversized(ps[k], limit)) {
      assert Joins(ps, lo, k, limit);
    }
    NoneBetween(ps, ps[lo].addr, lo + 1, next, limit);
  }

  lemma LaterLead(ps: seq<Span>, lo: nat, next: nat, e: nat, limit: int)
    requires lo < |ps| && next == GroupEnd(ps, lo, lo + 1, limit) && next < e <= |ps|
    requires ps[next].addr == ps[lo].addr && Oversized(ps[next], limit)
    requires LongOnes(ps, ps[lo].addr, lo + 1, limit) == LongOnes(ps, ps[lo].addr, next, limit)
    requires |Cuts(ps, next, limit)| == 1 + LongOnes(ps, ps[lo].addr, next + 1, limit) + |Cuts(ps, e, limit)|
    requires WellLed(ps, next, limit) <==> FairLead(ps, next, limit) && WellLed(ps, e, limit)
    ensures |Cuts(ps, lo, limit)| == 1 + LongOnes(ps, ps[lo].addr, lo + 1, limit) + |Cuts(ps, e, limit)|
    ensures WellLed(ps, lo, limit) <==> FairLead(ps, lo, limit) && WellLed(ps, e, limit)
  {
    assert Cuts(ps, lo, limit) == [next] + Cuts(ps, next, limit);
  }

  /** From the first group led at an address on, every oversized point there counts. */
  lemma FirstBlock(ps: seq<Span>, lo: nat, limit: int) returns (e: nat)
    requires Sorted(ps) && LeadsFirst(ps, lo, limit)
    ensures lo < e && NextAddress(ps, ps[lo].addr, e, limit)
    ensures |Cuts(ps, lo, limit)|
         == LongOnes(ps, ps[lo].addr, 0, limit) + (if Oversized(ps[lo], limit) then 0 else 1) + |Cuts(ps, e, limit)|
    ensures WellLed(ps, lo, limit) <==> FairLead(ps, lo, limit) && WellLed(ps, e, limit)
  {
    e := Block(ps, lo, limit);
    NoneBetween(ps, ps[lo].addr, 0, lo, limit);
  }

  // ----- the count of oversized points does not depend on the order -----

  function LongAt(ps: seq<Span>, a: nat, limit: int): seq<Span> {
    if ps == [] then []
    else (if ps[0].addr == a && Oversized(ps[0], limit) then [ps[0]] else []) + LongAt(ps[1..], a, limit)
  }

  lemma {:induction false} LongAtCount(ps: seq<Span>, a: nat, limit: int, p: Span)
    ensures multiset(LongAt(ps, a, limit))[p] == if p.addr == a && Oversized(p, limit) then multiset(ps)[p] else 0
  {
    if ps != [] {
      LongAtCount(ps[1..], a, limit, p);
      assert ps == [ps[0]] + ps[1..];
    }
  }

  lemma {:induction false} LongOnesAt(ps: seq<Span>, a: nat, i: nat, limit: int)
    requires i <= |ps|
    ensures LongOnes(ps, a, i, limit) == |LongAt(ps[i..], a, limit)|
    decreases |ps| - i
  {
    if i < |ps| {
      LongOnesAt(ps, a, i + 1, limit);
      assert ps[i..][1..] == ps[i + 1..];
    }
  }

  lemma SameLongOnes(ps: seq<Span>, qs: seq<Span>, a: nat, limit: int)
    requires multiset(ps) == multiset(qs)
    ensures LongOnes(ps, a, 0, limit) == LongOnes(qs, a, 0, limit)
  {
    LongOnesAt(ps, a, 0, limit);
    LongOnesAt(qs, a, 0, limit);
    assert ps[0..] == ps && qs[0..] == qs;
    var x, y := LongAt(ps, a, limit), LongAt(qs, a, limit);
    forall p ensures multiset(x)[p] == multiset(y)[p] {
      LongAtCount(ps, a, limit, p);
      LongAtCount(qs, a, limit, p);
    }
    assert multiset(x) == multiset(y);
    assert |x| == |multiset(x)| && |y| == |multiset(y)|;
  }

  // ----- comparing orders -----

  /** With longer points first, a group is led by an oversized point wherever there is one. */
  lemma LongestLeads(qs: seq<Span>, lo: nat, limit: int)
    requires LongestFirst(qs) && LeadsFirst(qs, lo, limit)
    ensures FairLead(qs, lo, limit)
  {
    forall p | p in qs && p.addr == qs[lo].addr && Oversized(p, limit) ensures Oversized(qs[lo], limit) {
      var j :| 0 <= j < |qs| && qs[j] == p;
    }
  }

  lemma SameAddress(ps: seq<Span>, qs: seq<Span>, a: nat, e: nat, f: nat, limit: int)
    requires SameSpans(ps, qs) && NextAddress(ps, a, e, limit) && NextAddress(qs, a, f, limit)
    ensures e == |ps| <==> f == |qs|
    ensures e < |ps| && f < |qs| ==> ps[e].addr == qs[f].addr
  {
    forall b: nat ensures Breaks(ps, a, b, limit) <==> Breaks(qs, a, b, limit) {
      SameBreaks(ps, qs, a, b, limit);
    }
    if e < |ps| && f < |qs| {
      SameFirstBreak(ps, qs, a, ps[e].addr, qs[f].addr, limit);
    }
  }

  /** An unfair lead costs one request more than a fair one at the same address. */
  lemma LeadCosts(ps: seq<Span>, qs: seq<Span>, lo: nat, lo': nat, limit: int)
    requires SameSpans(ps, qs) && lo < |ps| && lo' < |qs| && ps[lo].addr == qs[lo'].addr && FairLead(qs, lo', limit)
    ensures FairLead(ps, lo, limit) <==> (Oversized(ps[lo], limit) <==> Oversized(qs[lo'], limit))
    ensures !FairLead(ps, lo, limit) ==> !Oversized(ps[lo], limit) && Oversized(qs[lo'], limit)
  {
    assert ps[lo] in ps && ps[lo] in qs && qs[lo'] in qs && qs[lo'] in ps;
  }

  /** The order at hand against the one with longer points first, from groups at the same address on. */
  lemma {:induction false} Compare(ps: seq<Span>, qs: seq<Span>, lo: nat, lo': nat, limit: int)
    requires Sorted(ps) && Sorted(qs) && multiset(ps) == multiset(qs) && SameSpans(ps, qs) && LongestFirst(qs)
    requires LeadsFirst(ps, lo, limit) && LeadsFirst(qs, lo', limit) && ps[lo].addr == qs[lo'].addr
    ensures |Cuts(qs, lo', limit)| <= |Cuts(ps, lo, limit)|
    ensures |Cuts(qs, lo', limit)| == |Cuts(ps, lo, limit)| <==> WellLed(ps, lo, limit)
    decreases |ps| - lo
  {
    var a := ps[lo].addr;
    var e := FirstBlock(ps, lo, limit);
    var f := FirstBlock(qs, lo', limit);
    SameLongOnes(ps, qs, a, limit);
    LongestLeads(qs, lo', limit);
    LeadCosts(ps, qs, lo, lo', limit);
    SameAddress(ps, qs, a, e, f, limit);
    if e < |ps| {
      Compare(ps, qs, e, f, limit);
    }
  }

  lemma FirstLeadsFirst(ps: seq<Span>, limit: int)
    requires ps != []
    ensures LeadsFirst(ps, 0, limit)
  {
  }

  /**
   * The sorted order with longer points first needs the fewest requests, and another sorted order of
   * the same points needs as few if and only if all its groups are fairly led.
   */
  lemma LongestFirstIsBest(ps: seq<Span>, qs: seq<Span>, limit: int)
    requires Sorted(ps) && Sorted(qs) && multiset(ps) == multiset(qs) && LongestFirst(qs)
    ensures |Cuts(qs, 0, limit)| <= |Cuts(ps, 0, limit)|
    ensures |Cuts(qs, 0, limit)| == |Cuts(ps, 0, limit)| <==> WellLed(ps, 0, limit)
  {
    SameMultiset(ps, qs);
    assert |ps| == |multiset(ps)| == |qs|;
    if ps != [] {
      assert ps[0] in qs && qs[0] in ps;
      FirstLeadsFirst(ps, limit);
      FirstLeadsFirst(qs, limit);
      Compare(ps, qs, 0, 0, limit);
    }
  }

  // ----- such an order exists -----

  predicate Before(p: Span, q: Span) { p.addr < q.addr || (p.addr == q.addr && p.words >= q.words) }

  ghost predicate Arranged(ps: seq<Span>) {
    forall i, j :: 0 <= i < j < |ps| ==> Before(ps[i], ps[j])
  }

  function Place(p: Span, ps: seq<Span>): seq<Span> {
    if ps == [] || Before(p, ps[0]) then [p] + ps else [ps[0]] + Place(p, ps[1..])
  }

  lemma {:induction false} PlaceArranges(p: Span, ps: seq<Span>)
    requires Arranged(ps)
    ensures Arranged(Place(p, ps)) && multiset(Place(p, ps)) == multiset(ps) + multiset{p}
  {
    if ps == [] || Before(p, ps[0]) {
      assert forall i :: 0 < i < |ps| ==> Before(ps[0], ps[i]);
    } else {
      var rest := Place(p, ps[1..]);
      PlaceArranges(p, ps[1..]);
      assert ps == [ps[0]] + ps[1..];
      forall q | q in rest ensures Before(ps[0], q) {
        assert q in multiset(rest);
        assert q == p || q in ps[1..];
      }
    }
  }

  function Arrange(ps: seq<Span>): seq<Span> {
    if ps == [] then [] else Place(ps[0], Arrange(ps[1..]))
  }

  lemma {:induction false} ArrangeArranges(ps: seq<Span>)
    ensures Arranged(Arrange(ps)) && multiset(Arrange(ps)) == multiset(ps)
  {
    if ps != [] {
      ArrangeArranges(ps[1..]);
      PlaceArranges(ps[0], Arrange(ps[1..]));
      assert ps == [ps[0]] + ps[1..];
    }
  }

  lemma LongestOrder(ps: seq<Span>) returns (qs: seq<Span>)
    ensures multiset(qs) == multiset(ps) && Sorted(qs) && LongestFirst(qs)
  {
    qs := Arrange(ps);
    ArrangeArranges(ps);
  }

  ghost predicate IsBest(ps: seq<Span>, limit: int) {
    forall rs :: Sorted(rs) && multiset(rs) == multiset(ps) ==> |Cuts(ps, 0, limit)| <= |Cuts(rs, 0, limit)|
  }

  /** However the sort broke ties, the number of requests is the least over all sorted orders exactly when all groups are fairly led. */
  lemma BestWhenWellLed(ps: seq<Span>, limit: int)
    requires Sorted(ps)
    ensures IsBest(ps, limit) <==> WellLed(ps, 0, limit)
  {
    var qs := LongestOrder(ps);
    LongestFirstIsBest(ps, qs, limit);
    forall rs | Sorted(rs) && multiset(rs) == multiset(ps) ensures |Cuts(qs, 0, limit)| <= |Cuts(rs, 0, limit)| {
      LongestFirstIsBest(rs, qs, limit);
    }
  }

  /** A point that exceeds the limit has its address to itself. */
  ghost predicate TiesFit(ps: seq<Span>, limit: int) {
    forall i, j :: 0 <= i < |ps| && 0 <= j < |ps| && i != j && ps[i].addr == ps[j].addr ==> ps[i].words <= limit
  }

  lemma {:induction false} TiesFitIsWellLed(ps: seq<Span>, lo: nat, limit: int)
    requires TiesFit(ps, limit) && lo <= |ps|
    ensures WellLed(ps, lo, limit)
    decreases |ps| - lo
  {
    if lo < |ps| {
      forall p | p in ps && p.addr == ps[lo].addr && Oversized(p, limit) ensures Oversized(ps[lo], limit) {
        var j :| 0 <= j < |ps| && ps[j] == p;
      }
      TiesFitIsWellLed(ps, GroupEnd(ps, lo, lo + 1, limit), limit);
    }
  }

  /** Two sorted orders make the same number of requests if both are well led, as they are when no oversized point shares its address. */
  lemma TiesDoNotMatter(ps: seq<Span>, qs: seq<Span>, limit: int)
    requires Sorted(ps) && Sorted(qs) && multiset(ps) == multiset(qs)
    requires WellLed(ps, 0, limit) || TiesFit(ps, limit)
    requires WellLed(qs, 0, limit) || TiesFit(qs, limit)
    ensures |Cuts(ps, 0, limit)| == |Cuts(qs, 0, limit)|
  {
    if TiesFit(ps, limit) {
      TiesFitIsWellLed(ps, 0, limit);
    }
    if TiesFit(qs, limit) {
      TiesFitIsWellLed(qs, 0, limit);
    }
    BestWhenWellLed(ps, limit);
    BestWhenWellLed(qs, limit);
  }

  /** Without the condition they do: a long point behind a short one at the same address. */
  lemma TiesCanMatter()
    ensures var ps, qs := [Span(0, 1), Span(0, 100)], [Span(0, 100), Span(0, 1)];
      && Sorted(ps) && Sorted(qs) && multiset(ps) == multiset(qs)
      && |Cuts(ps, 0, 64)| == 2 && |Cuts(qs, 0, 64)| == 1
  {
    var ps, qs := [Span(0, 1), Span(0, 100)], [Span(0, 100), Span(0, 1)];
    assert multiset(ps) == multiset{Span(0, 1), Span(0, 100)} == multiset(qs);
    assert MaxEnd(ps, 0, 1) == 1 && !Joins(ps, 0, 1, 64);
    assert GroupEnd(ps, 0, 1, 64) == 1 && GroupEnd(ps, 1, 2, 64) == 2;
    assert Cuts(ps, 2, 64) == [] && Cuts(ps, 1, 64) == [2];
    assert MaxEnd(qs, 0, 1) == 100 && Joins(qs, 0, 1, 64);
    assert GroupEnd(qs, 0, 2, 64) == 2 && GroupEnd(qs, 0, 1, 64) == 2;
    assert Cuts(qs, 2, 64) == [];
  }

  // ----- the planner's lists -----

  function Without(ns: seq<Member>, j: nat): seq<Member>
    requires j < |ns|
  {
    ns[..j] + ns[j + 1..]
  }

  lemma SpansSplit(ns: seq<Member>, j: nat)
    requires j < |ns|
    ensures multiset(Spans(ns)) == multiset(Spans(Without(ns, j))) + multiset{SpanOf(ns[j])}
  {
    assert Spans(Without(ns, j)) == Spans(ns)[..j] + Spans(ns)[j + 1..];
    assert Spans(ns) == Spans(ns)[..j] + [SpanOf(ns[j])] + Spans(ns)[j + 1..];
  }

  lemma WithoutOne(ns: seq<Member>, j: nat)
    requires j < |ns|
    ensures multiset(Without(ns, j)) == multiset(ns) - multiset{ns[j]} && |Without(ns, j)| == |ns| - 1
  {
    assert ns == ns[..j] + [ns[j]] + ns[j + 1..];
  }

  lemma SamePlace(ms: seq<Member>, ns: seq<Member>) returns (j: nat)
    requires multiset(ms) == multiset(ns) && ms != []
    ensures j < |ns| && ns[j] == ms[0] && multiset(Without(ms, 0)) == multiset(Without(ns, j))
    ensures |Without(ms, 0)| < |ms|
  {
    assert ms[0] in multiset(ns);
    j :| 0 <= j < |ns| && ns[j] == ms[0];
    WithoutOne(ms, 0);
    WithoutOne(ns, j);
  }

  lemma {:induction false} SpansOfSame(ms: seq<Member>, ns: seq<Member>)
    requires multiset(ms) == multiset(ns)
    ensures multiset(Spans(ms)) == multiset(Spans(ns))
    decreases |ms|
  {
    if ms == [] {
      assert |ns| == |multiset(ms)|;
    } else {
      var j := SamePlace(ms, ns);
      SpansOfSame(Without(ms, 0), Without(ns, j));
      SpansSplit(ms, 0);
      SpansSplit(ns, j);
    }
  }

  /**
   * Minimal over all orders: where all groups are fairly led, no legal grouping of any sorted order of
   * the same points uses fewer requests than the planner.
   */
  lemma MinimalOverAllOrders(area: byte, ms: seq<Member>, ns: seq<Member>, limit: int, cuts: seq<nat>)
    requires InOrder(ms) && InOrder(ns) && multiset(ms) == multiset(ns)
    requires WellLed(Spans(ms), 0, limit) && IsPartition(Spans(ns), 0, cuts, limit)
    ensures |WordGroups(area, ms, 0, limit)| <= |cuts|
  {
    InOrderSpans(ms);
    InOrderSpans(ns);
    SpansOfSame(ms, ns);
    BestWhenWellLed(Spans(ms), limit);
    GreedyIsOptimal(Spans(ns), cuts, limit);
  }
}
