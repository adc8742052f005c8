/**
 * The three request counters under concurrent reads, writes and resets. A reset is three separate
 * stores; other requests may begin and end between them.
 */
module Counters {

  /** Which of the three stores of a reset come next. */
  datatype Phase = Idle | TotalCleared | SuccessCleared

  /** `inFlight` counts requests begun and not yet counted as success or failure. */
  datatype State = State(total: int, success: int, failure: int, inFlight: nat, phase: Phase)

  datatype Event = Begin | Succeed | Fail | ClearTotal | ClearSuccess | ClearFailure

  predicate Enabled(s: State, e: Event) {
    match e
    case Begin => true
    case Succeed => s.inFlight > 0
    case Fail => s.inFlight > 0
    case ClearTotal => s.phase.Idle?
    case ClearSuccess => s.phase.TotalCleared?
    case ClearFailure => s.phase.SuccessCleared?
  }

  function Apply(s: State, e: Event): State
    requires Enabled(s, e)
  {
    match e
    case Begin => s.(total := s.total + 1, inFlight := s.inFlight + 1)
    case Succeed => s.(success := s.success + 1, inFlight := s.inFlight - 1)
    case Fail => s.(failure := s.failure + 1, inFlight := s.inFlight - 1)
    case ClearTotal => s.(total := 0, phase := TotalCleared)
    case ClearSuccess => s.(success := 0, phase := SuccessCleared)
    case ClearFailure => s.(failure := 0, phase := Idle)
  }

  ghost predicate Runs(s: State, es: seq<Event>, t: State)
    decreases |es|
  {
    if es == [] then s == t else Enabled(s, es[0]) && Runs(Apply(s, es[0]), es[1..], t)
  }

  const START := State(0, 0, 0, 0, Idle)

  predicate Balanced(s: State) { s.total == s.success + s.failure + s.inFlight }

  // ----- exact accounting -----

  /**
   * What the last reset left behind: requests in flight when it cleared the total, less those
   * whose success or failure it then cleared too. `s0` and `f0` are the counters as they stood
   * when the total was cleared.
   */
  datatype Ledger = Ledger(debt: int, s0: int, f0: int)

  function Record(s: State, l: Ledger, e: Event): Ledger {
    match e
    case ClearTotal => Ledger(s.inFlight, s.success, s.failure)
    case ClearSuccess => l.(debt := l.debt - (s.success - l.s0))
    case ClearFailure => l.(debt := l.debt - (s.failure - l.f0))
    case _ => l
  }

  function RecordAll(s: State, l: Ledger, es: seq<Event>, t: State): Ledger
    requires Runs(s, es, t)
    decreases |es|
  {
    if es == [] then l else RecordAll(Apply(s, es[0]), Record(s, l, es[0]), es[1..], t)
  }

  predicate Accounted(s: State, l: Ledger) {
    match s.phase
    case Idle => s.total + l.debt == s.success + s.failure + s.inFlight
    case TotalCleared => s.total + l.debt == (s.success - l.s0) + (s.failure - l.f0) + s.inFlight
    case SuccessCleared => s.total + l.debt == s.success + (s.failure - l.f0) + s.inFlight
  }

  lemma {:induction false} AccountedRun(s: State, l: Ledger, es: seq<Event>, t: State)
    requires Accounted(s, l) && Runs(s, es, t)
    ensures Accounted(t, RecordAll(s, l, es, t))
    decreases |es|
  {
    if es != [] {
      AccountedRun(Apply(s, es[0]), Record(s, l, es[0]), es[1..], t);
    }
  }

  /** In every run, resets at any moment included, the counters are off by exactly the debt. */
  lemma {:induction false} OffByTheDebt(es: seq<Event>, t: State)
    requires Runs(START, es, t) && t.phase.Idle?
    ensures t.total + RecordAll(START, Ledger(0, 0, 0), es, t).debt == t.success + t.failure + t.inFlight
    ensures Balanced(t) <==> RecordAll(START, Ledger(0, 0, 0), es, t).debt == 0
  {
    AccountedRun(START, Ledger(0, 0, 0), es, t);
  }

  // ----- resets when idle -----

  /** A reset starts with nothing in flight, and nothing begins until it ends. */
  predicate Allowed(s: State, e: Event) {
    Enabled(s, e) && (e.ClearTotal? ==> s.inFlight == 0) && (e.Begin? ==> s.phase.Idle?)
  }

  ghost predicate Quiet(s: State, es: seq<Event>, t: State)
    decreases |es|
  {
    if es == [] then s == t else Allowed(s, es[0]) && Quiet(Apply(s, es[0]), es[1..], t)
  }

  /** The counters balance; during a quiet reset nothing is in flight and what was cleared stays so. */
  predicate Conserving(s: State) {
    match s.phase
    case Idle => Balanced(s)
    case TotalCleared => s.total == 0 && s.inFlight == 0
    case SuccessCleared => s.total == s.success == 0 && s.inFlight == 0
  }

  lemma QuietStep(s: State, e: Event)
    requires Conserving(s) && Allowed(s, e)
    ensures Conserving(Apply(s, e))
  {
  }

  /**
   * With resets only when idle, every interleaving from a conserving state, such as START, ends in
   * one: outside a reset total = success + failure + in flight.
   */
  lemma {:induction false} CountersConserve(s: State, es: seq<Event>, t: State)
    requires Conserving(s) && Quiet(s, es, t)
    ensures Conserving(t)
    decreases |es|
  {
    if es != [] {
      QuietStep(s, es[0]);
      CountersConserve(Apply(s, es[0]), es[1..], t);
    }
  }

  /** An undisturbed reset leaves the counters conserved exactly when it met nothing in flight. */
  lemma ResetKeepsBalanceWhenIdle(s: State, t: State)
    requires Runs(s, [ClearTotal, ClearSuccess, ClearFailure], t)
    ensures Balanced(t) <==> s.inFlight == 0
  {
    var es := [ClearTotal, ClearSuccess, ClearFailure];
    assert es[1..] == [ClearSuccess, ClearFailure] && es[1..][1..] == [ClearFailure];
    assert es[1..][1..][1..] == [];
    assert Runs(Apply(s, ClearTotal), [ClearSuccess, ClearFailure], t);
  }
}
