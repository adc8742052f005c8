/**
 * Response multiplexing: concurrent commands draw an 8-bit service id, register a response
 * channel under it, write, wait and clean up, while readers look entries up and deliver, and a
 * disconnect closes what is left. Every lock-protected section and every channel operation is
 * one step, and steps of different goroutines interleave freely.
 */
module Mux {
  import opened Bytes
  import opened Protocol

  /** How a command ends. */
  datatype Outcome = Reply(frame: FinsFrame) | ConnectionClosed | Failed

  datatype Phase =
    | Drawn                          // has a service id
    | Registered                     // channel is in the map, request not yet written
    | Waiting                        // request written
    | Finishing(outcome: Outcome)    // result chosen, deferred delete still to run
    | Returned(outcome: Outcome)

  /** The one-slot response channel of a command, with its history. */
  datatype Channel = Channel(buffer: Option<FinsFrame>, sends: nat, closes: nat)

  datatype Command = Command(sid: byte, payload: seq<byte>, phase: Phase, chan: Channel)

  /** A reader that removed an entry and has not yet sent on its channel. */
  datatype Held = Held(cmd: nat, frame: FinsFrame)

  /**
   * Commands are numbered in the order they draw. `drops` counts deliveries that found the slot
   * full, `panics` counts sends on a closed channel; each channel counts its own closes.
   */
  datatype State = State(
    counter: byte, chans: map<byte, nat>, cmds: seq<Command>, held: map<nat, Held>, drops: nat, panics: nat)

  datatype Action =
    | Draw(payload: seq<byte>)
    | Register(c: nat)
    | Write(c: nat)
    | FailWrite(c: nat)
    | LookUp(reader: nat, frame: FinsFrame)
    | Deliver(reader: nat)
    | Receive(c: nat)
    | GiveUp(c: nat)                 // timeout or cancelled context
    | Return(c: nat)                 // deferred delete, then return
    | Sweep                          // disconnect

  function Init(): State {
    State(0, map[], [], map[], 0, 0)
  }

  /** The 8-bit counter skips zero when it wraps. */
  function NextSid(counter: byte): (sid: byte)
    ensures sid != 0
  {
    var n := (counter + 1) % 256;
    if n == 0 then 1 else n
  }

  predicate At(s: State, c: nat, p: Phase) {
    c < |s.cmds| && s.cmds[c].phase == p
  }

  predicate Enabled(s: State, a: Action) {
    match a
    case Draw(payload) => |payload| >= 2
    case Register(c) => At(s, c, Drawn)
    case Write(c) => At(s, c, Registered)
    case FailWrite(c) => At(s, c, Registered)
    case LookUp(r, _) => r !in s.held
    case Deliver(r) => r in s.held && s.held[r].cmd < |s.cmds|
    case Receive(c) => At(s, c, Waiting) && (s.cmds[c].chan.buffer.Some? || s.cmds[c].chan.closes > 0)
    case GiveUp(c) => At(s, c, Waiting)
    case Return(c) => c < |s.cmds| && s.cmds[c].phase.Finishing?
    case Sweep => true
  }

  function SetPhase(s: State, c: nat, p: Phase): State
    requires c < |s.cmds|
  {
    s.(cmds := s.cmds[c := s.cmds[c].(phase := p)])
  }

  function SetChan(s: State, c: nat, ch: Channel): State
    requires c < |s.cmds|
  {
    s.(cmds := s.cmds[c := s.cmds[c].(chan := ch)])
  }

  /** A non-blocking send on the command's channel. */
  function SendOn(s: State, c: nat, frame: FinsFrame): State
    requires c < |s.cmds|
  {
    var ch := s.cmds[c].chan;
    if ch.closes > 0 then s.(panics := s.panics + 1)
    else if ch.buffer.Some? then s.(drops := s.drops + 1)
    else SetChan(s, c, ch.(buffer := Some(frame), sends := ch.sends + 1))
  }

  /** How often the sweep meets command `c` in the map. */
  function Entries(chans: map<byte, nat>, c: nat): nat {
    |set k | k in chans && chans[k] == c|
  }

  function Swept(s: State): State {
    s.(chans := map[],
       cmds := seq(|s.cmds|, i requires 0 <= i < |s.cmds| =>
         s.cmds[i].(chan := s.cmds[i].chan.(closes := s.cmds[i].chan.closes + Entries(s.chans, i)))))
  }

  function Apply(s: State, a: Action): State
    requires Enabled(s, a)
  {
    match a
    case Draw(payload) =>
      var sid := NextSid(s.counter);
      s.(counter := sid, cmds := s.cmds + [Command(sid, payload, Drawn, Channel(None, 0, 0))])
    case Register(c) => SetPhase(s, c, Registered).(chans := s.chans[s.cmds[c].sid := c])
    case Write(c) => SetPhase(s, c, Waiting)
    case FailWrite(c) => SetPhase(s, c, Finishing(Failed))
    case LookUp(r, frame) =>
      var sid := frame.header.sid;
      if sid in s.chans then
        s.(chans := s.chans - {sid}, held := s.held[r := Held(s.chans[sid], frame)])
      else s
    case Deliver(r) => SendOn(s, s.held[r].cmd, s.held[r].frame).(held := s.held - {r})
    case Receive(c) =>
      var ch := s.cmds[c].chan;
      if ch.buffer.Some? then
        SetPhase(SetChan(s, c, ch.(buffer := None)), c, Finishing(Reply(ch.buffer.value)))
      else SetPhase(s, c, Finishing(ConnectionClosed))
    case GiveUp(c) => SetPhase(s, c, Finishing(Failed))
    case Return(c) =>
      SetPhase(s, c, Returned(s.cmds[c].phase.outcome)).(chans := s.chans - {s.cmds[c].sid})
    case Sweep => Swept(s)
  }

  /** A run: the actions of all goroutines in one interleaved order. */
  ghost predicate Runs(s: State, acts: seq<Action>, t: State)
    decreases |acts|
  {
    if acts == [] then s == t
    else Enabled(s, acts[0]) && Runs(Apply(s, acts[0]), acts[1..], t)
  }

  // ----- the invariant -----

  predicate Untouched(ch: Channel) {
    ch == Channel(None, 0, 0)
  }

  predicate InFlight(p: Phase) {
    p.Registered? || p.Waiting? || p.Finishing?
  }

  /** The service id of the c-th command. */
  function SidAt(c: nat): (sid: byte)
    ensures sid != 0
  {
    c % 255 + 1
  }

  /** A map entry is a command that has not returned, under its own id, its channel untouched. */
  predicate EntryOk(s: State, k: byte)
    requires k in s.chans
  {
    && s.chans[k] < |s.cmds|
    && var cmd := s.cmds[s.chans[k]];
    cmd.sid == k && InFlight(cmd.phase) && Untouched(cmd.chan)
  }

  /** A held channel is untouched and out of the map, and its frame carries the command's id. */
  predicate HeldOk(s: State, r: nat)
    requires r in s.held
  {
    var c := s.held[r].cmd;
    && c < |s.cmds|
    && Untouched(s.cmds[c].chan) && !s.cmds[c].phase.Drawn?
    && s.held[r].frame.header.sid == s.cmds[c].sid
    && (s.cmds[c].sid in s.chans ==> s.chans[s.cmds[c].sid] != c)
  }

  predicate CommandOk(s: State, c: nat)
    requires c < |s.cmds|
  {
    var cmd := s.cmds[c];
    && cmd.sid == SidAt(c) && |cmd.payload| >= 2
    && cmd.chan.sends + cmd.chan.closes <= 1
    && (cmd.chan.buffer.Some? ==> cmd.chan.sends == 1 && cmd.chan.buffer.value.header.sid == cmd.sid)
    && (cmd.phase.Drawn? ==> Untouched(cmd.chan))
  }

  ghost predicate Inv(s: State) {
    && s.counter == (if s.cmds == [] then 0 else SidAt(|s.cmds| - 1))
    && (forall k :: k in s.chans ==> EntryOk(s, k))
    && (forall r :: r in s.held ==> HeldOk(s, r))
    && (forall q, r :: q in s.held && r in s.held && q != r ==> s.held[q].cmd != s.held[r].cmd)
    && (forall c :: 0 <= c < |s.cmds| ==> CommandOk(s, c))
    && s.drops == 0 && s.panics == 0
  }

  lemma OneEntry(s: State, c: nat)
    requires forall k :: k in s.chans ==> EntryOk(s, k)
    requires c < |s.cmds|
    ensures Entries(s.chans, c) <= 1
    ensures Entries(s.chans, c) == 1 <==> s.cmds[c].sid in s.chans && s.chans[s.cmds[c].sid] == c
  {
    var sid := s.cmds[c].sid;
    var keys := set k | k in s.chans && s.chans[k] == c;
    if sid in s.chans && s.chans[sid] == c {
      assert keys == {sid};
    } else {
      assert keys == {};
    }
  }

  lemma InvSweep(s: State)
    requires Inv(s)
    ensures Inv(Swept(s))
  {
    var t := Swept(s);
    forall c | 0 <= c < |t.cmds| ensures CommandOk(t, c) {
      OneEntry(s, c);
      assert CommandOk(s, c);
      if Entries(s.chans, c) == 1 {
        assert EntryOk(s, s.cmds[c].sid);
      }
    }
    forall r | r in t.held ensures HeldOk(t, r) {
      assert HeldOk(s, r);
      OneEntry(s, s.held[r].cmd);
    }
  }

  lemma InvDraw(s: State, payload: seq<byte>)
    requires Inv(s) && |payload| >= 2
    ensures Inv(Apply(s, Draw(payload)))
  {
    var t := Apply(s, Draw(payload));
    var n := |s.cmds|;
    assert NextSid(s.counter) == SidAt(n);
    forall c | 0 <= c < |t.cmds| ensures CommandOk(t, c) {
      if c < n {
        assert CommandOk(s, c);
      }
    }
    forall k | k in t.chans ensures EntryOk(t, k) {
      assert EntryOk(s, k);
    }
    forall r | r in t.held ensures HeldOk(t, r) {
      assert HeldOk(s, r);
    }
  }

  lemma InvRegister(s: State, c: nat)
    requires Inv(s) && At(s, c, Drawn)
    ensures Inv(Apply(s, Register(c)))
  {
    var t := Apply(s, Register(c));
    forall k | k in t.chans ensures EntryOk(t, k) {
      if k != s.cmds[c].sid {
        assert EntryOk(s, k);
      } else {
        assert CommandOk(s, c);
      }
    }
    forall r | r in t.held ensures HeldOk(t, r) {
      assert HeldOk(s, r);
    }
    forall d | 0 <= d < |t.cmds| ensures CommandOk(t, d) {
      assert CommandOk(s, d);
    }
  }

  /** Moving a command between in-flight phases touches neither map nor channels. */
  lemma InvPhase(s: State, c: nat, p: Phase)
    requires Inv(s) && c < |s.cmds| && InFlight(s.cmds[c].phase) && InFlight(p)
    ensures Inv(SetPhase(s, c, p))
  {
    var t := SetPhase(s, c, p);
    forall k | k in t.chans ensures EntryOk(t, k) {
      assert EntryOk(s, k);
    }
    forall r | r in t.held ensures HeldOk(t, r) {
      assert HeldOk(s, r);
    }
    forall d | 0 <= d < |t.cmds| ensures CommandOk(t, d) {
      assert CommandOk(s, d);
    }
  }

  lemma InvLookUp(s: State, r: nat, frame: FinsFrame)
    requires Inv(s) && r !in s.held
    ensures Inv(Apply(s, LookUp(r, frame)))
  {
    var t := Apply(s, LookUp(r, frame));
    var sid := frame.header.sid;
    if sid in s.chans {
      assert EntryOk(s, sid);
      forall k | k in t.chans ensures EntryOk(t, k) {
        assert EntryOk(s, k);
      }
      forall q | q in t.held ensures HeldOk(t, q) {
        if q != r {
          assert HeldOk(s, q);
        }
      }
      forall q, u | q in t.held && u in t.held && q != u ensures t.held[q].cmd != t.held[u].cmd {
        if q == r {
          assert HeldOk(s, u);
        } else if u == r {
          assert HeldOk(s, q);
        }
      }
      forall d | 0 <= d < |t.cmds| ensures CommandOk(t, d) {
        assert CommandOk(s, d);
      }
    }
  }

  /** The delivery: the channel is open and its slot empty, so neither panic nor drop happens. */
  lemma InvDeliver(s: State, r: nat)
    requires Inv(s) && r in s.held && s.held[r].cmd < |s.cmds|
    ensures Inv(Apply(s, Deliver(r)))
  {
    var t := Apply(s, Deliver(r));
    var c := s.held[r].cmd;
    assert HeldOk(s, r);
    forall k | k in t.chans ensures EntryOk(t, k) {
      assert EntryOk(s, k);
    }
    forall q | q in t.held ensures HeldOk(t, q) {
      assert HeldOk(s, q);
    }
    forall d | 0 <= d < |t.cmds| ensures CommandOk(t, d) {
      assert CommandOk(s, d);
    }
  }

  lemma InvReceive(s: State, c: nat)
    requires Inv(s) && Enabled(s, Receive(c))
    ensures Inv(Apply(s, Receive(c)))
  {
    var ch := s.cmds[c].chan;
    if ch.buffer.Some? {
      var t := Apply(s, Receive(c));
      assert CommandOk(s, c);
      forall k | k in t.chans ensures EntryOk(t, k) {
        assert EntryOk(s, k);
      }
      forall r | r in t.held ensures HeldOk(t, r) {
        assert HeldOk(s, r);
      }
      forall d | 0 <= d < |t.cmds| ensures CommandOk(t, d) {
        assert CommandOk(s, d);
      }
    } else {
      InvPhase(s, c, Finishing(ConnectionClosed));
    }
  }

  lemma InvReturn(s: State, c: nat)
    requires Inv(s) && Enabled(s, Return(c))
    ensures Inv(Apply(s, Return(c)))
  {
    var t := Apply(s, Return(c));
    forall k | k in t.chans ensures EntryOk(t, k) {
      assert EntryOk(s, k);
    }
    forall r | r in t.held ensures HeldOk(t, r) {
      assert HeldOk(s, r);
    }
    forall d | 0 <= d < |t.cmds| ensures CommandOk(t, d) {
      assert CommandOk(s, d);
    }
  }

  lemma InvStep(s: State, a: Action)
    requires Inv(s) && Enabled(s, a)
    ensures Inv(Apply(s, a))
  {
    match a
    case Draw(payload) => InvDraw(s, payload);
    case Register(c) => InvRegister(s, c);
    case Write(c) => InvPhase(s, c, Waiting);
    case FailWrite(c) => InvPhase(s, c, Finishing(Failed));
    case LookUp(r, frame) => InvLookUp(s, r, frame);
    case Deliver(r) => InvDeliver(s, r);
    case Receive(c) => InvReceive(s, c);
    case GiveUp(c) => InvPhase(s, c, Finishing(Failed));
    case Return(c) => InvReturn(s, c);
    case Sweep => InvSweep(s);
  }

  lemma {:induction false} InvRun(s: State, acts: seq<Action>, t: State)
    requires Inv(s) && Runs(s, acts, t)
    ensures Inv(t)
    decreases |acts|
  {
    if acts != [] {
      InvStep(s, acts[0]);
      InvRun(Apply(s, acts[0]), acts[1..], t);
    }
  }

  // ----- what every run guarantees -----

  /**
   * In every interleaving, collisions and any number of readers and sweeps included, a channel
   * is sent to at most once or closed at most once, never both; no send meets a closed channel
   * or a full slot, and no channel is closed twice.
   */
  lemma ChannelsAreOwned(acts: seq<Action>, t: State)
    requires Runs(Init(), acts, t)
    ensures forall c :: 0 <= c < |t.cmds| ==> t.cmds[c].chan.sends + t.cmds[c].chan.closes <= 1
    ensures t.panics == 0 && t.drops == 0
  {
    InvRun(Init(), acts, t);
    forall c | 0 <= c < |t.cmds| ensures t.cmds[c].chan.sends + t.cmds[c].chan.closes <= 1 {
      assert CommandOk(t, c);
    }
  }

  /** Every entry belongs to a command that has registered and not returned; none are left over. */
  lemma NoLeakedEntries(acts: seq<Action>, t: State)
    requires Runs(Init(), acts, t)
    ensures forall k :: k in t.chans ==> t.chans[k] < |t.cmds| && InFlight(t.cmds[t.chans[k]].phase)
    ensures (forall c :: 0 <= c < |t.cmds| ==> !InFlight(t.cmds[c].phase)) ==> t.chans == map[]
  {
    InvRun(Init(), acts, t);
    forall k | k in t.chans ensures t.chans[k] < |t.cmds| && InFlight(t.cmds[t.chans[k]].phase) {
      assert EntryOk(t, k);
    }
    if forall c :: 0 <= c < |t.cmds| ==> !InFlight(t.cmds[c].phase) {
      assert t.chans.Keys == {};
    }
  }

  /** Ids are never zero, and two draws share one exactly when 255 divides their distance. */
  lemma SidsRepeatEvery255(acts: seq<Action>, t: State, i: nat, j: nat)
    requires Runs(Init(), acts, t) && i < |t.cmds| && j < |t.cmds|
    ensures t.cmds[i].sid != 0
    ensures t.cmds[i].sid == t.cmds[j].sid <==> (i - j) % 255 == 0
  {
    InvRun(Init(), acts, t);
    assert CommandOk(t, i) && CommandOk(t, j);
    SameResidue(i, j);
  }

  lemma SameResidue(i: nat, j: nat)
    ensures i % 255 == j % 255 <==> (i - j) % 255 == 0
  {
  }

  lemma NearIdsDiffer(i: nat, j: nat)
    requires 0 < i - j <= 254
    ensures SidAt(i) != SidAt(j)
  {
    SameResidue(i, j);
  }

  lemma NextIsSidAt(s: State)
    requires Inv(s)
    ensures NextSid(s.counter) == SidAt(|s.cmds|)
  {
  }

  predicate Live(s: State, c: nat)
    requires c < |s.cmds|
  {
    !s.cmds[c].phase.Returned?
  }

  /** Every command that has not returned is among the last 255 to draw. */
  ghost predicate InWindow(s: State) {
    forall c :: 0 <= c < |s.cmds| && Live(s, c) ==> |s.cmds| - c <= 255
  }

  ghost predicate LiveDistinct(s: State) {
    forall i, j :: 0 <= i < |s.cmds| && 0 <= j < |s.cmds| && Live(s, i) && Live(s, j) ==>
      s.cmds[i].sid == s.cmds[j].sid ==> i == j
  }

  /** What theft would break: a registration overwrites no entry, a deferred delete takes none but the command's own. */
  ghost predicate KeepsEntries(s: State, c: nat) {
    && (Enabled(s, Register(c)) ==> s.cmds[c].sid !in s.chans)
    && (Enabled(s, Return(c)) ==>
          forall k :: k in s.chans && s.chans[k] != c ==>
            k in Apply(s, Return(c)).chans && Apply(s, Return(c)).chans[k] == s.chans[k])
  }

  lemma DistinctKeepsEntries(s: State, c: nat)
    requires Inv(s) && LiveDistinct(s) && c < |s.cmds|
    ensures KeepsEntries(s, c)
  {
    var k := s.cmds[c].sid;
    if Live(s, c) && k in s.chans {
      assert EntryOk(s, k);
      assert Live(s, s.chans[k]) && s.cmds[s.chans[k]].sid == k;
      assert s.chans[k] == c;
    }
  }

  /** The id the next draw would give out is not that of a command that has not returned. */
  ghost predicate FreeId(s: State) {
    forall c :: 0 <= c < |s.cmds| && Live(s, c) ==> s.cmds[c].sid != NextSid(s.counter)
  }

  /** A run whose draws avoid the ids of live commands. */
  ghost predicate Careful(s: State, acts: seq<Action>, t: State)
    decreases |acts|
  {
    if acts == [] then s == t
    else Enabled(s, acts[0]) && (acts[0].Draw? ==> FreeId(s)) && Careful(Apply(s, acts[0]), acts[1..], t)
  }

  lemma DistinctStep(s: State, a: Action)
    requires LiveDistinct(s) && Enabled(s, a) && (a.Draw? ==> FreeId(s))
    ensures LiveDistinct(Apply(s, a))
  {
    if !a.Draw? {
      StepProvenance(s, a);
      forall c | 0 <= c < |s.cmds| && Live(Apply(s, a), c)
        ensures Live(s, c) && Apply(s, a).cmds[c].sid == s.cmds[c].sid
      {
        assert CommandProvenance(s, a, c);
      }
    }
  }

  lemma {:induction false} CarefulRun(s: State, acts: seq<Action>, t: State)
    requires Inv(s) && LiveDistinct(s) && Careful(s, acts, t)
    ensures Inv(t) && LiveDistinct(t)
    decreases |acts|
  {
    if acts != [] {
      InvStep(s, acts[0]);
      DistinctStep(s, acts[0]);
      CarefulRun(Apply(s, acts[0]), acts[1..], t);
    }
  }

  /** As long as no draw takes the id of a live command, no entry is ever stolen. */
  lemma NoStolenEntries(acts: seq<Action>, t: State, c: nat)
    requires Careful(Init(), acts, t) && c < |t.cmds|
    ensures KeepsEntries(t, c)
  {
    CarefulRun(Init(), acts, t);
    DistinctKeepsEntries(t, c);
  }

  /** Live commands within 255 draws of each other are such a case, however the run got there. */
  lemma WindowKeepsEntries(acts: seq<Action>, t: State, c: nat)
    requires Runs(Init(), acts, t) && InWindow(t) && c < |t.cmds|
    ensures KeepsEntries(t, c)
  {
    InvRun(Init(), acts, t);
    forall i, j | 0 <= i < |t.cmds| && 0 <= j < |t.cmds| && Live(t, i) && Live(t, j) && t.cmds[i].sid == t.cmds[j].sid
      ensures i == j
    {
      assert CommandOk(t, i) && CommandOk(t, j);
      SameResidue(i, j);
    }
    DistinctKeepsEntries(t, c);
  }

  /** A disconnect closes the channel of every entry, so that its command, once waiting, learns of it. */
  lemma SweepWakes(s: State, k: byte)
    requires Inv(s) && k in s.chans
    ensures s.chans[k] < |s.cmds| && |Apply(s, Sweep).cmds| == |s.cmds| && Apply(s, Sweep).chans == map[]
    ensures var c, t := s.chans[k], Apply(s, Sweep);
      && t.cmds[c].chan.closes == 1
      && (At(s, c, Waiting) ==> Enabled(t, Receive(c)) && At(Apply(t, Receive(c)), c, Finishing(ConnectionClosed)))
  {
    assert EntryOk(s, k);
    OneEntry(s, s.chans[k]);
  }

  // ----- where frames come from -----

  /** The response a command has settled on. */
  function ReplyOf(p: Phase): Option<FinsFrame> {
    if (p.Finishing? || p.Returned?) && p.outcome.Reply? then Some(p.outcome.frame) else None
  }

  /** A command that has drawn and not yet written its request. */
  predicate Unwritten(s: State, c: nat)
    requires c < |s.cmds|
  {
    s.cmds[c].phase.Drawn? || s.cmds[c].phase.Registered?
  }

  /**
   * No step but drawing adds a command, ids never change, and a frame reaches a channel only
   * from the reader that held it for that command, and a result only from the channel.
   */
  lemma StepProvenance(s: State, a: Action)
    requires Enabled(s, a) && !a.Draw?
    ensures |Apply(s, a).cmds| == |s.cmds|
    ensures forall c :: 0 <= c < |s.cmds| ==> CommandProvenance(s, a, c)
    ensures forall r :: r in Apply(s, a).held ==> HeldProvenance(s, a, r)
    ensures forall k :: k in Apply(s, a).chans ==> EntryProvenance(s, a, k)
  {
  }

  ghost predicate CommandProvenance(s: State, a: Action, c: nat)
    requires Enabled(s, a) && !a.Draw? && c < |s.cmds|
  {
    var t := Apply(s, a);
    && |t.cmds| == |s.cmds|
    && t.cmds[c].sid == s.cmds[c].sid && t.cmds[c].payload == s.cmds[c].payload
    && (Live(t, c) ==> Live(s, c))
    && (Unwritten(t, c) ==> Unwritten(s, c))
    && (t.cmds[c].phase.Registered? ==> s.cmds[c].phase.Registered? || a == Register(c))
    && (t.cmds[c].chan.buffer.Some? ==>
          || t.cmds[c].chan.buffer == s.cmds[c].chan.buffer
          || (a.Deliver? && s.held[a.reader] == Held(c, t.cmds[c].chan.buffer.value)))
    && (ReplyOf(t.cmds[c].phase).Some? ==>
          || ReplyOf(t.cmds[c].phase) == ReplyOf(s.cmds[c].phase)
          || ReplyOf(t.cmds[c].phase) == s.cmds[c].chan.buffer)
  }

  /** An entry is old, or was just made by the registration of its command. */
  ghost predicate EntryProvenance(s: State, a: Action, k: byte)
    requires Enabled(s, a) && k in Apply(s, a).chans
  {
    var c := Apply(s, a).chans[k];
    || (k in s.chans && s.chans[k] == c && !(a.Register? && s.cmds[a.c].sid == k))
    || (a == Register(c) && s.cmds[c].sid == k)
  }

  ghost predicate HeldProvenance(s: State, a: Action, r: nat)
    requires Enabled(s, a) && r in Apply(s, a).held
  {
    var t := Apply(s, a);
    || (r in s.held && t.held[r] == s.held[r])
    || (a.LookUp? && r == a.reader && a.frame.header.sid in s.chans
        && t.held[r] == Held(s.chans[a.frame.header.sid], a.frame))
  }

  // ----- outside the window: the 256th draw collides with a command that is still in flight -----

  function Draws(payload: seq<byte>, n: nat): seq<Action> {
    seq(n, _ => Draw(payload))
  }

  lemma {:induction false} RunsAppend(s: State, a: seq<Action>, t: State, b: seq<Action>, u: State)
    requires Runs(s, a, t) && Runs(t, b, u)
    ensures Runs(s, a + b, u)
    decreases |a|
  {
    if a == [] {
      assert a + b == b;
    } else {
      assert (a + b)[1..] == a[1..] + b;
      RunsAppend(Apply(s, a[0]), a[1..], t, b, u);
    }
  }

  lemma {:induction false} RunDraws(s: State, payload: seq<byte>, n: nat) returns (t: State)
    requires Inv(s) && |payload| >= 2
    ensures Runs(s, Draws(payload, n), t) && Inv(t)
    ensures t.chans == s.chans && t.held == s.held
    ensures |t.cmds| == |s.cmds| + n && t.cmds[..|s.cmds|] == s.cmds
    ensures forall c :: |s.cmds| <= c < |t.cmds| ==> t.cmds[c].phase == Drawn
    decreases n
  {
    if n == 0 {
      t := s;
    } else {
      InvDraw(s, payload);
      var s' := Apply(s, Draw(payload));
      t := RunDraws(s', payload, n - 1);
      assert Draws(payload, n)[1..] == Draws(payload, n - 1);
      assert t.cmds[..|s.cmds|] == t.cmds[..|s'.cmds|][..|s.cmds|];
      assert t.cmds[|s.cmds|] == t.cmds[..|s'.cmds|][|s.cmds|];
    }
  }

  /** The steps that bring a live command to its deferred delete. */
  function WindDown(s: State, c: nat): seq<Action>
    requires c < |s.cmds| && Live(s, c)
  {
    match s.cmds[c].phase
    case Drawn => [Register(c), FailWrite(c)]
    case Registered => [FailWrite(c)]
    case Waiting => [GiveUp(c)]
    case _ => []
  }

  lemma WoundDown(s: State, c: nat) returns (t: State)
    requires c < |s.cmds| && Live(s, c)
    ensures Runs(s, WindDown(s, c), t)
    ensures |t.cmds| == |s.cmds| && t.counter == s.counter
    ensures t.cmds[c].phase.Finishing? && t.cmds[c].sid == s.cmds[c].sid
  {
    var acts := WindDown(s, c);
    if |acts| == 2 {
      var u := Apply(s, acts[0]);
      assert acts[1..] == [FailWrite(c)] && acts[1..][1..] == [];
      t := Apply(u, FailWrite(c));
      assert Runs(u, acts[1..], t);
    } else if |acts| == 1 {
      assert acts[1..] == [];
      t := Apply(s, acts[0]);
    } else {
      t := s;
    }
  }

  /** The next command draws and registers, and an older one with its id runs its deferred delete. */
  lemma Steal(s: State, c: nat, payload: seq<byte>) returns (t: State)
    requires c < |s.cmds| && s.cmds[c].phase.Finishing? && s.cmds[c].sid == NextSid(s.counter) && |payload| >= 2
    ensures var d := |s.cmds|;
      && Runs(s, [Draw(payload), Register(d), Return(c)], t)
      && At(t, d, Registered) && t.cmds[d].sid !in t.chans && t.cmds[d].payload == payload
  {
    var d := |s.cmds|;
    var tail := [Draw(payload), Register(d), Return(c)];
    assert tail[1..] == [Register(d), Return(c)];
    assert tail[1..][1..] == [Return(c)];
    assert tail[1..][1..][1..] == [];
    var s1 := Apply(s, Draw(payload));
    var s2 := Apply(s1, Register(d));
    t := Apply(s2, Return(c));
    assert Runs(s1, [Register(d), Return(c)], t);
  }

  ghost predicate OnlyOwnSteps(acts: seq<Action>) {
    forall i :: 0 <= i < |acts| ==> !acts[i].LookUp? && !acts[i].Sweep?
  }

  /**
   * And whenever the next draw would take the id of a live command, the run can go on so that
   * the new command registers and then loses its entry to the other's deferred delete.
   */
  lemma RedrawLosesEntry(acts: seq<Action>, s: State, c: nat, payload: seq<byte>)
    returns (more: seq<Action>, t: State)
    requires Runs(Init(), acts, s) && c < |s.cmds| && Live(s, c) && |payload| >= 2
    requires s.cmds[c].sid == NextSid(s.counter)
    ensures Runs(s, more, t) && Runs(Init(), acts + more, t) && OnlyOwnSteps(more)
    ensures var d := |s.cmds|;
      At(t, d, Registered) && t.cmds[d].payload == payload && t.cmds[d].sid !in t.chans
  {
    var u := WoundDown(s, c);
    t := Steal(u, c, payload);
    var tail := [Draw(payload), Register(|s.cmds|), Return(c)];
    RunsAppend(s, WindDown(s, c), u, tail, t);
    more := WindDown(s, c) + tail;
    RunsAppend(Init(), acts, s, more, t);
  }

  /** There are such runs: a command that waits while 255 others draw. */
  lemma EntryCanBeStolen() returns (acts: seq<Action>, t: State)
    ensures Runs(Init(), acts, t) && OnlyOwnSteps(acts)
    ensures exists c :: 0 <= c < |t.cmds| && t.cmds[c].phase == Registered && t.cmds[c].sid !in t.chans
  {
    var p: seq<byte> := [0, 0];
    assert Inv(Init());
    var s := RunDraws(Init(), p, 255);
    assert CommandOk(s, 0) && SidAt(0) == 1 && SidAt(254) == 255;
    assert Live(s, 0) && NextSid(s.counter) == 1;
    var more;
    more, t := RedrawLosesEntry(Draws(p, 255), s, 0, p);
    acts := Draws(p, 255) + more;
    assert t.cmds[255].phase == Registered;
  }

  // ----- the transport object: the same sections as methods on its fields -----

  class Transport {
    var sidCounter: byte
    var responseChans: map<byte, nat>
    var commands: seq<Command>
    var held: map<nat, Held>
    var drops: nat
    var panics: nat

    ghost function Model(): State
      reads this
    {
      State(sidCounter, responseChans, commands, held, drops, panics)
    }

    constructor ()
      ensures Model() == Init()
    {
      sidCounter, responseChans, commands, held, drops, panics := 0, map[], [], map[], 0, 0;
    }

    method NextSID() returns (sid: byte)
      modifies this`sidCounter
      ensures sid == sidCounter == NextSid(old(sidCounter))
    {
      sidCounter := (sidCounter + 1) % 256;
      if sidCounter == 0 {
        sidCounter := 1;
      }
      return sidCounter;
    }

    /** The start of a send: draw an id and make the channel. */
    method Begin(payload: seq<byte>) returns (c: nat)
      requires |payload| >= 2
      modifies this
      ensures c == |old(commands)|
      ensures Model() == Apply(old(Model()), Draw(payload))
    {
      var sid := NextSID();
      c := |commands|;
      commands := commands + [Command(sid, payload, Drawn, Channel(None, 0, 0))];
    }

    method RegisterChannel(c: nat)
      requires Enabled(Model(), Register(c))
      modifies this
      ensures Model() == Apply(old(Model()), Register(c))
    {
      responseChans := responseChans[commands[c].sid := c];
      commands := commands[c := commands[c].(phase := Registered)];
    }

    /** The write of the request frame. */
    method WriteFrame(c: nat, ok: bool)
      requires Enabled(Model(), Write(c))
      modifies this`commands
      ensures Model() == Apply(old(Model()), if ok then Write(c) else FailWrite(c))
    {
      commands := commands[c := commands[c].(phase := if ok then Waiting else Finishing(Failed))];
    }

    /** The select: a response, a closed channel, or else a timeout. */
    method Await(c: nat, timedOut: bool)
      requires Enabled(Model(), if timedOut then GiveUp(c) else Receive(c))
      modifies this`commands
      ensures Model() == Apply(old(Model()), if timedOut then GiveUp(c) else Receive(c))
    {
      var cmd := commands[c];
      if timedOut {
        commands := commands[c := cmd.(phase := Finishing(Failed))];
      } else if cmd.chan.buffer.Some? {
        commands := commands[c := cmd.(chan := cmd.chan.(buffer := None), phase := Finishing(Reply(cmd.chan.buffer.value)))];
      } else {
        commands := commands[c := cmd.(phase := Finishing(ConnectionClosed))];
      }
    }

    /** First half of a dispatch, under the lock. */
    method TakeEntry(reader: nat, frame: FinsFrame) returns (ok: bool)
      requires Enabled(Model(), LookUp(reader, frame))
      modifies this
      ensures Model() == Apply(old(Model()), LookUp(reader, frame))
      ensures ok == (frame.header.sid in old(responseChans))
    {
      var sid := frame.header.sid;
      ok := sid in responseChans;
      if ok {
        held := held[reader := Held(responseChans[sid], frame)];
        responseChans := responseChans - {sid};
      }
    }

    /** Second half, outside the lock: a send that would rather drop than block. */
    method SendHeld(reader: nat)
      requires Enabled(Model(), Deliver(reader))
      modifies this
      ensures Model() == Apply(old(Model()), Deliver(reader))
    {
      var c, frame := held[reader].cmd, held[reader].frame;
      var ch := commands[c].chan;
      if ch.closes > 0 {
        panics := panics + 1;
      } else if ch.buffer.None? {
        commands := commands[c := commands[c].(chan := ch.(buffer := Some(frame), sends := ch.sends + 1))];
      } else {
        drops := drops + 1;
      }
      held := held - {reader};
    }

    /** The deferred delete and the return. */
    method Finish(c: nat) returns (outcome: Outcome)
      requires Enabled(Model(), Return(c))
      modifies this
      ensures Model() == Apply(old(Model()), Return(c)) && At(Model(), c, Returned(outcome))
    {
      outcome := commands[c].phase.outcome;
      responseChans := responseChans - {commands[c].sid};
      commands := commands[c := commands[c].(phase := Returned(outcome))];
    }

    /** The disconnect loop: close and delete entry after entry, in any order. */
    method CloseAll()
      requires Inv(Model())
      modifies this
      ensures Model() == Apply(old(Model()), Sweep)
    {
      ghost var before := Model();
      while responseChans != map[]
        invariant Model() == before.(chans := responseChans, cmds := commands)
        invariant Midway(before, responseChans, commands)
        decreases |responseChans|
      {
        var sid :| sid in responseChans;
        var c := responseChans[sid];
        MidwayStep(before, responseChans, commands, sid);
        var ch := commands[c].chan;
        commands := commands[c := commands[c].(chan := ch.(closes := ch.closes + 1))];
        responseChans := responseChans - {sid};
      }
      MidwayDone(before, commands);
    }
  }

  /** Command `c` midway through the disconnect loop: closed once its entry is gone. */
  ghost function PartlyClosed(before: State, left: map<byte, nat>, c: nat): Command
    requires c < |before.cmds|
  {
    var cmd := before.cmds[c];
    if cmd.sid in before.chans && before.chans[cmd.sid] == c && cmd.sid !in left then
      cmd.(chan := cmd.chan.(closes := cmd.chan.closes + 1))
    else cmd
  }

  ghost predicate Midway(before: State, left: map<byte, nat>, cmds: seq<Command>) {
    && (forall k :: k in left ==> k in before.chans && left[k] == before.chans[k])
    && |cmds| == |before.cmds|
    && (forall k :: k in left ==> left[k] < |cmds|)
    && forall c :: 0 <= c < |cmds| ==> cmds[c] == PartlyClosed(before, left, c)
  }

  lemma MidwayStep(before: State, left: map<byte, nat>, cmds: seq<Command>, sid: byte)
    requires Inv(before) && Midway(before, left, cmds) && sid in left
    ensures var c := left[sid];
      var ch := cmds[c].chan;
      Midway(before, left - {sid}, cmds[c := cmds[c].(chan := ch.(closes := ch.closes + 1))])
  {
    assert EntryOk(before, sid);
    forall d | 0 <= d < |cmds| && before.cmds[d].sid == sid && d != left[sid]
      ensures before.chans[sid] != d
    {
    }
  }

  lemma MidwayDone(before: State, cmds: seq<Command>)
    requires Inv(before) && Midway(before, map[], cmds)
    ensures cmds == Swept(before).cmds
  {
    forall c | 0 <= c < |cmds| ensures cmds[c] == Swept(before).cmds[c] {
      OneEntry(before, c);
    }
  }
}
