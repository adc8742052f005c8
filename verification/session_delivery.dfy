/**
 * When replies are lost. In a run without a disconnect whose draws avoid both the ids of commands
 * that have not returned and those still on the wire, the reader finds every command it has a
 * response for; where the next draw would not, a response can be dropped.
 */
module SessionDelivery {
  import opened Bytes
  import opened Protocol
  import opened Mux
  import opened Session
  import opened SessionLimits

  ghost predicate Orderly<M>(h: Handler<M>, w: World<M>, es: seq<Event>, t: World<M>)
    decreases |es|
  {
    if es == [] then w == t
    else
      && CanHappen(w, es[0]) && !es[0].Disconnect?
      && (es[0].Local? && es[0].a.Draw? ==> FreshDraw(w) && FreeId(w.mux))
      && Orderly(h, Happen(h, w, es[0]), es[1..], t)
  }

  /** A command whose response is to come and that can still take it. */
  ghost predicate Due<M>(w: World<M>, c: nat)
    requires c < |w.mux.cmds|
  {
    w.mux.cmds[c].phase.Registered? || (OnWire(w, c) && Live(w.mux, c))
  }

  predicate HasEntry(s: State, c: nat)
    requires c < |s.cmds|
  {
    s.cmds[c].sid in s.chans && s.chans[s.cmds[c].sid] == c
  }

  ghost predicate EntriesKept<M>(w: World<M>) {
    forall c: nat :: c < |w.mux.cmds| && Due(w, c) ==> HasEntry(w.mux, c)
  }

  /** Each command writes once. */
  ghost predicate WrittenOnce<M>(w: World<M>) {
    && (forall i :: 0 <= i < |w.written| ==> w.written[i] < |w.mux.cmds| && !Unwritten(w.mux, w.written[i]))
    && (forall i, j :: 0 <= i < j < |w.written| ==> w.written[i] != w.written[j])
  }

  ghost predicate DeliveryInv<M>(w: World<M>) {
    LiveDistinct(w.mux) && ActiveDistinct(w) && EntriesKept(w) && WrittenOnce(w)
  }

  // ----- what each step keeps -----

  /** A step on the commands keeps the entries of the others: their ids differ. */
  lemma EntrySurvives(s: State, a: Action, c: nat)
    requires Enabled(s, a) && !a.Draw? && !a.Sweep? && !a.LookUp? && LiveDistinct(s)
    requires c < |s.cmds| && Live(s, c) && HasEntry(s, c)
    ensures c < |Apply(s, a).cmds| && (Live(Apply(s, a), c) ==> HasEntry(Apply(s, a), c))
  {
  }

  lemma KeptByStep<M>(w: World<M>, a: Action, t: World<M>)
    requires DeliveryInv(w) && Enabled(w.mux, a) && !a.Draw? && !a.Sweep? && !a.LookUp? && t.mux == Apply(w.mux, a)
    requires forall c: nat :: OnWire(t, c) ==> OnWire(w, c) || a == Write(c)
    ensures EntriesKept(t)
  {
    StepProvenance(w.mux, a);
    forall c: nat | c < |t.mux.cmds| && Due(t, c) ensures HasEntry(t.mux, c) {
      assert CommandProvenance(w.mux, a, c);
      if a != Register(c) {
        assert Due(w, c);
        EntrySurvives(w.mux, a, c);
      }
    }
  }

  lemma OnceByStep<M>(w: World<M>, a: Action, t: World<M>)
    requires WrittenOnce(w) && Enabled(w.mux, a) && !a.Draw? && t.mux == Apply(w.mux, a) && t.written == w.written
    ensures WrittenOnce(t)
  {
    StepProvenance(w.mux, a);
    forall i | 0 <= i < |t.written| ensures t.written[i] < |t.mux.cmds| && !Unwritten(t.mux, t.written[i]) {
      assert CommandProvenance(w.mux, a, w.written[i]);
    }
  }

  lemma DeliverLocal<M>(w: World<M>, a: Action, t: World<M>)
    requires DeliveryInv(w) && Enabled(w.mux, a) && !a.Draw? && !a.Sweep? && !a.LookUp?
    requires t == w.(mux := Apply(w.mux, a))
    ensures DeliveryInv(t)
  {
    forall c: nat | OnWire(t, c) ensures OnWire(w, c) {
      OnWireShrinks(w, t, c);
    }
    DistinctStep(w.mux, a);
    ActiveShrinks(w, a, t);
    KeptByStep(w, a, t);
    OnceByStep(w, a, t);
  }

  lemma DeliverDraw<M>(w: World<M>, payload: seq<byte>, t: World<M>)
    requires DeliveryInv(w) && FreshDraw(w) && FreeId(w.mux) && Enabled(w.mux, Draw(payload))
    requires t == w.(mux := Apply(w.mux, Draw(payload)))
    ensures DeliveryInv(t)
  {
    var n := |w.mux.cmds|;
    forall c: nat | OnWire(t, c) ensures OnWire(w, c) && c < n {
      OnWireShrinks(w, t, c);
    }
    forall c: nat | Active(t, c) && c < n ensures Active(w, c) {
      assert OnWire(t, c) ==> OnWire(w, c);
    }
    DistinctStep(w.mux, Draw(payload));
    forall c: nat | c < |t.mux.cmds| && Due(t, c) ensures HasEntry(t.mux, c) {
      assert c < n && Due(w, c);
    }
  }

  lemma DeliverWrite<M>(w: World<M>, c: nat)
    requires DeliveryInv(w) && Enabled(w.mux, Write(c)) && |w.mux.cmds[c].payload| >= 2
    ensures DeliveryInv(PutOnWire(w, c))
  {
    var t := PutOnWire(w, c);
    StepProvenance(w.mux, Write(c));
    forall d: nat | OnWire(t, d) ensures OnWire(w, d) || Write(c) == Write(d) {
      WriteGoesOnWire(w, c, d);
    }
    forall d: nat | Active(t, d) ensures Active(w, d) && t.mux.cmds[d].sid == w.mux.cmds[d].sid {
      assert CommandProvenance(w.mux, Write(c), d);
      assert OnWire(t, d) ==> OnWire(w, d) || d == c;
    }
    DistinctStep(w.mux, Write(c));
    KeptByStep(w, Write(c), t);
    WriteOnce(w, c);
  }

  lemma WriteOnce<M>(w: World<M>, c: nat)
    requires WrittenOnce(w) && Enabled(w.mux, Write(c)) && |w.mux.cmds[c].payload| >= 2
    ensures WrittenOnce(PutOnWire(w, c))
  {
    var t := PutOnWire(w, c);
    OnceByStep(w, Write(c), w.(mux := Apply(w.mux, Write(c))));
    assert forall i :: 0 <= i < |w.written| ==> w.written[i] != c;
  }

  /** A response taken off the wire concerns one id, and so the entry of one command. */
  lemma DeliverRead<M>(w: World<M>, f: FinsFrame, n: nat)
    requires DeliveryInv(w) && Commands(w) && n <= |w.clientAcc| && READER !in w.mux.held
    requires w.read < |w.written| && f.header.sid == w.mux.cmds[w.written[w.read]].sid
    ensures DeliveryInv(ReadReply(w, f, n))
  {
    var t, d := ReadReply(w, f, n), w.written[w.read];
    assert OnWire(w, d);
    assert Active(w, d);
    DistinctStep(w.mux, LookUp(READER, f));
    ActiveShrinks(w, LookUp(READER, f), t);
    OnceByStep(w, LookUp(READER, f), t);
    forall c: nat | c < |t.mux.cmds| && Due(t, c) ensures HasEntry(t.mux, c) {
      OnWireShrinks(w, t, c);
      assert Due(w, c);
      assert Active(w, c);
      assert c != d by {
        NotOnWireAgain(w, t, d);
      }
    }
  }

  lemma NotOnWireAgain<M>(w: World<M>, t: World<M>, d: nat)
    requires WrittenOnce(w) && w.read < |w.written| && d == w.written[w.read]
    requires t.written == w.written && t.read == w.read + 1
    ensures !OnWire(t, d) && !Unwritten(w.mux, d)
  {
  }

  lemma DeliverQuiet<M>(w: World<M>, t: World<M>)
    requires DeliveryInv(w) && t.mux == w.mux && t.written == w.written && t.read == w.read
    ensures DeliveryInv(t)
  {
    forall c: nat ensures OnWire(t, c) ==> OnWire(w, c) {
      OnWireShrinks(w, t, c);
    }
    forall c: nat | Active(t, c) ensures Active(w, c) {
      assert OnWire(t, c) ==> OnWire(w, c);
    }
    forall c: nat | c < |t.mux.cmds| && Due(t, c) ensures Due(w, c) {
      assert OnWire(t, c) ==> OnWire(w, c);
    }
  }

  /** The response the reader is about to take carries the id of the command it answers. */
  lemma ResponseId<M(!new)>(h: Handler<M>, m: M, w: World<M>)
    requires Echoes(h) && WorldInv(h, m, w) && w.read < |w.served|
    ensures w.read < |w.written| && w.served[w.read].response.header.sid == w.mux.cmds[w.written[w.read]].sid
  {
    assert ServedInTurn(h, m, w.requests, w.read, w.served[w.read]);
  }

  lemma DeliverStep<M(!new)>(h: Handler<M>, m: M, w: World<M>, e: Event)
    requires Echoes(h) && WorldInv(h, m, w) && DeliveryInv(w) && CanHappen(w, e) && !e.Disconnect?
    requires e.Local? && e.a.Draw? ==> FreshDraw(w) && FreeId(w.mux)
    ensures DeliveryInv(Happen(h, w, e))
  {
    var t := Happen(h, w, e);
    match e
    case Local(a) =>
      if a.Draw? {
        DeliverDraw(w, a.payload, t);
      } else {
        DeliverLocal(w, a, t);
      }
    case WriteRequest(c) => DeliverWrite(w, c);
    case ServerTurn =>
      ServerTurnServes(h, w);
      DeliverQuiet(w, t);
    case ClientTurn =>
      InvClientTurn(h, m, w);
      ResponseId(h, m, w);
      var f := w.served[w.read].response;
      DeliverRead(w, f, |WireBytes(f)|);
    case _ => DeliverQuiet(w, t);
  }

  lemma {:induction false} DeliverRun<M(!new)>(h: Handler<M>, m: M, w: World<M>, es: seq<Event>, t: World<M>)
    requires Echoes(h) && WorldInv(h, m, w) && DeliveryInv(w) && Orderly(h, w, es, t)
    ensures WorldInv(h, m, t) && DeliveryInv(t)
    decreases |es|
  {
    if es != [] {
      WorldStep(h, m, w, es[0]);
      DeliverStep(h, m, w, es[0]);
      DeliverRun(h, m, Happen(h, w, es[0]), es[1..], t);
    }
  }

  /** The reader holds frame f for command c. */
  predicate HeldFor(s: State, c: nat, f: FinsFrame) {
    READER in s.held && s.held[READER] == Held(c, f)
  }

  lemma LookUpFinds(s: State, c: nat, f: FinsFrame)
    requires c < |s.cmds| && HasEntry(s, c) && f.header.sid == s.cmds[c].sid && READER !in s.held
    ensures HeldFor(Apply(s, LookUp(READER, f)), c, f)
  {
  }

  /** Looking up a response finds the command it answers. */
  lemma Handed<M(!new)>(h: Handler<M>, m: M, w: World<M>)
    requires Echoes(h) && WorldInv(h, m, w) && DeliveryInv(w) && CanHappen(w, ClientTurn)
    ensures w.read < |w.served| && w.read < |w.written| && w.written[w.read] < |w.mux.cmds|
    ensures Live(w.mux, w.written[w.read]) ==>
      HeldFor(Happen(h, w, ClientTurn).mux, w.written[w.read], w.served[w.read].response)
  {
    InvClientTurn(h, m, w);
    ResponseId(h, m, w);
    var c, f := w.written[w.read], w.served[w.read].response;
    assert Happen(h, w, ClientTurn).mux == Apply(w.mux, LookUp(READER, f));
    if Live(w.mux, c) {
      assert OnWire(w, c);
      assert Due(w, c);
      LookUpFinds(w.mux, c, f);
    }
  }

  lemma StartDelivers<M>(src: FinsAddress, dest: FinsAddress, m: M)
    ensures DeliveryInv(Start(src, dest, m))
  {
  }

  /**
   * No reply is lost: whenever the reader takes the response to a command that has not returned, it
   * holds that frame for that very command.
   */
  lemma NoReplyIsLost<M(!new)>(h: Handler<M>, src: FinsAddress, dest: FinsAddress, m: M, es: seq<Event>, w: World<M>)
    requires Echoes(h) && Orderly(h, Start(src, dest, m), es, w) && CanHappen(w, ClientTurn)
    ensures w.read < |w.served| && w.read < |w.written| && w.written[w.read] < |w.mux.cmds|
    ensures Live(w.mux, w.written[w.read]) ==>
      HeldFor(Happen(h, w, ClientTurn).mux, w.written[w.read], w.served[w.read].response)
  {
    StartInv(h, src, dest, m);
    StartDelivers(src, dest, m);
    DeliverRun(h, m, Start(src, dest, m), es, w);
    Handed(h, m, w);
  }

  // ----- and only then -----

  /** Command d waits for a response on the wire, and has no entry. */
  ghost predicate Deaf<M>(w: World<M>, d: nat) {
    At(w.mux, d, Waiting) && OnWire(w, d) && w.mux.cmds[d].sid !in w.mux.chans
  }

  /** The reader is about to take the response to d, which is waiting for it, and will find no entry. */
  ghost predicate AboutToLose<M>(h: Handler<M>, w: World<M>, d: nat) {
    && CanHappen(w, ClientTurn) && w.read < |w.written| && w.written[w.read] == d
    && At(w.mux, d, Waiting) && READER !in Happen(h, w, ClientTurn).mux.held
  }

  /** Reading other responses and delivering them gives d no entry. */
  lemma StaysDeaf<M>(v: World<M>, a: Action, t: World<M>, d: nat)
    requires Deaf(v, d) && Enabled(v.mux, a) && t.mux == Apply(v.mux, a) && (a.LookUp? || a.Deliver?)
    requires t.written == v.written && (t.read == v.read || (t.read == v.read + 1 && v.written[v.read] != d))
    ensures Deaf(t, d)
  {
    var i :| v.read <= i < |v.written| && v.written[i] == d;
    assert t.written[i] == d;
  }

  lemma LastByte<M(!new)>(h: Handler<M>, m: M, w: World<M>, es0: seq<Event>, v: World<M>, d: nat)
    returns (es: seq<Event>, t: World<M>)
    requires Echoes(h) && Reaches(h, m, w, es0, v) && v.connected && Deaf(v, d)
    requires READER !in v.mux.held && v.read < |v.served| && v.written[v.read] == d
    ensures Reaches(h, m, w, es, t) && es0 <= es && AboutToLose(h, t, d)
  {
    es, t := Step(h, m, w, es0, v, ClientReceives(|v.toClient|));
    FrameIsComplete(t.clientAcc, t.toClient, Replies(t.served)[t.read..]);
    assert OnWire(t, d);
    LosesNow(h, m, t, d);
  }

  lemma LosesNow<M(!new)>(h: Handler<M>, m: M, w: World<M>, d: nat)
    requires Echoes(h) && WorldInv(h, m, w) && Deaf(w, d) && CanHappen(w, ClientTurn)
    requires w.read < |w.written| && w.written[w.read] == d
    ensures AboutToLose(h, w, d)
  {
    InvClientTurn(h, m, w);
    ResponseId(h, m, w);
    LookUpMisses(w.mux, w.served[w.read].response);
  }

  lemma LookUpMisses(s: State, f: FinsFrame)
    requires READER !in s.held && f.header.sid !in s.chans
    ensures READER !in Apply(s, LookUp(READER, f)).held
  {
  }

  lemma {:induction false} DeafLoses<M(!new)>(h: Handler<M>, m: M, w: World<M>, es0: seq<Event>, v: World<M>, d: nat)
    returns (es: seq<Event>, t: World<M>)
    requires Echoes(h) && Reaches(h, m, w, es0, v) && v.connected && Deaf(v, d)
    ensures Reaches(h, m, w, es, t) && es0 <= es && AboutToLose(h, t, d)
    decreases |v.written| - v.read, if |v.served| <= v.read then 1 else 0, if READER in v.mux.held then 1 else 0
  {
    if READER in v.mux.held {
      assert HeldOk(v.mux, READER);
      es, t := Step(h, m, w, es0, v, Local(Deliver(READER)));
      StaysDeaf(v, Deliver(READER), t, d);
      es, t := DeafLoses(h, m, w, es, t, d);
    } else if |v.served| <= v.read {
      es, t := ServeNext(h, m, w, es0, v);
      assert OnWire(t, d);
      es, t := DeafLoses(h, m, w, es, t, d);
    } else if v.written[v.read] == d {
      es, t := LastByte(h, m, w, es0, v, d);
    } else {
      es, t := ReadNext(h, m, w, es0, v);
      StaysDeaf(v, LookUp(READER, v.served[v.read].response), t, d);
      es, t := DeafLoses(h, m, w, es, t, d);
    }
  }

  /** A live command comes to its deferred delete; the others stay as they are. */
  lemma ComeToReturn<M(!new)>(h: Handler<M>, m: M, w: World<M>, es0: seq<Event>, v: World<M>, c: nat)
    returns (es: seq<Event>, t: World<M>)
    requires Echoes(h) && Reaches(h, m, w, es0, v) && c < |v.mux.cmds| && Live(v.mux, c)
    ensures Reaches(h, m, w, es, t) && es0 <= es && t == v.(mux := t.mux) && |t.mux.cmds| == |v.mux.cmds|
    ensures t.mux.cmds[c].phase.Finishing? && t.mux.cmds[c].sid == v.mux.cmds[c].sid
    ensures forall d :: 0 <= d < |v.mux.cmds| && d != c ==> t.mux.cmds[d] == v.mux.cmds[d]
  {
    es, t := es0, v;
    if v.mux.cmds[c].phase.Drawn? {
      es, t := Step(h, m, w, es0, v, Local(Register(c)));
    }
    es, t := Fail(h, m, w, es, t, c);
  }

  lemma Fail<M(!new)>(h: Handler<M>, m: M, w: World<M>, es0: seq<Event>, v: World<M>, c: nat)
    returns (es: seq<Event>, t: World<M>)
    requires Echoes(h) && Reaches(h, m, w, es0, v) && c < |v.mux.cmds| && Live(v.mux, c) && !v.mux.cmds[c].phase.Drawn?
    ensures Reaches(h, m, w, es, t) && es0 <= es && t == v.(mux := t.mux) && |t.mux.cmds| == |v.mux.cmds|
    ensures t.mux.cmds[c].phase.Finishing?
    ensures t.mux.cmds == v.mux.cmds[c := v.mux.cmds[c].(phase := t.mux.cmds[c].phase)]
  {
    if v.mux.cmds[c].phase.Finishing? {
      es, t := es0, v;
    } else {
      es, t := Step(h, m, w, es0, v, Local(if v.mux.cmds[c].phase.Registered? then FailWrite(c) else GiveUp(c)));
    }
  }

  /** Its deferred delete takes the entry of the command that has just registered under its id. */
  lemma Deafen<M(!new)>(h: Handler<M>, m: M, w: World<M>, es0: seq<Event>, v: World<M>, c: nat, d: nat)
    returns (es: seq<Event>, t: World<M>)
    requires Echoes(h) && Reaches(h, m, w, es0, v) && At(v.mux, d, Drawn)
    requires c < |v.mux.cmds| && v.mux.cmds[c].phase.Finishing? && v.mux.cmds[c].sid == v.mux.cmds[d].sid
    ensures Reaches(h, m, w, es, t) && es0 <= es && t.connected == v.connected && Deaf(t, d)
  {
    es, t := Step(h, m, w, es0, v, Local(Register(d)));
    EntryTaken(v.mux, c, d);
    es, t := ReturnIt(h, m, w, es, t, c);
    es, t := WriteDeaf(h, m, w, es, t, d);
  }

  lemma EntryTaken(s: State, c: nat, d: nat)
    requires At(s, d, Drawn) && c < |s.cmds| && s.cmds[c].phase.Finishing? && s.cmds[c].sid == s.cmds[d].sid
    ensures var u := Apply(s, Register(d));
      && Enabled(u, Return(c))
      && At(Apply(u, Return(c)), d, Registered) && Apply(u, Return(c)).cmds[d].sid !in Apply(u, Return(c)).chans
  {
  }

  /** A registered command without an entry writes its request. */
  lemma WriteDeaf<M(!new)>(h: Handler<M>, m: M, w: World<M>, es0: seq<Event>, v: World<M>, d: nat)
    returns (es: seq<Event>, t: World<M>)
    requires Echoes(h) && Reaches(h, m, w, es0, v) && At(v.mux, d, Registered) && v.mux.cmds[d].sid !in v.mux.chans
    ensures Reaches(h, m, w, es, t) && es0 <= es && t.connected == v.connected && Deaf(t, d)
  {
    es, t := WriteOut(h, m, w, es0, v, d);
  }

  /** A response to an older request takes it. */
  lemma Preempt<M(!new)>(h: Handler<M>, m: M, w: World<M>, es0: seq<Event>, v: World<M>, c: nat, d: nat, q: seq<byte>)
    returns (es: seq<Event>, t: World<M>)
    requires Echoes(h) && Reaches(h, m, w, es0, v) && v.connected
    requires OnWire(v, c) && c < |v.mux.cmds| && At(v.mux, d, Drawn) && d !in v.written
    requires v.mux.cmds[c].sid == v.mux.cmds[d].sid && v.mux.cmds[d].payload == q
    ensures Reaches(h, m, w, es, t) && es0 <= es && t.connected && Deaf(t, d)
  {
    var k := RequestUnderWay(v, c);
    es, t := Listen(h, m, w, es0, v, d, q);
    var i := FirstUnder(t, d, k);
    es, t := Overhear(h, m, w, es, t, d, q, i);
    es, t := WriteDeaf(h, m, w, es, t, d);
  }

  /**
   * From every reachable connected world where the next id is that of a command that has not returned
   * or is on the wire, drawing it can go on so that the reader drops the response the new command
   * waits for.
   */
  lemma ReplyCanBeLost<M(!new)>(h: Handler<M>, src: FinsAddress, dest: FinsAddress, m: M,
                                es: seq<Event>, w: World<M>, q: seq<byte>)
    returns (more: seq<Event>, t: World<M>)
    requires Echoes(h) && Happens(h, Start(src, dest, m), es, w) && w.connected && |q| >= 2 && Session.Fits(q)
    requires !FreshDraw(w) || !FreeId(w.mux)
    ensures Happens(h, w, more, t) && [Local(Draw(q))] <= more && AboutToLose(h, t, |w.mux.cmds|)
  {
    StartInv(h, src, dest, m);
    WorldRun(h, m, Start(src, dest, m), es, w);
    var d := |w.mux.cmds|;
    if !FreeId(w.mux) {
      var c :| 0 <= c < d && Live(w.mux, c) && w.mux.cmds[c].sid == NextSid(w.mux.counter);
      more, t := RedrawLive(h, m, w, c, q);
    } else {
      var c: nat :| Active(w, c) && w.mux.cmds[c].sid == NextSid(w.mux.counter);
      assert !Live(w.mux, c);
      more, t := RedrawOnWire(h, m, w, c, q);
    }
    more, t := DeafLoses(h, m, w, more, t, d);
  }

  lemma RedrawLive<M(!new)>(h: Handler<M>, m: M, w: World<M>, c: nat, q: seq<byte>) returns (es: seq<Event>, t: World<M>)
    requires Echoes(h) && WorldInv(h, m, w) && w.connected && |q| >= 2 && Session.Fits(q)
    requires c < |w.mux.cmds| && Live(w.mux, c) && w.mux.cmds[c].sid == NextSid(w.mux.counter)
    ensures Reaches(h, m, w, es, t) && [Local(Draw(q))] <= es && t.connected && Deaf(t, |w.mux.cmds|)
  {
    es, t := Redraw(h, m, w, c, q);
    es, t := ComeToReturn(h, m, w, es, t, c);
    es, t := Deafen(h, m, w, es, t, c, |w.mux.cmds|);
  }

  lemma RedrawOnWire<M(!new)>(h: Handler<M>, m: M, w: World<M>, c: nat, q: seq<byte>) returns (es: seq<Event>, t: World<M>)
    requires Echoes(h) && WorldInv(h, m, w) && w.connected && |q| >= 2 && Session.Fits(q)
    requires c < |w.mux.cmds| && OnWire(w, c) && w.mux.cmds[c].sid == NextSid(w.mux.counter)
    ensures Reaches(h, m, w, es, t) && [Local(Draw(q))] <= es && t.connected && Deaf(t, |w.mux.cmds|)
  {
    es, t := Redraw(h, m, w, c, q);
    es, t := Preempt(h, m, w, es, t, c, |w.mux.cmds|, q);
  }
}
