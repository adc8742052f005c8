/**
 * Why matching needs the id discipline: with an id redrawn while an earlier command under it has
 * not written its request, or has it still on the wire, a command can return the response to
 * somebody else's request.
 */
module SessionLimits {
  import opened Bytes
  import opened Protocol
  import opened Stream
  import opened Mux
  import opened Session

  /** One more event at the end of a run. */
  lemma {:induction false} Then<M>(h: Handler<M>, w: World<M>, es: seq<Event>, t: World<M>, e: Event)
    requires Happens(h, w, es, t) && CanHappen(t, e)
    ensures Happens(h, w, es + [e], Happen(h, t, e))
    decreases |es|
  {
    var all := es + [e];
    if es == [] {
      assert all[1..] == [];
    } else {
      assert all[1..] == es[1..] + [e];
      Then(h, Happen(h, w, es[0]), es[1..], t, e);
    }
  }

  /** Draws of the multiplexer are events of the session. */
  lemma {:induction false} DrawsHappen<M>(h: Handler<M>, w: World<M>, es: seq<Event>, v: World<M>, q: seq<byte>, n: nat, s: State)
    returns (all: seq<Event>)
    requires Happens(h, w, es, v) && Session.Fits(q) && Runs(v.mux, Draws(q, n), s)
    ensures Happens(h, w, all, v.(mux := s))
    decreases n
  {
    if n == 0 {
      all := es;
    } else {
      var e := Local(Draw(q));
      assert Draws(q, n)[1..] == Draws(q, n - 1);
      Then(h, w, es, v, e);
      all := DrawsHappen(h, w, es + [e], Happen(h, v, e), q, n - 1, s);
    }
  }

  /** A command that timed out, its request still under way. */
  function Abandoned(p: seq<byte>): State {
    State(1, map[], [Command(1, p, Returned(Failed), Channel(None, 0, 0))], map[], 0, 0)
  }

  lemma AbandonedInv(p: seq<byte>)
    requires |p| >= 2
    ensures Inv(Abandoned(p))
  {
  }

  /** Command c registers and writes. */
  function Sent<M>(v: World<M>, c: nat): World<M>
    requires At(v.mux, c, Drawn) && |v.mux.cmds[c].payload| >= 2
  {
    var f := RequestOf(v, c);
    v.(mux := SetPhase(v.mux, c, Waiting).(chans := v.mux.chans[v.mux.cmds[c].sid := c]),
       toServer := v.toServer + WireBytes(f), written := v.written + [c], requests := v.requests + [f])
  }

  lemma Send<M>(h: Handler<M>, w: World<M>, es0: seq<Event>, v: World<M>, c: nat)
    returns (es: seq<Event>)
    requires Happens(h, w, es0, v) && At(v.mux, c, Drawn) && |v.mux.cmds[c].payload| >= 2
    ensures Happens(h, w, es, Sent(v, c))
  {
    Then(h, w, es0, v, Local(Register(c)));
    es := es0 + [Local(Register(c))];
    var t := Happen(h, v, Local(Register(c)));
    Then(h, w, es, t, WriteRequest(c));
    es := es + [WriteRequest(c)];
    assert Happen(h, t, WriteRequest(c)).mux.cmds == Sent(v, c).mux.cmds;
  }

  lemma TimeOut<M>(h: Handler<M>, w: World<M>, es0: seq<Event>, v: World<M>, c: nat)
    returns (es: seq<Event>, t: World<M>)
    requires Happens(h, w, es0, v) && At(v.mux, c, Waiting)
    ensures Happens(h, w, es, t)
    ensures t == v.(mux := SetPhase(v.mux, c, Returned(Failed)).(chans := v.mux.chans - {v.mux.cmds[c].sid}))
  {
    Then(h, w, es0, v, Local(GiveUp(c)));
    es, t := es0 + [Local(GiveUp(c))], Happen(h, v, Local(GiveUp(c)));
    Then(h, w, es, t, Local(Return(c)));
    es, t := es + [Local(Return(c))], Happen(h, t, Local(Return(c)));
    assert t.mux.cmds == SetPhase(v.mux, c, Returned(Failed)).cmds;
  }

  lemma Abandon<M>(h: Handler<M>, src: FinsAddress, dest: FinsAddress, m: M, p: seq<byte>)
    returns (es: seq<Event>, t: World<M>)
    requires |p| >= 2 && Session.Fits(p)
    ensures Happens(h, Start(src, dest, m), es, t)
    ensures var f := RequestFrame(src, dest, 1, p);
      t == Start(src, dest, m).(mux := Abandoned(p), toServer := WireBytes(f), written := [0], requests := [f])
  {
    var w := Start(src, dest, m);
    Then(h, w, [], w, Local(Draw(p)));
    t := Happen(h, w, Local(Draw(p)));
    assert RequestOf(t, 0) == RequestFrame(src, dest, 1, p);
    es := Send(h, w, [] + [Local(Draw(p))], t, 0);
    t := Sent(t, 0);
    es, t := TimeOut(h, w, es, t, 0);
    assert t.mux.chans == map[];
    assert t.mux.cmds == Abandoned(p).cmds;
    assert [] + WireBytes(RequestFrame(src, dest, 1, p)) == WireBytes(RequestFrame(src, dest, 1, p));
  }

  // ----- going on from any reachable world -----

  /** A run from w to v, and what holds at its end. */
  ghost predicate Reaches<M>(h: Handler<M>, m: M, w: World<M>, es: seq<Event>, v: World<M>) {
    Happens(h, w, es, v) && WorldInv(h, m, v)
  }

  lemma Step<M(!new)>(h: Handler<M>, m: M, w: World<M>, es0: seq<Event>, v: World<M>, e: Event)
    returns (es: seq<Event>, t: World<M>)
    requires Echoes(h) && Reaches(h, m, w, es0, v) && CanHappen(v, e)
    ensures Reaches(h, m, w, es, t) && es0 <= es && t == Happen(h, v, e)
  {
    Then(h, w, es0, v, e);
    WorldStep(h, m, v, e);
    es, t := es0 + [e], Happen(h, v, e);
  }

  /** The server gets all bytes under way and handles the oldest request. */
  lemma ServeNext<M(!new)>(h: Handler<M>, m: M, w: World<M>, es0: seq<Event>, v: World<M>)
    returns (es: seq<Event>, t: World<M>)
    requires Echoes(h) && Reaches(h, m, w, es0, v) && |v.served| < |v.requests|
    ensures Reaches(h, m, w, es, t) && es0 <= es
    ensures |t.served| == |v.served| + 1
    ensures t.mux == v.mux && t.connected == v.connected && t.read == v.read
    ensures t.written == v.written && t.requests == v.requests
  {
    es, t := Step(h, m, w, es0, v, ServerReceives(|v.toServer|));
    FrameIsComplete(t.serverAcc, t.toServer, t.requests[|t.served|..]);
    ServerTurnServes(h, t);
    es, t := Step(h, m, w, es, t, ServerTurn);
  }

  /** With every byte arrived, the first frame of a stream can be taken. */
  lemma FrameIsComplete(acc: seq<byte>, coming: seq<byte>, fs: seq<FinsFrame>)
    requires acc + coming == WireAll(fs) && coming == [] && fs != [] && AllSendable(fs)
    ensures !NextTurn(acc).NeedMore?
  {
    TurnOnWire(fs[0], WireAll(fs[1..]));
    assert acc == WireBytes(fs[0]) + WireAll(fs[1..]);
  }

  /** The reader gets all bytes under way and looks up the oldest response. */
  lemma ReadNext<M(!new)>(h: Handler<M>, m: M, w: World<M>, es0: seq<Event>, v: World<M>)
    returns (es: seq<Event>, t: World<M>)
    requires Echoes(h) && Reaches(h, m, w, es0, v) && v.connected
    requires READER !in v.mux.held && v.read < |v.served|
    ensures Reaches(h, m, w, es, t) && es0 <= es
    ensures v.served[v.read].response.header.sid == v.requests[v.read].header.sid
    ensures t.mux == Apply(v.mux, LookUp(READER, v.served[v.read].response)) && t.read == v.read + 1
    ensures t.connected && t.served == v.served && t.written == v.written && t.requests == v.requests
  {
    es, t := Step(h, m, w, es0, v, ClientReceives(|v.toClient|));
    FrameIsComplete(t.clientAcc, t.toClient, Replies(t.served)[t.read..]);
    InvClientTurn(h, m, t);
    assert ServedInTurn(h, m, v.requests, v.read, v.served[v.read]);
    es, t := Step(h, m, w, es, t, ClientTurn);
  }

  /** Command d has registered, has the entry of its id, and has not written. */
  ghost predicate Listening<M>(w: World<M>, d: nat, q: seq<byte>) {
    && At(w.mux, d, Registered) && w.mux.cmds[d].payload == q && Untouched(w.mux.cmds[d].chan)
    && w.mux.cmds[d].sid in w.mux.chans && w.mux.chans[w.mux.cmds[d].sid] == d
    && d !in w.written
  }

  lemma DeliveryElsewhere<M>(v: World<M>, d: nat, q: seq<byte>)
    requires Inv(v.mux) && Listening(v, d, q) && READER in v.mux.held
    ensures v.mux.held[READER].cmd < |v.mux.cmds|
    ensures var s := Apply(v.mux, Deliver(READER));
      && |s.cmds| == |v.mux.cmds| && s.cmds[d] == v.mux.cmds[d] && s.chans == v.mux.chans && READER !in s.held
  {
    assert HeldOk(v.mux, READER);
  }

  /** A reader that holds somebody's frame delivers it first. */
  lemma FreeReader<M(!new)>(h: Handler<M>, m: M, w: World<M>, es0: seq<Event>, v: World<M>, d: nat, q: seq<byte>)
    returns (es: seq<Event>, t: World<M>)
    requires Echoes(h) && Reaches(h, m, w, es0, v) && Listening(v, d, q) && READER in v.mux.held
    ensures Reaches(h, m, w, es, t) && es0 <= es && Listening(t, d, q)
    ensures t.mux.cmds[d].sid == v.mux.cmds[d].sid && READER !in t.mux.held
    ensures t == v.(mux := t.mux)
  {
    DeliveryElsewhere(v, d, q);
    es, t := Step(h, m, w, es0, v, Local(Deliver(READER)));
  }

  /** Responses under other ids pass the listening command by. */
  lemma OthersPass<M>(v: World<M>, d: nat, q: seq<byte>, f: FinsFrame, t: World<M>)
    requires Inv(v.mux) && Listening(v, d, q) && READER !in v.mux.held && f.header.sid != v.mux.cmds[d].sid
    requires t.mux == Apply(v.mux, LookUp(READER, f)) && t.written == v.written
    ensures Listening(t, d, q) && t.mux.cmds[d].sid == v.mux.cmds[d].sid
  {
  }

  lemma HandOver<M(!new)>(h: Handler<M>, m: M, w: World<M>, es0: seq<Event>, v: World<M>, d: nat, f: FinsFrame)
    returns (es: seq<Event>, t: World<M>)
    requires Echoes(h) && Reaches(h, m, w, es0, v)
    requires READER in v.mux.held && v.mux.held[READER] == Held(d, f) && d < |v.mux.cmds| && Untouched(v.mux.cmds[d].chan)
    ensures Reaches(h, m, w, es, t) && es0 <= es && t == v.(mux := t.mux) && |t.mux.cmds| == |v.mux.cmds|
    ensures t.mux.chans == v.mux.chans
    ensures t.mux.cmds[d] == v.mux.cmds[d].(chan := Channel(Some(f), 1, 0))
  {
    es, t := Step(h, m, w, es0, v, Local(Deliver(READER)));
  }

  /** A response under its id finds the listening command. */
  lemma Found<M>(v: World<M>, d: nat, q: seq<byte>, f: FinsFrame, t: World<M>)
    requires Listening(v, d, q) && READER !in v.mux.held && f.header.sid == v.mux.cmds[d].sid
    requires t.mux == Apply(v.mux, LookUp(READER, f))
    ensures READER in t.mux.held && t.mux.held[READER] == Held(d, f) && t.mux.cmds == v.mux.cmds
    ensures f.header.sid !in t.mux.chans
  {
  }

  /** The i-th response is the next one under d's id. */
  ghost predicate NextUnder<M>(w: World<M>, d: nat, i: nat)
    requires d < |w.mux.cmds|
  {
    && w.read <= i < |w.requests| && w.requests[i].header.sid == w.mux.cmds[d].sid
    && forall j :: w.read <= j < i ==> w.requests[j].header.sid != w.mux.cmds[d].sid
  }

  /** Serving and reading on, the listening command is the one that gets it. */
  lemma {:induction false} Overhear<M(!new)>(h: Handler<M>, m: M, w: World<M>, es0: seq<Event>, v: World<M>,
                                             d: nat, q: seq<byte>, i: nat)
    returns (es: seq<Event>, t: World<M>)
    requires Echoes(h) && Reaches(h, m, w, es0, v) && v.connected
    requires Listening(v, d, q) && NextUnder(v, d, i)
    ensures Reaches(h, m, w, es, t) && es0 <= es
    ensures i < |t.served| && t.written == v.written && t.requests == v.requests
    ensures At(t.mux, d, Registered) && t.mux.cmds[d].payload == q
    ensures t.mux.cmds[d].chan == Channel(Some(t.served[i].response), 1, 0)
    ensures t.connected && t.mux.cmds[d].sid !in t.mux.chans
    decreases i - v.read, if |v.served| <= i then i + 1 - |v.served| else 0, if READER in v.mux.held then 1 else 0
  {
    if READER in v.mux.held {
      es, t := FreeReader(h, m, w, es0, v, d, q);
      es, t := Overhear(h, m, w, es, t, d, q, i);
    } else if |v.served| <= i {
      es, t := ServeNext(h, m, w, es0, v);
      es, t := Overhear(h, m, w, es, t, d, q, i);
    } else {
      es, t := ReadNext(h, m, w, es0, v);
      if v.read < i {
        OthersPass(v, d, q, v.served[v.read].response, t);
        es, t := Overhear(h, m, w, es, t, d, q, i);
      } else {
        Found(v, d, q, v.served[i].response, t);
        es, t := HandOver(h, m, w, es, t, d, v.served[i].response);
      }
    }
  }

  /** With a response in its channel, the command writes its request, receives and returns. */
  lemma Conclude<M(!new)>(h: Handler<M>, m: M, w: World<M>, es0: seq<Event>, v: World<M>, d: nat, f: FinsFrame)
    returns (es: seq<Event>, t: World<M>)
    requires Echoes(h) && Reaches(h, m, w, es0, v)
    requires At(v.mux, d, Registered) && |v.mux.cmds[d].payload| >= 2 && v.mux.cmds[d].chan.buffer == Some(f)
    ensures Reaches(h, m, w, es, t) && es0 <= es
    ensures At(t.mux, d, Returned(Reply(f))) && t.mux.cmds[d].payload == v.mux.cmds[d].payload
    ensures t.written == v.written + [d] && t.served == v.served && v.requests <= t.requests
  {
    es, t := Step(h, m, w, es0, v, WriteRequest(d));
    assert At(t.mux, d, Waiting) && t.mux.cmds[d].chan.buffer == Some(f);
    es, t := ReceiveAndReturn(h, m, w, es, t, d, f);
  }

  lemma ReceivedFrame(s: State, d: nat, f: FinsFrame)
    requires At(s, d, Waiting) && s.cmds[d].chan.buffer == Some(f)
    ensures var u := Apply(s, Receive(d));
      && At(u, d, Finishing(Reply(f))) && u.cmds[d].payload == s.cmds[d].payload
      && At(Apply(u, Return(d)), d, Returned(Reply(f))) && Apply(u, Return(d)).cmds[d].payload == s.cmds[d].payload
  {
  }

  lemma ReturnIt<M(!new)>(h: Handler<M>, m: M, w: World<M>, es0: seq<Event>, v: World<M>, d: nat)
    returns (es: seq<Event>, t: World<M>)
    requires Echoes(h) && Reaches(h, m, w, es0, v) && Enabled(v.mux, Return(d))
    ensures Reaches(h, m, w, es, t) && es0 <= es && t == v.(mux := Apply(v.mux, Return(d)))
  {
    es, t := Step(h, m, w, es0, v, Local(Return(d)));
  }

  lemma ReceiveAndReturn<M(!new)>(h: Handler<M>, m: M, w: World<M>, es0: seq<Event>, v: World<M>, d: nat, f: FinsFrame)
    returns (es: seq<Event>, t: World<M>)
    requires Echoes(h) && Reaches(h, m, w, es0, v)
    requires At(v.mux, d, Waiting) && v.mux.cmds[d].chan.buffer == Some(f)
    ensures Reaches(h, m, w, es, t) && es0 <= es && t == v.(mux := t.mux)
    ensures At(t.mux, d, Returned(Reply(f))) && t.mux.cmds[d].payload == v.mux.cmds[d].payload
  {
    es, t := Step(h, m, w, es0, v, Local(Receive(d)));
    ReceivedFrame(v.mux, d, f);
    es, t := ReturnIt(h, m, w, es, t, d);
  }

  lemma {:induction false} FirstUnder<M>(w: World<M>, d: nat, i: nat) returns (first: nat)
    requires d < |w.mux.cmds| && w.read <= i < |w.requests| && w.requests[i].header.sid == w.mux.cmds[d].sid
    ensures NextUnder(w, d, first)
    decreases i
  {
    if j :| w.read <= j < i && w.requests[j].header.sid == w.mux.cmds[d].sid {
      first := FirstUnder(w, d, j);
    } else {
      first := i;
    }
  }

  /** `d` returned the response to the i-th request, another command's, and its own was never handled. */
  ghost predicate Mismatched<M>(t: World<M>, d: nat, q: seq<byte>, i: nat) {
    && i < |t.served| < |t.written| && At(t.mux, d, Returned(Reply(t.served[i].response)))
    && t.mux.cmds[d].payload == q
    && forall j :: 0 <= j < |t.served| ==> t.written[j] != d
  }

  lemma RequestUnderWay<M>(w: World<M>, c: nat) returns (k: nat)
    requires Commands(w) && OnWire(w, c) && c < |w.mux.cmds|
    ensures w.read <= k < |w.requests| && w.requests[k].header.sid == w.mux.cmds[c].sid
  {
    k :| w.read <= k < |w.written| && w.written[k] == c;
    assert w.requests[k] == RequestOf(w, c);
  }

  lemma NotAmong(cs: seq<nat>, d: nat)
    requires d !in cs
    ensures forall j :: 0 <= j < |cs| ==> cs[j] != d
  {
  }

  lemma Listen<M(!new)>(h: Handler<M>, m: M, w: World<M>, es0: seq<Event>, v: World<M>, d: nat, q: seq<byte>)
    returns (es: seq<Event>, t: World<M>)
    requires Echoes(h) && Reaches(h, m, w, es0, v) && At(v.mux, d, Drawn) && d !in v.written && v.mux.cmds[d].payload == q
    ensures Reaches(h, m, w, es, t) && es0 <= es && Listening(t, d, q)
    ensures t == v.(mux := t.mux) && t.mux.cmds[d].sid == v.mux.cmds[d].sid
  {
    assert CommandOk(v.mux, d);
    es, t := Step(h, m, w, es0, v, Local(Register(d)));
  }

  /** A command on the wire and a later one with its id that is about to register. */
  lemma Collide<M(!new)>(h: Handler<M>, m: M, w: World<M>, es0: seq<Event>, v: World<M>, c: nat, d: nat, q: seq<byte>)
    returns (es: seq<Event>, t: World<M>, i: nat)
    requires Echoes(h) && Reaches(h, m, w, es0, v) && v.connected
    requires OnWire(v, c) && c < |v.mux.cmds| && At(v.mux, d, Drawn) && d !in v.written
    requires v.mux.cmds[c].sid == v.mux.cmds[d].sid && v.mux.cmds[d].payload == q && |q| >= 2
    ensures Reaches(h, m, w, es, t) && es0 <= es
    ensures Mismatched(t, d, q, i) && t.written == v.written + [d] && v.requests <= t.requests
  {
    var k := RequestUnderWay(v, c);
    es, t := Listen(h, m, w, es0, v, d, q);
    i := FirstUnder(t, d, k);
    es, t := Overhear(h, m, w, es, t, d, q, i);
    var u := t;
    es, t := Conclude(h, m, w, es, t, d, u.served[i].response);
    NotAmong(v.written, d);
  }

  lemma WriteOut<M(!new)>(h: Handler<M>, m: M, w: World<M>, es0: seq<Event>, v: World<M>, c: nat)
    returns (es: seq<Event>, t: World<M>)
    requires Echoes(h) && Reaches(h, m, w, es0, v) && At(v.mux, c, Registered)
    ensures Reaches(h, m, w, es, t) && es0 <= es && t.connected == v.connected
    ensures OnWire(t, c) && t.written == v.written + [c] && v.requests <= t.requests
    ensures t.mux.cmds == v.mux.cmds[c := v.mux.cmds[c].(phase := Waiting)] && t.mux.chans == v.mux.chans
  {
    assert CommandOk(v.mux, c);
    es, t := Step(h, m, w, es0, v, WriteRequest(c));
    assert t.written[|v.written|] == c;
  }

  /** A drawn or registered command gets its request on the wire. */
  lemma PutOut<M(!new)>(h: Handler<M>, m: M, w: World<M>, es0: seq<Event>, v: World<M>, c: nat)
    returns (es: seq<Event>, t: World<M>)
    requires Echoes(h) && Reaches(h, m, w, es0, v) && c < |v.mux.cmds| && Unwritten(v.mux, c)
    ensures Reaches(h, m, w, es, t) && es0 <= es && t.connected == v.connected
    ensures OnWire(t, c) && t.written == v.written + [c] && v.requests <= t.requests && |t.mux.cmds| == |v.mux.cmds|
    ensures t.mux.cmds[c].sid == v.mux.cmds[c].sid
    ensures forall d :: 0 <= d < |v.mux.cmds| && d != c ==> t.mux.cmds[d] == v.mux.cmds[d]
  {
    es, t := es0, v;
    if v.mux.cmds[c].phase.Drawn? {
      es, t := Step(h, m, w, es0, v, Local(Register(c)));
    }
    es, t := WriteOut(h, m, w, es, t, c);
  }

  /**
   * The other half of matching: from every reachable connected world in which the next draw would
   * take the id of a command that is unwritten or on the wire, drawing it can go on so that the
   * new command returns the response to another command's request.
   */
  lemma RedrawCanMisdeliver<M(!new)>(h: Handler<M>, src: FinsAddress, dest: FinsAddress, m: M,
                                     es: seq<Event>, w: World<M>, c: nat, q: seq<byte>)
    returns (more: seq<Event>, t: World<M>, i: nat)
    requires Echoes(h) && Happens(h, Start(src, dest, m), es, w) && w.connected && |q| >= 2 && Session.Fits(q)
    requires Active(w, c) && w.mux.cmds[c].sid == NextSid(w.mux.counter)
    ensures Reaches(h, m, w, more, t) && [Local(Draw(q))] <= more
    ensures Mismatched(t, |w.mux.cmds|, q, i) && w.requests <= t.requests
    ensures OnWire(w, c) ==> t.written == w.written + [|w.mux.cmds|]
  {
    StartInv(h, src, dest, m);
    WorldRun(h, m, Start(src, dest, m), es, w);
    var d := |w.mux.cmds|;
    more, t := Redraw(h, m, w, c, q);
    if !OnWire(w, c) {
      more, t := PutOut(h, m, w, more, t, c);
    }
    more, t, i := Collide(h, m, w, more, t, c, d, q);
  }

  lemma Redraw<M(!new)>(h: Handler<M>, m: M, w: World<M>, c: nat, q: seq<byte>) returns (es: seq<Event>, t: World<M>)
    requires Echoes(h) && WorldInv(h, m, w) && |q| >= 2 && Session.Fits(q)
    requires c < |w.mux.cmds| && w.mux.cmds[c].sid == NextSid(w.mux.counter)
    ensures Reaches(h, m, w, es, t) && [Local(Draw(q))] <= es && t == w.(mux := t.mux)
    ensures var d := |w.mux.cmds|;
      && |t.mux.cmds| == d + 1 && At(t.mux, d, Drawn) && t.mux.cmds[d].payload == q && d !in t.written
      && t.mux.cmds[d].sid == t.mux.cmds[c].sid && t.mux.cmds[c] == w.mux.cmds[c]
    ensures OnWire(w, c) ==> OnWire(t, c)
  {
    es, t := Step(h, m, w, [], w, Local(Draw(q)));
    es := [Local(Draw(q))];
    assert es[1..] == [];
    if OnWire(w, c) {
      var i :| w.read <= i < |w.written| && w.written[i] == c;
      assert t.written[i] == c;
    }
  }

  /** In the words of the discipline: a draw that is not free can end in a mismatch. */
  lemma DisciplineIsNeeded<M(!new)>(h: Handler<M>, src: FinsAddress, dest: FinsAddress, m: M,
                                    es: seq<Event>, w: World<M>, q: seq<byte>)
    returns (more: seq<Event>, t: World<M>, i: nat)
    requires Echoes(h) && Happens(h, Start(src, dest, m), es, w) && w.connected && |q| >= 2 && Session.Fits(q)
    requires !FreshDraw(w)
    ensures Happens(h, w, more, t) && [Local(Draw(q))] <= more && Mismatched(t, |w.mux.cmds|, q, i)
  {
    var c: nat :| Active(w, c) && w.mux.cmds[c].sid == NextSid(w.mux.counter);
    more, t, i := RedrawCanMisdeliver(h, src, dest, m, es, w, c, q);
  }

  /**
   * There are such worlds: for every handler and every two commands p and q there is a run in
   * which the 256th command sends q and returns the response to p, the request of the first
   * command, which timed out.
   */
  lemma StaleReply<M(!new)>(h: Handler<M>, src: FinsAddress, dest: FinsAddress, m: M, p: seq<byte>, q: seq<byte>)
    returns (es: seq<Event>, t: World<M>)
    requires Echoes(h) && |p| >= 2 && |q| >= 2 && Session.Fits(p) && Session.Fits(q)
    ensures Happens(h, Start(src, dest, m), es, t)
    ensures 255 < |t.mux.cmds| && t.mux.cmds[255].payload == q
    ensures At(t.mux, 255, Returned(Reply(h(m, RequestFrame(src, dest, 1, p)).1)))
  {
    var w, v := Start(src, dest, m), Start(src, dest, m);
    es, v := Abandon(h, src, dest, m, p);
    AbandonedInv(p);
    var s := RunDraws(v.mux, q, 254);
    es := DrawsHappen(h, w, es, v, q, 254, s);
    v := v.(mux := s);
    FirstIsNext(s);
    assert v.written[0] == 0 && OnWire(v, 0);
    var more, i;
    more, t, i := RedrawCanMisdeliver(h, src, dest, m, es, v, 0, q);
    assert t.written[i] != 255 && i == 0;
    FirstResponse(h, m, t);
    HappensAppend(h, w, es, v, more, t);
    es := es + more;
  }

  lemma FirstResponse<M>(h: Handler<M>, m: M, t: World<M>)
    requires Sequential(h, m, t) && |t.served| > 0
    ensures t.served[0].response == h(m, t.requests[0]).1
  {
    assert ServedInTurn(h, m, t.requests, 0, t.served[0]);
    assert t.requests[..0] == [];
  }

  /** After 255 draws the next id is the first again. */
  lemma FirstIsNext(s: State)
    requires Inv(s) && |s.cmds| == 255
    ensures s.cmds[0].sid == 1 == NextSid(s.counter)
  {
    assert CommandOk(s, 0);
  }

  lemma {:induction false} HappensAppend<M>(h: Handler<M>, w: World<M>, a: seq<Event>, v: World<M>, b: seq<Event>, t: World<M>)
    requires Happens(h, w, a, v) && Happens(h, v, b, t)
    ensures Happens(h, w, a + b, t)
    decreases |a|
  {
    if a == [] {
      assert a + b == b;
    } else {
      assert (a + b)[0] == a[0] && (a + b)[1..] == a[1..] + b;
      HappensAppend(h, Happen(h, w, a[0]), a[1..], v, b, t);
    }
  }
}
