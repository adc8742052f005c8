/**
 * One connection end to end: concurrent senders on the client, two byte streams with arbitrary
 * chunking, the server's drain loop around a request handler, the client's drain loop and
 * dispatcher. The handler is a parameter: any function that echoes the service id will do.
 */
module Session {
  import opened Bytes
  import opened Protocol
  import opened Stream
  import opened Mux

  /** A request handler: new memory and response frame. */
  type Handler<!M> = (M, FinsFrame) -> (M, FinsFrame)

  /** What matching needs of it: the response carries the request's id and can be framed. */
  ghost predicate Echoes<M(!new)>(h: Handler<M>) {
    forall m, f :: h(m, f).1.header.sid == f.header.sid && Sendable(h(m, f).1)
  }

  /** One request the server handled, with the memory it met and the response it wrote. */
  datatype Served<M> = Served(before: M, request: FinsFrame, response: FinsFrame)

  /**
   * `written` and `requests` record the commands in the order their bytes entered the stream,
   * `served` what the server did, `read` how many responses the client's reader has taken.
   */
  datatype World<M> = World(
    src: FinsAddress, dest: FinsAddress,
    mux: State, connected: bool,
    toServer: seq<byte>, serverAcc: seq<byte>, toClient: seq<byte>, clientAcc: seq<byte>, mem: M,
    written: seq<nat>, requests: seq<FinsFrame>, served: seq<Served<M>>, read: nat)

  datatype Event =
    | Local(a: Action)             // a client step that touches no stream
    | WriteRequest(c: nat)
    | ServerReceives(n: nat)       // the next n bytes arrive, however TCP cuts them
    | ServerTurn                   // one turn of the server's inner loop
    | ClientReceives(n: nat)
    | ClientTurn                   // one turn of the client's inner loop, up to the map lookup
    | Disconnect                   // close and sweep
    | ConnectionLost               // the reader met an error; nothing is swept

  const READER := 0

  function Start<M>(src: FinsAddress, dest: FinsAddress, m: M): World<M> {
    World(src, dest, Init(), true, [], [], [], [], m, [], [], [], 0)
  }

  function RequestOf<M>(w: World<M>, c: nat): FinsFrame
    requires c < |w.mux.cmds| && |w.mux.cmds[c].payload| >= 2
  {
    RequestFrame(w.src, w.dest, w.mux.cmds[c].sid, w.mux.cmds[c].payload)
  }

  /** Commands whose frame length fits the 32-bit length field. */
  predicate Fits(payload: seq<byte>) {
    |payload| + 16 < 0x1_0000_0000
  }

  /**
   * A send tests the connected flag once, before it draws; a lost connection can come at any point
   * after that, so neither draw nor write depends on the flag here.
   */
  predicate CanHappen<M>(w: World<M>, e: Event) {
    match e
    case Local(a) =>
      && Enabled(w.mux, a)
      && (a.Draw? || a.Register? || a.FailWrite? || a.Deliver? || a.Receive? || a.GiveUp? || a.Return?)
      && (a.Draw? ==> Fits(a.payload))
    case WriteRequest(c) => Enabled(w.mux, Write(c)) && |w.mux.cmds[c].payload| >= 2
    case ServerReceives(n) => n <= |w.toServer|
    case ServerTurn => !NextTurn(w.serverAcc).NeedMore?
    case ClientReceives(n) => w.connected && n <= |w.toClient|
    case ClientTurn => READER !in w.mux.held && !NextTurn(w.clientAcc).NeedMore?
    case Disconnect => w.connected
    case ConnectionLost => w.connected
  }

  function Serve<M>(h: Handler<M>, w: World<M>, f: FinsFrame, n: nat): World<M>
    requires n <= |w.serverAcc|
  {
    var (m, resp) := h(w.mem, f);
    w.(mem := m, serverAcc := w.serverAcc[n..], toClient := w.toClient + WireBytes(resp),
       served := w.served + [Served(w.mem, f, resp)])
  }

  function ReadReply<M>(w: World<M>, f: FinsFrame, n: nat): World<M>
    requires n <= |w.clientAcc| && READER !in w.mux.held
  {
    w.(clientAcc := w.clientAcc[n..], mux := Apply(w.mux, LookUp(READER, f)), read := w.read + 1)
  }

  function PutOnWire<M>(w: World<M>, c: nat): World<M>
    requires Enabled(w.mux, Write(c)) && |w.mux.cmds[c].payload| >= 2
  {
    var f := RequestOf(w, c);
    w.(mux := Apply(w.mux, Write(c)), toServer := w.toServer + WireBytes(f),
       written := w.written + [c], requests := w.requests + [f])
  }

  function Happen<M>(h: Handler<M>, w: World<M>, e: Event): World<M>
    requires CanHappen(w, e)
  {
    match e
    case Local(a) => w.(mux := Apply(w.mux, a))
    case WriteRequest(c) => PutOnWire(w, c)
    case ServerReceives(n) => w.(serverAcc := w.serverAcc + w.toServer[..n], toServer := w.toServer[n..])
    case ServerTurn => (
      match NextTurn(w.serverAcc)
      case NeedMore => w
      case Skip => w.(serverAcc := w.serverAcc[1..])
      case Take(None, n) => w.(serverAcc := w.serverAcc[n..])
      case Take(Some(f), n) => Serve(h, w, f, n))
    case ClientReceives(n) => w.(clientAcc := w.clientAcc + w.toClient[..n], toClient := w.toClient[n..])
    case ClientTurn => (
      match NextTurn(w.clientAcc)
      case NeedMore => w
      case Skip => w.(clientAcc := w.clientAcc[1..])
      case Take(None, n) => w.(clientAcc := w.clientAcc[n..])
      case Take(Some(f), n) => ReadReply(w, f, n))
    case Disconnect => w.(mux := Apply(w.mux, Sweep), connected := false)
    case ConnectionLost => w.(connected := false)
  }

  // ----- what the streams carry -----

  function Replies<M>(served: seq<Served<M>>): (r: seq<FinsFrame>)
    ensures |r| == |served|
  {
    seq(|served|, i requires 0 <= i < |served| => served[i].response)
  }

  /** Memory after the first k requests served. */
  ghost function MemoryAfter<M>(h: Handler<M>, m: M, requests: seq<FinsFrame>): M
  {
    if requests == [] then m
    else h(MemoryAfter(h, m, requests[..|requests| - 1]), requests[|requests| - 1]).0
  }

  /** The i-th response is the handler's, on the memory that the requests before it left. */
  ghost predicate Sequential<M>(h: Handler<M>, m: M, w: World<M>) {
    && |w.served| <= |w.requests|
    && (forall i :: 0 <= i < |w.served| ==> ServedInTurn(h, m, w.requests, i, w.served[i]))
    && w.mem == MemoryAfter(h, m, w.requests[..|w.served|])
  }

  ghost predicate ServedInTurn<M>(h: Handler<M>, m: M, requests: seq<FinsFrame>, i: nat, x: Served<M>)
    requires i < |requests|
  {
    && x.request == requests[i]
    && x.before == MemoryAfter(h, m, requests[..i])
    && x.response == h(x.before, x.request).1
  }

  lemma MemoryAfterNext<M>(h: Handler<M>, m: M, requests: seq<FinsFrame>, k: nat)
    requires k < |requests|
    ensures MemoryAfter(h, m, requests[..k + 1]) == h(MemoryAfter(h, m, requests[..k]), requests[k]).0
  {
    assert requests[..k + 1][..k] == requests[..k];
  }

  ghost predicate Commands<M>(w: World<M>) {
    && Inv(w.mux)
    && (forall r :: r in w.mux.held ==> r == READER)
    && (forall c :: 0 <= c < |w.mux.cmds| ==> |w.mux.cmds[c].payload| >= 2 && Fits(w.mux.cmds[c].payload))
    && |w.written| == |w.requests|
    && (forall i :: 0 <= i < |w.written| ==>
          w.written[i] < |w.mux.cmds| && w.requests[i] == RequestOf(w, w.written[i]))
  }

  /** Bytes under way are exactly the requests not yet served and the responses not yet read. */
  ghost predicate Streams<M>(w: World<M>) {
    && w.read <= |w.served| <= |w.requests|
    && AllSendable(w.requests) && AllSendable(Replies(w.served))
    && w.serverAcc + w.toServer == WireAll(w.requests[|w.served|..])
    && w.clientAcc + w.toClient == WireAll(Replies(w.served)[w.read..])
  }

  ghost predicate WorldInv<M>(h: Handler<M>, m: M, w: World<M>) {
    Commands(w) && Streams(w) && Sequential(h, m, w)
  }

  /** A drain loop working on a stream of whole frames takes the first of them, and only that. */
  lemma TurnTakesHead(acc: seq<byte>, coming: seq<byte>, fs: seq<FinsFrame>)
    requires acc + coming == WireAll(fs) && AllSendable(fs)
    requires !NextTurn(acc).NeedMore?
    ensures fs != []
    ensures NextTurn(acc) == Take(Some(fs[0]), |WireBytes(fs[0])|)
    ensures acc[|WireBytes(fs[0])|..] + coming == WireAll(fs[1..])
  {
    assert 0 < |acc| <= |WireAll(fs)|;
    TurnStable(acc, coming);
    TurnOnWire(fs[0], WireAll(fs[1..]));
    SplitAppend(acc, coming, |WireBytes(fs[0])|);
    DropPrefix(WireBytes(fs[0]), WireAll(fs[1..]));
  }

  lemma DropPrefix(a: seq<byte>, b: seq<byte>)
    ensures (a + b)[|a|..] == b
  {
  }

  lemma WireSnoc(fs: seq<FinsFrame>, k: nat, f: FinsFrame)
    requires k <= |fs|
    ensures WireAll((fs + [f])[k..]) == WireAll(fs[k..]) + WireBytes(f)
  {
    assert (fs + [f])[k..] == fs[k..] + [f];
    WireAllAppend(fs[k..], [f]);
    assert [f][1..] == [];
    assert WireAll([f]) == WireBytes(f);
  }

  /** A frame written at the end of a stream. */
  lemma StreamGrows(acc: seq<byte>, coming: seq<byte>, fs: seq<FinsFrame>, k: nat, f: FinsFrame)
    requires k <= |fs| && acc + coming == WireAll(fs[k..])
    ensures acc + (coming + WireBytes(f)) == WireAll((fs + [f])[k..])
  {
    WireSnoc(fs, k, f);
    Regroup(acc, coming, WireBytes(f));
  }

  lemma Regroup(a: seq<byte>, b: seq<byte>, c: seq<byte>)
    ensures a + (b + c) == (a + b) + c
  {
  }

  lemma RepliesSnoc<M>(served: seq<Served<M>>, x: Served<M>)
    ensures Replies(served + [x]) == Replies(served) + [x.response]
  {
  }

  /** A mux step keeps ids and payloads, so the recorded requests stay those of their commands. */
  lemma MuxKeepsRequests<M>(w: World<M>, a: Action, t: World<M>)
    requires Commands(w) && Enabled(w.mux, a)
    requires a.Draw? ==> Fits(a.payload)
    requires a.LookUp? ==> a.reader == READER
    requires t.mux == Apply(w.mux, a) && t.src == w.src && t.dest == w.dest
    requires t.written == w.written && t.requests == w.requests
    ensures Commands(t)
  {
    InvStep(w.mux, a);
    if !a.Draw? {
      StepProvenance(w.mux, a);
      forall c | 0 <= c < |w.mux.cmds|
        ensures t.mux.cmds[c].sid == w.mux.cmds[c].sid && t.mux.cmds[c].payload == w.mux.cmds[c].payload
      {
        assert CommandProvenance(w.mux, a, c);
      }
      forall r | r in t.mux.held ensures r == READER {
        assert HeldProvenance(w.mux, a, r);
      }
    }
  }

  lemma CommandsOnWire<M>(w: World<M>, c: nat)
    requires Commands(w) && Enabled(w.mux, Write(c))
    ensures Commands(PutOnWire(w, c))
  {
    MuxKeepsRequests(w, Write(c), w.(mux := Apply(w.mux, Write(c))));
  }

  lemma StreamsOnWire<M>(w: World<M>, c: nat)
    requires Commands(w) && Streams(w) && Enabled(w.mux, Write(c))
    ensures Streams(PutOnWire(w, c))
  {
    var f := RequestOf(w, c);
    assert Sendable(f);
    StreamGrows(w.serverAcc, w.toServer, w.requests, |w.served|, f);
  }

  lemma SequenceOnWire<M>(h: Handler<M>, m: M, w: World<M>, c: nat)
    requires Sequential(h, m, w) && Enabled(w.mux, Write(c)) && |w.mux.cmds[c].payload| >= 2
    ensures Sequential(h, m, PutOnWire(w, c))
  {
    var t := PutOnWire(w, c);
    forall i | 0 <= i < |w.served| ensures ServedInTurn(h, m, t.requests, i, t.served[i]) {
      assert ServedInTurn(h, m, w.requests, i, w.served[i]);
      assert t.requests[..i] == w.requests[..i];
    }
    assert t.requests[..|w.served|] == w.requests[..|w.served|];
  }

  /** The server takes the oldest request not yet served. */
  lemma ServerTurnServes<M>(h: Handler<M>, w: World<M>)
    requires Streams(w) && CanHappen(w, ServerTurn)
    ensures |w.served| < |w.requests|
    ensures var f := w.requests[|w.served|];
      var n := |WireBytes(f)|;
      && n <= |w.serverAcc| && Happen(h, w, ServerTurn) == Serve(h, w, f, n)
      && w.serverAcc[n..] + w.toServer == WireAll(w.requests[|w.served| + 1..])
  {
    var k := |w.served|;
    var pending := w.requests[k..];
    TurnTakesHead(w.serverAcc, w.toServer, pending);
    assert pending[0] == w.requests[k] && pending[1..] == w.requests[k + 1..];
  }

  lemma InvServerTurn<M(!new)>(h: Handler<M>, m: M, w: World<M>)
    requires Echoes(h) && WorldInv(h, m, w) && CanHappen(w, ServerTurn)
    ensures WorldInv(h, m, Happen(h, w, ServerTurn))
  {
    ServerTurnServes(h, w);
    var f := w.requests[|w.served|];
    ServeKeepsStreams(h, w, f, |WireBytes(f)|);
    ServeKeepsSequence(h, m, w, f, |WireBytes(f)|);
    SameCommands(w, Serve(h, w, f, |WireBytes(f)|));
  }

  lemma SameCommands<M>(w: World<M>, t: World<M>)
    requires Commands(w) && t.mux == w.mux && t.src == w.src && t.dest == w.dest
    requires t.written == w.written && t.requests == w.requests
    ensures Commands(t)
  {
  }

  lemma ServeKeepsStreams<M(!new)>(h: Handler<M>, w: World<M>, f: FinsFrame, n: nat)
    requires Echoes(h) && Streams(w) && |w.served| < |w.requests|
    requires n <= |w.serverAcc| && w.serverAcc[n..] + w.toServer == WireAll(w.requests[|w.served| + 1..])
    ensures Streams(Serve(h, w, f, n))
  {
    var resp := h(w.mem, f).1;
    var x := Served(w.mem, f, resp);
    RepliesSnoc(w.served, x);
    StreamGrows(w.clientAcc, w.toClient, Replies(w.served), w.read, resp);
    assert Sendable(resp);
  }

  lemma ServeKeepsSequence<M>(h: Handler<M>, m: M, w: World<M>, f: FinsFrame, n: nat)
    requires Sequential(h, m, w) && n <= |w.serverAcc|
    requires |w.served| < |w.requests| && f == w.requests[|w.served|]
    ensures Sequential(h, m, Serve(h, w, f, n))
  {
    var k := |w.served|;
    var t := Serve(h, w, f, n);
    MemoryAfterNext(h, m, w.requests, k);
    forall i | 0 <= i < |t.served| ensures ServedInTurn(h, m, t.requests, i, t.served[i]) {
      if i < k {
        assert ServedInTurn(h, m, w.requests, i, w.served[i]);
      }
    }
  }

  /** The client's reader gets the responses in the order the server wrote them. */
  lemma InvClientTurn<M>(h: Handler<M>, m: M, w: World<M>)
    requires WorldInv(h, m, w) && CanHappen(w, ClientTurn)
    ensures w.read < |w.served|
    ensures var f := w.served[w.read].response;
      |WireBytes(f)| <= |w.clientAcc| && Happen(h, w, ClientTurn) == ReadReply(w, f, |WireBytes(f)|)
    ensures WorldInv(h, m, Happen(h, w, ClientTurn))
  {
    var pending := Replies(w.served)[w.read..];
    TurnTakesHead(w.clientAcc, w.toClient, pending);
    var f := pending[0];
    assert pending[1..] == Replies(w.served)[w.read + 1..];
    MuxKeepsRequests(w, LookUp(READER, f), ReadReply(w, f, |WireBytes(f)|));
  }

  /** Delivery moves bytes from one end of a stream to the other. */
  lemma InvReceives<M>(h: Handler<M>, m: M, w: World<M>, e: Event)
    requires WorldInv(h, m, w) && CanHappen(w, e) && (e.ServerReceives? || e.ClientReceives?)
    ensures WorldInv(h, m, Happen(h, w, e))
  {
    var t := Happen(h, w, e);
    if e.ServerReceives? {
      MovedBytes(w.serverAcc, w.toServer, e.n);
      SameStreams(w, t);
    } else {
      MovedBytes(w.clientAcc, w.toClient, e.n);
      SameStreams(w, t);
    }
  }

  lemma SameStreams<M>(w: World<M>, t: World<M>)
    requires Streams(w) && t.read == w.read && t.served == w.served && t.requests == w.requests
    requires t.serverAcc + t.toServer == w.serverAcc + w.toServer
    requires t.clientAcc + t.toClient == w.clientAcc + w.toClient
    ensures Streams(t)
  {
  }

  lemma MovedBytes(a: seq<byte>, b: seq<byte>, n: nat)
    ensures n <= |b| ==> (a + b[..n]) + b[n..] == a + b
  {
  }

  /** A client step that touches no stream. */
  lemma InvMuxStep<M>(h: Handler<M>, m: M, w: World<M>, a: Action, t: World<M>)
    requires WorldInv(h, m, w) && Enabled(w.mux, a) && !a.LookUp? && (a.Draw? ==> Fits(a.payload))
    requires t == w.(mux := Apply(w.mux, a), connected := t.connected)
    ensures WorldInv(h, m, t)
  {
    MuxKeepsRequests(w, a, t);
    SameStreams(w, t);
  }

  lemma InvWriteRequest<M>(h: Handler<M>, m: M, w: World<M>, c: nat)
    requires WorldInv(h, m, w) && Enabled(w.mux, Write(c)) && |w.mux.cmds[c].payload| >= 2
    ensures WorldInv(h, m, PutOnWire(w, c))
  {
    CommandsOnWire(w, c);
    StreamsOnWire(w, c);
    SequenceOnWire(h, m, w, c);
  }

  lemma WorldStep<M(!new)>(h: Handler<M>, m: M, w: World<M>, e: Event)
    requires Echoes(h) && WorldInv(h, m, w) && CanHappen(w, e)
    ensures WorldInv(h, m, Happen(h, w, e))
  {
    match e
    case Local(a) => InvMuxStep(h, m, w, a, Happen(h, w, e));
    case WriteRequest(c) => InvWriteRequest(h, m, w, c);
    case ServerReceives(n) => InvReceives(h, m, w, e);
    case ServerTurn => InvServerTurn(h, m, w);
    case ClientReceives(n) => InvReceives(h, m, w, e);
    case ClientTurn => InvClientTurn(h, m, w);
    case Disconnect => InvMuxStep(h, m, w, Sweep, Happen(h, w, e));
    case ConnectionLost => SameCommands(w, Happen(h, w, e));
  }

  // ----- runs -----

  ghost predicate Happens<M>(h: Handler<M>, w: World<M>, es: seq<Event>, t: World<M>)
    decreases |es|
  {
    if es == [] then w == t
    else CanHappen(w, es[0]) && Happens(h, Happen(h, w, es[0]), es[1..], t)
  }

  lemma StartInv<M>(h: Handler<M>, src: FinsAddress, dest: FinsAddress, m: M)
    ensures WorldInv(h, m, Start(src, dest, m))
  {
    var none: seq<FinsFrame> := [];
    assert none[0..] == [] && none[..0] == [];
  }

  lemma {:induction false} WorldRun<M(!new)>(h: Handler<M>, m: M, w: World<M>, es: seq<Event>, t: World<M>)
    requires Echoes(h) && WorldInv(h, m, w) && Happens(h, w, es, t)
    ensures WorldInv(h, m, t)
    decreases |es|
  {
    if es != [] {
      WorldStep(h, m, w, es[0]);
      WorldRun(h, m, Happen(h, w, es[0]), es[1..], t);
    }
  }

  /**
   * In every run, with any chunking, the server executes the written requests one after another
   * in the order they were written, from the initial memory on.
   */
  lemma ServerIsSequential<M(!new)>(
    h: Handler<M>, src: FinsAddress, dest: FinsAddress, m: M, es: seq<Event>, t: World<M>, i: nat)
    requires Echoes(h) && Happens(h, Start(src, dest, m), es, t) && i < |t.served|
    ensures |t.served| <= |t.requests| == |t.written| && t.written[i] < |t.mux.cmds|
    ensures |t.mux.cmds[t.written[i]].payload| >= 2
    ensures t.served[i].request == t.requests[i] == RequestOf(t, t.written[i])
    ensures t.served[i].response == h(MemoryAfter(h, m, t.requests[..i]), t.requests[i]).1
  {
    StartInv(h, src, dest, m);
    WorldRun(h, m, Start(src, dest, m), es, t);
    assert ServedInTurn(h, m, t.requests, i, t.served[i]);
  }

  // ----- matching responses to commands -----

  /** Written, and its response not yet taken by the reader. */
  ghost predicate OnWire<M>(w: World<M>, c: nat) {
    exists i :: w.read <= i < |w.written| && w.written[i] == c
  }

  /** A command whose id must not be drawn again: its response is still to be read. */
  ghost predicate Active<M>(w: World<M>, c: nat) {
    c < |w.mux.cmds| && (Unwritten(w.mux, c) || OnWire(w, c))
  }

  /** The id the next draw would give out is free. */
  ghost predicate FreshDraw<M>(w: World<M>) {
    forall c: nat :: Active(w, c) ==> w.mux.cmds[c].sid != NextSid(w.mux.counter)
  }

  /** A run in which no id is drawn while an earlier command with it is unwritten or on the wire. */
  ghost predicate Disciplined<M>(h: Handler<M>, w: World<M>, es: seq<Event>, t: World<M>)
    decreases |es|
  {
    if es == [] then w == t
    else
      && CanHappen(w, es[0])
      && (es[0].Local? && es[0].a.Draw? ==> FreshDraw(w))
      && Disciplined(h, Happen(h, w, es[0]), es[1..], t)
  }

  /** `f` is what the server answered to command `c`. */
  ghost predicate Answer<M>(w: World<M>, c: nat, f: FinsFrame) {
    exists i :: 0 <= i < w.read && AnswerAt(w, i, c, f)
  }

  ghost predicate AnswerAt<M>(w: World<M>, i: nat, c: nat, f: FinsFrame) {
    i < |w.written| && i < |w.served| && w.written[i] == c && w.served[i].response == f
  }

  ghost predicate ActiveDistinct<M>(w: World<M>) {
    forall c: nat, d: nat :: Active(w, c) && Active(w, d) && w.mux.cmds[c].sid == w.mux.cmds[d].sid ==> c == d
  }

  /** Every frame a command's channel or result holds is that command's answer. */
  ghost predicate FrameMatched<M>(w: World<M>, c: nat)
    requires c < |w.mux.cmds|
  {
    && (w.mux.cmds[c].chan.buffer.Some? ==> Answer(w, c, w.mux.cmds[c].chan.buffer.value))
    && (ReplyOf(w.mux.cmds[c].phase).Some? ==> Answer(w, c, ReplyOf(w.mux.cmds[c].phase).value))
  }

  ghost predicate Matched<M>(w: World<M>) {
    && (forall r :: r in w.mux.held ==> Answer(w, w.mux.held[r].cmd, w.mux.held[r].frame))
    && (forall c :: 0 <= c < |w.mux.cmds| ==> FrameMatched(w, c))
  }

  /** Of the commands with one id, the entry is that of the one whose response is still to be read. */
  ghost predicate EntriesCurrent<M>(w: World<M>) {
    forall c: nat :: c < |w.mux.cmds| && Expecting(w, c) && w.mux.cmds[c].sid in w.mux.chans ==>
      w.mux.chans[w.mux.cmds[c].sid] == c
  }

  ghost predicate Expecting<M>(w: World<M>, c: nat)
    requires c < |w.mux.cmds|
  {
    w.mux.cmds[c].phase.Registered? || OnWire(w, c)
  }

  ghost predicate MatchInv<M>(w: World<M>) {
    ActiveDistinct(w) && EntriesCurrent(w) && Matched(w)
  }

  /** Entries stay current through any step but a draw; a command gets on the wire by its write only. */
  lemma CurrentAfter<M>(w: World<M>, a: Action, t: World<M>)
    requires ActiveDistinct(w) && EntriesCurrent(w) && Enabled(w.mux, a) && !a.Draw? && t.mux == Apply(w.mux, a)
    requires forall c: nat :: OnWire(t, c) ==> OnWire(w, c) || a == Write(c)
    ensures EntriesCurrent(t)
  {
    StepProvenance(w.mux, a);
    forall c: nat | c < |t.mux.cmds| && Expecting(t, c) && t.mux.cmds[c].sid in t.mux.chans
      ensures t.mux.chans[t.mux.cmds[c].sid] == c
    {
      var k := t.mux.cmds[c].sid;
      assert CommandProvenance(w.mux, a, c) && EntryProvenance(w.mux, a, k);
      assert Active(w, c);
      if a.Register? && w.mux.cmds[a.c].sid == k {
        assert Active(w, a.c);
      } else {
        assert Expecting(w, c);
      }
    }
  }

  lemma AnswerStays<M>(w: World<M>, t: World<M>, c: nat, f: FinsFrame)
    requires w.read <= t.read && w.written <= t.written && w.served <= t.served
    requires Answer(w, c, f)
    ensures Answer(t, c, f)
  {
    var i :| 0 <= i < w.read && AnswerAt(w, i, c, f);
    assert AnswerAt(t, i, c, f);
  }

  /** A step that settles where frames went keeps them matched, if any new lookup was right. */
  lemma MatchedAfter<M>(w: World<M>, a: Action, t: World<M>)
    requires Matched(w) && Enabled(w.mux, a) && !a.Draw? && t.mux == Apply(w.mux, a)
    requires w.read <= t.read && w.written <= t.written && w.served <= t.served
    requires a.LookUp? && a.frame.header.sid in w.mux.chans ==>
      Answer(t, w.mux.chans[a.frame.header.sid], a.frame)
    ensures Matched(t)
  {
    StepProvenance(w.mux, a);
    forall r | r in t.mux.held ensures Answer(t, t.mux.held[r].cmd, t.mux.held[r].frame) {
      assert HeldProvenance(w.mux, a, r);
      if r in w.mux.held && t.mux.held[r] == w.mux.held[r] {
        AnswerStays(w, t, t.mux.held[r].cmd, t.mux.held[r].frame);
      }
    }
    forall c | 0 <= c < |t.mux.cmds| ensures FrameMatched(t, c) {
      assert CommandProvenance(w.mux, a, c);
      assert FrameMatched(w, c);
      var buffer, reply := t.mux.cmds[c].chan.buffer, ReplyOf(t.mux.cmds[c].phase);
      if buffer.Some? {
        AnswerStays(w, t, c, buffer.value);
      }
      if reply.Some? {
        AnswerStays(w, t, c, reply.value);
      }
    }
  }

  /** Steps that start no command and put none on the wire keep ids apart. */
  lemma ActiveShrinks<M>(w: World<M>, a: Action, t: World<M>)
    requires ActiveDistinct(w) && Enabled(w.mux, a) && !a.Draw? && t.mux == Apply(w.mux, a)
    requires t.written == w.written && w.read <= t.read
    ensures ActiveDistinct(t)
  {
    StepProvenance(w.mux, a);
    forall c: nat | Active(t, c) ensures Active(w, c) && t.mux.cmds[c].sid == w.mux.cmds[c].sid {
      assert CommandProvenance(w.mux, a, c);
      OnWireShrinks(w, t, c);
    }
  }

  lemma OnWireShrinks<M>(w: World<M>, t: World<M>, c: nat)
    requires t.written == w.written && w.read <= t.read
    ensures OnWire(t, c) ==> OnWire(w, c)
  {
    if OnWire(t, c) {
      var i :| t.read <= i < |t.written| && t.written[i] == c;
      assert w.read <= i < |w.written| && w.written[i] == c;
    }
  }

  /** The step where a mismatch could arise: the reader looks up a response's id. */
  lemma LookUpIsRight<M>(w: World<M>, t: World<M>, f: FinsFrame)
    requires Commands(w) && EntriesCurrent(w)
    requires w.read < |w.served| <= |w.requests| && w.served[w.read].response == f
    requires w.requests[w.read].header.sid == f.header.sid
    requires f.header.sid in w.mux.chans
    requires t.written == w.written && t.served == w.served && t.read == w.read + 1
    ensures Answer(t, w.mux.chans[f.header.sid], f)
  {
    var d := w.written[w.read];
    assert OnWire(w, d);
    assert Expecting(w, d);
    assert AnswerAt(t, w.read, d, f);
  }

  /** The steps that start no command and put none on the wire. */
  lemma MatchMux<M>(w: World<M>, a: Action, t: World<M>)
    requires MatchInv(w) && Enabled(w.mux, a) && !a.Draw? && t.mux == Apply(w.mux, a)
    requires t.written == w.written && w.read <= t.read && w.served <= t.served
    requires a.LookUp? && a.frame.header.sid in w.mux.chans ==>
      Answer(t, w.mux.chans[a.frame.header.sid], a.frame)
    ensures MatchInv(t)
  {
    forall c: nat | OnWire(t, c) ensures OnWire(w, c) {
      OnWireShrinks(w, t, c);
    }
    MatchedAfter(w, a, t);
    ActiveShrinks(w, a, t);
    CurrentAfter(w, a, t);
  }

  lemma MatchClientTurn<M(!new)>(h: Handler<M>, m: M, w: World<M>)
    requires Echoes(h) && WorldInv(h, m, w) && MatchInv(w) && CanHappen(w, ClientTurn)
    ensures MatchInv(Happen(h, w, ClientTurn))
  {
    InvClientTurn(h, m, w);
    var f := w.served[w.read].response;
    var t := ReadReply(w, f, |WireBytes(f)|);
    assert ServedInTurn(h, m, w.requests, w.read, w.served[w.read]);
    if f.header.sid in w.mux.chans {
      LookUpIsRight(w, t, f);
    }
    MatchMux(w, LookUp(READER, f), t);
  }

  lemma MatchDraw<M>(w: World<M>, payload: seq<byte>, t: World<M>)
    requires Commands(w) && MatchInv(w) && FreshDraw(w) && Enabled(w.mux, Draw(payload))
    requires t == w.(mux := Apply(w.mux, Draw(payload)))
    ensures MatchInv(t)
  {
    var n := |w.mux.cmds|;
    forall c: nat | OnWire(t, c) ensures OnWire(w, c) && c < n {
      OnWireShrinks(w, t, c);
    }
    forall c: nat | Active(t, c) && c < n ensures Active(w, c) {
      assert OnWire(t, c) ==> OnWire(w, c);
    }
    DrawKeepsMatched(w, payload, t);
    DrawKeepsCurrent(w, payload, t);
  }

  lemma DrawKeepsCurrent<M>(w: World<M>, payload: seq<byte>, t: World<M>)
    requires EntriesCurrent(w) && Enabled(w.mux, Draw(payload)) && t.mux == Apply(w.mux, Draw(payload))
    requires forall c: nat :: OnWire(t, c) ==> OnWire(w, c) && c < |w.mux.cmds|
    ensures EntriesCurrent(t)
  {
    forall c: nat | c < |t.mux.cmds| && Expecting(t, c) && t.mux.cmds[c].sid in t.mux.chans
      ensures t.mux.chans[t.mux.cmds[c].sid] == c
    {
      assert c < |w.mux.cmds| && Expecting(w, c);
    }
  }

  lemma DrawKeepsMatched<M>(w: World<M>, payload: seq<byte>, t: World<M>)
    requires Matched(w) && Enabled(w.mux, Draw(payload)) && t == w.(mux := Apply(w.mux, Draw(payload)))
    ensures Matched(t)
  {
    forall r | r in t.mux.held ensures Answer(t, t.mux.held[r].cmd, t.mux.held[r].frame) {
      AnswerStays(w, t, t.mux.held[r].cmd, t.mux.held[r].frame);
    }
    forall c | 0 <= c < |t.mux.cmds| ensures FrameMatched(t, c) {
      if c < |w.mux.cmds| {
        FrameStaysMatched(w, t, c);
      }
    }
  }

  lemma FrameStaysMatched<M>(w: World<M>, t: World<M>, c: nat)
    requires c < |w.mux.cmds| && c < |t.mux.cmds| && t.mux.cmds[c] == w.mux.cmds[c] && FrameMatched(w, c)
    requires w.read <= t.read && w.written <= t.written && w.served <= t.served
    ensures FrameMatched(t, c)
  {
    var buffer, reply := t.mux.cmds[c].chan.buffer, ReplyOf(t.mux.cmds[c].phase);
    if buffer.Some? {
      AnswerStays(w, t, c, buffer.value);
    }
    if reply.Some? {
      AnswerStays(w, t, c, reply.value);
    }
  }

  lemma WriteGoesOnWire<M>(w: World<M>, c: nat, d: nat)
    requires Enabled(w.mux, Write(c)) && |w.mux.cmds[c].payload| >= 2 && OnWire(PutOnWire(w, c), d)
    ensures OnWire(w, d) || d == c
  {
    var t := PutOnWire(w, c);
    var i :| t.read <= i < |t.written| && t.written[i] == d;
    if i < |w.written| {
      assert w.written[i] == d;
    }
  }

  lemma MatchWrite<M>(w: World<M>, c: nat)
    requires MatchInv(w) && Enabled(w.mux, Write(c)) && |w.mux.cmds[c].payload| >= 2
    ensures MatchInv(PutOnWire(w, c))
  {
    var t := PutOnWire(w, c);
    MatchedAfter(w, Write(c), t);
    StepProvenance(w.mux, Write(c));
    forall d: nat | OnWire(t, d) ensures OnWire(w, d) || Write(c) == Write(d) {
      WriteGoesOnWire(w, c, d);
    }
    forall d: nat | Active(t, d) ensures Active(w, d) && t.mux.cmds[d].sid == w.mux.cmds[d].sid {
      assert CommandProvenance(w.mux, Write(c), d);
      assert OnWire(t, d) ==> OnWire(w, d) || d == c;
    }
    CurrentAfter(w, Write(c), t);
  }

  /** Steps that leave the client's commands alone. */
  lemma MatchQuiet<M>(w: World<M>, t: World<M>)
    requires MatchInv(w)
    requires t.mux == w.mux && t.written == w.written && w.served <= t.served && t.read == w.read
    ensures MatchInv(t)
  {
    forall c: nat ensures OnWire(t, c) ==> OnWire(w, c) {
      OnWireShrinks(w, t, c);
    }
    forall c: nat | Active(t, c) ensures Active(w, c) {
      assert OnWire(t, c) ==> OnWire(w, c);
    }
    forall c: nat | c < |t.mux.cmds| && Expecting(t, c) ensures Expecting(w, c) {
      assert OnWire(t, c) ==> OnWire(w, c);
    }
    forall r | r in t.mux.held ensures Answer(t, t.mux.held[r].cmd, t.mux.held[r].frame) {
      AnswerStays(w, t, t.mux.held[r].cmd, t.mux.held[r].frame);
    }
    forall c | 0 <= c < |t.mux.cmds| ensures FrameMatched(t, c) {
      FrameStaysMatched(w, t, c);
    }
  }

  lemma MatchStep<M(!new)>(h: Handler<M>, m: M, w: World<M>, e: Event)
    requires Echoes(h) && WorldInv(h, m, w) && MatchInv(w) && CanHappen(w, e)
    requires e.Local? && e.a.Draw? ==> FreshDraw(w)
    ensures MatchInv(Happen(h, w, e))
  {
    var t := Happen(h, w, e);
    match e
    case Local(a) =>
      if a.Draw? {
        MatchDraw(w, a.payload, t);
      } else {
        MatchMux(w, a, t);
      }
    case WriteRequest(c) => MatchWrite(w, c);
    case ServerTurn =>
      ServerTurnServes(h, w);
      MatchQuiet(w, t);
    case ClientTurn => MatchClientTurn(h, m, w);
    case Disconnect => MatchMux(w, Sweep, t);
    case _ => MatchQuiet(w, t);
  }

  lemma {:induction false} MatchRun<M(!new)>(h: Handler<M>, m: M, w: World<M>, es: seq<Event>, t: World<M>)
    requires Echoes(h) && WorldInv(h, m, w) && MatchInv(w) && Disciplined(h, w, es, t)
    ensures WorldInv(h, m, t) && MatchInv(t)
    decreases |es|
  {
    if es != [] {
      WorldStep(h, m, w, es[0]);
      MatchStep(h, m, w, es[0]);
      MatchRun(h, m, Happen(h, w, es[0]), es[1..], t);
    }
  }

  lemma StartMatched<M>(src: FinsAddress, dest: FinsAddress, m: M)
    ensures MatchInv(Start(src, dest, m))
  {
  }

  /**
   * End-to-end matching: in every run in which ids are not redrawn too early, whatever the
   * interleaving, chunking, timeouts and disconnects, a response a command returns is what the
   * server computed for the request of that very command, executed in its place in the order
   * of writing.
   */
  lemma EveryReplyIsTheCommandsOwn<M(!new)>(
    h: Handler<M>, src: FinsAddress, dest: FinsAddress, m: M, es: seq<Event>, t: World<M>, c: nat, f: FinsFrame)
    requires Echoes(h) && Disciplined(h, Start(src, dest, m), es, t)
    requires At(t.mux, c, Returned(Reply(f)))
    ensures |t.mux.cmds[c].payload| >= 2
    ensures exists i :: 0 <= i < |t.requests| && ComputedFor(h, m, t, i, c, f)
  {
    DisciplinedRun(h, src, dest, m, es, t);
    ReplyIsComputed(h, m, t, c, f);
  }

  lemma DisciplinedRun<M(!new)>(h: Handler<M>, src: FinsAddress, dest: FinsAddress, m: M, es: seq<Event>, t: World<M>)
    requires Echoes(h) && Disciplined(h, Start(src, dest, m), es, t)
    ensures Commands(t) && Sequential(h, m, t) && Matched(t)
  {
    var w := Start(src, dest, m);
    StartInv(h, src, dest, m);
    StartMatched(src, dest, m);
    MatchRun(h, m, w, es, t);
  }

  lemma ReplyIsComputed<M>(h: Handler<M>, m: M, t: World<M>, c: nat, f: FinsFrame)
    requires Commands(t) && Sequential(h, m, t) && Matched(t) && At(t.mux, c, Returned(Reply(f)))
    ensures |t.mux.cmds[c].payload| >= 2
    ensures exists i :: 0 <= i < |t.requests| && ComputedFor(h, m, t, i, c, f)
  {
    assert FrameMatched(t, c);
    AnswerIsComputed(h, m, t, c, f);
  }

  lemma AnswerIsComputed<M>(h: Handler<M>, m: M, t: World<M>, c: nat, f: FinsFrame)
    requires Commands(t) && Sequential(h, m, t) && c < |t.mux.cmds| && Answer(t, c, f)
    ensures exists i :: 0 <= i < |t.requests| && ComputedFor(h, m, t, i, c, f)
  {
    var i :| 0 <= i < t.read && AnswerAt(t, i, c, f);
    assert ServedInTurn(h, m, t.requests, i, t.served[i]);
    assert ComputedFor(h, m, t, i, c, f);
  }

  /** The i-th request written is command c's, and `f` is the handler's response to it. */
  ghost predicate ComputedFor<M>(h: Handler<M>, m: M, t: World<M>, i: nat, c: nat, f: FinsFrame)
    requires c < |t.mux.cmds| && |t.mux.cmds[c].payload| >= 2
  {
    && i < |t.requests| && i < |t.written| && t.written[i] == c
    && t.requests[i] == RequestOf(t, c)
    && f == h(MemoryAfter(h, m, t.requests[..i]), t.requests[i]).1
  }

  /** The discipline holds as long as every active command is among the last 254 to draw. */
  lemma WindowIsEnough<M>(w: World<M>)
    requires Commands(w)
    requires forall c: nat :: Active(w, c) ==> |w.mux.cmds| - c <= 254
    ensures FreshDraw(w)
  {
    NextIsSidAt(w.mux);
    forall c: nat | Active(w, c) ensures w.mux.cmds[c].sid != NextSid(w.mux.counter) {
      assert CommandOk(w.mux, c);
      NearIdsDiffer(|w.mux.cmds|, c);
    }
  }
}
