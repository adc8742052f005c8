/** The session with the PLC's own handler in the server. */
module PlcSession {
  import opened Bytes
  import opened Protocol
  import opened Mux
  import opened Plc
  import opened Exchange
  import opened Session
  import opened SessionLimits

  function Blank(): Memory {
    Memory(seq(65536, _ => 0), seq(12288, _ => 0), seq(1024, _ => 0), seq(1024, _ => 0), seq(1024, _ => 0))
  }

  type Store = m: Memory | m.Valid() witness Blank()

  ghost function PlcHandler(): Handler<Store> {
    (m: Store, f: FinsFrame) => Handle(m, f)
  }

  lemma PlcEchoes()
    ensures Echoes(PlcHandler())
  {
  }

  /** The memory that requests leave, one after another. */
  function MemoryOf(m: Memory, requests: seq<FinsFrame>): (r: Memory)
    requires m.Valid()
    ensures r.Valid()
  {
    if requests == [] then m
    else Handle(MemoryOf(m, requests[..|requests| - 1]), requests[|requests| - 1]).0
  }

  lemma {:induction false} MemoryOfIsAfter(m: Store, requests: seq<FinsFrame>)
    ensures MemoryAfter(PlcHandler(), m, requests) == MemoryOf(m, requests)
  {
    if requests != [] {
      MemoryOfIsAfter(m, requests[..|requests| - 1]);
    }
  }

  /**
   * A read command that returns in a disciplined run returns the words, or the error, of the
   * memory that exactly the requests written before its own have left.
   */
  lemma ReadsSeeEarlierWrites(
    src: FinsAddress, dest: FinsAddress, m: Store, es: seq<Event>, t: World<Store>, c: nat, f: FinsFrame,
    a: MemoryAddress, count: u16) returns (i: nat)
    requires Disciplined(PlcHandler(), Start(src, dest, m), es, t)
    requires At(t.mux, c, Returned(Reply(f))) && t.mux.cmds[c].payload == ReadCommand(a, count)
    ensures i < |t.requests| && i < |t.written| && t.written[i] == c
    ensures (f.data, f.endCode) == ReadMem(MemoryOf(m, t.requests[..i]), a, count)
  {
    PlcEchoes();
    EveryReplyIsTheCommandsOwn(PlcHandler(), src, dest, m, es, t, c, f);
    i :| 0 <= i < |t.requests| && ComputedFor(PlcHandler(), m, t, i, c, f);
    MemoryOfIsAfter(m, t.requests[..i]);
    RequestOfRead(Route(t.src, t.dest, t.mux.cmds[c].sid), a, count);
  }

  /** Out of discipline a read can return the acknowledgement of a write. */
  lemma ReadCanReturnAWrite(src: FinsAddress, dest: FinsAddress, m: Store, a: MemoryAddress, count: u16)
    returns (es: seq<Event>, t: World<Store>, f: FinsFrame)
    ensures Happens(PlcHandler(), Start(src, dest, m), es, t)
    ensures At(t.mux, 255, Returned(Reply(f))) && t.mux.cmds[255].payload == ReadCommand(a, count)
    ensures f.commandCode == WRITE_COMMAND
  {
    var p := WriteCommand(a, 0, []);
    PlcEchoes();
    es, t := StaleReply(PlcHandler(), src, dest, m, p, ReadCommand(a, count));
    var request := RequestFrame(src, dest, 1, p);
    f := PlcHandler()(m, request).1;
    RequestOfWrite(Route(src, dest, 1), a, 0, []);
  }
}
