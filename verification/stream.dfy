/**
 * Reassembly of frames from a TCP byte stream. Client and server run the same loop over an
 * accumulator: wait for a header, resynchronise on the magic one byte at a time, wait for the
 * whole frame, hand it on, drop it.
 */
module Stream {
  import opened Bytes
  import opened Protocol

  /** What one turn of the inner loop does with the accumulator. */
  datatype Turn =
    | NeedMore                                      // break, keep everything
    | Skip                                          // no magic here: drop one byte
    | Take(frame: Option<FinsFrame>, size: nat)     // a whole frame, decodable or not

  function NextTurn(acc: seq<byte>): (t: Turn)
    ensures !t.NeedMore? ==> |acc| >= TCP_HEADER_SIZE
    ensures t.Take? ==> 8 <= t.size <= |acc|
  {
    if |acc| < TCP_HEADER_SIZE then NeedMore
    else match DecodeTcp(acc)
      case Err(_) => Skip
      case Ok(tcp) =>
        var frameLen := 12 + tcp.length - 4;
        if |acc| < frameLen then NeedMore
        else match DecodeFins(tcp.data)
          case Ok(f) => Take(Some(f), frameLen)
          case Err(_) => Take(None, frameLen)
  }

  /** The pieces the loop cuts off the front of its input. */
  datatype Piece = Skipped(value: byte) | Framed(raw: seq<byte>)

  datatype Drained = Drained(pieces: seq<Piece>, rest: seq<byte>)

  /** The whole inner loop, run until it breaks. */
  function Drain(acc: seq<byte>): (d: Drained)
    decreases |acc|
  {
    match NextTurn(acc)
    case NeedMore => Drained([], acc)
    case Skip =>
      var d := Drain(acc[1..]);
      Drained([Skipped(acc[0])] + d.pieces, d.rest)
    case Take(_, n) =>
      var d := Drain(acc[n..]);
      Drained([Framed(acc[..n])] + d.pieces, d.rest)
  }

  function PieceBytes(p: Piece): seq<byte> {
    match p
    case Skipped(b) => [b]
    case Framed(raw) => raw
  }

  function PiecesBytes(ps: seq<Piece>): seq<byte> {
    if ps == [] then [] else PieceBytes(ps[0]) + PiecesBytes(ps[1..])
  }

  /** The frame a piece dispatches, if any: short or truncated payloads are dropped silently. */
  function FrameOf(p: Piece): Option<FinsFrame> {
    match p
    case Skipped(_) => None
    case Framed(raw) =>
      if |raw| < TCP_HEADER_SIZE then None
      else match DecodeFins(raw[12..])
        case Ok(f) => Some(f)
        case Err(_) => None
  }

  function FramesOf(ps: seq<Piece>): seq<FinsFrame> {
    if ps == [] then []
    else match FrameOf(ps[0])
      case Some(f) => [f] + FramesOf(ps[1..])
      case None => FramesOf(ps[1..])
  }

  /** The frames a buffer dispatches. */
  function Frames(acc: seq<byte>): seq<FinsFrame> {
    FramesOf(Drain(acc).pieces)
  }

  /** The frame a turn decodes is the one its piece stands for. */
  lemma TurnFrame(acc: seq<byte>)
    requires NextTurn(acc).Take?
    ensures FrameOf(Framed(acc[..NextTurn(acc).size])) == NextTurn(acc).frame
  {
    var tcp := DecodeTcp(acc).value;
    var n := NextTurn(acc).size;
    if n >= TCP_HEADER_SIZE {
      assert acc[..n][12..] == tcp.data;
    } else {
      assert tcp.data == [];
    }
  }

  /** A frame is dispatched exactly when the payload is long enough for a FINS header, and its encoding is the payload. */
  lemma DispatchIsGenuine(acc: seq<byte>)
    requires NextTurn(acc).Take?
    ensures var t := NextTurn(acc);
      && (t.frame.Some? <==> t.size >= 26)
      && (t.frame.Some? ==> acc[12..t.size] == FinsBytes(t.frame.value))
  {
    var tcp, n := DecodeTcp(acc).value, NextTurn(acc).size;
    if n >= 12 {
      assert tcp.data == acc[12..n];
      if n >= 26 {
        FinsRoundTripBack(tcp.data);
      }
    } else {
      assert tcp.data == [];
    }
  }

  lemma {:induction false} FramesOfAppend(a: seq<Piece>, b: seq<Piece>)
    ensures FramesOf(a + b) == FramesOf(a) + FramesOf(b)
  {
    if a == [] {
      assert a + b == b;
    } else {
      assert (a + b)[1..] == a[1..] + b;
      FramesOfAppend(a[1..], b);
    }
  }

  // ----- what a drain leaves and what it accounts for -----

  lemma PiecesBytesCons(p: Piece, d: Drained)
    ensures PiecesBytes([p] + d.pieces) + d.rest == PieceBytes(p) + (PiecesBytes(d.pieces) + d.rest)
  {
    assert ([p] + d.pieces)[1..] == d.pieces;
  }

  /** Nothing is lost or invented: skipped bytes, frames and leftover are the input. */
  lemma {:induction false} DrainAccounts(acc: seq<byte>)
    ensures PiecesBytes(Drain(acc).pieces) + Drain(acc).rest == acc
    decreases |acc|
  {
    match NextTurn(acc)
    case NeedMore =>
    case Skip =>
      DrainAccounts(acc[1..]);
      PiecesBytesCons(Skipped(acc[0]), Drain(acc[1..]));
    case Take(_, n) =>
      DrainAccounts(acc[n..]);
      PiecesBytesCons(Framed(acc[..n]), Drain(acc[n..]));
  }

  /** The leftover is too short for a header, or a frame whose tail has not arrived. */
  ghost predicate Incomplete(rest: seq<byte>) {
    |rest| < TCP_HEADER_SIZE || (rest[0..4] == MAGIC && |rest| < 8 + DecBE32(rest[4..8]))
  }

  /** A piece that was taken as a frame carries the magic and spans what its length field says. */
  ghost predicate SelfDelimited(p: Piece) {
    p.Framed? ==> |p.raw| >= 8 && p.raw[0..4] == MAGIC && |p.raw| == 8 + DecBE32(p.raw[4..8])
  }

  lemma {:induction false} DrainLeftover(acc: seq<byte>)
    ensures Incomplete(Drain(acc).rest)
    ensures forall p :: p in Drain(acc).pieces ==> SelfDelimited(p)
    decreases |acc|
  {
    match NextTurn(acc)
    case NeedMore =>
    case Skip =>
      DrainLeftover(acc[1..]);
    case Take(_, n) =>
      DrainLeftover(acc[n..]);
      assert acc[..n][0..4] == acc[0..4] && acc[..n][4..8] == acc[4..8];
  }

  // ----- chunking -----

  /** A decision once taken does not depend on bytes that arrive later. */
  lemma TurnStable(a: seq<byte>, b: seq<byte>)
    requires !NextTurn(a).NeedMore?
    ensures NextTurn(a + b) == NextTurn(a)
  {
    assert (a + b)[0..4] == a[0..4];
    assert (a + b)[4..8] == a[4..8];
    assert (a + b)[8..10] == a[8..10];
    assert (a + b)[10..12] == a[10..12];
    if NextTurn(a).Take? {
      var x := DecodeTcp(a).value;
      var y := DecodeTcp(a + b).value;
      assert x.data == y.data;
    }
  }

  lemma SplitAppend(a: seq<byte>, b: seq<byte>, n: nat)
    requires n <= |a|
    ensures (a + b)[n..] == a[n..] + b && (a + b)[..n] == a[..n]
  {
  }

  lemma ConsAppend(p: Piece, ps: seq<Piece>, qs: seq<Piece>)
    ensures [p] + (ps + qs) == [p] + ps + qs
    ensures ps + ([p] + qs) == (ps + [p]) + qs
  {
  }

  /** Draining what is there, then the leftover with what arrives, is draining it all. */
  lemma {:induction false} DrainAppend(a: seq<byte>, b: seq<byte>)
    ensures Drain(a + b).pieces == Drain(a).pieces + Drain(Drain(a).rest + b).pieces
    ensures Drain(a + b).rest == Drain(Drain(a).rest + b).rest
    decreases |a|
  {
    match NextTurn(a)
    case NeedMore =>
    case Skip =>
      TurnStable(a, b);
      SplitAppend(a, b, 1);
      DrainAppend(a[1..], b);
      ConsAppend(Skipped(a[0]), Drain(a[1..]).pieces, Drain(Drain(a[1..]).rest + b).pieces);
    case Take(_, n) =>
      TurnStable(a, b);
      SplitAppend(a, b, n);
      DrainAppend(a[n..], b);
      ConsAppend(Framed(a[..n]), Drain(a[n..]).pieces, Drain(Drain(a[n..]).rest + b).pieces);
  }

  /** The read loop as a fold: append a chunk, drain, keep the leftover. */
  function DrainChunks(acc: seq<byte>, chunks: seq<seq<byte>>): Drained
    decreases |chunks|
  {
    if chunks == [] then Drained([], acc)
    else
      var d := Drain(acc + chunks[0]);
      var e := DrainChunks(d.rest, chunks[1..]);
      Drained(d.pieces + e.pieces, e.rest)
  }

  lemma {:induction false} DrainChunksFrom(acc: seq<byte>, chunks: seq<seq<byte>>)
    requires Drain(acc) == Drained([], acc)
    ensures DrainChunks(acc, chunks) == Drain(acc + Flatten(chunks))
    decreases |chunks|
  {
    if chunks == [] {
      assert acc + Flatten(chunks) == acc;
    } else {
      var d := Drain(acc + chunks[0]);
      assert acc + Flatten(chunks) == (acc + chunks[0]) + Flatten(chunks[1..]);
      DrainAppend(acc + chunks[0], Flatten(chunks[1..]));
      DrainAgain(acc + chunks[0]);
      DrainChunksFrom(d.rest, chunks[1..]);
    }
  }

  /** Draining is idempotent: the leftover is a fixed point. */
  lemma {:induction false} DrainAgain(acc: seq<byte>)
    ensures Drain(Drain(acc).rest) == Drained([], Drain(acc).rest)
    decreases |acc|
  {
    match NextTurn(acc)
    case NeedMore =>
    case Skip => DrainAgain(acc[1..]);
    case Take(_, n) => DrainAgain(acc[n..]);
  }

  /** However the stream is cut into reads, pieces and leftover are those of one big read. */
  lemma ChunkingIndependence(chunks: seq<seq<byte>>)
    ensures DrainChunks([], chunks) == Drain(Flatten(chunks))
  {
    assert [] + Flatten(chunks) == Flatten(chunks);
    DrainChunksFrom([], chunks);
  }

  // ----- round trip and resynchronisation -----

  function WireAll(fs: seq<FinsFrame>): seq<byte> {
    if fs == [] then [] else WireBytes(fs[0]) + WireAll(fs[1..])
  }

  ghost predicate AllSendable(fs: seq<FinsFrame>) {
    forall i :: 0 <= i < |fs| ==> Sendable(fs[i])
  }

  lemma {:induction false} WireAllAppend(a: seq<FinsFrame>, b: seq<FinsFrame>)
    ensures WireAll(a + b) == WireAll(a) + WireAll(b)
  {
    if a == [] {
      assert a + b == b;
    } else {
      assert (a + b)[1..] == a[1..] + b;
      WireAllAppend(a[1..], b);
    }
  }

  /** A buffer that starts with an encoded frame takes exactly that frame. */
  lemma TurnOnWire(f: FinsFrame, rest: seq<byte>)
    requires Sendable(f)
    ensures NextTurn(WireBytes(f) + rest) == Take(Some(f), |WireBytes(f)|)
  {
    TcpRoundTrip(0, 0, FinsBytes(f), rest);
    FinsRoundTrip(f);
  }

  /** Noise: bytes in which the magic does not occur. */
  ghost predicate NoMagic(g: seq<byte>) {
    forall i :: 0 <= i <= |g| - 4 ==> !MagicAt(g, i)
  }

  predicate MagicAt(g: seq<byte>, i: nat)
    requires i + 4 <= |g|
  {
    g[i..i + 4] == MAGIC
  }

  lemma NoMagicTail(g: seq<byte>)
    requires NoMagic(g) && g != []
    ensures NoMagic(g[1..])
  {
    forall i | 0 <= i <= |g[1..]| - 4 ensures !MagicAt(g[1..], i) {
      assert !MagicAt(g, i + 1);
      assert g[1..][i..i + 4] == g[i + 1..i + 1 + 4];
    }
  }

  function Skips(g: seq<byte>): seq<Piece> {
    seq(|g|, i requires 0 <= i < |g| => Skipped(g[i]))
  }

  lemma SkipsCons(g: seq<byte>)
    requires g != []
    ensures Skips(g) == [Skipped(g[0])] + Skips(g[1..])
  {
  }

  function Frameds(fs: seq<FinsFrame>): seq<Piece> {
    seq(|fs|, i requires 0 <= i < |fs| => Framed(WireBytes(fs[i])))
  }

  lemma FramedsCons(fs: seq<FinsFrame>)
    requires fs != []
    ensures Frameds(fs) == [Framed(WireBytes(fs[0]))] + Frameds(fs[1..])
  {
  }

  lemma DrainFirst(f: FinsFrame, rest: seq<byte>)
    requires Sendable(f)
    ensures Drain(WireBytes(f) + rest)
         == Drained([Framed(WireBytes(f))] + Drain(rest).pieces, Drain(rest).rest)
  {
    TurnOnWire(f, rest);
    var w, n := WireBytes(f) + rest, |WireBytes(f)|;
    assert w[n..] == rest && w[..n] == WireBytes(f);
  }

  lemma {:induction false} DrainWire(fs: seq<FinsFrame>)
    requires AllSendable(fs)
    ensures Drain(WireAll(fs)) == Drained(Frameds(fs), [])
  {
    if fs == [] {
    } else {
      DrainFirst(fs[0], WireAll(fs[1..]));
      DrainWire(fs[1..]);
      FramedsCons(fs);
    }
  }

  lemma {:induction false} FramesOfFrameds(fs: seq<FinsFrame>)
    ensures FramesOf(Frameds(fs)) == fs
  {
    if fs != [] {
      assert Frameds(fs)[1..] == Frameds(fs[1..]);
      var raw := WireBytes(fs[0]);
      assert raw[12..] == FinsBytes(fs[0]);
      FinsRoundTrip(fs[0]);
      FramesOfFrameds(fs[1..]);
    }
  }

  lemma {:induction false} FramesOfSkips(g: seq<byte>)
    ensures FramesOf(Skips(g)) == []
  {
    if g != [] {
      assert Skips(g)[1..] == Skips(g[1..]);
      FramesOfSkips(g[1..]);
    }
  }

  /** Noise ends exactly where the frames begin: the magic cannot straddle the border. */
  lemma NoiseIsSkipped(g: seq<byte>, tail: seq<byte>)
    requires g != [] && NoMagic(g)
    requires |g + tail| >= TCP_HEADER_SIZE
    requires tail == [] || (|tail| >= 4 && tail[0..4] == MAGIC)
    ensures NextTurn(g + tail) == Skip
  {
    var b := g + tail;
    if |g| >= 4 {
      assert b[0..4] == g[0..4];
      assert !MagicAt(g, 0);
    } else {
      assert b[0..4][|g|] == tail[0..4][0] == MAGIC[0] != MAGIC[|g|];
    }
  }

  lemma {:induction false} DrainNoise(g: seq<byte>, tail: seq<byte>)
    requires NoMagic(g)
    requires |tail| >= TCP_HEADER_SIZE && tail[0..4] == MAGIC
    ensures Drain(g + tail).pieces == Skips(g) + Drain(tail).pieces
    ensures Drain(g + tail).rest == Drain(tail).rest
  {
    if g == [] {
      assert g + tail == tail;
    } else {
      NoiseIsSkipped(g, tail);
      assert (g + tail)[1..] == g[1..] + tail;
      NoMagicTail(g);
      DrainNoise(g[1..], tail);
      SkipsCons(g);
      ConsAppend(Skipped(g[0]), Skips(g[1..]), Drain(tail).pieces);
    }
  }

  lemma {:induction false} DrainOnlyNoise(g: seq<byte>)
    requires NoMagic(g)
    ensures var k := if |g| < TCP_HEADER_SIZE then 0 else |g| - (TCP_HEADER_SIZE - 1);
      Drain(g) == Drained(Skips(g[..k]), g[k..])
    decreases |g|
  {
    if |g| >= TCP_HEADER_SIZE {
      NoiseIsSkipped(g, []);
      assert g + [] == g;
      NoMagicTail(g);
      DrainOnlyNoise(g[1..]);
      var k := |g| - (TCP_HEADER_SIZE - 1);
      assert g[1..][..k - 1] == g[1..k] && g[1..][k - 1..] == g[k..];
      assert Skips(g[..k]) == [Skipped(g[0])] + Skips(g[1..k]);
    }
  }

  /**
   * Resynchronisation: noise without the magic, then any frames, in any chunking, gives back
   * exactly those frames in order. After at least one frame nothing is left over; after noise
   * alone at most eleven bytes of it are.
   */
  lemma StreamRoundTrip(g: seq<byte>, fs: seq<FinsFrame>, chunks: seq<seq<byte>>)
    requires NoMagic(g) && AllSendable(fs)
    requires Flatten(chunks) == g + WireAll(fs)
    ensures FramesOf(DrainChunks([], chunks).pieces) == fs
    ensures fs != [] ==> DrainChunks([], chunks).rest == []
    ensures fs == [] ==> DrainChunks([], chunks).rest == g[if |g| < 12 then 0 else |g| - 11..]
  {
    ChunkingIndependence(chunks);
    if fs == [] {
      assert g + WireAll(fs) == g;
      DrainOnlyNoise(g);
      FramesOfSkips(g[..if |g| < 12 then 0 else |g| - 11]);
    } else {
      var w := WireAll(fs);
      assert w[0..4] == MAGIC;
      DrainNoise(g, w);
      DrainWire(fs);
      FramesOfSkips(g);
      FramesOfFrameds(fs);
      FramesOfAppend(Skips(g), Frameds(fs));
    }
  }

  // ----- the loop itself -----

  /** The inner loop midway: pieces taken, bytes left, frames dispatched. */
  ghost predicate Progress(input: seq<byte>, taken: seq<Piece>, acc: seq<byte>, dispatched: seq<FinsFrame>) {
    && Drain(input).pieces == taken + Drain(acc).pieces
    && Drain(input).rest == Drain(acc).rest
    && dispatched == FramesOf(taken)
  }

  lemma ProgressSkip(input: seq<byte>, taken: seq<Piece>, acc: seq<byte>, dispatched: seq<FinsFrame>)
    requires Progress(input, taken, acc, dispatched) && NextTurn(acc) == Skip
    ensures Progress(input, taken + [Skipped(acc[0])], acc[1..], dispatched)
  {
    FramesOfAppend(taken, [Skipped(acc[0])]);
    ConsAppend(Skipped(acc[0]), taken, Drain(acc[1..]).pieces);
  }

  lemma ProgressTake(input: seq<byte>, taken: seq<Piece>, acc: seq<byte>, dispatched: seq<FinsFrame>, n: nat)
    requires Progress(input, taken, acc, dispatched) && NextTurn(acc).Take? && NextTurn(acc).size == n
    ensures var more := if NextTurn(acc).frame.Some? then [NextTurn(acc).frame.value] else [];
      Progress(input, taken + [Framed(acc[..n])], acc[n..], dispatched + more)
  {
    TurnFrame(acc);
    FramesOfAppend(taken, [Framed(acc[..n])]);
    ConsAppend(Framed(acc[..n]), taken, Drain(acc[n..]).pieces);
  }

  lemma ProgressEnd(input: seq<byte>, taken: seq<Piece>, acc: seq<byte>, dispatched: seq<FinsFrame>)
    requires Progress(input, taken, acc, dispatched) && NextTurn(acc).NeedMore?
    ensures dispatched == Frames(input) && acc == Drain(input).rest
  {
    assert taken + [] == taken;
  }

  /** The accumulator of one connection, on either side. */
  class FrameReader {
    var accumulator: seq<byte>

    constructor ()
      ensures accumulator == []
    {
      accumulator := [];
    }

    /** One successful read: append the chunk and run the inner loop until it breaks. */
    method Feed(chunk: seq<byte>) returns (dispatched: seq<FinsFrame>)
      modifies this
      ensures dispatched == Frames(old(accumulator) + chunk)
      ensures accumulator == Drain(old(accumulator) + chunk).rest
    {
      dispatched := [];
      accumulator := accumulator + chunk;
      ghost var input := accumulator;
      ghost var taken: seq<Piece> := [];
      while true
        invariant Progress(input, taken, accumulator, dispatched)
        decreases |accumulator|
      {
        if |accumulator| < 12 {
          break;
        }
        var tcpFrame := DecodeTcp(accumulator);
        if tcpFrame.Err? {
          ProgressSkip(input, taken, accumulator, dispatched);
          taken := taken + [Skipped(accumulator[0])];
          accumulator := accumulator[1..];
          continue;
        }
        var frameLen := 12 + tcpFrame.value.length - 4;
        if |accumulator| < frameLen {
          break;
        }
        var finsFrame := DecodeFins(tcpFrame.value.data);
        ProgressTake(input, taken, accumulator, dispatched, frameLen);
        if finsFrame.Ok? {
          dispatched := dispatched + [finsFrame.value];
        }
        taken := taken + [Framed(accumulator[..frameLen])];
        if frameLen >= |accumulator| {
          accumulator := [];
          break;
        }
        accumulator := accumulator[frameLen..];
      }
      ProgressEnd(input, taken, accumulator, dispatched);
    }

    /** A whole session of reads; empty reads are ignored. */
    method ReadLoop(chunks: seq<seq<byte>>) returns (dispatched: seq<FinsFrame>)
      requires accumulator == []
      modifies this
      ensures dispatched == Frames(Flatten(chunks))
      ensures accumulator == Drain(Flatten(chunks)).rest
    {
      dispatched := [];
      ghost var seen: seq<byte> := [];
      StartReading(chunks);
      for i := 0 to |chunks|
        invariant seen + Flatten(chunks[i..]) == Flatten(chunks)
        invariant dispatched == Frames(seen) && accumulator == Drain(seen).rest
      {
        NextChunk(seen, chunks, i);
        FramesOfChunk(seen, chunks[i]);
        if |chunks[i]| > 0 {
          var more := Feed(chunks[i]);
          dispatched := dispatched + more;
        } else {
          EmptyChunk(seen, chunks[i]);
        }
        seen := seen + chunks[i];
      }
      AllRead(seen, chunks);
    }
  }

  lemma StartReading(chunks: seq<seq<byte>>)
    ensures [] + Flatten(chunks[0..]) == Flatten(chunks) && Frames([]) == [] && Drain([]).rest == []
  {
    assert chunks[0..] == chunks;
  }

  lemma NextChunk(seen: seq<byte>, chunks: seq<seq<byte>>, i: nat)
    requires i < |chunks|
    ensures (seen + chunks[i]) + Flatten(chunks[i + 1..]) == seen + Flatten(chunks[i..])
  {
    assert chunks[i..][0] == chunks[i] && chunks[i..][1..] == chunks[i + 1..];
  }

  lemma FramesOfChunk(seen: seq<byte>, chunk: seq<byte>)
    ensures Frames(seen + chunk) == Frames(seen) + Frames(Drain(seen).rest + chunk)
    ensures Drain(seen + chunk).rest == Drain(Drain(seen).rest + chunk).rest
  {
    DrainAppend(seen, chunk);
    FramesOfAppend(Drain(seen).pieces, Drain(Drain(seen).rest + chunk).pieces);
  }

  lemma EmptyChunk(seen: seq<byte>, chunk: seq<byte>)
    requires chunk == []
    ensures seen + chunk == seen
  {
  }

  lemma AllRead(seen: seq<byte>, chunks: seq<seq<byte>>)
    requires seen + Flatten(chunks[|chunks|..]) == Flatten(chunks)
    ensures seen == Flatten(chunks)
  {
    assert chunks[|chunks|..] == [];
    assert seen + [] == seen;
  }
}
