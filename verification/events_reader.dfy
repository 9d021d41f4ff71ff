/**
 * The event reader (package events, reader.go): decodes the 40-byte
 * records the data plane writes into the ring buffer and hands each one
 * to every registered handler in registration order. The ring buffer
 * itself is a sequence of read results; a handler is an opaque value and a
 * dispatch is the list of (handler, event) calls it makes.
 */
module EventsReader {
  import opened Ints
  import opened Wrappers
  import opened GoNet
  import opened GoTypes
  import BpfTypes

  /** sizeof(struct event). */
  const EVENT_SIZE: nat := 40

  /**
   * parseEvent: fewer than 40 bytes is an error; otherwise every field is
   * read little-endian from its offset in struct event, and bytes past
   * the fortieth are ignored.
   */
  function ParseEvent(data: seq<u8>): (r: Result<GoEvent>)
    ensures r.Err? <==> |data| < EVENT_SIZE
    ensures r.Ok? ==> (r.value.protocol == data[20] && r.value.attackType == data[21]
                       && r.value.action == data[22] && r.value.dropReason == data[23])
    ensures r.Ok? ==> (r.value.timestampNs == LeRead(data, 0, 8) && r.value.srcIp == LeRead(data, 8, 4)
                       && r.value.dstIp == LeRead(data, 12, 4) && r.value.srcPort == LeRead(data, 16, 2)
                       && r.value.dstPort == LeRead(data, 18, 2) && r.value.ppsEstimate == LeRead(data, 24, 8)
                       && r.value.bpsEstimate == LeRead(data, 32, 8))
  {
    if |data| < EVENT_SIZE then Err("event data too short")
    else
      Ok(GoEvent(Le64At(data, 0), Le32At(data, 8), Le32At(data, 12), Le16At(data, 16), Le16At(data, 18),
                 data[20], data[21], data[22], data[23], Le64At(data, 24), Le64At(data, 32)))
  }

  /** The 40 bytes that decode to `g`: every field little-endian at its offset. */
  function EncodeEvent(g: GoEvent): (b: seq<u8>)
    ensures |b| == EVENT_SIZE
  {
    LeBytes(g.timestampNs, 8) + LeBytes(g.srcIp, 4) + LeBytes(g.dstIp, 4)
    + LeBytes(g.srcPort, 2) + LeBytes(g.dstPort, 2)
    + [g.protocol, g.attackType, g.action, g.dropReason]
    + LeBytes(g.ppsEstimate, 8) + LeBytes(g.bpsEstimate, 8)
  }

  /** A little-endian read only looks at its own bytes. */
  lemma {:induction false} LeReadSlice(b: seq<u8>, i: nat, n: nat)
    requires i + n <= |b|
    ensures LeRead(b, i, n) == LeRead(b[i..i + n], 0, n)
    decreases n
  {
    if n > 0 {
      var s := b[i..i + n];
      LeReadSlice(b, i + 1, n - 1);
      LeReadSlice(s, 1, n - 1);
      assert s[1..n] == b[i + 1..i + n];
    }
  }

  /** A field holding the little-endian bytes of a value that fits reads back as that value. */
  lemma ReadField(b: seq<u8>, i: nat, n: nat, v: nat)
    requires i + n <= |b| && b[i..i + n] == LeBytes(v, n) && v < Pow256(n)
    ensures LeRead(b, i, n) == v
  {
    LeReadSlice(b, i, n);
    LeRoundTrip(v, n, [], []);
    assert [] + LeBytes(v, n) + [] == LeBytes(v, n);
  }

  /** Each field of an encoded event sits, little-endian, at its offset. */
  lemma EncodedFields(g: GoEvent, extra: seq<u8>)
    ensures var b := EncodeEvent(g) + extra;
      && |b| >= EVENT_SIZE
      && LeRead(b, 0, 8) == g.timestampNs && LeRead(b, 8, 4) == g.srcIp && LeRead(b, 12, 4) == g.dstIp
      && LeRead(b, 16, 2) == g.srcPort && LeRead(b, 18, 2) == g.dstPort
      && b[20] == g.protocol && b[21] == g.attackType && b[22] == g.action && b[23] == g.dropReason
      && LeRead(b, 24, 8) == g.ppsEstimate && LeRead(b, 32, 8) == g.bpsEstimate
  {
    var b := EncodeEvent(g) + extra;
    Pow256Values();
    assert b[0..8] == LeBytes(g.timestampNs, 8);
    assert b[8..12] == LeBytes(g.srcIp, 4);
    assert b[12..16] == LeBytes(g.dstIp, 4);
    assert b[16..18] == LeBytes(g.srcPort, 2);
    assert b[18..20] == LeBytes(g.dstPort, 2);
    assert b[24..32] == LeBytes(g.ppsEstimate, 8);
    assert b[32..40] == LeBytes(g.bpsEstimate, 8);
    ReadField(b, 0, 8, g.timestampNs);
    ReadField(b, 8, 4, g.srcIp);
    ReadField(b, 12, 4, g.dstIp);
    ReadField(b, 16, 2, g.srcPort);
    ReadField(b, 18, 2, g.dstPort);
    ReadField(b, 24, 8, g.ppsEstimate);
    ReadField(b, 32, 8, g.bpsEstimate);
  }

  /** Decoding the encoding of an event, with anything after it, gives the event back. */
  lemma ParseEncode(g: GoEvent, extra: seq<u8>)
    ensures ParseEvent(EncodeEvent(g) + extra) == Ok(g)
  {
    var b := EncodeEvent(g) + extra;
    EncodedFields(g, extra);
    assert Le16At(b, 16) == LeRead(b, 16, 2) && Le16At(b, 18) == LeRead(b, 18, 2);
  }

  /** Forty zero bytes, followed by anything, decode to the all-zero event. */
  lemma ZeroRecordDecodesToZero(extra: seq<u8>)
    ensures ParseEvent(seq(EVENT_SIZE, i => 0) + extra) == Ok(GoEvent(0, 0, 0, 0, 0, 0, 0, 0, 0, 0, 0))
  {
    var z := GoEvent(0, 0, 0, 0, 0, 0, 0, 0, 0, 0, 0);
    var z2: seq<u8> := [0, 0];
    var z4: seq<u8> := [0, 0, 0, 0];
    var z8: seq<u8> := [0, 0, 0, 0, 0, 0, 0, 0];
    assert LeBytes(0, 2) == z2;
    assert LeBytes(0, 4) == z4;
    assert LeBytes(0, 8) == z8;
    var b := EncodeEvent(z);
    assert b == z8 + z4 + z4 + z2 + z2 + z4 + z8 + z8;
    assert b == seq(EVENT_SIZE, i => 0) by {
      forall i | 0 <= i < EVENT_SIZE
        ensures b[i] == 0
      {
      }
    }
    ParseEncode(z, extra);
  }

  // ---- What the data plane writes ----

  /**
   * The bytes emit_event leaves in the ring buffer on a little-endian host:
   * the timestamp and rate estimates in host order, the addresses and
   * ports as they stood in the packet header (network order), then the
   * four one-byte codes.
   */
  function WireImage(e: BpfTypes.Event): (b: seq<u8>)
    ensures |b| == EVENT_SIZE
  {
    LeBytes(e.timestampNs, 8) + BeBytes(e.srcIp, 4) + BeBytes(e.dstIp, 4)
    + BeBytes(e.srcPort, 2) + BeBytes(e.dstPort, 2)
    + [e.protocol, e.attackType, e.action, e.dropReason]
    + LeBytes(e.ppsEstimate, 8) + LeBytes(e.bpsEstimate, 8)
  }

  /** The event the reader decodes from a data-plane record: addresses and ports byte-swapped. */
  function AsDecoded(e: BpfTypes.Event): (g: GoEvent)
  {
    GoEvent(e.timestampNs, Bswap32(e.srcIp), Bswap32(e.dstIp), Bswap16(e.srcPort), Bswap16(e.dstPort),
            e.protocol, e.attackType, e.action, e.dropReason, e.ppsEstimate, e.bpsEstimate)
  }

  lemma LeBytesOfQuad(a: u8, b: u8, c: u8, d: u8)
    ensures LeBytes(a + b * 0x100 + c * 0x1_0000 + d * 0x100_0000, 4) == [a, b, c, d]
  {
    var v := a + b * 0x100 + c * 0x1_0000 + d * 0x100_0000;
    var v1 := b + c * 0x100 + d * 0x1_0000;
    var v2 := c + d * 0x100;
    assert v == a + v1 * 0x100;
    assert v / 0x100 == v1 && v % 0x100 == a;
    assert v1 == b + v2 * 0x100;
    assert v1 / 0x100 == v2 && v1 % 0x100 == b;
    assert v2 / 0x100 == d && v2 % 0x100 == c;
    assert LeBytes(d, 1) == [d];
    assert LeBytes(v2, 2) == [c, d];
    assert LeBytes(v1, 3) == [b, c, d];
  }

  /** The little-endian bytes of a swapped address are its network-order bytes. */
  lemma SwappedAddressBytes(v: u32)
    ensures LeBytes(Bswap32(v), 4) == BeBytes(v, 4)
  {
    var q := U32BEToIP(v);
    Be32OfReversed(q[3], q[2], q[1], q[0]);
    LeBytesOfQuad(q[0], q[1], q[2], q[3]);
  }

  /** The little-endian bytes of a swapped port are its network-order bytes. */
  lemma SwappedPortBytes(p: u16)
    ensures LeBytes(Bswap16(p), 2) == BeBytes(p, 2)
  {
    var s := Bswap16(p);
    assert s % 0x100 == Hi(p) && (s / 0x100) % 0x100 == Lo(p);
    assert (p / 0x100) % 0x100 == Hi(p);
  }

  /** A data-plane record is the encoding of its decoded form. */
  lemma WireIsEncoding(e: BpfTypes.Event)
    ensures WireImage(e) == EncodeEvent(AsDecoded(e))
  {
    SwappedAddressBytes(e.srcIp);
    SwappedAddressBytes(e.dstIp);
    SwappedPortBytes(e.srcPort);
    SwappedPortBytes(e.dstPort);
  }

  /** The reader decodes every data-plane record, into its byte-swapped form. */
  lemma DecodeDataPlaneEvent(e: BpfTypes.Event, extra: seq<u8>)
    ensures ParseEvent(WireImage(e) + extra) == Ok(AsDecoded(e))
  {
    WireIsEncoding(e);
    ParseEncode(AsDecoded(e), extra);
  }

  /**
   * Printing a decoded data-plane record: with the addresses swapped like
   * the ports, every address and port shown is the one in the packet; as
   * written, the ports are right but each address is shown with its bytes
   * reversed.
   */
  lemma PrintedEndpoints(e: BpfTypes.Event)
    ensures var g := AsDecoded(e); var f := EventLineFixed(g);
      f.src == U32BEToIP(e.srcIp) && f.dst == U32BEToIP(e.dstIp)
      && f.srcPort == e.srcPort && f.dstPort == e.dstPort
    ensures var g := AsDecoded(e); var w := EventLineAsWritten(g); var b := U32BEToIP(e.srcIp);
      w.src == [b[3], b[2], b[1], b[0]] && w.srcPort == e.srcPort && w.dstPort == e.dstPort
  {
    Bswap32Involutive(e.srcIp);
    Bswap32Involutive(e.dstIp);
    Bswap16Involutive(e.srcPort);
    Bswap16Involutive(e.dstPort);
    Bswap32Bytes(e.srcIp);
  }

  /**
   * emit_event seen from the reader: the record decodes, and swapping the
   * decoded addresses and ports back gives the packet's endpoints, with
   * the codes and timestamp as emitted.
   */
  lemma EmittedEventDecodes(p: BpfTypes.Packet, now: u64, attackType: u8, action: u8, reason: u8, pps: u64, bps: u64,
                            extra: seq<u8>)
    ensures var r := ParseEvent(WireImage(BpfTypes.MakeEvent(p, now, attackType, action, reason, pps, bps)) + extra);
      && r.Ok?
      && Bswap32(r.value.srcIp) == p.srcIp && Bswap32(r.value.dstIp) == p.dstIp
      && Bswap16(r.value.srcPort) == p.srcPort && Bswap16(r.value.dstPort) == p.dstPort
      && r.value.protocol == p.ipProto && r.value.timestampNs == now
      && r.value.attackType == attackType && r.value.action == action && r.value.dropReason == reason
  {
    var e := BpfTypes.MakeEvent(p, now, attackType, action, reason, pps, bps);
    DecodeDataPlaneEvent(e, extra);
    Bswap32Involutive(p.srcIp);
    Bswap32Involutive(p.dstIp);
    Bswap16Involutive(p.srcPort);
    Bswap16Involutive(p.dstPort);
  }

  /** A module's drop event reaches the reader as a drop with zero rate estimates. */
  lemma DropEventDecodes(p: BpfTypes.Packet, now: u64, attackType: u8, reason: u8)
    ensures var r := ParseEvent(WireImage(BpfTypes.DropEvent(p, now, attackType, reason)));
      && r.Ok? && r.value.action == BpfTypes.ACTION_DROP && r.value.ppsEstimate == 0 && r.value.bpsEstimate == 0
      && Bswap32(r.value.srcIp) == p.srcIp && r.value.attackType == attackType && r.value.dropReason == reason
  {
    var e := BpfTypes.DropEvent(p, now, attackType, reason);
    DecodeDataPlaneEvent(e, []);
    assert WireImage(e) + [] == WireImage(e);
    Bswap32Involutive(p.srcIp);
  }

  /** A drop of a packet from 10.0.0.1 is logged as coming from 1.0.0.10. */
  lemma TenZeroZeroOnePrintsReversed(e: BpfTypes.Event)
    requires e.srcIp == 0x0a00_0001
    ensures ParseEvent(WireImage(e)).Ok?
    ensures EventLineAsWritten(ParseEvent(WireImage(e)).value).src == [1, 0, 0, 10]
    ensures EventLineFixed(ParseEvent(WireImage(e)).value).src == [10, 0, 0, 1]
  {
    DecodeDataPlaneEvent(e, []);
    assert WireImage(e) + [] == WireImage(e);
    PrintedEndpoints(e);
    BeBytesOfQuad(10, 0, 0, 1);
  }

  // ---- Handlers ----

  /** OnEvent: the new handler goes last. */
  function OnEvent<H>(handlers: seq<H>, h: H): (r: seq<H>)
    ensures |r| == |handlers| + 1 && r[|handlers|] == h && r[..|handlers|] == handlers
  {
    handlers + [h]
  }

  /** dispatch: one call per registered handler, in registration order, all with the same event. */
  function Dispatch<H>(handlers: seq<H>, e: GoEvent): (calls: seq<(H, GoEvent)>)
    ensures |calls| == |handlers|
    ensures forall i :: 0 <= i < |handlers| ==> calls[i].0 == handlers[i] && calls[i].1 == e
  {
    seq(|handlers|, i requires 0 <= i < |handlers| => (handlers[i], e))
  }

  /** Registering a handler adds one call at the end of every later dispatch and changes no other. */
  lemma DispatchAfterOnEvent<H>(handlers: seq<H>, h: H, e: GoEvent)
    ensures var c := Dispatch(OnEvent(handlers, h), e);
      c[..|handlers|] == Dispatch(handlers, e) && c[|handlers|].0 == h && c[|handlers|].1 == e
  {
  }

  /** One read from the ring buffer: a record, a transient error, or the reader closed. */
  datatype ReadResult = Record(raw: seq<u8>) | ReadFailed | Closed

  /**
   * Run's loop: a transient read error and a record too short to decode
   * are skipped; every other record is dispatched; the loop ends at the
   * first Closed.
   */
  function Run<H>(handlers: seq<H>, results: seq<ReadResult>): (calls: seq<(H, GoEvent)>)
    ensures |calls| == |handlers| * Delivered(results)
    decreases |results|
  {
    if |results| == 0 || results[0].Closed? then []
    else
      var rest := Run(handlers, results[1..]);
      if results[0].Record? && ParseEvent(results[0].raw).Ok? then
        MulSucc(|handlers|, Delivered(results[1..]));
        Dispatch(handlers, ParseEvent(results[0].raw).value) + rest
      else rest
  }

  /** How many records before the first Closed are long enough to decode. */
  function Delivered(results: seq<ReadResult>): (n: nat)
    ensures n <= |results|
    decreases |results|
  {
    if |results| == 0 || results[0].Closed? then 0
    else (if results[0].Record? && |results[0].raw| >= EVENT_SIZE then 1 else 0) + Delivered(results[1..])
  }

  /** Nothing read after the reader is closed is ever dispatched. */
  lemma {:induction false} RunStopsAtClose<H>(handlers: seq<H>, results: seq<ReadResult>, rest: seq<ReadResult>)
    requires forall i :: 0 <= i < |results| ==> !results[i].Closed?
    ensures Run(handlers, results + [Closed] + rest) == Run(handlers, results)
    decreases |results|
  {
    if |results| > 0 {
      assert (results + [Closed] + rest)[1..] == results[1..] + [Closed] + rest;
      RunStopsAtClose(handlers, results[1..], rest);
    } else {
      assert (results + [Closed] + rest)[0] == Closed;
    }
  }
}
