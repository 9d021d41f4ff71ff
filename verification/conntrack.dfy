/**
 * conntrack.h: connection tracking. Every packet that reaches the end of
 * the pipeline touches the entry of its flow in either direction or
 * creates one; TCP entries follow a handshake-and-teardown state machine,
 * UDP and ICMP entries become established on the first reply.
 */
module Conntrack {
  import opened Ints
  import opened BpfTypes

  // ---- The TCP state machine ----

  /**
   * conntrack_tcp_state_update. States only move forward: NEW to SYN_SENT
   * on any SYN, SYN_SENT to SYN_RECV on a SYN-ACK in the reply direction,
   * SYN_RECV to ESTABLISHED on an ACK in the original direction,
   * ESTABLISHED to FIN_WAIT on a FIN, FIN_WAIT to CLOSED on a FIN in the
   * reply direction, and ESTABLISHED or FIN_WAIT to CLOSED on any RST.
   * CLOSED and unknown state values never change.
   */
  function TcpStateUpdate(state: u8, flags: bv8, isFwd: bool): (s: u8)
    ensures state <= s
    ensures state >= CT_STATE_CLOSED ==> s == state
    ensures state == CT_STATE_NEW ==> (s == CT_STATE_SYN_SENT <==> HasFlag(flags, TCP_FLAG_SYN))
    ensures state == CT_STATE_SYN_SENT ==>
      (s == CT_STATE_SYN_RECV <==> flags & (TCP_FLAG_SYN | TCP_FLAG_ACK) == TCP_FLAG_SYN | TCP_FLAG_ACK && !isFwd)
    ensures state == CT_STATE_SYN_RECV ==> (s == CT_STATE_ESTABLISHED <==> HasFlag(flags, TCP_FLAG_ACK) && isFwd)
    ensures state < CT_STATE_ESTABLISHED ==> s <= state + 1
    ensures (state == CT_STATE_ESTABLISHED || state == CT_STATE_FIN_WAIT) && HasFlag(flags, TCP_FLAG_RST) ==>
      s == CT_STATE_CLOSED
    ensures state == CT_STATE_ESTABLISHED && !HasFlag(flags, TCP_FLAG_RST) ==>
      (s == CT_STATE_FIN_WAIT <==> HasFlag(flags, TCP_FLAG_FIN)) && s != CT_STATE_CLOSED
    ensures state == CT_STATE_FIN_WAIT ==>
      (s == CT_STATE_CLOSED <==> HasFlag(flags, TCP_FLAG_RST) || (HasFlag(flags, TCP_FLAG_FIN) && !isFwd))
  {
    if state == CT_STATE_NEW then
      if HasFlag(flags, TCP_FLAG_SYN) then CT_STATE_SYN_SENT else state
    else if state == CT_STATE_SYN_SENT then
      if flags & (TCP_FLAG_SYN | TCP_FLAG_ACK) == TCP_FLAG_SYN | TCP_FLAG_ACK && !isFwd then CT_STATE_SYN_RECV
      else state
    else if state == CT_STATE_SYN_RECV then
      if HasFlag(flags, TCP_FLAG_ACK) && isFwd then CT_STATE_ESTABLISHED else state
    else if state == CT_STATE_ESTABLISHED then
      var afterFin := if HasFlag(flags, TCP_FLAG_FIN) then CT_STATE_FIN_WAIT else state;
      if HasFlag(flags, TCP_FLAG_RST) then CT_STATE_CLOSED else afterFin
    else if state == CT_STATE_FIN_WAIT then
      var afterFin := if HasFlag(flags, TCP_FLAG_FIN) && !isFwd then CT_STATE_CLOSED else state;
      if HasFlag(flags, TCP_FLAG_RST) then CT_STATE_CLOSED else afterFin
    else state
  }

  /** One packet seen by the state machine: its flags and whether it went the original way. */
  datatype Segment = Segment(flags: bv8, isFwd: bool)

  /** The state after a run of segments. */
  function RunStates(state: u8, segs: seq<Segment>): (s: u8)
    decreases |segs|
  {
    if |segs| == 0 then state
    else RunStates(TcpStateUpdate(state, segs[0].flags, segs[0].isFwd), segs[1..])
  }

  /** A run never takes the state backwards. */
  lemma {:induction false} RunStatesMonotone(state: u8, segs: seq<Segment>)
    ensures state <= RunStates(state, segs)
    decreases |segs|
  {
    if |segs| > 0 {
      RunStatesMonotone(TcpStateUpdate(state, segs[0].flags, segs[0].isFwd), segs[1..]);
    }
  }

  predicate IsSynSeg(g: Segment) { HasFlag(g.flags, TCP_FLAG_SYN) }

  predicate IsSynAckReply(g: Segment)
  {
    g.flags & (TCP_FLAG_SYN | TCP_FLAG_ACK) == TCP_FLAG_SYN | TCP_FLAG_ACK && !g.isFwd
  }

  predicate IsAckOriginal(g: Segment) { HasFlag(g.flags, TCP_FLAG_ACK) && g.isFwd }

  /** What is still missing of the handshake from a state below ESTABLISHED. */
  predicate HandshakeRest(state: u8, segs: seq<Segment>)
  {
    if state == CT_STATE_NEW then
      exists i, j, k :: 0 <= i < j < k < |segs| && IsSynSeg(segs[i]) && IsSynAckReply(segs[j]) && IsAckOriginal(segs[k])
    else if state == CT_STATE_SYN_SENT then
      exists j, k :: 0 <= j < k < |segs| && IsSynAckReply(segs[j]) && IsAckOriginal(segs[k])
    else if state == CT_STATE_SYN_RECV then
      exists k :: 0 <= k < |segs| && IsAckOriginal(segs[k])
    else true
  }

  /**
   * A flow tracked from NEW is established (or further along) exactly
   * when its segments contain, in this order, a SYN, a SYN-ACK in the
   * reply direction and an ACK in the original direction.
   */
  lemma EstablishedIffHandshake(segs: seq<Segment>)
    ensures RunStates(CT_STATE_NEW, segs) >= CT_STATE_ESTABLISHED <==> HandshakeRest(CT_STATE_NEW, segs)
  {
    RunReachesEstablished(CT_STATE_NEW, segs);
  }

  lemma {:induction false} RunReachesEstablished(state: u8, segs: seq<Segment>)
    ensures RunStates(state, segs) >= CT_STATE_ESTABLISHED <==> HandshakeRest(state, segs)
    decreases |segs|
  {
    if |segs| > 0 {
      var next := TcpStateUpdate(state, segs[0].flags, segs[0].isFwd);
      RunReachesEstablished(next, segs[1..]);
      if state >= CT_STATE_ESTABLISHED {
        RunStatesMonotone(next, segs[1..]);
      } else if state == CT_STATE_SYN_RECV {
        RestShiftSynRecv(segs);
      } else if state == CT_STATE_SYN_SENT {
        RestShiftSynSent(segs);
      } else {
        RestShiftNew(segs);
      }
    }
  }

  /** From SYN_RECV, the first segment either completes the handshake or leaves the rest to do it. */
  lemma RestShiftSynRecv(segs: seq<Segment>)
    requires |segs| > 0
    ensures HandshakeRest(CT_STATE_SYN_RECV, segs) <==>
      HandshakeRest(TcpStateUpdate(CT_STATE_SYN_RECV, segs[0].flags, segs[0].isFwd), segs[1..])
  {
    var rest := segs[1..];
    if !IsAckOriginal(segs[0]) {
      if HandshakeRest(CT_STATE_SYN_RECV, segs) {
        var k :| 0 <= k < |segs| && IsAckOriginal(segs[k]);
        assert IsAckOriginal(rest[k - 1]);
      }
      if HandshakeRest(CT_STATE_SYN_RECV, rest) {
        var k :| 0 <= k < |rest| && IsAckOriginal(rest[k]);
        assert IsAckOriginal(segs[k + 1]);
      }
    }
  }

  lemma RestShiftSynSent(segs: seq<Segment>)
    requires |segs| > 0
    ensures HandshakeRest(CT_STATE_SYN_SENT, segs) <==>
      HandshakeRest(TcpStateUpdate(CT_STATE_SYN_SENT, segs[0].flags, segs[0].isFwd), segs[1..])
  {
    var rest := segs[1..];
    if IsSynAckReply(segs[0]) {
      if HandshakeRest(CT_STATE_SYN_RECV, rest) {
        var k :| 0 <= k < |rest| && IsAckOriginal(rest[k]);
        assert IsSynAckReply(segs[0]) && IsAckOriginal(segs[k + 1]);
      }
      if HandshakeRest(CT_STATE_SYN_SENT, segs) {
        var j, k :| 0 <= j < k < |segs| && IsSynAckReply(segs[j]) && IsAckOriginal(segs[k]);
        assert IsAckOriginal(rest[k - 1]);
      }
    } else {
      if HandshakeRest(CT_STATE_SYN_SENT, segs) {
        var j, k :| 0 <= j < k < |segs| && IsSynAckReply(segs[j]) && IsAckOriginal(segs[k]);
        assert IsSynAckReply(rest[j - 1]) && IsAckOriginal(rest[k - 1]);
      }
      if HandshakeRest(CT_STATE_SYN_SENT, rest) {
        var j, k :| 0 <= j < k < |rest| && IsSynAckReply(rest[j]) && IsAckOriginal(rest[k]);
        assert IsSynAckReply(segs[j + 1]) && IsAckOriginal(segs[k + 1]);
      }
    }
  }

  lemma RestShiftNew(segs: seq<Segment>)
    requires |segs| > 0
    ensures HandshakeRest(CT_STATE_NEW, segs) <==>
      HandshakeRest(TcpStateUpdate(CT_STATE_NEW, segs[0].flags, segs[0].isFwd), segs[1..])
  {
    if IsSynSeg(segs[0]) {
      RestShiftNewOnSyn(segs);
    } else {
      RestShiftNewSkip(segs);
    }
  }

  lemma RestShiftNewOnSyn(segs: seq<Segment>)
    requires |segs| > 0 && IsSynSeg(segs[0])
    ensures HandshakeRest(CT_STATE_NEW, segs) <==> HandshakeRest(CT_STATE_SYN_SENT, segs[1..])
  {
    var rest := segs[1..];
    if HandshakeRest(CT_STATE_SYN_SENT, rest) {
      var j, k :| 0 <= j < k < |rest| && IsSynAckReply(rest[j]) && IsAckOriginal(rest[k]);
      assert IsSynSeg(segs[0]) && IsSynAckReply(segs[j + 1]) && IsAckOriginal(segs[k + 1]);
    }
    if HandshakeRest(CT_STATE_NEW, segs) {
      var i, j, k :| 0 <= i < j < k < |segs| && IsSynSeg(segs[i]) && IsSynAckReply(segs[j]) && IsAckOriginal(segs[k]);
      assert IsSynAckReply(rest[j - 1]) && IsAckOriginal(rest[k - 1]);
    }
  }

  lemma RestShiftNewSkip(segs: seq<Segment>)
    requires |segs| > 0 && !IsSynSeg(segs[0])
    ensures HandshakeRest(CT_STATE_NEW, segs) <==> HandshakeRest(CT_STATE_NEW, segs[1..])
  {
    var rest := segs[1..];
    if HandshakeRest(CT_STATE_NEW, segs) {
      var i, j, k :| 0 <= i < j < k < |segs| && IsSynSeg(segs[i]) && IsSynAckReply(segs[j]) && IsAckOriginal(segs[k]);
      assert IsSynSeg(rest[i - 1]) && IsSynAckReply(rest[j - 1]) && IsAckOriginal(rest[k - 1]);
    }
    if HandshakeRest(CT_STATE_NEW, rest) {
      var i, j, k :| 0 <= i < j < k < |rest| && IsSynSeg(rest[i]) && IsSynAckReply(rest[j]) && IsAckOriginal(rest[k]);
      assert IsSynSeg(segs[i + 1]) && IsSynAckReply(segs[j + 1]) && IsAckOriginal(segs[k + 1]);
    }
  }

  // ---- Entry updates ----

  /** A packet seen in the original direction: time, packet and byte counts (wrapping). */
  function TouchForward(e: ConntrackEntry, now: u64, len: u16): (r: ConntrackEntry)
    ensures r.lastSeenNs == now && r.packetsFwd == Add32(e.packetsFwd, 1) && r.bytesFwd == Add64(e.bytesFwd, len)
    ensures r.packetsRev == e.packetsRev && r.bytesRev == e.bytesRev
    ensures r.state == e.state && r.flags == e.flags
  {
    e.(lastSeenNs := now, packetsFwd := Add32(e.packetsFwd, 1), bytesFwd := Add64(e.bytesFwd, len))
  }

  /** A packet seen in the reply direction. */
  function TouchReverse(e: ConntrackEntry, now: u64, len: u16): (r: ConntrackEntry)
    ensures r.lastSeenNs == now && r.packetsRev == Add32(e.packetsRev, 1) && r.bytesRev == Add64(e.bytesRev, len)
    ensures r.packetsFwd == e.packetsFwd && r.bytesFwd == e.bytesFwd
    ensures r.state == e.state && r.flags == e.flags
  {
    e.(lastSeenNs := now, packetsRev := Add32(e.packetsRev, 1), bytesRev := Add64(e.bytesRev, len))
  }

  /** The entry a flow's first packet creates. */
  function NewEntry(p: Packet, now: u64): (e: ConntrackEntry)
    ensures e.state == CT_STATE_NEW && e.flags == 0 && e.lastSeenNs == now
    ensures e.packetsFwd == 1 && e.bytesFwd == p.pktLen && e.packetsRev == 0 && e.bytesRev == 0
  {
    ConntrackEntry(now, 1, 0, p.pktLen, 0, CT_STATE_NEW, 0)
  }

  /** The table after conntrack_update and the counters it incremented; the verdict is always PASS. */
  datatype CtResult = CtResult(table: ConntrackTable, bumps: seq<Counter>)

  /** Only the entries under these two keys differ between two tables. */
  ghost predicate OthersUnchanged(a: ConntrackTable, b: ConntrackTable, k1: ConntrackKey, k2: ConntrackKey)
  {
    forall k :: k != k1 && k != k2 ==> (k in a <==> k in b) && (k in a ==> a[k] == b[k])
  }

  /**
   * The part of conntrack_update after a miss in both directions, as
   * written: a NEW entry holding the creating packet, whatever its flags.
   */
  function CreateAsWritten(p: Packet, now: u64): (e: ConntrackEntry)
    ensures e.state == CT_STATE_NEW && e.lastSeenNs == now
    ensures e.packetsFwd == 1 && e.bytesFwd == p.pktLen && e.packetsRev == 0
  {
    NewEntry(p, now)
  }

  /**
   * The creation step with the creating packet fed to the state machine
   * in the original direction, so a flow opened by a SYN starts in SYN_SENT.
   */
  function CreateFixed(p: Packet, now: u64): (e: ConntrackEntry)
    ensures p.ipProto == IPPROTO_TCP && HasFlag(p.tcpFlags, TCP_FLAG_SYN) ==> e.state == CT_STATE_SYN_SENT
    ensures !(p.ipProto == IPPROTO_TCP && HasFlag(p.tcpFlags, TCP_FLAG_SYN)) ==> e == NewEntry(p, now)
  {
    var e := NewEntry(p, now);
    if p.ipProto == IPPROTO_TCP then e.(state := TcpStateUpdate(e.state, p.tcpFlags, true)) else e
  }

  /**
   * conntrack_update with the creation step as a parameter. Disabled, it
   * does nothing. A hit in the original direction touches that entry and
   * steps a TCP entry's state; failing that, a hit in the reply direction
   * touches that entry, steps a TCP entry's state, and promotes a NEW UDP
   * or ICMP entry to ESTABLISHED with one conntrack_established increment;
   * a miss in both creates the entry under the original key with one
   * conntrack_new increment. Nothing else in the table changes.
   */
  function Update(p: Packet, cfg: Config, ct: ConntrackTable, now: u64, fixed: bool): (r: CtResult)
    ensures GetConfig(cfg, CFG_CONNTRACK_ENABLE) == 0 ==> r == CtResult(ct, [])
    ensures OthersUnchanged(ct, r.table, ForwardKey(p), ReverseKey(p))
    ensures GetConfig(cfg, CFG_CONNTRACK_ENABLE) != 0 ==> ForwardKey(p) in r.table || ReverseKey(p) in r.table
    ensures GetConfig(cfg, CFG_CONNTRACK_ENABLE) != 0 && ForwardKey(p) in ct ==>
      && r.bumps == []
      && ForwardKey(p) in r.table && r.table == ct[ForwardKey(p) := r.table[ForwardKey(p)]]
      && var e := TouchForward(ct[ForwardKey(p)], now, p.pktLen);
         r.table[ForwardKey(p)] == (if p.ipProto == IPPROTO_TCP then e.(state := TcpStateUpdate(e.state, p.tcpFlags, true)) else e)
    ensures GetConfig(cfg, CFG_CONNTRACK_ENABLE) != 0 && ForwardKey(p) !in ct && ReverseKey(p) in ct ==>
      && ReverseKey(p) in r.table && r.table == ct[ReverseKey(p) := r.table[ReverseKey(p)]]
      && var hit := ct[ReverseKey(p)];
      && var promote := p.ipProto != IPPROTO_TCP && hit.state == CT_STATE_NEW;
      && r.bumps == (if promote then [ConntrackEstablished] else [])
      && r.table[ReverseKey(p)] == TouchReverse(hit, now, p.pktLen).(state := r.table[ReverseKey(p)].state)
      && r.table[ReverseKey(p)].state ==
           (if p.ipProto == IPPROTO_TCP then TcpStateUpdate(hit.state, p.tcpFlags, false)
            else if promote then CT_STATE_ESTABLISHED else hit.state)
    ensures GetConfig(cfg, CFG_CONNTRACK_ENABLE) != 0 && ForwardKey(p) !in ct && ReverseKey(p) !in ct ==>
      && r.bumps == [ConntrackNew]
      && r.table == ct[ForwardKey(p) := if fixed then CreateFixed(p, now) else CreateAsWritten(p, now)]
  {
    if GetConfig(cfg, CFG_CONNTRACK_ENABLE) == 0 then CtResult(ct, [])
    else
      var fwd := ForwardKey(p);
      var rev := ReverseKey(p);
      if fwd in ct then
        var e := TouchForward(ct[fwd], now, p.pktLen);
        var e' := if p.ipProto == IPPROTO_TCP then e.(state := TcpStateUpdate(e.state, p.tcpFlags, true)) else e;
        CtResult(ct[fwd := e'], [])
      else if rev in ct then
        var e := TouchReverse(ct[rev], now, p.pktLen);
        var e' := if p.ipProto == IPPROTO_TCP then e.(state := TcpStateUpdate(e.state, p.tcpFlags, false)) else e;
        if p.ipProto != IPPROTO_TCP && e'.state == CT_STATE_NEW then
          CtResult(ct[rev := e'.(state := CT_STATE_ESTABLISHED)], [ConntrackEstablished])
        else CtResult(ct[rev := e'], [])
      else
        var created := if fixed then CreateFixed(p, now) else CreateAsWritten(p, now);
        CtResult(ct[fwd := created], [ConntrackNew])
  }

  /** conntrack_update exactly as written. */
  function ConntrackUpdateAsWritten(p: Packet, cfg: Config, ct: ConntrackTable, now: u64): (r: CtResult)
    ensures OthersUnchanged(ct, r.table, ForwardKey(p), ReverseKey(p))
    ensures r.bumps in {[], [ConntrackNew], [ConntrackEstablished]}
    ensures GetConfig(cfg, CFG_CONNTRACK_ENABLE) != 0 && ForwardKey(p) !in ct && ReverseKey(p) !in ct ==>
      ForwardKey(p) in r.table && r.table[ForwardKey(p)].state == CT_STATE_NEW
  {
    Update(p, cfg, ct, now, false)
  }

  /** conntrack_update with the creating packet's flags applied; the data plane model uses this one. */
  function ConntrackUpdate(p: Packet, cfg: Config, ct: ConntrackTable, now: u64): (r: CtResult)
    ensures OthersUnchanged(ct, r.table, ForwardKey(p), ReverseKey(p))
    ensures r.bumps in {[], [ConntrackNew], [ConntrackEstablished]}
    ensures GetConfig(cfg, CFG_CONNTRACK_ENABLE) != 0 && ForwardKey(p) !in ct && ReverseKey(p) !in ct
            && p.ipProto == IPPROTO_TCP && HasFlag(p.tcpFlags, TCP_FLAG_SYN) ==>
      ForwardKey(p) in r.table && r.table[ForwardKey(p)].state == CT_STATE_SYN_SENT
    ensures ForwardKey(p) in ct || ReverseKey(p) in ct
            || !(p.ipProto == IPPROTO_TCP && HasFlag(p.tcpFlags, TCP_FLAG_SYN)) ==>
      r == ConntrackUpdateAsWritten(p, cfg, ct, now)
  {
    Update(p, cfg, ct, now, true)
  }

  // ---- The three-way handshake through the table ----

  /** A TCP segment between two endpoints. */
  function Seg(srcIp: u32, dstIp: u32, srcPort: u16, dstPort: u16, flags: bv8): (p: Packet)
    ensures p.ipProto == IPPROTO_TCP && p.tcpFlags == flags
    ensures p.srcIp == srcIp && p.dstIp == dstIp && p.srcPort == srcPort && p.dstPort == dstPort
  {
    EmptyPacket([]).(ipProto := IPPROTO_TCP, srcIp := srcIp, dstIp := dstIp,
                     srcPort := srcPort, dstPort := dstPort, tcpFlags := flags)
  }

  /** The state of the client's flow after its SYN, the server's SYN-ACK and the client's ACK. */
  function HandshakeState(cfg: Config, c: u32, s: u32, cp: u16, sp: u16, now: u64, fixed: bool): (st: u8)
    requires GetConfig(cfg, CFG_CONNTRACK_ENABLE) != 0
  {
    var syn := Seg(c, s, cp, sp, TCP_FLAG_SYN);
    var synAck := Seg(s, c, sp, cp, TCP_FLAG_SYN | TCP_FLAG_ACK);
    var ack := Seg(c, s, cp, sp, TCP_FLAG_ACK);
    var t1 := Update(syn, cfg, map[], now, fixed).table;
    var t2 := Update(synAck, cfg, t1, now, fixed).table;
    var t3 := Update(ack, cfg, t2, now, fixed).table;
    var key := ForwardKey(syn);
    if key in t3 then t3[key].state else CT_STATE_CLOSED
  }

  /**
   * As written, a flow opened by an ordinary three-way handshake is left in
   * SYN_SENT: the SYN creates a NEW entry without being fed to the state
   * machine, the SYN-ACK then moves NEW to SYN_SENT, and the ACK does not
   * move SYN_SENT on.
   */
  lemma HandshakeStallsAsWritten(cfg: Config, c: u32, s: u32, cp: u16, sp: u16, now: u64)
    requires GetConfig(cfg, CFG_CONNTRACK_ENABLE) != 0
    requires c != s
    ensures HandshakeState(cfg, c, s, cp, sp, now, false) == CT_STATE_SYN_SENT
  {
  }

  /** With the creating SYN applied, the same handshake reaches ESTABLISHED. */
  lemma HandshakeEstablishesFixed(cfg: Config, c: u32, s: u32, cp: u16, sp: u16, now: u64)
    requires GetConfig(cfg, CFG_CONNTRACK_ENABLE) != 0
    requires c != s
    ensures HandshakeState(cfg, c, s, cp, sp, now, true) == CT_STATE_ESTABLISHED
  {
  }
}
