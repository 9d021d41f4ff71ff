/**
 * The control plane's reputation engine (package reputation): every poll
 * decays the data plane's reputation entries, blocks sources whose score
 * reached the threshold by inserting a /32 into the blacklist, and
 * unblocks them again once the score has fallen below half the threshold,
 * except for sources an operator blocked by hand.
 *
 * The engine's keys are uint32 values: BlockIP and UnblockIP use the
 * big-endian value of the address, and so does the corrected poll, while
 * poll as written uses the host-order value the map iterator yields
 * (GoNet.HostOrderKey). Times are
 * nanosecond counts given as parameters; the success of each BPF map
 * update is an input.
 */
module ReputationEngine {
  import opened Ints
  import opened Wrappers
  import opened BpfTypes
  import opened GoNet
  import opened Text
  import ReputationBpf
  import opened Iteration

  const DEFAULT_DECAY_RATE: u32 := 5
  const DEFAULT_THRESHOLD: u32 := 500
  const UNBLOCK_RATIO: u32 := 2

  /** The drop reason the engine's blacklist entries carry (DROP_REPUTATION, 13). */
  const DROP_REPUTATION: u32 := 13

  /** What the engine remembers about one source (IPReputation). */
  datatype Tracked = Tracked(
    ip: string,
    score: u32,
    totalPkts: u32,
    droppedPkts: u32,
    blocked: bool,
    firstSeenNs: int,
    lastSeenNs: int)

  /**
   * The engine: threshold and decay rate, the tracked sources, the sources
   * it has blocked, those blocked by hand, and the blacklist trie it writes.
   */
  datatype RepEngine = RepEngine(
    threshold: u32,
    decayRate: u32,
    reputations: map<u32, Tracked>,
    blocked: set<u32>,
    manual: set<u32>,
    blacklist: map<LpmKey, u32>)

  /** NewEngine: default threshold and decay, nothing tracked or blocked. */
  function NewEngine(blacklist: map<LpmKey, u32>): (e: RepEngine)
    ensures e.threshold == 500 && e.decayRate == 5 && e.blocked == {} && e.manual == {}
    ensures Consistent(e)
  {
    RepEngine(DEFAULT_THRESHOLD, DEFAULT_DECAY_RATE, map[], {}, {}, blacklist)
  }

  /** The blacklist key for one source: a /32. */
  function HostKey(key: u32): (k: LpmKey)
    ensures forall addr: u32 :: Covers(k, addr) <==> addr == key
  {
    LpmKey(32, key)
  }

  /**
   * The engine's invariant: every source blocked by hand is blocked, and
   * every blocked source has its /32 in the blacklist.
   */
  predicate Consistent(e: RepEngine)
  {
    && e.manual <= e.blocked
    && forall k :: k in e.blocked ==> HostKey(k) in e.blacklist
  }

  // ---- Polling ----

  /** One poll's decay: the score loses the decay rate, and stops at 0. */
  function DecayScore(score: u32, rate: u32): (r: u32)
    ensures r <= score && score - r <= rate
    ensures r > 0 ==> r == score - rate
  {
    if score > 0 && score > rate then score - rate
    else if score > 0 then 0
    else score
  }

  datatype PollResult = PollResult(engine: RepEngine, value: ReputationBpf.RepEntry)

  /**
   * The body of poll for one reputation entry: decay and stamp it, track
   * it, block it when its score reached the threshold and it is not yet
   * blocked (if the blacklist insert succeeds), and unblock it when its
   * score is below half the threshold and it was blocked, but not by hand
   * (if the blacklist delete succeeds). `key` is the uint32 the engine
   * files the entry under and prints; `stampNs` is the time the entry's
   * last-decay field is set to.
   */
  function PollEntryAt(e: RepEngine, key: u32, v: ReputationBpf.RepEntry, stampNs: u64, addOk: bool, removeOk: bool): (r: PollResult)
    ensures r.value == v.(score := r.value.score, lastDecayNs := stampNs, blocked := r.value.blocked)
    ensures r.value.score == DecayScore(v.score, e.decayRate)
    ensures key in r.engine.reputations && r.engine.reputations == e.reputations[key := r.engine.reputations[key]]
    ensures var t := r.engine.reputations[key];
      && t.score == r.value.score && t.totalPkts == v.totalPackets && t.droppedPkts == v.droppedPackets
      && t.lastSeenNs == v.lastSeenNs
      && (t.blocked <==> r.value.blocked != 0)
    ensures key in e.reputations ==> r.engine.reputations[key].ip == e.reputations[key].ip
    ensures key !in e.reputations ==>
      r.engine.reputations[key].ip == DottedQuad(U32BEToIP(key)) && r.engine.reputations[key].firstSeenNs == v.firstSeenNs
    ensures r.engine == e.(reputations := r.engine.reputations, blocked := r.engine.blocked, blacklist := r.engine.blacklist)
    ensures r.engine.blocked - {key} == e.blocked - {key}
    ensures forall k :: k != HostKey(key) ==>
      (k in r.engine.blacklist <==> k in e.blacklist) && (k in e.blacklist ==> r.engine.blacklist[k] == e.blacklist[k])
    ensures r.value.score >= e.threshold ==>
      (key in r.engine.blocked <==> key in e.blocked || addOk)
    ensures r.value.score >= e.threshold && key !in e.blocked && addOk ==>
      r.engine.blacklist == e.blacklist[HostKey(key) := DROP_REPUTATION] && r.value.blocked == 1
    ensures r.value.score < e.threshold / UNBLOCK_RATIO ==>
      (key in r.engine.blocked <==> key in e.blocked && (key in e.manual || !removeOk))
    ensures e.threshold / UNBLOCK_RATIO <= r.value.score < e.threshold ==>
      r.engine.blocked == e.blocked && r.engine.blacklist == e.blacklist
  {
    var score := DecayScore(v.score, e.decayRate);
    var v1 := v.(score := score, lastDecayNs := stampNs);
    var base := if key in e.reputations then e.reputations[key]
                else Tracked(DottedQuad(U32BEToIP(key)), 0, 0, 0, false, v.firstSeenNs, 0);
    var rep := base.(score := score, totalPkts := v.totalPackets, droppedPkts := v.droppedPackets,
                     lastSeenNs := v.lastSeenNs, blocked := v.blocked != 0);
    // Auto-block.
    var block := score >= e.threshold && key !in e.blocked && addOk;
    var e1 := if block then e.(blocked := e.blocked + {key}, blacklist := e.blacklist[HostKey(key) := DROP_REPUTATION]) else e;
    var rep1 := if block then rep.(blocked := true) else rep;
    var v2 := if block then v1.(blocked := 1) else v1;
    // Auto-unblock.
    var unblock := score < e.threshold / UNBLOCK_RATIO && key in e1.blocked && key !in e1.manual && removeOk;
    var e2 := if unblock then e1.(blocked := e1.blocked - {key}, blacklist := e1.blacklist - {HostKey(key)}) else e1;
    var rep2 := if unblock then rep1.(blocked := false) else rep1;
    var v3 := if unblock then v2.(blocked := 0) else v2;
    PollResult(e2.(reputations := e2.reputations[key := rep2]), v3)
  }

  /** The two clocks a poll could stamp with: the wall clock, and the data plane's monotonic clock. */
  datatype Clocks = Clocks(wallNs: u64, monotonicNs: u64)

  /**
   * poll as written, for the entry the data plane stored under `addr`:
   * the iterator hands the key over in host order, so the engine files,
   * prints and blacklists the byte-swapped value, and the last-decay
   * field takes the wall-clock time.
   */
  function PollEntryAsWritten(e: RepEngine, addr: u32, v: ReputationBpf.RepEntry, now: Clocks, addOk: bool, removeOk: bool): (r: PollResult)
    ensures r.value.lastDecayNs == now.wallNs
    ensures r.value.score == DecayScore(v.score, e.decayRate)
    ensures HostOrderKey(addr) in r.engine.reputations
    ensures r.engine.reputations == e.reputations[HostOrderKey(addr) := r.engine.reputations[HostOrderKey(addr)]]
    ensures HostOrderKey(addr) !in e.reputations ==>
      var b := U32BEToIP(addr); r.engine.reputations[HostOrderKey(addr)].ip == DottedQuad([b[3], b[2], b[1], b[0]])
    ensures r.engine.blocked - {HostOrderKey(addr)} == e.blocked - {HostOrderKey(addr)}
  {
    Bswap32Bytes(addr);
    PollEntryAt(e, HostOrderKey(addr), v, now.wallNs, addOk, removeOk)
  }

  /**
   * poll corrected: the key is read in network order, the big-endian value
   * BlockIP and UnblockIP use, and the last-decay field is stamped in the
   * data plane's own clock, the one it decays against.
   */
  function PollEntry(e: RepEngine, addr: u32, v: ReputationBpf.RepEntry, now: Clocks, addOk: bool, removeOk: bool): (r: PollResult)
    ensures r.value.lastDecayNs == now.monotonicNs
    ensures r.value.score == DecayScore(v.score, e.decayRate)
    ensures addr in r.engine.reputations && r.engine.reputations == e.reputations[addr := r.engine.reputations[addr]]
    ensures addr !in e.reputations ==> r.engine.reputations[addr].ip == DottedQuad(U32BEToIP(addr))
    ensures r.engine.blocked - {addr} == e.blocked - {addr}
  {
    PollEntryAt(e, addr, v, now.monotonicNs, addOk, removeOk)
  }

  /**
   * A wall-clock stamp lies ahead of the data plane's clock, so the data
   * plane's next decay sees the difference wrap around to more than a
   * minute and takes the full 60 ticks off the score at once.
   */
  lemma WallClockStampForcesFullDecayAsWritten(e: RepEngine, key: u32, v: ReputationBpf.RepEntry, now: Clocks,
                                              addOk: bool, removeOk: bool, packetNs: u64, tick: u32)
    requires packetNs < now.wallNs <= INT64_MAX
    ensures var p := PollEntryAsWritten(e, key, v, now, addOk, removeOk).value;
      ReputationBpf.Decay(p, packetNs, tick).score
        == (if p.score > Mul32(60, tick) then p.score - Mul32(60, tick) else 0)
  {
    var p := PollEntryAsWritten(e, key, v, now, addOk, removeOk).value;
    var elapsed := Sub64(packetNs, p.lastDecayNs);
    assert elapsed == packetNs - now.wallNs + U64_LIMIT;
    assert elapsed / ReputationBpf.REP_DECAY_INTERVAL_NS > 60;
  }

  /**
   * Stamped in the data plane's clock, the entry is not decayed again by
   * a packet that arrives within the next second.
   */
  lemma MonotonicStampDefersDecay(e: RepEngine, key: u32, v: ReputationBpf.RepEntry, now: Clocks,
                                  addOk: bool, removeOk: bool, packetNs: u64, tick: u32)
    requires now.monotonicNs <= packetNs <= now.monotonicNs + ReputationBpf.REP_DECAY_INTERVAL_NS
    ensures var p := PollEntry(e, key, v, now, addOk, removeOk).value;
      ReputationBpf.Decay(p, packetNs, tick) == p
  {
  }

  /** Each poll step keeps the engine's invariant. */
  lemma PollEntryKeepsConsistent(e: RepEngine, key: u32, v: ReputationBpf.RepEntry, stampNs: u64, addOk: bool, removeOk: bool)
    requires Consistent(e)
    ensures Consistent(PollEntryAt(e, key, v, stampNs, addOk, removeOk).engine)
  {
    var r := PollEntryAt(e, key, v, stampNs, addOk, removeOk).engine;
    forall k | k in r.blocked
      ensures HostKey(k) in r.blacklist
    {
      if k != key {
        assert k in e.blocked;
        assert HostKey(k) != HostKey(key);
      }
    }
  }

  /** The outcome of each blacklist update a poll makes, by key. */
  datatype MapOutcomes = MapOutcomes(addOk: u32 -> bool, removeOk: u32 -> bool)

  datatype PollAllResult = PollAllResult(engine: RepEngine, table: ReputationBpf.RepTable)

  /**
   * poll: every entry of the data plane's reputation table, in the
   * table's iteration order, goes through the per-entry step and is
   * written back.
   */
  function Poll(e: RepEngine, table: ReputationBpf.RepTable, order: seq<u32>, now: Clocks, ops: MapOutcomes): (r: PollAllResult)
    ensures r.table.Keys == table.Keys
    ensures r.engine.threshold == e.threshold && r.engine.manual == e.manual
    ensures forall k :: k in order && k in table ==> r.table[k].lastDecayNs == now.monotonicNs
    decreases |order|
  {
    if |order| == 0 then PollAllResult(e, table)
    else
      var key := order[|order| - 1];
      var before := Poll(e, table, order[..|order| - 1], now, ops);
      if key in before.table then
        var step := PollEntry(before.engine, key, before.table[key], now, ops.addOk(key), ops.removeOk(key));
        PollAllResult(step.engine, before.table[key := step.value])
      else before
  }

  /**
   * poll as written: the same walk, each entry going through the
   * as-written step under its host-order key.
   */
  function PollAsWritten(e: RepEngine, table: ReputationBpf.RepTable, order: seq<u32>, now: Clocks, ops: MapOutcomes): (r: PollAllResult)
    ensures r.table.Keys == table.Keys
    ensures r.engine.threshold == e.threshold && r.engine.manual == e.manual
    ensures forall k :: k in order && k in table ==> r.table[k].lastDecayNs == now.wallNs
    decreases |order|
  {
    if |order| == 0 then PollAllResult(e, table)
    else
      var addr := order[|order| - 1];
      var before := PollAsWritten(e, table, order[..|order| - 1], now, ops);
      if addr in before.table then
        var key := HostOrderKey(addr);
        var step := PollEntryAsWritten(before.engine, addr, before.table[addr], now, ops.addOk(key), ops.removeOk(key));
        PollAllResult(step.engine, before.table[addr := step.value])
      else before
  }

  /** A whole poll keeps the engine's invariant. */
  lemma {:induction false} PollKeepsConsistent(e: RepEngine, table: ReputationBpf.RepTable, order: seq<u32>, now: Clocks, ops: MapOutcomes)
    requires Consistent(e)
    ensures Consistent(Poll(e, table, order, now, ops).engine)
    decreases |order|
  {
    if |order| > 0 {
      var key := order[|order| - 1];
      var before := Poll(e, table, order[..|order| - 1], now, ops);
      PollKeepsConsistent(e, table, order[..|order| - 1], now, ops);
      if key in before.table {
        PollEntryKeepsConsistent(before.engine, key, before.table[key], now.monotonicNs, ops.addOk(key), ops.removeOk(key));
      }
    }
  }

  /** The as-written poll keeps the engine's invariant as well: it holds whatever the key and the stamp. */
  lemma {:induction false} PollAsWrittenKeepsConsistent(e: RepEngine, table: ReputationBpf.RepTable, order: seq<u32>, now: Clocks, ops: MapOutcomes)
    requires Consistent(e)
    ensures Consistent(PollAsWritten(e, table, order, now, ops).engine)
    decreases |order|
  {
    if |order| > 0 {
      var addr := order[|order| - 1];
      var key := HostOrderKey(addr);
      var before := PollAsWritten(e, table, order[..|order| - 1], now, ops);
      PollAsWrittenKeepsConsistent(e, table, order[..|order| - 1], now, ops);
      if addr in before.table {
        PollEntryKeepsConsistent(before.engine, key, before.table[addr], now.wallNs, ops.addOk(key), ops.removeOk(key));
      }
    }
  }

  /** A source blocked by hand stays blocked, with its /32 in the blacklist, through any poll. */
  lemma {:induction false} ManualBlockSurvivesPoll(e: RepEngine, table: ReputationBpf.RepTable, order: seq<u32>, now: Clocks,
                                                   ops: MapOutcomes, key: u32)
    requires Consistent(e) && key in e.manual
    ensures var r := Poll(e, table, order, now, ops).engine;
      key in r.manual && key in r.blocked && HostKey(key) in r.blacklist
    decreases |order|
  {
    PollKeepsConsistent(e, table, order, now, ops);
  }

  /** 10.0.0.1 read in host order is 1.0.0.10. */
  lemma TenZeroZeroOneHostOrder()
    ensures HostOrderKey(0x0A00_0001) == 0x0100_000A
  {
    BeBytesOfQuad(10, 0, 0, 1);
    assert U32BEToIP(0x0A00_0001) == [10, 0, 0, 1];
    IPToU32BEOfQuad(1, 0, 0, 10);
  }

  /**
   * As written, a new entry polled for 10.0.0.1 is filed under 1.0.0.10
   * and printed as "1.0.0.10"; corrected, it is filed and printed as
   * itself.
   */
  lemma PolledTenZeroZeroOnePrintsReversed(e: RepEngine, v: ReputationBpf.RepEntry, now: Clocks, addOk: bool, removeOk: bool)
    requires 0x0A00_0001 !in e.reputations && 0x0100_000A !in e.reputations
    ensures var w := PollEntryAsWritten(e, 0x0A00_0001, v, now, addOk, removeOk).engine;
      0x0100_000A in w.reputations && w.reputations[0x0100_000A].ip == "1.0.0.10"
    ensures var f := PollEntry(e, 0x0A00_0001, v, now, addOk, removeOk).engine;
      0x0A00_0001 in f.reputations && f.reputations[0x0A00_0001].ip == "10.0.0.1"
  {
    TenZeroZeroOneHostOrder();
    TenZeroZeroOneQuads();
    var q := U32BEToIP(0x0A00_0001);
    var w := PollEntryAsWritten(e, 0x0A00_0001, v, now, addOk, removeOk).engine;
    assert w.reputations[0x0100_000A].ip == DottedQuad([q[3], q[2], q[1], q[0]]);
    var f := PollEntry(e, 0x0A00_0001, v, now, addOk, removeOk).engine;
    assert f.reputations[0x0A00_0001].ip == DottedQuad(q);
  }

  /** 10.0.0.1 prints as "10.0.0.1", and with its bytes reversed as "1.0.0.10". */
  lemma TenZeroZeroOneQuads()
    ensures var q := U32BEToIP(0x0A00_0001);
      DottedQuad(q) == "10.0.0.1" && DottedQuad([q[3], q[2], q[1], q[0]]) == "1.0.0.10"
  {
    BeBytesOfQuad(10, 0, 0, 1);
    var q := U32BEToIP(0x0A00_0001);
    assert q == [10, 0, 0, 1];
    assert Decimal(1) == "1" && Decimal(0) == "0";
    assert Decimal(10) == NatDigits(1) + [DigitChar(0)] == "10";
  }

  /** Every blacklist update a poll makes succeeds. */
  const ALL_OK: MapOutcomes := MapOutcomes(k => true, k => true)

  /** As written, a first poll of 10.0.0.1 at score 600 auto-blocks it under 1.0.0.10 alone. */
  lemma AutoBlockUnderHostOrderKey(now: Clocks, v: ReputationBpf.RepEntry)
    requires v.score == 600
    ensures var e1 := PollAsWritten(NewEngine(map[]), map[0x0A00_0001 := v], [0x0A00_0001], now, ALL_OK).engine;
      e1.blocked == {0x0100_000A} && e1.manual == {} && e1.blacklist == map[HostKey(0x0100_000A) := DROP_REPUTATION]
  {
    var a: u32 := 0x0A00_0001;
    TenZeroZeroOneHostOrder();
    var e0 := NewEngine(map[]);
    assert [a][..0] == [];
    assert PollAsWritten(e0, map[a := v], [], now, ALL_OK) == PollAllResult(e0, map[a := v]);
    var s1 := PollEntryAsWritten(e0, a, v, now, true, true);
    assert PollAsWritten(e0, map[a := v], [a], now, ALL_OK).engine == s1.engine;
  }

  /**
   * As written, once the score has decayed, a poll of 10.0.0.1 finds
   * 1.0.0.10 blocked but not by hand and deletes its /32, leaving only
   * the key filed under the big-endian value.
   */
  lemma AutoUnblockUnderHostOrderKey(e2: RepEngine, now: Clocks, v: ReputationBpf.RepEntry)
    requires e2.threshold == 500 && e2.blocked == {0x0A00_0001, 0x0100_000A} && e2.manual == {0x0A00_0001}
    requires e2.blacklist == map[HostKey(0x0100_000A) := DROP_REPUTATION][HostKey(0x0A00_0001) := DROP_REPUTATION]
    requires v.score == 0
    ensures var e3 := PollAsWritten(e2, map[0x0A00_0001 := v], [0x0A00_0001], now, ALL_OK).engine;
      e3.manual == {0x0A00_0001} && e3.blacklist == map[HostKey(0x0A00_0001) := DROP_REPUTATION]
  {
    var a: u32 := 0x0A00_0001;
    TenZeroZeroOneHostOrder();
    assert [a][..0] == [];
    assert PollAsWritten(e2, map[a := v], [], now, ALL_OK) == PollAllResult(e2, map[a := v]);
    var s3 := PollEntryAsWritten(e2, a, v, now, true, true);
    assert PollAsWritten(e2, map[a := v], [a], now, ALL_OK).engine == s3.engine;
    assert s3.engine.blacklist == e2.blacklist - {HostKey(0x0100_000A)};
  }

  /** As written, the /32 filed under 1.0.0.10 reaches the data plane as 10.0.0.1, and the one under 10.0.0.1 as 1.0.0.10. */
  lemma HostKeysAsSeen()
    ensures Covers(DataPlaneKeyOf(KeyBytesAsWritten(HostKey(0x0100_000A))), 0x0A00_0001)
    ensures !Covers(DataPlaneKeyOf(KeyBytesAsWritten(HostKey(0x0A00_0001))), 0x0A00_0001)
  {
    TenZeroZeroOneHostOrder();
    HostOrderKeyHandoff(32, 0x0A00_0001);
    KeyHandoffAsWritten(HostKey(0x0A00_0001));
    Pow2Values();
  }

  /**
   * As written, a source blocked by hand loses its block in the data
   * plane. Poll auto-blocks 10.0.0.1 under its host-order key 1.0.0.10,
   * whose /32 does reach the data plane as 10.0.0.1; the operator then
   * blocks "10.0.0.1", filed under the big-endian key; once the score has
   * decayed, poll finds the host-order key blocked but not by hand and
   * deletes its /32, so no blacklist key the data plane receives covers
   * the source, though the engine still lists it as blocked by hand.
   */
  lemma ManualBlockLostAsWritten(lib: NetLib, now: Clocks, v: ReputationBpf.RepEntry, nowNs: int)
    requires lib.parseIP("10.0.0.1") == Some(V4_MAPPED_PREFIX + [10, 0, 0, 1])
    requires v.score == 600
    ensures var e1 := PollAsWritten(NewEngine(map[]), map[0x0A00_0001 := v], [0x0A00_0001], now, ALL_OK).engine;
      && (exists k :: k in e1.blacklist && Covers(DataPlaneKeyOf(KeyBytesAsWritten(k)), 0x0A00_0001))
      && BlockIP(e1, lib, "10.0.0.1", nowNs, true).Ok?
      && var e2 := BlockIP(e1, lib, "10.0.0.1", nowNs, true).value;
         var e3 := PollAsWritten(e2, map[0x0A00_0001 := v.(score := 0)], [0x0A00_0001], now, ALL_OK).engine;
         && 0x0A00_0001 in e3.manual
         && forall k :: k in e3.blacklist ==> !Covers(DataPlaneKeyOf(KeyBytesAsWritten(k)), 0x0A00_0001)
  {
    hide PollAsWritten, BlockIP, PollEntryAt;
    var a: u32 := 0x0A00_0001;
    var b: u32 := 0x0100_000A;
    AutoBlockUnderHostOrderKey(now, v);
    HostKeysAsSeen();
    var e1 := PollAsWritten(NewEngine(map[]), map[a := v], [a], now, ALL_OK).engine;
    assert HostKey(b) in e1.blacklist;
    HandBlockAfterAutoBlock(e1, lib, nowNs);
    var e2 := BlockIP(e1, lib, "10.0.0.1", nowNs, true).value;
    AutoUnblockUnderHostOrderKey(e2, now, v.(score := 0));
  }

  /** Blocking "10.0.0.1" by hand after poll blocked 1.0.0.10 leaves both keys blocked and only the first blocked by hand. */
  lemma HandBlockAfterAutoBlock(e1: RepEngine, lib: NetLib, nowNs: int)
    requires lib.parseIP("10.0.0.1") == Some(V4_MAPPED_PREFIX + [10, 0, 0, 1])
    requires e1.threshold == 500 && e1.blocked == {0x0100_000A} && e1.manual == {}
    requires e1.blacklist == map[HostKey(0x0100_000A) := DROP_REPUTATION]
    ensures BlockIP(e1, lib, "10.0.0.1", nowNs, true).Ok?
    ensures var e2 := BlockIP(e1, lib, "10.0.0.1", nowNs, true).value;
      && e2.threshold == 500 && e2.blocked == {0x0A00_0001, 0x0100_000A} && e2.manual == {0x0A00_0001}
      && e2.blacklist == map[HostKey(0x0100_000A) := DROP_REPUTATION][HostKey(0x0A00_0001) := DROP_REPUTATION]
  {
    IPToU32BEOfQuad(10, 0, 0, 1);
    assert ParseHostKey(lib, "10.0.0.1") == Ok(0x0A00_0001);
  }

  // ---- Blocking by hand ----

  /** The key BlockIP and UnblockIP use: the big-endian value of an IPv4 address. */
  function ParseHostKey(lib: NetLib, ip: string): (r: Result<u32>)
    ensures r.Ok? <==> lib.parseIP(ip).Some? && To4(lib.parseIP(ip).value).Some?
    ensures r.Ok? ==> r.value == IPToU32BE(lib.parseIP(ip).value)
  {
    match lib.parseIP(ip)
    case None => Err("invalid IP address: " + ip)
    case Some(parsed) =>
      if To4(parsed).None? then Err("IPv6 not supported: " + ip)
      else Ok(IPToU32BE(parsed))
  }

  /**
   * BlockIP: the address must parse and be IPv4; if the blacklist insert
   * fails nothing changes. Otherwise the source is both blocked and
   * blocked by hand, and its tracked entry (created if new, with the
   * given text and time) is marked blocked.
   */
  function BlockIP(e: RepEngine, lib: NetLib, ip: string, nowNs: int, addOk: bool): (r: Result<RepEngine>)
    ensures r.Ok? <==> ParseHostKey(lib, ip).Ok? && addOk
    ensures r.Ok? ==> var key := ParseHostKey(lib, ip).value;
      && r.value.blocked == e.blocked + {key}
      && r.value.manual == e.manual + {key}
      && r.value.blacklist == e.blacklist[HostKey(key) := DROP_REPUTATION]
      && key in r.value.reputations && r.value.reputations[key].blocked
      && r.value.reputations == e.reputations[key := r.value.reputations[key]]
      && (key in e.reputations ==> r.value.reputations[key] == e.reputations[key].(blocked := true))
      && r.value.threshold == e.threshold && r.value.decayRate == e.decayRate
  {
    match ParseHostKey(lib, ip)
    case Err(msg) => Err(msg)
    case Ok(key) =>
      if !addOk then Err("blocking " + ip)
      else
        var rep := if key in e.reputations then e.reputations[key] else Tracked(ip, 0, 0, 0, false, nowNs, nowNs);
        Ok(e.(blocked := e.blocked + {key}, manual := e.manual + {key},
              blacklist := e.blacklist[HostKey(key) := DROP_REPUTATION],
              reputations := e.reputations[key := rep.(blocked := true)]))
  }

  /**
   * UnblockIP: the same parsing; if the blacklist delete fails nothing
   * changes. Otherwise the source leaves both sets and its tracked entry,
   * if any, is marked unblocked.
   */
  function UnblockIP(e: RepEngine, lib: NetLib, ip: string, removeOk: bool): (r: Result<RepEngine>)
    ensures r.Ok? <==> ParseHostKey(lib, ip).Ok? && removeOk
    ensures r.Ok? ==> var key := ParseHostKey(lib, ip).value;
      && r.value.blocked == e.blocked - {key}
      && r.value.manual == e.manual - {key}
      && r.value.blacklist == e.blacklist - {HostKey(key)}
      && r.value.reputations.Keys == e.reputations.Keys
      && (key in e.reputations ==> r.value.reputations == e.reputations[key := e.reputations[key].(blocked := false)])
      && r.value.threshold == e.threshold && r.value.decayRate == e.decayRate
  {
    match ParseHostKey(lib, ip)
    case Err(msg) => Err(msg)
    case Ok(key) =>
      if !removeOk then Err("unblocking " + ip)
      else
        Ok(e.(blocked := e.blocked - {key}, manual := e.manual - {key},
              blacklist := e.blacklist - {HostKey(key)},
              reputations := if key in e.reputations then e.reputations[key := e.reputations[key].(blocked := false)]
                             else e.reputations))
  }

  /** Blocking by hand keeps the invariant. */
  lemma BlockKeepsConsistent(e: RepEngine, lib: NetLib, ip: string, nowNs: int, ok: bool)
    requires Consistent(e)
    ensures BlockIP(e, lib, ip, nowNs, ok).Ok? ==> Consistent(BlockIP(e, lib, ip, nowNs, ok).value)
  {
    if BlockIP(e, lib, ip, nowNs, ok).Ok? {
      var key := ParseHostKey(lib, ip).value;
      var r := BlockIP(e, lib, ip, nowNs, ok).value;
      forall k | k in r.blocked
        ensures HostKey(k) in r.blacklist
      {
        if k != key {
          assert k in e.blocked;
        }
      }
    }
  }

  /** Unblocking by hand keeps the invariant. */
  lemma UnblockKeepsConsistent(e: RepEngine, lib: NetLib, ip: string, ok: bool)
    requires Consistent(e)
    ensures UnblockIP(e, lib, ip, ok).Ok? ==> Consistent(UnblockIP(e, lib, ip, ok).value)
  {
    if UnblockIP(e, lib, ip, ok).Ok? {
      var key := ParseHostKey(lib, ip).value;
      var r := UnblockIP(e, lib, ip, ok).value;
      forall k | k in r.blocked
        ensures HostKey(k) in r.blacklist
      {
        assert k in e.blocked && k != key;
        assert HostKey(k) != HostKey(key);
      }
    }
  }

  /**
   * Blocking a source that was neither blocked nor listed, then
   * unblocking it, restores the two sets and the blacklist.
   */
  lemma BlockThenUnblock(e: RepEngine, lib: NetLib, ip: string, nowNs: int)
    requires ParseHostKey(lib, ip).Ok?
    requires var key := ParseHostKey(lib, ip).value;
      key !in e.blocked && key !in e.manual && HostKey(key) !in e.blacklist
    ensures var b := BlockIP(e, lib, ip, nowNs, true).value;
      var u := UnblockIP(b, lib, ip, true).value;
      u.blocked == e.blocked && u.manual == e.manual && u.blacklist == e.blacklist
  {
    hide *;
    var key := ParseHostKey(lib, ip).value;
    var b := BlockIP(e, lib, ip, nowNs, true).value;
    var u := UnblockIP(b, lib, ip, true).value;
    assert b.blocked == e.blocked + {key} && b.manual == e.manual + {key};
    assert b.blacklist == e.blacklist[HostKey(key) := DROP_REPUTATION];
    assert u.blocked == b.blocked - {key} && u.manual == b.manual - {key};
    assert u.blacklist == b.blacklist - {HostKey(key)};
    assert (e.blocked + {key}) - {key} == e.blocked;
    assert (e.manual + {key}) - {key} == e.manual;
    assert e.blacklist[HostKey(key) := DROP_REPUTATION] - {HostKey(key)} == e.blacklist;
  }

  /**
   * GetBlocked: one record per blocked source, in the set's iteration
   * order: its tracked entry, or, for a source never tracked, a bare
   * record naming its address and marked blocked.
   */
  function GetBlocked(e: RepEngine, order: seq<u32>): (r: seq<Tracked>)
    requires ListsKeys(order, e.blocked)
    ensures |r| == |order| == |e.blocked|
    ensures forall i :: 0 <= i < |order| && order[i] in e.reputations ==> r[i] == e.reputations[order[i]]
    ensures forall i :: 0 <= i < |order| && order[i] !in e.reputations ==>
      r[i].blocked && r[i].score == 0 && r[i].ip == DottedQuad(U32BEToIP(order[i]))
  {
    ListingSize(order, e.blocked);
    seq(|order|, i requires 0 <= i < |order| =>
      if order[i] in e.reputations then e.reputations[order[i]]
      else Tracked(DottedQuad(U32BEToIP(order[i])), 0, 0, 0, true, 0, 0))
  }

  /** Right after a manual block, the listing shows the source as blocked. */
  lemma BlockedListedAfterBlock(e: RepEngine, lib: NetLib, ip: string, nowNs: int, order: seq<u32>)
    requires BlockIP(e, lib, ip, nowNs, true).Ok?
    requires ListsKeys(order, BlockIP(e, lib, ip, nowNs, true).value.blocked)
    ensures var b := BlockIP(e, lib, ip, nowNs, true).value;
      exists i :: 0 <= i < |order| && order[i] == ParseHostKey(lib, ip).value && GetBlocked(b, order)[i].blocked
  {
    var b := BlockIP(e, lib, ip, nowNs, true).value;
    var key := ParseHostKey(lib, ip).value;
    var i :| 0 <= i < |order| && order[i] == key;
    assert GetBlocked(b, order)[i].blocked;
  }

  // ---- Top offenders ----

  predicate SortedByScore(s: seq<Tracked>)
  {
    forall i, j :: 0 <= i < j < |s| ==> s[i].score >= s[j].score
  }

  /** A sorted list stays sorted under a head that scores at least its first entry. */
  lemma ConsSorted(h: Tracked, t: seq<Tracked>)
    requires SortedByScore(t) && (|t| > 0 ==> h.score >= t[0].score)
    ensures SortedByScore([h] + t)
  {
    var c := [h] + t;
    forall i, j | 0 <= i < j < |c|
      ensures c[i].score >= c[j].score
    {
      if i == 0 {
        assert c[j] == t[j - 1];
        assert t[0].score >= t[j - 1].score;
      } else {
        assert c[i] == t[i - 1] && c[j] == t[j - 1];
      }
    }
  }

  /** Insert into a list sorted by non-increasing score. */
  function InsertByScore(x: Tracked, s: seq<Tracked>): (r: seq<Tracked>)
    requires SortedByScore(s)
    ensures SortedByScore(r) && multiset(r) == multiset(s) + multiset{x}
    ensures |r| == |s| + 1 && (r[0] == x || (|s| > 0 && r[0] == s[0]))
  {
    if |s| == 0 then [x]
    else if x.score >= s[0].score then
      ConsSorted(x, s);
      [x] + s
    else
      assert SortedByScore(s[1..]) by {
        forall i, j | 0 <= i < j < |s| - 1
          ensures s[1..][i].score >= s[1..][j].score
        {
          assert s[1..][i] == s[i + 1] && s[1..][j] == s[j + 1];
        }
      }
      var rest := InsertByScore(x, s[1..]);
      assert s == [s[0]] + s[1..];
      assert rest[0].score <= s[0].score;
      ConsSorted(s[0], rest);
      [s[0]] + rest
  }

  /** Sort by non-increasing score: the order sort.Slice establishes. */
  function SortByScore(s: seq<Tracked>): (r: seq<Tracked>)
    ensures SortedByScore(r) && multiset(r) == multiset(s)
  {
    if |s| == 0 then []
    else
      assert s == [s[0]] + s[1..];
      InsertByScore(s[0], SortByScore(s[1..]))
  }

  /** The tracked entries in the map's iteration order. */
  function TrackedValues(e: RepEngine, order: seq<u32>): (vs: seq<Tracked>)
    requires forall k :: k in order ==> k in e.reputations
    ensures |vs| == |order| && forall i :: 0 <= i < |order| ==> vs[i] == e.reputations[order[i]]
  {
    seq(|order|, i requires 0 <= i < |order| => e.reputations[order[i]])
  }

  /**
   * GetTopOffenders: the tracked entries sorted by non-increasing score,
   * cut to the first n (all of them when there are fewer). A negative n
   * makes the slice expression panic; that is None here.
   */
  function TopOffenders(e: RepEngine, order: seq<u32>, n: int): (r: Option<seq<Tracked>>)
    requires ListsKeys(order, e.reputations.Keys)
    ensures n < 0 <==> r.None?
    ensures r.Some? ==>
      && |r.value| == (if n > |e.reputations| then |e.reputations| else n)
      && SortedByScore(r.value)
      && multiset(r.value) <= multiset(TrackedValues(e, order))
      && forall x, y :: x in r.value && y in TrackedValues(e, order) && y !in r.value ==> x.score >= y.score
  {
    ListingSize(order, e.reputations.Keys);
    if n < 0 then None
    else
      var all := SortByScore(TrackedValues(e, order));
      var k := if n > |all| then |all| else n;
      SortedPrefixIsTop(all, TrackedValues(e, order), k);
      Some(all[..k])
  }

  /** The first k entries of a sorted permutation are sorted, drawn from the input, and score at least as high as any entry left out. */
  lemma SortedPrefixIsTop(all: seq<Tracked>, vals: seq<Tracked>, k: nat)
    requires SortedByScore(all) && multiset(all) == multiset(vals) && k <= |all|
    ensures |all| == |vals|
    ensures SortedByScore(all[..k]) && multiset(all[..k]) <= multiset(vals)
    ensures forall x, y :: x in all[..k] && y in vals && y !in all[..k] ==> x.score >= y.score
  {
    assert |multiset(all)| == |multiset(vals)|;
    assert all == all[..k] + all[k..];
    assert multiset(all) == multiset(all[..k]) + multiset(all[k..]);
    forall x, y | x in all[..k] && y in vals && y !in all[..k]
      ensures x.score >= y.score
    {
      assert y in multiset(all);
      var j :| 0 <= j < |all| && all[j] == y;
      var i :| 0 <= i < k && all[..k][i] == x;
      assert j >= k;
    }
  }

  // ---- The threshold ----

  /**
   * loadThresholdFromConfig: a successful lookup of a nonzero value
   * replaces the threshold with the value truncated to 32 bits;
   * otherwise the threshold stays.
   */
  function LoadThreshold(e: RepEngine, lookup: Option<u64>): (r: RepEngine)
    ensures r == e.(threshold := r.threshold)
    ensures lookup.None? || lookup.value == 0 ==> r.threshold == e.threshold
    ensures lookup.Some? && 0 < lookup.value < U32_LIMIT ==> r.threshold == lookup.value
  {
    match lookup
    case Some(val) => if val > 0 then e.(threshold := val % U32_LIMIT) else e
    case None => e
  }

  datatype ThresholdResult = ThresholdResult(engine: RepEngine, cfg: Config, status: Status)

  /**
   * SetThreshold: the engine takes the new threshold in any case; the
   * config key 13 takes it if the map update succeeds, and the status
   * reports whether it did.
   */
  function SetThreshold(e: RepEngine, cfg: Config, threshold: u32, ok: bool): (r: ThresholdResult)
    ensures r.engine == e.(threshold := threshold)
    ensures r.status.Success? <==> ok
    ensures ok ==> GetConfig(r.cfg, CFG_REPUTATION_THRESH) == threshold
    ensures forall k :: k != CFG_REPUTATION_THRESH ==> GetConfig(r.cfg, k) == GetConfig(cfg, k)
    ensures !ok ==> r.cfg == cfg
  {
    if ok then ThresholdResult(e.(threshold := threshold), cfg[CFG_REPUTATION_THRESH := threshold as u64], Success)
    else ThresholdResult(e.(threshold := threshold), cfg, Failure("updating reputation threshold in config map"))
  }

  /**
   * After a successful SetThreshold of a nonzero value, a restarted
   * engine loads the same threshold, and the data plane blocks at the
   * same score.
   */
  lemma ThresholdAgreesAcrossPlanes(e: RepEngine, fresh0: RepEngine, cfg: Config, threshold: u32)
    requires threshold > 0
    ensures var r := SetThreshold(e, cfg, threshold, true);
      && LoadThreshold(fresh0, Some(GetConfig(r.cfg, CFG_REPUTATION_THRESH))).threshold == threshold
      && ReputationBpf.RepThreshold(r.cfg) == threshold
  {
  }
}
