/**
 * The control plane's writes into the data plane's maps (package bpf,
 * maps.go): the range-checked config and signature updates, the SYN
 * cookie seeds, the blacklist keyed by CIDR, the port byte swap, and the
 * aggregation of the per-CPU statistics. A map update that the kernel
 * refuses is an input (`ok`).
 */
module GoMaps {
  import opened Ints
  import opened Wrappers
  import opened BpfTypes
  import opened GoNet
  import SynFlood

  /** The maps this manager writes. */
  datatype Maps = Maps(
    config: Config,
    attackSigs: map<u32, AttackSig>,
    synCookie: map<u32, SynCookieCtx>,
    blacklist: map<LpmKey, u32>,
    whitelist: map<LpmKey, u32>,
    portProto: map<u16, u32>,
    attackSigCount: u32,
    greTunnels: map<LpmKey, u32>,
    conntrack: ConntrackTable)

  /** The number of slots of the attack-signature array map. */
  const ATTACK_SIG_SLOTS: u32 := 256

  /** SetConfig: keys from CFG_MAX up are refused before the map is touched. */
  function SetConfig(m: Maps, key: u32, value: u64, ok: bool): (r: Result<Maps>)
    ensures r.Ok? <==> key < CFG_MAX && ok
    ensures r.Ok? ==> (GetConfig(r.value.config, key) == value
                       && (forall k :: k != key ==> GetConfig(r.value.config, k) == GetConfig(m.config, k))
                       && r.value == m.(config := r.value.config))
  {
    if key >= CFG_MAX then Err("config key out of range")
    else if !ok then Err("config update failed")
    else Ok(m.(config := m.config[key := value]))
  }

  /**
   * GetConfig: a lookup in the config array map, which has CFG_MAX slots;
   * a key past the last slot fails, a slot never written reads as 0.
   */
  function ReadConfig(m: Maps, key: u32): (r: Result<u64>)
    ensures r.Ok? <==> key < CFG_MAX
    ensures r.Ok? && key !in m.config ==> r.value == 0
  {
    if key < CFG_MAX then Ok(GetConfig(m.config, key)) else Err("reading config key")
  }

  /** A value written is the value read back, and a write leaves every other slot's reading alone. */
  lemma SetConfigThenRead(m: Maps, key: u32, value: u64, other: u32)
    requires SetConfig(m, key, value, true).Ok?
    ensures ReadConfig(SetConfig(m, key, value, true).value, key) == Ok(value)
    ensures other != key ==> ReadConfig(SetConfig(m, key, value, true).value, other) == ReadConfig(m, other)
  {
  }

  /** SetAttackSignature: indices from 256 up are refused before the map is touched. */
  function SetAttackSignature(m: Maps, index: u32, sig: AttackSig, ok: bool): (r: Result<Maps>)
    ensures r.Ok? <==> index < ATTACK_SIG_SLOTS && ok
    ensures r.Ok? ==> (r.value.attackSigs.Keys == m.attackSigs.Keys + {index}
                       && r.value.attackSigs[index] == sig
                       && (forall i :: i in m.attackSigs && i != index ==> r.value.attackSigs[i] == m.attackSigs[i])
                       && r.value == m.(attackSigs := r.value.attackSigs))
  {
    if index >= ATTACK_SIG_SLOTS then Err("signature index out of range")
    else if !ok then Err("signature update failed")
    else Ok(m.(attackSigs := m.attackSigs[index := sig]))
  }

  /** SetAttackSignatureCount: the one count slot, at key 0, holds the number of active signatures. */
  function SetAttackSignatureCount(m: Maps, count: u32, ok: bool): (r: Result<Maps>)
    ensures r.Ok? <==> ok
    ensures r.Ok? ==> r.value.attackSigCount == count && r.value == m.(attackSigCount := count)
  {
    if !ok then Err("signature count update failed") else Ok(m.(attackSigCount := count))
  }

  /** UpdateSYNCookieSeeds: the one seed record, at key 0, becomes (current, previous, updateNs). */
  function UpdateSynCookieSeeds(m: Maps, current: u32, previous: u32, updateNs: u64, ok: bool): (r: Result<Maps>)
    ensures r.Ok? <==> ok
    ensures r.Ok? ==> (0 in r.value.synCookie && r.value.synCookie[0] == SynCookieCtx(current, previous, updateNs)
                       && r.value == m.(synCookie := r.value.synCookie))
  {
    if !ok then Err("seed update failed") else Ok(m.(synCookie := m.synCookie[0 := SynCookieCtx(current, previous, updateNs)]))
  }

  /** The seed record the data plane reads from key 0. */
  function SeedRecord(m: Maps): (c: Option<SynCookieCtx>)
    ensures c.Some? <==> 0 in m.synCookie
  {
    if 0 in m.synCookie then Some(m.synCookie[0]) else None
  }

  /**
   * Rotating the seeds (the new seed becomes current, the old current one
   * becomes previous) keeps every cookie issued under the old current seed
   * valid: its ACK still validates.
   */
  lemma RotationKeepsIssuedCookies(hash: SynFlood.SipHash, m: Maps, newSeed: u32, updateNs: u64,
                                   syn: Packet, ack: Packet)
    requires SeedRecord(m).Some?
    requires ack.srcIp == syn.srcIp && ack.dstIp == syn.dstIp
    requires ack.srcPort == syn.srcPort && ack.dstPort == syn.dstPort
    requires ack.tcpAckSeq == Add32(SynFlood.CookieGenerate(hash, syn, SeedRecord(m).value.seedCurrent,
                                                            SynFlood.MssToIndex(SynFlood.DEFAULT_MSS)), 1)
    ensures var r := UpdateSynCookieSeeds(m, newSeed, SeedRecord(m).value.seedCurrent, updateNs, true);
      r.Ok? && SynFlood.CookieValidate(hash, ack, SeedRecord(r.value), ack.tcpAckSeq)
  {
    var prevSeed := SeedRecord(m).value.seedCurrent;
    var r := UpdateSynCookieSeeds(m, newSeed, prevSeed, updateNs, true);
    SynFlood.CookieRoundTrip(hash, syn, ack, prevSeed, SynCookieCtx(newSeed, prevSeed, updateNs));
  }

  // ---- CIDR keys ----

  /**
   * cidrToLPMKey as written: a CIDR gives (mask size, network address as a
   * big-endian value); anything ParseCIDR refuses but ParseIP accepts gives
   * a /32 of that address. An IPv6 network or address is not refused: its
   * value is 0, and the prefix length is the IPv6 mask size.
   */
  function CidrToLpmKeyAsWritten(lib: NetLib, cidr: string): (r: Result<LpmKey>)
    ensures r.Err? <==> lib.parseCIDR(cidr).None? && lib.parseIP(cidr).None?
  {
    match lib.parseCIDR(cidr)
    case Some(n) => Ok(LpmKey(n.ones % U32_LIMIT, IPToU32BE(n.ip)))
    case None =>
      match lib.parseIP(cidr)
      case None => Err("invalid CIDR or IP")
      case Some(ip) => Ok(LpmKey(32, IPToU32BE(ip)))
  }

  /**
   * cidrToLPMKey restricted to what an IPv4 trie can hold: an IPv6 network
   * or address is refused like an unparseable string.
   */
  function CidrToLpmKey(lib: NetLib, cidr: string): (r: Result<LpmKey>)
    ensures r.Ok? <==>
      (lib.parseCIDR(cidr).Some? && IsV4Net(lib.parseCIDR(cidr).value))
      || (lib.parseCIDR(cidr).None? && lib.parseIP(cidr).Some? && To4(lib.parseIP(cidr).value).Some?)
    ensures r.Ok? ==> r.value.prefixLen <= 32
    ensures r.Ok? && lib.parseCIDR(cidr).Some? ==>
      r.value == LpmKey(lib.parseCIDR(cidr).value.ones, Be32At(lib.parseCIDR(cidr).value.ip, 0))
    ensures r.Ok? && lib.parseCIDR(cidr).None? ==>
      r.value == LpmKey(32, Be32At(To4(lib.parseIP(cidr).value).value, 0))
  {
    match lib.parseCIDR(cidr)
    case Some(n) =>
      if IsV4Net(n) then Ok(LpmKey(n.ones, IPToU32BE(n.ip))) else Err("not an IPv4 network")
    case None =>
      match lib.parseIP(cidr)
      case None => Err("invalid CIDR or IP")
      case Some(ip) => if To4(ip).Some? then Ok(LpmKey(32, IPToU32BE(ip))) else Err("not an IPv4 address")
  }

  /** Wherever the corrected conversion gives a key, it is the key the written one gives. */
  lemma CidrKeyAgreesOnIPv4(lib: NetLib, cidr: string)
    requires CidrToLpmKey(lib, cidr).Ok?
    ensures CidrToLpmKeyAsWritten(lib, cidr) == CidrToLpmKey(lib, cidr)
  {
  }

  /** Where they differ, the input was an IPv6 network or an IPv6 address. */
  lemma CidrKeyDiffersOnlyOnIPv6(lib: NetLib, cidr: string)
    requires WellFormed(lib)
    requires CidrToLpmKeyAsWritten(lib, cidr) != CidrToLpmKey(lib, cidr)
    ensures lib.parseCIDR(cidr).Some? ==> |lib.parseCIDR(cidr).value.ip| == 16
    ensures lib.parseCIDR(cidr).None? ==> lib.parseIP(cidr).Some? && To4(lib.parseIP(cidr).value).None?
  {
  }

  /** The sixteen zero bytes of the IPv6 unspecified address. */
  const IPV6_ZERO: IP := seq(16, i => 0)

  /**
   * As written, the IPv6 default route "::/0" becomes the IPv4 key /0 at
   * address 0, which covers every IPv4 source: blacklisting it drops all
   * IPv4 traffic. The corrected conversion refuses it.
   */
  lemma IPv6DefaultRouteCoversAllIPv4(lib: NetLib, addr: u32)
    requires lib.parseCIDR("::/0") == Some(IPNet(IPV6_ZERO, 0, 128))
    ensures CidrToLpmKeyAsWritten(lib, "::/0") == Ok(LpmKey(0, 0))
    ensures Covers(CidrToLpmKeyAsWritten(lib, "::/0").value, addr)
    ensures CidrToLpmKey(lib, "::/0").Err?
  {
    assert !IsV4Mapped(IPV6_ZERO) by {
      assert IPV6_ZERO[10] == 0;
      assert IPV6_ZERO[..12][10] == IPV6_ZERO[10];
    }
    ZeroKeyCoversAll(addr);
  }

  /** AddBlacklistCIDR: the key of `cidr` maps to `reason`; a bad string or a refused update changes nothing. */
  function AddBlacklistCidr(m: Maps, lib: NetLib, cidr: string, reason: u32, ok: bool): (r: Result<Maps>)
    ensures r.Ok? <==> CidrToLpmKey(lib, cidr).Ok? && ok
    ensures r.Ok? ==> var k := CidrToLpmKey(lib, cidr).value;
      r.value.blacklist == m.blacklist[k := reason] && r.value == m.(blacklist := r.value.blacklist)
  {
    match CidrToLpmKey(lib, cidr)
    case Err(e) => Err(e)
    case Ok(k) => if ok then Ok(m.(blacklist := m.blacklist[k := reason])) else Err("blacklist update failed")
  }

  /** RemoveBlacklistCIDR: the key of `cidr` is deleted. */
  function RemoveBlacklistCidr(m: Maps, lib: NetLib, cidr: string, ok: bool): (r: Result<Maps>)
    ensures r.Ok? <==> CidrToLpmKey(lib, cidr).Ok? && ok
    ensures r.Ok? ==> (r.value.blacklist == m.blacklist - {CidrToLpmKey(lib, cidr).value}
                       && r.value == m.(blacklist := r.value.blacklist))
  {
    match CidrToLpmKey(lib, cidr)
    case Err(e) => Err(e)
    case Ok(k) => if ok then Ok(m.(blacklist := m.blacklist - {k})) else Err("blacklist delete failed")
  }

  /** Adding a prefix that was absent and removing it again restores the blacklist. */
  lemma AddRemoveBlacklist(m: Maps, lib: NetLib, cidr: string, reason: u32)
    requires CidrToLpmKey(lib, cidr).Ok? && CidrToLpmKey(lib, cidr).value !in m.blacklist
    ensures var a := AddBlacklistCidr(m, lib, cidr, reason, true);
      a.Ok? && RemoveBlacklistCidr(a.value, lib, cidr, true) == Ok(m)
  {
    var k := CidrToLpmKey(lib, cidr).value;
    assert m.blacklist[k := reason] - {k} == m.blacklist;
  }

  /** AddWhitelistCIDR: the key of `cidr` maps to 1, the value the ACL's whitelist lookup tests for presence. */
  function AddWhitelistCidr(m: Maps, lib: NetLib, cidr: string, ok: bool): (r: Result<Maps>)
    ensures r.Ok? <==> CidrToLpmKey(lib, cidr).Ok? && ok
    ensures r.Ok? ==> (r.value.whitelist == m.whitelist[CidrToLpmKey(lib, cidr).value := 1]
                       && r.value == m.(whitelist := r.value.whitelist))
  {
    match CidrToLpmKey(lib, cidr)
    case Err(e) => Err(e)
    case Ok(k) => if ok then Ok(m.(whitelist := m.whitelist[k := 1])) else Err("whitelist update failed")
  }

  /** RemoveWhitelistCIDR: the key of `cidr` is deleted. */
  function RemoveWhitelistCidr(m: Maps, lib: NetLib, cidr: string, ok: bool): (r: Result<Maps>)
    ensures r.Ok? <==> CidrToLpmKey(lib, cidr).Ok? && ok
    ensures r.Ok? ==> (r.value.whitelist == m.whitelist - {CidrToLpmKey(lib, cidr).value}
                       && r.value == m.(whitelist := r.value.whitelist))
  {
    match CidrToLpmKey(lib, cidr)
    case Err(e) => Err(e)
    case Ok(k) => if ok then Ok(m.(whitelist := m.whitelist - {k})) else Err("whitelist delete failed")
  }

  /** Whitelisting a prefix and removing it again leaves no entry for its key, whatever was there before. */
  lemma AddRemoveWhitelist(m: Maps, lib: NetLib, cidr: string)
    requires CidrToLpmKey(lib, cidr).Ok?
    ensures var a := AddWhitelistCidr(m, lib, cidr, true);
      a.Ok? && CidrToLpmKey(lib, cidr).value in a.value.whitelist
      && var d := RemoveWhitelistCidr(a.value, lib, cidr, true);
      d.Ok? && d.value.whitelist == m.whitelist - {CidrToLpmKey(lib, cidr).value}
  {
    var k := CidrToLpmKey(lib, cidr).value;
    assert m.whitelist[k := 1] - {k} == m.whitelist - {k};
  }

  /**
   * AddGRETunnel: the destination prefix maps to the endpoint's address as
   * a big-endian value (0 for an endpoint that is not IPv4).
   */
  function AddGreTunnel(m: Maps, lib: NetLib, cidr: string, endpoint: IP, ok: bool): (r: Result<Maps>)
    ensures r.Ok? <==> CidrToLpmKey(lib, cidr).Ok? && ok
    ensures r.Ok? ==> var k := CidrToLpmKey(lib, cidr).value;
      k in r.value.greTunnels && r.value == m.(greTunnels := m.greTunnels[k := r.value.greTunnels[k]])
    ensures r.Ok? && To4(endpoint).Some? ==>
      U32BEToIP(r.value.greTunnels[CidrToLpmKey(lib, cidr).value]) == To4(endpoint).value
  {
    match CidrToLpmKey(lib, cidr)
    case Err(e) => Err(e)
    case Ok(k) =>
      if ok then
        EndpointRoundTrip(endpoint);
        Ok(m.(greTunnels := m.greTunnels[k := IPToU32BE(endpoint)]))
      else Err("gre tunnel update failed")
  }

  lemma EndpointRoundTrip(ip: IP)
    ensures To4(ip).Some? ==> U32BEToIP(IPToU32BE(ip)) == To4(ip).value
  {
    if To4(ip).Some? {
      IPToU32BERoundTrip(ip);
    }
  }

  /**
   * ConntrackCount: the number of entries the iteration visits, together
   * with the iteration's error, if any. The model's iteration visits every
   * key once.
   */
  function ConntrackCount(m: Maps, iterOk: bool): (r: (nat, Status))
    ensures r.0 == |m.conntrack.Keys|
    ensures r.1.Success? <==> iterOk
  {
    (|m.conntrack|, if iterOk then Success else Failure("iterating conntrack"))
  }

  /**
   * FlushConntrack: the keys are collected first and then deleted one by
   * one; a failed iteration is an error and deletes nothing. Individual
   * delete errors are ignored, so a key whose delete fails survives.
   */
  function FlushConntrack(m: Maps, iterOk: bool, deleteFails: set<ConntrackKey>): (r: Result<Maps>)
    ensures r.Ok? <==> iterOk
    ensures r.Ok? ==> (r.value.conntrack.Keys == m.conntrack.Keys * deleteFails
                       && (forall k :: k in r.value.conntrack ==> r.value.conntrack[k] == m.conntrack[k])
                       && r.value == m.(conntrack := r.value.conntrack))
  {
    if !iterOk then Err("iterating conntrack")
    else Ok(m.(conntrack := map k | k in m.conntrack && k in deleteFails :: m.conntrack[k]))
  }

  /** With every delete succeeding, the flush leaves the table empty and the count at zero. */
  lemma FlushEmptiesTable(m: Maps)
    ensures FlushConntrack(m, true, {}).Ok?
    ensures ConntrackCount(FlushConntrack(m, true, {}).value, true).0 == 0
  {
    var r := FlushConntrack(m, true, {}).value;
    assert r.conntrack.Keys == {};
  }

  // ---- Port byte order ----

  /** hostToBE16: write the value big-endian, read the two bytes back little-endian. */
  function HostToBE16(v: u16): (r: u16)
    ensures r == Bswap16(v)
  {
    var buf := BeBytes(v, 2);
    assert BeBytes(v / 0x100, 1) == [(v / 0x100) % 0x100];
    assert buf == [Hi(v), Lo(v)];
    Le16At(buf, 0)
  }

  lemma HostToBE16Involutive(v: u16)
    ensures HostToBE16(HostToBE16(v)) == v
  {
    Bswap16Involutive(v);
  }

  /** SetPortProtocol: the flags are stored under the port's network-order value. */
  function SetPortProtocol(m: Maps, port: u16, flags: u32, ok: bool): (r: Result<Maps>)
    ensures r.Ok? <==> ok
    ensures r.Ok? ==> r.value.portProto == m.portProto[Bswap16(port) := flags] && r.value == m.(portProto := r.value.portProto)
  {
    if ok then Ok(m.(portProto := m.portProto[HostToBE16(port) := flags])) else Err("port update failed")
  }

  /** The bytes a uint16 map key occupies once marshalled: host order, low byte first. */
  function NativeBytes16(v: u16): (b: seq<u8>)
    ensures |b| == 2 && b[0] == Lo(v) && b[1] == Hi(v)
  {
    assert LeBytes(v / 0x100, 1) == [(v / 0x100) % 0x100];
    LeBytes(v, 2)
  }

  /**
   * How port_proto_map's __be16 key is read: the network-order value of
   * its two bytes, the convention by which a packet's source port is
   * looked up in it.
   */
  function DataPlanePort(b: seq<u8>): u16
    requires |b| == 2
  {
    Be16At(b, 0)
  }

  /** The key SetPortProtocol writes reaches the data plane as the port, and no other Go key does. */
  lemma PortKeyHandoff(port: u16, k: u16)
    ensures DataPlanePort(NativeBytes16(HostToBE16(port))) == port
    ensures DataPlanePort(NativeBytes16(k)) == port <==> k == HostToBE16(port)
  {
    var w := HostToBE16(port);
    assert port == Hi(port) * 0x100 + Lo(port);
    assert k == Hi(k) * 0x100 + Lo(k);
    assert w == Hi(w) * 0x100 + Lo(w);
  }

  // ---- Statistics ----

  /** One CPU's copy of the statistics record. */
  type CpuStats = Counter -> u64

  /** The exact sum of one counter over the per-CPU copies. */
  function FieldSum(perCpu: seq<CpuStats>, c: Counter): (s: nat)
  {
    if |perCpu| == 0 then 0 else FieldSum(perCpu[..|perCpu| - 1], c) + perCpu[|perCpu| - 1](c)
  }

  lemma ModAddStep(a: nat, b: nat)
    ensures (a % U64_LIMIT + b) % U64_LIMIT == (a + b) % U64_LIMIT
  {
  }

  /**
   * ReadStats: a failed lookup is an error; otherwise each counter of the
   * result is the 64-bit wrapping sum of that counter over all CPUs.
   */
  method ReadStats(lookupOk: bool, perCpu: seq<CpuStats>) returns (r: Result<CpuStats>)
    ensures r.Err? <==> !lookupOk
    ensures r.Ok? ==> forall c :: r.value(c) == FieldSum(perCpu, c) % U64_LIMIT
  {
    if !lookupOk {
      return Err("reading stats");
    }
    var agg: CpuStats := c => 0;
    var i := 0;
    while i < |perCpu|
      invariant 0 <= i <= |perCpu|
      invariant forall c :: agg(c) == FieldSum(perCpu[..i], c) % U64_LIMIT
    {
      var prev := agg;
      var cpu := perCpu[i];
      agg := c => Add64(prev(c), cpu(c));
      forall c
        ensures agg(c) == FieldSum(perCpu[..i + 1], c) % U64_LIMIT
      {
        assert perCpu[..i + 1][..i] == perCpu[..i];
        ModAddStep(FieldSum(perCpu[..i], c), cpu(c));
      }
      i := i + 1;
    }
    assert perCpu[..i] == perCpu;
    return Ok(agg);
  }
}

/**
 * The port-protocol map seen from both planes: the control plane's map
 * keyed by the Go uint16 it writes, and the data plane's map keyed by
 * the source port it looks up.
 */
module GoPortMap {
  import opened Ints
  import opened GoMaps
  import Floods

  /** `ports` is what the data plane sees in port_proto_map when the control plane holds `goMap`. */
  predicate SeesPorts(goMap: map<u16, u32>, ports: Floods.PortProtoMap)
  {
    && (forall k :: k in goMap ==> DataPlanePort(NativeBytes16(k)) in ports && ports[DataPlanePort(NativeBytes16(k))] == goMap[k])
    && (forall q :: q in ports ==> Bswap16(q) in goMap)
  }

  /** After the write, every Go key is seen by the data plane with its flags. */
  lemma SeesPortsForward(goMap: map<u16, u32>, ports: Floods.PortProtoMap, port: u16, flags: u32)
    requires SeesPorts(goMap, ports)
    ensures var g := goMap[HostToBE16(port) := flags]; var d := ports[port := flags];
      forall k :: k in g ==> DataPlanePort(NativeBytes16(k)) in d && d[DataPlanePort(NativeBytes16(k))] == g[k]
  {
    var key := HostToBE16(port);
    var g := goMap[key := flags];
    var d := ports[port := flags];
    forall k | k in g
      ensures DataPlanePort(NativeBytes16(k)) in d && d[DataPlanePort(NativeBytes16(k))] == g[k]
    {
      var q := DataPlanePort(NativeBytes16(k));
      PortKeyHandoff(port, k);
      if k == key {
        assert q == port && g[k] == flags;
      } else {
        assert q != port && k in goMap && g[k] == goMap[k];
        assert q in ports && ports[q] == goMap[k];
      }
    }
  }

  /** After the write, every port the data plane sees comes from a Go key. */
  lemma SeesPortsBack(goMap: map<u16, u32>, ports: Floods.PortProtoMap, port: u16, flags: u32)
    requires SeesPorts(goMap, ports)
    ensures var g := goMap[HostToBE16(port) := flags];
      forall q :: q in ports[port := flags] ==> Bswap16(q) in g
  {
  }

  /** Writing the flags under the swapped port is, on the data plane's side, writing them under the port. */
  lemma SeesPortsAfterWrite(goMap: map<u16, u32>, ports: Floods.PortProtoMap, port: u16, flags: u32)
    requires SeesPorts(goMap, ports)
    ensures SeesPorts(goMap[HostToBE16(port) := flags], ports[port := flags])
  {
    SeesPortsForward(goMap, ports, port, flags);
    SeesPortsBack(goMap, ports, port, flags);
  }

  /**
   * After SetPortProtocol succeeds, the data plane sees the flags under
   * the port itself, every other port as before, so a datagram from that
   * port takes the port map's rule exactly when the flags are nonzero and
   * its payload is over 512 bytes.
   */
  lemma SetPortProtocolSeenByDataPlane(m: Maps, port: u16, flags: u32, ports: Floods.PortProtoMap, payloadLen: u16)
    requires SeesPorts(m.portProto, ports)
    ensures SeesPorts(SetPortProtocol(m, port, flags, true).value.portProto, ports[port := flags])
    ensures Floods.PortMapHits(ports[port := flags], port, payloadLen) <==> flags != 0 && payloadLen > 512
  {
    assert SetPortProtocol(m, port, flags, true).value.portProto == m.portProto[HostToBE16(port) := flags];
    SeesPortsAfterWrite(m.portProto, ports, port, flags);
  }
}
