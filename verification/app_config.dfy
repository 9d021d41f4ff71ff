/**
 * The scrubber's configuration (package config): its defaults, the
 * consistency check applied after loading, and the rate-limit accessors
 * used at run time. Reading and writing YAML files is not modelled.
 */
module AppConfig {
  import opened Ints
  import opened Wrappers

  datatype ScrubberConfig = ScrubberConfig(
    enabled: bool, conntrackEnabled: bool, baselinePps: u64, baselineBps: u64, attackThreshold: u64)

  datatype ApiConfig = ApiConfig(listen: string, tls: bool, cert: string, key: string)

  datatype SynCookieConfig = SynCookieConfig(enabled: bool, seedRotationSec: u64)

  datatype RateLimitConfig = RateLimitConfig(synRatePps: u64, udpRatePps: u64, icmpRatePps: u64, globalPps: u64, globalBps: u64)

  datatype AmpPortConfig = AmpPortConfig(port: u16, flags: u32)

  datatype Config = Config(
    iface: string,
    xdpMode: string,
    bpfObject: string,
    logLevel: string,
    scrubber: ScrubberConfig,
    api: ApiConfig,
    synCookie: SynCookieConfig,
    rateLimit: RateLimitConfig,
    blacklist: seq<string>,
    whitelist: seq<string>,
    ampPorts: seq<AmpPortConfig>)

  /** The amplification ports watched by default: DNS, NTP, SSDP, memcached and chargen. */
  const DEFAULT_AMP_PORTS: seq<AmpPortConfig> :=
    [AmpPortConfig(53, 1), AmpPortConfig(123, 2), AmpPortConfig(1900, 4), AmpPortConfig(11211, 8), AmpPortConfig(19, 16)]

  /**
   * DefaultConfig: eth0 in native mode, the built object file, API on
   * 0.0.0.0:9090, SYN cookies rotating every 60 s, per-source rates of
   * 1000 SYN, 10000 UDP and 100 ICMP packets per second with no global
   * limit, and the five amplification ports, one protocol flag bit each.
   */
  function DefaultConfig(): (c: Config)
    ensures c.iface == "eth0" && c.xdpMode == "native" && c.api.listen == "0.0.0.0:9090"
    ensures c.rateLimit == RateLimitConfig(1000, 10000, 100, 0, 0)
    ensures |c.ampPorts| == 5
    ensures forall i, j :: 0 <= i < j < |c.ampPorts| ==> c.ampPorts[i].port != c.ampPorts[j].port
    ensures forall i, j :: 0 <= i < j < |c.ampPorts| ==> c.ampPorts[i].flags != c.ampPorts[j].flags
  {
    Config(
      "eth0", "native", "build/obj/xdp_ddos_scrubber.o", "info",
      ScrubberConfig(true, true, 100000, 1000000000, 300),
      ApiConfig("0.0.0.0:9090", false, "", ""),
      SynCookieConfig(true, 60),
      RateLimitConfig(1000, 10000, 100, 0, 0),
      [], [],
      DEFAULT_AMP_PORTS)
  }

  /** Each default amplification port carries a distinct single bit of the protocol flags. */
  lemma DefaultAmpFlagsAreBits()
    ensures forall i :: 0 <= i < |DefaultConfig().ampPorts| ==>
      DefaultConfig().ampPorts[i].flags == Pow2(i)
  {
  }

  predicate ValidXdpMode(mode: string)
  {
    mode == "native" || mode == "skb" || mode == "offload"
  }

  /**
   * Validate: the interface, the object path and the API listen address
   * must be set, and the XDP mode must be native, skb or offload. The
   * first failing check, in that source order (interface, mode, object,
   * listen address), names the error.
   */
  function Validate(c: Config): (r: Status)
    ensures r.Success? <==> c.iface != "" && ValidXdpMode(c.xdpMode) && c.bpfObject != "" && c.api.listen != ""
    ensures c.iface == "" ==> r == Failure("interface is required")
    ensures c.iface != "" && !ValidXdpMode(c.xdpMode) ==>
      r == Failure("invalid xdp_mode: " + c.xdpMode + " (must be native, skb, or offload)")
    ensures c.iface != "" && ValidXdpMode(c.xdpMode) && c.bpfObject == "" ==> r == Failure("bpf_object path is required")
  {
    if c.iface == "" then Failure("interface is required")
    else if !ValidXdpMode(c.xdpMode) then Failure("invalid xdp_mode: " + c.xdpMode + " (must be native, skb, or offload)")
    else if c.bpfObject == "" then Failure("bpf_object path is required")
    else if c.api.listen == "" then Failure("api.listen is required")
    else Success
  }

  /** The defaults pass the check. */
  lemma DefaultIsValid()
    ensures Validate(DefaultConfig()).Success?
  {
  }

  /** On an otherwise valid configuration, the check passes exactly for the three XDP modes. */
  lemma ModeDecidesValidity(mode: string)
    ensures Validate(DefaultConfig().(xdpMode := mode)).Success? <==> mode in {"native", "skb", "offload"}
  {
  }

  /** GetRateLimit: the current rate limits. */
  function GetRateLimit(c: Config): (rl: RateLimitConfig)
    ensures rl == c.rateLimit
  {
    c.rateLimit
  }

  /** SetRateLimit: replaces the rate limits and nothing else. */
  function SetRateLimit(c: Config, rl: RateLimitConfig): (r: Config)
    ensures r.rateLimit == rl
    ensures r.(rateLimit := c.rateLimit) == c
  {
    c.(rateLimit := rl)
  }

  /** Reading after writing gives what was written; writing what was read changes nothing. */
  lemma RateLimitRoundTrip(c: Config, rl: RateLimitConfig)
    ensures GetRateLimit(SetRateLimit(c, rl)) == rl
    ensures SetRateLimit(c, GetRateLimit(c)) == c
    ensures Validate(SetRateLimit(c, rl)) == Validate(c)
  {
  }
}
