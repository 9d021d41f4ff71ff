/**
 * The pure helpers of the HTTP API (package api): the byte-order and
 * country-code conversions used when events are turned into JSON, the
 * action name, and the two value mappings its handlers apply before they
 * write the data plane's maps. Request decoding, responses and the
 * WebSocket broadcast are not modelled.
 */
module ApiHelpers {
  import opened Ints
  import opened Wrappers
  import opened BpfTypes
  import opened GoNet
  import GoMaps
  import GeoipLoader

  /**
   * ntohs: (v >> 8) | (v << 8) in 16-bit arithmetic. The left shift drops
   * the high byte; the two shifted halves share no bit, so the OR is
   * their sum.
   */
  function Ntohs(v: u16): (r: u16)
    ensures r == Bswap16(v)
  {
    var high := v / 0x100;
    var low := (v * 0x100) % 0x1_0000;
    assert v == high * 0x100 + v % 0x100;
    assert v * 0x100 == high * 0x1_0000 + (v % 0x100) * 0x100;
    DivModUnique(v * 0x100, 0x1_0000, high, (v % 0x100) * 0x100);
    high + low
  }

  /** Converting twice is the identity. */
  lemma NtohsInvolutive(v: u16)
    ensures Ntohs(Ntohs(v)) == v
  {
    Bswap16Involutive(v);
  }

  /** The API's swap and the map layer's hostToBE16 are the same conversion. */
  lemma NtohsIsHostToBE16(v: u16)
    ensures Ntohs(v) == GoMaps.HostToBE16(v)
  {
  }

  /** countryCodeStr: 0 is the empty string, anything else its high byte and then its low byte. */
  function CountryCodeStr(code: u16): (s: string)
    ensures code == 0 <==> s == ""
    ensures code != 0 ==> |s| == 2 && s[0] as int == code / 256 && s[1] as int == code % 256
  {
    if code == 0 then "" else [(code / 256) as char, (code % 256) as char]
  }

  /** The API prints back every non-zero code the GeoIP manager packed, and agrees with its unpacking. */
  lemma CountryCodeStrInvertsPack(cc: string)
    requires |cc| == 2 && GeoipLoader.IsBytes(cc) && GeoipLoader.PackCountryCode(cc) != 0
    ensures CountryCodeStr(GeoipLoader.PackCountryCode(cc)) == cc
    ensures CountryCodeStr(GeoipLoader.PackCountryCode(cc)) == GeoipLoader.UnpackCountryCode(GeoipLoader.PackCountryCode(cc))
  {
    GeoipLoader.UnpackPack(cc);
  }

  /** actionName: "drop" for action 1 and "pass" for every other value. */
  function ActionName(a: u8): (s: string)
    ensures s == "drop" <==> a == ACTION_DROP
    ensures s == "pass" <==> a != ACTION_DROP
  {
    if a == 1 then "drop" else "pass"
  }

  /** A blacklist request without a reason is recorded as a blacklist drop. */
  function DefaultReason(reason: u32): (r: u32)
    ensures r != 0
    ensures reason != 0 ==> r == reason
    ensures reason == 0 ==> r == DROP_BLACKLIST as u32
  {
    if reason == 0 then DROP_BLACKLIST as u32 else reason
  }

  /**
   * The blacklist POST handler: the reason is defaulted and the prefix
   * written; whatever it stores under the prefix's key is a non-zero
   * reason, the one given when that was non-zero.
   */
  function AddBlacklist(m: GoMaps.Maps, lib: NetLib, cidr: string, reason: u32, ok: bool): (r: Result<GoMaps.Maps>)
    ensures r.Ok? <==> GoMaps.CidrToLpmKey(lib, cidr).Ok? && ok
    ensures r.Ok? ==>
      var k := GoMaps.CidrToLpmKey(lib, cidr).value;
      k in r.value.blacklist && r.value.blacklist[k] != 0 && (reason != 0 ==> r.value.blacklist[k] == reason)
  {
    GoMaps.AddBlacklistCidr(m, lib, cidr, DefaultReason(reason), ok)
  }

  /** The enabled flag written to the config map: 1 for true, 0 for false. */
  function EnabledFlag(enabled: bool): (v: u64)
    ensures enabled <==> v == 1
    ensures !enabled <==> v == 0
  {
    if enabled then 1 else 0
  }

  /**
   * The enable handler: the flag lands in the CFG_ENABLED slot and
   * nothing else in the config changes; reading the slot back as a
   * boolean gives the request.
   */
  function SetEnabled(m: GoMaps.Maps, enabled: bool, ok: bool): (r: Result<GoMaps.Maps>)
    ensures r.Ok? <==> ok
    ensures r.Ok? ==> (GetConfig(r.value.config, CFG_ENABLED) != 0 <==> enabled)
    ensures r.Ok? ==> forall k :: k != CFG_ENABLED ==> GetConfig(r.value.config, k) == GetConfig(m.config, k)
  {
    GoMaps.SetConfig(m, CFG_ENABLED, EnabledFlag(enabled), ok)
  }
}
