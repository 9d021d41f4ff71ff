/** acl_check: the source-address whitelist and blacklist, whitelist first. */
module Acl {
  import opened Ints
  import opened BpfTypes

  /** Both tries are asked about the source address as a /32 prefix. */
  function SourceKey(p: Packet): (k: LpmKey)
    ensures k.prefixLen == 32 && k.addr == p.srcIp
  {
    LpmKey(32, p.srcIp)
  }

  /**
   * A whitelisted source passes even when it is also blacklisted; a
   * blacklisted one is dropped with one acl_dropped increment and one
   * DROP_BLACKLIST event; any other source passes untouched.
   */
  function AclCheck(p: Packet, whitelist: LpmTrie, blacklist: LpmTrie, now: u64): (o: Outcome)
    ensures whitelist(LpmKey(32, p.srcIp)) ==> o == PassOutcome()
    ensures o.verdict == Drop <==> !whitelist(LpmKey(32, p.srcIp)) && blacklist(LpmKey(32, p.srcIp))
    ensures o.verdict == Drop ==>
      o.bumps == [AclDropped] && o.events == [DropEvent(p, now, ATTACK_NONE, DROP_BLACKLIST)]
    ensures o.verdict != Drop ==> o == PassOutcome()
  {
    var key := SourceKey(p);
    if whitelist(key) then PassOutcome()
    else if blacklist(key) then
      Outcome(Drop, [AclDropped], [DropEvent(p, now, ATTACK_NONE, DROP_BLACKLIST)])
    else PassOutcome()
  }
}
