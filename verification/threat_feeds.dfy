/**
 * The threat-intelligence feed manager (package threatintel): a registry
 * of named feeds, and the parsers that turn a feed's text into entries of
 * the data plane's threat-intelligence trie. Fetching a feed over HTTP is
 * not modelled: the parsers take the feed's lines, CSV records or decoded
 * JSON strings. The outcome of each trie update is an input, and the
 * time stamp is a parameter.
 */
module ThreatFeeds {
  import opened Ints
  import opened Wrappers
  import opened Text
  import opened BpfTypes
  import opened GoNet
  import ThreatIntel
  import opened Iteration

  /** A configured feed, with the metadata its entries carry. */
  datatype Feed = Feed(
    name: string,
    url: string,
    feedType: string,
    enabled: bool,
    csvColumn: nat,
    sourceID: u8,
    threatType: u8,
    confidence: u8,
    action: u8)

  datatype Manager = Manager(feeds: map<string, Feed>, nextSourceID: u8)

  // ---- The registry ----

  const SPAMHAUS_DROP: Feed :=
    Feed("spamhaus-drop", "https://www.spamhaus.org/drop/drop.txt", "plaintext", false, 0, 0, 0, 100, 0)
  const SPAMHAUS_EDROP: Feed :=
    Feed("spamhaus-edrop", "https://www.spamhaus.org/drop/edrop.txt", "plaintext", false, 0, 1, 0, 100, 0)

  /** NewManager with registerBuiltinFeeds: the two Spamhaus lists, disabled, with source IDs 0 and 1. */
  function NewManager(): (m: Manager)
    ensures m.feeds.Keys == {"spamhaus-drop", "spamhaus-edrop"} && m.nextSourceID == 2
    ensures forall n :: n in m.feeds ==> !m.feeds[n].enabled && m.feeds[n].confidence == 100 && m.feeds[n].action == 0
    ensures RegistryValid(m)
  {
    Manager(map["spamhaus-drop" := SPAMHAUS_DROP, "spamhaus-edrop" := SPAMHAUS_EDROP], 2)
  }

  predicate SupportedFeedType(t: string)
  {
    t == "plaintext" || t == "csv" || t == "json"
  }

  /**
   * The registry's invariant while fewer than 256 source IDs have been
   * handed out: every feed is stored under its own name and has an ID
   * below the next one, and no two feeds share an ID.
   */
  predicate RegistryValid(m: Manager)
  {
    && (forall n :: n in m.feeds ==> m.feeds[n].name == n && m.feeds[n].sourceID < m.nextSourceID)
    && (forall a, b :: a in m.feeds && b in m.feeds && a != b ==> m.feeds[a].sourceID != m.feeds[b].sourceID)
  }

  /**
   * AddFeed: refuses an empty name, an empty URL, a type other than
   * plaintext, csv and json, and a name already in use, in that order.
   * A new feed is enabled with confidence 80, threat type and action 0,
   * and takes the next source ID, which then moves on (wrapping at 256).
   */
  function AddFeed(m: Manager, name: string, url: string, feedType: string): (r: Result<Manager>)
    ensures r.Ok? <==> name != "" && url != "" && SupportedFeedType(feedType) && name !in m.feeds
    ensures r.Ok? ==>
      && r.value.feeds == m.feeds[name := Feed(name, url, feedType, true, 0, m.nextSourceID, 0, 80, 0)]
      && r.value.nextSourceID == (m.nextSourceID + 1) % 256
  {
    if name == "" then Err("feed name is required")
    else if url == "" then Err("feed URL is required")
    else if !SupportedFeedType(feedType) then Err("unsupported feed type " + feedType)
    else if name in m.feeds then Err("feed " + name + " already exists")
    else Ok(Manager(m.feeds[name := Feed(name, url, feedType, true, 0, m.nextSourceID, 0, 80, 0)], (m.nextSourceID + 1) % 256))
  }

  /** RemoveFeed: an unknown name is an error; otherwise that feed alone goes. */
  function RemoveFeed(m: Manager, name: string): (r: Result<Manager>)
    ensures r.Ok? <==> name in m.feeds
    ensures r.Ok? ==> (
      && r.value.feeds.Keys == m.feeds.Keys - {name} && r.value.nextSourceID == m.nextSourceID
      && forall n :: n in r.value.feeds ==> r.value.feeds[n] == m.feeds[n])
  {
    if name !in m.feeds then Err("feed " + name + " not found") else Ok(m.(feeds := m.feeds - {name}))
  }

  /** EnableFeed and DisableFeed: an unknown name is an error; otherwise only that feed's flag changes. */
  function SetFeedEnabled(m: Manager, name: string, enabled: bool): (r: Result<Manager>)
    ensures r.Ok? <==> name in m.feeds
    ensures r.Ok? ==> r.value == m.(feeds := m.feeds[name := m.feeds[name].(enabled := enabled)])
  {
    if name !in m.feeds then Err("feed " + name + " not found")
    else Ok(m.(feeds := m.feeds[name := m.feeds[name].(enabled := enabled)]))
  }

  /** Adding keeps the invariant while IDs are left, and removing or toggling always does. */
  lemma RegistryOperationsKeepValid(m: Manager, name: string, url: string, feedType: string, enabled: bool)
    requires RegistryValid(m)
    ensures m.nextSourceID < 255 && AddFeed(m, name, url, feedType).Ok? ==> RegistryValid(AddFeed(m, name, url, feedType).value)
    ensures RemoveFeed(m, name).Ok? ==> RegistryValid(RemoveFeed(m, name).value)
    ensures SetFeedEnabled(m, name, enabled).Ok? ==> RegistryValid(SetFeedEnabled(m, name, enabled).value)
  {
  }

  /** Adding a feed and removing it again restores the feeds (the next ID has moved on). */
  lemma AddThenRemove(m: Manager, name: string, url: string, feedType: string)
    requires AddFeed(m, name, url, feedType).Ok?
    ensures RemoveFeed(AddFeed(m, name, url, feedType).value, name) == Ok(m.(nextSourceID := (m.nextSourceID + 1) % 256))
  {
    assert AddFeed(m, name, url, feedType).value.feeds - {name} == m.feeds;
  }

  // ---- Keys ----

  /**
   * parseLPMKey as written: a string with '/' is a CIDR, giving (mask
   * size, big-endian network address); otherwise a bare IPv4 address
   * gives a /32. An IPv6 CIDR is not refused: it gives its mask size and
   * the address 0.
   */
  function ParseLpmKeyAsWritten(lib: NetLib, s: string): (r: Result<LpmKey>)
    ensures '/' in s ==> (r.Ok? <==> lib.parseCIDR(s).Some?)
    ensures '/' !in s ==> (r.Ok? <==> lib.parseIP(s).Some? && To4(lib.parseIP(s).value).Some?)
  {
    if '/' in s then
      match lib.parseCIDR(s)
      case None => Err("invalid CIDR: " + s)
      case Some(n) => Ok(LpmKey(n.ones % U32_LIMIT, IPToU32BE(n.ip)))
    else
      match lib.parseIP(s)
      case None => Err("invalid IP: " + s)
      case Some(ip) => if To4(ip).None? then Err("IPv6 not supported: " + s) else Ok(LpmKey(32, IPToU32BE(ip)))
  }

  /** parseLPMKey with IPv6 CIDRs refused like bare IPv6 addresses. */
  function ParseLpmKey(lib: NetLib, s: string): (r: Result<LpmKey>)
    ensures '/' in s ==> (r.Ok? <==> lib.parseCIDR(s).Some? && IsV4Net(lib.parseCIDR(s).value))
    ensures '/' !in s ==> (r.Ok? <==> lib.parseIP(s).Some? && To4(lib.parseIP(s).value).Some?)
    ensures r.Ok? ==> r.value.prefixLen <= 32
  {
    if '/' in s then NetKey(lib.parseCIDR(s), s) else HostAddrKey(lib.parseIP(s), s)
  }

  /** The key of a parsed CIDR: its mask size and big-endian network address, for IPv4 networks only. */
  function NetKey(n: Option<IPNet>, s: string): (r: Result<LpmKey>)
    ensures r.Ok? <==> n.Some? && IsV4Net(n.value)
    ensures r.Ok? ==> r.value == LpmKey(n.value.ones, Be32At(n.value.ip, 0)) && r.value.prefixLen <= 32
  {
    match n
    case None => Err("invalid CIDR: " + s)
    case Some(net) => if !IsV4Net(net) then Err("IPv6 not supported: " + s) else Ok(LpmKey(net.ones, IPToU32BE(net.ip)))
  }

  /** The /32 key of a parsed bare address, for IPv4 addresses only. */
  function HostAddrKey(ip: Option<IP>, s: string): (r: Result<LpmKey>)
    ensures r.Ok? <==> ip.Some? && To4(ip.value).Some?
    ensures r.Ok? ==> r.value == LpmKey(32, Be32At(To4(ip.value).value, 0))
  {
    match ip
    case None => Err("invalid IP: " + s)
    case Some(a) => if To4(a).None? then Err("IPv6 not supported: " + s) else Ok(LpmKey(32, IPToU32BE(a)))
  }

  /** The address 2000:: (the start of the IPv6 global unicast block). */
  const V6_2000: IP := [0x20] + seq(15, i => 0)

  /**
   * As written, the IPv6 CIDR "2000::/3" becomes the IPv4 key 0.0.0.0/3,
   * which covers 10.0.0.1 (and every address below 32.0.0.0): loading such
   * a line from a feed puts all of that IPv4 space in the trie. The
   * corrected parser refuses it.
   */
  lemma IPv6CidrCoversIPv4AsWritten(lib: NetLib)
    requires lib.parseCIDR("2000::/3") == Some(IPNet(V6_2000, 3, 128))
    ensures ParseLpmKeyAsWritten(lib, "2000::/3") == Ok(LpmKey(3, 0))
    ensures Covers(LpmKey(3, 0), 0x0A00_0001)
    ensures ParseLpmKey(lib, "2000::/3").Err?
  {
    assert '/' in "2000::/3" by { assert "2000::/3"[6] == '/'; }
    assert !IsV4Mapped(V6_2000) by {
      assert V6_2000[..12][0] == V6_2000[0] == 0x20;
    }
    Pow2Values();
  }

  /** The two parsers agree on everything except an IPv6 CIDR. */
  lemma ParseLpmKeyAgreesOnIPv4(lib: NetLib, s: string)
    requires WellFormed(lib)
    requires '/' in s && lib.parseCIDR(s).Some? ==> |lib.parseCIDR(s).value.ip| == 4
    ensures ParseLpmKey(lib, s) == ParseLpmKeyAsWritten(lib, s)
  {
    if '/' in s && lib.parseCIDR(s).Some? {
      var n := lib.parseCIDR(s).value;
      assert CidrShaped(n) && IsV4Net(n);
      assert n.ones % U32_LIMIT == n.ones;
      assert ParseLpmKeyAsWritten(lib, s) == Ok(LpmKey(n.ones, IPToU32BE(n.ip)));
    }
  }

  // ---- Entries ----

  /** What one feed entry stores in the trie (struct threat_intel_entry). */
  datatype FeedEntry = FeedEntry(sourceID: u8, threatType: u8, confidence: u8, action: u8, lastUpdated: u32)

  function EntryOf(feed: Feed, nowSec: u32): (e: FeedEntry)
    ensures e.sourceID == feed.sourceID && e.confidence == feed.confidence && e.action == feed.action
  {
    FeedEntry(feed.sourceID, feed.threatType, feed.confidence, feed.action, nowSec)
  }

  type TrieMap = map<LpmKey, FeedEntry>

  /** The data plane's view of the trie: confidence and action per key. */
  function AsTrie(t: TrieMap): (trie: ThreatIntel.ThreatTrie)
    ensures forall k :: trie(k) == if k in t then Some(ThreatIntel.ThreatEntry(t[k].confidence, t[k].action)) else None
  {
    k => if k in t then Some(ThreatIntel.ThreatEntry(t[k].confidence, t[k].action)) else None
  }

  /** insertEntry's outcome for one candidate: the key when it parses and the trie update goes through. */
  function InsertKey(cand: string, lib: NetLib, updateOk: LpmKey -> bool): (k: Option<LpmKey>)
    ensures k.Some? <==> ParseLpmKey(lib, cand).Ok? && updateOk(ParseLpmKey(lib, cand).value)
    ensures k.Some? ==> k.value == ParseLpmKey(lib, cand).value && k.value.prefixLen <= 32
  {
    match ParseLpmKey(lib, cand)
    case Ok(k) => if updateOk(k) then Some(k) else None
    case Err(_) => None
  }

  /** The keys whose insert succeeds, in order. */
  function Inserted(cands: seq<string>, lib: NetLib, updateOk: LpmKey -> bool): (ks: seq<LpmKey>)
    ensures |ks| <= |cands|
  {
    if |cands| == 0 then []
    else
      var init := Inserted(cands[..|cands| - 1], lib, updateOk);
      match InsertKey(cands[|cands| - 1], lib, updateOk)
      case Some(k) => init + [k]
      case None => init
  }

  /** Every inserted key is an IPv4 key whose update went through, and comes from some candidate. */
  lemma {:induction false} InsertedKeys(cands: seq<string>, lib: NetLib, updateOk: LpmKey -> bool, k: LpmKey)
    requires k in Inserted(cands, lib, updateOk)
    ensures k.prefixLen <= 32 && updateOk(k)
    ensures exists c :: c in cands && InsertKey(c, lib, updateOk) == Some(k)
  {
    var n := |cands|;
    var init := cands[..n - 1];
    if k in Inserted(init, lib, updateOk) {
      InsertedKeys(init, lib, updateOk, k);
      var c :| c in init && InsertKey(c, lib, updateOk) == Some(k);
      assert c in cands;
    } else {
      assert InsertKey(cands[n - 1], lib, updateOk) == Some(k);
    }
  }

  /** The trie after the given keys are written, in order, with the same entry. */
  function PutAll(t: TrieMap, ks: seq<LpmKey>, e: FeedEntry): TrieMap
  {
    if |ks| == 0 then t else PutAll(t, ks[..|ks| - 1], e)[ks[|ks| - 1] := e]
  }

  /** After PutAll the written keys hold the entry and every other key is as before. */
  lemma {:induction false} PutAllContents(t: TrieMap, ks: seq<LpmKey>, e: FeedEntry, k: LpmKey)
    ensures k in PutAll(t, ks, e) <==> k in t || k in ks
    ensures k in PutAll(t, ks, e) ==> PutAll(t, ks, e)[k] == if k in ks then e else t[k]
  {
    if |ks| > 0 {
      PutAllContents(t, ks[..|ks| - 1], e, k);
      assert ks == ks[..|ks| - 1] + [ks[|ks| - 1]];
    }
  }

  /**
   * insertEntry for each candidate, in order: the count is the number of
   * successful inserts, and the trie holds the feed's entry under each
   * key that was inserted and nothing else new.
   */
  method InsertCandidates(cands: seq<string>, lib: NetLib, feed: Feed, nowSec: u32, updateOk: LpmKey -> bool, t: TrieMap)
    returns (count: nat, r: TrieMap)
    ensures count == |Inserted(cands, lib, updateOk)|
    ensures r == PutAll(t, Inserted(cands, lib, updateOk), EntryOf(feed, nowSec))
  {
    var entry := EntryOf(feed, nowSec);
    count := 0;
    r := t;
    var i := 0;
    while i < |cands|
      invariant 0 <= i <= |cands|
      invariant count == |Inserted(cands[..i], lib, updateOk)|
      invariant r == PutAll(t, Inserted(cands[..i], lib, updateOk), entry)
    {
      ghost var done := Inserted(cands[..i], lib, updateOk);
      InsertedStep(cands, i, lib, updateOk);
      var key := InsertKey(cands[i], lib, updateOk);
      if key.Some? {
        PutAllSnoc(t, done, key.value, entry);
        r := r[key.value := entry];
        count := count + 1;
      }
      i := i + 1;
    }
    assert cands[..|cands|] == cands;
  }

  lemma InsertedStep(cands: seq<string>, i: nat, lib: NetLib, updateOk: LpmKey -> bool)
    requires i < |cands|
    ensures Inserted(cands[..i + 1], lib, updateOk) ==
      var done := Inserted(cands[..i], lib, updateOk);
      match InsertKey(cands[i], lib, updateOk)
      case Some(k) => done + [k]
      case None => done
  {
    assert cands[..i + 1][..i] == cands[..i];
  }

  lemma PutAllSnoc(t: TrieMap, ks: seq<LpmKey>, k: LpmKey, e: FeedEntry)
    ensures PutAll(t, ks + [k], e) == PutAll(t, ks, e)[k := e]
  {
    assert (ks + [k])[..|ks|] == ks;
  }

  // ---- The three formats ----

  /** The candidates an item yields, in order. */
  function Collect<T>(xs: seq<T>, pick: T -> Option<string>): (cs: seq<string>)
    ensures |cs| <= |xs|
  {
    if |xs| == 0 then []
    else
      var init := Collect(xs[..|xs| - 1], pick);
      match pick(xs[|xs| - 1])
      case Some(c) => init + [c]
      case None => init
  }

  const SEPARATORS: set<char> := {' ', '\t', ';'}

  /**
   * One plaintext line: trimmed; blank lines and comments (';' or '#'
   * first) yield nothing; otherwise the text before the first space,
   * tab or ';', trimmed.
   */
  function PlainCandidate(line: string): (r: Option<string>)
    ensures r.None? <==> TrimSpace(line) == "" || TrimSpace(line)[0] == ';' || TrimSpace(line)[0] == '#'
    ensures r.Some? ==> (
      && 0 < |r.value| <= |TrimSpace(line)| && r.value == TrimSpace(line)[..|r.value|]
      && forall i :: 0 <= i < |r.value| ==> r.value[i] !in SEPARATORS)
  {
    var t := TrimSpace(line);
    if t == "" || t[0] == ';' || t[0] == '#' then None
    else Some(FirstField(t))
  }

  lemma FieldTrim(u: string)
    requires |u| > 0 && !IsSpace(u[0])
    requires forall i :: 0 <= i < |u| ==> u[i] !in SEPARATORS
    ensures 0 < |TrimSpace(u)| <= |u| && TrimSpace(u) == u[..|TrimSpace(u)|]
    ensures forall i :: 0 <= i < |TrimSpace(u)| ==> TrimSpace(u)[i] !in SEPARATORS
  {
    TrimSpaceKeepsStart(u);
    var r := TrimSpace(u);
    assert forall i :: 0 <= i < |r| ==> r[i] == u[i];
  }

  /** The text before the first separator of a trimmed line that does not start with one, trimmed again. */
  function FirstField(t: string): (r: string)
    requires |t| > 0 && !IsSpace(t[0]) && t[0] != ';'
    ensures 0 < |r| <= |t| && r == t[..|r|]
    ensures forall i :: 0 <= i < |r| ==> r[i] !in SEPARATORS
  {
    var idx := IndexAny(t, SEPARATORS);
    if idx > 0 then
      var u := t[..idx];
      var r := TrimSpace(u);
      FieldTrim(u);
      assert r == t[..|r|];
      r
    else
      assert t[..|t|] == t;
      t
  }

  /** A comment line yields nothing. */
  lemma CommentLineSkipped(rest: string)
    ensures PlainCandidate(";" + rest) == None && PlainCandidate("#" + rest) == None
  {
    TrimSpaceKeepsStart(";" + rest);
    TrimSpaceKeepsStart("#" + rest);
  }

  datatype ParseOutcome = ParseOutcome(count: nat, trie: TrieMap, status: Status)

  /**
   * parsePlaintext: each line's candidate is inserted; the count is what
   * was inserted so far even when the scanner reports an error at the end.
   */
  method ParsePlaintext(lines: seq<string>, scanErr: bool, lib: NetLib, feed: Feed, nowSec: u32,
                        updateOk: LpmKey -> bool, t: TrieMap) returns (r: ParseOutcome)
    ensures r.count == |Inserted(Collect(lines, PlainCandidate), lib, updateOk)|
    ensures r.trie == PutAll(t, Inserted(Collect(lines, PlainCandidate), lib, updateOk), EntryOf(feed, nowSec))
    ensures r.status.Failure? <==> scanErr
  {
    var count, trie := InsertCandidates(Collect(lines, PlainCandidate), lib, feed, nowSec, updateOk, t);
    r := ParseOutcome(count, trie, if scanErr then Failure("reading plaintext feed") else Success);
  }

  /** One CSV record: the configured column, trimmed; short rows, unreadable rows and empty cells yield nothing. */
  function CsvCandidate(col: nat, rec: CsvRecord): (r: Option<string>)
    ensures r.Some? <==> rec.Record? && col < |rec.fields| && TrimSpace(rec.fields[col]) != ""
    ensures r.Some? ==> r.value == TrimSpace(rec.fields[col])
  {
    match rec
    case Unreadable => None
    case Record(fields) =>
      if col >= |fields| then None
      else
        var s := TrimSpace(fields[col]);
        if s == "" then None else Some(s)
  }

  /**
   * parseCSV: an unreadable header is an error with nothing inserted;
   * otherwise the header is skipped and every later record's candidate
   * is inserted.
   */
  method ParseCsv(header: CsvRecord, records: seq<CsvRecord>, lib: NetLib, feed: Feed, nowSec: u32,
                  updateOk: LpmKey -> bool, t: TrieMap) returns (r: ParseOutcome)
    ensures header.Unreadable? ==> r == ParseOutcome(0, t, r.status) && r.status.Failure?
    ensures header.Record? ==>
      && r.status.Success?
      && r.count == |Inserted(Collect(records, rec => CsvCandidate(feed.csvColumn, rec)), lib, updateOk)|
      && r.trie == PutAll(t, Inserted(Collect(records, rec => CsvCandidate(feed.csvColumn, rec)), lib, updateOk), EntryOf(feed, nowSec))
  {
    if header.Unreadable? {
      return ParseOutcome(0, t, Failure("reading CSV header"));
    }
    var count, trie := InsertCandidates(Collect(records, rec => CsvCandidate(feed.csvColumn, rec)), lib, feed, nowSec, updateOk, t);
    r := ParseOutcome(count, trie, Success);
  }

  /** One JSON string: trimmed; an empty one yields nothing. */
  function JsonCandidate(s: string): (r: Option<string>)
    ensures r.Some? <==> TrimSpace(s) != ""
    ensures r.Some? ==> r.value == TrimSpace(s)
  {
    var t := TrimSpace(s);
    if t == "" then None else Some(t)
  }

  /** parseJSON: input that does not decode to an array of strings is an error; otherwise each string's candidate is inserted. */
  method ParseJson(decoded: Option<seq<string>>, lib: NetLib, feed: Feed, nowSec: u32,
                   updateOk: LpmKey -> bool, t: TrieMap) returns (r: ParseOutcome)
    ensures decoded.None? ==> r == ParseOutcome(0, t, r.status) && r.status.Failure?
    ensures decoded.Some? ==>
      && r.status.Success?
      && r.count == |Inserted(Collect(decoded.value, JsonCandidate), lib, updateOk)|
      && r.trie == PutAll(t, Inserted(Collect(decoded.value, JsonCandidate), lib, updateOk), EntryOf(feed, nowSec))
  {
    if decoded.None? {
      return ParseOutcome(0, t, Failure("decoding JSON feed"));
    }
    var count, trie := InsertCandidates(Collect(decoded.value, JsonCandidate), lib, feed, nowSec, updateOk, t);
    r := ParseOutcome(count, trie, Success);
  }

  /**
   * Once a built-in Spamhaus feed has inserted a key, the data plane
   * finds that key with confidence 100 and the drop action.
   */
  lemma SpamhausEntriesDrop(t: TrieMap, cands: seq<string>, lib: NetLib, nowSec: u32, updateOk: LpmKey -> bool, k: LpmKey)
    requires k in Inserted(cands, lib, updateOk)
    ensures AsTrie(PutAll(t, Inserted(cands, lib, updateOk), EntryOf(SPAMHAUS_DROP, nowSec)))(k)
      == Some(ThreatIntel.ThreatEntry(100, 0))
  {
    PutAllContents(t, Inserted(cands, lib, updateOk), EntryOf(SPAMHAUS_DROP, nowSec), k);
  }

  // ---- Syncing ----

  /**
   * The feeds SyncNow visits: the enabled ones, in the map's iteration
   * order. Every registered feed that is enabled is visited, nothing else
   * is, and there are never more visits than feeds.
   */
  function EnabledFeeds(m: Manager, order: seq<string>): (fs: seq<Feed>)
    requires ListsKeys(order, m.feeds.Keys)
    ensures forall f :: f in fs ==> f.enabled && exists n :: n in m.feeds && m.feeds[n] == f
    ensures forall n :: n in m.feeds && m.feeds[n].enabled ==> m.feeds[n] in fs
    ensures |fs| <= |m.feeds|
  {
    ListingSize(order, m.feeds.Keys);
    EnabledAmong(m, order)
  }

  /** The enabled feeds named in `order`, in that order. */
  function EnabledAmong(m: Manager, order: seq<string>): (fs: seq<Feed>)
    requires forall n :: n in order ==> n in m.feeds
    ensures forall f :: f in fs ==> f.enabled && exists n :: n in order && m.feeds[n] == f
    ensures forall i :: 0 <= i < |order| && m.feeds[order[i]].enabled ==> m.feeds[order[i]] in fs
    ensures |fs| <= |order|
  {
    if |order| == 0 then []
    else
      var rest := EnabledAmong(m, order[1..]);
      assert forall i :: 1 <= i < |order| ==> order[i] == order[1..][i - 1];
      if m.feeds[order[0]].enabled then [m.feeds[order[0]]] + rest else rest
  }

  /**
   * What syncFeed gave one feed: the number of entries inserted, or the
   * error of the fetch (a transport failure or a status other than 200),
   * of an unsupported type, or of its parser.
   */
  datatype SyncOutcome = Synced(count: nat) | SyncFailed(msg: string)

  /** The entries counted over the feeds that synced. */
  function SyncedCount(os: seq<SyncOutcome>): (n: nat)
  {
    if |os| == 0 then 0
    else (if os[0].Synced? then os[0].count else 0) + SyncedCount(os[1..])
  }

  /**
   * SyncNow's totals, accumulated in visiting order: the counts of the
   * feeds that synced are added up, a failing feed is skipped, and the
   * error returned is the last one met.
   */
  function SyncTotals(os: seq<SyncOutcome>): (r: (nat, Status))
    ensures r.0 == SyncedCount(os)
    ensures r.1.Success? <==> forall i :: 0 <= i < |os| ==> os[i].Synced?
    ensures r.1.Failure? ==> exists i :: 0 <= i < |os| && os[i] == SyncFailed(r.1.msg)
                                         && forall j :: i < j < |os| ==> os[j].Synced?
  {
    if |os| == 0 then (0, Success)
    else
      var prev := SyncTotals(os[..|os| - 1]);
      SyncedCountSnoc(os[..|os| - 1], os[|os| - 1]);
      assert os[..|os| - 1] + [os[|os| - 1]] == os;
      match os[|os| - 1]
      case Synced(c) => (prev.0 + c, prev.1)
      case SyncFailed(msg) => (prev.0, Failure(msg))
  }

  lemma {:induction false} SyncedCountSnoc(os: seq<SyncOutcome>, o: SyncOutcome)
    ensures SyncedCount(os + [o]) == SyncedCount(os) + (if o.Synced? then o.count else 0)
  {
    if |os| > 0 {
      assert (os + [o])[1..] == os[1..] + [o];
      SyncedCountSnoc(os[1..], o);
    }
  }

  /** A feed that fails adds nothing to the total, wherever it is visited. */
  lemma FailedFeedAddsNothing(before: seq<SyncOutcome>, msg: string, after: seq<SyncOutcome>)
    ensures SyncTotals(before + [SyncFailed(msg)] + after).0 == SyncTotals(before + after).0
    ensures SyncTotals(before + [SyncFailed(msg)] + after).1.Failure?
  {
    var s := before + [SyncFailed(msg)] + after;
    assert s == before + ([SyncFailed(msg)] + after);
    SyncedCountAppend(before, [SyncFailed(msg)] + after);
    SyncedCountAppend(before, after);
    assert ([SyncFailed(msg)] + after)[1..] == after;
    assert (before + [SyncFailed(msg)] + after)[|before|] == SyncFailed(msg);
  }

  lemma {:induction false} SyncedCountAppend(a: seq<SyncOutcome>, b: seq<SyncOutcome>)
    ensures SyncedCount(a + b) == SyncedCount(a) + SyncedCount(b)
  {
    if |a| > 0 {
      assert (a + b)[0] == a[0];
      assert (a + b)[1..] == a[1..] + b;
      SyncedCountAppend(a[1..], b);
    } else {
      assert a + b == b;
    }
  }
}
