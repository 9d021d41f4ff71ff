/**
 * The GeoIP manager of the control plane (package geoip): it reads the
 * GeoLite2 locations and IPv4 blocks CSV files into the data plane's
 * country trie, writes per-country policies, and keeps per-country drop
 * statistics. File access is not modelled: the loaders take the header
 * and the records the CSV reader produced, and the outcome of each map
 * update is an input.
 */
module GeoipLoader {
  import opened Ints
  import opened Wrappers
  import opened Text
  import opened BpfTypes
  import opened GoNet
  import Geoip

  // ---- Country codes ----

  /** packCountryCode: the two bytes of a code as one 16-bit number, first byte high; shorter strings give 0. */
  function PackCountryCode(cc: string): (p: u16)
    ensures |cc| < 2 ==> p == 0
    ensures |cc| >= 2 ==> p / 256 == cc[0] as int % 256 && p % 256 == cc[1] as int % 256
  {
    if |cc| < 2 then 0 else (cc[0] as int % 256) * 256 + cc[1] as int % 256
  }

  /** unpackCountryCode: 0 is the empty string, anything else its high byte and then its low byte. */
  function UnpackCountryCode(p: u16): (cc: string)
    ensures p == 0 <==> cc == ""
    ensures p != 0 ==> |cc| == 2 && cc[0] as int < 256 && cc[1] as int < 256
  {
    if p == 0 then "" else [(p / 256) as char, (p % 256) as char]
  }

  /** A string of bytes, as every Go string is. */
  predicate IsBytes(s: string)
  {
    forall i :: 0 <= i < |s| ==> s[i] as int < 256
  }

  /** Packing what was unpacked gives back the number. */
  lemma PackUnpack(p: u16)
    ensures PackCountryCode(UnpackCountryCode(p)) == p
  {
  }

  /** Unpacking a packed two-byte code gives back the code, except for the code of two zero bytes. */
  lemma UnpackPack(cc: string)
    requires |cc| == 2 && IsBytes(cc)
    ensures PackCountryCode(cc) != 0 ==> UnpackCountryCode(PackCountryCode(cc)) == cc
    ensures PackCountryCode(cc) == 0 <==> cc == [0 as char, 0 as char]
  {
    var p := PackCountryCode(cc);
    assert p / 256 == cc[0] as int && p % 256 == cc[1] as int;
  }

  /** Distinct two-byte codes pack to distinct numbers. */
  lemma PackInjective(a: string, b: string)
    requires |a| == 2 && |b| == 2 && IsBytes(a) && IsBytes(b)
    requires PackCountryCode(a) == PackCountryCode(b)
    ensures a == b
  {
    assert a[0] as int == PackCountryCode(a) / 256 == b[0] as int;
    assert a[1] as int == PackCountryCode(a) % 256 == b[1] as int;
  }

  // ---- Policies ----

  /** One row of the data plane's country trie (struct geoip_entry). */
  datatype GeoEntry = GeoEntry(countryCode: u16, action: u8)

  datatype CountryStats = CountryStats(country: string, drops: u64, rateLimited: u64, monitored: u64)

  /**
   * The manager's state together with the two maps it writes: the
   * country trie's rows, and the policy map keyed by packed code.
   */
  datatype GeoManager = GeoManager(
    policies: map<string, u8>,
    geonameToCC: map<int, string>,
    loadedPrefixes: nat,
    countryStats: map<string, CountryStats>,
    geoMap: map<LpmKey, GeoEntry>,
    policyMap: map<u16, u8>)

  function NewManager(geoMap: map<LpmKey, GeoEntry>, policyMap: map<u16, u8>): (m: GeoManager)
    ensures m.policies == map[] && m.geonameToCC == map[] && m.countryStats == map[] && m.loadedPrefixes == 0
  {
    GeoManager(map[], map[], 0, map[], geoMap, policyMap)
  }

  /**
   * SetCountryPolicy: the code must be two characters and the action at
   * most monitor (3); the code is upper-cased, and the action is written
   * to the policy map under the packed code and then recorded. A refused
   * map update is an error that records nothing.
   */
  function SetCountryPolicy(m: GeoManager, country: string, action: u8, updateOk: bool): (r: Result<GeoManager>)
    ensures r.Ok? <==> |country| == 2 && action <= Geoip.GEOIP_ACTION_MONITOR && updateOk
    ensures r.Ok? ==>
      var cc := ToUpperAscii(country);
      && r.value.policyMap == m.policyMap[PackCountryCode(cc) := action]
      && r.value.policies == m.policies[cc := action]
      && r.value == m.(policyMap := r.value.policyMap, policies := r.value.policies)
  {
    if |country| != 2 then Err("country code must be exactly 2 characters")
    else if action > Geoip.GEOIP_ACTION_MONITOR then Err("invalid action: must be 0-3")
    else
      var cc := ToUpperAscii(country);
      if !updateOk then Err("updating geoip policy for " + cc)
      else Ok(m.(policyMap := m.policyMap[PackCountryCode(cc) := action], policies := m.policies[cc := action]))
  }

  /**
   * A policy set for a country reaches the data plane: a source the
   * country trie places in that country (in either case) is dropped once
   * the drop policy is set and GeoIP filtering is on.
   */
  lemma DropPolicyBlocksCountry(m: GeoManager, country: string, updateOk: bool,
                                p: Packet, cfg: Config, geo: Geoip.GeoTrie)
    requires SetCountryPolicy(m, country, Geoip.GEOIP_ACTION_DROP, updateOk).Ok?
    requires Geoip.CountryOf(geo, p.srcIp) == Some(PackCountryCode(ToUpperAscii(country)))
    requires GetConfig(cfg, CFG_GEOIP_ENABLE) != 0
    ensures Geoip.GeoBlocked(p, cfg, geo, SetCountryPolicy(m, country, Geoip.GEOIP_ACTION_DROP, updateOk).value.policyMap)
  {
  }

  /** Setting the same policy in either case lands on the same entry. */
  lemma PolicyIgnoresCase(m: GeoManager, country: string, action: u8, updateOk: bool)
    requires SetCountryPolicy(m, country, action, updateOk).Ok?
    ensures SetCountryPolicy(m, ToUpperAscii(country), action, updateOk) == SetCountryPolicy(m, country, action, updateOk)
  {
    ToUpperIdempotent(country);
  }

  // ---- Statistics ----

  /**
   * RecordDrop: the country's statistics are created on first use; a
   * drop, rate-limit or monitor action bumps its own 64-bit counter, any
   * other action only creates the entry. No other country changes.
   */
  function RecordDrop(stats: map<string, CountryStats>, country: string, action: u8): (r: map<string, CountryStats>)
    ensures r.Keys == stats.Keys + {country}
    ensures forall c :: c in stats && c != country ==> r[c] == stats[c]
    ensures var before := if country in stats then stats[country] else CountryStats(country, 0, 0, 0);
      && r[country].country == before.country
      && r[country].drops == (if action == Geoip.GEOIP_ACTION_DROP then Add64(before.drops, 1) else before.drops)
      && r[country].rateLimited == (if action == Geoip.GEOIP_ACTION_RATE_LIMIT then Add64(before.rateLimited, 1) else before.rateLimited)
      && r[country].monitored == (if action == Geoip.GEOIP_ACTION_MONITOR then Add64(before.monitored, 1) else before.monitored)
  {
    var cs := if country in stats then stats[country] else CountryStats(country, 0, 0, 0);
    var cs' :=
      if action == Geoip.GEOIP_ACTION_DROP then cs.(drops := Add64(cs.drops, 1))
      else if action == Geoip.GEOIP_ACTION_RATE_LIMIT then cs.(rateLimited := Add64(cs.rateLimited, 1))
      else if action == Geoip.GEOIP_ACTION_MONITOR then cs.(monitored := Add64(cs.monitored, 1))
      else cs;
    stats[country := cs']
  }

  /** The events a country has seen, by all three counters. */
  function Recorded(cs: CountryStats): nat
  {
    cs.drops + cs.rateLimited + cs.monitored
  }

  /** Below the wrap-around, a recorded drop, rate limit or monitor adds exactly one event to its country. */
  lemma RecordDropCountsOnce(stats: map<string, CountryStats>, country: string, action: u8)
    requires country in stats
    requires stats[country].drops < U64_LIMIT - 1 && stats[country].rateLimited < U64_LIMIT - 1
    requires stats[country].monitored < U64_LIMIT - 1
    ensures Recorded(RecordDrop(stats, country, action)[country]) ==
      Recorded(stats[country]) + (if 1 <= action <= 3 then 1 else 0)
  {
  }

  // ---- Loading the CSV files ----

  /**
   * The index of the header column whose trimmed name is `name`, or -1.
   * When the name occurs more than once the last occurrence counts, as
   * the loop over the header overwrites earlier ones.
   */
  function ColumnIndex(header: seq<string>, name: string): (i: int)
    ensures -1 <= i < |header|
    ensures i >= 0 ==> TrimSpace(header[i]) == name
    ensures forall k :: i < k < |header| ==> TrimSpace(header[k]) != name
  {
    if |header| == 0 then -1
    else if TrimSpace(header[|header| - 1]) == name then |header| - 1
    else ColumnIndex(header[..|header| - 1], name)
  }

  /** A locations row that names a geoname ID and a two-character code: the ID and the upper-cased code. */
  function LocationRow(fields: seq<string>, geonameIdx: nat, countryIdx: nat): (r: Option<(int, string)>)
    ensures r.Some? <==>
      && geonameIdx < |fields| && countryIdx < |fields|
      && Atoi(TrimSpace(fields[geonameIdx])).Some? && |TrimSpace(fields[countryIdx])| == 2
    ensures r.Some? ==> r.value == (Atoi(TrimSpace(fields[geonameIdx])).value, ToUpperAscii(TrimSpace(fields[countryIdx])))
    ensures r.Some? ==> CodeShaped(r.value.1)
  {
    if geonameIdx >= |fields| || countryIdx >= |fields| then None
    else
      match Atoi(TrimSpace(fields[geonameIdx]))
      case None => None
      case Some(id) =>
        var cc := TrimSpace(fields[countryIdx]);
        if |cc| != 2 then None else Some((id, ToUpperAscii(cc)))
  }

  /** One locations row read into the table. */
  function ApplyRow(table: map<int, string>, fields: seq<string>, gi: nat, ci: nat): map<int, string>
  {
    match LocationRow(fields, gi, ci)
    case Some(row) => table[row.0 := row.1]
    case None => table
  }

  /** The table after the given location records, in order; later rows win. */
  function ApplyLocations(table: map<int, string>, rows: seq<seq<string>>, gi: nat, ci: nat): map<int, string>
  {
    if |rows| == 0 then table else ApplyRow(ApplyLocations(table, rows[..|rows| - 1], gi, ci), rows[|rows| - 1], gi, ci)
  }

  lemma ApplyLocationsStep(table: map<int, string>, rows: seq<seq<string>>, i: nat, gi: nat, ci: nat)
    requires i < |rows|
    ensures ApplyLocations(table, rows[..i + 1], gi, ci) == ApplyRow(ApplyLocations(table, rows[..i], gi, ci), rows[i], gi, ci)
  {
    assert rows[..i + 1][..i] == rows[..i];
  }

  /** Two characters, none of them a lower-case letter. */
  predicate CodeShaped(cc: string)
  {
    |cc| == 2 && !IsLowerAscii(cc[0]) && !IsLowerAscii(cc[1])
  }

  /** Loading locations into a table of well-shaped codes keeps every code well-shaped. */
  lemma {:induction false} LocationCodesAreShaped(table: map<int, string>, rows: seq<seq<string>>, gi: nat, ci: nat)
    requires forall id :: id in table ==> CodeShaped(table[id])
    ensures forall id :: id in ApplyLocations(table, rows, gi, ci) ==> CodeShaped(ApplyLocations(table, rows, gi, ci)[id])
  {
    if |rows| > 0 {
      LocationCodesAreShaped(table, rows[..|rows| - 1], gi, ci);
    }
  }

  /** The fields of the records before the first unreadable one. */
  function ReadablePrefix(records: seq<CsvRecord>): (rows: seq<seq<string>>)
    ensures |rows| <= |records|
    ensures forall k :: 0 <= k < |rows| ==> records[k] == Record(rows[k])
    ensures |rows| < |records| ==> records[|rows|].Unreadable?
  {
    if |records| == 0 || records[0].Unreadable? then [] else [records[0].fields] + ReadablePrefix(records[1..])
  }

  datatype LoadResult = LoadResult(manager: GeoManager, loaded: nat, status: Status)

  /**
   * loadLocations: an unreadable header, or one without geoname_id and
   * country_iso_code, is an error that changes nothing. Otherwise the
   * records are read into the table in order; an unreadable record stops
   * the load with an error, keeping what was read before it.
   */
  method LoadLocations(m: GeoManager, header: CsvRecord, records: seq<CsvRecord>) returns (r: GeoManager, status: Status)
    ensures header.Unreadable? ==> r == m && status.Failure?
    ensures header.Record? ==>
      var gi := ColumnIndex(header.fields, "geoname_id");
      var ci := ColumnIndex(header.fields, "country_iso_code");
      && (gi < 0 || ci < 0 ==> r == m && status.Failure?)
      && (gi >= 0 && ci >= 0 ==>
            && r == m.(geonameToCC := ApplyLocations(m.geonameToCC, ReadablePrefix(records), gi, ci))
            && (status.Failure? <==> |ReadablePrefix(records)| < |records|))
  {
    if header.Unreadable? {
      return m, Failure("reading locations header");
    }
    var gi := ColumnIndex(header.fields, "geoname_id");
    var ci := ColumnIndex(header.fields, "country_iso_code");
    if gi < 0 || ci < 0 {
      return m, Failure("locations CSV missing required columns (geoname_id, country_iso_code)");
    }
    var table, complete := ReadLocations(m.geonameToCC, records, gi, ci);
    r := m.(geonameToCC := table);
    status := if complete then Success else Failure("reading locations record");
  }

  /** The record loop of loadLocations: rows are read in until the first unreadable record, if any. */
  method ReadLocations(table: map<int, string>, records: seq<CsvRecord>, gi: nat, ci: nat)
    returns (r: map<int, string>, complete: bool)
    ensures r == ApplyLocations(table, ReadablePrefix(records), gi, ci)
    ensures complete <==> |ReadablePrefix(records)| == |records|
  {
    r := table;
    var i := 0;
    var rows := ReadablePrefix(records);
    while i < |records| && records[i].Record?
      invariant 0 <= i <= |rows|
      invariant r == ApplyLocations(table, rows[..i], gi, ci)
    {
      ApplyLocationsStep(table, rows, i, gi, ci);
      r := ApplyRow(r, records[i].fields, gi, ci);
      i := i + 1;
    }
    assert i == |rows|;
    assert rows[..i] == rows;
    complete := i == |records|;
  }

  /** The code a geoname ID names, or "" when the table has none (a missing Go map key). */
  function CodeOf(table: map<int, string>, id: int): string
  {
    if id in table then table[id] else ""
  }

  /** The code named by the ID in column `idx`, or "" when the column is absent or the ID unreadable. */
  function CodeIn(table: map<int, string>, fields: seq<string>, idx: int): (cc: string)
    ensures cc != "" ==> 0 <= idx < |fields| && Atoi(TrimSpace(fields[idx])).Some?
  {
    if 0 <= idx < |fields| then
      match Atoi(TrimSpace(fields[idx]))
      case Some(id) => CodeOf(table, id)
      case None => ""
    else ""
  }

  /**
   * One blocks record: its network, parsed as a CIDR, and its country,
   * from geoname_id or else registered_country_geoname_id. A record
   * without a parseable network or a two-character country gives
   * nothing. The key is the mask size and the big-endian address of the
   * network; its entry carries the packed code and the pass action.
   */
  function BlockRow(rec: CsvRecord, lib: NetLib, table: map<int, string>, ni: nat, gi: int, ri: int): (r: Option<(LpmKey, GeoEntry)>)
    ensures r.Some? ==> rec.Record? && ni < |rec.fields| && lib.parseCIDR(TrimSpace(rec.fields[ni])).Some?
    ensures r.Some? ==>
      var n := lib.parseCIDR(TrimSpace(rec.fields[ni])).value;
      var cc := if CodeIn(table, rec.fields, gi) != "" then CodeIn(table, rec.fields, gi) else CodeIn(table, rec.fields, ri);
      && |cc| == 2
      && r.value == (LpmKey(n.ones % U32_LIMIT, IPToU32BE(n.ip)), GeoEntry(PackCountryCode(cc), Geoip.GEOIP_ACTION_PASS))
    ensures (rec.Record? && ni < |rec.fields| && lib.parseCIDR(TrimSpace(rec.fields[ni])).Some?
      && var cc := if CodeIn(table, rec.fields, gi) != "" then CodeIn(table, rec.fields, gi) else CodeIn(table, rec.fields, ri);
         |cc| == 2) ==> r.Some?
  {
    match rec
    case Unreadable => None
    case Record(fields) =>
      if ni >= |fields| then None
      else
        match lib.parseCIDR(TrimSpace(fields[ni]))
        case None => None
        case Some(n) =>
          var cc := CodeIn(table, fields, gi);
          var cc := if cc == "" then CodeIn(table, fields, ri) else cc;
          if cc == "" || |cc| != 2 then None
          else Some((LpmKey(n.ones % U32_LIMIT, IPToU32BE(n.ip)), GeoEntry(PackCountryCode(cc), Geoip.GEOIP_ACTION_PASS)))
  }

  /** The row a record writes when its trie update goes through. */
  function WrittenRow(rec: CsvRecord, lib: NetLib, table: map<int, string>, ni: nat, gi: int, ri: int,
                      updateOk: LpmKey -> bool): (r: Option<(LpmKey, GeoEntry)>)
    ensures r.Some? <==> BlockRow(rec, lib, table, ni, gi, ri).Some? && updateOk(BlockRow(rec, lib, table, ni, gi, ri).value.0)
    ensures r.Some? ==> r == BlockRow(rec, lib, table, ni, gi, ri)
  {
    var row := BlockRow(rec, lib, table, ni, gi, ri);
    if row.Some? && updateOk(row.value.0) then row else None
  }

  /** The rows whose insert goes through, in order. */
  function LoadedRows(records: seq<CsvRecord>, lib: NetLib, table: map<int, string>, ni: nat, gi: int, ri: int,
                      updateOk: LpmKey -> bool): (rows: seq<(LpmKey, GeoEntry)>)
    ensures |rows| <= |records|
  {
    if |records| == 0 then []
    else
      var init := LoadedRows(records[..|records| - 1], lib, table, ni, gi, ri, updateOk);
      match WrittenRow(records[|records| - 1], lib, table, ni, gi, ri, updateOk)
      case Some(row) => init + [row]
      case None => init
  }

  lemma LoadedRowsStep(records: seq<CsvRecord>, i: nat, lib: NetLib, table: map<int, string>, ni: nat, gi: int, ri: int,
                       updateOk: LpmKey -> bool)
    requires i < |records|
    ensures LoadedRows(records[..i + 1], lib, table, ni, gi, ri, updateOk) ==
      var done := LoadedRows(records[..i], lib, table, ni, gi, ri, updateOk);
      match WrittenRow(records[i], lib, table, ni, gi, ri, updateOk)
      case Some(row) => done + [row]
      case None => done
  {
    assert records[..i + 1][..i] == records[..i];
  }

  lemma WriteRowsSnoc(geoMap: map<LpmKey, GeoEntry>, rows: seq<(LpmKey, GeoEntry)>, row: (LpmKey, GeoEntry))
    ensures WriteRows(geoMap, rows + [row]) == WriteRows(geoMap, rows)[row.0 := row.1]
  {
    assert (rows + [row])[..|rows|] == rows;
  }

  /** The trie after the given rows are written in order. */
  function WriteRows(geoMap: map<LpmKey, GeoEntry>, rows: seq<(LpmKey, GeoEntry)>): map<LpmKey, GeoEntry>
  {
    if |rows| == 0 then geoMap else WriteRows(geoMap, rows[..|rows| - 1])[rows[|rows| - 1].0 := rows[|rows| - 1].1]
  }

  /** After the rows are written, a key holds the last row written to it, or what it held before. */
  lemma {:induction false} WriteRowsContents(geoMap: map<LpmKey, GeoEntry>, rows: seq<(LpmKey, GeoEntry)>, k: LpmKey)
    ensures k in WriteRows(geoMap, rows) <==> k in geoMap || exists j :: 0 <= j < |rows| && rows[j].0 == k
    ensures (forall j :: 0 <= j < |rows| ==> rows[j].0 != k) ==>
      k in geoMap ==> WriteRows(geoMap, rows)[k] == geoMap[k]
  {
    if |rows| > 0 {
      var init := rows[..|rows| - 1];
      WriteRowsContents(geoMap, init, k);
      if k in geoMap || exists j :: 0 <= j < |rows| && rows[j].0 == k {
        if k != rows[|rows| - 1].0 && !(k in geoMap) {
          var j :| 0 <= j < |rows| && rows[j].0 == k;
          assert init[j].0 == k;
        }
      }
      if exists j :: 0 <= j < |init| && init[j].0 == k {
        var j :| 0 <= j < |init| && init[j].0 == k;
        assert rows[j].0 == k;
      }
    }
  }

  /**
   * loadBlocks: an unreadable header, or one without a network column,
   * is an error with nothing loaded. Otherwise unreadable and unusable
   * records are skipped, every other record is written to the trie, and
   * the count is the number of writes that went through.
   */
  method LoadBlocks(m: GeoManager, header: CsvRecord, records: seq<CsvRecord>, lib: NetLib, updateOk: LpmKey -> bool)
    returns (r: GeoManager, loaded: nat, status: Status)
    ensures header.Unreadable? || ColumnIndex(header.fields, "network") < 0 ==> r == m && loaded == 0 && status.Failure?
    ensures header.Record? && ColumnIndex(header.fields, "network") >= 0 ==>
      var rows := LoadedRows(records, lib, m.geonameToCC, ColumnIndex(header.fields, "network"),
                             ColumnIndex(header.fields, "geoname_id"), ColumnIndex(header.fields, "registered_country_geoname_id"), updateOk);
      && status.Success? && loaded == |rows|
      && r == m.(geoMap := WriteRows(m.geoMap, rows))
  {
    if header.Unreadable? {
      return m, 0, Failure("reading blocks header");
    }
    var ni := ColumnIndex(header.fields, "network");
    var gi := ColumnIndex(header.fields, "geoname_id");
    var ri := ColumnIndex(header.fields, "registered_country_geoname_id");
    if ni < 0 {
      return m, 0, Failure("blocks CSV missing 'network' column");
    }
    var geoMap;
    geoMap, loaded := WriteRecords(m.geoMap, records, lib, m.geonameToCC, ni, gi, ri, updateOk);
    r := m.(geoMap := geoMap);
    status := Success;
  }

  /** One turn of the record loop keeps the count and the trie in step with the rows loaded so far. */
  lemma WriteRecordsStep(geoMap: map<LpmKey, GeoEntry>, records: seq<CsvRecord>, i: nat, lib: NetLib, table: map<int, string>,
                         ni: nat, gi: int, ri: int, updateOk: LpmKey -> bool, r: map<LpmKey, GeoEntry>, loaded: nat)
    requires i < |records|
    requires loaded == |LoadedRows(records[..i], lib, table, ni, gi, ri, updateOk)|
    requires r == WriteRows(geoMap, LoadedRows(records[..i], lib, table, ni, gi, ri, updateOk))
    ensures
      var row := WrittenRow(records[i], lib, table, ni, gi, ri, updateOk);
      var rows := LoadedRows(records[..i + 1], lib, table, ni, gi, ri, updateOk);
      && (row.Some? ==> loaded + 1 == |rows| && r[row.value.0 := row.value.1] == WriteRows(geoMap, rows))
      && (row.None? ==> loaded == |rows| && r == WriteRows(geoMap, rows))
  {
    var done := LoadedRows(records[..i], lib, table, ni, gi, ri, updateOk);
    LoadedRowsStep(records, i, lib, table, ni, gi, ri, updateOk);
    var row := WrittenRow(records[i], lib, table, ni, gi, ri, updateOk);
    if row.Some? {
      WriteRowsSnoc(geoMap, done, row.value);
    }
  }

  /** The record loop of loadBlocks: each usable record is written in turn, counting the writes that go through. */
  method WriteRecords(geoMap: map<LpmKey, GeoEntry>, records: seq<CsvRecord>, lib: NetLib, table: map<int, string>,
                      ni: nat, gi: int, ri: int, updateOk: LpmKey -> bool)
    returns (r: map<LpmKey, GeoEntry>, loaded: nat)
    ensures loaded == |LoadedRows(records, lib, table, ni, gi, ri, updateOk)|
    ensures r == WriteRows(geoMap, LoadedRows(records, lib, table, ni, gi, ri, updateOk))
  {
    r := geoMap;
    loaded := 0;
    var i := 0;
    while i < |records|
      invariant 0 <= i <= |records|
      invariant loaded == |LoadedRows(records[..i], lib, table, ni, gi, ri, updateOk)|
      invariant r == WriteRows(geoMap, LoadedRows(records[..i], lib, table, ni, gi, ri, updateOk))
    {
      WriteRecordsStep(geoMap, records, i, lib, table, ni, gi, ri, updateOk, r, loaded);
      var row := WrittenRow(records[i], lib, table, ni, gi, ri, updateOk);
      if row.Some? {
        r := r[row.value.0 := row.value.1];
        loaded := loaded + 1;
      }
      i := i + 1;
    }
    assert records[..|records|] == records;
  }

  /**
   * LoadCSV: the locations first, and any error there stops the load;
   * then the blocks, whose count becomes the number of loaded prefixes.
   */
  method LoadCsv(m: GeoManager, locHeader: CsvRecord, locRecords: seq<CsvRecord>,
                 blockHeader: CsvRecord, blockRecords: seq<CsvRecord>, lib: NetLib, updateOk: LpmKey -> bool)
    returns (r: GeoManager, status: Status)
    ensures status.Success? ==> r.loadedPrefixes <= |blockRecords| && r.policies == m.policies && r.policyMap == m.policyMap
    ensures status.Success? ==> locHeader.Record? && blockHeader.Record?
    ensures r.countryStats == m.countryStats
  {
    var afterLoc, locStatus := LoadLocations(m, locHeader, locRecords);
    if locStatus.Failure? {
      return afterLoc, Failure("loading locations: " + locStatus.msg);
    }
    var afterBlocks, loaded, blockStatus := LoadBlocks(afterLoc, blockHeader, blockRecords, lib, updateOk);
    if blockStatus.Failure? {
      return afterBlocks, Failure("loading blocks: " + blockStatus.msg);
    }
    r := afterBlocks.(loadedPrefixes := loaded);
    status := Success;
  }
}
