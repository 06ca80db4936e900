/** The daily zone counts of dnssec_tlsa_zone_num.py: `get_line_num`
    (dnssec_tlsa_zone_num.py:78-95) and the per-day loop of
    `insert_zone_db` (dnssec_tlsa_zone_num.py:133-180), which counts the
    distinct second-level zones with TLSA records under each top-level
    zone and writes one `zone_num` row per top-level zone. The SQL reads
    and the signed-zone files are inputs; a day is a day number, so the
    calendar arithmetic of `get_date` is left out. */
module ZoneCount {
  import opened Basics
  import opened Text
  import opened Names
  import opened Survey

  /** The rule of `get_line_num`: a line counts when, stripped, it is
      neither empty nor a comment. */
  predicate Counted(line: string) {
    !Skipped(Strip(line))
  }

  function LineCount(lines: seq<string>): (n: nat)
    ensures n <= |lines|
  {
    if |lines| == 0 then 0
    else LineCount(lines[..|lines| - 1]) + (if Counted(lines[|lines| - 1]) then 1 else 0)
  }

  lemma LineCountStep(lines: seq<string>, i: nat)
    requires i < |lines|
    ensures LineCount(lines[..i + 1]) == LineCount(lines[..i]) + if Counted(lines[i]) then 1 else 0
  {
    assert lines[..i + 1][..i] == lines[..i];
  }

  /** `get_line_num(fn)` on the lines of an existing file. */
  method GetLineNum(lines: seq<string>) returns (lineNum: nat)
    ensures lineNum == LineCount(lines)
  {
    lineNum := 0;
    for i := 0 to |lines|
      invariant lineNum == LineCount(lines[..i])
    {
      LineCountStep(lines, i);
      var l := Strip(lines[i]);
      if |l| == 0 || l[0] == '#' || l == "\n" {
        continue;
      }
      lineNum := lineNum + 1;
    }
    assert lines[..|lines|] == lines;
  }

  /** How many of the queued tasks are neither empty nor comments. */
  function CountTasks(tasks: seq<string>): nat {
    if |tasks| == 0 then 0
    else CountTasks(tasks[..|tasks| - 1]) + (if Skipped(tasks[|tasks| - 1]) then 0 else 1)
  }

  lemma StripBlank(s: string)
    requires |s| == 0 || s == "\n"
    ensures Strip(s) == ""
  {
    assert StripLeft("\n") == "";
  }

  /** A line the survey's input filter skips is never counted here. */
  lemma SkippedNotCounted(line: string)
    requires Skipped(line)
    ensures !Counted(line)
  {
    if |line| > 0 && line[0] == '#' {
      StripKeepsFirst(line);
    } else {
      StripBlank(line);
    }
  }

  /** `get_line_num` counts exactly the tasks the survey would queue for
      the same lines that are not empty and not comments once stripped. */
  lemma {:induction false} LineCountMatchesTasks(lines: seq<string>)
    ensures LineCount(lines) == CountTasks(TaskLines(lines))
  {
    if |lines| > 0 {
      var init, last := lines[..|lines| - 1], lines[|lines| - 1];
      LineCountMatchesTasks(init);
      if Skipped(last) {
        SkippedNotCounted(last);
        assert TaskLines(lines) == TaskLines(init);
      } else {
        var ts := TaskLines(init) + [Strip(last)];
        assert ts[..|ts| - 1] == TaskLines(init);
      }
    }
  }

  /** The second-level zone and the top-level zone of one name. */
  datatype ZoneKey = ZoneKey(zone: string, tld: string)

  function KeyOf(n: string): ZoneKey {
    ZoneKey(GetZone(n), GetTld(n))
  }

  function KeysOf(names: seq<string>): (keys: seq<ZoneKey>)
    ensures |keys| == |names|
  {
    seq(|names|, i requires 0 <= i < |names| => KeyOf(names[i]))
  }

  /** The distinct second-level zones. */
  function Zones(keys: seq<ZoneKey>): set<string> {
    set k | k in keys :: k.zone
  }

  /** The distinct top-level zones. */
  function Tlds(keys: seq<ZoneKey>): set<string> {
    set k | k in keys :: k.tld
  }

  /** The second-level zones under the top-level zone `t`. */
  function ZonesUnder(keys: seq<ZoneKey>, t: string): set<string> {
    set k | k in keys && k.tld == t :: k.zone
  }

  /** The second-level zones under any of the top-level zones `ts`. */
  function ZonesIn(keys: seq<ZoneKey>, ts: set<string>): set<string> {
    set k | k in keys && k.tld in ts :: k.zone
  }

  /** A second-level zone never lies under two top-level zones. */
  predicate Consistent(keys: seq<ZoneKey>) {
    forall k1, k2 :: k1 in keys && k2 in keys && k1.zone == k2.zone ==> k1.tld == k2.tld
  }

  /** The zones of real names are consistent: the last label of
      `get_zone(n)` is `get_tld(n)`. */
  lemma KeysConsistent(names: seq<string>)
    ensures Consistent(KeysOf(names))
  {
    var keys := KeysOf(names);
    forall k1, k2 | k1 in keys && k2 in keys && k1.zone == k2.zone
      ensures k1.tld == k2.tld
    {
      var i :| 0 <= i < |keys| && keys[i] == k1;
      var j :| 0 <= j < |keys| && keys[j] == k2;
      SameZoneSameTld(names[i], names[j]);
    }
  }

  /** The tally `top` after one more name with key `k`, when `seen` are
      the second-level zones met so far: a new second-level zone adds one
      to its top-level zone, a zone met before changes nothing. */
  function AddKey(top: map<string, int>, seen: set<string>, k: ZoneKey): map<string, int> {
    if k.zone in seen then top
    else top[k.tld := (if k.tld in top then top[k.tld] else 0) + 1]
  }

  /** The second-level zones met so far, key by key: the keys of the
      `level2_zone` dictionary. */
  function SeenZones(keys: seq<ZoneKey>): set<string> {
    if |keys| == 0 then {}
    else SeenZones(keys[..|keys| - 1]) + {keys[|keys| - 1].zone}
  }

  /** The zones met key by key are the distinct second-level zones. */
  lemma {:induction false} SeenZonesAreZones(keys: seq<ZoneKey>)
    ensures SeenZones(keys) == Zones(keys)
  {
    if |keys| > 0 {
      SeenZonesAreZones(keys[..|keys| - 1]);
      assert keys == keys[..|keys| - 1] + [keys[|keys| - 1]];
    }
  }

  /** The `top_zone` dictionary after the names whose keys are `keys`. */
  function TopCounts(keys: seq<ZoneKey>): map<string, int> {
    if |keys| == 0 then map[]
    else
      var init := keys[..|keys| - 1];
      AddKey(TopCounts(init), SeenZones(init), keys[|keys| - 1])
  }

  /** One step of the tally: the key at `i` after the keys before it. */
  lemma TallyStep(keys: seq<ZoneKey>, i: nat)
    requires i < |keys|
    ensures Zones(keys[..i + 1]) == Zones(keys[..i]) + {keys[i].zone}
    ensures TopCounts(keys[..i + 1]) == AddKey(TopCounts(keys[..i]), Zones(keys[..i]), keys[i])
  {
    assert keys[..i + 1] == keys[..i] + [keys[i]];
    assert keys[..i + 1][..i] == keys[..i];
    SeenZonesAreZones(keys[..i]);
  }

  /** The body of the counting loop for the name `n`. */
  method TallyName(level2Zone: map<string, int>, topZone: map<string, int>, n: string)
    returns (level2Out: map<string, int>, topOut: map<string, int>)
    ensures level2Out.Keys == level2Zone.Keys + {KeyOf(n).zone}
    ensures forall z :: z in level2Out ==> level2Out[z] == if z in level2Zone then level2Zone[z] else 1
    ensures topOut == AddKey(topZone, level2Zone.Keys, KeyOf(n))
  {
    level2Out, topOut := level2Zone, topZone;
    var lev2 := GetZone(n);
    var top := GetTld(n);
    if lev2 !in level2Out {
      level2Out := level2Out[lev2 := 1];
      if top !in topOut {
        topOut := topOut[top := 0];
      }
      topOut := topOut[top := topOut[top] + 1];
    }
  }

  /** The counting loop of one day (dnssec_tlsa_zone_num.py:147-158):
      starting from cleared dictionaries, `level2Zone` marks each distinct
      second-level zone and `topZone` tallies them by top-level zone. */
  method CountZones(names: seq<string>) returns (level2Zone: map<string, int>, topZone: map<string, int>)
    ensures level2Zone.Keys == Zones(KeysOf(names))
    ensures forall z :: z in level2Zone ==> level2Zone[z] == 1
    ensures topZone == TopCounts(KeysOf(names))
  {
    ghost var keys := KeysOf(names);
    level2Zone := map[];
    topZone := map[];
    for i := 0 to |names|
      invariant level2Zone.Keys == Zones(keys[..i])
      invariant forall z :: z in level2Zone ==> level2Zone[z] == 1
      invariant topZone == TopCounts(keys[..i])
    {
      TallyStep(keys, i);
      level2Zone, topZone := TallyName(level2Zone, topZone, names[i]);
    }
    assert keys[..|names|] == keys;
  }

  lemma PrefixUnder(keys: seq<ZoneKey>, t: string)
    requires |keys| > 0
    ensures var init, k := keys[..|keys| - 1], keys[|keys| - 1];
            && ZonesUnder(keys, t) == ZonesUnder(init, t) + (if t == k.tld then {k.zone} else {})
            && Tlds(keys) == Tlds(init) + {k.tld}
            && Zones(keys) == Zones(init) + {k.zone}
  {
    assert keys == keys[..|keys| - 1] + [keys[|keys| - 1]];
  }

  /** A zone already seen was seen under the same top-level zone. */
  lemma SeenZone(keys: seq<ZoneKey>)
    requires |keys| > 0 && Consistent(keys)
    requires keys[|keys| - 1].zone in Zones(keys[..|keys| - 1])
    ensures var init, k := keys[..|keys| - 1], keys[|keys| - 1];
            k.zone in ZonesUnder(init, k.tld) && k.tld in Tlds(init)
  {
    var init := keys[..|keys| - 1];
    var k :| k in init && k.zone == keys[|keys| - 1].zone;
  }

  /** Consistency carries over to a prefix. */
  lemma ConsistentInit(keys: seq<ZoneKey>)
    requires |keys| > 0 && Consistent(keys)
    ensures Consistent(keys[..|keys| - 1])
  {
    var init := keys[..|keys| - 1];
    forall k | k in init ensures k in keys {
      var j :| 0 <= j < |init| && init[j] == k;
      assert keys[j] == k;
    }
  }

  /** What a tally means for the keys `keys`: one entry per top-level
      zone, holding the number of distinct second-level zones under it. */
  predicate CountsFor(top: map<string, int>, keys: seq<ZoneKey>) {
    && top.Keys == Tlds(keys)
    && forall t :: t in top ==> top[t] == |ZonesUnder(keys, t)|
  }

  /** Adding the last key to the tally of the keys before it gives the
      tally of all the keys. */
  lemma AddKeyCounts(keys: seq<ZoneKey>, prev: map<string, int>)
    requires |keys| > 0 && Consistent(keys)
    requires CountsFor(prev, keys[..|keys| - 1])
    ensures CountsFor(AddKey(prev, Zones(keys[..|keys| - 1]), keys[|keys| - 1]), keys)
  {
    var init, k := keys[..|keys| - 1], keys[|keys| - 1];
    var next := AddKey(prev, Zones(init), k);
    PrefixUnder(keys, k.tld);
    if k.zone in Zones(init) {
      SeenZone(keys);
      assert next.Keys == Tlds(init) == Tlds(keys);
    } else {
      assert next.Keys == prev.Keys + {k.tld};
    }
    forall t | t in next
      ensures next[t] == |ZonesUnder(keys, t)|
    {
      AddKeyAt(keys, prev, t);
    }
  }

  lemma AddKeyAt(keys: seq<ZoneKey>, prev: map<string, int>, t: string)
    requires |keys| > 0 && Consistent(keys)
    requires CountsFor(prev, keys[..|keys| - 1])
    requires t in AddKey(prev, Zones(keys[..|keys| - 1]), keys[|keys| - 1])
    ensures AddKey(prev, Zones(keys[..|keys| - 1]), keys[|keys| - 1])[t] == |ZonesUnder(keys, t)|
  {
    var init, k := keys[..|keys| - 1], keys[|keys| - 1];
    PrefixUnder(keys, t);
    if k.zone in Zones(init) {
      SeenZone(keys);
    } else if t !in Tlds(init) {
      assert ZonesUnder(init, t) == {};
    }
  }

  /** The tally has one entry per top-level zone, holding the number of
      distinct second-level zones under it: no zone is counted twice and
      none under the wrong top-level zone. */
  lemma {:induction false} TopCountsMeaning(keys: seq<ZoneKey>)
    requires Consistent(keys)
    ensures TopCounts(keys).Keys == Tlds(keys)
    ensures forall t :: t in TopCounts(keys) ==> TopCounts(keys)[t] == |ZonesUnder(keys, t)|
  {
    if |keys| == 0 {
      assert Tlds(keys) == {};
    } else {
      ConsistentInit(keys);
      TopCountsMeaning(keys[..|keys| - 1]);
      SeenZonesAreZones(keys[..|keys| - 1]);
      AddKeyCounts(keys, TopCounts(keys[..|keys| - 1]));
    }
  }

  ghost function PickKey(m: map<string, int>): string
    requires m != map[]
  {
    var k :| k in m; k
  }

  /** The sum of the values of a count map. */
  ghost function MapSum(m: map<string, int>): int
    decreases |m|
  {
    if m == map[] then 0
    else
      var k := PickKey(m);
      m[k] + MapSum(m - {k})
  }

  lemma ZonesInSplit(keys: seq<ZoneKey>, ts: set<string>, t: string)
    requires Consistent(keys) && t in ts
    ensures ZonesIn(keys, ts) == ZonesIn(keys, ts - {t}) + ZonesUnder(keys, t)
    ensures ZonesIn(keys, ts - {t}) !! ZonesUnder(keys, t)
  {
    forall z | z in ZonesIn(keys, ts - {t}) && z in ZonesUnder(keys, t)
      ensures false
    {
    }
  }

  lemma {:induction false} MapSumCounts(keys: seq<ZoneKey>, m: map<string, int>)
    requires Consistent(keys)
    requires forall t :: t in m ==> m[t] == |ZonesUnder(keys, t)|
    ensures MapSum(m) == |ZonesIn(keys, m.Keys)|
    decreases |m|
  {
    if m == map[] {
      assert ZonesIn(keys, m.Keys) == {};
    } else {
      var k := PickKey(m);
      var rest := m - {k};
      MapSumCounts(keys, rest);
      assert rest.Keys == m.Keys - {k};
      ZonesInSplit(keys, m.Keys, k);
    }
  }

  /** Every top-level zone of the day has at least one zone under it. */
  lemma ZonesUnderNonEmpty(keys: seq<ZoneKey>, t: string)
    requires t in Tlds(keys)
    ensures |ZonesUnder(keys, t)| >= 1
  {
    var k :| k in keys && k.tld == t;
    assert k.zone in ZonesUnder(keys, t);
  }

  /** The day's `top_zone` counts add up to the number of distinct
      second-level zones, and each is at least 1. */
  lemma CountsSumToZones(names: seq<string>)
    ensures var counts := TopCounts(KeysOf(names));
            && counts.Keys == Tlds(KeysOf(names))
            && MapSum(counts) == |Zones(KeysOf(names))|
            && forall t :: t in counts ==> counts[t] >= 1
  {
    var keys := KeysOf(names);
    KeysConsistent(names);
    TopCountsMeaning(keys);
    var counts := TopCounts(keys);
    MapSumCounts(keys, counts);
    assert ZonesIn(keys, Tlds(keys)) == Zones(keys);
    forall t | t in counts ensures counts[t] >= 1 {
      ZonesUnderNonEmpty(keys, t);
    }
  }

  /** One row of `zone_num`. */
  datatype ZoneRow = ZoneRow(zone: string, day: int, tlsaName: int, tlsaZone: int, dnssecZone: int)

  /** What `insert_zone_db` reads: the distinct names of a day's survey
      database, the number of distinct endpoints of a top-level zone on a
      day, and the lines of a zone's signed-zone list for a day when that
      file exists. */
  datatype Sources = Sources(
    namesOn: int -> seq<string>,
    endpointCount: (int, string) -> int,
    signedZones: (string, int) -> Option<seq<string>>)

  /** The `dnssec_zone` column: the line count of the day's signed-zone
      list, or -1 when the file does not exist. */
  function DnssecCount(src: Sources, zone: string, day: int): (c: int)
    ensures c >= -1
    ensures c == -1 <==> src.signedZones(zone, day).None?
  {
    var f := src.signedZones(zone, day);
    if f.None? then -1 else LineCount(f.value)
  }

  /** The `top_zone` dictionary of a scanned day. */
  function CountsOn(src: Sources, day: int): map<string, int> {
    TopCounts(KeysOf(src.namesOn(day)))
  }

  /** The row for the top-level zone `t` of the scanned day `day`, whose
      tally is `zc`, stamped with the previous day. */
  function ZoneRowFor(src: Sources, day: int, t: string, zc: int): ZoneRow {
    ZoneRow(t, day - 1, src.endpointCount(day, t), zc, DnssecCount(src, t, day - 1))
  }

  ghost function PickTld(ts: set<string>): string
    requires ts != {}
  {
    var t :| t in ts; t
  }

  /** The rows for the top-level zones `ts` of a day's tally, one each. */
  ghost function RowsForTlds(src: Sources, day: int, counts: map<string, int>, ts: set<string>): multiset<ZoneRow>
    requires ts <= counts.Keys
    decreases |ts|
  {
    if ts == {} then multiset{}
    else
      var t := PickTld(ts);
      RowsForTlds(src, day, counts, ts - {t}) + multiset{ZoneRowFor(src, day, t, counts[t])}
  }

  /** The rows do not depend on the order the top-level zones are taken
      in: any one of them can be taken last. */
  lemma {:induction false} RowsForTldsRemove(src: Sources, day: int, counts: map<string, int>, ts: set<string>,
                                             z: string)
    requires ts <= counts.Keys && z in ts
    ensures RowsForTlds(src, day, counts, ts) ==
            RowsForTlds(src, day, counts, ts - {z}) + multiset{ZoneRowFor(src, day, z, counts[z])}
    decreases |ts|
  {
    var t := PickTld(ts);
    if t != z {
      RowsForTldsRemove(src, day, counts, ts - {t}, z);
      RowsForTldsRemove(src, day, counts, ts - {z}, t);
      assert ts - {t} - {z} == ts - {z} - {t};
    }
  }

  lemma {:induction false} RowsForTldsMember(src: Sources, day: int, counts: map<string, int>, ts: set<string>,
                                             row: ZoneRow)
    requires ts <= counts.Keys && row in RowsForTlds(src, day, counts, ts)
    ensures exists t :: t in ts && row == ZoneRowFor(src, day, t, counts[t])
    decreases |ts|
  {
    var t := PickTld(ts);
    if row != ZoneRowFor(src, day, t, counts[t]) {
      RowsForTldsMember(src, day, counts, ts - {t}, row);
    }
  }

  /** The rows written for one scanned day: one per top-level zone. */
  ghost function DayRows(src: Sources, day: int): multiset<ZoneRow> {
    var counts := CountsOn(src, day);
    RowsForTlds(src, day, counts, counts.Keys)
  }

  /** The rows written for the `count` days from `start` on, when
      `dayRows` gives the rows of each day. */
  ghost function RowsOver(dayRows: int -> multiset<ZoneRow>, start: int, count: nat): multiset<ZoneRow> {
    if count == 0 then multiset{}
    else RowsOver(dayRows, start, count - 1) + dayRows(start + count - 1)
  }

  /** The rows written for the `count` days from `start` on. */
  ghost function DaysRows(src: Sources, start: int, count: nat): multiset<ZoneRow> {
    if count == 0 then multiset{}
    else DaysRows(src, start, count - 1) + DayRows(src, start + count - 1)
  }

  lemma {:induction false} RowsForTldsSize(src: Sources, day: int, counts: map<string, int>, ts: set<string>)
    requires ts <= counts.Keys
    ensures |RowsForTlds(src, day, counts, ts)| == |ts|
    decreases |ts|
  {
    if ts != {} {
      RowsForTldsSize(src, day, counts, ts - {PickTld(ts)});
    }
  }

  /** The row of a top-level zone among `ts` occurs exactly once: no
      other zone's row carries its name. */
  lemma RowsForTldsOnce(src: Sources, day: int, counts: map<string, int>, ts: set<string>, z: string)
    requires ts <= counts.Keys && z in ts
    ensures RowsForTlds(src, day, counts, ts)[ZoneRowFor(src, day, z, counts[z])] == 1
  {
    var row := ZoneRowFor(src, day, z, counts[z]);
    RowsForTldsRemove(src, day, counts, ts, z);
    if row in RowsForTlds(src, day, counts, ts - {z}) {
      RowsForTldsMember(src, day, counts, ts - {z}, row);
      assert false;
    }
  }

  /** Each scanned day writes exactly one row per top-level zone seen
      that day: as many rows as zones, and each zone's row, carrying its
      tally, exactly once. */
  lemma DayRowsCount(src: Sources, day: int)
    ensures |DayRows(src, day)| == |Tlds(KeysOf(src.namesOn(day)))|
    ensures CountsOn(src, day).Keys == Tlds(KeysOf(src.namesOn(day)))
    ensures forall t :: t in CountsOn(src, day) ==>
              DayRows(src, day)[ZoneRowFor(src, day, t, CountsOn(src, day)[t])] == 1
  {
    var counts := CountsOn(src, day);
    RowsForTldsSize(src, day, counts, counts.Keys);
    CountsSumToZones(src.namesOn(day));
    forall t | t in counts
      ensures DayRows(src, day)[ZoneRowFor(src, day, t, counts[t])] == 1
    {
      RowsForTldsOnce(src, day, counts, counts.Keys, t);
    }
  }

  /** Each row of a scanned day is dated the day before and belongs to a
      top-level zone seen that day; its zone count is the number of
      distinct second-level zones under it, at least 1, and its
      `dnssec_zone` is the line count of the previous day's signed-zone
      list, -1 exactly when the list is missing. */
  lemma DayRowsShape(src: Sources, day: int, row: ZoneRow)
    requires row in DayRows(src, day)
    ensures row.zone in Tlds(KeysOf(src.namesOn(day)))
    ensures row.day == day - 1
    ensures row.tlsaName == src.endpointCount(day, row.zone)
    ensures row.tlsaZone == |ZonesUnder(KeysOf(src.namesOn(day)), row.zone)| >= 1
    ensures row.dnssecZone == DnssecCount(src, row.zone, day - 1)
    ensures row.dnssecZone == -1 <==> src.signedZones(row.zone, day - 1).None?
  {
    var names := src.namesOn(day);
    var counts := CountsOn(src, day);
    RowsForTldsMember(src, day, counts, counts.Keys, row);
    var t :| t in counts && row == ZoneRowFor(src, day, t, counts[t]);
    KeysConsistent(names);
    TopCountsMeaning(KeysOf(names));
    ZonesUnderNonEmpty(KeysOf(names), t);
  }

  /** The `zone_num` table: a plain table without a unique index, so a
      multiset of rows. */
  class ZoneNumTable {
    var rows: multiset<ZoneRow>

    constructor ()
      ensures rows == multiset{}
    {
      rows := multiset{};
    }

    method Insert(row: ZoneRow)
      modifies this
      ensures rows == old(rows) + multiset{row}
    {
      rows := rows + multiset{row};
    }
  }

  /** Inserting the row of one more top-level zone `z` extends the rows
      of the zones `done` to those of `done + {z}`. */
  lemma RowsForTldsAdd(src: Sources, day: int, counts: map<string, int>, done: set<string>, z: string,
                       base: multiset<ZoneRow>)
    requires done <= counts.Keys && z !in done && z in counts
    ensures base + RowsForTlds(src, day, counts, done) + multiset{ZoneRowFor(src, day, z, counts[z])} ==
            base + RowsForTlds(src, day, counts, done + {z})
  {
    RowsForTldsRemove(src, day, counts, done + {z}, z);
    assert done + {z} - {z} == done;
  }

  /** The row of the top-level zone `z` with tally `zc`: its endpoint
      count, and the line count of the previous day's signed-zone list,
      -1 when that file does not exist. */
  method MakeRow(src: Sources, day: int, z: string, zc: int) returns (row: ZoneRow)
    ensures row == ZoneRowFor(src, day, z, zc)
  {
    var totalName := src.endpointCount(day, z);
    var totalDnssec: int := -1;
    var dsFile := src.signedZones(z, day - 1);
    if dsFile.Some? {
      totalDnssec := GetLineNum(dsFile.value);
    }
    row := ZoneRow(z, day - 1, totalName, zc, totalDnssec);
  }

  /** The insert loop of one day (dnssec_tlsa_zone_num.py:159-178): a
      row for each top-level zone of the tally, in the dictionary's
      order. */
  method InsertRows(table: ZoneNumTable, src: Sources, day: int, topZone: map<string, int>)
    modifies table
    ensures table.rows == old(table.rows) + RowsForTlds(src, day, topZone, topZone.Keys)
  {
    var remaining := topZone.Keys;
    ghost var done: set<string> := {};
    ghost var base := table.rows;
    while remaining != {}
      invariant remaining !! done && remaining + done == topZone.Keys
      invariant table.rows == base + RowsForTlds(src, day, topZone, done)
      decreases |remaining|
    {
      var z :| z in remaining;
      var row := MakeRow(src, day, z, topZone[z]);
      table.Insert(row);
      RowsForTldsAdd(src, day, topZone, done, z, base);
      remaining := remaining - {z};
      done := done + {z};
    }
  }

  /** One scanned day of `insert_zone_db`: count the zones from cleared
      dictionaries, then insert one row per top-level zone. */
  method InsertDay(table: ZoneNumTable, src: Sources, day: int)
    modifies table
    ensures table.rows == old(table.rows) + DayRows(src, day)
  {
    var names := src.namesOn(day);
    var level2Zone, topZone := CountZones(names);
    InsertRows(table, src, day, topZone);
  }

  /** `dayRows` gives the rows of each day. The day loop is proved over
      such a function, through `RowsOver`, rather than over `DaysRows`
      itself: a day's rows stay an opaque application there, and the
      tally behind `DayRows` is unfolded only inside `InsertDay`. */
  ghost predicate RowsMatch(src: Sources, dayRows: int -> multiset<ZoneRow>) {
    forall d {:trigger DayRows(src, d)} :: dayRows(d) == DayRows(src, d)
  }

  /** A per-day rows function for the day loop. */
  lemma DayRowsFunction(src: Sources) returns (dayRows: int -> multiset<ZoneRow>)
    ensures RowsMatch(src, dayRows)
  {
    dayRows := day => DayRows(src, day);
  }

  /** Any per-day rows function that agrees with `DayRows` gives the rows
      of the days. */
  lemma {:induction false} MatchingRows(src: Sources, dayRows: int -> multiset<ZoneRow>, start: int, n: nat)
    requires RowsMatch(src, dayRows)
    ensures RowsOver(dayRows, start, n) == DaysRows(src, start, n)
  {
    if n > 0 {
      MatchingRows(src, dayRows, start, n - 1);
    }
  }

  /** `insert_zone_db`'s days: `start` to `start + numDays`, both
      included, each counted from cleared dictionaries. */
  method InsertZoneDb(table: ZoneNumTable, src: Sources, start: int, numDays: nat)
    modifies table
    ensures table.rows == old(table.rows) + DaysRows(src, start, numDays + 1)
  {
    ghost var dayRows := DayRowsFunction(src);
    InsertDays(table, src, dayRows, start, numDays + 1);
    MatchingRows(src, dayRows, start, numDays + 1);
  }

  /** The day loop of `insert_zone_db` (dnssec_tlsa_zone_num.py:133-180),
      for a per-day rows function that agrees with `DayRows`. */
  method InsertDays(table: ZoneNumTable, src: Sources, ghost dayRows: int -> multiset<ZoneRow>,
                    start: int, count: nat)
    requires RowsMatch(src, dayRows)
    modifies table
    ensures table.rows == old(table.rows) + RowsOver(dayRows, start, count)
  {
    ghost var base := table.rows;
    for x := 0 to count
      invariant table.rows == base + RowsOver(dayRows, start, x)
    {
      InsertNextDay(table, src, dayRows, start, x, base);
    }
  }

  /** One pass of the day loop: the rows of day `start + x`, counted from
      cleared dictionaries, extend the days before it to the days up to it. */
  method InsertNextDay(table: ZoneNumTable, src: Sources, ghost dayRows: int -> multiset<ZoneRow>,
                       start: int, x: nat, ghost base: multiset<ZoneRow>)
    requires RowsMatch(src, dayRows)
    requires table.rows == base + RowsOver(dayRows, start, x)
    modifies table
    ensures table.rows == base + RowsOver(dayRows, start, x + 1)
  {
    InsertDay(table, src, start + x);
  }
}
