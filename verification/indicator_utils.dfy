/** Turning the nested indicator values into output files: country
    metadata, one row per non-empty indicator value filed under its path,
    the per-file sort and filter, and the length of the covid window.
 */
module IndicatorUtils {

  import opened Results
  import opened Strings
  import opened OrderedDicts
  import opened Sorting
  import opened Config
  import opened NutsUtils
  import opened Tables
  import GeoIndex

  /** `make_ctry_metadata`'s dict, filename included. */
  datatype CtryMetadata = CtryMetadata(code: string, level: int, name: Option<string>, filename: string)

  const ByCountryFile: string := "by-country.csv"

  /** `f"nuts-{level}.csv"` */
  function NutsFile(level: int): string
  {
    "nuts-" + IntToString(level) + ".csv"
  }

  /** The metadata of a geography code. `nuts` is the NUTS region lookup;
      `isoName` stands for the country-name lookup of an ISO-2 code. The
      level and the filename are computed from the length of the code as
      given, before any prefix is stripped. */
  function MakeCtryMetadata(ctry: string, nuts: map<string, NutsInfo>,
                            isoName: string -> Option<string>): (r: Result<CtryMetadata>)
    ensures StartsWith(ctry, GeoIndex.IsoPrefix) ==>
              r == Ok(CtryMetadata(ctry[|GeoIndex.IsoPrefix|..], 0, isoName(ctry[|GeoIndex.IsoPrefix|..]), ByCountryFile))
    ensures !StartsWith(ctry, GeoIndex.IsoPrefix) ==> (r.Ok? <==> ctry in nuts)
    ensures !StartsWith(ctry, GeoIndex.IsoPrefix) && r.Err? ==> r.error == KeyError(ctry)
    ensures !StartsWith(ctry, GeoIndex.IsoPrefix) && r.Ok? ==>
              r.value.code == ctry && r.value.level == |ctry| - 1 && r.value.name == Some(nuts[ctry].name)
  {
    var nutsLevel := |ctry| - 1;
    var isIso := StartsWith(ctry, GeoIndex.IsoPrefix);
    var code := if isIso then ctry[|GeoIndex.IsoPrefix|..] else ctry;
    var name :- if isIso then Ok(isoName(code))
                else if code in nuts then Ok(Some(nuts[code].name))
                else Err(KeyError(code));
    Ok(CtryMetadata(code, if isIso then 0 else |code| - 1, name,
                    if isIso then ByCountryFile else NutsFile(nutsLevel)))
  }

  /** Reads the level back out of a `nuts-{level}.csv` filename. */
  function FilenameLevel(filename: string): Option<int>
  {
    if |filename| >= 9 && filename[..5] == "nuts-" && filename[|filename| - 4..] == ".csv"
    then ParseInt(filename[5..|filename| - 4])
    else None
  }

  /** The filename of a NUTS code names the level the metadata reports,
      and the by-country file names no level. */
  lemma FilenameMatchesLevel(ctry: string, nuts: map<string, NutsInfo>, isoName: string -> Option<string>)
    requires MakeCtryMetadata(ctry, nuts, isoName).Ok?
    ensures var md := MakeCtryMetadata(ctry, nuts, isoName).value;
            if StartsWith(ctry, GeoIndex.IsoPrefix) then FilenameLevel(md.filename).None?
            else FilenameLevel(md.filename) == Some(md.level)
  {
    var md := MakeCtryMetadata(ctry, nuts, isoName).value;
    if !StartsWith(ctry, GeoIndex.IsoPrefix) {
      var digits := IntToString(|ctry| - 1);
      var f := "nuts-" + digits + ".csv";
      assert md.filename == f;
      assert |digits| >= 1;
      assert f[..5] == "nuts-";
      assert f[|f| - 4..] == ".csv";
      assert f[5..|f| - 4] == digits;
      ParseIntOfIntToString(|ctry| - 1);
    }
  }

  /** The ISO case on a concrete code: `iso_FR` is France at level 0. */
  lemma IsoMetadataExample(nuts: map<string, NutsInfo>, isoName: string -> Option<string>)
    ensures MakeCtryMetadata("iso_FR", nuts, isoName) == Ok(CtryMetadata("FR", 0, isoName("FR"), "by-country.csv"))
  {
    assert StartsWith("iso_FR", GeoIndex.IsoPrefix);
  }

  /** One item produced by flattening the nested indicators:
      dataset, geography code, indicator, topic and value. */
  datatype Leaf = Leaf(dataset: string, geo: string, indicator: string, topic: string, value: Option<real>)

  /** The leaves that are neither null nor zero. */
  predicate Kept(l: Leaf)
  {
    l.value.Some? && l.value.value != 0.0
  }

  /** `f"{ds_name}/{topic_name}/{filename}"` */
  function FilePath(dataset: string, topic: string, filename: string): string
  {
    dataset + "/" + topic + "/" + filename
  }

  /** The path and the row of one kept leaf. `describe` stands for the
      verbose indicator description of an indicator in a dataset. */
  function EntryOf(l: Leaf, describe: (string, string) -> string, nuts: map<string, NutsInfo>,
                   isoName: string -> Option<string>): (r: Result<(string, Row)>)
    ensures r.Ok? <==> MakeCtryMetadata(l.geo, nuts, isoName).Ok?
    ensures r.Ok? ==> var md := MakeCtryMetadata(l.geo, nuts, isoName).value;
              r.value.0 == FilePath(l.dataset, l.topic, md.filename) &&
              r.value.1.indicatorName == l.indicator && r.value.1.value == l.value &&
              r.value.1.code == md.code && r.value.1.level == md.level && r.value.1.name == md.name &&
              r.value.1.description == describe(l.indicator, l.dataset)
  {
    var desc := describe(l.indicator, l.dataset);
    var md :- MakeCtryMetadata(l.geo, nuts, isoName);
    Ok((FilePath(l.dataset, l.topic, md.filename), Row(l.indicator, l.value, desc, md.code, md.level, md.name)))
  }

  /** The rows of the kept leaves, in traversal order; the first kept leaf
      whose metadata fails stops the traversal with its error. */
  function FileEntries(leaves: seq<Leaf>, describe: (string, string) -> string, nuts: map<string, NutsInfo>,
                       isoName: string -> Option<string>): Result<seq<(string, Row)>>
  {
    if |leaves| == 0 then Ok([])
    else
      var n := |leaves| - 1;
      var prefix :- FileEntries(leaves[..n], describe, nuts, isoName);
      if !Kept(leaves[n]) then Ok(prefix)
      else
        var entry :- EntryOf(leaves[n], describe, nuts, isoName);
        Ok(prefix + [entry])
  }

  /** The kept leaves of a non-empty list: those of all but the last, then
      the last if it is kept. */
  lemma KeptSnoc(leaves: seq<Leaf>)
    requires |leaves| > 0
    ensures var n := |leaves| - 1;
            Filter(Kept, leaves) == Filter(Kept, leaves[..n]) + (if Kept(leaves[n]) then [leaves[n]] else [])
  {
  }

  /** The traversal succeeds exactly when every kept leaf's entry does. */
  lemma {:induction false} FileEntriesOk(leaves: seq<Leaf>, describe: (string, string) -> string,
                                         nuts: map<string, NutsInfo>, isoName: string -> Option<string>)
    ensures var kept := Filter(Kept, leaves);
            FileEntries(leaves, describe, nuts, isoName).Ok? <==>
              forall i :: 0 <= i < |kept| ==> EntryOf(kept[i], describe, nuts, isoName).Ok?
  {
    if |leaves| > 0 {
      var n := |leaves| - 1;
      var kept := Filter(Kept, leaves);
      var head := Filter(Kept, leaves[..n]);
      FileEntriesOk(leaves[..n], describe, nuts, isoName);
      KeptSnoc(leaves);
      assert forall i :: 0 <= i < |head| ==> kept[i] == head[i];
      if FileEntries(leaves[..n], describe, nuts, isoName).Err? {
        var i :| 0 <= i < |head| && !EntryOf(head[i], describe, nuts, isoName).Ok?;
        assert kept[i] == head[i];
      } else if Kept(leaves[n]) {
        assert kept[|head|] == leaves[n];
      }
    }
  }

  /** A successful traversal yields one entry per kept leaf, in order. */
  lemma {:induction false} FileEntriesValues(leaves: seq<Leaf>, describe: (string, string) -> string,
                                             nuts: map<string, NutsInfo>, isoName: string -> Option<string>)
    requires FileEntries(leaves, describe, nuts, isoName).Ok?
    ensures var kept := Filter(Kept, leaves);
            var es := FileEntries(leaves, describe, nuts, isoName).value;
            |es| == |kept| && forall i :: 0 <= i < |kept| ==> Ok(es[i]) == EntryOf(kept[i], describe, nuts, isoName)
  {
    if |leaves| > 0 {
      var n := |leaves| - 1;
      var kept := Filter(Kept, leaves);
      var head := Filter(Kept, leaves[..n]);
      FileEntriesValues(leaves[..n], describe, nuts, isoName);
      KeptSnoc(leaves);
      assert forall i :: 0 <= i < |head| ==> kept[i] == head[i];
      if Kept(leaves[n]) {
        assert kept[|head|] == leaves[n];
      }
    }
  }

  /** The traversal succeeds exactly when every kept leaf has metadata, and
      then yields one entry per kept leaf, in order. */
  lemma FileEntriesSpec(leaves: seq<Leaf>, describe: (string, string) -> string,
                        nuts: map<string, NutsInfo>, isoName: string -> Option<string>)
    ensures var kept := Filter(Kept, leaves);
            var r := FileEntries(leaves, describe, nuts, isoName);
            r.Ok? <==> forall i :: 0 <= i < |kept| ==> EntryOf(kept[i], describe, nuts, isoName).Ok?
    ensures var kept := Filter(Kept, leaves);
            var r := FileEntries(leaves, describe, nuts, isoName);
            r.Ok? ==> |r.value| == |kept| &&
                      forall i :: 0 <= i < |kept| ==> r.value[i] == EntryOf(kept[i], describe, nuts, isoName).value
  {
    FileEntriesOk(leaves, describe, nuts, isoName);
    if FileEntries(leaves, describe, nuts, isoName).Ok? {
      FileEntriesValues(leaves, describe, nuts, isoName);
    }
  }

  /** The rows filed under `p` so far, `[]` if there are none. */
  function RowsAt(d: Dict<string, seq<Row>>, p: string): seq<Row>
  {
    match Get(d, p)
    case Some(rows) => rows
    case None => []
  }

  /** `all_file_data[path].append(row)` for every entry, in order. */
  function GroupByPath(es: seq<(string, Row)>): Dict<string, seq<Row>>
  {
    if |es| == 0 then []
    else
      var g := GroupByPath(es[..|es| - 1]);
      var (p, row) := es[|es| - 1];
      Put(g, p, RowsAt(g, p) + [row])
  }

  /** The rows of the entries filed under `p`, in order. */
  function RowsFor(es: seq<(string, Row)>, p: string): seq<Row>
  {
    if |es| == 0 then []
    else RowsFor(es[..|es| - 1], p) + (if es[|es| - 1].0 == p then [es[|es| - 1].1] else [])
  }

  /** Total number of rows over all paths. */
  function TotalRows(d: Dict<string, seq<Row>>): nat
  {
    if |d| == 0 then 0 else |d[0].1| + TotalRows(d[1..])
  }

  lemma {:induction false} PutTotalRows(d: Dict<string, seq<Row>>, p: string, rows: seq<Row>)
    ensures TotalRows(Put(d, p, rows)) == TotalRows(d) - |RowsAt(d, p)| + |rows|
  {
    if |d| > 0 && d[0].0 != p {
      PutTotalRows(d[1..], p, rows);
      assert ([d[0]] + Put(d[1..], p, rows))[1..] == Put(d[1..], p, rows);
    } else if |d| > 0 {
      assert ([(p, rows)] + d[1..])[1..] == d[1..];
    }
  }

  /** Some entry is filed under `p`. */
  predicate Filed(es: seq<(string, Row)>, p: string)
  {
    exists i :: 0 <= i < |es| && es[i].0 == p
  }

  /** An entry filed under `p` is among the earlier ones or is the last. */
  lemma FiledSnoc(es: seq<(string, Row)>, p: string)
    requires |es| > 0
    ensures Filed(es, p) <==> Filed(es[..|es| - 1], p) || es[|es| - 1].0 == p
  {
    var n := |es| - 1;
    if Filed(es[..n], p) {
      var i :| 0 <= i < n && es[..n][i].0 == p;
      assert es[i].0 == p;
    }
    if Filed(es, p) {
      var i :| 0 <= i < |es| && es[i].0 == p;
      assert i < n ==> es[..n][i].0 == p;
    }
  }

  /** A path is a key exactly when some entry is filed under it. */
  lemma {:induction false} GroupByPathKeys(es: seq<(string, Row)>, p: string)
    ensures Get(GroupByPath(es), p).Some? <==> Filed(es, p)
  {
    if |es| > 0 {
      var n := |es| - 1;
      var g := GroupByPath(es[..n]);
      var (q, row) := es[n];
      GroupByPathKeys(es[..n], p);
      PutGet(g, q, RowsAt(g, q) + [row], p);
      FiledSnoc(es, p);
    }
  }

  /** A path holds the rows filed under it, in traversal order. */
  lemma {:induction false} GroupByPathRows(es: seq<(string, Row)>, p: string)
    ensures RowsAt(GroupByPath(es), p) == RowsFor(es, p)
  {
    if |es| > 0 {
      var n := |es| - 1;
      var g := GroupByPath(es[..n]);
      var (q, row) := es[n];
      GroupByPathRows(es[..n], p);
      PutGet(g, q, RowsAt(g, q) + [row], p);
    }
  }

  /** Every path appears once and no row is lost or duplicated. */
  lemma {:induction false} GroupByPathSize(es: seq<(string, Row)>)
    ensures DistinctKeys(GroupByPath(es))
    ensures TotalRows(GroupByPath(es)) == |es|
  {
    if |es| > 0 {
      var n := |es| - 1;
      var g := GroupByPath(es[..n]);
      var (q, row) := es[n];
      GroupByPathSize(es[..n]);
      PutDistinct(g, q, RowsAt(g, q) + [row]);
      PutTotalRows(g, q, RowsAt(g, q) + [row]);
    }
  }

  /** Each path holds exactly the rows filed under it, in traversal order,
      every path appears once, and no row is lost or duplicated. */
  lemma GroupByPathSpec(es: seq<(string, Row)>, p: string)
    ensures Get(GroupByPath(es), p).Some? <==> exists i :: 0 <= i < |es| && es[i].0 == p
    ensures RowsAt(GroupByPath(es), p) == RowsFor(es, p)
    ensures DistinctKeys(GroupByPath(es))
    ensures TotalRows(GroupByPath(es)) == |es|
  {
    GroupByPathKeys(es, p);
    GroupByPathRows(es, p);
    GroupByPathSize(es);
  }

  /** `prepare_file_data`: the kept leaves' rows grouped by file path. */
  function PrepareFileData(leaves: seq<Leaf>, describe: (string, string) -> string, nuts: map<string, NutsInfo>,
                           isoName: string -> Option<string>): (r: Result<Dict<string, seq<Row>>>)
    ensures r.Ok? <==> forall i :: 0 <= i < |Filter(Kept, leaves)| ==>
                         EntryOf(Filter(Kept, leaves)[i], describe, nuts, isoName).Ok?
  {
    FileEntriesSpec(leaves, describe, nuts, isoName);
    var es :- FileEntries(leaves, describe, nuts, isoName);
    Ok(GroupByPath(es))
  }

  /** `make_indicator_description(indc_name, ds_name)` as the loop calls
      it: with the dataset's label, a string, where the dataset's module is
      expected. A string has no `model_config`, so reading the entity type
      raises before any description is formatted. */
  function DescribeByLabel(indicator: string, dataset: string): Result<string>
  {
    Err(AttributeError)
  }

  /** The traversal as written: each kept leaf asks `describeByLabel` for
      its description, by indicator and dataset label, before its metadata
      is looked up. */
  function FileEntriesAsWritten(leaves: seq<Leaf>, describeByLabel: (string, string) -> Result<string>,
                                nuts: map<string, NutsInfo>,
                                isoName: string -> Option<string>): Result<seq<(string, Row)>>
  {
    if |leaves| == 0 then Ok([])
    else
      var n := |leaves| - 1;
      var prefix :- FileEntriesAsWritten(leaves[..n], describeByLabel, nuts, isoName);
      if !Kept(leaves[n]) then Ok(prefix)
      else
        var l := leaves[n];
        var desc :- describeByLabel(l.indicator, l.dataset);
        var md :- MakeCtryMetadata(l.geo, nuts, isoName);
        Ok(prefix + [(FilePath(l.dataset, l.topic, md.filename), Row(l.indicator, l.value, desc, md.code, md.level, md.name))])
  }

  /** The traversal as written gets past a leaf only when it is skipped:
      it succeeds, with no entry, exactly when no leaf is kept, and
      otherwise fails on the attribute read. */
  lemma {:induction false} FileEntriesAsWrittenSpec(leaves: seq<Leaf>, nuts: map<string, NutsInfo>,
                                                    isoName: string -> Option<string>)
    ensures var r := FileEntriesAsWritten(leaves, DescribeByLabel, nuts, isoName);
            (r.Ok? <==> |Filter(Kept, leaves)| == 0) &&
            (r.Ok? ==> r.value == []) &&
            (r.Err? ==> r.error == AttributeError)
  {
    if |leaves| > 0 {
      FileEntriesAsWrittenSpec(leaves[..|leaves| - 1], nuts, isoName);
    }
  }

  /** `prepare_file_data` as written: any leaf that is neither null nor
      zero makes it raise `AttributeError`, so it can only return the empty
      mapping. */
  function PrepareFileDataAsWritten(leaves: seq<Leaf>, nuts: map<string, NutsInfo>,
                                    isoName: string -> Option<string>): (r: Result<Dict<string, seq<Row>>>)
    ensures r.Ok? <==> forall i :: 0 <= i < |leaves| ==> !Kept(leaves[i])
    ensures r.Ok? ==> r.value == []
    ensures r.Err? ==> r.error == AttributeError
  {
    FileEntriesAsWrittenSpec(leaves, nuts, isoName);
    KeptNone(leaves);
    var es :- FileEntriesAsWritten(leaves, DescribeByLabel, nuts, isoName);
    Ok(GroupByPath(es))
  }

  /** No leaf is kept exactly when the kept leaves are none. */
  lemma {:induction false} KeptNone(leaves: seq<Leaf>)
    ensures |Filter(Kept, leaves)| == 0 <==> forall i :: 0 <= i < |leaves| ==> !Kept(leaves[i])
  {
    if |leaves| > 0 {
      var n := |leaves| - 1;
      KeptNone(leaves[..n]);
      assert forall i :: 0 <= i < n ==> leaves[..n][i] == leaves[i];
    }
  }

  /** A single kept leaf whose entry succeeds is the single entry. */
  lemma OneLeafEntries(l: Leaf, describe: (string, string) -> string, nuts: map<string, NutsInfo>,
                       isoName: string -> Option<string>)
    requires Kept(l) && EntryOf(l, describe, nuts, isoName).Ok?
    ensures FileEntries([l], describe, nuts, isoName) == Ok([EntryOf(l, describe, nuts, isoName).value])
  {
    assert [l][..0] == [];
    assert FileEntries([l][..0], describe, nuts, isoName) == Ok([]);
    assert [] + [EntryOf(l, describe, nuts, isoName).value] == [EntryOf(l, describe, nuts, isoName).value];
  }

  /** A single entry is filed alone under its path. */
  lemma OneEntryGrouped(e: (string, Row))
    ensures GroupByPath([e]) == [(e.0, [e.1])]
  {
    assert [e][..0] == [];
    assert GroupByPath([e][..0]) == [];
    assert RowsAt([], e.0) + [e.1] == [e.1];
  }

  /** One NIH value for France: the corrected preparation files it, with the
      indicator's description, under `nih/t/by-country.csv`, while the
      preparation as written raises `AttributeError`. */
  lemma AsWrittenDescriptionFails(describe: (string, string) -> string, nuts: map<string, NutsInfo>,
                                  isoName: string -> Option<string>)
    ensures var leaves := [Leaf("nih", "iso_FR", "relative_activity", "t", Some(1.5))];
            var r := PrepareFileData(leaves, describe, nuts, isoName);
            r.Ok? && Get(r.value, "nih/t/by-country.csv") ==
              Some([Row("relative_activity", Some(1.5), describe("relative_activity", "nih"), "FR", 0, isoName("FR"))]) &&
            PrepareFileDataAsWritten(leaves, nuts, isoName) == Err(AttributeError)
  {
    var l := Leaf("nih", "iso_FR", "relative_activity", "t", Some(1.5));
    assert StartsWith(l.geo, GeoIndex.IsoPrefix);
    assert l.geo[|GeoIndex.IsoPrefix|..] == "FR";
    var e := EntryOf(l, describe, nuts, isoName);
    assert e.Ok? && Kept(l);
    assert FilePath("nih", "t", ByCountryFile) == "nih/t/by-country.csv";
    OneLeafEntries(l, describe, nuts, isoName);
    OneEntryGrouped(e.value);
    assert PrepareFileData([l], describe, nuts, isoName) == Ok([(e.value.0, [e.value.1])]);
    assert [l][0] == l;
  }

  /** Every kept leaf yields exactly one row, so the files hold as many rows
      as there are leaves that are neither null nor zero; the rows of one
      path are those of its leaves, in traversal order. */
  lemma PrepareFileDataSpec(leaves: seq<Leaf>, describe: (string, string) -> string, nuts: map<string, NutsInfo>,
                            isoName: string -> Option<string>, p: string)
    requires PrepareFileData(leaves, describe, nuts, isoName).Ok?
    ensures var d := PrepareFileData(leaves, describe, nuts, isoName).value;
            var es := FileEntries(leaves, describe, nuts, isoName).value;
            DistinctKeys(d) && TotalRows(d) == |Filter(Kept, leaves)| && RowsAt(d, p) == RowsFor(es, p)
  {
    FileEntriesSpec(leaves, describe, nuts, isoName);
    GroupByPathSpec(FileEntries(leaves, describe, nuts, isoName).value, p);
  }

  /** One table of `sort_and_filter_data`: sorted, then complete rows only. */
  function SortAndDrop(order: seq<Column>, rows: seq<Row>): (t: seq<Row>)
    ensures SortedBy(RowLe(order), t)
    ensures forall i :: 0 <= i < |t| ==> Complete(t[i])
    ensures multiset(t) == multiset(DropNa(rows))
  {
    var sorted := SortRows(order, rows);
    FilterSorted(RowLe(order), Complete, sorted);
    FilterPermutation(Complete, sorted, rows);
    DropNa(sorted)
  }

  /** `sort_and_filter_data`: every table sorted and stripped of incomplete
      rows; a path left with no row is dropped. */
  function SortAndFilter(order: seq<Column>, fileData: Dict<string, seq<Row>>): Dict<string, seq<Row>>
  {
    MapNonEmpty(fileData, (rows: seq<Row>) => SortAndDrop(order, rows))
  }

  /** A path survives exactly when its table holds a complete row; its
      table is then a sorted permutation of its complete rows. */
  lemma SortAndFilterSpec(order: seq<Column>, fileData: Dict<string, seq<Row>>, p: string)
    requires DistinctKeys(fileData)
    ensures var r := SortAndFilter(order, fileData);
            Get(r, p).Some? <==> Get(fileData, p).Some? && |DropNa(Get(fileData, p).value)| > 0
    ensures var r := SortAndFilter(order, fileData);
            Get(r, p).Some? ==>
              var t := Get(r, p).value;
              SortedBy(RowLe(order), t) && (forall i :: 0 <= i < |t| ==> Complete(t[i])) &&
              multiset(t) == multiset(DropNa(Get(fileData, p).value))
  {
    MapNonEmptyGet(fileData, (rows: seq<Row>) => SortAndDrop(order, rows), p);
    if Get(fileData, p).Some? {
      var rows := Get(fileData, p).value;
      var t := SortAndDrop(order, rows);
      assert |t| == |multiset(t)| == |multiset(DropNa(rows))| == |DropNa(rows)|;
    }
  }

  /** `_days_of_covid`: the inclusive length of the covid window. */
  function DaysOfCovid(covid: Window): int
  {
    covid.toDate - covid.fromDate + 1
  }

  /** The days from `a` to `b`, both included. */
  ghost function DaySet(a: int, b: int): (days: set<int>)
    ensures forall d :: d in days <==> a <= d <= b
    decreases b - a
  {
    if b < a then {} else DaySet(a, b - 1) + {b}
  }

  lemma {:induction false} DaySetSize(a: int, b: int)
    requires a <= b + 1
    ensures |DaySet(a, b)| == b - a + 1
    decreases b - a
  {
    if a <= b {
      DaySetSize(a, b - 1);
      assert b !in DaySet(a, b - 1);
    }
  }

  /** The covid window counts each of its days once, both ends included. */
  lemma DaysOfCovidCountsDays(covid: Window)
    requires covid.fromDate <= covid.toDate + 1
    ensures DaysOfCovid(covid) == |DaySet(covid.fromDate, covid.toDate)|
  {
    DaySetSize(covid.fromDate, covid.toDate);
  }
}
