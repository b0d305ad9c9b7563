/** The NIH dataset module: project documents, the geography index built
    from project coordinates and country codes, and the project generator
    with its geographic splits.
 */
module NihTopics {

  import opened Results
  import opened OrderedDicts
  import opened GeoIndex
  import opened CoreUtils
  import opened TextRecords

  /** One row of the geography query: id, coordinates, EU flag and the
      two-letter country code. */
  datatype GeoRow = GeoRow(id: Id, coords: Option<Coords>, isEu: bool, iso2: string)

  /** `(id, iso2)` for every row, EU or not. */
  function CountryPairs(rows: seq<GeoRow>): (r: seq<(Id, string)>)
    ensures |r| == |rows|
    ensures forall i :: 0 <= i < |rows| ==> r[i] == (rows[i].id, rows[i].iso2)
  {
    seq(|rows|, i requires 0 <= i < |rows| => (rows[i].id, rows[i].iso2))
  }

  /** The point resolution behind `nuts_lookup`, in row order, for EU rows
      only. `find` returns the NUTS ids of the regions containing a point;
      unpacking missing coordinates with `**` raises `TypeError`. */
  function ResolveEu(rows: seq<GeoRow>, find: Coords -> seq<string>): (r: Result<seq<(Id, seq<string>)>>)
    ensures r.Ok? <==> forall i :: 0 <= i < |rows| && rows[i].isEu ==> rows[i].coords.Some?
    ensures r.Err? ==> r.error == TypeError
    ensures r.Ok? ==> |r.value| <= |rows|
    ensures r.Ok? ==> forall p :: p in r.value <==>
              exists i :: 0 <= i < |rows| && rows[i].isEu && p == (rows[i].id, find(rows[i].coords.value))
  {
    if |rows| == 0 then Ok([])
    else
      var n := |rows| - 1;
      var row := rows[n];
      assert forall i :: 0 <= i < n ==> rows[..n][i] == rows[i];
      match ResolveEu(rows[..n], find)
      case Err(e) => Err(e)
      case Ok(head) =>
        if !row.isEu then Ok(head)
        else if row.coords.None? then Err(TypeError)
        else Ok(head + [(row.id, find(row.coords.value))])
  }

  /** `get_nih_geo_lookup` with the intended iteration over the resolver's
      `(id, regions)` items. */
  function NihGeoLookup(rows: seq<GeoRow>, find: Coords -> seq<string>): (r: Result<GeoLookup>)
    ensures r.Ok? <==> ResolveEu(rows, find).Ok?
    ensures r.Ok? ==> DistinctKeys(r.value)
  {
    match ResolveEu(rows, find)
    case Err(e) => Err(e)
    case Ok(resolved) =>
      ReverseIndexMembership(CountryPairs(rows), FromPairs(resolved), "", "");
      Ok(BuildReverseIndex(CountryPairs(rows), FromPairs(resolved)))
  }

  /** Point resolution resolves nothing exactly when no row is an EU row. */
  lemma ResolveEuEmpty(rows: seq<GeoRow>, find: Coords -> seq<string>)
    requires ResolveEu(rows, find).Ok?
    ensures |ResolveEu(rows, find).value| == 0 <==> forall i :: 0 <= i < |rows| ==> !rows[i].isEu
  {
    var resolved := ResolveEu(rows, find).value;
    if |resolved| > 0 {
      assert resolved[0] in resolved;
    }
    if exists i :: 0 <= i < |rows| && rows[i].isEu {
      var i :| 0 <= i < |rows| && rows[i].isEu;
      assert (rows[i].id, find(rows[i].coords.value)) in resolved;
    }
  }

  /** `get_nih_geo_lookup` as written: `nuts_lookup.values()` yields region
      lists, which the loop unpacks as pairs. It only gets past the loop
      when there is nothing to unpack, that is when no project is an EU
      project, and then holds the country keys alone. */
  function NihGeoLookupAsWritten(rows: seq<GeoRow>, find: Coords -> seq<string>): (r: Result<GeoLookup>)
    ensures r.Ok? <==> forall i :: 0 <= i < |rows| ==> !rows[i].isEu
    ensures r.Ok? ==> r.value == IndexCountries([], CountryPairs(rows))
    ensures r.Err? ==> r.error == TypeError || r.error == ValueError
  {
    match ResolveEu(rows, find)
    case Err(e) => Err(e)
    case Ok(resolved) =>
      ResolveEuEmpty(rows, find);
      FromPairsEmpty(resolved);
      IndexRegionsFromValues(IndexCountries([], CountryPairs(rows)), FromPairs(resolved))
  }

  /** Every project is indexed under its country key, and under the regions
      the resolver found for it; nothing else is indexed. Point resolution
      only ever ran on EU rows. */
  lemma NihGeoLookupMembership(rows: seq<GeoRow>, find: Coords -> seq<string>, key: string, id: Id)
    requires NihGeoLookup(rows, find).Ok?
    ensures var resolved := ResolveEu(rows, find).value;
            id in Members(NihGeoLookup(rows, find).value, key) <==>
              (exists i :: 0 <= i < |rows| && rows[i].id == id && key == IsoPrefix + rows[i].iso2) ||
              (LastValue(resolved, id).Some? && key in LastValue(resolved, id).value)
  {
    var resolved := ResolveEu(rows, find).value;
    var countries := CountryPairs(rows);
    ReverseIndexMembership(countries, FromPairs(resolved), key, id);
    RegionLinkedFromPairs(resolved, key, id);
    if CountryLinked(countries, key, id) {
      var i :| 0 <= i < |countries| && countries[i].0 == id && key == IsoPrefix + countries[i].1;
      assert rows[i].id == id && key == IsoPrefix + rows[i].iso2;
    }
    if exists i :: 0 <= i < |rows| && rows[i].id == id && key == IsoPrefix + rows[i].iso2 {
      var i :| 0 <= i < |rows| && rows[i].id == id && key == IsoPrefix + rows[i].iso2;
      assert countries[i].0 == id && key == IsoPrefix + countries[i].1;
    }
  }

  /** One EU project with coordinates in region `FR10`: the intended lookup
      indexes it there, while the loop as written fails on it. */
  lemma AsWrittenLookupFailsOnEuProject(find: Coords -> seq<string>)
    requires find(Coords(48.8, 2.3)) == ["FR10"]
    ensures var rows := [GeoRow("p1", Some(Coords(48.8, 2.3)), true, "FR")];
            NihGeoLookup(rows, find).Ok? &&
            "p1" in Members(NihGeoLookup(rows, find).value, "FR10") &&
            NihGeoLookupAsWritten(rows, find) == Err(ValueError)
  {
    var rows := [GeoRow("p1", Some(Coords(48.8, 2.3)), true, "FR")];
    var resolved := ResolveEu(rows, find).value;
    assert rows[..0] == [];
    assert resolved == [("p1", ["FR10"])];
    assert LastValue(resolved, "p1") == Some(["FR10"]);
    NihGeoLookupMembership(rows, find, "FR10", "p1");
    assert FromPairs(resolved) == [("p1", ["FR10"])] by {
      assert resolved[..0] == [];
    }
  }

  /** `get_nih_projects`, generating the whole project list when not
      splitting. */
  function GetNihProjects(projects: seq<Record>, lookup: GeoLookup, geoSplit: bool): (ys: seq<Yield<Record>>)
    ensures !geoSplit ==> ys == [Objects(projects)]
    ensures geoSplit ==> ys == GeoSplit(projects, (p: Record) => p.id, lookup)
  {
    if geoSplit then GeoSplit(projects, (p: Record) => p.id, lookup) else [Objects(projects)]
  }

  /** `get_nih_projects` as written: `return projects` inside a generator
      ends it without yielding anything. */
  function GetNihProjectsAsWritten(projects: seq<Record>, lookup: GeoLookup, geoSplit: bool): (ys: seq<Yield<Record>>)
    ensures !geoSplit ==> ys == []
    ensures geoSplit ==> ys == GeoSplit(projects, (p: Record) => p.id, lookup)
  {
    if geoSplit then GeoSplit(projects, (p: Record) => p.id, lookup) else []
  }

  /** Downstream, `list(get_objects())[0]` fails on the generator as
      written and gets the project list from the intended one. */
  lemma AsWrittenGeneratorIsEmpty(projects: seq<Record>, lookup: GeoLookup)
    ensures FirstYield(GetNihProjectsAsWritten(projects, lookup, false)) == Err(IndexError)
    ensures FirstYield(GetNihProjects(projects, lookup, false)) == Ok(Objects(projects))
  {
  }

  /** In split mode each mask flags exactly the projects the lookup lists
      under its code. */
  lemma NihSplitMasks(projects: seq<Record>, lookup: GeoLookup, k: nat, i: nat)
    requires k < |lookup| && i < |projects|
    ensures var ys := GetNihProjects(projects, lookup, true);
            ys[k].Split? && ys[k].code == lookup[k].0 && |ys[k].mask| == |projects| &&
            (ys[k].mask[i] <==> projects[i].id in lookup[k].1)
  {
  }
}
