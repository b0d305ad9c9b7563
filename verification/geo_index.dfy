/** The reverse geography index shared by the dataset modules: region code
    to the set of object ids located in it, built from a `defaultdict(set)`.

    Country-level keys carry the prefix `iso_` so that they never collide
    with NUTS region codes; region keys are the NUTS ids the point resolver
    returned for an object's coordinates.
 */
module GeoIndex {

  import opened Results
  import opened OrderedDicts

  type Id = string

  /** Region code to ids, in the key order of the `defaultdict(set)`. */
  type GeoLookup = Dict<string, set<Id>>

  /** A point on the map, as given to the point resolver. */
  datatype Coords = Coords(lat: real, lon: real)

  const IsoPrefix: string := "iso_"

  /** `lookup[key]` on the defaultdict, without inserting the key. */
  function Members(ix: GeoLookup, key: string): set<Id>
  {
    match Get(ix, key)
    case Some(ids) => ids
    case None => {}
  }

  /** `nuts_reverse[key].add(id)` */
  function AddId(ix: GeoLookup, key: string, id: Id): GeoLookup
  {
    Put(ix, key, Members(ix, key) + {id})
  }

  lemma AddIdMembers(ix: GeoLookup, key: string, id: Id, key': string)
    ensures Members(AddId(ix, key, id), key') == Members(ix, key') + (if key' == key then {id} else {})
  {
    PutGet(ix, key, Members(ix, key) + {id}, key');
  }

  lemma AddIdDistinct(ix: GeoLookup, key: string, id: Id)
    requires DistinctKeys(ix)
    ensures DistinctKeys(AddId(ix, key, id))
  {
    PutDistinct(ix, key, Members(ix, key) + {id});
  }

  /** `for id, code in pairs: nuts_reverse[f"iso_{code}"].add(id)` */
  function IndexCountries(ix: GeoLookup, pairs: seq<(Id, string)>): GeoLookup
  {
    if |pairs| == 0 then ix
    else
      var (id, code) := pairs[|pairs| - 1];
      AddId(IndexCountries(ix, pairs[..|pairs| - 1]), IsoPrefix + code, id)
  }

  /** `for nuts_id in regions: nuts_reverse[nuts_id].add(id)` */
  function AddToRegions(ix: GeoLookup, id: Id, regions: seq<string>): GeoLookup
  {
    if |regions| == 0 then ix
    else AddId(AddToRegions(ix, id, regions[..|regions| - 1]), regions[|regions| - 1], id)
  }

  /** `for id, regions in nuts_lookup.items(): ...` */
  function IndexRegions(ix: GeoLookup, resolved: seq<(Id, seq<string>)>): GeoLookup
  {
    if |resolved| == 0 then ix
    else
      var (id, regions) := resolved[|resolved| - 1];
      AddToRegions(IndexRegions(ix, resolved[..|resolved| - 1]), id, regions)
  }

  /** The whole reverse index: country keys first, then region keys. */
  function BuildReverseIndex(countries: seq<(Id, string)>, resolved: seq<(Id, seq<string>)>): GeoLookup
  {
    IndexRegions(IndexCountries([], countries), resolved)
  }

  /** The loop over `nuts_lookup.values()` as written: every value is a
      list of regions, and `for id, nuts_info in ...` unpacks it as a pair.
      A list of any length but two raises `ValueError`; a list of exactly two
      makes `nuts_info` a region dict, whose keys are strings, and the
      subscript `nuts_region["NUTS_ID"]` on a string raises `TypeError`. */
  function IndexRegionsFromValues(ix: GeoLookup, resolved: seq<(Id, seq<string>)>): Result<GeoLookup>
  {
    if |resolved| == 0 then Ok(ix)
    else if |resolved[0].1| == 2 then Err(TypeError)
    else Err(ValueError)
  }

  /** `id` is listed with country code `c` and `key` is `"iso_" + c`. */
  ghost predicate CountryLinked(countries: seq<(Id, string)>, key: string, id: Id)
  {
    exists i :: 0 <= i < |countries| && countries[i].0 == id && key == IsoPrefix + countries[i].1
  }

  /** The resolver placed `id` in region `key`. */
  ghost predicate RegionLinked(resolved: seq<(Id, seq<string>)>, key: string, id: Id)
  {
    exists i, j :: 0 <= i < |resolved| && 0 <= j < |resolved[i].1| && resolved[i].0 == id && resolved[i].1[j] == key
  }

  lemma {:induction false} IndexCountriesMembers(ix: GeoLookup, pairs: seq<(Id, string)>, key: string, id: Id)
    ensures id in Members(IndexCountries(ix, pairs), key) <==> id in Members(ix, key) || CountryLinked(pairs, key, id)
    ensures DistinctKeys(ix) ==> DistinctKeys(IndexCountries(ix, pairs))
  {
    if |pairs| > 0 {
      var n := |pairs| - 1;
      IndexCountriesMembers(ix, pairs[..n], key, id);
      AddIdMembers(IndexCountries(ix, pairs[..n]), IsoPrefix + pairs[n].1, pairs[n].0, key);
      if DistinctKeys(ix) {
        AddIdDistinct(IndexCountries(ix, pairs[..n]), IsoPrefix + pairs[n].1, pairs[n].0);
      }
      if CountryLinked(pairs, key, id) {
        var i :| 0 <= i < |pairs| && pairs[i].0 == id && key == IsoPrefix + pairs[i].1;
        if i < n {
          assert pairs[..n][i] == pairs[i];
        }
      }
      if CountryLinked(pairs[..n], key, id) {
        var i :| 0 <= i < n && pairs[..n][i].0 == id && key == IsoPrefix + pairs[..n][i].1;
        assert pairs[i] == pairs[..n][i];
      }
    }
  }

  lemma {:induction false} AddToRegionsMembers(ix: GeoLookup, id: Id, regions: seq<string>, key: string, id': Id)
    ensures id' in Members(AddToRegions(ix, id, regions), key) <==> id' in Members(ix, key) || (id' == id && key in regions)
    ensures DistinctKeys(ix) ==> DistinctKeys(AddToRegions(ix, id, regions))
  {
    if |regions| > 0 {
      var n := |regions| - 1;
      AddToRegionsMembers(ix, id, regions[..n], key, id');
      AddIdMembers(AddToRegions(ix, id, regions[..n]), regions[n], id, key);
      if DistinctKeys(ix) {
        AddIdDistinct(AddToRegions(ix, id, regions[..n]), regions[n], id);
      }
      assert regions == regions[..n] + [regions[n]];
    }
  }

  /** A link in a longer resolver output is a link in its prefix or in its
      last entry. */
  lemma RegionLinkedSnoc(resolved: seq<(Id, seq<string>)>, key: string, id: Id)
    requires |resolved| > 0
    ensures RegionLinked(resolved, key, id) <==>
              RegionLinked(resolved[..|resolved| - 1], key, id) ||
              (resolved[|resolved| - 1].0 == id && key in resolved[|resolved| - 1].1)
  {
    var n := |resolved| - 1;
    if RegionLinked(resolved, key, id) {
      var i, j :| 0 <= i < |resolved| && 0 <= j < |resolved[i].1| && resolved[i].0 == id && resolved[i].1[j] == key;
      if i < n {
        assert resolved[..n][i] == resolved[i];
      }
    }
    if RegionLinked(resolved[..n], key, id) {
      var i, j :| 0 <= i < n && 0 <= j < |resolved[..n][i].1| && resolved[..n][i].0 == id && resolved[..n][i].1[j] == key;
      assert resolved[i] == resolved[..n][i];
    }
    if resolved[n].0 == id && key in resolved[n].1 {
      var j :| 0 <= j < |resolved[n].1| && resolved[n].1[j] == key;
      assert resolved[n].0 == id && resolved[n].1[j] == key;
    }
  }

  lemma {:induction false} IndexRegionsMembers(ix: GeoLookup, resolved: seq<(Id, seq<string>)>, key: string, id: Id)
    ensures id in Members(IndexRegions(ix, resolved), key) <==> id in Members(ix, key) || RegionLinked(resolved, key, id)
    ensures DistinctKeys(ix) ==> DistinctKeys(IndexRegions(ix, resolved))
  {
    if |resolved| > 0 {
      var n := |resolved| - 1;
      IndexRegionsMembers(ix, resolved[..n], key, id);
      AddToRegionsMembers(IndexRegions(ix, resolved[..n]), resolved[n].0, resolved[n].1, key, id);
      RegionLinkedSnoc(resolved, key, id);
    }
  }

  /** Every id in the index is justified by a country code or by the
      resolver, and every such link is recorded: nothing is inferred beyond
      the two inputs. */
  lemma ReverseIndexMembership(countries: seq<(Id, string)>, resolved: seq<(Id, seq<string>)>, key: string, id: Id)
    ensures id in Members(BuildReverseIndex(countries, resolved), key) <==>
              CountryLinked(countries, key, id) || RegionLinked(resolved, key, id)
    ensures DistinctKeys(BuildReverseIndex(countries, resolved))
  {
    IndexCountriesMembers([], countries, key, id);
    IndexRegionsMembers(IndexCountries([], countries), resolved, key, id);
  }

  /** When the resolver output is a dict built from `(id, regions)` pairs,
      an id is linked to a region exactly when the last regions listed for
      that id contain it. */
  lemma RegionLinkedFromPairs(ps: seq<(Id, seq<string>)>, key: string, id: Id)
    ensures RegionLinked(FromPairs(ps), key, id) <==> LastValue(ps, id).Some? && key in LastValue(ps, id).value
  {
    var d := FromPairs(ps);
    if RegionLinked(d, key, id) {
      var i, j :| 0 <= i < |d| && 0 <= j < |d[i].1| && d[i].0 == id && d[i].1[j] == key;
      GetAt(d, i);
    }
    if LastValue(ps, id).Some? && key in LastValue(ps, id).value {
      assert Get(d, id).Some?;
      var i :| 0 <= i < |d| && Keys(d)[i] == id;
      GetAt(d, i);
      var j :| 0 <= j < |d[i].1| && d[i].1[j] == key;
      assert d[i].0 == id && d[i].1[j] == key;
    }
  }

  /** One boolean mask per lookup entry, in lookup order:
      `list(obj["id"] in ids for obj in objects)`. */
  function GeoMasks(ids: seq<Id>, ix: GeoLookup): (r: seq<(seq<bool>, string)>)
    ensures |r| == |ix|
    ensures forall k :: 0 <= k < |ix| ==> r[k].1 == ix[k].0 && |r[k].0| == |ids|
    ensures forall k, i :: 0 <= k < |ix| && 0 <= i < |ids| ==> (r[k].0[i] <==> ids[i] in ix[k].1)
  {
    seq(|ix|, k requires 0 <= k < |ix| =>
      (seq(|ids|, i requires 0 <= i < |ids| => ids[i] in ix[k].1), ix[k].0))
  }
}
