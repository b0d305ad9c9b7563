/** The arXiv dataset module: the geography index of research institutes
    and the article generator, which yields filtered article lists rather
    than row masks when splitting by geography.
 */
module ArxivTopics {

  import opened Results
  import opened OrderedDicts
  import opened GeoIndex
  import opened Frames
  import opened Sorting
  import opened CoreUtils

  /** `{id: nf.find(lat=lat, lon=lon) for id, lat, lon in q.all()}` over
      the located EU institutes, as pairs in query order. */
  function ResolveInstitutes(institutes: seq<(Id, Coords)>, find: Coords -> seq<string>): (r: seq<(Id, seq<string>)>)
    ensures |r| == |institutes|
    ensures forall i :: 0 <= i < |r| ==> r[i] == (institutes[i].0, find(institutes[i].1))
  {
    seq(|institutes|, i requires 0 <= i < |institutes| => (institutes[i].0, find(institutes[i].1)))
  }

  /** `get_arxiv_geo_lookup` with the intended iteration over the
      resolver's `(id, regions)` items: every institute under its country
      key, then every located EU institute under its regions. */
  function ArxivGeoLookup(institutes: seq<(Id, Coords)>, countries: seq<(Id, string)>,
                          find: Coords -> seq<string>): (r: GeoLookup)
    ensures DistinctKeys(r)
  {
    ReverseIndexMembership(countries, FromPairs(ResolveInstitutes(institutes, find)), "", "");
    BuildReverseIndex(countries, FromPairs(ResolveInstitutes(institutes, find)))
  }

  /** `get_arxiv_geo_lookup` as written, iterating `nuts_lookup.values()`:
      it gets past the loop only when no institute was located, and then
      holds the country keys alone. */
  function ArxivGeoLookupAsWritten(institutes: seq<(Id, Coords)>, countries: seq<(Id, string)>,
                                   find: Coords -> seq<string>): (r: Result<GeoLookup>)
    ensures r.Ok? <==> |institutes| == 0
    ensures r.Ok? ==> r.value == IndexCountries([], countries)
    ensures r.Err? ==> r.error == TypeError || r.error == ValueError
  {
    FromPairsEmpty(ResolveInstitutes(institutes, find));
    IndexRegionsFromValues(IndexCountries([], countries), FromPairs(ResolveInstitutes(institutes, find)))
  }

  /** The located institutes are grouped by id, so each id occurs once. */
  predicate DistinctInstitutes(institutes: seq<(Id, Coords)>)
  {
    forall i, j :: 0 <= i < j < |institutes| ==> institutes[i].0 != institutes[j].0
  }

  /** An institute id is indexed under a key exactly when the key is its
      `iso_` country key or a region the resolver found for its location;
      every key lists each id once, being a set. */
  lemma ArxivGeoLookupMembership(institutes: seq<(Id, Coords)>, countries: seq<(Id, string)>,
                                 find: Coords -> seq<string>, key: string, id: Id)
    requires DistinctInstitutes(institutes)
    ensures id in Members(ArxivGeoLookup(institutes, countries, find), key) <==>
              (exists i :: 0 <= i < |countries| && countries[i].0 == id && key == IsoPrefix + countries[i].1) ||
              (exists i :: 0 <= i < |institutes| && institutes[i].0 == id && key in find(institutes[i].1))
  {
    var resolved := ResolveInstitutes(institutes, find);
    ReverseIndexMembership(countries, FromPairs(resolved), key, id);
    RegionLinkedFromPairs(resolved, key, id);
    assert DistinctKeys(resolved);
    if LastValue(resolved, id).Some? && key in LastValue(resolved, id).value {
      var i :| 0 <= i < |resolved| && resolved[i].0 == id by {
        assert Get(FromPairs(resolved), id).Some?;
        if forall i :: 0 <= i < |resolved| ==> resolved[i].0 != id {
          LastValueAbsent(resolved, id);
        }
      }
      LastValueAt(resolved, i);
    }
    if exists i :: 0 <= i < |institutes| && institutes[i].0 == id && key in find(institutes[i].1) {
      var i :| 0 <= i < |institutes| && institutes[i].0 == id && key in find(institutes[i].1);
      LastValueAt(resolved, i);
    }
  }

  /** One located institute makes the loop as written fail, while the
      intended index lists it under its region. */
  lemma AsWrittenArxivLookupFails(find: Coords -> seq<string>)
    requires find(Coords(52.2, 0.1)) == ["UKH1"]
    ensures var institutes := [("grid.5335.0", Coords(52.2, 0.1))];
            ArxivGeoLookupAsWritten(institutes, [("grid.5335.0", "GB")], find).Err? &&
            "grid.5335.0" in Members(ArxivGeoLookup(institutes, [("grid.5335.0", "GB")], find), "UKH1")
  {
    var institutes := [("grid.5335.0", Coords(52.2, 0.1))];
    ArxivGeoLookupMembership(institutes, [("grid.5335.0", "GB")], find, "UKH1", "grid.5335.0");
    assert institutes[0].0 == "grid.5335.0" && "UKH1" in find(institutes[0].1);
  }

  /** `get_arxiv_articles`: the whole list with no code, or, per lookup
      entry and in lookup order, the articles whose id the entry lists,
      with the entry's code. `idOf` is the id the split tests: the
      article's own `id`, while the lookup lists institute ids. */
  function GetArxivArticles<A>(articles: seq<A>, idOf: A -> Id, lookup: GeoLookup,
                               geoSplit: bool): (ys: seq<(seq<A>, Option<string>)>)
    ensures !geoSplit ==> ys == [(articles, None)]
    ensures geoSplit ==> |ys| == |lookup|
    ensures geoSplit ==> forall k :: 0 <= k < |ys| ==> ys[k].1 == Some(lookup[k].0) && |ys[k].0| <= |articles|
  {
    if geoSplit then
      seq(|lookup|, k requires 0 <= k < |lookup| => (Filter((a: A) => idOf(a) in lookup[k].1, articles), Some(lookup[k].0)))
    else [(articles, None)]
  }

  /** A filter is the selection by the mask of its predicate. */
  lemma {:induction false} FilterIsSelect<T>(p: T -> bool, s: seq<T>, mask: seq<bool>)
    requires |mask| == |s| && forall i :: 0 <= i < |s| ==> (mask[i] <==> p(s[i]))
    ensures Filter(p, s) == Select(s, mask)
  {
    if |s| > 0 {
      var n := |s| - 1;
      FilterIsSelect(p, s[..n], mask[..n]);
    }
  }

  /** The articles yielded for a code are, in their original order, the
      rows the core generator's mask for that code selects: the two
      generators split the same way. */
  lemma ArxivSplitIsMaskSelection<A>(articles: seq<A>, idOf: A -> Id, lookup: GeoLookup, k: nat)
    requires k < |lookup|
    ensures var masks := GeoSplit(articles, idOf, lookup);
            GetArxivArticles(articles, idOf, lookup, true)[k].0 == Select(articles, masks[k].mask)
  {
    var masks := GeoSplit(articles, idOf, lookup);
    FilterIsSelect((a: A) => idOf(a) in lookup[k].1, articles, masks[k].mask);
  }

  /** An article is yielded for a code exactly when it is among the
      articles and its id is listed under the code. */
  lemma ArxivSplitMembership<A>(articles: seq<A>, idOf: A -> Id, lookup: GeoLookup, k: nat, x: A)
    requires k < |lookup|
    ensures x in GetArxivArticles(articles, idOf, lookup, true)[k].0 <==> x in articles && idOf(x) in lookup[k].1
  {
    FilterMultiset((a: A) => idOf(a) in lookup[k].1, articles, x);
    assert x in GetArxivArticles(articles, idOf, lookup, true)[k].0 <==>
           x in multiset(Filter((a: A) => idOf(a) in lookup[k].1, articles));
  }
}
