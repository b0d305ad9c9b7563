/** `object_getter`: the generator every dataset module's indicators start
    from, either the whole object list or one row mask per geography code.
 */
module CoreUtils {

  import opened Results
  import opened Config
  import opened GeoIndex
  import opened Frames

  /** One item yielded by the generator. */
  datatype Yield<T> =
    | Objects(items: seq<T>)                  // the whole object list
    | Split(mask: seq<bool>, code: string)     // rows located in `code`

  /** The geo-split items for an object list: one mask per lookup entry,
      in lookup order, flagging the objects whose id the entry lists. */
  function GeoSplit<T>(objects: seq<T>, idOf: T -> Id, lookup: GeoLookup): (ys: seq<Yield<T>>)
    ensures |ys| == |lookup|
    ensures forall k :: 0 <= k < |ys| ==>
              ys[k].Split? && ys[k].code == lookup[k].0 && |ys[k].mask| == |objects|
    ensures forall k, i :: 0 <= k < |ys| && 0 <= i < |objects| ==>
              (ys[k].mask[i] <==> idOf(objects[i]) in lookup[k].1)
  {
    var ids := seq(|objects|, i requires 0 <= i < |objects| => idOf(objects[i]));
    var masks := GeoMasks(ids, lookup);
    seq(|masks|, k requires 0 <= k < |masks| => Split(masks[k].0, masks[k].1))
  }

  /** The generator's items, in order. `getObjects` stands for the dataset
      module's query from a creation date, `idOf` for `obj["id"]` and
      `lookup` for the geography index of the same module. */
  function ObjectGetter<T>(getObjects: int -> seq<T>, idOf: T -> Id, dates: Dates,
                           lookup: GeoLookup, geoSplit: bool): (ys: seq<Yield<T>>)
    ensures !geoSplit ==> ys == [Objects(getObjects(dates.precovid.fromDate))]
    ensures geoSplit ==> |ys| == |lookup|
    ensures geoSplit ==> forall k :: 0 <= k < |ys| ==>
              ys[k].Split? && ys[k].code == lookup[k].0 &&
              |ys[k].mask| == |getObjects(dates.precovid.fromDate)|
    ensures geoSplit ==> forall k, i :: 0 <= k < |ys| && 0 <= i < |getObjects(dates.precovid.fromDate)| ==>
              (ys[k].mask[i] <==> idOf(getObjects(dates.precovid.fromDate)[i]) in lookup[k].1)
  {
    var objects := getObjects(dates.precovid.fromDate);
    if geoSplit then GeoSplit(objects, idOf, lookup) else [Objects(objects)]
  }

  /** `list(generator)[0]`: the first item, or `IndexError` when the
      generator yields nothing. */
  function FirstYield<T>(ys: seq<Yield<T>>): (r: Result<Yield<T>>)
    ensures r.Err? <==> |ys| == 0
    ensures r.Err? ==> r.error == IndexError
    ensures r.Ok? ==> r.value == ys[0]
  {
    if |ys| == 0 then Err(IndexError) else Ok(ys[0])
  }

  /** Slicing the objects by a yielded mask gives exactly the objects whose
      id the lookup lists under that code. */
  lemma ObjectGetterSlice<T>(getObjects: int -> seq<T>, idOf: T -> Id, dates: Dates,
                             lookup: GeoLookup, k: nat, x: T)
    requires k < |lookup|
    ensures var objects := getObjects(dates.precovid.fromDate);
            var ys := ObjectGetter(getObjects, idOf, dates, lookup, true);
            x in Select(objects, ys[k].mask) <==> x in objects && idOf(x) in lookup[k].1
  {
    var objects := getObjects(dates.precovid.fromDate);
    var ys := ObjectGetter(getObjects, idOf, dates, lookup, true);
    SelectMembership(objects, ys[k].mask, x);
  }
}
