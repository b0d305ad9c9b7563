/** Conversions between ISO country codes and NUTS codes, and the NUTS
    region lookup built from the NUTS shape file's features.
 */
module NutsUtils {

  import opened Results

  /** What the lookup keeps for one NUTS region. */
  datatype NutsInfo = NutsInfo(name: string, level: int, code: string)

  /** The `properties` of one feature of the NUTS shape file. */
  datatype Feature = Feature(nutsId: string, nameLatn: string, levlCode: int)

  /** `iso_to_nuts`: `None` outside the EU country list; the two countries
      whose ISO and NUTS-1 codes differ are renamed. */
  function IsoToNuts(eu: set<string>, iso: string): (r: Option<string>)
    ensures r.None? <==> iso !in eu
    ensures iso in eu && iso == "GB" ==> r == Some("UK")
    ensures iso in eu && iso == "GR" ==> r == Some("EL")
    ensures iso in eu && iso != "GB" && iso != "GR" ==> r == Some(iso)
  {
    if iso !in eu then None
    else if iso == "GB" then Some("UK")
    else if iso == "GR" then Some("EL")
    else Some(iso)
  }

  /** The inverse renaming, from a NUTS-1 code back to the ISO code. */
  function NutsToIso(nuts: string): string
  {
    if nuts == "UK" then "GB" else if nuts == "EL" then "GR" else nuts
  }

  /** As long as the EU list does not itself hold the NUTS spellings UK and
      EL, converting to NUTS and back gives the ISO code again, so no two
      EU countries share a NUTS code. */
  lemma IsoToNutsRoundTrip(eu: set<string>, iso: string, iso': string)
    requires "UK" !in eu && "EL" !in eu
    requires iso in eu && iso' in eu
    ensures IsoToNuts(eu, iso).Some? && NutsToIso(IsoToNuts(eu, iso).value) == iso
    ensures IsoToNuts(eu, iso) == IsoToNuts(eu, iso') ==> iso == iso'
  {
  }

  function InfoOf(f: Feature): NutsInfo
  {
    NutsInfo(f.nameLatn, f.levlCode, f.nutsId)
  }

  /** The dict comprehension of `get_nuts_info_lookup`, keyed by NUTS id;
      a repeated id keeps its last feature. */
  function NutsInfoLookup(features: seq<Feature>): (lookup: map<string, NutsInfo>)
    ensures lookup.Keys == set i | 0 <= i < |features| :: features[i].nutsId
    ensures forall k :: k in lookup ==> lookup[k].code == k
  {
    if |features| == 0 then map[]
    else
      var n := |features| - 1;
      var prefix := NutsInfoLookup(features[..n]);
      assert forall i :: 0 <= i < n ==> features[..n][i] == features[i];
      prefix[features[n].nutsId := InfoOf(features[n])]
  }

  /** The entry of an id is built from the last feature carrying it. */
  lemma {:induction false} NutsInfoLookupLast(features: seq<Feature>, j: nat)
    requires j < |features|
    requires forall k :: j < k < |features| ==> features[k].nutsId != features[j].nutsId
    ensures NutsInfoLookup(features)[features[j].nutsId] == InfoOf(features[j])
  {
    var n := |features| - 1;
    if j < n {
      assert forall k :: j < k < n ==> features[..n][k] == features[k];
      NutsInfoLookupLast(features[..n], j);
    }
  }
}
