/** The activity indicators of one dataset: per-topic activity in a date
    window, its ratio to the pre-covid expectation, the split between
    covid-tagged and other objects, and thematic diversity.

    Objects and the topic label matrix are aligned row by row; the columns
    of the label matrix are the topics, named by `names`. Dates are day
    numbers. The Shannon diversity of a count vector is the parameter
    `shannon`.
 */
module ThematicIndicators {

  import opened Results
  import opened Strings
  import opened Config
  import opened Frames
  import opened IndicatorUtils

  /** One object of a dataset: its id, its creation day and its funding,
      which the database may hold as NULL. */
  datatype Obj = Obj(id: string, created: int, funding: Option<real>)

  /** The factor an object's label row is multiplied by when weighting. A
      NULL funding is NaN to pandas: it turns the row into NaN, which
      `sum` skips and `== 1` rejects, exactly as it treats a row of zeros,
      so the model weighs such a row by zero. */
  function FundingWeight(o: Obj): real
  {
    match o.funding
    case Some(f) => f
    case None => 0.0
  }

  function Created(objs: seq<Obj>): (r: seq<int>)
    ensures |r| == |objs|
    ensures forall i :: 0 <= i < |objs| ==> r[i] == objs[i].created
  {
    seq(|objs|, i requires 0 <= i < |objs| => objs[i].created)
  }

  /** `(created > from_date) & (created < to_date)`: both ends excluded. */
  function InWindow(created: seq<int>, w: Window): (r: seq<bool>)
    ensures |r| == |created|
    ensures forall i :: 0 <= i < |created| ==> (r[i] <==> w.fromDate < created[i] < w.toDate)
  {
    seq(|created|, i requires 0 <= i < |created| => w.fromDate < created[i] && created[i] < w.toDate)
  }

  /** Selecting rows commutes with computing the window mask. */
  lemma {:induction false} InWindowSelect(created: seq<int>, w: Window, mask: seq<bool>)
    requires |mask| == |created|
    ensures InWindow(Select(created, mask), w) == Select(InWindow(created, w), mask)
  {
    if |created| > 0 {
      var n := |created| - 1;
      InWindowSelect(created[..n], w, mask[..n]);
      assert InWindow(created, w)[..n] == InWindow(created[..n], w);
      var head := Select(created[..n], mask[..n]);
      if mask[n] {
        assert Select(created, mask) == head + [created[n]];
        assert InWindow(head + [created[n]], w)[..|head|] == InWindow(head, w);
      }
    }
  }

  /** The window length `total_days + 1` that the normalisation divides by. */
  function WindowDays(w: Window): int
  {
    w.toDate - w.fromDate + 1
  }

  /** `days_of_covid / (total_days + 1)`: scales an activity count to the
      length of the covid window. */
  function Norm(dates: Dates, w: Window): real
    requires WindowDays(w) != 0
  {
    DaysOfCovid(dates.covid) as real / WindowDays(w) as real
  }

  /** Over the covid window itself the normalisation is exactly one. */
  lemma CovidNormIsOne(dates: Dates)
    requires WindowDays(dates.covid) != 0
    ensures Norm(dates, dates.covid) == 1.0
  {
    var d := WindowDays(dates.covid) as real;
    assert DaysOfCovid(dates.covid) as real == d && d != 0.0;
    assert d / d == 1.0;
  }

  /** The rows `sum_activity` counts: inside the window, and inside the
      indexer when one is given. */
  function ActivityMask(created: seq<int>, w: Window, indexer: Option<seq<bool>>): (r: seq<bool>)
    requires indexer.Some? ==> |indexer.value| == |created|
    ensures |r| == |created|
    ensures forall i :: 0 <= i < |created| ==>
              (r[i] <==> w.fromDate < created[i] < w.toDate && (indexer.Some? ==> indexer.value[i]))
  {
    match indexer
    case None => InWindow(created, w)
    case Some(mask) => And(mask, InWindow(created, w))
  }

  /** `sum_activity`: the normalised per-topic sum of the labels of the
      objects (optionally restricted by `indexer`) created strictly inside
      the window of `period`. A window of length zero divides by zero. */
  function SumActivity(created: seq<int>, labels: Matrix, cols: nat, dates: Dates, period: Period,
                       indexer: Option<seq<bool>>): (r: Result<Series>)
    requires |created| == |labels| && Shaped(labels, cols)
    requires indexer.Some? ==> |indexer.value| == |labels|
    ensures r.Err? <==> WindowDays(WindowOf(dates, period)) == 0
    ensures r.Err? ==> r.error == ZeroDivisionError
    ensures r.Ok? ==> |r.value| == cols
  {
    var w := WindowOf(dates, period);
    if WindowDays(w) == 0 then Err(ZeroDivisionError)
    else if indexer.Some? then
      var mask := indexer.value;
      SelectShaped(labels, mask, cols);
      Ok(Scale(ColumnSums(Select(labels, mask), cols, InWindow(Select(created, mask), w)), Norm(dates, w)))
    else
      Ok(Scale(ColumnSums(labels, cols, InWindow(created, w)), Norm(dates, w)))
  }

  /** Summing the rows an indexer selects, under the window mask of the
      selected rows, is summing the original rows under both masks. */
  lemma IndexedColumnSum(created: seq<int>, labels: Matrix, cols: nat, w: Window, mask: seq<bool>, j: nat)
    requires |created| == |labels| == |mask| && Shaped(labels, cols) && j < cols
    ensures Shaped(Select(labels, mask), cols)
    ensures ColumnSums(Select(labels, mask), cols, InWindow(Select(created, mask), w))[j] ==
              ColumnSum(labels, j, And(mask, InWindow(created, w)))
  {
    SelectShaped(labels, mask, cols);
    InWindowSelect(created, w, mask);
    SelectColumnSum(labels, cols, j, mask, InWindow(created, w));
  }

  /** With an indexer, a topic's activity is the normalised sum of its
      labels over the rows inside both the indexer and the window. */
  lemma SumActivityIndexedValue(created: seq<int>, labels: Matrix, cols: nat, dates: Dates, period: Period,
                                mask: seq<bool>, j: nat)
    requires |created| == |labels| == |mask| && Shaped(labels, cols) && j < cols
    requires WindowDays(WindowOf(dates, period)) != 0
    ensures SumActivity(created, labels, cols, dates, period, Some(mask)).value[j] ==
              Norm(dates, WindowOf(dates, period)) * ColumnSum(labels, j, And(mask, InWindow(created, WindowOf(dates, period))))
  {
    var w := WindowOf(dates, period);
    SelectShaped(labels, mask, cols);
    var sums := ColumnSums(Select(labels, mask), cols, InWindow(Select(created, mask), w));
    assert SumActivity(created, labels, cols, dates, period, Some(mask)).value == Scale(sums, Norm(dates, w));
    IndexedColumnSum(created, labels, cols, w, mask, j);
  }

  /** Without an indexer, a topic's activity is the normalised sum of its
      labels over the rows inside the window. */
  lemma SumActivityAllValue(created: seq<int>, labels: Matrix, cols: nat, dates: Dates, period: Period, j: nat)
    requires |created| == |labels| && Shaped(labels, cols) && j < cols
    requires WindowDays(WindowOf(dates, period)) != 0
    ensures SumActivity(created, labels, cols, dates, period, None).value[j] ==
              Norm(dates, WindowOf(dates, period)) * ColumnSum(labels, j, InWindow(created, WindowOf(dates, period)))
  {
    var w := WindowOf(dates, period);
    var sums := ColumnSums(labels, cols, InWindow(created, w));
    assert SumActivity(created, labels, cols, dates, period, None).value == Scale(sums, Norm(dates, w));
  }

  /** Each topic's activity is the normalised sum of its labels over the
      counted rows: slicing by the indexer first and by the window second
      counts exactly the rows inside both. */
  lemma SumActivityValue(created: seq<int>, labels: Matrix, cols: nat, dates: Dates, period: Period,
                         indexer: Option<seq<bool>>, j: nat)
    requires |created| == |labels| && Shaped(labels, cols)
    requires indexer.Some? ==> |indexer.value| == |labels|
    requires j < cols && SumActivity(created, labels, cols, dates, period, indexer).Ok?
    ensures SumActivity(created, labels, cols, dates, period, indexer).value[j] ==
              Norm(dates, WindowOf(dates, period)) *
              ColumnSum(labels, j, ActivityMask(created, WindowOf(dates, period), indexer))
  {
    var w := WindowOf(dates, period);
    if indexer.Some? {
      SumActivityIndexedValue(created, labels, cols, dates, period, indexer.value, j);
      assert ActivityMask(created, w, indexer) == And(indexer.value, InWindow(created, w));
    } else {
      SumActivityAllValue(created, labels, cols, dates, period, j);
      assert ActivityMask(created, w, indexer) == InWindow(created, w);
    }
  }

  /** `relative_activity`: covid-window activity over the normalised
      pre-covid activity, keeping the numerator where the past is zero. */
  function RelativeActivity(created: seq<int>, labels: Matrix, cols: nat, dates: Dates,
                            indexer: Option<seq<bool>>): (r: Result<Series>)
    requires |created| == |labels| && Shaped(labels, cols)
    requires indexer.Some? ==> |indexer.value| == |labels|
    ensures r.Ok? <==> WindowDays(dates.covid) != 0 && WindowDays(dates.precovid) != 0
    ensures r.Ok? ==>
              var now := SumActivity(created, labels, cols, dates, Covid, indexer).value;
              var past := SumActivity(created, labels, cols, dates, Precovid, indexer).value;
              |r.value| == cols &&
              forall j :: 0 <= j < cols ==>
                r.value[j] == if past[j] == 0.0 then now[j] else now[j] / past[j]
  {
    var now :- SumActivity(created, labels, cols, dates, Covid, indexer);
    var past :- SumActivity(created, labels, cols, dates, Precovid, indexer);
    Ok(SafeDivide(now, past))
  }

  /** The rows `thematic_diversity` counts: created after the covid start
      and inside the given mask. */
  function DiversityMask(created: seq<int>, dates: Dates, isCovid: seq<bool>): (r: seq<bool>)
    requires |isCovid| == |created|
    ensures |r| == |created|
    ensures forall i :: 0 <= i < |created| ==> (r[i] <==> created[i] > dates.covid.fromDate && isCovid[i])
  {
    seq(|created|, i requires 0 <= i < |created| => created[i] > dates.covid.fromDate && isCovid[i])
  }

  /** `thematic_diversity`: the Shannon diversity of the per-topic counts of
      the masked rows created after the covid start. */
  function ThematicDiversity(created: seq<int>, labels: Matrix, cols: nat, dates: Dates, isCovid: seq<bool>,
                             shannon: Series -> real): real
    requires |created| == |labels| && |isCovid| == |labels| && Shaped(labels, cols)
  {
    shannon(ColumnSums(labels, cols, DiversityMask(created, dates, isCovid)))
  }

  /** Diversity reads only the labels of rows it counts. */
  lemma DiversityFrame(created: seq<int>, labels: Matrix, labels': Matrix, cols: nat, dates: Dates,
                       isCovid: seq<bool>, shannon: Series -> real)
    requires |created| == |labels| == |labels'| == |isCovid| && Shaped(labels, cols) && Shaped(labels', cols)
    requires forall i :: 0 <= i < |labels| && created[i] > dates.covid.fromDate && isCovid[i] ==> labels[i] == labels'[i]
    ensures ThematicDiversity(created, labels, cols, dates, isCovid, shannon) ==
            ThematicDiversity(created, labels', cols, dates, isCovid, shannon)
  {
    var mask := DiversityMask(created, dates, isCovid);
    forall j | 0 <= j < cols
      ensures ColumnSum(labels, j, mask) == ColumnSum(labels', j, mask)
    {
      ColumnSumFrame(labels, labels', cols, j, mask);
    }
    assert ColumnSums(labels, cols, mask) == ColumnSums(labels', cols, mask);
  }

  /** The counts behind the covid and the non-covid diversity add up to the
      counts of every row created after the covid start. */
  lemma DiversityCountsSplit(created: seq<int>, labels: Matrix, cols: nat, dates: Dates, isCovid: seq<bool>, j: nat)
    requires |created| == |labels| == |isCovid| && Shaped(labels, cols) && j < cols
    ensures var after := seq(|created|, i requires 0 <= i < |created| => created[i] > dates.covid.fromDate);
            ColumnSum(labels, j, DiversityMask(created, dates, isCovid)) +
            ColumnSum(labels, j, DiversityMask(created, dates, Not(isCovid))) ==
            ColumnSum(labels, j, after)
  {
    var after := seq(|created|, i requires 0 <= i < |created| => created[i] > dates.covid.fromDate);
    SplitColumnSum(labels, cols, j, isCovid, after);
    assert DiversityMask(created, dates, isCovid) == And(isCovid, after);
    assert DiversityMask(created, dates, Not(isCovid)) == And(Not(isCovid), after);
  }

  /** `covid_filterer`: the fixed rule naming a topic covid-related. */
  predicate CovidFilterer(topic: string)
  {
    Contains(topic, "covid") || Contains(topic, "covid-19") || Contains(topic, "coronavirus")
  }

  /** The term `covid-19` adds nothing: a topic is covid-related exactly
      when it mentions `covid` or `coronavirus`, case-sensitively. */
  lemma CovidFiltererTerms(topic: string)
    ensures CovidFilterer(topic) <==> Contains(topic, "covid") || Contains(topic, "coronavirus")
  {
    if Contains(topic, "covid-19") {
      assert "covid" + "-19" == "covid-19";
      ContainsShorterNeedle(topic, "covid", "-19");
    }
  }

  /** The position of the first covid-related topic, in column order. */
  function FirstCovidTopic(names: seq<string>): (r: Option<nat>)
    ensures r.None? <==> forall j :: 0 <= j < |names| ==> !CovidFilterer(names[j])
    ensures r.Some? ==> r.value < |names| && CovidFilterer(names[r.value]) &&
                        forall j :: 0 <= j < r.value ==> !CovidFilterer(names[j])
  {
    if |names| == 0 then None
    else if CovidFilterer(names[0]) then Some(0)
    else match FirstCovidTopic(names[1..])
         case None => None
         case Some(k) => Some(k + 1)
  }

  /** `covid_topic_indexer`: the rows whose label in the first covid-related
      topic equals one; `[0]` of an empty list raises `IndexError`. */
  function CovidTopicIndexer(names: seq<string>, labels: Matrix): (r: Result<seq<bool>>)
    requires Shaped(labels, |names|)
    ensures r.Err? <==> FirstCovidTopic(names).None?
    ensures r.Err? ==> r.error == IndexError
    ensures r.Ok? ==> |r.value| == |labels|
    ensures r.Ok? ==> forall i :: 0 <= i < |labels| ==> (r.value[i] <==> labels[i][FirstCovidTopic(names).value] == 1.0)
  {
    match FirstCovidTopic(names)
    case None => Err(IndexError)
    case Some(j) => Ok(seq(|labels|, i requires 0 <= i < |labels| => labels[i][j] == 1.0))
  }

  /** `get_objects_and_topics`: the objects and label rows in the geography,
      with every label row scaled by its object's funding when weighting. */
  function ObjectsAndTopics(objects: seq<Obj>, labels: Matrix, cols: nat, geo: seq<bool>, weighted: bool): (r: (seq<Obj>, Matrix))
    requires |objects| == |labels| == |geo| && Shaped(labels, cols)
    ensures r.0 == Select(objects, geo)
    ensures |r.1| == |r.0| && Shaped(r.1, cols) && Shaped(Select(labels, geo), cols)
    ensures !weighted ==> r.1 == Select(labels, geo)
    ensures weighted ==> forall i, j :: 0 <= i < |r.1| && 0 <= j < cols && r.0[i].funding.Some? ==>
                           r.1[i][j] == Select(labels, geo)[i][j] * r.0[i].funding.value
    ensures weighted ==> forall i, j :: 0 <= i < |r.1| && 0 <= j < cols && r.0[i].funding.None? ==>
                           r.1[i][j] == 0.0
  {
    var objs := Select(objects, geo);
    var topics := Select(labels, geo);
    SelectShaped(labels, geo, cols);
    if weighted then
      (objs, ScaleRows(topics, seq(|objs|, i requires 0 <= i < |objs| => FundingWeight(objs[i]))))
    else
      (objs, topics)
  }

  /** With weighting, an object without funding is counted nowhere: no
      column sum changes when its row is left out, and its label never
      equals one, so no covid mask read from the weighted labels holds it. */
  lemma UnfundedObjectNotCounted(objects: seq<Obj>, labels: Matrix, cols: nat, geo: seq<bool>,
                                 sel: seq<bool>, i: nat, j: nat)
    requires |objects| == |labels| == |geo| && Shaped(labels, cols)
    requires var ot := ObjectsAndTopics(objects, labels, cols, geo, true);
             |sel| == |ot.1| && i < |ot.1| && j < cols && ot.0[i].funding.None?
    ensures var ot := ObjectsAndTopics(objects, labels, cols, geo, true);
            ColumnSum(ot.1, j, sel) == ColumnSum(ot.1, j, sel[i := false]) && ot.1[i][j] != 1.0
  {
    var ot := ObjectsAndTopics(objects, labels, cols, geo, true);
    ZeroEntryNotCounted(ot.1, j, sel, i);
  }

  /** The indicator names of one dataset and geography. */
  const TotalActivity: string := "total_activity"
  const Relative: string := "relative_activity"
  const RelativeCovid: string := "relative_activity_covid"
  const RelativeNoncovid: string := "relative_activity_noncovid"
  const Diversity: string := "thematic_diversity"
  const Overrepresentation: string := "overrepresentation_activity"
  const CovidProjects: string := "covid-related-projects"
  const NoncovidProjects: string := "non-covid-related-projects"

  /** The intermediate series of `generate_indicators`, before they are
      turned into dicts. */
  datatype Parts = Parts(total: Series, rel: Series, relCovid: Series, relNoncovid: Series,
                         divCovid: real, divNoncovid: real)

  /** Everything `generate_indicators` computes from the objects and label
      rows of one geography. The covid mask is read from `maskRows`. The
      mask is computed first, so a dataset without a covid topic fails with
      `IndexError` before any window is looked at. */
  function ComputeParts(objs: seq<Obj>, topics: Matrix, maskRows: Matrix, names: seq<string>, dates: Dates,
                        shannon: Series -> real): (r: Result<Parts>)
    requires |topics| == |objs| == |maskRows| && Shaped(topics, |names|) && Shaped(maskRows, |names|)
    ensures r.Ok? <==> FirstCovidTopic(names).Some? && WindowDays(dates.covid) != 0 && WindowDays(dates.precovid) != 0
    ensures r.Err? && FirstCovidTopic(names).None? ==> r.error == IndexError
    ensures r.Err? && FirstCovidTopic(names).Some? ==> r.error == ZeroDivisionError
    ensures r.Ok? ==> |r.value.total| == |r.value.rel| == |r.value.relCovid| == |r.value.relNoncovid| == |names|
  {
    var cols := |names|;
    match CovidTopicIndexer(names, maskRows)
    case Err(e) => Err(e)
    case Ok(isCovid) =>
      var created := Created(objs);
      if WindowDays(dates.covid) == 0 || WindowDays(dates.precovid) == 0 then Err(ZeroDivisionError)
      else
        Ok(Parts(SumActivity(created, topics, cols, dates, Covid, None).value,
                 RelativeActivity(created, topics, cols, dates, None).value,
                 RelativeActivity(created, topics, cols, dates, Some(isCovid)).value,
                 RelativeActivity(created, topics, cols, dates, Some(Not(isCovid))).value,
                 ThematicDiversity(created, topics, cols, dates, isCovid, shannon),
                 ThematicDiversity(created, topics, cols, dates, Not(isCovid), shannon)))
  }

  /** Total activity is the raw count in the covid window, since the
      normalisation of that window is one. */
  lemma TotalActivityIsRawCount(objs: seq<Obj>, topics: Matrix, maskRows: Matrix, names: seq<string>, dates: Dates,
                                shannon: Series -> real, j: nat)
    requires |topics| == |objs| == |maskRows| && Shaped(topics, |names|) && Shaped(maskRows, |names|)
    requires j < |names| && ComputeParts(objs, topics, maskRows, names, dates, shannon).Ok?
    ensures ComputeParts(objs, topics, maskRows, names, dates, shannon).value.total[j] ==
              ColumnSum(topics, j, InWindow(Created(objs), dates.covid))
  {
    SumActivityValue(Created(objs), topics, |names|, dates, Covid, None, j);
    CovidNormIsOne(dates);
  }

  /** The result dict: each series keyed by topic name. The stored
      non-covid series is passed separately so that the code as written
      can store its mutated copy. */
  function Assemble(names: seq<string>, p: Parts, storedNoncovid: Series): (r: Indicators)
    requires |p.total| == |p.rel| == |p.relCovid| == |p.relNoncovid| == |storedNoncovid| == |names|
    ensures r.Keys == {TotalActivity, Relative, RelativeCovid, RelativeNoncovid, Diversity, Overrepresentation}
    ensures r[Diversity].Keys == {CovidProjects, NoncovidProjects}
    ensures forall k :: k in r && k != Diversity ==> r[k].Keys == set t | t in names
  {
    map[TotalActivity := ToDict(names, p.total),
        Relative := ToDict(names, p.rel),
        RelativeCovid := ToDict(names, p.relCovid),
        RelativeNoncovid := ToDict(names, storedNoncovid),
        Diversity := map[CovidProjects := p.divCovid, NoncovidProjects := p.divNoncovid],
        Overrepresentation := ToDict(names, SafeDivide(p.relCovid, p.relNoncovid))]
  }

  /** The entries of one topic, which the last column of that name gives. */
  lemma AssembleAt(names: seq<string>, p: Parts, storedNoncovid: Series, j: nat)
    requires |p.total| == |p.rel| == |p.relCovid| == |p.relNoncovid| == |storedNoncovid| == |names|
    requires j < |names| && forall k :: j < k < |names| ==> names[k] != names[j]
    ensures var r := Assemble(names, p, storedNoncovid);
            var t := names[j];
            r[TotalActivity][t] == p.total[j] && r[Relative][t] == p.rel[j] &&
            r[RelativeCovid][t] == p.relCovid[j] && r[RelativeNoncovid][t] == storedNoncovid[j] &&
            r[Overrepresentation][t] ==
              (if p.relNoncovid[j] == 0.0 then p.relCovid[j] else p.relCovid[j] / p.relNoncovid[j])
  {
    ToDictLast(names, p.total, j);
    ToDictLast(names, p.rel, j);
    ToDictLast(names, p.relCovid, j);
    ToDictLast(names, storedNoncovid, j);
    ToDictLast(names, SafeDivide(p.relCovid, p.relNoncovid), j);
  }

  /** The six indicators of a dataset in one geography. */
  type Indicators = map<string, map<string, real>>

  /** `generate_indicators` with the covid mask read from the unweighted
      labels and the stored non-covid series left untouched. */
  function GenerateIndicators(objects: seq<Obj>, labels: Matrix, names: seq<string>, dates: Dates, geo: seq<bool>,
                              weighted: bool, shannon: Series -> real): (r: Result<Indicators>)
    requires |objects| == |labels| == |geo| && Shaped(labels, |names|)
    ensures r.Ok? <==> FirstCovidTopic(names).Some? && WindowDays(dates.covid) != 0 && WindowDays(dates.precovid) != 0
    ensures r.Err? && FirstCovidTopic(names).None? ==> r.error == IndexError
    ensures r.Err? && FirstCovidTopic(names).Some? ==> r.error == ZeroDivisionError
    ensures r.Ok? ==> r.value.Keys == {TotalActivity, Relative, RelativeCovid, RelativeNoncovid, Diversity, Overrepresentation}
    ensures r.Ok? ==> r.value[Diversity].Keys == {CovidProjects, NoncovidProjects}
  {
    var ot := ObjectsAndTopics(objects, labels, |names|, geo, weighted);
    match ComputeParts(ot.0, ot.1, Select(labels, geo), names, dates, shannon)
    case Err(e) => Err(e)
    case Ok(p) => Ok(Assemble(names, p, p.relNoncovid))
  }

  /** `generate_indicators` as written: the covid mask is read from the
      weighted labels, and `safe_divide` rewrites the zeros of the stored
      non-covid series to one before it is turned into a dict. */
  function GenerateIndicatorsAsWritten(objects: seq<Obj>, labels: Matrix, names: seq<string>, dates: Dates,
                                       geo: seq<bool>, weighted: bool, shannon: Series -> real): (r: Result<Indicators>)
    requires |objects| == |labels| == |geo| && Shaped(labels, |names|)
    ensures r.Ok? <==> FirstCovidTopic(names).Some? && WindowDays(dates.covid) != 0 && WindowDays(dates.precovid) != 0
    ensures r.Ok? ==> r.value.Keys == {TotalActivity, Relative, RelativeCovid, RelativeNoncovid, Diversity, Overrepresentation}
  {
    var ot := ObjectsAndTopics(objects, labels, |names|, geo, weighted);
    match ComputeParts(ot.0, ot.1, ot.1, names, dates, shannon)
    case Err(e) => Err(e)
    case Ok(p) => Ok(Assemble(names, p, ReplaceZeros(p.relNoncovid)))
  }

  /** What the indicators mean, topic by topic: total activity is the raw
      count of objects created inside the covid window, and the
      over-representation ratio is the covid relative activity over the
      stored non-covid one, kept as is where the latter is zero. */
  lemma GenerateIndicatorsMeaning(objects: seq<Obj>, labels: Matrix, names: seq<string>, dates: Dates, geo: seq<bool>,
                                  weighted: bool, shannon: Series -> real, j: nat)
    requires |objects| == |labels| == |geo| && Shaped(labels, |names|)
    requires j < |names| && forall k :: j < k < |names| ==> names[k] != names[j]
    requires GenerateIndicators(objects, labels, names, dates, geo, weighted, shannon).Ok?
    ensures var r := GenerateIndicators(objects, labels, names, dates, geo, weighted, shannon).value;
            var ot := ObjectsAndTopics(objects, labels, |names|, geo, weighted);
            var t := names[j];
            r[TotalActivity][t] == ColumnSum(ot.1, j, InWindow(Created(ot.0), dates.covid)) &&
            r[Overrepresentation][t] ==
              (if r[RelativeNoncovid][t] == 0.0 then r[RelativeCovid][t]
               else r[RelativeCovid][t] / r[RelativeNoncovid][t])
  {
    var ot := ObjectsAndTopics(objects, labels, |names|, geo, weighted);
    var p := ComputeParts(ot.0, ot.1, Select(labels, geo), names, dates, shannon).value;
    TotalActivityIsRawCount(ot.0, ot.1, Select(labels, geo), names, dates, shannon, j);
    AssembleAt(names, p, p.relNoncovid, j);
  }

  /** Which rows feed which series: the three relative activities are
      taken over every row, over the rows of the covid mask and over the
      others; the two diversities over the rows of the covid mask and over
      the others. */
  lemma ComputePartsMasks(objs: seq<Obj>, topics: Matrix, maskRows: Matrix, names: seq<string>, dates: Dates,
                          shannon: Series -> real)
    requires |topics| == |objs| == |maskRows| && Shaped(topics, |names|) && Shaped(maskRows, |names|)
    requires ComputeParts(objs, topics, maskRows, names, dates, shannon).Ok?
    ensures var p := ComputeParts(objs, topics, maskRows, names, dates, shannon).value;
            var isCovid := CovidTopicIndexer(names, maskRows).value;
            var created := Created(objs);
            p.rel == RelativeActivity(created, topics, |names|, dates, None).value &&
            p.relCovid == RelativeActivity(created, topics, |names|, dates, Some(isCovid)).value &&
            p.relNoncovid == RelativeActivity(created, topics, |names|, dates, Some(Not(isCovid))).value &&
            p.divCovid == ThematicDiversity(created, topics, |names|, dates, isCovid, shannon) &&
            p.divNoncovid == ThematicDiversity(created, topics, |names|, dates, Not(isCovid), shannon)
  {
  }

  /** The relative activity of a topic is taken over every object, over
      the covid-tagged ones and over the others, the covid tag being read
      from the unweighted labels. */
  lemma GenerateIndicatorsRelative(objects: seq<Obj>, labels: Matrix, names: seq<string>, dates: Dates, geo: seq<bool>,
                                   weighted: bool, shannon: Series -> real, j: nat)
    requires |objects| == |labels| == |geo| && Shaped(labels, |names|)
    requires j < |names| && forall k :: j < k < |names| ==> names[k] != names[j]
    requires GenerateIndicators(objects, labels, names, dates, geo, weighted, shannon).Ok?
    ensures var r := GenerateIndicators(objects, labels, names, dates, geo, weighted, shannon).value;
            var ot := ObjectsAndTopics(objects, labels, |names|, geo, weighted);
            var isCovid := CovidTopicIndexer(names, Select(labels, geo)).value;
            var created := Created(ot.0);
            var t := names[j];
            r[Relative][t] == RelativeActivity(created, ot.1, |names|, dates, None).value[j] &&
            r[RelativeCovid][t] == RelativeActivity(created, ot.1, |names|, dates, Some(isCovid)).value[j] &&
            r[RelativeNoncovid][t] == RelativeActivity(created, ot.1, |names|, dates, Some(Not(isCovid))).value[j]
  {
    var ot := ObjectsAndTopics(objects, labels, |names|, geo, weighted);
    var p := ComputeParts(ot.0, ot.1, Select(labels, geo), names, dates, shannon).value;
    ComputePartsMasks(ot.0, ot.1, Select(labels, geo), names, dates, shannon);
    AssembleAt(names, p, p.relNoncovid, j);
  }

  /** The covid diversity is that of the covid-tagged objects, the other
      one that of the rest. */
  lemma GenerateIndicatorsDiversity(objects: seq<Obj>, labels: Matrix, names: seq<string>, dates: Dates, geo: seq<bool>,
                                    weighted: bool, shannon: Series -> real)
    requires |objects| == |labels| == |geo| && Shaped(labels, |names|)
    requires GenerateIndicators(objects, labels, names, dates, geo, weighted, shannon).Ok?
    ensures var r := GenerateIndicators(objects, labels, names, dates, geo, weighted, shannon).value;
            var ot := ObjectsAndTopics(objects, labels, |names|, geo, weighted);
            var isCovid := CovidTopicIndexer(names, Select(labels, geo)).value;
            r[Diversity][CovidProjects] == ThematicDiversity(Created(ot.0), ot.1, |names|, dates, isCovid, shannon) &&
            r[Diversity][NoncovidProjects] == ThematicDiversity(Created(ot.0), ot.1, |names|, dates, Not(isCovid), shannon)
  {
    var ot := ObjectsAndTopics(objects, labels, |names|, geo, weighted);
    ComputePartsMasks(ot.0, ot.1, Select(labels, geo), names, dates, shannon);
  }

  /** Without weighting the two versions read the covid mask from the same
      labels, and they differ only in the stored non-covid series: where
      the intended relative activity is zero, the code as written stores
      one, while the over-representation it derives is unchanged. */
  lemma AsWrittenStoresOneForZero(objects: seq<Obj>, labels: Matrix, names: seq<string>, dates: Dates,
                                  geo: seq<bool>, shannon: Series -> real, j: nat)
    requires |objects| == |labels| == |geo| && Shaped(labels, |names|)
    requires j < |names| && forall k :: j < k < |names| ==> names[k] != names[j]
    requires GenerateIndicators(objects, labels, names, dates, geo, false, shannon).Ok?
    ensures var fixed := GenerateIndicators(objects, labels, names, dates, geo, false, shannon).value;
            var written := GenerateIndicatorsAsWritten(objects, labels, names, dates, geo, false, shannon).value;
            var t := names[j];
            written[RelativeCovid][t] == fixed[RelativeCovid][t] &&
            written[Overrepresentation][t] == fixed[Overrepresentation][t] &&
            written[RelativeNoncovid][t] == (if fixed[RelativeNoncovid][t] == 0.0 then 1.0 else fixed[RelativeNoncovid][t])
  {
    var ot := ObjectsAndTopics(objects, labels, |names|, geo, false);
    var p := ComputeParts(ot.0, ot.1, ot.1, names, dates, shannon).value;
    AssembleAt(names, p, p.relNoncovid, j);
    AssembleAt(names, p, ReplaceZeros(p.relNoncovid), j);
  }

  /** The single topic `covid` is the covid-related one. */
  lemma CovidIsFirstTopic()
    ensures FirstCovidTopic(["covid"]) == Some(0)
  {
    assert StartsWith("covid", "covid");
    assert CovidFilterer("covid");
  }

  /** The covid mask of a single row under the single topic `covid`. */
  lemma SingleRowMask(m: Matrix)
    requires |m| == 1 && |m[0]| == 1
    ensures CovidTopicIndexer(["covid"], m) == Ok([m[0][0] == 1.0])
  {
    CovidIsFirstTopic();
    var r := CovidTopicIndexer(["covid"], m);
    assert r.Ok? && |r.value| == 1 && (r.value[0] <==> m[0][0] == 1.0);
    assert r.value == [m[0][0] == 1.0];
  }

  /** Weighting a single selected object scales its label by its funding. */
  lemma SingleWeightedRow(o: Obj, x: real)
    requires o.funding.Some?
    ensures Select([[x]], [true]) == [[x]]
    ensures ObjectsAndTopics([o], [[x]], 1, [true], true).1 == [[x * o.funding.value]]
  {
    assert Select([[x]], [true]) == [[x]];
    var ot := ObjectsAndTopics([o], [[x]], 1, [true], true);
    assert Select([o], [true]) == [o];
    assert |ot.1| == 1 && |ot.1[0]| == 1;
    assert ot.1[0][0] == x * o.funding.value;
    assert ot.1[0] == [x * o.funding.value];
  }

  /** With funding weights, a covid-labelled object whose funding is not
      one drops out of the covid mask as written, but not out of the
      intended mask read from the unweighted labels. */
  lemma AsWrittenMaskMissesFundedObject()
    ensures var ot := ObjectsAndTopics([Obj("p", 0, Some(2.0))], [[1.0]], 1, [true], true);
            CovidTopicIndexer(["covid"], ot.1) == Ok([false]) &&
            CovidTopicIndexer(["covid"], Select([[1.0]], [true])) == Ok([true])
  {
    SingleWeightedRow(Obj("p", 0, Some(2.0)), 1.0);
    SingleRowMask([[2.0]]);
    SingleRowMask([[1.0]]);
  }

  /** Whether `generate_indicators` succeeds for a dataset: it needs a
      covid-related topic and two windows of non-zero length. */
  predicate Computable(names: seq<string>, dates: Dates)
  {
    FirstCovidTopic(names).Some? && WindowDays(dates.covid) != 0 && WindowDays(dates.precovid) != 0
  }

  /** The geographic splits of a dataset: one row mask per region code. */
  type Splits = seq<(seq<bool>, string)>

  predicate SplitsFit(splits: Splits, n: nat)
  {
    forall k :: 0 <= k < |splits| ==> |splits[k].0| == n
  }

  /** The keys of keyed items. */
  function KeysOf<A>(items: seq<(A, string)>): set<string>
  {
    set k | 0 <= k < |items| :: items[k].1
  }

  /** `{key: f(x) for x, key in items}`, raising the first error. */
  function CollectAll<A, V>(items: seq<(A, string)>, f: A -> Result<V>): (r: Result<map<string, V>>)
    ensures r.Ok? <==> forall k :: 0 <= k < |items| ==> f(items[k].0).Ok?
    ensures r.Err? ==> exists k :: 0 <= k < |items| && f(items[k].0) == Err(r.error)
    ensures r.Ok? ==> r.value.Keys == KeysOf(items)
  {
    if |items| == 0 then Ok(map[])
    else
      var n := |items| - 1;
      assert forall k :: 0 <= k < n ==> items[..n][k] == items[k];
      assert KeysOf(items) == KeysOf(items[..n]) + {items[n].1} by {
        forall c | c in KeysOf(items) ensures c in KeysOf(items[..n]) + {items[n].1} {
          var k :| 0 <= k < |items| && items[k].1 == c;
          if k < n { assert items[..n][k] == items[k]; }
        }
      }
      match CollectAll(items[..n], f)
      case Err(e) => Err(e)
      case Ok(head) =>
        match f(items[n].0)
        case Err(e) => Err(e)
        case Ok(v) => Ok(head[items[n].1 := v])
  }

  /** The entry of a key is the value of its last item. */
  lemma {:induction false} CollectAllAt<A, V>(items: seq<(A, string)>, f: A -> Result<V>, k: nat)
    requires k < |items| && forall k' :: k < k' < |items| ==> items[k'].1 != items[k].1
    requires CollectAll(items, f).Ok?
    ensures items[k].1 in CollectAll(items, f).value
    ensures Ok(CollectAll(items, f).value[items[k].1]) == f(items[k].0)
  {
    var n := |items| - 1;
    assert forall k' :: 0 <= k' < n ==> items[..n][k'] == items[k'];
    if k < n {
      CollectAllAt(items[..n], f, k);
    }
  }

  /** `generate_indicators` for a geography mask of any length: pandas
      rejects a boolean indexer whose length is not the frame's with
      `IndexError`. */
  function GenerateAt(objects: seq<Obj>, labels: Matrix, names: seq<string>, dates: Dates, weighted: bool,
                      shannon: Series -> real, geo: seq<bool>): (r: Result<Indicators>)
    requires |objects| == |labels| && Shaped(labels, |names|)
    ensures |geo| == |objects| ==> r == GenerateIndicators(objects, labels, names, dates, geo, weighted, shannon)
    ensures |geo| != |objects| ==> r == Err(IndexError)
  {
    if |geo| == |objects| then GenerateIndicators(objects, labels, names, dates, geo, weighted, shannon)
    else Err(IndexError)
  }

  /** `indicators_by_geo`: the indicators of every geographic split, keyed
      by region code; the first split that fails stops the whole dict. */
  function IndicatorsByGeo(objects: seq<Obj>, labels: Matrix, names: seq<string>, dates: Dates, splits: Splits,
                           weighted: bool, shannon: Series -> real): (r: Result<map<string, Indicators>>)
    requires |objects| == |labels| && Shaped(labels, |names|) && SplitsFit(splits, |objects|)
    ensures r.Ok? <==> |splits| == 0 || Computable(names, dates)
    ensures r.Err? ==> r.error == (if FirstCovidTopic(names).None? then IndexError else ZeroDivisionError)
    ensures r.Ok? ==> r.value.Keys == KeysOf(splits)
  {
    CollectAll(splits, (geo: seq<bool>) => GenerateAt(objects, labels, names, dates, weighted, shannon, geo))
  }

  /** The entry of a region code is the indicators of its split. */
  lemma IndicatorsByGeoAt(objects: seq<Obj>, labels: Matrix, names: seq<string>, dates: Dates,
                          splits: Splits, weighted: bool, shannon: Series -> real, k: nat)
    requires |objects| == |labels| && Shaped(labels, |names|) && SplitsFit(splits, |objects|)
    requires k < |splits| && forall k' :: k < k' < |splits| ==> splits[k'].1 != splits[k].1
    requires IndicatorsByGeo(objects, labels, names, dates, splits, weighted, shannon).Ok?
    ensures splits[k].1 in IndicatorsByGeo(objects, labels, names, dates, splits, weighted, shannon).value
    ensures Ok(IndicatorsByGeo(objects, labels, names, dates, splits, weighted, shannon).value[splits[k].1]) ==
              GenerateIndicators(objects, labels, names, dates, splits[k].0, weighted, shannon)
  {
    CollectAllAt(splits, (geo: seq<bool>) => GenerateAt(objects, labels, names, dates, weighted, shannon, geo), k);
  }

  /** One dataset module as `make_indicators` sees it: its label, its
      objects and topic labels, its geographic splits, and whether its
      configuration names a funding currency. */
  datatype DatasetModule = DatasetModule(datasetLabel: string, objects: seq<Obj>, labels: Matrix, names: seq<string>,
                                         splits: Splits, hasFundingCurrency: bool)

  predicate WellFormed(m: DatasetModule)
  {
    |m.objects| == |m.labels| && Shaped(m.labels, |m.names|) && SplitsFit(m.splits, |m.objects|)
  }

  /** `indicators_by_geo` succeeds on the module. */
  predicate ModuleComputable(m: DatasetModule, dates: Dates)
  {
    |m.splits| == 0 || Computable(m.names, dates)
  }

  /** The funding indicators are keyed by the label with this suffix. */
  function FundingLabel(dataset: string): string
  {
    dataset + "-funding"
  }

  /** The keys `make_indicators` produces for the funding test `funded`:
      every dataset label, and the funding label of every funded module. */
  function IndicatorKeys(modules: seq<DatasetModule>, funded: DatasetModule -> bool): set<string>
  {
    if |modules| == 0 then {}
    else
      var m := modules[|modules| - 1];
      IndicatorKeys(modules[..|modules| - 1], funded) + {m.datasetLabel} +
      (if funded(m) then {FundingLabel(m.datasetLabel)} else {})
  }

  /** A key is a module's label or the funding label of a funded module. */
  lemma {:induction false} IndicatorKeysMembership(modules: seq<DatasetModule>, funded: DatasetModule -> bool, c: string)
    ensures c in IndicatorKeys(modules, funded) <==>
              (exists i :: 0 <= i < |modules| && modules[i].datasetLabel == c) ||
              (exists i :: 0 <= i < |modules| && funded(modules[i]) && FundingLabel(modules[i].datasetLabel) == c)
  {
    if |modules| > 0 {
      var n := |modules| - 1;
      IndicatorKeysMembership(modules[..n], funded, c);
      if exists i :: 0 <= i < |modules| && modules[i].datasetLabel == c {
        var i :| 0 <= i < |modules| && modules[i].datasetLabel == c;
        if i < n { assert modules[..n][i] == modules[i]; }
      }
      if exists i :: 0 <= i < |modules| && funded(modules[i]) && FundingLabel(modules[i].datasetLabel) == c {
        var i :| 0 <= i < |modules| && funded(modules[i]) && FundingLabel(modules[i].datasetLabel) == c;
        if i < n { assert modules[..n][i] == modules[i]; }
      }
      if exists i :: 0 <= i < n && modules[..n][i].datasetLabel == c {
        var i :| 0 <= i < n && modules[..n][i].datasetLabel == c;
        assert modules[i] == modules[..n][i];
      }
      if exists i :: 0 <= i < n && funded(modules[..n][i]) && FundingLabel(modules[..n][i].datasetLabel) == c {
        var i :| 0 <= i < n && funded(modules[..n][i]) && FundingLabel(modules[..n][i].datasetLabel) == c;
        assert modules[i] == modules[..n][i];
      }
    }
  }

  /** The loop of `make_indicators` over any per-module computation
      `byGeo(module, weighted)`: count indicators for every module, then
      funding-weighted ones when `funded` holds; the first error stops the
      loop. */
  function CollectModules<V>(modules: seq<DatasetModule>, funded: DatasetModule -> bool,
                             byGeo: (DatasetModule, bool) --> Result<V>): (r: Result<map<string, V>>)
    requires forall i, w :: 0 <= i < |modules| ==> byGeo.requires(modules[i], w)
    ensures r.Ok? ==> r.value.Keys == IndicatorKeys(modules, funded)
  {
    if |modules| == 0 then Ok(map[])
    else
      var n := |modules| - 1;
      var m := modules[n];
      assert forall i :: 0 <= i < n ==> modules[..n][i] == modules[i];
      match CollectModules(modules[..n], funded, byGeo)
      case Err(e) => Err(e)
      case Ok(head) =>
        match byGeo(m, false)
        case Err(e) => Err(e)
        case Ok(counts) =>
          if !funded(m) then Ok(head[m.datasetLabel := counts])
          else
            match byGeo(m, true)
            case Err(e) => Err(e)
            case Ok(funding) => Ok(head[m.datasetLabel := counts][FundingLabel(m.datasetLabel) := funding])
  }

  /** The loop fails exactly when one of the computations it runs fails. */
  lemma {:induction false} CollectModulesOk<V>(modules: seq<DatasetModule>, funded: DatasetModule -> bool,
                                               byGeo: (DatasetModule, bool) --> Result<V>)
    requires forall i, w :: 0 <= i < |modules| ==> byGeo.requires(modules[i], w)
    ensures CollectModules(modules, funded, byGeo).Ok? <==>
              forall i :: 0 <= i < |modules| ==>
                byGeo(modules[i], false).Ok? && (funded(modules[i]) ==> byGeo(modules[i], true).Ok?)
  {
    if |modules| > 0 {
      var n := |modules| - 1;
      assert forall i :: 0 <= i < n ==> modules[..n][i] == modules[i];
      CollectModulesOk(modules[..n], funded, byGeo);
    }
  }

  /** The key a module's indicators go under: its label for the counts,
      its funding label for the funding-weighted ones. */
  function IndicatorKey(m: DatasetModule, weighted: bool): string
  {
    if weighted then FundingLabel(m.datasetLabel) else m.datasetLabel
  }

  /** The loop body for `m` assigns the key `c`. */
  predicate Writes(m: DatasetModule, funded: DatasetModule -> bool, c: string)
  {
    m.datasetLabel == c || (funded(m) && FundingLabel(m.datasetLabel) == c)
  }

  /** A funding label is never the label it was made from. */
  lemma FundingLabelDiffers(dataset: string)
    ensures FundingLabel(dataset) != dataset
  {
    assert |FundingLabel(dataset)| == |dataset| + 8;
  }

  /** Each key holds what the last module assigning it computed: the
      counts of module `i` under its label and, when it is funded, its
      funding-weighted indicators under its funding label, unless a later
      module assigns the same key. */
  lemma {:induction false} CollectModulesAt<V>(modules: seq<DatasetModule>, funded: DatasetModule -> bool,
                                               byGeo: (DatasetModule, bool) --> Result<V>, i: nat, weighted: bool)
    requires forall i, w :: 0 <= i < |modules| ==> byGeo.requires(modules[i], w)
    requires i < |modules| && (weighted ==> funded(modules[i]))
    requires forall j :: i < j < |modules| ==> !Writes(modules[j], funded, IndicatorKey(modules[i], weighted))
    requires CollectModules(modules, funded, byGeo).Ok?
    ensures IndicatorKey(modules[i], weighted) in CollectModules(modules, funded, byGeo).value
    ensures Ok(CollectModules(modules, funded, byGeo).value[IndicatorKey(modules[i], weighted)]) ==
              byGeo(modules[i], weighted)
  {
    var n := |modules| - 1;
    var c := IndicatorKey(modules[i], weighted);
    var m := modules[n];
    assert forall k :: 0 <= k < n ==> modules[..n][k] == modules[k];
    FundingLabelDiffers(m.datasetLabel);
    if i < n {
      CollectModulesAt(modules[..n], funded, byGeo, i, weighted);
      assert !Writes(m, funded, c);
    }
  }

  /** `indicators_by_geo` of a well-formed module. */
  function ModuleByGeo(dates: Dates, shannon: Series -> real): (f: (DatasetModule, bool) --> Result<map<string, Indicators>>)
    ensures forall m, w :: WellFormed(m) ==> f.requires(m, w)
  {
    (m: DatasetModule, weighted: bool) requires WellFormed(m) =>
      IndicatorsByGeo(m.objects, m.labels, m.names, dates, m.splits, weighted, shannon)
  }

  /** `make_indicators` for the funding test `funded`. */
  function MakeIndicatorsWith(modules: seq<DatasetModule>, dates: Dates, shannon: Series -> real,
                              funded: DatasetModule -> bool): (r: Result<map<string, map<string, Indicators>>>)
    requires forall i :: 0 <= i < |modules| ==> WellFormed(modules[i])
    ensures r.Ok? <==> forall i :: 0 <= i < |modules| ==> ModuleComputable(modules[i], dates)
    ensures r.Ok? ==> r.value.Keys == IndicatorKeys(modules, funded)
  {
    CollectModulesOk(modules, funded, ModuleByGeo(dates, shannon));
    CollectModules(modules, funded, ModuleByGeo(dates, shannon))
  }

  /** `make_indicators` with funding indicators for every module whose
      configuration names a funding currency. */
  function MakeIndicators(modules: seq<DatasetModule>, dates: Dates, shannon: Series -> real): (r: Result<map<string, map<string, Indicators>>>)
    requires forall i :: 0 <= i < |modules| ==> WellFormed(modules[i])
    ensures r.Ok? <==> forall i :: 0 <= i < |modules| ==> ModuleComputable(modules[i], dates)
    ensures r.Ok? ==> r.value.Keys == IndicatorKeys(modules, (m: DatasetModule) => m.hasFundingCurrency)
  {
    MakeIndicatorsWith(modules, dates, shannon, (m: DatasetModule) => m.hasFundingCurrency)
  }

  /** In the corrected `make_indicators`, the label of module `i` holds
      its count indicators and, when its configuration names a funding
      currency, its funding label holds its funding-weighted ones, unless a
      later module assigns the same key. */
  lemma MakeIndicatorsAt(modules: seq<DatasetModule>, dates: Dates, shannon: Series -> real, i: nat, weighted: bool)
    requires forall i :: 0 <= i < |modules| ==> WellFormed(modules[i])
    requires i < |modules| && (weighted ==> modules[i].hasFundingCurrency)
    requires forall j :: i < j < |modules| ==>
               !Writes(modules[j], (m: DatasetModule) => m.hasFundingCurrency, IndicatorKey(modules[i], weighted))
    requires MakeIndicators(modules, dates, shannon).Ok?
    ensures var m := modules[i];
            IndicatorKey(m, weighted) in MakeIndicators(modules, dates, shannon).value &&
            Ok(MakeIndicators(modules, dates, shannon).value[IndicatorKey(m, weighted)]) ==
              IndicatorsByGeo(m.objects, m.labels, m.names, dates, m.splits, weighted, shannon)
  {
    CollectModulesAt(modules, (m: DatasetModule) => m.hasFundingCurrency, ModuleByGeo(dates, shannon), i, weighted);
  }

  /** `make_indicators` as written: it looks for `funding_currency` inside
      the dataset label string instead of the configuration. */
  function MakeIndicatorsAsWritten(modules: seq<DatasetModule>, dates: Dates, shannon: Series -> real): (r: Result<map<string, map<string, Indicators>>>)
    requires forall i :: 0 <= i < |modules| ==> WellFormed(modules[i])
    ensures r.Ok? <==> forall i :: 0 <= i < |modules| ==> ModuleComputable(modules[i], dates)
    ensures r.Ok? ==> r.value.Keys == IndicatorKeys(modules, (m: DatasetModule) => Contains(m.datasetLabel, "funding_currency"))
  {
    MakeIndicatorsWith(modules, dates, shannon, (m: DatasetModule) => Contains(m.datasetLabel, "funding_currency"))
  }

  /** A label shorter than `funding_currency` never contains it. */
  lemma {:induction false} ShortLabelLacksFundingCurrency(dataset: string)
    requires |dataset| < |"funding_currency"|
    ensures !Contains(dataset, "funding_currency")
    decreases |dataset|
  {
    if |dataset| > 0 {
      ShortLabelLacksFundingCurrency(dataset[1..]);
    }
  }

  /** A funded dataset labelled `nih` gets its funding indicators only in
      the intended version: the label test as written never holds. */
  lemma AsWrittenDropsFundingIndicators(dates: Dates, shannon: Series -> real)
    ensures var nih := DatasetModule("nih", [], [], ["covid"], [], true);
            MakeIndicators([nih], dates, shannon).Ok? &&
            FundingLabel("nih") in MakeIndicators([nih], dates, shannon).value &&
            MakeIndicatorsAsWritten([nih], dates, shannon).Ok? &&
            FundingLabel("nih") !in MakeIndicatorsAsWritten([nih], dates, shannon).value
  {
    var nih := DatasetModule("nih", [], [], ["covid"], [], true);
    assert WellFormed(nih);
    ShortLabelLacksFundingCurrency("nih");
    var funded := (m: DatasetModule) => m.hasFundingCurrency;
    assert [nih][0].datasetLabel == "nih" && funded([nih][0]);
    assert FundingLabel("nih") in IndicatorKeys([nih], funded);
    assert "nih" != FundingLabel("nih");
  }
}
