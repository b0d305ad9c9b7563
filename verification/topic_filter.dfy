/** Topic post-processing: naming each topic after its leading words, and
    removing the uninformative topics of a document-by-topic weight table,
    those present in too many documents and those with one- or two-word
    names.
 */
module TopicFilter {

  import opened Results
  import opened Strings
  import opened OrderedDicts
  import opened Frames
  import opened Sorting

  /** The number of words a topic name is built from. */
  const NameWords: nat := 5

  /** `"_".join([x[0] for x in values[:5]])` over a topic's (word, weight)
      pairs, heaviest first. */
  function TopicName(words: seq<(string, real)>): (name: string)
  {
    var n := if |words| < NameWords then |words| else NameWords;
    Join("_", seq(n, i requires 0 <= i < n => words[i].0))
  }

  /** The name is made of the first five words, or of all of them when
      there are fewer: splitting it on `_` gives them back, as long as no
      word holds an underscore itself. */
  lemma TopicNameWords(words: seq<(string, real)>)
    requires |words| >= 1
    requires forall i :: 0 <= i < |words| ==> '_' !in words[i].0
    ensures var n := if |words| < NameWords then |words| else NameWords;
            var parts := Split(TopicName(words), '_');
            |parts| == n && forall i :: 0 <= i < n ==> parts[i] == words[i].0
  {
    var n := if |words| < NameWords then |words| else NameWords;
    SplitJoin(seq(n, i requires 0 <= i < n => words[i].0), '_');
  }

  /** Whatever the words hold, the name splits into at least as many
      pieces as it was built from. */
  lemma TopicNamePieces(words: seq<(string, real)>)
    requires |words| >= 1
    ensures var n := if |words| < NameWords then |words| else NameWords;
            |Split(TopicName(words), '_')| >= n
  {
    var n := if |words| < NameWords then |words| else NameWords;
    SplitJoinCount(seq(n, i requires 0 <= i < n => words[i].0), '_');
  }

  /** Hence a short name always comes from a topic of at most two words;
      when no word holds an underscore, the converse holds as well. */
  lemma TopicNameShort(words: seq<(string, real)>)
    ensures ShortName(TopicName(words)) ==> |words| <= 2
    ensures (forall i :: 0 <= i < |words| ==> '_' !in words[i].0) ==>
              (ShortName(TopicName(words)) <==> |words| <= 2)
  {
    if |words| >= 1 {
      TopicNamePieces(words);
      if forall i :: 0 <= i < |words| ==> '_' !in words[i].0 {
        TopicNameWords(words);
      }
    } else {
      assert TopicName(words) == "";
    }
  }

  /** A document-by-topic weight table: one column per topic, one weight
      per document in each column. */
  datatype TopicColumn = TopicColumn(name: string, weights: seq<real>)

  datatype TopicTable = TopicTable(docs: nat, columns: seq<TopicColumn>)

  predicate WellShaped(t: TopicTable)
  {
    forall k :: 0 <= k < |t.columns| ==> |t.columns[k].weights| == t.docs
  }

  /** `post_process_model`: the topic names, in the key order of the word
      mix, label the columns of the topic-by-document matrix `pTwD`
      transposed. The frame constructor raises `ValueError` when the names
      or the document index do not fit the matrix. */
  function PostProcessModel<K>(wordMix: Dict<K, seq<(string, real)>>, pTwD: Matrix, docs: nat): (r: Result<TopicTable>)
    ensures r.Ok? <==> |pTwD| == |wordMix| && forall k :: 0 <= k < |pTwD| ==> |pTwD[k]| == docs
    ensures r.Err? ==> r.error == ValueError
    ensures r.Ok? ==> WellShaped(r.value) && r.value.docs == docs && |r.value.columns| == |wordMix|
    ensures r.Ok? ==> forall k :: 0 <= k < |wordMix| ==>
              r.value.columns[k] == TopicColumn(TopicName(wordMix[k].1), pTwD[k])
  {
    if |pTwD| != |wordMix| || exists k :: 0 <= k < |pTwD| && |pTwD[k]| != docs then Err(ValueError)
    else Ok(TopicTable(docs, seq(|wordMix|, k requires 0 <= k < |wordMix| => TopicColumn(TopicName(wordMix[k].1), pTwD[k]))))
  }

  /** The number of weights strictly above the presence threshold. */
  function PresentCount(weights: seq<real>, presenceThr: real): (n: nat)
    ensures n <= |weights|
  {
    if |weights| == 0 then 0
    else PresentCount(weights[..|weights| - 1], presenceThr) + (if weights[|weights| - 1] > presenceThr then 1 else 0)
  }

  /** The share of documents in which a topic is present: the mean of
      `x > presence_thr` down the column, `None` standing for the `NaN`
      mean of a table with no documents. */
  function Prevalence(c: TopicColumn, presenceThr: real): (p: Option<real>)
    ensures p.Some? <==> |c.weights| > 0
    ensures p.Some? ==> 0.0 <= p.value <= 1.0
  {
    if |c.weights| == 0 then None
    else Some(PresentCount(c.weights, presenceThr) as real / |c.weights| as real)
  }

  /** A topic with its prevalence. */
  datatype Ranked = Ranked(name: string, prevalence: Option<real>)

  function Rank(columns: seq<TopicColumn>, presenceThr: real): (r: seq<Ranked>)
    ensures |r| == |columns|
    ensures forall k :: 0 <= k < |columns| ==> r[k] == Ranked(columns[k].name, Prevalence(columns[k], presenceThr))
  {
    seq(|columns|, k requires 0 <= k < |columns| => Ranked(columns[k].name, Prevalence(columns[k], presenceThr)))
  }

  /** `sort_values(ascending=False)`: higher prevalence first, `NaN` last. */
  function MorePrevalent(): (le: (Ranked, Ranked) -> bool)
  {
    (a: Ranked, b: Ranked) => b.prevalence.None? || (a.prevalence.Some? && a.prevalence.value >= b.prevalence.value)
  }

  lemma MorePrevalentIsPreorder()
    ensures TotalPreorder(MorePrevalent())
  {
    var le := MorePrevalent();
    forall a: Ranked, b: Ranked ensures le(a, b) || le(b, a) {
      if a.prevalence.Some? && b.prevalence.Some? && a.prevalence.value < b.prevalence.value {
        assert le(b, a);
      }
    }
    forall a: Ranked, b: Ranked, c: Ranked | le(a, b) && le(b, c) ensures le(a, c) {
    }
  }

  /** `prevalence > prevalence_thr`; a `NaN` prevalence never is. */
  function Prevalent(prevalenceThr: real): (p: Ranked -> bool)
  {
    (r: Ranked) => r.prevalence.Some? && r.prevalence.value > prevalenceThr
  }

  /** `len(name.split("_")) <= 2` */
  predicate ShortName(name: string)
  {
    |Split(name, '_')| <= 2
  }

  function Short(): (p: Ranked -> bool)
  {
    (r: Ranked) => ShortName(r.name)
  }

  function Names(rs: seq<Ranked>): (names: seq<string>)
    ensures |names| == |rs|
    ensures forall k :: 0 <= k < |rs| ==> names[k] == rs[k].name
  {
    seq(|rs|, k requires 0 <= k < |rs| => rs[k].name)
  }

  /** The topics sorted by decreasing prevalence. Ties keep column order. */
  function Sorted(t: TopicTable, presenceThr: real): seq<Ranked>
  {
    SortBy(MorePrevalent(), Rank(t.columns, presenceThr))
  }

  /** The removed topic names: the prevalent ones, then the short ones,
      each part in decreasing prevalence. */
  function Removed(t: TopicTable, presenceThr: real, prevalenceThr: real): seq<string>
  {
    var sorted := Sorted(t, presenceThr);
    Names(Filter(Prevalent(prevalenceThr), sorted)) + Names(Filter(Short(), sorted))
  }

  function NotRemoved(removed: seq<string>): (p: TopicColumn -> bool)
  {
    (c: TopicColumn) => c.name !in removed
  }

  /** `filter_topics`: the table without the removed columns, and the
      removed names. */
  function FilterTopics(t: TopicTable, presenceThr: real, prevalenceThr: real): (r: (TopicTable, seq<string>))
    ensures r.0.docs == t.docs
    ensures WellShaped(t) ==> WellShaped(r.0)
  {
    var removed := Removed(t, presenceThr, prevalenceThr);
    var kept := Filter(NotRemoved(removed), t.columns);
    assert forall k :: 0 <= k < |kept| ==> kept[k] in t.columns by {
      forall k | 0 <= k < |kept| ensures kept[k] in t.columns {
        FilterMultiset(NotRemoved(removed), t.columns, kept[k]);
        assert kept[k] in multiset(kept);
      }
    }
    (TopicTable(t.docs, kept), removed)
  }

  /** An element of a filtered sorted ranking is a ranked column meeting
      the filter. */
  lemma InFilteredRanking(t: TopicTable, presenceThr: real, p: Ranked -> bool, x: Ranked)
    ensures x in Filter(p, Sorted(t, presenceThr)) <==>
              p(x) && exists k :: 0 <= k < |t.columns| && x == Ranked(t.columns[k].name, Prevalence(t.columns[k], presenceThr))
  {
    var ranked := Rank(t.columns, presenceThr);
    MorePrevalentIsPreorder();
    SortBySpec(MorePrevalent(), ranked);
    FilterMultiset(p, Sorted(t, presenceThr), x);
    assert x in Filter(p, Sorted(t, presenceThr)) <==> x in multiset(Filter(p, Sorted(t, presenceThr)));
    assert x in Sorted(t, presenceThr) <==> x in multiset(ranked);
  }

  /** A name is removed exactly when some column of that name is prevalent
      or the name is short. */
  lemma RemovedMembership(t: TopicTable, presenceThr: real, prevalenceThr: real, name: string)
    ensures name in Removed(t, presenceThr, prevalenceThr) <==>
              exists k :: 0 <= k < |t.columns| && t.columns[k].name == name &&
                (Prevalent(prevalenceThr)(Ranked(name, Prevalence(t.columns[k], presenceThr))) || ShortName(name))
  {
    var sorted := Sorted(t, presenceThr);
    var a := Filter(Prevalent(prevalenceThr), sorted);
    var b := Filter(Short(), sorted);
    assert Removed(t, presenceThr, prevalenceThr) == Names(a) + Names(b);
    if name in Names(a) {
      var i :| 0 <= i < |a| && Names(a)[i] == name;
      InFilteredRanking(t, presenceThr, Prevalent(prevalenceThr), a[i]);
    }
    if name in Names(b) {
      var i :| 0 <= i < |b| && Names(b)[i] == name;
      InFilteredRanking(t, presenceThr, Short(), b[i]);
    }
    if exists k :: 0 <= k < |t.columns| && t.columns[k].name == name &&
         (Prevalent(prevalenceThr)(Ranked(name, Prevalence(t.columns[k], presenceThr))) || ShortName(name)) {
      var k :| 0 <= k < |t.columns| && t.columns[k].name == name &&
         (Prevalent(prevalenceThr)(Ranked(name, Prevalence(t.columns[k], presenceThr))) || ShortName(name));
      var x := Ranked(name, Prevalence(t.columns[k], presenceThr));
      if Prevalent(prevalenceThr)(x) {
        InFilteredRanking(t, presenceThr, Prevalent(prevalenceThr), x);
        var i :| 0 <= i < |a| && a[i] == x;
        assert Names(a)[i] == name;
      } else {
        InFilteredRanking(t, presenceThr, Short(), x);
        var i :| 0 <= i < |b| && b[i] == x;
        assert Names(b)[i] == name;
      }
    }
  }

  /** The filtered table keeps every document and, in their original
      order, exactly the columns whose name was not removed. */
  lemma FilterTopicsKeeps(t: TopicTable, presenceThr: real, prevalenceThr: real, c: TopicColumn)
    ensures var r := FilterTopics(t, presenceThr, prevalenceThr);
            r.0.docs == t.docs &&
            r.0.columns == Filter(NotRemoved(r.1), t.columns) &&
            (c in r.0.columns <==> c in t.columns && c.name !in r.1)
  {
    var r := FilterTopics(t, presenceThr, prevalenceThr);
    FilterMultiset(NotRemoved(r.1), t.columns, c);
    assert c in r.0.columns <==> c in multiset(r.0.columns);
  }

  /** A column survives exactly when it is neither prevalent nor short,
      nor shares its name with a column that is. */
  lemma KeptColumns(t: TopicTable, presenceThr: real, prevalenceThr: real, c: TopicColumn)
    ensures c in FilterTopics(t, presenceThr, prevalenceThr).0.columns <==>
              c in t.columns && !ShortName(c.name) &&
              forall k :: 0 <= k < |t.columns| && t.columns[k].name == c.name ==>
                !Prevalent(prevalenceThr)(Ranked(c.name, Prevalence(t.columns[k], presenceThr)))
  {
    FilterTopicsKeeps(t, presenceThr, prevalenceThr, c);
    RemovedMembership(t, presenceThr, prevalenceThr, c.name);
    if c in t.columns {
      var k :| 0 <= k < |t.columns| && t.columns[k] == c;
      assert t.columns[k].name == c.name;
    }
  }

  /** Both parts of the removed list are in decreasing prevalence. */
  lemma RemovedOrder(t: TopicTable, presenceThr: real, prevalenceThr: real)
    ensures SortedBy(MorePrevalent(), Filter(Prevalent(prevalenceThr), Sorted(t, presenceThr)))
    ensures SortedBy(MorePrevalent(), Filter(Short(), Sorted(t, presenceThr)))
  {
    MorePrevalentIsPreorder();
    SortBySpec(MorePrevalent(), Rank(t.columns, presenceThr));
    FilterSorted(MorePrevalent(), Prevalent(prevalenceThr), Sorted(t, presenceThr));
    FilterSorted(MorePrevalent(), Short(), Sorted(t, presenceThr));
  }

  /** With distinct column names, a topic that is both prevalent and short
      is listed twice among the removed names. */
  lemma PrevalentShortListedTwice(t: TopicTable, presenceThr: real, prevalenceThr: real, k: nat)
    requires k < |t.columns|
    requires forall i, j :: 0 <= i < j < |t.columns| ==> t.columns[i].name != t.columns[j].name
    requires Prevalent(prevalenceThr)(Ranked(t.columns[k].name, Prevalence(t.columns[k], presenceThr)))
    requires ShortName(t.columns[k].name)
    ensures multiset(Removed(t, presenceThr, prevalenceThr))[t.columns[k].name] == 2
  {
    var name := t.columns[k].name;
    var x := Ranked(name, Prevalence(t.columns[k], presenceThr));
    var ranked := Rank(t.columns, presenceThr);
    var sorted := Sorted(t, presenceThr);
    var a := Filter(Prevalent(prevalenceThr), sorted);
    var b := Filter(Short(), sorted);
    MorePrevalentIsPreorder();
    SortBySpec(MorePrevalent(), ranked);
    NamesCount(ranked, name, x);
    assert multiset(sorted) == multiset(ranked);
    FilterMultiset(Prevalent(prevalenceThr), sorted, x);
    FilterMultiset(Short(), sorted, x);
    forall y: Ranked | y in multiset(a) ensures y.name == name ==> y == x {
      FilterMultiset(Prevalent(prevalenceThr), sorted, y);
      assert y in ranked;
    }
    forall y: Ranked | y in multiset(b) ensures y.name == name ==> y == x {
      FilterMultiset(Short(), sorted, y);
      assert y in ranked;
    }
    NameCountIsOne(a, name, x);
    NameCountIsOne(b, name, x);
  }

  /** With distinct names, the only ranked entry carrying a column's name
      is that column's, and it occurs once. */
  lemma NamesCount(ranked: seq<Ranked>, name: string, x: Ranked)
    requires x in ranked && x.name == name
    requires forall i, j :: 0 <= i < j < |ranked| ==> ranked[i].name != ranked[j].name
    ensures multiset(ranked)[x] == 1
    ensures forall y :: y in ranked && y.name == name ==> y == x
  {
    UniqueByName(ranked, x);
    var i :| 0 <= i < |ranked| && ranked[i] == x;
    forall y | y in ranked && y.name == name ensures y == x {
      var j :| 0 <= j < |ranked| && ranked[j] == y;
      assert j == i;
    }
  }

  /** An element of a list with distinct names occurs once. */
  lemma {:induction false} UniqueByName(rs: seq<Ranked>, x: Ranked)
    requires x in rs
    requires forall i, j :: 0 <= i < j < |rs| ==> rs[i].name != rs[j].name
    ensures multiset(rs)[x] == 1
  {
    var n := |rs| - 1;
    assert rs == rs[..n] + [rs[n]];
    if rs[n] == x {
      assert x !in rs[..n] by {
        forall j | 0 <= j < n ensures rs[..n][j] != x {
          assert rs[..n][j] == rs[j];
        }
      }
    } else {
      assert forall a, b :: 0 <= a < b < n ==> rs[..n][a] == rs[a] && rs[..n][b] == rs[b];
      UniqueByName(rs[..n], x);
    }
  }

  /** If `x` occurs once and is the only element named `name`, the names
      list `name` once. */
  lemma {:induction false} NameCountIsOne(rs: seq<Ranked>, name: string, x: Ranked)
    requires x.name == name && multiset(rs)[x] == 1
    requires forall y :: y in multiset(rs) && y.name == name ==> y == x
    ensures multiset(Names(rs))[name] == 1
  {
    NameCount(rs, name, x);
  }

  lemma {:induction false} NameCount(rs: seq<Ranked>, name: string, x: Ranked)
    requires x.name == name
    requires forall y :: y in multiset(rs) && y.name == name ==> y == x
    ensures multiset(Names(rs))[name] == multiset(rs)[x]
  {
    if |rs| > 0 {
      var n := |rs| - 1;
      assert rs == rs[..n] + [rs[n]];
      assert Names(rs) == Names(rs[..n]) + [rs[n].name];
      forall y | y in multiset(rs[..n]) && y.name == name ensures y == x {
        assert y in multiset(rs);
      }
      NameCount(rs[..n], name, x);
      assert rs[n] in multiset(rs);
    }
  }

  /** Filtering is idempotent: the filtered table of a filtered table has
      nothing left to remove and is unchanged. */
  lemma FilterTopicsIdempotent(t: TopicTable, presenceThr: real, prevalenceThr: real)
    ensures var once := FilterTopics(t, presenceThr, prevalenceThr).0;
            FilterTopics(once, presenceThr, prevalenceThr) == (once, [])
  {
    var once := FilterTopics(t, presenceThr, prevalenceThr).0;
    var ranked := Rank(once.columns, presenceThr);
    var sorted := Sorted(once, presenceThr);
    MorePrevalentIsPreorder();
    SortBySpec(MorePrevalent(), ranked);
    forall i | 0 <= i < |sorted| ensures !Prevalent(prevalenceThr)(sorted[i]) && !Short()(sorted[i]) {
      assert sorted[i] in multiset(ranked);
      var k :| 0 <= k < |ranked| && ranked[k] == sorted[i];
      KeptRankIsClean(t, presenceThr, prevalenceThr, k);
    }
    FilterNone(Prevalent(prevalenceThr), sorted);
    FilterNone(Short(), sorted);
    assert Removed(once, presenceThr, prevalenceThr) == Names([]) + Names([]);
    FilterAll(NotRemoved([]), once.columns);
  }

  /** A kept topic is neither prevalent nor short. */
  lemma KeptRankIsClean(t: TopicTable, presenceThr: real, prevalenceThr: real, k: nat)
    requires k < |FilterTopics(t, presenceThr, prevalenceThr).0.columns|
    ensures var c := FilterTopics(t, presenceThr, prevalenceThr).0.columns[k];
            var r := Ranked(c.name, Prevalence(c, presenceThr));
            !Prevalent(prevalenceThr)(r) && !Short()(r)
  {
    var c := FilterTopics(t, presenceThr, prevalenceThr).0.columns[k];
    FilterTopicsKeeps(t, presenceThr, prevalenceThr, c);
    var j :| 0 <= j < |t.columns| && t.columns[j] == c;
    KeptColumns(t, presenceThr, prevalenceThr, c);
    assert t.columns[j].name == c.name;
  }

  /** A topic named after two words is removed even when it is rare. */
  lemma ShortTopicRemoved(presenceThr: real, prevalenceThr: real, docs: nat, weights: seq<real>)
    requires |weights| == docs
    ensures var t := TopicTable(docs, [TopicColumn("covid_vaccine", weights)]);
            FilterTopics(t, presenceThr, prevalenceThr).0.columns == [] &&
            "covid_vaccine" in FilterTopics(t, presenceThr, prevalenceThr).1
  {
    var c := TopicColumn("covid_vaccine", weights);
    var t := TopicTable(docs, [c]);
    CovidVaccineIsShort();
    var removed := Removed(t, presenceThr, prevalenceThr);
    assert "covid_vaccine" in removed by {
      RemovedMembership(t, presenceThr, prevalenceThr, "covid_vaccine");
      assert t.columns[0].name == "covid_vaccine";
    }
    assert Filter(NotRemoved(removed), [c]) == [] by {
      assert [c][..0] == [];
      assert !NotRemoved(removed)(c);
    }
  }

  lemma CovidVaccineIsShort()
    ensures ShortName("covid_vaccine")
  {
    SplitWithoutSeparator("vaccine", '_');
    SplitAfterPiece("covid", '_', "vaccine");
    assert "covid" + ['_'] + "vaccine" == "covid_vaccine";
  }
}
