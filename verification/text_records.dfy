/** `join_text` and the record filter that turns project rows into
    documents: a row is kept unless both its public-health relevance
    statement and its abstract are missing, and its text joins the two.
 */
module TextRecords {

  import opened Results
  import opened Strings
  import opened Sorting

  /** `filter(None, args)`: the arguments that are neither `None` nor the
      empty string, in order. */
  function Present(args: seq<Option<string>>): (r: seq<string>)
    ensures |r| <= |args|
    ensures forall k :: 0 <= k < |r| ==> |r[k]| > 0
  {
    if |args| == 0 then []
    else
      var n := |args| - 1;
      Present(args[..n]) + (if args[n].Some? && |args[n].value| > 0 then [args[n].value] else [])
  }

  /** Filtering distributes over concatenation. */
  lemma {:induction false} PresentAppend(xs: seq<Option<string>>, ys: seq<Option<string>>)
    ensures Present(xs + ys) == Present(xs) + Present(ys)
    decreases |ys|
  {
    if |ys| > 0 {
      var n := |ys| - 1;
      PresentAppend(xs, ys[..n]);
      assert (xs + ys)[..|xs + ys| - 1] == xs + ys[..n];
      assert (xs + ys)[|xs + ys| - 1] == ys[n];
      var last := if ys[n].Some? && |ys[n].value| > 0 then [ys[n].value] else [];
      assert Present(xs + ys) == Present(xs + ys[..n]) + last;
      assert Present(ys) == Present(ys[..n]) + last;
    } else {
      assert xs + ys == xs;
    }
  }

  /** A string survives the filter exactly when it is non-empty and given. */
  lemma {:induction false} PresentMembership(args: seq<Option<string>>, x: string)
    ensures x in Present(args) <==> |x| > 0 && Some(x) in args
  {
    if |args| > 0 {
      var n := |args| - 1;
      PresentMembership(args[..n], x);
      assert args == args[..n] + [args[n]];
    }
  }

  /** `' '.join(filter(None, args))` */
  function JoinText(args: seq<Option<string>>): string
  {
    Join(" ", Present(args))
  }

  /** The joined text is empty exactly when every argument is `None` or
      empty; in particular all-`None` arguments give `""`. */
  lemma JoinTextEmpty(args: seq<Option<string>>)
    ensures JoinText(args) == "" <==> forall k :: 0 <= k < |args| ==> args[k].None? || args[k].value == ""
  {
    var ps := Present(args);
    if |ps| > 0 {
      JoinNonEmpty(" ", ps);
      PresentMembership(args, ps[0]);
    } else {
      forall k | 0 <= k < |args| && args[k].Some? ensures args[k].value == "" {
        PresentMembership(args, args[k].value);
      }
    }
  }

  /** Joining a joined text again with more arguments is joining all of
      them at once, since an empty joined text is dropped. */
  lemma JoinTextNested(xs: seq<Option<string>>, ys: seq<Option<string>>)
    ensures JoinText([Some(JoinText(xs))] + ys) == JoinText(xs + ys)
  {
    PresentAppend([Some(JoinText(xs))], ys);
    PresentAppend(xs, ys);
    assert Present([Some(JoinText(xs))]) == Present([] + [Some(JoinText(xs))]);
    if |Present(xs)| == 0 {
      assert Present(xs + ys) == Present(ys);
    } else {
      JoinNonEmpty(" ", Present(xs));
      assert Present([Some(JoinText(xs))]) == [JoinText(xs)];
      JoinFlatten(" ", Present(xs), Present(ys));
    }
  }

  /** When no argument holds a space, splitting the joined text on spaces
      gives back exactly the present arguments. */
  lemma JoinTextSplit(args: seq<Option<string>>)
    requires |Present(args)| > 0
    requires forall k :: 0 <= k < |args| && args[k].Some? ==> ' ' !in args[k].value
    ensures Split(JoinText(args), ' ') == Present(args)
  {
    var ps := Present(args);
    forall k | 0 <= k < |ps| ensures ' ' !in ps[k] {
      PresentMembership(args, ps[k]);
    }
    SplitJoin(ps, ' ');
  }

  /** The filter on a single argument. */
  lemma PresentOne(x: Option<string>)
    ensures Present([x]) == if x.Some? && |x.value| > 0 then [x.value] else []
  {
    assert [x][..0] == [];
  }

  /** The filter on one more argument. */
  lemma PresentSnoc(xs: seq<Option<string>>, x: Option<string>)
    ensures Present(xs + [x]) == Present(xs) + (if x.Some? && |x.value| > 0 then [x.value] else [])
  {
    assert (xs + [x])[..|xs|] == xs;
  }

  /** The filter on the first three arguments of the repository's
      `join_text` test. */
  lemma PresentExampleFront()
    ensures Present([Some("this"), Some("is"), None]) == ["this", "is"]
  {
    PresentOne(Some("this"));
    PresentSnoc([Some("this")], Some("is"));
    assert [Some("this")] + [Some("is")] == [Some("this"), Some("is")];
    PresentSnoc([Some("this"), Some("is")], None);
    assert [Some("this"), Some("is")] + [None] == [Some("this"), Some("is"), None];
  }

  /** The filter on the arguments of the repository's `join_text` test. */
  lemma PresentExample()
    ensures Present([Some("this"), Some("is"), None, Some("some"), None, Some("text")]) == ["this", "is", "some", "text"]
  {
    var front := [Some("this"), Some("is"), None];
    PresentExampleFront();
    PresentSnoc(front, Some("some"));
    var s4 := front + [Some("some")];
    PresentSnoc(s4, None);
    var s5 := s4 + [None];
    PresentSnoc(s5, Some("text"));
    assert s5 + [Some("text")] == [Some("this"), Some("is"), None, Some("some"), None, Some("text")];
  }

  /** Joining four words with spaces. */
  lemma JoinFour(a: string, b: string, c: string, d: string)
    ensures Join(" ", [a, b, c, d]) == a + " " + b + " " + c + " " + d
  {
    assert [a, b, c, d][1..] == [b, c, d] && [b, c, d][1..] == [c, d] && [c, d][1..] == [d];
    assert Join(" ", [c, d]) == c + " " + d;
    assert Join(" ", [b, c, d]) == b + " " + (c + " " + d);
    assert Join(" ", [a, b, c, d]) == a + " " + (b + " " + (c + " " + d));
  }

  /** The repository's `join_text` test. */
  lemma JoinTextExample()
    ensures JoinText([Some("this"), Some("is"), None, Some("some"), None, Some("text")]) == "this is some text"
  {
    PresentExample();
    JoinFour("this", "is", "some", "text");
  }

  /** One row of the project query: id, public-health relevance statement,
      abstract, title, start date and total cost. */
  datatype ProjectRow = ProjectRow(id: string, phr: Option<string>, abstractText: Option<string>,
                                   title: Option<string>, startDate: int, totalCost: Option<real>)

  /** The document built from a row; `funding` is absent from the records
      of the variant that does not query the total cost. */
  datatype Record = Record(id: string, text: string, title: Option<string>, startDate: int,
                           funding: Option<Option<real>>)

  /** The dict keys of a record. */
  function RecordKeys(r: Record): set<string>
  {
    {"id", "text", "title", "start_date"} + (if r.funding.Some? then {"funding"} else {})
  }

  /** The row has something to read: it is dropped only when both texts
      are missing. */
  predicate HasText(row: ProjectRow)
  {
    !(row.phr.None? && row.abstractText.None?)
  }

  function RecordOf(row: ProjectRow, withFunding: bool): Record
  {
    Record(row.id, JoinText([row.phr, row.abstractText]), row.title, row.startDate,
           if withFunding then Some(row.totalCost) else None)
  }

  /** The list comprehension over the query result: `withFunding` selects
      the variant whose records carry the total cost. The k-th record is
      that of the k-th row with some text, so the query order is kept. */
  function ProjectRecords(rows: seq<ProjectRow>, withFunding: bool): (r: seq<Record>)
    ensures |r| == |Filter(HasText, rows)|
    ensures forall k :: 0 <= k < |r| ==> r[k] == RecordOf(Filter(HasText, rows)[k], withFunding)
    ensures forall k :: 0 <= k < |r| ==>
              RecordKeys(r[k]) == {"id", "text", "title", "start_date"} + (if withFunding then {"funding"} else {})
  {
    var kept := Filter(HasText, rows);
    seq(|kept|, k requires 0 <= k < |kept| => RecordOf(kept[k], withFunding))
  }

  /** A record is produced exactly for the rows with some text, and its text is the relevance statement followed by the abstract. */
  lemma ProjectRecordsMembership(rows: seq<ProjectRow>, withFunding: bool, row: ProjectRow)
    ensures RecordOf(row, withFunding) in ProjectRecords(rows, withFunding) <==>
              exists row' :: row' in rows && HasText(row') && RecordOf(row', withFunding) == RecordOf(row, withFunding)
  {
    var kept := Filter(HasText, rows);
    var r := ProjectRecords(rows, withFunding);
    var target := RecordOf(row, withFunding);
    if target in r {
      var k :| 0 <= k < |r| && r[k] == target;
      FilterMultiset(HasText, rows, kept[k]);
      assert kept[k] in multiset(kept);
    }
    if exists row' :: row' in rows && HasText(row') && RecordOf(row', withFunding) == target {
      var row' :| row' in rows && HasText(row') && RecordOf(row', withFunding) == target;
      FilterMultiset(HasText, rows, row');
      assert row' in multiset(kept);
      var k :| 0 <= k < |kept| && kept[k] == row';
      assert r[k] == target;
    }
  }

  /** The filter tests for missing values only: a row whose relevance
      statement is the empty string and whose abstract is missing is kept,
      with an empty text. */
  lemma EmptyTextIsKept(id: string, withFunding: bool)
    ensures var row := ProjectRow(id, Some(""), None, None, 0, None);
            ProjectRecords([row], withFunding) == [Record(id, "", None, 0, if withFunding then Some(None) else None)]
  {
    var row := ProjectRow(id, Some(""), None, None, 0, None);
    assert Filter(HasText, [row]) == [row] by {
      assert [row][..0] == [];
    }
    assert Present([row.phr, row.abstractText]) == [] by {
      assert [row.phr, row.abstractText][..1] == [Some("")];
    }
  }
}
