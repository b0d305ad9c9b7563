/** The CORDIS crisis-code helpers shared by the 2.1 labelling module and
    the CORDIS topic module: `camel_to_snake`, paging through the search
    API until a short page, the project rcns per crisis code, and the
    per-project crisis scores.
 */
module CordisApi {

  import opened Results
  import opened Strings
  import opened OrderedDicts

  /** `CRISIS_CODES` */
  const CrisisCodes: seq<string> := ["crisisRecovery", "crisisResponse", "crisisPreparedness"]

  /** The length of the run of lower-case letters `s` starts with. */
  function LowerRun(s: string): (k: nat)
    ensures k <= |s|
  {
    if |s| == 0 || !IsLower(s[0]) then 0 else 1 + LowerRun(s[1..])
  }

  /** `re.sub('(.)([A-Z][a-z]+)', r'\1 \2', s)`: scanning left to right, a
      space goes before every capital that follows some character other
      than a newline and starts a run of lower-case letters; the scan
      resumes after that run. */
  function SplitWords(s: string): (r: string)
    decreases |s|
  {
    if |s| >= 3 && s[0] != '\n' && IsUpper(s[1]) && IsLower(s[2]) then
      var j := 3 + LowerRun(s[3..]);
      [s[0], ' '] + s[1..j] + SplitWords(s[j..])
    else if |s| == 0 then ""
    else [s[0]] + SplitWords(s[1..])
  }

  /** `re.sub('([a-z0-9])([A-Z])', r'\1 \2', s)`: a space between a
      lower-case letter or digit and the capital after it; the scan
      resumes after the capital. */
  function SplitCapitals(s: string): (r: string)
    decreases |s|
  {
    if |s| >= 2 && (IsLower(s[0]) || IsDigit(s[0])) && IsUpper(s[1]) then
      [s[0], ' ', s[1]] + SplitCapitals(s[2..])
    else if |s| == 0 then ""
    else [s[0]] + SplitCapitals(s[1..])
  }

  /** `camel_to_snake`, identical in both modules: despite its name it
      separates words with spaces, then lower-cases. */
  function CamelToSnake(s: string): (r: string)
    ensures forall i :: 0 <= i < |r| ==> !IsUpper(r[i])
  {
    Lower(SplitCapitals(SplitWords(s)))
  }

  lemma {:induction false} SplitWordsOnlySpaces(s: string)
    ensures Unspaced(SplitWords(s)) == Unspaced(s)
    decreases |s|
  {
    if |s| >= 3 && s[0] != '\n' && IsUpper(s[1]) && IsLower(s[2]) {
      var j := 3 + LowerRun(s[3..]);
      SplitWordsOnlySpaces(s[j..]);
      UnspacedAppend([s[0], ' '] + s[1..j], SplitWords(s[j..]));
      UnspacedAppend([s[0], ' '], s[1..j]);
      UnspacedAppend([s[0]], s[1..j]);
      UnspacedAppend([s[0]] + s[1..j], s[j..]);
      assert j <= |s|;
      var mid, tail := s[1..j], s[j..];
      assert s == [s[0]] + mid + tail;
      assert Unspaced([s[0], ' ']) == Unspaced([s[0]]) by {
        assert [s[0], ' '][1..] == [' '];
        assert [s[0]][1..] == "";
        assert Unspaced([' ']) == "" by { assert [' '][1..] == ""; }
      }
    } else if |s| > 0 {
      SplitWordsOnlySpaces(s[1..]);
      UnspacedAppend([s[0]], SplitWords(s[1..]));
      UnspacedAppend([s[0]], s[1..]);
      assert [s[0]] + s[1..] == s;
    }
  }

  lemma {:induction false} SplitCapitalsOnlySpaces(s: string)
    ensures Unspaced(SplitCapitals(s)) == Unspaced(s)
    decreases |s|
  {
    if |s| >= 2 && (IsLower(s[0]) || IsDigit(s[0])) && IsUpper(s[1]) {
      SplitCapitalsOnlySpaces(s[2..]);
      UnspacedAppend([s[0], ' ', s[1]], SplitCapitals(s[2..]));
      UnspacedAppend([s[0], s[1]], s[2..]);
      assert [s[0], s[1]] + s[2..] == s;
      assert Unspaced([s[0], ' ', s[1]]) == [s[0], s[1]] by {
        assert [s[0], ' ', s[1]][1..] == [' ', s[1]];
        assert [' ', s[1]][1..] == [s[1]];
        assert [s[1]][1..] == "";
      }
      assert Unspaced([s[0], s[1]]) == [s[0], s[1]] by {
        assert [s[0], s[1]][1..] == [s[1]];
        assert [s[1]][1..] == "";
      }
    } else if |s| > 0 {
      SplitCapitalsOnlySpaces(s[1..]);
      UnspacedAppend([s[0]], SplitCapitals(s[1..]));
      UnspacedAppend([s[0]], s[1..]);
      assert [s[0]] + s[1..] == s;
    }
  }

  /** `camel_to_snake` only inserts spaces: with every space deleted, its
      output is the lower-cased input with every space deleted. */
  lemma CamelToSnakeOnlyInsertsSpaces(s: string)
    ensures Unspaced(CamelToSnake(s)) == Lower(Unspaced(s))
  {
    SplitWordsOnlySpaces(s);
    SplitCapitalsOnlySpaces(SplitWords(s));
    UnspacedLower(SplitCapitals(SplitWords(s)));
  }

  /** The score keys of the three crisis codes. */
  lemma CrisisCodeKeys()
    ensures CamelToSnake(CrisisCodes[0]) == "crisis recovery"
    ensures CamelToSnake(CrisisCodes[1]) == "crisis response"
    ensures CamelToSnake(CrisisCodes[2]) == "crisis preparedness"
  {
    RecoveryKey();
    ResponseKey();
    PreparednessKey();
  }

  lemma RecoveryKey()
    ensures CamelToSnake(CrisisCodes[0]) == "crisis recovery"
  {
    CrisisKey(CrisisCodes[0], "R", "ecovery", "r", "crisis recovery");
  }

  lemma ResponseKey()
    ensures CamelToSnake(CrisisCodes[1]) == "crisis response"
  {
    CrisisKey(CrisisCodes[1], "R", "esponse", "r", "crisis response");
  }

  lemma PreparednessKey()
    ensures CamelToSnake(CrisisCodes[2]) == "crisis preparedness"
  {
    CrisisKey(CrisisCodes[2], "P", "reparedness", "p", "crisis preparedness");
  }

  /** `"crisis" + capital + rest` becomes `"crisis " + lower capital + rest`. */
  lemma CrisisKey(code: string, c: string, rest: string, lc: string, key: string)
    requires |c| == 1 && IsUpper(c[0]) && lc == [LowerChar(c[0])]
    requires |rest| >= 1 && forall i :: 0 <= i < |rest| ==> IsLower(rest[i])
    requires code == "crisis" + c + rest && key == "crisis " + lc + rest
    ensures CamelToSnake(code) == key
  {
    var a := "crisis";
    assert forall i :: 0 <= i < |a| ==> IsLower(a[i]);
    assert code == a + [c[0]] + rest;
    CamelToSnakeOfTwoWords(a, c[0], rest);
    assert a + [' '] + [LowerChar(c[0])] + rest == key;
  }

  /** Two lower-case words joined in camel case come apart with a space. */
  lemma CamelToSnakeOfTwoWords(a: string, c: char, b: string)
    requires |a| >= 1 && (forall i :: 0 <= i < |a| ==> IsLower(a[i]))
    requires IsUpper(c) && |b| >= 1 && (forall i :: 0 <= i < |b| ==> IsLower(b[i]))
    ensures CamelToSnake(a + [c] + b) == a + [' '] + [LowerChar(c)] + b
  {
    SplitWordsLowerPrefix(a, c, b);
    SplitCapitalsTwoWords(a, c, b);
    LowerTwoWords(a, c, b);
  }

  lemma LowerTwoWords(a: string, c: char, b: string)
    requires forall i :: 0 <= i < |a| ==> IsLower(a[i])
    requires forall i :: 0 <= i < |b| ==> IsLower(b[i])
    ensures Lower(a + [' '] + [c] + b) == a + [' '] + [LowerChar(c)] + b
  {
    LowerOfLower(a);
    LowerOfLower(b);
    LowerAppend(a, [' ']);
    LowerAppend(a + [' '], [c]);
    LowerAppend(a + [' '] + [c], b);
    assert Lower([' ']) == [' '] by { assert [' '][1..] == ""; }
    assert Lower([c]) == [LowerChar(c)] by { assert [c][1..] == ""; }
  }

  lemma {:induction false} LowerOfLower(a: string)
    requires forall i :: 0 <= i < |a| ==> IsLower(a[i])
    ensures Lower(a) == a
  {
    if |a| > 0 {
      LowerOfLower(a[1..]);
      assert [a[0]] + a[1..] == a;
    }
  }

  /** Only the capital before the last word matches the first pattern. */
  lemma {:induction false} SplitWordsLowerPrefix(a: string, c: char, b: string)
    requires |a| >= 1 && (forall i :: 0 <= i < |a| ==> IsLower(a[i]))
    requires IsUpper(c) && |b| >= 1 && (forall i :: 0 <= i < |b| ==> IsLower(b[i]))
    ensures SplitWords(a + [c] + b) == a + [' '] + [c] + b
    decreases |a|
  {
    var s := a + [c] + b;
    if |a| == 1 {
      assert s[0] == a[0] && s[1] == c && s[2] == b[0];
      var j := 3 + LowerRun(s[3..]);
      assert s[3..] == b[1..];
      LowerRunAll(b[1..]);
      assert j == |s|;
      assert s[j..] == "";
      assert s[1..j] == [c] + b;
    } else {
      assert s[1] == a[1] && !IsUpper(s[1]);
      assert s[1..] == a[1..] + [c] + b;
      SplitWordsLowerPrefix(a[1..], c, b);
      assert [a[0]] + a[1..] == a;
    }
  }

  lemma {:induction false} LowerRunAll(s: string)
    requires forall i :: 0 <= i < |s| ==> IsLower(s[i])
    ensures LowerRun(s) == |s|
  {
    if |s| > 0 {
      LowerRunAll(s[1..]);
    }
  }

  /** The second pattern finds nothing left to split. */
  lemma {:induction false} SplitCapitalsTwoWords(a: string, c: char, b: string)
    requires |a| >= 1 && (forall i :: 0 <= i < |a| ==> IsLower(a[i]))
    requires IsUpper(c) && (forall i :: 0 <= i < |b| ==> IsLower(b[i]))
    ensures SplitCapitals(a + [' '] + [c] + b) == a + [' '] + [c] + b
    decreases |a|
  {
    var s := a + [' '] + [c] + b;
    if |a| == 1 {
      assert s[1] == ' ';
      assert s[1..] == [' '] + [c] + b;
      assert s[1..][1..] == [c] + b;
      SplitCapitalsLower([c] + b);
      assert SplitCapitals(s[1..]) == [' '] + SplitCapitals([c] + b);
    } else {
      assert s[1] == a[1] && !IsUpper(s[1]);
      assert s[1..] == a[1..] + [' '] + [c] + b;
      SplitCapitalsTwoWords(a[1..], c, b);
      assert [a[0]] + a[1..] == a;
    }
  }

  /** A string with no capital after its first character is left alone. */
  lemma {:induction false} SplitCapitalsLower(s: string)
    requires forall i :: 1 <= i < |s| ==> !IsUpper(s[i])
    ensures SplitCapitals(s) == s
    decreases |s|
  {
    if |s| > 0 {
      SplitCapitalsLower(s[1..]);
      assert [s[0]] + s[1..] == s;
    }
  }

  /** `hit_api(code, page_num, page_size)["results"]`: one page of the
      search results for a crisis code. */
  type Pager<T> = (string, nat, nat) -> seq<T>

  /** The pages `0 .. n - 1` for `code`, concatenated in order. */
  function Collected<T>(api: Pager<T>, code: string, pageSize: nat, n: nat): seq<T>
  {
    if n == 0 then [] else Collected(api, code, pageSize, n - 1) + api(code, n - 1, pageSize)
  }

  /** Paging ends with page `n`: every earlier page is full and page `n`
      is short. */
  ghost predicate StopsAt<T>(api: Pager<T>, code: string, pageSize: nat, n: nat)
  {
    |api(code, n, pageSize)| < pageSize &&
    forall i :: 0 <= i < n ==> |api(code, i, pageSize)| >= pageSize
  }

  /** Paging can end at one page only: the first short one. */
  lemma StopsAtUnique<T>(api: Pager<T>, code: string, pageSize: nat, n: nat, m: nat)
    requires StopsAt(api, code, pageSize, n) && StopsAt(api, code, pageSize, m)
    ensures n == m
  {
    assert n < m ==> |api(code, n, pageSize)| >= pageSize;
    assert m < n ==> |api(code, m, pageSize)| >= pageSize;
  }

  /** `get_projects_by_code`: request pages 0, 1, 2, ... and concatenate
      them until one comes back with fewer than `page_size` results. The
      source loops for as long as the API keeps returning full pages;
      `fuel` bounds the number of requests. */
  method GetProjectsByCode<T>(api: Pager<T>, code: string, pageSize: nat, fuel: nat) returns (r: Result<seq<T>>)
    ensures r.Ok? ==> exists n :: 0 <= n < fuel && StopsAt(api, code, pageSize, n) &&
                        r.value == Collected(api, code, pageSize, n + 1)
    ensures r.Err? ==> r.error == PagingNotFinished &&
                       forall i :: 0 <= i < fuel ==> |api(code, i, pageSize)| >= pageSize
  {
    var data: seq<T> := [];
    var pageNum: nat := 0;
    while pageNum < fuel
      invariant pageNum <= fuel
      invariant data == Collected(api, code, pageSize, pageNum)
      invariant forall i :: 0 <= i < pageNum ==> |api(code, i, pageSize)| >= pageSize
    {
      var results := api(code, pageNum, pageSize);
      data := data + results;
      if |results| < pageSize {
        assert StopsAt(api, code, pageSize, pageNum);
        return Ok(data);
      }
      pageNum := pageNum + 1;
    }
    return Err(PagingNotFinished);
  }

  /** Every page of a completed paging lies, in order, in the result. */
  lemma {:induction false} CollectedPages<T>(api: Pager<T>, code: string, pageSize: nat, n: nat, i: nat)
    requires i < n
    ensures |Collected(api, code, pageSize, i)| + |api(code, i, pageSize)| <= |Collected(api, code, pageSize, n)|
    ensures Collected(api, code, pageSize, n)[|Collected(api, code, pageSize, i)|..][..|api(code, i, pageSize)|] ==
              api(code, i, pageSize)
  {
    var whole := Collected(api, code, pageSize, n);
    var before := Collected(api, code, pageSize, i);
    var page := api(code, i, pageSize);
    if i == n - 1 {
      assert whole == before + page;
      assert whole[|before|..] == page;
    } else {
      CollectedPages(api, code, pageSize, n - 1, i);
      var prefix := Collected(api, code, pageSize, n - 1);
      assert whole == prefix + api(code, n - 1, pageSize);
      assert whole[|before|..][..|page|] == prefix[|before|..][..|page|];
    }
  }

  /** `[project["rcn"] for project in projects]` */
  function Rcns<T>(projects: seq<T>, rcnOf: T -> int): (rcns: seq<int>)
    ensures |rcns| == |projects|
    ensures forall i :: 0 <= i < |projects| ==> rcns[i] == rcnOf(projects[i])
  {
    seq(|projects|, i requires 0 <= i < |projects| => rcnOf(projects[i]))
  }

  /** `rcns` is what paging `code` yields within `fuel` requests: the rcns
      of the pages up to and including the first short one. */
  ghost predicate PagedRcns<T>(api: Pager<T>, rcnOf: T -> int, code: string, pageSize: nat, fuel: nat,
                               rcns: seq<int>)
  {
    exists n :: 0 <= n < fuel && StopsAt(api, code, pageSize, n) &&
      rcns == Rcns(Collected(api, code, pageSize, n + 1), rcnOf)
  }

  /** Every page within `fuel` requests comes back full. */
  ghost predicate NeverShort<T>(api: Pager<T>, code: string, pageSize: nat, fuel: nat)
  {
    forall i :: 0 <= i < fuel ==> |api(code, i, pageSize)| >= pageSize
  }

  /** `get_rcns_by_code`: the rcn of every project paged in for the code,
      one per project and in paging order. */
  method GetRcnsByCode<T>(api: Pager<T>, rcnOf: T -> int, code: string, pageSize: nat, fuel: nat)
    returns (r: Result<seq<int>>)
    ensures r.Ok? ==> PagedRcns(api, rcnOf, code, pageSize, fuel, r.value)
    ensures r.Err? ==> r.error == PagingNotFinished && NeverShort(api, code, pageSize, fuel)
  {
    var projects := GetProjectsByCode(api, code, pageSize, fuel);
    match projects
    case Err(e) => return Err(e);
    case Ok(ps) => return Ok(Rcns(ps, rcnOf));
  }

  /** The loop of `get_crisis_rcns` over a list of codes: the rcns of each
      code, keyed by code in list order; the first code whose paging does
      not finish aborts the whole. */
  method GetRcnsByCodes<T>(api: Pager<T>, rcnOf: T -> int, codes: seq<string>, pageSize: nat, fuel: nat)
    returns (r: Result<Dict<string, seq<int>>>)
    ensures r.Ok? ==> Keys(r.value) == codes
    ensures r.Ok? ==> forall j :: 0 <= j < |codes| ==> PagedRcns(api, rcnOf, codes[j], pageSize, fuel, r.value[j].1)
    ensures r.Err? ==> r.error == PagingNotFinished && exists j :: 0 <= j < |codes| && NeverShort(api, codes[j], pageSize, fuel)
  {
    var data: Dict<string, seq<int>> := [];
    var j := 0;
    while j < |codes|
      invariant j <= |codes|
      invariant |data| == j
      invariant forall k :: 0 <= k < j ==> data[k].0 == codes[k]
      invariant forall k :: 0 <= k < j ==> PagedRcns(api, rcnOf, codes[k], pageSize, fuel, data[k].1)
    {
      var rcns := GetRcnsByCode(api, rcnOf, codes[j], pageSize, fuel);
      match rcns
      case Err(e) => return Err(e);
      case Ok(v) =>
        data := data + [(codes[j], v)];
      j := j + 1;
    }
    assert Keys(data) == codes;
    return Ok(data);
  }

  /** `get_crisis_rcns`: the rcns of every crisis code, keyed by code in
      the order of `CRISIS_CODES`. */
  method GetCrisisRcns<T>(api: Pager<T>, rcnOf: T -> int, pageSize: nat, fuel: nat)
    returns (r: Result<Dict<string, seq<int>>>)
    ensures r.Ok? ==> Keys(r.value) == CrisisCodes
    ensures r.Ok? ==> forall j :: 0 <= j < |CrisisCodes| ==>
              PagedRcns(api, rcnOf, CrisisCodes[j], pageSize, fuel, r.value[j].1)
    ensures r.Err? ==> (r.error == PagingNotFinished &&
              exists j :: 0 <= j < |CrisisCodes| && NeverShort(api, CrisisCodes[j], pageSize, fuel))
  {
    r := GetRcnsByCodes(api, rcnOf, CrisisCodes, pageSize, fuel);
  }

  /** A project with its crisis scores, in the order they were added. */
  datatype Labelled<P> = Labelled(project: P, scores: Dict<string, real>)

  /** The score keys, `camel_to_snake(code)` for each crisis code in
      turn (`ScoreKeysAreSpacedCodes`). */
  const ScoreKeys: seq<string> := ["crisis recovery", "crisis response", "crisis preparedness"]

  /** The score keys are the crisis codes with their words spaced and
      lowered. */
  lemma ScoreKeysAreSpacedCodes()
    ensures |ScoreKeys| == |CrisisCodes|
    ensures ScoreKeys[0] == CamelToSnake(CrisisCodes[0])
    ensures ScoreKeys[1] == CamelToSnake(CrisisCodes[1])
    ensures ScoreKeys[2] == CamelToSnake(CrisisCodes[2])
  {
    CrisisCodeKeys();
  }

  /** One score per key, scored against the hypothesis `"covid "` plus the
      key. */
  function ScoresFor(keys: seq<string>, text: string, prob: (string, string) -> real): (scores: Dict<string, real>)
    ensures Keys(scores) == keys
  {
    seq(|keys|, j requires 0 <= j < |keys| => (keys[j], prob(text, "covid " + keys[j])))
  }

  /** `proj[camel_to_snake(code)] = evaluate_probability(text, f"covid {key}")`
      for each crisis code in turn; `prob` stands for the classifier. */
  function Scores(text: string, prob: (string, string) -> real): (scores: Dict<string, real>)
  {
    ScoresFor(ScoreKeys, text, prob)
  }

  /** Scoring distinct keys gives a dict in which each key maps to its
      score. */
  lemma ScoresForGet(keys: seq<string>, text: string, prob: (string, string) -> real, i: nat)
    requires forall a, b :: 0 <= a < b < |keys| ==> keys[a] != keys[b]
    requires i < |keys|
    ensures DistinctKeys(ScoresFor(keys, text, prob))
    ensures Get(ScoresFor(keys, text, prob), keys[i]) == Some(prob(text, "covid " + keys[i]))
  {
    GetAt(ScoresFor(keys, text, prob), i);
  }

  /** Every project gets one score per crisis code, under the code's
      spaced name, each the probability of the hypothesis `"covid "` plus
      that name. */
  lemma ScoresKeys(text: string, prob: (string, string) -> real)
    ensures Keys(Scores(text, prob)) == ScoreKeys && DistinctKeys(Scores(text, prob))
    ensures forall j :: 0 <= j < |ScoreKeys| ==>
              Get(Scores(text, prob), ScoreKeys[j]) == Some(prob(text, "covid " + ScoreKeys[j]))
  {
    forall j | 0 <= j < |CrisisCodes|
      ensures Get(Scores(text, prob), ScoreKeys[j]) == Some(prob(text, "covid " + ScoreKeys[j]))
    {
      ScoresForGet(ScoreKeys, text, prob, j);
    }
    ScoresForGet(ScoreKeys, text, prob, 0);
  }

  /** `label_cordis_projects`: score every project; in test mode, stop at
      index `test_limit`, after scoring it, and keep the projects before
      it. `textOf` stands for `proj["text"]`. */
  method LabelCordisProjects<P>(projects: seq<P>, textOf: P -> string, prob: (string, string) -> real,
                                test: bool, testLimit: nat) returns (labelled: seq<Labelled<P>>)
    ensures |labelled| == if test && testLimit < |projects| then testLimit else |projects|
    ensures forall i :: 0 <= i < |labelled| ==>
              labelled[i] == Labelled(projects[i], Scores(textOf(projects[i]), prob))
  {
    var out: seq<Labelled<P>> := [];
    var i := 0;
    while i < |projects|
      invariant i <= |projects| && |out| == i
      invariant test ==> i <= testLimit
      invariant forall k :: 0 <= k < i ==> out[k] == Labelled(projects[k], Scores(textOf(projects[k]), prob))
    {
      out := out + [Labelled(projects[i], Scores(textOf(projects[i]), prob))];
      if test && i == testLimit {
        return out[..testLimit];
      }
      i := i + 1;
    }
    return out;
  }
}
