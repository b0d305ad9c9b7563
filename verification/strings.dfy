/** The handful of Python string operations the modelled code relies on:
    `startswith`, `in`, `join`, `split`, `lower`, `str(int)`, and the
    code-point ordering Python uses to compare strings.
 */
module Strings {

  import opened Results

  predicate IsUpper(c: char) { 'A' <= c <= 'Z' }

  predicate IsLower(c: char) { 'a' <= c <= 'z' }

  predicate IsDigit(c: char) { '0' <= c <= '9' }

  /** `s.startswith(prefix)` */
  predicate StartsWith(s: string, prefix: string) {
    |prefix| <= |s| && s[..|prefix|] == prefix
  }

  /** `sub in s`: a case-sensitive substring test. */
  predicate Contains(s: string, sub: string)
    decreases |s|
  {
    StartsWith(s, sub) || (|s| > 0 && Contains(s[1..], sub))
  }

  /** A string containing `sub + more` contains `sub`. */
  lemma {:induction false} ContainsShorterNeedle(s: string, sub: string, more: string)
    requires Contains(s, sub + more)
    ensures Contains(s, sub)
    decreases |s|
  {
    if StartsWith(s, sub + more) {
      assert s[..|sub|] == s[..|sub + more|][..|sub|];
      assert (sub + more)[..|sub|] == sub;
    } else {
      ContainsShorterNeedle(s[1..], sub, more);
    }
  }

  /** `sep.join(parts)` */
  function Join(sep: string, parts: seq<string>): string
  {
    if |parts| == 0 then ""
    else if |parts| == 1 then parts[0]
    else parts[0] + sep + Join(sep, parts[1..])
  }

  /** `s.split(c)` for a one-character separator; like Python, it never
      returns an empty list (`"".split("_") == [""]`). */
  function Split(s: string, c: char): (parts: seq<string>)
    ensures |parts| >= 1
  {
    if |s| == 0 then [""]
    else
      var rest := Split(s[1..], c);
      if s[0] == c then [""] + rest else [[s[0]] + rest[0]] + rest[1..]
  }

  lemma {:induction false} SplitWithoutSeparator(p: string, c: char)
    requires c !in p
    ensures Split(p, c) == [p]
  {
    if |p| > 0 {
      SplitWithoutSeparator(p[1..], c);
      assert [p[0]] + p[1..] == p;
    }
  }

  lemma {:induction false} SplitAfterPiece(p: string, c: char, t: string)
    requires c !in p
    ensures Split(p + [c] + t, c) == [p] + Split(t, c)
  {
    if |p| == 0 {
      assert (p + [c] + t)[1..] == t;
    } else {
      assert (p + [c] + t)[1..] == p[1..] + [c] + t;
      SplitAfterPiece(p[1..], c, t);
      assert [p[0]] + p[1..] == p;
    }
  }

  /** Splitting undoes joining, as long as no piece holds the separator. */
  lemma {:induction false} SplitJoin(parts: seq<string>, c: char)
    requires |parts| >= 1
    requires forall k :: 0 <= k < |parts| ==> c !in parts[k]
    ensures Split(Join([c], parts), c) == parts
  {
    if |parts| == 1 {
      SplitWithoutSeparator(parts[0], c);
    } else {
      SplitJoin(parts[1..], c);
      SplitAfterPiece(parts[0], c, Join([c], parts[1..]));
      assert [parts[0]] + parts[1..] == parts;
    }
  }

  /** A separator adds a piece, whatever the text before it holds. */
  lemma {:induction false} SplitAfterAnyPiece(p: string, c: char, t: string)
    ensures |Split(p + [c] + t, c)| >= 1 + |Split(t, c)|
  {
    if |p| == 0 {
      assert (p + [c] + t)[1..] == t;
    } else {
      assert (p + [c] + t)[1..] == p[1..] + [c] + t;
      SplitAfterAnyPiece(p[1..], c, t);
    }
  }

  /** Splitting a join gives back at least as many pieces as were joined,
      even when some piece holds the separator. */
  lemma {:induction false} SplitJoinCount(parts: seq<string>, c: char)
    requires |parts| >= 1
    ensures |Split(Join([c], parts), c)| >= |parts|
  {
    if |parts| > 1 {
      SplitJoinCount(parts[1..], c);
      SplitAfterAnyPiece(parts[0], c, Join([c], parts[1..]));
    }
  }

  /** A join of non-empty parts is non-empty. */
  lemma {:induction false} JoinNonEmpty(sep: string, parts: seq<string>)
    requires |parts| >= 1 && |parts[0]| > 0
    ensures |Join(sep, parts)| > 0
  {
  }

  /** Joining a joined prefix is joining the whole list. */
  lemma {:induction false} JoinFlatten(sep: string, xs: seq<string>, ys: seq<string>)
    requires |xs| >= 1
    ensures Join(sep, [Join(sep, xs)] + ys) == Join(sep, xs + ys)
  {
    if |xs| == 1 {
      assert xs + ys == [xs[0]] + ys;
      if |ys| > 0 {
        assert ([xs[0]] + ys)[1..] == ys;
      }
    } else {
      JoinFlatten(sep, xs[1..], ys);
      assert (xs + ys)[1..] == xs[1..] + ys;
      assert ([Join(sep, xs)] + ys)[1..] == ys;
      if |ys| > 0 {
        assert ([Join(sep, xs[1..])] + ys)[1..] == ys;
      }
    }
  }

  function LowerChar(c: char): char
  {
    if IsUpper(c) then (c as int + 32) as char else c
  }

  /** `s.lower()` on the ASCII letters. */
  function Lower(s: string): (r: string)
    ensures |r| == |s|
    ensures forall i :: 0 <= i < |s| ==> r[i] == LowerChar(s[i])
  {
    if |s| == 0 then "" else [LowerChar(s[0])] + Lower(s[1..])
  }

  /** The string with every space removed. */
  function Unspaced(s: string): string
  {
    if |s| == 0 then "" else (if s[0] == ' ' then "" else [s[0]]) + Unspaced(s[1..])
  }

  lemma {:induction false} UnspacedAppend(a: string, b: string)
    ensures Unspaced(a + b) == Unspaced(a) + Unspaced(b)
  {
    if |a| > 0 {
      assert (a + b)[1..] == a[1..] + b;
      UnspacedAppend(a[1..], b);
    } else {
      assert a + b == b;
    }
  }

  lemma {:induction false} UnspacedLower(s: string)
    ensures Unspaced(Lower(s)) == Lower(Unspaced(s))
  {
    if |s| > 0 {
      UnspacedLower(s[1..]);
      assert Lower(s)[1..] == Lower(s[1..]);
      LowerAppend(if s[0] == ' ' then "" else [s[0]], Unspaced(s[1..]));
    }
  }

  lemma {:induction false} LowerAppend(a: string, b: string)
    ensures Lower(a + b) == Lower(a) + Lower(b)
  {
  }

  function DigitChar(d: nat): char
    requires d < 10
  {
    ('0' as int + d) as char
  }

  /** `str(n)` for a natural number. */
  function NatToString(n: nat): (s: string)
    ensures |s| >= 1
    ensures forall i :: 0 <= i < |s| ==> IsDigit(s[i])
    decreases n
  {
    if n < 10 then [DigitChar(n)] else NatToString(n / 10) + [DigitChar(n % 10)]
  }

  function DigitsValue(s: string): nat
    requires forall i :: 0 <= i < |s| ==> IsDigit(s[i])
  {
    if |s| == 0 then 0
    else
      assert IsDigit(s[|s| - 1]);
      DigitsValue(s[..|s| - 1]) * 10 + (s[|s| - 1] as int - '0' as int)
  }

  /** `int(s)` restricted to non-empty strings of decimal digits. */
  function ParseNat(s: string): Option<nat>
  {
    if |s| > 0 && forall i :: 0 <= i < |s| ==> IsDigit(s[i]) then Some(DigitsValue(s)) else None
  }

  /** `str(i)` */
  function IntToString(i: int): string
  {
    if i < 0 then "-" + NatToString(-i) else NatToString(i)
  }

  /** `int(s)` on what `IntToString` produces, `None` elsewhere. */
  function ParseInt(s: string): Option<int>
  {
    if |s| > 0 && s[0] == '-' then
      match ParseNat(s[1..])
      case Some(n) => Some(0 - n as int)
      case None => None
    else
      match ParseNat(s)
      case Some(n) => Some(n)
      case None => None
  }

  lemma {:induction false} DigitsValueOfNat(n: nat)
    ensures DigitsValue(NatToString(n)) == n
    decreases n
  {
    if n >= 10 {
      var s := NatToString(n);
      assert s[..|s| - 1] == NatToString(n / 10);
      DigitsValueOfNat(n / 10);
    }
  }

  /** Printing an integer and reading it back gives the same integer. */
  lemma ParseIntOfIntToString(i: int)
    ensures ParseInt(IntToString(i)) == Some(i)
  {
    if i < 0 {
      assert IntToString(i)[1..] == NatToString(-i);
      DigitsValueOfNat(-i);
    } else {
      DigitsValueOfNat(i);
    }
  }

  /** Python's `a <= b` on strings: lexicographic on code points. */
  predicate StrLe(a: string, b: string)
    decreases |a|
  {
    |a| == 0 || (|b| > 0 && (a[0] < b[0] || (a[0] == b[0] && StrLe(a[1..], b[1..]))))
  }

  lemma StrLeTotal(a: string, b: string)
    ensures StrLe(a, b) || StrLe(b, a)
    decreases |a|
  {
    if |a| > 0 && |b| > 0 && a[0] == b[0] {
      StrLeTotal(a[1..], b[1..]);
    }
  }

  lemma StrLeAntisymmetric(a: string, b: string)
    requires StrLe(a, b) && StrLe(b, a)
    ensures a == b
    decreases |a|
  {
    if |a| > 0 {
      StrLeAntisymmetric(a[1..], b[1..]);
      assert a == [a[0]] + a[1..];
      assert b == [b[0]] + b[1..];
    }
  }

  lemma StrLeTransitive(a: string, b: string, c: string)
    requires StrLe(a, b) && StrLe(b, c)
    ensures StrLe(a, c)
    decreases |a|
  {
    if |a| > 0 && a[0] == b[0] && b[0] == c[0] {
      StrLeTransitive(a[1..], b[1..], c[1..]);
    }
  }

  /** The three-way comparison behind Python's ordering of strings. */
  function StrCmp(a: string, b: string): (c: int)
    ensures -1 <= c <= 1
    ensures c == 0 <==> a == b
    ensures c < 0 ==> StrLe(a, b)
    ensures c > 0 ==> StrLe(b, a)
  {
    StrLeTotal(a, b);
    if a == b then 0 else if StrLe(a, b) then -1 else 1
  }

  lemma StrCmpAntisymmetric(a: string, b: string)
    ensures StrCmp(a, b) == -StrCmp(b, a)
  {
    if a != b && StrLe(a, b) && StrLe(b, a) {
      StrLeAntisymmetric(a, b);
    }
  }

  lemma StrCmpTransitive(a: string, b: string, c: string)
    requires StrCmp(a, b) <= 0 && StrCmp(b, c) <= 0
    ensures StrCmp(a, c) <= 0
  {
    if a != b && b != c {
      StrLeTransitive(a, b, c);
      if a == c {
        StrLeAntisymmetric(a, b);
      }
    }
  }
}
