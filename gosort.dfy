/**
 * sort.Strings: Go orders strings byte by byte, a proper prefix coming first.
 * The order is total, so sorting a list gives the one ordered arrangement of
 * its elements, whatever order they arrived in.
 */
module GoSort {

  /** Go's `a <= b` on strings. */
  predicate LessEq(a: string, b: string)
  {
    if a == [] then true
    else if b == [] then false
    else if a[0] != b[0] then a[0] < b[0]
    else LessEq(a[1..], b[1..])
  }

  lemma {:induction false} LessEqReflexive(a: string)
    ensures LessEq(a, a)
  {
    if a != [] {
      LessEqReflexive(a[1..]);
    }
  }

  lemma {:induction false} LessEqTotal(a: string, b: string)
    ensures LessEq(a, b) || LessEq(b, a)
  {
    if a != [] && b != [] && a[0] == b[0] {
      LessEqTotal(a[1..], b[1..]);
    }
  }

  lemma {:induction false} LessEqAntisymmetric(a: string, b: string)
    requires LessEq(a, b) && LessEq(b, a)
    ensures a == b
  {
    if a != [] && b != [] {
      LessEqAntisymmetric(a[1..], b[1..]);
      assert a == [a[0]] + a[1..] && b == [b[0]] + b[1..];
    }
  }

  lemma {:induction false} LessEqTransitive(a: string, b: string, c: string)
    requires LessEq(a, b) && LessEq(b, c)
    ensures LessEq(a, c)
  {
    if a != [] && b != [] && c != [] && a[0] == b[0] && b[0] == c[0] {
      LessEqTransitive(a[1..], b[1..], c[1..]);
    }
  }

  ghost predicate Sorted(s: seq<string>)
  {
    forall i, j :: 0 <= i < j < |s| ==> LessEq(s[i], s[j])
  }

  /** Places `x` before the first element it does not follow. */
  function Insert(x: string, s: seq<string>): (r: seq<string>)
    ensures multiset(r) == multiset(s) + multiset{x}
  {
    if s == [] then [x]
    else if LessEq(x, s[0]) then [x] + s
    else
      assert s == [s[0]] + s[1..];
      [s[0]] + Insert(x, s[1..])
  }

  /** sort.Strings, by insertion. */
  function SortStrings(s: seq<string>): (r: seq<string>)
    ensures multiset(r) == multiset(s)
  {
    if s == [] then []
    else
      assert s == [s[0]] + s[1..];
      Insert(s[0], SortStrings(s[1..]))
  }

  lemma {:induction false} InsertSorted(x: string, s: seq<string>)
    requires Sorted(s)
    ensures Sorted(Insert(x, s))
  {
    if s == [] {
    } else if LessEq(x, s[0]) {
      var r := [x] + s;
      forall i, j | 0 <= i < j < |r| ensures LessEq(r[i], r[j]) {
        if i == 0 && j > 1 { LessEqTransitive(x, s[0], s[j - 1]); }
      }
    } else {
      var rest := s[1..];
      var t := Insert(x, rest);
      InsertSorted(x, rest);
      assert Sorted(rest) by {
        SortedTail(s);
      }
      LessEqTotal(x, s[0]);
      assert forall k :: 0 <= k < |rest| ==> LessEq(s[0], rest[k]) by {
        forall k | 0 <= k < |rest| ensures LessEq(s[0], rest[k]) {
          assert rest[k] == s[k + 1];
        }
      }
      InsertBelow(s[0], x, rest);
      var r := [s[0]] + t;
      assert Insert(x, s) == r;
      forall i, j | 0 <= i < j < |r| ensures LessEq(r[i], r[j]) {
        if i > 0 { assert r[i] == t[i - 1] && r[j] == t[j - 1]; }
      }
    }
  }

  /** A lower bound of `x` and of every element of `s` bounds every element after the insertion. */
  lemma InsertBelow(y: string, x: string, s: seq<string>)
    requires LessEq(y, x) && forall k :: 0 <= k < |s| ==> LessEq(y, s[k])
    ensures forall k :: 0 <= k < |Insert(x, s)| ==> LessEq(y, Insert(x, s)[k])
  {
    var t := Insert(x, s);
    forall k | 0 <= k < |t| ensures LessEq(y, t[k]) {
      assert t[k] in multiset(t);
      if t[k] != x {
        assert t[k] in multiset(s);
        var m :| 0 <= m < |s| && s[m] == t[k];
      }
    }
  }

  lemma {:induction false} SortStringsSorted(s: seq<string>)
    ensures Sorted(SortStrings(s))
  {
    if s != [] {
      SortStringsSorted(s[1..]);
      InsertSorted(s[0], SortStrings(s[1..]));
    }
  }

  lemma SortedHeadLeast(s: seq<string>, x: string)
    requires Sorted(s) && x in multiset(s)
    ensures LessEq(s[0], x)
  {
    var i :| 0 <= i < |s| && s[i] == x;
    if i == 0 { LessEqReflexive(x); }
  }

  lemma SortedTail(s: seq<string>)
    requires Sorted(s) && s != []
    ensures Sorted(s[1..])
  {
    forall i, j | 0 <= i < j < |s[1..]| ensures LessEq(s[1..][i], s[1..][j]) {
      assert s[1..][i] == s[i + 1] && s[1..][j] == s[j + 1];
    }
  }

  lemma HeadTailMultiset(s: seq<string>)
    requires s != []
    ensures multiset(s[1..]) == multiset(s) - multiset{s[0]}
  {
    assert s == [s[0]] + s[1..];
  }

  /** Two sorted arrangements of the same strings are the same list. */
  lemma {:induction false} SortedUnique(a: seq<string>, b: seq<string>)
    requires Sorted(a) && Sorted(b) && multiset(a) == multiset(b)
    ensures a == b
  {
    if a != [] {
      assert |b| == |multiset(b)| == |a|;
      assert a[0] == b[0] by {
        assert a[0] in multiset(a) && b[0] in multiset(b);
        SortedHeadLeast(b, a[0]);
        SortedHeadLeast(a, b[0]);
        LessEqAntisymmetric(a[0], b[0]);
      }
      assert multiset(a[1..]) == multiset(b[1..]) by {
        HeadTailMultiset(a);
        HeadTailMultiset(b);
      }
      SortedTail(a);
      SortedTail(b);
      SortedUnique(a[1..], b[1..]);
      assert a == [a[0]] + a[1..] && b == [b[0]] + b[1..];
    }
  }

  /** The order the strings arrive in does not change the sorted list. */
  lemma SortIgnoresOrder(a: seq<string>, b: seq<string>)
    requires multiset(a) == multiset(b)
    ensures SortStrings(a) == SortStrings(b)
  {
    SortStringsSorted(a);
    SortStringsSorted(b);
    SortedUnique(SortStrings(a), SortStrings(b));
  }
}
