/**
 * The order `Array.prototype.sort` uses when given no comparator (the
 * lexicographic order of character codes, a proper prefix first), and the
 * sorted, duplicate-free listing of a set of strings that
 * `Array.from(set).sort()` produces.
 */
module StringOrder {

  /** `a` sorts no later than `b`. */
  predicate Below(a: string, b: string)
    decreases |a|
  {
    |a| == 0 || (|b| > 0 && (a[0] < b[0] || (a[0] == b[0] && Below(a[1..], b[1..]))))
  }

  /** `a` sorts strictly before `b`. */
  predicate Less(a: string, b: string)
  {
    Below(a, b) && a != b
  }

  lemma {:induction false} BelowReflexive(a: string)
    ensures Below(a, a)
    decreases |a|
  {
    if |a| > 0 {
      BelowReflexive(a[1..]);
    }
  }

  lemma {:induction false} BelowAntisymmetric(a: string, b: string)
    requires Below(a, b) && Below(b, a)
    ensures a == b
    decreases |a|
  {
    if |a| > 0 {
      BelowAntisymmetric(a[1..], b[1..]);
      assert a == [a[0]] + a[1..] && b == [b[0]] + b[1..];
    }
  }

  lemma {:induction false} BelowTransitive(a: string, b: string, c: string)
    requires Below(a, b) && Below(b, c)
    ensures Below(a, c)
    decreases |a|
  {
    if |a| > 0 && a[0] == b[0] && b[0] == c[0] {
      BelowTransitive(a[1..], b[1..], c[1..]);
    }
  }

  lemma {:induction false} BelowTotal(a: string, b: string)
    ensures Below(a, b) || Below(b, a)
    decreases |a|
  {
    if |a| > 0 && |b| > 0 && a[0] == b[0] {
      BelowTotal(a[1..], b[1..]);
    }
  }

  /** Every element sorts strictly before every later one: sorted and without repeats. */
  predicate StrictlySorted(s: seq<string>)
  {
    forall i, j :: 0 <= i < j < |s| ==> Less(s[i], s[j])
  }

  predicate IsMinimum(m: string, s: set<string>)
  {
    m in s && forall y :: y in s ==> Below(m, y)
  }

  /** Every finite non-empty set of strings has a first element. */
  lemma {:induction false} MinimumExists(s: set<string>)
    requires s != {}
    ensures exists m :: IsMinimum(m, s)
    decreases |s|
  {
    var y :| y in s;
    if s == {y} {
      BelowReflexive(y);
      assert IsMinimum(y, s);
    } else {
      MinimumExists(s - {y});
      var m :| IsMinimum(m, s - {y});
      BelowTotal(m, y);
      if Below(m, y) {
        assert IsMinimum(m, s);
      } else {
        forall z | z in s ensures Below(y, z) {
          if z == y {
            BelowReflexive(y);
          } else {
            BelowTransitive(y, m, z);
          }
        }
        assert IsMinimum(y, s);
      }
    }
  }

  lemma MinimumUnique(s: set<string>)
    ensures forall m, m' :: IsMinimum(m, s) && IsMinimum(m', s) ==> m == m'
  {
    forall m, m' | IsMinimum(m, s) && IsMinimum(m', s) ensures m == m' {
      BelowAntisymmetric(m, m');
    }
  }

  /**
   * The elements of `s` listed in sort order, each once: the value of
   * `Array.from(s).sort()`.
   */
  function SortedSeq(s: set<string>): (r: seq<string>)
    ensures StrictlySorted(r)
    ensures forall x :: x in r <==> x in s
    ensures |r| == |s|
    decreases |s|
  {
    if s == {} then []
    else
      MinimumExists(s);
      MinimumUnique(s);
      var m :| IsMinimum(m, s);
      var rest := SortedSeq(s - {m});
      assert forall x :: x in rest ==> Less(m, x);
      [m] + rest
  }

  /** The head of a strictly sorted listing of `s` is the minimum of `s`. */
  lemma HeadIsMinimum(s: set<string>, r: seq<string>)
    requires StrictlySorted(r) && r != []
    requires forall x :: x in r <==> x in s
    ensures IsMinimum(r[0], s)
  {
    forall y | y in s ensures Below(r[0], y) {
      var k :| 0 <= k < |r| && r[k] == y;
      if k == 0 {
        BelowReflexive(y);
      }
    }
  }

  /** The tail of a strictly sorted listing of `s` lists `s` without its head. */
  lemma TailListsRest(s: set<string>, r: seq<string>)
    requires StrictlySorted(r) && r != []
    requires forall x :: x in r <==> x in s
    ensures StrictlySorted(r[1..])
    ensures forall x :: x in r[1..] <==> x in s - {r[0]}
  {
    var tail := r[1..];
    forall x ensures x in tail <==> x in s - {r[0]} {
      if x in tail {
        var k :| 0 <= k < |tail| && tail[k] == x;
        assert Less(r[0], r[k + 1]);
      }
      if x in s - {r[0]} {
        var k :| 0 <= k < |r| && r[k] == x;
        assert tail[k - 1] == x;
      }
    }
  }

  /** The sorted listing of `s` starts with its minimum, followed by the listing of the rest. */
  lemma SortedSeqOfMinimum(s: set<string>, m: string)
    requires IsMinimum(m, s)
    ensures SortedSeq(s) == [m] + SortedSeq(s - {m})
  {
    MinimumExists(s);
    MinimumUnique(s);
  }

  /**
   * There is only one strictly sorted listing of a set: any sequence that is
   * strictly sorted and holds exactly the elements of `s` is `SortedSeq(s)`.
   */
  lemma {:induction false} SortedSeqUnique(s: set<string>, r: seq<string>)
    requires StrictlySorted(r)
    requires forall x :: x in r <==> x in s
    ensures r == SortedSeq(s)
    decreases |s|
  {
    if r == [] {
      assert s == {};
    } else {
      var m, tail := r[0], r[1..];
      assert m in s;
      assert SortedSeq(s) == [m] + SortedSeq(s - {m}) by {
        HeadIsMinimum(s, r);
        SortedSeqOfMinimum(s, m);
      }
      assert tail == SortedSeq(s - {m}) by {
        TailListsRest(s, r);
        SortedSeqUnique(s - {m}, tail);
      }
      assert r == [m] + tail;
    }
  }
}
