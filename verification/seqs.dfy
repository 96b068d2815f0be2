/** `Array.prototype.filter`, reversal for "newest first" queries, and counting. */
module Seqs {

  /** `s.filter(keep)`: the elements that satisfy `keep`, in their original order. */
  function Filter<T>(keep: T -> bool, s: seq<T>): (r: seq<T>)
    ensures |r| <= |s|
    ensures forall i :: 0 <= i < |r| ==> r[i] in s && keep(r[i])
    ensures forall i :: 0 <= i < |s| && keep(s[i]) ==> s[i] in r
    ensures multiset(r) <= multiset(s)
  {
    if |s| == 0 then []
    else
      assert s == [s[0]] + s[1..];
      (if keep(s[0]) then [s[0]] else []) + Filter(keep, s[1..])
  }

  /** Filtering twice is filtering once by the conjunction `both`, order included. */
  lemma {:induction false} FilterFilter<T>(f: T -> bool, g: T -> bool, both: T -> bool, s: seq<T>)
    requires forall i :: 0 <= i < |s| ==> both(s[i]) == (f(s[i]) && g(s[i]))
    ensures Filter(g, Filter(f, s)) == Filter(both, s)
  {
    if |s| > 0 {
      FilterFilter(f, g, both, s[1..]);
      var head := if f(s[0]) then [s[0]] else [];
      assert Filter(f, s) == head + Filter(f, s[1..]);
      FilterAppend(g, head, Filter(f, s[1..]));
    }
  }

  /** One step of `Filter` on a leading element. */
  lemma FilterCons<T>(keep: T -> bool, x: T, t: seq<T>)
    ensures Filter(keep, [x] + t) == (if keep(x) then [x] else []) + Filter(keep, t)
  {
    assert ([x] + t)[0] == x && ([x] + t)[1..] == t;
  }

  /** Filtering works piecewise on a concatenation. */
  lemma {:induction false} FilterAppend<T>(keep: T -> bool, a: seq<T>, b: seq<T>)
    ensures Filter(keep, a + b) == Filter(keep, a) + Filter(keep, b)
  {
    if |a| > 0 {
      var t := a[1..];
      var h := if keep(a[0]) then [a[0]] else [];
      calc {
        Filter(keep, a + b);
      == { assert a + b == [a[0]] + (t + b); FilterCons(keep, a[0], t + b); }
        h + Filter(keep, t + b);
      == { FilterAppend(keep, t, b); }
        h + (Filter(keep, t) + Filter(keep, b));
      ==
        (h + Filter(keep, t)) + Filter(keep, b);
      == { assert a == [a[0]] + t; FilterCons(keep, a[0], t); }
        Filter(keep, a) + Filter(keep, b);
      }
    } else {
      assert a + b == b;
    }
  }

  /** Two tests that agree on every element filter alike. */
  lemma {:induction false} FilterExt<T>(f: T -> bool, g: T -> bool, s: seq<T>)
    requires forall i :: 0 <= i < |s| ==> f(s[i]) == g(s[i])
    ensures Filter(f, s) == Filter(g, s)
  {
    if |s| > 0 {
      FilterExt(f, g, s[1..]);
    }
  }

  /** A filter that keeps everything changes nothing. */
  lemma {:induction false} FilterAll<T>(keep: T -> bool, s: seq<T>)
    ensures (forall i :: 0 <= i < |s| ==> keep(s[i])) ==> Filter(keep, s) == s
  {
    if forall i :: 0 <= i < |s| ==> keep(s[i]) {
      FilterKeepsAll(keep, s);
    }
  }

  lemma {:induction false} FilterKeepsAll<T>(keep: T -> bool, s: seq<T>)
    requires forall i :: 0 <= i < |s| ==> keep(s[i])
    ensures Filter(keep, s) == s
  {
    if |s| > 0 {
      var t := s[1..];
      assert forall i :: 0 <= i < |t| ==> keep(t[i]) by {
        forall i | 0 <= i < |t| ensures keep(t[i]) { assert t[i] == s[i + 1]; }
      }
      FilterKeepsAll(keep, t);
      calc {
        Filter(keep, s);
      == { assert keep(s[0]); }
        [s[0]] + Filter(keep, t);
      ==
        [s[0]] + t;
      == { assert s == [s[0]] + t; }
        s;
      }
    }
  }

  /** Number of elements satisfying `keep`: `s.filter(keep).length`. */
  function Count<T>(keep: T -> bool, s: seq<T>): (n: nat)
    ensures n <= |s|
  {
    |Filter(keep, s)|
  }

  /** One unfolding step of `Count`. */
  lemma CountStep<T>(keep: T -> bool, s: seq<T>)
    requires |s| > 0
    ensures Count(keep, s) == (if keep(s[0]) then 1 else 0) + Count(keep, s[1..])
  {
  }

  /** Counts of two predicates that never hold together add up to at most the length. */
  lemma {:induction false} CountDisjoint<T>(f: T -> bool, g: T -> bool, s: seq<T>)
    requires forall i :: 0 <= i < |s| ==> !(f(s[i]) && g(s[i]))
    ensures Count(f, s) + Count(g, s) == Count(x => f(x) || g(x), s)
  {
    if |s| > 0 {
      CountDisjoint(f, g, s[1..]);
    }
  }

  /** Elements in reverse order. */
  function Reverse<T>(s: seq<T>): (r: seq<T>)
    ensures |r| == |s|
    ensures forall i :: 0 <= i < |s| ==> r[i] == s[|s| - 1 - i]
    ensures multiset(r) == multiset(s)
    ensures forall i :: 0 <= i < |r| ==> r[i] in s
    ensures forall i :: 0 <= i < |s| ==> s[i] in r
  {
    if |s| == 0 then []
    else
      assert s == [s[0]] + s[1..];
      Reverse(s[1..]) + [s[0]]
  }

  /** Keys strictly increase along `s`. */
  ghost predicate Increasing<T>(key: T -> int, s: seq<T>) {
    forall i, j :: 0 <= i < j < |s| ==> key(s[i]) < key(s[j])
  }

  /** Keys strictly decrease along `s`. */
  ghost predicate Decreasing<T>(key: T -> int, s: seq<T>) {
    forall i, j :: 0 <= i < j < |s| ==> key(s[i]) > key(s[j])
  }

  /** Filtering keeps a strictly increasing order. */
  lemma {:induction false} FilterIncreasing<T>(keep: T -> bool, key: T -> int, s: seq<T>)
    requires Increasing(key, s)
    ensures Increasing(key, Filter(keep, s))
  {
    if |s| > 0 {
      FilterIncreasing(keep, key, s[1..]);
      var rest := Filter(keep, s[1..]);
      forall x | x in rest ensures key(s[0]) < key(x) {
        var k :| 0 <= k < |s[1..]| && s[1..][k] == x;
        assert s[k + 1] == x;
      }
    }
  }

  /** Reversal turns an increasing sequence into a decreasing one. */
  lemma ReverseIncreasing<T>(key: T -> int, s: seq<T>)
    requires Increasing(key, s)
    ensures Decreasing(key, Reverse(s))
  {
  }
}
