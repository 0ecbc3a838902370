/** Generic sequence facts shared by the save handler and the reminder sweep:
    an optional value, order-preserving filtering and duplicate-free sequences. */
module Collections {

  /** A value that may be absent (a JavaScript property that is missing or `null`). */
  datatype Option<+T> = None | Some(value: T) {
    function GetOr(default: T): T {
      match this
      case Some(v) => v
      case None => default
    }
  }

  /** The elements of `s` that satisfy `p`, in their order in `s` (JavaScript's `Array.prototype.filter`). */
  function Filter<T(==)>(p: T -> bool, s: seq<T>): (r: seq<T>)
    ensures |r| <= |s|
    ensures forall i :: 0 <= i < |r| ==> r[i] in s && p(r[i])
    ensures forall i :: 0 <= i < |s| && p(s[i]) ==> s[i] in r
  {
    if s == [] then [] else (if p(s[0]) then [s[0]] else []) + Filter(p, s[1..])
  }

  lemma {:induction false} FilterAppend<T>(p: T -> bool, a: seq<T>, b: seq<T>)
    ensures Filter(p, a + b) == Filter(p, a) + Filter(p, b)
  {
    if a == [] {
      assert a + b == b;
    } else {
      assert (a + b)[0] == a[0];
      assert (a + b)[1..] == a[1..] + b;
      FilterAppend(p, a[1..], b);
    }
  }

  lemma FilterSingle<T>(p: T -> bool, x: T)
    ensures Filter(p, [x]) == if p(x) then [x] else []
  {
    assert [x][1..] == [];
  }

  lemma {:induction false} FilterNone<T>(p: T -> bool, s: seq<T>)
    requires forall i :: 0 <= i < |s| ==> !p(s[i])
    ensures Filter(p, s) == []
  {
    if s != [] {
      FilterNone(p, s[1..]);
    }
  }

  /** Filtering keeps every element that satisfies `p` exactly as often as it occurs, and drops the rest. */
  lemma {:induction false} FilterMultiset<T>(p: T -> bool, s: seq<T>)
    ensures forall x :: multiset(Filter(p, s))[x] == if p(x) then multiset(s)[x] else 0
  {
    if s != [] {
      FilterMultiset(p, s[1..]);
      assert s == [s[0]] + s[1..];
    }
  }

  /** The indices of `s` whose element satisfies `p`. */
  function Indices<T>(p: T -> bool, s: seq<T>): set<int> {
    set i | 0 <= i < |s| && p(s[i])
  }

  /** The number of kept elements is the number of indices whose element satisfies `p`. */
  lemma {:induction false} FilterCount<T>(p: T -> bool, s: seq<T>)
    ensures |Filter(p, s)| == |Indices(p, s)|
    decreases |s|
  {
    if s != [] {
      var n := |s| - 1;
      var t := s[..n];
      FilterCount(p, t);
      assert t + [s[n]] == s;
      FilterAppend(p, t, [s[n]]);
      FilterSingle(p, s[n]);
      var before, after := Indices(p, t), Indices(p, s);
      assert forall i :: i in after <==> i in before || (i == n && p(s[n]));
      if p(s[n]) {
        assert after == before + {n};
      } else {
        assert after == before;
      }
    }
  }

  /** Adds one to every index: the positions in `s[1..]` seen as positions in `s`. */
  function Shift(q: seq<nat>): seq<nat> {
    seq(|q|, k requires 0 <= k < |q| => q[k] + 1)
  }

  /** The indices of the elements of `s` that satisfy `p`, in ascending order. */
  function Positions<T>(p: T -> bool, s: seq<T>): (r: seq<nat>)
    ensures |r| == |Filter(p, s)|
  {
    if s == [] then [] else (if p(s[0]) then [0] else []) + Shift(Positions(p, s[1..]))
  }

  /** Filtering is order preserving: the j-th kept element is the element at the j-th
      satisfying index, those indices increase strictly, and every satisfying index is one of them. */
  predicate KeepsInOrder<T(==)>(p: T -> bool, s: seq<T>, pos: seq<nat>, kept: seq<T>) {
    && |pos| == |kept|
    && (forall j :: 0 <= j < |pos| ==> pos[j] < |s| && kept[j] == s[pos[j]] && p(s[pos[j]]))
    && (forall j, k :: 0 <= j < k < |pos| ==> pos[j] < pos[k])
    && (forall i :: 0 <= i < |s| && p(s[i]) ==> i in pos)
  }

  lemma {:induction false} PositionsSelect<T>(p: T -> bool, s: seq<T>, j: nat)
    requires j < |Positions(p, s)|
    ensures Positions(p, s)[j] < |s| && p(s[Positions(p, s)[j]])
    ensures Filter(p, s)[j] == s[Positions(p, s)[j]]
  {
    var q, f := Positions(p, s[1..]), Filter(p, s[1..]);
    if p(s[0]) && j == 0 {
    } else {
      var j' := if p(s[0]) then j - 1 else j;
      assert Positions(p, s)[j] == Shift(q)[j'] == q[j'] + 1;
      assert Filter(p, s)[j] == f[j'];
      PositionsSelect(p, s[1..], j');
    }
  }

  lemma {:induction false} PositionsIncrease<T>(p: T -> bool, s: seq<T>)
    ensures forall j, k :: 0 <= j < k < |Positions(p, s)| ==> Positions(p, s)[j] < Positions(p, s)[k]
  {
    if s != [] {
      PositionsIncrease(p, s[1..]);
    }
  }

  lemma {:induction false} PositionsComplete<T>(p: T -> bool, s: seq<T>, i: nat)
    requires i < |s| && p(s[i])
    ensures i in Positions(p, s)
  {
    if i > 0 {
      PositionsComplete(p, s[1..], i - 1);
      var q := Positions(p, s[1..]);
      var k :| 0 <= k < |q| && q[k] == i - 1;
      var head: seq<nat> := if p(s[0]) then [0] else [];
      assert Positions(p, s) == head + Shift(q);
      assert Positions(p, s)[|head| + k] == i;
    }
  }

  lemma FilterInOrder<T>(p: T -> bool, s: seq<T>)
    ensures KeepsInOrder(p, s, Positions(p, s), Filter(p, s))
  {
    PositionsIncrease(p, s);
    forall j | 0 <= j < |Positions(p, s)|
      ensures Positions(p, s)[j] < |s| && Filter(p, s)[j] == s[Positions(p, s)[j]] && p(s[Positions(p, s)[j]])
    {
      PositionsSelect(p, s, j);
    }
    forall i | 0 <= i < |s| && p(s[i])
      ensures i in Positions(p, s)
    {
      PositionsComplete(p, s, i);
    }
  }

  /** No element occurs twice. */
  predicate Distinct<T(==)>(s: seq<T>) {
    forall i, j :: 0 <= i < j < |s| ==> s[i] != s[j]
  }

  lemma {:induction false} DistinctHasNoRepeats<T>(s: seq<T>)
    requires Distinct(s)
    ensures forall x :: multiset(s)[x] <= 1
  {
    if s != [] {
      DistinctHasNoRepeats(s[1..]);
      assert s == [s[0]] + s[1..];
      assert forall k :: 0 <= k < |s[1..]| ==> s[1..][k] == s[k + 1] != s[0];
    }
  }

  lemma NoRepeatsIsDistinct<T>(s: seq<T>)
    requires forall x :: multiset(s)[x] <= 1
    ensures Distinct(s)
  {
    forall i, j | 0 <= i < j < |s|
      ensures s[i] != s[j]
    {
      assert s == s[..i] + [s[i]] + s[i + 1..j] + [s[j]] + s[j + 1..];
      assert multiset(s)[s[i]] >= 1 + multiset([s[j]])[s[i]];
    }
  }

  /** Two sequences with the same elements, counted with multiplicity, are both duplicate free or both not. */
  lemma DistinctPermutation<T>(a: seq<T>, b: seq<T>)
    requires multiset(a) == multiset(b)
    requires Distinct(a)
    ensures Distinct(b)
  {
    DistinctHasNoRepeats(a);
    NoRepeatsIsDistinct(b);
  }
}
