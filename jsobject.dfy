/** The part of JavaScript's object semantics that the reminder sweep relies on when it
    uses a plain object literal `{}` as a dictionary (server/index.js, lines 83-90):
    property lookup that falls back on `Object.prototype`, property creation, and the
    order in which `Object.entries` lists the own properties. */
module JsObject {
  import opened Collections

  /** The own property names of `Object.prototype` in Node.js. A plain object `{}`
      inherits each of them; every one is a function or, for `__proto__`, an object. */
  const ObjectPrototype: set<string> := {
    "constructor", "__defineGetter__", "__defineSetter__", "hasOwnProperty",
    "__lookupGetter__", "__lookupSetter__", "isPrototypeOf", "propertyIsEnumerable",
    "toString", "valueOf", "__proto__", "toLocaleString"
  }

  /** An object used as a dictionary: its own properties, and their names in the order
      in which they were created. */
  datatype Object<V> = Object(props: map<string, V>, created: seq<string>)

  /** Every own property is listed once in `created`, and nothing else is. */
  ghost predicate WellFormed<V>(o: Object<V>) {
    Distinct(o.created) && (forall k :: k in o.props <==> k in o.created)
  }

  /** The result of reading `o[key]`. */
  datatype Property<V> = Own(value: V) | Inherited | Undefined

  /** `o[key]` on an object whose prototype supplies the names in `inherited`. */
  function Get<V>(o: Object<V>, key: string, inherited: set<string>): Property<V> {
    if key in o.props then Own(o.props[key])
    else if key in inherited then Inherited
    else Undefined
  }

  /** `o[key] = v`: a new key is created after all existing ones; an existing key keeps its place. */
  function Put<V>(o: Object<V>, key: string, v: V): (r: Object<V>)
    requires WellFormed(o)
    ensures WellFormed(r)
    ensures r.props == o.props[key := v]
  {
    Object(o.props[key := v], if key in o.props then o.created else o.created + [key])
  }

  predicate IsDigit(c: char) {
    '0' <= c <= '9'
  }

  /** The number a string of decimal digits denotes (other characters count as zero). */
  function DecimalValue(s: string): nat {
    if |s| == 0 then 0
    else 10 * DecimalValue(s[..|s| - 1]) + (if IsDigit(s[|s| - 1]) then (s[|s| - 1] - '0') as nat else 0)
  }

  /** A property name that is an array index: the canonical decimal form of an integer `i`
      with `0 <= i < 2^32 - 1` (no sign, no leading zero except in "0"). */
  predicate IsArrayIndex(key: string) {
    && 0 < |key|
    && (forall k :: 0 <= k < |key| ==> IsDigit(key[k]))
    && (key[0] == '0' ==> |key| == 1)
    && DecimalValue(key) < 0xFFFF_FFFF
  }

  /** Any other property name. */
  predicate IsNamedKey(key: string) {
    !IsArrayIndex(key)
  }

  /** Array-index names in ascending numeric order. */
  predicate Ascending(keys: seq<string>) {
    forall i, j :: 0 <= i < j < |keys| ==> DecimalValue(keys[i]) <= DecimalValue(keys[j])
  }

  /** A name no greater than the first of an ascending list can go in front of it. */
  lemma AscendingCons(key: string, sorted: seq<string>)
    requires Ascending(sorted)
    requires sorted != [] ==> DecimalValue(key) <= DecimalValue(sorted[0])
    ensures Ascending([key] + sorted)
  {
    var r := [key] + sorted;
    forall i, j | 0 <= i < j < |r|
      ensures DecimalValue(r[i]) <= DecimalValue(r[j])
    {
      if i > 0 {
        assert r[i] == sorted[i - 1] && r[j] == sorted[j - 1];
      } else {
        assert r[j] == sorted[j - 1];
        assert DecimalValue(sorted[0]) <= DecimalValue(sorted[j - 1]);
      }
    }
  }

  function InsertByValue(key: string, sorted: seq<string>): (r: seq<string>)
    requires Ascending(sorted)
    ensures multiset(r) == multiset(sorted) + multiset{key}
    ensures r[0] == key || (|sorted| > 0 && r[0] == sorted[0])
    ensures Ascending(r)
  {
    if sorted == [] || DecimalValue(key) <= DecimalValue(sorted[0]) then
      AscendingCons(key, sorted);
      [key] + sorted
    else
      assert Ascending(sorted[1..]);
      var rest := InsertByValue(key, sorted[1..]);
      assert sorted == [sorted[0]] + sorted[1..];
      AscendingCons(sorted[0], rest);
      [sorted[0]] + rest
  }

  function SortByValue(keys: seq<string>): (r: seq<string>)
    ensures multiset(r) == multiset(keys)
    ensures Ascending(r)
  {
    if keys == [] then []
    else
      assert keys == [keys[0]] + keys[1..];
      InsertByValue(keys[0], SortByValue(keys[1..]))
  }

  /** The order in which `Object.entries` lists own properties created in the order `created`:
      first the array-index names in ascending numeric order, then the other names in
      creation order. It lists each created name as often as it was created. */
  function EntriesOrder(created: seq<string>): (r: seq<string>)
    ensures multiset(r) == multiset(created)
  {
    var indices := SortByValue(Filter(IsArrayIndex, created));
    var named := Filter(IsNamedKey, created);
    FilterMultiset(IsArrayIndex, created);
    FilterMultiset(IsNamedKey, created);
    assert forall x :: multiset(indices + named)[x] == multiset(created)[x];
    indices + named
  }

  /** In `Object.entries` order every array-index name comes before every other name, the
      array-index names ascend, and the other names keep their creation order. */
  lemma EntriesOrderShape(created: seq<string>)
    ensures var r, n := EntriesOrder(created), |Filter(IsArrayIndex, created)|;
      && n <= |r|
      && (forall i :: 0 <= i < n ==> IsArrayIndex(r[i]))
      && Ascending(r[..n])
      && r[n..] == Filter(IsNamedKey, created)
  {
    var indices := SortByValue(Filter(IsArrayIndex, created));
    var named := Filter(IsNamedKey, created);
    var r := EntriesOrder(created);
    assert r == indices + named;
    assert |indices| == |Filter(IsArrayIndex, created)| by {
      assert |multiset(indices)| == |multiset(Filter(IsArrayIndex, created))|;
    }
    forall i | 0 <= i < |indices|
      ensures IsArrayIndex(r[i])
    {
      assert indices[i] in multiset(Filter(IsArrayIndex, created));
    }
    assert r[..|indices|] == indices;
    assert r[|indices|..] == named;
  }

  /** `Object.entries` lists each own property exactly once. */
  lemma EntriesOrderDistinct(created: seq<string>)
    requires Distinct(created)
    ensures Distinct(EntriesOrder(created))
    ensures forall k :: k in EntriesOrder(created) <==> k in created
  {
    DistinctPermutation(created, EntriesOrder(created));
    assert forall k :: k in EntriesOrder(created) <==> k in multiset(created);
  }

  /** When no name is an array index (every email address contains '@'), `Object.entries`
      lists the own properties in creation order. */
  lemma {:induction false} NamedKeysKeepCreationOrder(created: seq<string>)
    requires forall k :: 0 <= k < |created| ==> IsNamedKey(created[k])
    ensures EntriesOrder(created) == created
  {
    NoIndexFilter(created);
    AllNamedFilter(created);
    assert EntriesOrder(created)[0..] == EntriesOrder(created);
  }

  lemma {:induction false} NoIndexFilter(s: seq<string>)
    requires forall k :: 0 <= k < |s| ==> IsNamedKey(s[k])
    ensures Filter(IsArrayIndex, s) == []
  {
    if s != [] {
      NoIndexFilter(s[1..]);
    }
  }

  lemma {:induction false} AllNamedFilter(s: seq<string>)
    requires forall k :: 0 <= k < |s| ==> IsNamedKey(s[k])
    ensures Filter(IsNamedKey, s) == s
  {
    if s != [] {
      AllNamedFilter(s[1..]);
      assert [s[0]] + s[1..] == s;
    }
  }

  /** A name holding a character other than a digit, such as an email address, is not an array index. */
  lemma NonDigitIsNamed(key: string, k: nat)
    requires k < |key| && !IsDigit(key[k])
    ensures IsNamedKey(key)
  {
  }
}
