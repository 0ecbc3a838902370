/** Grouping the records of one reminder firing by recipient email
    (server/index.js, lines 83-88): the groups as a specification, the partition and
    permutation facts about them, the grouping as the source writes it over a plain
    object, and the in-place grouping loop that the sweep runs. */
module Grouping {
  import opened Collections
  import opened Medication
  import opened JsObject

  /** The group of `e`: the records of `meds` addressed to `e`, in their order in `meds`. */
  function GroupFor(meds: seq<Record>, e: string): seq<Record> {
    if meds == [] then []
    else GroupFor(meds[..|meds| - 1], e) + (if meds[|meds| - 1].email == e then [meds[|meds| - 1]] else [])
  }

  /** Appending a record extends its own group and no other. */
  lemma GroupForSnoc(meds: seq<Record>, m: Record, e: string)
    ensures GroupFor(meds + [m], e) == GroupFor(meds, e) + (if m.email == e then [m] else [])
  {
    assert (meds + [m])[..|meds|] == meds;
  }

  /** A group holds exactly the records addressed to its key. */
  lemma {:induction false} GroupForMembers(meds: seq<Record>, e: string)
    ensures forall m :: m in GroupFor(meds, e) <==> m in meds && m.email == e
  {
    if meds != [] {
      var n := |meds| - 1;
      GroupForMembers(meds[..n], e);
      assert meds == meds[..n] + [meds[n]];
    }
  }

  /** The records addressed to `e`. */
  function HasEmail(e: string): Record -> bool {
    (m: Record) => m.email == e
  }

  /** A group is the filter of the records by their email. */
  lemma {:induction false} GroupForIsFilter(meds: seq<Record>, e: string)
    ensures GroupFor(meds, e) == Filter(HasEmail(e), meds)
  {
    if meds != [] {
      var n := |meds| - 1;
      var prefix, last := meds[..n], meds[n];
      GroupForIsFilter(prefix, e);
      assert meds == prefix + [last];
      FilterAppend(HasEmail(e), prefix, [last]);
      FilterSingle(HasEmail(e), last);
      assert HasEmail(e)(last) == (last.email == e);
    }
  }

  /** Each group keeps the records in their relative order in `meds`: its j-th record is the
      j-th record of `meds` addressed to `e`, and every such record is in it. */
  lemma GroupKeepsOrder(meds: seq<Record>, e: string)
    ensures KeepsInOrder(HasEmail(e), meds, Positions(HasEmail(e), meds), GroupFor(meds, e))
  {
    GroupForIsFilter(meds, e);
    FilterInOrder(HasEmail(e), meds);
  }

  /** The distinct recipient emails of `meds`, in order of first appearance: the order in
      which the grouping loop creates the dictionary's keys. */
  function Emails(meds: seq<Record>): (r: seq<string>)
    ensures Distinct(r)
  {
    if meds == [] then []
    else
      var prev := Emails(meds[..|meds| - 1]);
      var last := meds[|meds| - 1];
      if last.email in prev then prev else prev + [last.email]
  }

  lemma EmailsSnoc(meds: seq<Record>, m: Record)
    ensures Emails(meds + [m]) == if m.email in Emails(meds) then Emails(meds) else Emails(meds) + [m.email]
  {
    assert (meds + [m])[..|meds|] == meds;
  }

  /** The recipients are exactly the emails that some record carries. */
  lemma {:induction false} EmailsMembers(meds: seq<Record>)
    ensures forall e :: e in Emails(meds) <==> exists m :: m in meds && m.email == e
  {
    if meds != [] {
      var n := |meds| - 1;
      EmailsMembers(meds[..n]);
      assert meds == meds[..n] + [meds[n]];
    }
  }

  /** A recipient without records has an empty group. */
  lemma {:induction false} GroupEmptyWhenAbsent(meds: seq<Record>, e: string)
    requires e !in Emails(meds)
    ensures GroupFor(meds, e) == []
  {
    if meds != [] {
      var n := |meds| - 1;
      EmailsSnoc(meds[..n], meds[n]);
      assert meds == meds[..n] + [meds[n]];
      GroupEmptyWhenAbsent(meds[..n], e);
    }
  }

  /** The dictionary of groups, keyed by email. */
  function GroupMap(meds: seq<Record>): (groups: map<string, seq<Record>>) {
    map e | e in Emails(meds) :: GroupFor(meds, e)
  }

  /** Every record of `meds` is in exactly one group, the one keyed by its own email, the
      keys are the recipients, and no group is empty. */
  lemma GroupMapPartition(meds: seq<Record>)
    ensures forall e :: e in GroupMap(meds) <==> exists m :: m in meds && m.email == e
    ensures forall e, m :: e in GroupMap(meds) && m in meds ==> (m in GroupMap(meds)[e] <==> m.email == e)
    ensures forall e :: e in GroupMap(meds) ==> |GroupMap(meds)[e]| > 0
  {
    EmailsMembers(meds);
    forall e | e in GroupMap(meds)
      ensures |GroupMap(meds)[e]| > 0
      ensures forall m :: m in meds ==> (m in GroupMap(meds)[e] <==> m.email == e)
    {
      GroupForMembers(meds, e);
      var m :| m in meds && m.email == e;
      assert m in GroupMap(meds)[e];
    }
  }

  lemma GroupMapSnoc(meds: seq<Record>, m: Record)
    ensures GroupMap(meds + [m]) == GroupMap(meds)[m.email := GroupFor(meds, m.email) + [m]]
  {
    EmailsSnoc(meds, m);
    forall e | e in Emails(meds + [m])
      ensures GroupFor(meds + [m], e) == if e == m.email then GroupFor(meds, e) + [m] else GroupMap(meds)[e]
    {
      GroupForSnoc(meds, m, e);
    }
  }

  /** One iteration of the loop for a recipient that already has a group: the record is
      appended to that group. */
  lemma ExtendGroup(done: seq<Record>, m: Record)
    requires m.email in GroupMap(done)
    ensures GroupMap(done)[m.email := GroupMap(done)[m.email] + [m]] == GroupMap(done + [m])
    ensures Emails(done) == Emails(done + [m])
  {
    GroupMapSnoc(done, m);
    EmailsSnoc(done, m);
  }

  /** One iteration of the loop for a new recipient: a group holding just the record is
      created after all existing ones. */
  lemma StartGroup(done: seq<Record>, m: Record)
    requires m.email !in GroupMap(done)
    ensures GroupMap(done)[m.email := [m]] == GroupMap(done + [m])
    ensures Emails(done) + [m.email] == Emails(done + [m])
  {
    assert m.email !in Emails(done);
    GroupMapSnoc(done, m);
    EmailsSnoc(done, m);
    GroupEmptyWhenAbsent(done, m.email);
    assert GroupFor(done, m.email) + [m] == [m];
  }

  /** The groups of `keys`, one after another. */
  function Concat(meds: seq<Record>, keys: seq<string>): seq<Record> {
    if keys == [] then [] else GroupFor(meds, keys[0]) + Concat(meds, keys[1..])
  }

  lemma {:induction false} ConcatSnoc(meds: seq<Record>, m: Record, keys: seq<string>)
    requires Distinct(keys)
    ensures multiset(Concat(meds + [m], keys)) ==
      multiset(Concat(meds, keys)) + (if m.email in keys then multiset{m} else multiset{})
  {
    if keys != [] {
      var k, rest := keys[0], keys[1..];
      assert keys == [k] + rest;
      assert Distinct(rest);
      assert k !in rest;
      ConcatSnoc(meds, m, rest);
      GroupForSnoc(meds, m, k);
      assert multiset(Concat(meds + [m], keys)) ==
        multiset(GroupFor(meds + [m], k)) + multiset(Concat(meds + [m], rest));
      assert multiset(Concat(meds, keys)) ==
        multiset(GroupFor(meds, k)) + multiset(Concat(meds, rest));
    }
  }

  /** Taken one after another in the order of any duplicate-free list of keys that names
      every recipient, the groups are a permutation of the records: no record is lost or
      duplicated. */
  lemma {:induction false} GroupsArePermutation(meds: seq<Record>, keys: seq<string>)
    requires Distinct(keys)
    requires forall m :: m in meds ==> m.email in keys
    ensures multiset(Concat(meds, keys)) == multiset(meds)
    decreases |meds|
  {
    if meds == [] {
      ConcatEmpty(keys);
    } else {
      var n := |meds| - 1;
      var prefix := meds[..n];
      assert meds == prefix + [meds[n]];
      GroupsArePermutation(prefix, keys);
      ConcatSnoc(prefix, meds[n], keys);
    }
  }

  lemma {:induction false} ConcatEmpty(keys: seq<string>)
    ensures Concat([], keys) == []
  {
    if keys != [] {
      ConcatEmpty(keys[1..]);
    }
  }

  /** The group of a concatenation is the concatenation of the groups. */
  lemma {:induction false} GroupForAppend(a: seq<Record>, b: seq<Record>, e: string)
    ensures GroupFor(a + b, e) == GroupFor(a, e) + GroupFor(b, e)
  {
    if b == [] {
      assert a + b == a;
    } else {
      var n := |b| - 1;
      GroupForAppend(a, b[..n], e);
      assert b == b[..n] + [b[n]];
      assert a + b == (a + b[..n]) + [b[n]];
      GroupForSnoc(a + b[..n], b[n], e);
      GroupForSnoc(b[..n], b[n], e);
    }
  }

  /** The two batches in either order have the same recipients. */
  lemma RecipientsSymmetric(a: seq<Record>, b: seq<Record>)
    ensures forall e :: e in Emails(a + b) <==> e in Emails(b + a)
  {
    EmailsMembers(a + b);
    EmailsMembers(b + a);
    assert forall m :: m in a + b <==> m in b + a;
  }

  /** A recipient of only one of two batches has the same group in either order. */
  lemma GroupSymmetric(a: seq<Record>, b: seq<Record>, e: string)
    requires e !in Emails(a) || e !in Emails(b)
    ensures GroupFor(a + b, e) == GroupFor(b + a, e)
  {
    GroupForAppend(a, b, e);
    GroupForAppend(b, a, e);
    if e !in Emails(a) {
      GroupEmptyWhenAbsent(a, e);
      assert GroupFor(b, e) + [] == GroupFor(b, e);
    } else {
      GroupEmptyWhenAbsent(b, e);
      assert GroupFor(a, e) + [] == GroupFor(a, e);
    }
  }

  /** Two batches for different recipients have no recipient in common. */
  lemma DisjointRecipients(a: seq<Record>, b: seq<Record>, e: string)
    requires forall x, y :: x in a && y in b ==> x.email != y.email
    ensures e !in Emails(a) || e !in Emails(b)
  {
    EmailsMembers(a);
    EmailsMembers(b);
    if e in Emails(a) {
      var x :| x in a && x.email == e;
      assert forall y :: y in b ==> y.email != e;
    }
  }

  /** Grouping does not depend on the order of two batches for different recipients:
      `group(A ++ B)` and `group(B ++ A)` agree. */
  lemma GroupingOrderIndependent(a: seq<Record>, b: seq<Record>)
    requires forall x, y :: x in a && y in b ==> x.email != y.email
    ensures GroupMap(a + b) == GroupMap(b + a)
  {
    RecipientsSymmetric(a, b);
    forall e | e in Emails(a + b)
      ensures GroupFor(a + b, e) == GroupFor(b + a, e)
    {
      DisjointRecipients(a, b, e);
      GroupSymmetric(a, b, e);
    }
  }

  // ---------------------------------------------------------------------------
  // The grouping loop as the source writes it, over an object literal: a missing entry
  // gets an empty array, then the record is pushed onto its entry.

  /** The outcome of the grouping loop: the finished dictionary, or the `TypeError` thrown
      when `push` is looked up on a value that is not an array. */
  datatype GroupOutcome = Grouped(groups: Object<seq<Record>>) | TypeError(key: string)

  const Empty: Object<seq<Record>> := Object(map[], [])

  /** One iteration of the loop on a dictionary that inherits the names in `inherited`.
      An own array and an inherited function are both truthy, so only an undefined entry is
      initialised; `push` exists only on an own array. */
  function GroupStep(o: Object<seq<Record>>, m: Record, inherited: set<string>): GroupOutcome
    requires WellFormed(o)
  {
    var o1 := if Get(o, m.email, inherited).Undefined? then Put(o, m.email, []) else o;
    match Get(o1, m.email, inherited)
    case Own(list) => Grouped(Put(o1, m.email, list + [m]))
    case _ => TypeError(m.email)
  }

  /** The whole loop: the first `TypeError` ends it. */
  function GroupAll(meds: seq<Record>, inherited: set<string>): (r: GroupOutcome)
    ensures r.Grouped? ==> WellFormed(r.groups)
  {
    if meds == [] then Grouped(Empty)
    else
      match GroupAll(meds[..|meds| - 1], inherited)
      case TypeError(k) => TypeError(k)
      case Grouped(o) => GroupStep(o, meds[|meds| - 1], inherited)
  }

  /** The groups built so far form a well-formed dictionary. */
  lemma GroupObjectWellFormed(prefix: seq<Record>)
    ensures WellFormed(Object(GroupMap(prefix), Emails(prefix)))
  {
  }

  /** An iteration for a recipient that already has a group. */
  lemma StepOnOwn(prefix: seq<Record>, m: Record, inherited: set<string>)
    requires m.email in GroupMap(prefix)
    ensures GroupStep(Object(GroupMap(prefix), Emails(prefix)), m, inherited) ==
      Grouped(Object(GroupMap(prefix + [m]), Emails(prefix + [m])))
  {
    ExtendGroup(prefix, m);
  }

  /** An iteration for a new recipient whose email the dictionary does not inherit. */
  lemma StepOnNew(prefix: seq<Record>, m: Record, inherited: set<string>)
    requires m.email !in GroupMap(prefix) && m.email !in inherited
    ensures GroupStep(Object(GroupMap(prefix), Emails(prefix)), m, inherited) ==
      Grouped(Object(GroupMap(prefix + [m]), Emails(prefix + [m])))
  {
    GroupObjectWellFormed(prefix);
    var o := Object(GroupMap(prefix), Emails(prefix));
    assert Get(o, m.email, inherited) == Undefined;
    var o1 := Put(o, m.email, []);
    assert Get(o1, m.email, inherited) == Own([]);
    CreateGroup(prefix, m);
  }

  /** Creating the empty group of a new recipient and pushing the record onto it gives the
      groups of the longer prefix. */
  lemma CreateGroup(prefix: seq<Record>, m: Record)
    requires m.email !in GroupMap(prefix)
    ensures WellFormed(Object(GroupMap(prefix), Emails(prefix)))
    ensures Put(Put(Object(GroupMap(prefix), Emails(prefix)), m.email, []), m.email, [] + [m]) ==
      Object(GroupMap(prefix + [m]), Emails(prefix + [m]))
  {
    GroupObjectWellFormed(prefix);
    StartGroup(prefix, m);
    var g, k := GroupMap(prefix), m.email;
    var o1 := Put(Object(g, Emails(prefix)), k, []);
    assert o1.props == g[k := []] && o1.created == Emails(prefix) + [k];
    assert k in o1.props;
    var one: seq<Record> := [] + [m];
    assert one == [m];
    var o2 := Put(o1, k, one);
    assert o2.created == o1.created;
    assert o2.props == o1.props[k := one];
    UpdateTwice(g, k, [], [m]);
  }

  lemma UpdateTwice<K, V>(g: map<K, V>, k: K, a: V, b: V)
    ensures g[k := a][k := b] == g[k := b]
  {
  }

  /** One iteration on the dictionary of groups built so far: it throws exactly when the
      record's email is an inherited name, and otherwise yields the groups of the longer prefix. */
  lemma GroupStepMeaning(prefix: seq<Record>, m: Record, inherited: set<string>)
    requires forall x :: x in prefix ==> x.email !in inherited
    ensures WellFormed(Object(GroupMap(prefix), Emails(prefix)))
    ensures GroupStep(Object(GroupMap(prefix), Emails(prefix)), m, inherited) ==
      if m.email in inherited then TypeError(m.email)
      else Grouped(Object(GroupMap(prefix + [m]), Emails(prefix + [m])))
  {
    GroupObjectWellFormed(prefix);
    if m.email in GroupMap(prefix) {
      EmailsMembers(prefix);
      assert m.email !in inherited;
      StepOnOwn(prefix, m, inherited);
    } else if m.email !in inherited {
      StepOnNew(prefix, m, inherited);
    }
  }

  /** Over a dictionary whose prototype supplies the names in `inherited`, the loop throws
      exactly when some record's email is one of those names, and otherwise builds the
      groups of `GroupMap` with keys created in first-appearance order. */
  lemma {:induction false} GroupAllMeaning(meds: seq<Record>, inherited: set<string>)
    ensures GroupAll(meds, inherited).TypeError? <==> exists m :: m in meds && m.email in inherited
    ensures GroupAll(meds, inherited).Grouped? ==>
      GroupAll(meds, inherited).groups == Object(GroupMap(meds), Emails(meds))
    decreases |meds|
  {
    if meds != [] {
      var n := |meds| - 1;
      var prefix, m := meds[..n], meds[n];
      assert meds == prefix + [m];
      GroupAllMeaning(prefix, inherited);
      if GroupAll(prefix, inherited).Grouped? {
        GroupStepMeaning(prefix, m, inherited);
      }
    }
  }

  /** With no inherited names (a dictionary created by `Object.create(null)`, or one that
      tests for own properties) the loop never throws and builds exactly the groups. */
  lemma NullPrototypeGroupsAll(meds: seq<Record>)
    ensures GroupAll(meds, {}) == Grouped(Object(GroupMap(meds), Emails(meds)))
  {
    GroupAllMeaning(meds, {});
  }

  // ---------------------------------------------------------------------------
  // The grouping loop the sweep runs.

  /** Some record is addressed to a name that the dictionary inherits. */
  predicate HitsInherited(meds: seq<Record>, inherited: set<string>) {
    exists m :: m in meds && m.email in inherited
  }

  /** The `forEach` loop, building the dictionary in place on an object whose prototype
      supplies the names in `inherited`: `groups` holds the own properties and `keys` their
      names in creation order. An own array and an inherited member are both truthy, so only
      a missing entry is initialised, and `push` on an inherited member throws (`thrown`).
      The loop throws exactly when the as-written fold does, and otherwise leaves the
      dictionary of groups with its keys in first-appearance order. */
  method GroupByEmail(meds: seq<Record>, inherited: set<string>)
    returns (thrown: bool, groups: map<string, seq<Record>>, keys: seq<string>)
    ensures thrown <==> HitsInherited(meds, inherited)
    ensures thrown == GroupAll(meds, inherited).TypeError?
    ensures !thrown ==> groups == GroupMap(meds) && keys == Emails(meds)
    ensures !thrown ==> GroupAll(meds, inherited) == Grouped(Object(groups, keys))
  {
    thrown, groups, keys := false, map[], [];
    for i := 0 to |meds|
      invariant forall x :: x in meds[..i] ==> x.email !in inherited
      invariant groups == GroupMap(meds[..i])
      invariant keys == Emails(meds[..i])
    {
      var m := meds[i];
      assert meds[..i + 1] == meds[..i] + [m];
      if m.email !in groups {
        if m.email in inherited {
          thrown := true;
          assert meds[i] in meds;
          GroupAllMeaning(meds, inherited);
          return;
        }
        StartGroup(meds[..i], m);
        groups := groups[m.email := []];
        keys := keys + [m.email];
      } else {
        EmailsMembers(meds[..i]);
        ExtendGroup(meds[..i], m);
      }
      groups := groups[m.email := groups[m.email] + [m]];
    }
    assert meds[..|meds|] == meds;
    GroupAllMeaning(meds, inherited);
  }
}
