/** What one reminder firing sends (server/index.js, lines 81-108): the records the
    query selects for the slot, one mail per recipient in the order in which the
    dictionary of groups lists its keys, and the point at which a rejected mail ends
    the firing. Also the firing as the source writes it, over a plain object `{}`. */
module Reminders {
  import opened Collections
  import opened Medication
  import opened JsObject
  import opened Grouping
  import opened Rendering

  /** The records the query `{ timing: slot }` matches: those whose `timing` array holds `slot`. */
  function HasSlot(slot: string): Record -> bool {
    (r: Record) => slot in r.timing
  }

  /** The query's result, in store order. */
  function Matching(records: seq<Record>, slot: string): seq<Record> {
    Filter(HasSlot(slot), records)
  }

  /** The sweep considers exactly the stored records whose `timing` holds the slot. */
  lemma MatchingMembers(records: seq<Record>, slot: string)
    ensures forall r :: r in Matching(records, slot) <==> r in records && slot in r.timing
  {
    forall r | r in records && slot in r.timing
      ensures r in Matching(records, slot)
    {
      var i :| 0 <= i < |records| && records[i] == r;
      assert HasSlot(slot)(records[i]);
    }
  }

  /** Each matching record is selected as often as it is stored, and the selection keeps store order. */
  lemma MatchingExactly(records: seq<Record>, slot: string)
    ensures forall r :: multiset(Matching(records, slot))[r] == if slot in r.timing then multiset(records)[r] else 0
    ensures KeepsInOrder(HasSlot(slot), records, Positions(HasSlot(slot), records), Matching(records, slot))
  {
    FilterMultiset(HasSlot(slot), records);
    FilterInOrder(HasSlot(slot), records);
  }

  /** The order in which the send loop visits the recipients: `Object.entries` of the
      dictionary, whose keys were created in first-appearance order. */
  function DispatchOrder(meds: seq<Record>): (r: seq<string>)
    ensures Distinct(r)
    ensures forall e :: e in r <==> e in Emails(meds)
  {
    EntriesOrderDistinct(Emails(meds));
    EntriesOrder(Emails(meds))
  }

  /** One mail per key, in key order, each built from that key's group. */
  function MailsFor(sender: string, slot: string, groups: map<string, seq<Record>>, keys: seq<string>): (r: seq<Mail>)
    requires forall k :: 0 <= k < |keys| ==> keys[k] in groups
    ensures |r| == |keys|
    ensures forall j :: 0 <= j < |r| ==> r[j].to == keys[j]
  {
    seq(|keys|, j requires 0 <= j < |keys| => ComposeMail(sender, slot, keys[j], groups[keys[j]]))
  }

  /** The mails of a firing over the selected records `meds`, in send order. */
  function ReminderMails(sender: string, slot: string, meds: seq<Record>): seq<Mail> {
    MailsFor(sender, slot, GroupMap(meds), DispatchOrder(meds))
  }

  /** There are as many mails as distinct recipients. */
  lemma MailCount(sender: string, slot: string, meds: seq<Record>)
    ensures |ReminderMails(sender, slot, meds)| == |Emails(meds)|
  {
    var keys := DispatchOrder(meds);
    assert |multiset(keys)| == |multiset(Emails(meds))|;
  }

  /** The send order names every recipient once, and nothing else. */
  lemma DispatchOrderCovers(meds: seq<Record>)
    ensures forall m :: m in meds ==> m.email in DispatchOrder(meds)
    ensures forall k :: k in DispatchOrder(meds) ==> exists m :: m in meds && m.email == k
  {
    EmailsMembers(meds);
  }

  /** An email address holds an `@`, so it is never an array index. */
  lemma AddressIsNamed(email: string)
    requires '@' in email
    ensures IsNamedKey(email)
  {
    var i :| 0 <= i < |email| && email[i] == '@';
    NonDigitIsNamed(email, i);
  }

  /** For email addresses the send order is the order in which the recipients first appear
      in the query result. */
  lemma AddressesKeepFirstAppearanceOrder(meds: seq<Record>)
    requires forall m :: m in meds ==> '@' in m.email
    ensures DispatchOrder(meds) == Emails(meds)
  {
    var keys := Emails(meds);
    forall k | 0 <= k < |keys|
      ensures IsNamedKey(keys[k])
    {
      EmailsMembers(meds);
      assert keys[k] in keys;
      var m :| m in meds && m.email == keys[k];
      AddressIsNamed(m.email);
    }
    NamedKeysKeepCreationOrder(keys);
  }

  /** The `to` fields of the mails, in order. */
  function Addressees(mails: seq<Mail>): (r: seq<string>)
    ensures |r| == |mails|
  {
    seq(|mails|, j requires 0 <= j < |mails| => mails[j].to)
  }

  /** Exactly one mail goes to each distinct recipient, however many records it has: the
      mails go to pairwise different emails, in send order, and to every recipient of a
      selected record and nobody else. */
  lemma OneMailPerRecipient(sender: string, slot: string, meds: seq<Record>)
    ensures var to := Addressees(ReminderMails(sender, slot, meds));
      && to == DispatchOrder(meds)
      && |to| == |Emails(meds)|
      && Distinct(to)
      && (forall e :: e in to <==> e in Emails(meds))
      && (forall m :: m in meds ==> m.email in to)
  {
    MailCount(sender, slot, meds);
    DispatchOrderCovers(meds);
    var to := Addressees(ReminderMails(sender, slot, meds));
    assert to == DispatchOrder(meds);
  }

  /** Every mail carries the reminder's sender and subject, and its bodies are rendered
      from the recipient's whole group. */
  lemma MailContents(sender: string, slot: string, meds: seq<Record>)
    ensures var mails := ReminderMails(sender, slot, meds);
      forall j :: 0 <= j < |mails| ==>
        && mails[j].from == From(sender)
        && mails[j].subject == Subject(slot)
        && mails[j].text == PlainText(GroupFor(meds, mails[j].to))
        && mails[j].html == Html(slot, GroupFor(meds, mails[j].to))
  {
  }

  /** Taken in send order, the groups are a permutation of the selected records: none is
      left out and none is sent twice. */
  lemma DispatchedGroupsArePermutation(meds: seq<Record>)
    ensures multiset(Concat(meds, DispatchOrder(meds))) == multiset(meds)
  {
    EmailsMembers(meds);
    GroupsArePermutation(meds, DispatchOrder(meds));
  }

  /** Every stored record for the slot is listed in the mail to its own email, and in no other mail. */
  lemma EveryDueRecordIsMailed(sender: string, slot: string, records: seq<Record>, r: Record)
    requires r in records && slot in r.timing
    ensures var meds := Matching(records, slot); var mails := ReminderMails(sender, slot, meds);
      && (exists j :: 0 <= j < |mails| && mails[j].to == r.email)
      && (forall j :: 0 <= j < |mails| ==> (r in GroupFor(meds, mails[j].to) <==> mails[j].to == r.email))
  {
    var meds := Matching(records, slot);
    MatchingMembers(records, slot);
    OneMailPerRecipient(sender, slot, meds);
    assert r in meds;
    var mails := ReminderMails(sender, slot, meds);
    forall j | 0 <= j < |mails|
      ensures r in GroupFor(meds, mails[j].to) <==> mails[j].to == r.email
    {
      GroupForMembers(meds, mails[j].to);
    }
  }

  /** The number of mails sent before the first one the transport rejects; all of them
      when it rejects none. */
  function Delivered(mails: seq<Mail>, rejects: Mail -> bool): (n: nat)
    ensures n <= |mails|
    ensures forall j :: 0 <= j < n ==> !rejects(mails[j])
    ensures n < |mails| ==> rejects(mails[n])
  {
    if mails == [] || rejects(mails[0]) then 0 else 1 + Delivered(mails[1..], rejects)
  }

  /** Delivery stops at the first rejected mail. */
  lemma DeliveredAt(mails: seq<Mail>, rejects: Mail -> bool, i: nat)
    requires i <= |mails|
    requires forall j :: 0 <= j < i ==> !rejects(mails[j])
    requires i < |mails| ==> rejects(mails[i])
    ensures Delivered(mails, rejects) == i
  {
  }

  // ---------------------------------------------------------------------------
  // The firing as written, over a dictionary that inherits from `Object.prototype`.

  /** A firing ends with the mails it sent, or is aborted by a `TypeError` before any is sent. */
  datatype Firing = Aborted | Dispatched(mails: seq<Mail>)

  function AsWrittenFiring(sender: string, slot: string, meds: seq<Record>): Firing {
    match GroupAll(meds, ObjectPrototype)
    case TypeError(_) => Aborted
    case Grouped(o) =>
      var keys := EntriesOrder(o.created);
      assert forall k :: 0 <= k < |keys| ==> keys[k] in multiset(o.created);
      Dispatched(MailsFor(sender, slot, o.props, keys))
  }

  /** As written, a recipient whose email is the name of an `Object.prototype` member aborts
      the whole firing: nobody is reminded. Otherwise it sends exactly `ReminderMails`. */
  lemma AsWrittenFiringMeaning(sender: string, slot: string, meds: seq<Record>)
    ensures AsWrittenFiring(sender, slot, meds) == Aborted <==> exists m :: m in meds && m.email in ObjectPrototype
    ensures AsWrittenFiring(sender, slot, meds).Dispatched? ==>
      AsWrittenFiring(sender, slot, meds).mails == ReminderMails(sender, slot, meds)
  {
    GroupAllMeaning(meds, ObjectPrototype);
  }

  function Patient(email: string): Record {
    Record(email, "Aspirin", "1 tablet", ["Morning"], "", "", "", 0)
  }

  /** Two due records, for "alice@example.com" and for "constructor": as written the firing
      throws and Alice gets no reminder, while grouping on a dictionary without inherited
      names sends both mails. */
  lemma PrototypeNameAbortsFiring(sender: string)
    ensures var meds := [Patient("alice@example.com"), Patient("constructor")];
      && AsWrittenFiring(sender, "Morning", meds) == Aborted
      && |ReminderMails(sender, "Morning", meds)| == 2
  {
    var meds := [Patient("alice@example.com"), Patient("constructor")];
    AsWrittenAborts(sender, meds);
    TwoRecipients(sender, meds);
  }

  lemma AsWrittenAborts(sender: string, meds: seq<Record>)
    requires meds == [Patient("alice@example.com"), Patient("constructor")]
    ensures AsWrittenFiring(sender, "Morning", meds) == Aborted
  {
    AsWrittenFiringMeaning(sender, "Morning", meds);
    assert "constructor" in ObjectPrototype;
    assert meds[1] in meds;
  }

  lemma TwoRecipients(sender: string, meds: seq<Record>)
    requires meds == [Patient("alice@example.com"), Patient("constructor")]
    ensures |ReminderMails(sender, "Morning", meds)| == 2
  {
    MailCount(sender, "Morning", meds);
    assert meds[..1] == [meds[0]];
    assert [meds[0]][..0] == [];
    assert Emails(meds[..1]) == ["alice@example.com"];
    assert "constructor" != "alice@example.com";
  }
}
