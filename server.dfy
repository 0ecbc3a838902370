/** The stateful part of the reminder server (server/index.js): the medication
    collection that `insertMany` appends to and `find` reads, the mail transport, the
    console, the `POST /medications` handler and `sendRemindersForTime`. */
module Server {
  import opened Collections
  import opened Medication
  import opened SaveHandler
  import opened Grouping
  import opened JsObject
  import opened Rendering
  import opened Reminders

  /** The medication collection: its rows in insertion order. */
  class MedicationStore {
    var records: seq<Record>

    constructor()
      ensures records == []
    {
      records := [];
    }

    /** `Medication.insertMany(rows)`: on success the rows are appended after the existing
        ones; an insert that fails (`succeeds` is false) leaves the collection as it was. */
    method InsertMany(rows: seq<Record>, succeeds: bool) returns (ok: bool)
      modifies this
      ensures ok == succeeds
      ensures records == if succeeds then old(records) + rows else old(records)
    {
      ok := succeeds;
      if succeeds {
        records := records + rows;
      }
    }

    /** `Medication.find({ timing: slot })`: the rows whose `timing` holds `slot`, in store order. */
    function Find(slot: string): (r: seq<Record>)
      reads this
      ensures forall x :: x in r <==> x in records && slot in x.timing
    {
      MatchingMembers(records, slot);
      Matching(records, slot)
    }
  }

  /** The mail transport: the mails it has accepted, in order. */
  class MailTransport {
    var outbox: seq<Mail>

    constructor()
      ensures outbox == []
    {
      outbox := [];
    }

    /** `transporter.sendMail(mail)`: an accepted mail is delivered; a rejected one is not. */
    method SendMail(mail: Mail, accepted: bool) returns (ok: bool)
      modifies this
      ensures ok == accepted
      ensures outbox == if accepted then old(outbox) + [mail] else old(outbox)
    {
      ok := accepted;
      if accepted {
        outbox := outbox + [mail];
      }
    }
  }

  /** A line written by `console.log` or `console.error`. */
  datatype LogLine = Info(text: string) | Error(text: string)

  /** The console: the lines written so far. */
  class Console {
    var lines: seq<LogLine>

    constructor()
      ensures lines == []
    {
      lines := [];
    }

    method Log(line: LogLine)
      modifies this
      ensures lines == old(lines) + [line]
    {
      lines := lines + [line];
    }
  }

  // ---------------------------------------------------------------------------
  // POST /medications

  datatype Body = ErrorBody(error: string) | MessageBody(message: string)

  datatype Response = Response(status: int, body: Body)

  const SavedMessage := "Medications saved."
  const SaveFailed := "Failed to save medications."
  const SaveError := Error("[Save Medications Error]")

  /** The handler, with the insertion time `now` and the outcome of the insert as inputs.
      A rejected request is answered with 400 and touches nothing; a request that throws,
      or whose insert fails, is logged and answered with 500 and leaves the store as it
      was; otherwise exactly the prepared rows are appended after the existing ones. */
  method SaveMedications(store: MedicationStore, console: Console, req: SaveRequest, now: int, insertSucceeds: bool)
    returns (resp: Response)
    modifies store, console
    ensures Prepare(req, now).Invalid? ==>
      && resp == Response(400, ErrorBody(Prepare(req, now).error))
      && store.records == old(store.records)
      && console.lines == old(console.lines)
    ensures Prepare(req, now).Throws? || (Prepare(req, now).Rows? && !insertSucceeds) ==>
      && resp == Response(500, ErrorBody(SaveFailed))
      && store.records == old(store.records)
      && console.lines == old(console.lines) + [SaveError]
    ensures Prepare(req, now).Rows? && insertSucceeds ==>
      && resp == Response(200, MessageBody(SavedMessage))
      && store.records == old(store.records) + Prepare(req, now).rows
      && console.lines == old(console.lines)
  {
    match Prepare(req, now)
    case Invalid(error) =>
      resp := Response(400, ErrorBody(error));
    case Throws =>
      console.Log(SaveError);
      resp := Response(500, ErrorBody(SaveFailed));
    case Rows(rows) =>
      var ok := store.InsertMany(rows, insertSucceeds);
      if ok {
        resp := Response(200, MessageBody(SavedMessage));
      } else {
        console.Log(SaveError);
        resp := Response(500, ErrorBody(SaveFailed));
      }
  }

  // ---------------------------------------------------------------------------
  // sendRemindersForTime

  /** The line logged after each mail is sent. */
  function SentNotice(email: string, slot: string): LogLine {
    Info("\U{2705} Reminder sent to " + email + " for " + slot)
  }

  /** The line logged when the query, the grouping or a send fails. */
  function CronError(slot: string): LogLine {
    Error("[Cron Error - " + slot + "]")
  }

  /** The notices for the first `n` mails, one per mail, in order. */
  function SentLog(mails: seq<Mail>, slot: string, n: nat): (r: seq<LogLine>)
    requires n <= |mails|
    ensures |r| == n
  {
    if n == 0 then [] else SentLog(mails, slot, n - 1) + [SentNotice(mails[n - 1].to, slot)]
  }

  /** The send loop over the entries of the dictionary, given the mail of each entry in
      entry order: the mails are sent in order up to, not including, the first one the
      transport rejects; each sent mail is logged, and a rejection ends the loop with the
      error logged. */
  method SendAll(transport: MailTransport, console: Console, slot: string, mails: seq<Mail>, rejects: Mail -> bool)
    modifies transport, console
    ensures var n := Delivered(mails, rejects);
      && transport.outbox == old(transport.outbox) + mails[..n]
      && console.lines == old(console.lines) + SentLog(mails, slot, n) + (if n < |mails| then [CronError(slot)] else [])
  {
    var i := 0;
    while i < |mails|
      invariant 0 <= i <= |mails|
      invariant forall j :: 0 <= j < i ==> !rejects(mails[j])
      invariant transport.outbox == old(transport.outbox) + mails[..i]
      invariant console.lines == old(console.lines) + SentLog(mails, slot, i)
    {
      var mail := mails[i];
      var ok := transport.SendMail(mail, !rejects(mail));
      if !ok {
        console.Log(CronError(slot));
        DeliveredAt(mails, rejects, i);
        return;
      }
      assert mails[..i + 1] == mails[..i] + [mail];
      console.Log(SentNotice(mail.to, slot));
      i := i + 1;
    }
    DeliveredAt(mails, rejects, i);
  }

  /** One firing for `slot`, grouping in a dictionary whose prototype supplies the names in
      `prototype`: `ObjectPrototype` for the object literal `{}` the source uses, the empty
      set for a dictionary without a prototype. The query fails when `queryFails` holds; the
      transport rejects the mails for which `rejects` holds. When the query fails, or the
      grouping throws because a matched email is an inherited name, nothing is sent and the
      error is logged. Otherwise the mails of `ReminderMails` over the matching records are
      sent in order up to, not including, the first rejected one; each sent mail is logged,
      and a rejection ends the firing with the error logged. The store is not changed. */
  method SendRemindersForTime(store: MedicationStore, transport: MailTransport, console: Console,
                              sender: string, slot: string, prototype: set<string>,
                              queryFails: bool, rejects: Mail -> bool)
    modifies transport, console
    ensures queryFails || HitsInherited(Matching(store.records, slot), prototype) ==>
      && transport.outbox == old(transport.outbox)
      && console.lines == old(console.lines) + [CronError(slot)]
    ensures !queryFails && !HitsInherited(Matching(store.records, slot), prototype) ==>
      var mails := ReminderMails(sender, slot, Matching(store.records, slot));
      var n := Delivered(mails, rejects);
      && transport.outbox == old(transport.outbox) + mails[..n]
      && console.lines == old(console.lines) + SentLog(mails, slot, n) + (if n < |mails| then [CronError(slot)] else [])
  {
    if queryFails {
      console.Log(CronError(slot));
      return;
    }
    var meds := store.Find(slot);
    var thrown, groups, keys := GroupByEmail(meds, prototype);
    if thrown {
      console.Log(CronError(slot));
      return;
    }
    SendGroups(transport, console, sender, slot, meds, groups, keys, rejects);
  }

  /** The send loop over the finished dictionary of groups of `meds`, whose keys were
      created in the order `keys`: the entries are visited in `Object.entries` order. */
  method SendGroups(transport: MailTransport, console: Console, sender: string, slot: string,
                    meds: seq<Record>, groups: map<string, seq<Record>>, keys: seq<string>, rejects: Mail -> bool)
    requires groups == GroupMap(meds) && keys == Emails(meds)
    modifies transport, console
    ensures var mails := ReminderMails(sender, slot, meds);
      var n := Delivered(mails, rejects);
      && transport.outbox == old(transport.outbox) + mails[..n]
      && console.lines == old(console.lines) + SentLog(mails, slot, n) + (if n < |mails| then [CronError(slot)] else [])
  {
    var order := EntriesOrder(keys);
    assert order == DispatchOrder(meds);
    var mails := MailsFor(sender, slot, groups, order);
    SendAll(transport, console, slot, mails, rejects);
  }
}
