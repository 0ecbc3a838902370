# MediCheck reminder back end, modelled in Dafny

MediCheck's server (`server/index.js`) does two things.

- **`POST /medications`** validates a save request and drops incomplete entries. It stamps each surviving entry with the request's email, fills the optional fields with `""` and appends the rows to the `Medication` collection.
- **`sendRemindersForTime(slot)`** runs twice a day from a cron job. It selects the records whose `timing` holds the slot and groups them by recipient email in a plain object. It then sends one mail per recipient, with a plain-text and an HTML list of that recipient's medications, and logs each send. A failure ends the firing with a logged error.

Modules, one file each:

- `Collections`: `Option`, JavaScript's `filter` on sequences, the order it keeps, and duplicate-free lists. Shared by both parts.
- `Text`: `join`, `split` on one character, and counting occurrences of a tag.
- `Medication`: the record of the Mongoose schema, the request elements as parsed JSON, JavaScript truthiness and `x || ""`.
- `SaveHandler`: the handler's decision before it touches the store. The result is a 400 answer, a `TypeError`, or the rows to insert.
- `JsObject`: a plain object used as a dictionary. It models lookup that falls back on `Object.prototype`, property creation, and the order of `Object.entries`.
- `Grouping`: the groups as a specification, with the partition and permutation lemmas. It also has the grouping loop as written over `{}`, and the in-place grouping method the sweep runs.
- `Rendering`: the mail of one group. This covers the sender, subject, bullet lines and list items.
- `Reminders`: what one firing sends, in which order, and where a rejected mail stops it. It also has the firing as written.
- `Server`: the state that changes.
  - Classes for the collection (`MedicationStore`), the mail transport (`MailTransport`) and the console (`Console`), each a `seq` field that its methods append to.
  - The handler `SaveMedications`.
  - The sweep `SendRemindersForTime`, built from the grouping loop `Grouping.GroupByEmail` and the send loop `SendAll`. The sweep takes the names the grouping dictionary inherits as a parameter. With `ObjectPrototype` it is the source as written, including the `TypeError` described under "## Findings"; with the empty set it is the corrected sweep.

Inputs from outside the program are parameters of the model:

- the insertion time `now`;
- whether `insertMany` succeeds;
- whether the query fails;
- which mails the transport rejects (`rejects: Mail -> bool`);
- the sender address, which the source reads from `EMAIL_USER`.

## Model

| member | source | states |
|---|---|---|
| Medication.Truthy | server/index.js:52-57 | definition: JavaScript truthiness of an optional string; used by `Prepare`, whose contract states the 400 cases |
| Medication.Keep | server/index.js:57 | definition: the filter test; `SaveHandler.RowCount` and `SaveHandler.RowsFollowKeptEntries` state what it keeps |
| Medication.ToRecord | server/index.js:58-66 | definition: the row built from a kept entry; `SaveHandler.RowsFollowKeptEntries` states its fields |
| Medication.OrEmpty | server/index.js:63-65 | `v \|\| ""`: a truthy optional field keeps its value; a missing, `null` or empty one becomes "" |
| Medication.ToRecords | server/index.js:58-66 | one row per kept entry |
| SaveHandler.Malformed | server/index.js:52 | definition: the first 400 test; `SaveHandler.Prepare` states both directions |
| SaveHandler.Prepare | server/index.js:50-70 | "Invalid request." exactly when the email is falsy or `medications` is not an array; a `TypeError` exactly when a well-formed request holds a `null` element; rows are never an empty batch, and each row carries the request's email, a non-empty medicine and dosage, and the insertion time |
| SaveHandler.NothingKeptIsRejected | server/index.js:56-70 | "No valid medications provided." is the answer exactly when the request is well formed, holds no `null`, and no entry passes the filter |
| SaveHandler.RowCount | server/index.js:56-57 | the number of rows equals the number of entries with a non-empty medicine and dosage and a present `timing` |
| SaveHandler.RowsFollowKeptEntries | server/index.js:56-66 | row j is the normalisation of the j-th kept entry (email stamped; medicine, dosage and timing copied; falsy optional fields become ""; creation time set); the positions increase, and every kept entry is used |
| Server.MedicationStore.InsertMany | server/index.js:72 | a successful insert appends the rows after the existing ones; a failed one leaves the collection unchanged |
| Server.MedicationStore.Find | server/index.js:82 | the query result holds exactly the stored records whose `timing` holds the slot |
| Server.MailTransport.SendMail | server/index.js:102 | an accepted mail is appended to the outbox; a rejected one is not, and the call reports the failure |
| Server.Console.Log | server/index.js:103 | a logged line is appended to the console |
| Server.SaveMedications | server/index.js:48-78 | 400 with the prepared message and nothing changed for a rejected request; 500, the error logged and the store unchanged for a `TypeError` or a failed insert; otherwise 200, with exactly the prepared rows appended and nothing logged |
| Server.SentLog | server/index.js:103 | one notice per sent mail |
| Server.SendAll | server/index.js:90-107 | the mails are sent in order up to, not including, the first rejected one; each sent mail is logged; a rejection ends the loop with the cron error logged |
| Server.SendRemindersForTime | server/index.js:81-108 | the grouping runs on a dictionary that inherits the names `prototype` (`ObjectPrototype` for the source's `{}`); a failed query, or a grouping that throws because a matched email is an inherited name, sends nothing and logs the cron error; otherwise the outbox grows by the prefix of `ReminderMails` over the matching records that precedes the first rejected mail, with one notice per sent mail and the cron error after a rejection; the store is not changed |
| Server.SendGroups | server/index.js:90-107 | with the finished groups of the matched records, the mails of `ReminderMails` are sent up to the first rejected one, each logged, with the cron error after a rejection |
| Server.SentNotice | server/index.js:103 | definition: the line logged after a mail is sent; counted per mail by `SentLog` and stated by `SendAll` |
| Server.CronError | server/index.js:105-107 | definition: the error line of a failed firing; when it is logged is stated by `SendAll` and `SendRemindersForTime` |
| Reminders.HasSlot | server/index.js:82 | definition: the test of the query `{ timing: slot }`, that the record's `timing` holds the slot; used by `Matching` |
| Reminders.MatchingMembers | server/index.js:82 | a record is considered exactly when it is stored and its `timing` holds the slot |
| Reminders.Matching | server/index.js:82 | definition: the query result; its properties are proved in `MatchingMembers` and `MatchingExactly` |
| Reminders.MatchingExactly | server/index.js:82 | each matching record is selected as often as it is stored, non-matching ones never, and the selection keeps store order |
| Reminders.DispatchOrder | server/index.js:90 | the send order is duplicate free and names exactly the recipients |
| Reminders.MailsFor | server/index.js:90-101 | one mail per key, the j-th addressed to the j-th key |
| Reminders.ReminderMails | server/index.js:90-101 | definition: the mails of a firing in send order; its properties are proved in `MailCount`, `OneMailPerRecipient`, `MailContents` and `EveryDueRecordIsMailed` |
| Reminders.MailCount | server/index.js:90-102 | as many mails as distinct recipient emails |
| Reminders.AddressIsNamed | server/index.js:90 | an email address, which holds an `@`, is never an array-index name |
| Reminders.AddressesKeepFirstAppearanceOrder | server/index.js:85-90 | when every matched email holds an `@`, the mails go out in the order in which the recipients first appear in the query result |
| Reminders.DispatchOrderCovers | server/index.js:90 | every matched record's email is in the send order, and every email there belongs to some matched record |
| Reminders.OneMailPerRecipient | server/index.js:90-102 | the mails' addressees are the send order: pairwise different, one per distinct email, each record's email among them and nobody else |
| Reminders.MailContents | server/index.js:94-100 | every mail has the reminder sender and the subject for the slot, and its text and HTML are rendered from its addressee's whole group |
| Reminders.DispatchedGroupsArePermutation | server/index.js:83-90 | the groups, taken in send order, are a permutation of the matched records |
| Reminders.EveryDueRecordIsMailed | server/index.js:82-102 | every stored record for the slot lies in the group of some mail's addressee, and it is in a mail's group exactly when that mail goes to its own email |
| Reminders.Delivered | server/index.js:90-104 | the number of mails before the first rejected one: none before it is rejected, and the one at it is |
| Reminders.DeliveredAt | server/index.js:90-104 | an index whose prefix is all accepted and whose mail is rejected (or the end) is the number delivered |
| Reminders.AsWrittenFiring | server/index.js:83-104 | definition: the firing as written over `{}`; its properties are proved in `AsWrittenFiringMeaning` and `PrototypeNameAbortsFiring` |
| Reminders.AsWrittenFiringMeaning | server/index.js:83-107 | over `{}`, the firing aborts exactly when some matched email names an `Object.prototype` member; otherwise it sends exactly `ReminderMails` |
| Reminders.PrototypeNameAbortsFiring | server/index.js:83-88 | two due records, for "alice@example.com" and "constructor": as written nobody is reminded, while the corrected grouping makes two mails |
| Reminders.AsWrittenAborts | server/index.js:83-88 | helper: the as-written firing over the two records aborts |
| Reminders.TwoRecipients | server/index.js:90-101 | helper: the corrected firing over the two records makes two mails |
| Grouping.GroupFor | server/index.js:85-88 | definition: the reference group of one email, the records addressed to it in query order; its properties are proved in `GroupForMembers`, `GroupForIsFilter` and `GroupKeepsOrder` |
| Grouping.GroupMap | server/index.js:83-88 | definition: the reference dictionary of groups, one per recipient; its properties are proved in `GroupMapPartition`, and `GroupByEmail` and `GroupAllMeaning` end with it |
| Grouping.GroupForSnoc | server/index.js:87 | appending a record extends its own group and no other |
| Grouping.GroupForMembers | server/index.js:85-88 | a group holds exactly the records addressed to its key |
| Grouping.GroupForIsFilter | server/index.js:85-88 | a group is the filter of the records by email |
| Grouping.GroupKeepsOrder | server/index.js:85-88 | a group's j-th record is the j-th record addressed to its key, and every such record is in it |
| Grouping.Emails | server/index.js:86 | the keys the loop creates are duplicate free |
| Grouping.EmailsSnoc | server/index.js:86 | a record with a new email adds that email at the end; otherwise the keys stay the same |
| Grouping.EmailsMembers | server/index.js:85-88 | the keys are exactly the emails some record carries |
| Grouping.GroupEmptyWhenAbsent | server/index.js:85-88 | a non-recipient has an empty group |
| Grouping.GroupMapPartition | server/index.js:83-88 | the keys are the recipients; each matched record is in the group of its own email and in no other; no group is empty |
| Grouping.GroupMapSnoc | server/index.js:85-88 | one more record changes only the group of its own email, by appending it |
| Grouping.ExtendGroup | server/index.js:87 | for a known email, appending to its group yields the groups of the longer prefix, with the keys unchanged |
| Grouping.StartGroup | server/index.js:86-87 | for a new email, a one-record group created after the others yields the groups of the longer prefix |
| Grouping.ConcatSnoc | server/index.js:85-88 | one more record adds itself, once, to the concatenated groups of any duplicate-free key list that holds its email |
| Grouping.GroupsArePermutation | server/index.js:85-88 | the groups of any duplicate-free key list covering every recipient, taken in turn, are a permutation of the records |
| Grouping.ConcatEmpty | server/index.js:85-88 | helper: no records give no grouped records |
| Grouping.GroupForAppend | server/index.js:85-88 | the group of a concatenation is the concatenation of the groups |
| Grouping.RecipientsSymmetric | server/index.js:85-88 | two batches give the same recipients in either order |
| Grouping.GroupSymmetric | server/index.js:85-88 | a recipient of only one batch has the same group in either order |
| Grouping.DisjointRecipients | server/index.js:85-88 | batches whose emails differ have no recipient in common |
| Grouping.GroupingOrderIndependent | server/index.js:85-88 | for batches with disjoint recipients, grouping A then B equals grouping B then A |
| Grouping.GroupStep | server/index.js:86-87 | definition: one iteration of the loop over an object with inherited names; its meaning is proved in `GroupStepMeaning` |
| Grouping.GroupAll | server/index.js:83-88 | a finished dictionary is well formed |
| Grouping.GroupObjectWellFormed | server/index.js:83-88 | the groups built so far form a dictionary whose property list names each key once |
| Grouping.StepOnOwn | server/index.js:86-87 | an iteration for a recipient with an own group appends to it |
| Grouping.StepOnNew | server/index.js:86-87 | an iteration for an email that is neither own nor inherited creates its group after the others |
| Grouping.GroupStepMeaning | server/index.js:86-87 | an iteration throws exactly when the email is an inherited name, and otherwise yields the groups of the longer prefix |
| Grouping.GroupAllMeaning | server/index.js:83-88 | the loop throws exactly when some email is an inherited name, and otherwise builds exactly `GroupMap` with keys in first-appearance order |
| Grouping.NullPrototypeGroupsAll | server/index.js:83-88 | on a dictionary without inherited names the loop never throws and builds exactly the groups |
| Grouping.HitsInherited | server/index.js:86-87 | definition: some record's email is a name the dictionary inherits; `GroupByEmail` and `GroupAllMeaning` prove that the loop throws exactly then |
| Grouping.GroupByEmail | server/index.js:83-88 | the in-place `forEach` loop on a dictionary with the given inherited names throws exactly when some email is one of them, and exactly when the as-written fold `GroupAll` throws; otherwise it ends with the dictionary of groups, its keys in creation order, which is the dictionary `GroupAll` builds |
| Grouping.CreateGroup | server/index.js:86-87 | helper: creating the empty group of a new recipient and pushing the record gives the groups of the longer prefix |
| Grouping.UpdateTwice | server/index.js:86-87 | helper: a second assignment to a key overrides the first |
| JsObject.Get | server/index.js:86 | definition: reading a property, with the fallback on the prototype (for `{}`, the names in `ObjectPrototype`); used by `GroupStep`, proved about in `GroupStepMeaning` |
| JsObject.Put | server/index.js:86-87 | assignment keeps the dictionary well formed and sets the property |
| JsObject.AscendingCons | server/index.js:90 | helper: a name no greater than the head of an ascending list can precede it |
| JsObject.InsertByValue | server/index.js:90 | insertion into an ascending list adds the name once and keeps the list ascending |
| JsObject.SortByValue | server/index.js:90 | array-index names are sorted ascending, as a permutation |
| JsObject.EntriesOrder | server/index.js:90 | `Object.entries` lists each created name as often as it was created |
| JsObject.EntriesOrderShape | server/index.js:90 | array-index names come first, ascending by value; the other names follow in creation order |
| JsObject.EntriesOrderDistinct | server/index.js:90 | for distinct keys, `Object.entries` lists each own property exactly once, and nothing else |
| JsObject.NamedKeysKeepCreationOrder | server/index.js:90 | with no array-index name, such as email addresses, the entries come in creation order |
| JsObject.NoIndexFilter | server/index.js:90 | helper: with no array-index name, none is put first |
| JsObject.AllNamedFilter | server/index.js:90 | helper: with no array-index name, every name is kept in the named part |
| JsObject.IsArrayIndex | server/index.js:90 | definition: a canonical decimal integer below 2^32 - 1, the names `Object.entries` lists first; its effect on the order is proved in `EntriesOrderShape` |
| JsObject.NonDigitIsNamed | server/index.js:90 | helper: a name with a non-digit character is not an array index |
| Rendering.From | server/index.js:95 | definition: the sender field; stated per mail by `Reminders.MailContents` |
| Rendering.Subject | server/index.js:97 | definition: the subject, the alarm clock prefix and the slot; stated per mail by `Reminders.MailContents` |
| Rendering.Line | server/index.js:91 | definition: the bullet line of a record; its properties are proved in `LinesAt` and `PlainTextLineAt` |
| Rendering.PlainText | server/index.js:91-98 | definition: the plain-text body; its properties are proved in `PlainTextLines` and `PlainTextLineAt` |
| Rendering.Item | server/index.js:92 | definition: the list item of a record; its properties are proved in `ItemCount` |
| Rendering.Items | server/index.js:92 | definition: the joined list items; their properties are proved in `ItemsCount` |
| Rendering.Html | server/index.js:92-99 | definition: the HTML body; its properties are proved in `HtmlItemCount` |
| Rendering.ComposeMail | server/index.js:94-100 | definition: the mail options of one group; stated per mail by `Reminders.MailContents` |
| Rendering.Lines | server/index.js:91 | one line per record |
| Rendering.LinesAt | server/index.js:91 | line k is the bullet line of the k-th record |
| Rendering.SingleLine | server/index.js:91 | a bullet line holds a line break only if its medicine or dosage does |
| Rendering.LinesWithoutBreak | server/index.js:91 | no bullet line holds a break when no medicine or dosage does |
| Rendering.PlainTextLines | server/index.js:91-98 | the text body starts with the header and an empty line; the rest splits back into the group's bullet lines, in group order |
| Rendering.PlainTextLineAt | server/index.js:91-98 | after the header there are exactly as many lines as records, and line k is `• medicine (dosage)` of record k |
| Rendering.NoOverlapSuffix | server/index.js:99 | helper: a string ending in a long enough piece with no partial `<li>` at its end has none at its end either |
| Rendering.ItemTagCount | server/index.js:92 | helper: the `<li>` tag occurs once in itself |
| Rendering.OtherTag | server/index.js:99 | helper: a different tag holds no `<li>` |
| Rendering.ItemCount | server/index.js:92 | a list item holds exactly one `<li>` when its medicine and dosage hold no `<` |
| Rendering.ItemsCount | server/index.js:92 | the joined list items hold one `<li>` per record |
| Rendering.HeadingOpenCount | server/index.js:99 | helper: the start of the heading holds no `<li>` |
| Rendering.HeadingWordsCount | server/index.js:99 | helper: the words of the heading hold no `<li>` |
| Rendering.HeadingTagsCount | server/index.js:99 | helper: `</h3><ul>` holds no `<li>` |
| Rendering.HeadingCloseCount | server/index.js:99 | helper: the rest of the heading holds no `<li>` |
| Rendering.HeadingSlotCount | server/index.js:99 | helper: the start of the heading with a slot without `<` holds no `<li>` |
| Rendering.HeadingCount | server/index.js:99 | helper: the whole heading around such a slot holds no `<li>` |
| Rendering.HtmlItemCount | server/index.js:92-99 | the HTML body holds exactly one `<li>` per record of the group, when no slot, medicine or dosage holds a `<` |
| Text.Join | server/index.js:91-92 | definition: `Array.prototype.join`; inverted by `Split` in `SplitJoin` |
| Text.Split | server/index.js:91 | splitting gives at least one piece, and no piece holds the separator |
| Text.SplitWithout | server/index.js:91 | a string without the separator splits into itself |
| Text.SplitAt | server/index.js:91 | splitting at the first separator gives the piece before it, then the split of the rest |
| Text.SplitJoin | server/index.js:91 | splitting a `join` of separator-free pieces gives the pieces back |
| Text.OccurrencesConcat | server/index.js:92-99 | with no partial match at the seam, occurrences of a concatenation add up |
| Text.NoOverlapWithout | server/index.js:99 | helper: a string without the tag's first character leaves no partial match at its end |
| Text.NoOverlapJoin | server/index.js:99 | helper: appending such a string keeps the end free of partial matches |
| Text.OccurrencesWithout | server/index.js:99 | helper: a string without the tag's first character holds no occurrence |
| Collections.Filter | server/index.js:57 | the kept elements are elements that satisfy the test, and every element that satisfies it is kept |
| Collections.FilterAppend | server/index.js:57 | filtering distributes over concatenation |
| Collections.FilterSingle | server/index.js:57 | helper: one element is kept exactly when it satisfies the test |
| Collections.FilterNone | server/index.js:57 | nothing is kept when nothing satisfies the test |
| Collections.FilterMultiset | server/index.js:57 | every satisfying element is kept exactly as often as it occurs, and the rest are dropped |
| Collections.FilterCount | server/index.js:57 | the number kept is the number of indices that satisfy the test |
| Collections.Positions | server/index.js:57 | one position per kept element |
| Collections.PositionsSelect | server/index.js:57 | the j-th kept element is the element at the j-th position, and it satisfies the test |
| Collections.PositionsIncrease | server/index.js:57 | the positions ascend strictly |
| Collections.PositionsComplete | server/index.js:57 | every index that satisfies the test is a position |
| Collections.FilterInOrder | server/index.js:57 | filtering keeps the input order and drops no satisfying element |
| Collections.DistinctHasNoRepeats | server/index.js:86 | helper: a duplicate-free list holds each element at most once |
| Collections.NoRepeatsIsDistinct | server/index.js:86 | helper: a list holding each element at most once is duplicate free |
| Collections.DistinctPermutation | server/index.js:90 | a permutation of a duplicate-free list is duplicate free |

## Left out

- The MongoDB connection (server/index.js:15-22) and the Mongoose model (line 36). The collection is a sequence of records in insertion order, and `find` returns matches in that order.
- `insertMany` either inserts the whole batch or fails. When it fails, the model assumes nothing was inserted, so a partial ordered insert is not modelled. Schema validation and casting by Mongoose (defaults other than `createdAt`, casting a non-array `timing`, non-string JSON values) are not modelled. Request fields are strings, string arrays or absent/`null`.
- The nodemailer transport (server/index.js:39-45) is not modelled. Delivery is an oracle `rejects` over the mail. The sender address from `EMAIL_USER` is a parameter.
- The cron schedules and their log lines (server/index.js:110-122), Express routing, CORS, JSON body parsing and `app.listen` (lines 1-12, 124-128). The sweep is called directly with a slot.
- Promises and `await`. The model runs each step to completion in order. Two firings or requests that interleave are not modelled.
- The `err` object that the source passes to `console.error` is not modelled. A log line holds only the message text.
- Server.SendGroups: the mails are rendered before the send loop starts, not one per iteration. Rendering calls no outside code and changes nothing, so the mails sent and their order are the same.
- Every row of one batch gets the same insertion time `now`. The schema's default `Date.now` runs once per document, so rows of one batch could get different times; the one `now` stands for those calls.
- Rendering.PlainTextLines: the round trip is stated only when no medicine or dosage holds a line break. Without that condition a medicine containing `\n` would split into several lines. The fixed header is checked as a prefix of the body.
- Rendering.HtmlItemCount: the count is stated only when no slot, medicine or dosage holds a `<`. The source does not escape HTML, so such a value can add or hide `<li>` tags.
- The client and frontend React components, `frontend/src/App.jsx`, `main.py` and `backend/src/main.py`: UI, browser fetch calls and foreign OCR/NLP services are not part of this model.

## Findings

| source | as written | input that shows it | evidently intended | confidence | as-written member | corrected member |
|---|---|---|---|---|---|---|
| server/index.js:83-88 | The groups are collected in a plain object `{}`, which inherits the members of `Object.prototype`. For an email such as "constructor", `groupedByEmail[med.email]` is an inherited function. That value is truthy, so no array is created, and `.push` on it throws a `TypeError`. The whole firing then ends in the `catch` before any mail is sent. | Two due records for the same slot, one for "alice@example.com" and one for "constructor" | Every recipient gets its reminder, or at least those whose email is an ordinary address | not executed | Reminders.PrototypeNameAbortsFiring | Grouping.NullPrototypeGroupsAll |
