/** The medication record of the reminder server and the validation and
    normalisation that the `POST /medications` handler applies to a save request
    before anything is stored (server/index.js, lines 25-34 and 48-78). */
module Medication {
  import opened Collections

  /** A stored medication row, as the Mongoose schema describes it. `createdAt` is the
      insertion time, which the schema fills in by default. */
  datatype Record = Record(
    email: string,
    medicine: string,
    dosage: string,
    timing: seq<string>,
    duration: string,
    total: string,
    instructions: string,
    createdAt: int)

  /** One element of the request's `medications` array, as parsed from JSON. A missing
      property (or one that is `null`) is `None`. An element that is neither an object nor
      `null` (a number, a string, an array) has none of these properties and so behaves
      as an `Entry` whose fields are all `None`. */
  datatype Element =
    | Null
    | Entry(
        medicine: Option<string>,
        dosage: Option<string>,
        timing: Option<seq<string>>,
        duration: Option<string>,
        total: Option<string>,
        instructions: Option<string>)

  /** The request body: `email` and `medications` as destructured by the handler;
      `medications` is `None` when it is missing or not an array. */
  datatype SaveRequest = SaveRequest(email: Option<string>, medications: Option<seq<Element>>)

  /** JavaScript truthiness of an optional string: present and not empty. */
  predicate Truthy(v: Option<string>) {
    v.Some? && v.value != ""
  }

  /** The filter of the handler: a truthy medicine, a truthy dosage and a truthy timing. Any array,
      including an empty one, is truthy, so `timing` only has to be present. */
  predicate Keep(e: Element) {
    e.Entry? && Truthy(e.medicine) && Truthy(e.dosage) && e.timing.Some?
  }

  /** `v || ""` for an optional string. */
  function OrEmpty(v: Option<string>): (r: string)
    ensures Truthy(v) ==> r == v.value
    ensures !Truthy(v) ==> r == ""
  {
    v.GetOr("")
  }

  /** The row the handler builds from a kept entry. */
  function ToRecord(email: string, now: int, e: Element): Record
    requires Keep(e)
  {
    Record(email, e.medicine.value, e.dosage.value, e.timing.value,
           OrEmpty(e.duration), OrEmpty(e.total), OrEmpty(e.instructions), now)
  }

  /** The rows for the kept entries, one per entry, in order. */
  function ToRecords(email: string, now: int, kept: seq<Element>): (rows: seq<Record>)
    requires forall k :: 0 <= k < |kept| ==> Keep(kept[k])
    ensures |rows| == |kept|
  {
    seq(|kept|, k requires 0 <= k < |kept| => ToRecord(email, now, kept[k]))
  }
}
