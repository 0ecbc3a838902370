/** The body of the `POST /medications` handler up to the insert (server/index.js,
    lines 50-70): reject a malformed request, drop incomplete entries, stamp the
    survivors with the request's email and fill in the optional fields. */
module SaveHandler {
  import opened Collections
  import opened Medication

  const InvalidRequest := "Invalid request."
  const NoValidMedications := "No valid medications provided."

  /** What the handler has decided before it touches the store:
      a 400 answer, a `TypeError` (reading a property of a `null` element),
      or the rows to insert. */
  datatype Prepared = Invalid(error: string) | Throws | Rows(rows: seq<Record>)

  /** The request is malformed: `!email || !Array.isArray(medications)`. */
  predicate Malformed(req: SaveRequest) {
    !Truthy(req.email) || req.medications.None?
  }

  /** The handler's decision. A missing email or a `medications` value that is not an array,
      and nothing else, is answered with "Invalid request."; a well-formed request holding a
      `null` element, and nothing else, throws; rows, when produced, are never an empty batch,
      and each carries the request's email with a non-empty medicine and dosage. */
  function Prepare(req: SaveRequest, now: int): (r: Prepared)
    ensures r == Invalid(InvalidRequest) <==> Malformed(req)
    ensures r == Throws <==> !Malformed(req) && Null in req.medications.value
    ensures r.Rows? ==> |r.rows| > 0
    ensures r.Rows? ==> forall row :: row in r.rows ==>
      row.email == req.email.value && row.medicine != "" && row.dosage != "" && row.createdAt == now
  {
    if Malformed(req) then Invalid(InvalidRequest)
    else if Null in req.medications.value then Throws
    else
      var rows := ToRecords(req.email.value, now, Filter(Keep, req.medications.value));
      if |rows| == 0 then Invalid(NoValidMedications) else Rows(rows)
  }

  /** A row is the normalisation of an entry: it carries the request's email, copies
      `medicine`, `dosage` and `timing`, turns every falsy optional field into "", and is
      stamped with the insertion time. */
  predicate Normalises(email: string, now: int, e: Element, row: Record) {
    && e.Entry?
    && row.email == email
    && e.medicine == Some(row.medicine) && row.medicine != ""
    && e.dosage == Some(row.dosage) && row.dosage != ""
    && e.timing == Some(row.timing)
    && row.duration == (if Truthy(e.duration) then e.duration.value else "")
    && row.total == (if Truthy(e.total) then e.total.value else "")
    && row.instructions == (if Truthy(e.instructions) then e.instructions.value else "")
    && row.createdAt == now
  }

  /** "No valid medications provided." is the answer exactly when the request is
      well formed, holds no `null`, and no entry passes the filter. */
  lemma {:induction false} NothingKeptIsRejected(req: SaveRequest, now: int)
    ensures Prepare(req, now) == Invalid(NoValidMedications) <==>
      && !Malformed(req)
      && Null !in req.medications.value
      && forall k :: 0 <= k < |req.medications.value| ==> !Keep(req.medications.value[k])
  {
    if !Malformed(req) && Null !in req.medications.value {
      var ms := req.medications.value;
      FilterCount(Keep, ms);
      if forall k :: 0 <= k < |ms| ==> !Keep(ms[k]) {
        assert Indices(Keep, ms) == {};
      } else {
        var k :| 0 <= k < |ms| && Keep(ms[k]);
        assert k in Indices(Keep, ms);
      }
    }
  }

  /** As many rows are produced as there are entries that pass the filter. */
  lemma RowCount(req: SaveRequest, now: int)
    requires Prepare(req, now).Rows?
    ensures |Prepare(req, now).rows| == |Indices(Keep, req.medications.value)|
  {
    FilterCount(Keep, req.medications.value);
  }

  /** The rows are the normalisations of the kept entries, in input order: the j-th row
      comes from the j-th entry that passes the filter, and every entry that passes is used. */
  lemma RowsFollowKeptEntries(req: SaveRequest, now: int)
    requires Prepare(req, now).Rows?
    ensures var ms, rows, pos := req.medications.value, Prepare(req, now).rows, Positions(Keep, req.medications.value);
      && |rows| == |pos|
      && (forall j :: 0 <= j < |pos| ==> pos[j] < |ms| && Normalises(req.email.value, now, ms[pos[j]], rows[j]))
      && (forall j, k :: 0 <= j < k < |pos| ==> pos[j] < pos[k])
      && (forall i :: 0 <= i < |ms| && Keep(ms[i]) ==> i in pos)
  {
    FilterInOrder(Keep, req.medications.value);
  }
}
