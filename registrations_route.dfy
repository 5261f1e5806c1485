// The registrations endpoint over the document store: `GET` lists every
// record, `PUT ?id=…` overwrites the `status` and `isExpired` of one.

module RegistrationsRoute {
  import opened Records
  import opened DashboardTable

  /** The JSON reply: `{ success: true, data }` or an error with its HTTP
      status. */
  datatype Reply<T> = Success(data: T) | Failure(status: int, error: string)

  /** The fields read from the request body. */
  datatype StatusBody = StatusBody(status: Status, isExpired: bool)

  /** The documents in the store's natural order. */
  function Listing(docs: map<string, Registration>, order: seq<string>): (r: seq<Registration>)
    requires forall k :: k in order ==> k in docs
    ensures |r| == |order| && forall i :: 0 <= i < |order| ==> r[i] == docs[order[i]]
  {
    seq(|order|, i requires 0 <= i < |order| => docs[order[i]])
  }

  /** `findByIdAndUpdate(id, { status, isExpired })`: those two fields are
      replaced, every other field is kept. */
  function Patched(doc: Registration, body: StatusBody): (u: Registration)
    ensures u.status == body.status && u.isExpired == body.isExpired
    ensures u.(status := doc.status, isExpired := doc.isExpired) == doc
  {
    doc.(status := body.status, isExpired := body.isExpired)
  }

  /** An `id` query parameter that is absent or empty is refused. */
  predicate MissingId(id: Option<string>)
  {
    id.None? || id.value == ""
  }

  /** The store after a `PUT`: changed only when an id was given, the
      update did not throw, and a document has that id. */
  function PutState(docs: map<string, Registration>, id: Option<string>, body: StatusBody, fails: bool): (r: map<string, Registration>)
    ensures r.Keys == docs.Keys
    ensures MissingId(id) || fails || id.value !in docs ==> r == docs
    ensures !MissingId(id) && !fails && id.value in docs ==>
              && r[id.value].status == body.status && r[id.value].isExpired == body.isExpired
              && r[id.value].(status := docs[id.value].status, isExpired := docs[id.value].isExpired) == docs[id.value]
              && forall k :: k in docs && k != id.value ==> r[k] == docs[k]
  {
    if MissingId(id) || fails || id.value !in docs then docs
    else docs[id.value := Patched(docs[id.value], body)]
  }

  /** The reply to a `PUT`, checked in the handler's order: the id, then the
      update throwing, then an unknown id. */
  function PutReply(docs: map<string, Registration>, id: Option<string>, body: StatusBody, fails: bool): (r: Reply<Registration>)
    ensures MissingId(id) ==> r == Failure(400, "ID is required")
    ensures !MissingId(id) && fails ==> r == Failure(500, "Failed to update status")
    ensures !MissingId(id) && !fails && id.value !in docs ==> r == Failure(404, "Registration not found")
    ensures r.Success? <==> !MissingId(id) && !fails && id.value in docs
    ensures r.Success? ==> r.data == PutState(docs, id, body, fails)[id.value]
  {
    if MissingId(id) then Failure(400, "ID is required")
    else if fails then Failure(500, "Failed to update status")
    else if id.value !in docs then Failure(404, "Registration not found")
    else Success(Patched(docs[id.value], body))
  }

  /** Sending the same `PUT` twice leaves the store as once. */
  lemma PutIdempotent(docs: map<string, Registration>, id: Option<string>, body: StatusBody)
    ensures PutState(PutState(docs, id, body, false), id, body, false) == PutState(docs, id, body, false)
  {
  }

  /** Keys, order and ids agree: what the store guarantees for `_id`. */
  ghost predicate WellFormed(docs: map<string, Registration>, order: seq<string>)
  {
    && (forall k :: k in docs <==> k in order)
    && (forall i, j :: 0 <= i < j < |order| ==> order[i] != order[j])
    && (forall k :: k in docs ==> docs[k].id == k)
  }

  /** The dashboard's body `{ status, isExpired: status == completed }`
      turns a listing into exactly the list the dashboard shows after a
      successful update. */
  lemma PutAgreesWithDashboard(docs: map<string, Registration>, order: seq<string>, id: string, st: Status)
    requires WellFormed(docs, order)
    requires id != ""
    ensures var after := PutState(docs, Some(id), StatusBody(st, st == Completed), false);
            Listing(after, order) == ApplyStatus(Listing(docs, order), id, st)
  {
    var after := PutState(docs, Some(id), StatusBody(st, st == Completed), false);
    var l := Listing(docs, order);
    forall i | 0 <= i < |order|
      ensures Listing(after, order)[i] == ApplyStatus(l, id, st)[i]
    {
      assert l[i].id == order[i];
    }
  }

  /** The document store, with its natural order. */
  class RegistrationStore {
    var docs: map<string, Registration>
    var order: seq<string>

    ghost predicate Valid()
      reads this
    {
      WellFormed(docs, order)
    }

    constructor (docs: map<string, Registration>, order: seq<string>)
      requires WellFormed(docs, order)
      ensures Valid() && this.docs == docs && this.order == order
    {
      this.docs := docs;
      this.order := order;
    }

    /** `GET`: every record, or a 500 when the query throws. */
    method Get(fails: bool) returns (reply: Reply<seq<Registration>>)
      requires Valid()
      ensures fails ==> reply == Failure(500, "Failed to fetch data")
      ensures !fails ==> reply.Success? && |reply.data| == |order|
                         && forall i :: 0 <= i < |order| ==> reply.data[i] == docs[order[i]]
    {
      if fails {
        return Failure(500, "Failed to fetch data");
      }
      return Success(Listing(docs, order));
    }

    /** `PUT`: `fails` stands for `findByIdAndUpdate` throwing (an id that
        is not a valid object id, a lost connection). */
    method Put(id: Option<string>, body: StatusBody, fails: bool) returns (reply: Reply<Registration>)
      requires Valid()
      modifies this`docs
      ensures Valid()
      ensures docs == PutState(old(docs), id, body, fails)
      ensures reply == PutReply(old(docs), id, body, fails)
    {
      if id.None? || id.value == "" {
        return Failure(400, "ID is required");
      }
      if fails {
        return Failure(500, "Failed to update status");
      }
      var key := id.value;
      if key !in docs {
        return Failure(404, "Registration not found");
      }
      var updated := Patched(docs[key], body);
      docs := docs[key := updated];
      reply := Success(updated);
    }
  }
}
