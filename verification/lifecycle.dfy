/** The document changes the write handlers ask the store for: PUT's `$set` and PATCH's cancel. */
module Lifecycle {
  import opened Documents

  /** `$set: patch`: every patched field takes the patch's value, every other field stays. */
  function SetFields(d: Doc, patch: Doc): (r: Doc)
    ensures r.Keys == d.Keys + patch.Keys
    ensures forall f :: f in patch ==> r[f] == patch[f]
    ensures forall f :: f in d && f !in patch ==> r[f] == d[f]
  {
    d + patch
  }

  /** `$unset` of the three requester fields together with `$set: {foodStatus: "Available"}`. */
  function Cancelled(d: Doc): (r: Doc)
    ensures HasValue(r, FoodStatus, AvailableStatus)
    ensures RequestDate !in r && RequesterEmail !in r && RequesterNote !in r
    ensures forall f :: f in d && f !in RequesterFields && f != FoodStatus ==> f in r && r[f] == d[f]
    ensures forall f :: f in r ==> f in d || f == FoodStatus
  {
    (d - RequesterFields)[FoodStatus := AvailableStatus]
  }

  /** The relation a consistent listing satisfies: the requester fields are there exactly while
      the listing is Requested. Nothing in the handlers keeps it; cancel is the one operation that
      establishes it. */
  predicate RequestConsistent(d: Doc)
  {
    var requested := HasValue(d, FoodStatus, RequestedStatus);
    && (RequestDate in d <==> requested)
    && (RequesterEmail in d <==> requested)
    && (RequesterNote in d <==> requested)
  }

  /** Cancelling once is as good as cancelling twice. */
  lemma CancelIdempotent(d: Doc)
    ensures Cancelled(Cancelled(d)) == Cancelled(d)
  {
  }

  /** Whatever state the listing was in, a cancel leaves it Available with no requester fields. */
  lemma CancelEstablishesConsistency(d: Doc)
    ensures RequestConsistent(Cancelled(d))
  {
  }

  /** A cancel changes nothing on a listing that is already Available without requester fields. */
  lemma CancelOfAvailableIsNoOp(d: Doc)
    requires IsAvailable(d) && RequestDate !in d && RequesterEmail !in d && RequesterNote !in d
    ensures Cancelled(d) == d
  {
  }

  /** A request made after a cancel leaves no trace of the earlier request: each requester field
      is there exactly when the new patch sets it, with the patch's value. */
  lemma RequestAfterCancelHasNoResidue(d: Doc, patch: Doc)
    ensures var r := SetFields(Cancelled(d), patch);
      forall f :: f in RequesterFields ==> (f in r <==> f in patch) && (f in patch ==> r[f] == patch[f])
  {
  }

  /** Without a cancel in between, a second request that omits requesterNote keeps the first
      requester's note, and nothing stops a second request on a Requested listing. */
  lemma RerequestKeepsOldNote(d: Doc, email: Value, date: Value)
    requires HasValue(d, FoodStatus, RequestedStatus) && RequesterNote in d
    ensures var r := SetFields(d, map[FoodStatus := RequestedStatus, RequesterEmail := email, RequestDate := date]);
      && HasValue(r, RequesterEmail, email)
      && HasValue(r, RequesterNote, d[RequesterNote])
  {
  }

  /** A PUT can break the request relation: here an Available listing takes a requester e-mail
      without becoming Requested. */
  lemma SetFieldsCanBreakConsistency()
    ensures var d := map[FoodStatus := AvailableStatus];
      RequestConsistent(d) && !RequestConsistent(SetFields(d, map[RequesterEmail := Str("a@x.com")]))
  {
  }
}
