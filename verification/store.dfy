/** The food collection and the route handlers that read and change it. */
module Store {
  import opened Documents
  import opened Seqs
  import opened Projection
  import opened Intent
  import opened Featured
  import opened Lifecycle

  /** What insertOne reports: the `_id` given to the new listing, or a duplicate-key error. */
  datatype InsertResult = Inserted(insertedId: Value) | DuplicateKey(key: Value)

  /** What updateOne reports: the matched and modified counts, or the error the store raises
      when an update would change a listing's `_id`. */
  datatype UpdateResult = Updated(matchedCount: nat, modifiedCount: nat) | ImmutableField(field: Field)

  /** The rows GET /foods returns, in scan order, and the sort the find asks the store for. */
  datatype FoodsResult = FoodsResult(rows: seq<Doc>, sort: Sort)

  /** The `_id` insertOne stores a body under: the body's own, or the one the driver generated.
      A body that carries an `_id` is stored exactly as sent. */
  function InsertKey(body: Doc, generated: Value): (k: Value)
    ensures IdField in body ==> k == body[IdField] && body[IdField := k] == body
    ensures IdField !in body ==> k == generated
  {
    if IdField in body then body[IdField] else generated
  }

  function ModifiedCount(before: Doc, after: Doc): (n: nat)
    ensures n == 0 <==> before == after
    ensures n <= 1
  {
    if before == after then 0 else 1
  }

  /** A PUT reports no modification exactly when every patched field already holds the patch's value. */
  lemma PutModifiesIff(d: Doc, patch: Doc)
    ensures ModifiedCount(d, SetFields(d, patch)) == 0 <==> forall f :: f in patch ==> f in d && d[f] == patch[f]
  {
    if forall f :: f in patch ==> f in d && d[f] == patch[f] {
      assert SetFields(d, patch) == d;
    } else {
      var f :| f in patch && !(f in d && d[f] == patch[f]);
      assert SetFields(d, patch)[f] == patch[f];
    }
  }

  /** A cancel reports no modification exactly when the listing is Available and has no requester field. */
  lemma CancelModifiesIff(d: Doc)
    ensures ModifiedCount(d, Cancelled(d)) == 0
        <==> IsAvailable(d) && RequestDate !in d && RequesterEmail !in d && RequesterNote !in d
  {
    if IsAvailable(d) && RequestDate !in d && RequesterEmail !in d && RequesterNote !in d {
      CancelOfAvailableIsNoOp(d);
    }
  }

  /** Every listing carries its own key as `_id`, and `order` lists each key once. */
  ghost predicate WellFormed(docs: map<Value, Doc>, order: seq<Value>)
  {
    && (forall k :: k in docs ==> IdField in docs[k] && docs[k][IdField] == k)
    && Distinct(order)
    && (forall i :: 0 <= i < |order| ==> order[i] in docs)
    && (forall k :: k in docs ==> k in order)
  }

  /** The listings of docs in the order given. */
  function ScanOf(docs: map<Value, Doc>, order: seq<Value>): (r: seq<Doc>)
    requires forall i :: 0 <= i < |order| ==> order[i] in docs
    ensures |r| == |order|
    ensures forall i :: 0 <= i < |r| ==> r[i] == docs[order[i]]
  {
    seq(|order|, i requires 0 <= i < |order| => docs[order[i]])
  }

  /** A scan sees every listing of a well-formed store, and only those. */
  lemma ScanSeesAll(docs: map<Value, Doc>, order: seq<Value>)
    requires WellFormed(docs, order)
    ensures forall d :: d in ScanOf(docs, order) <==> d in docs.Values
  {
    var r := ScanOf(docs, order);
    forall d | d in docs.Values ensures d in r {
      var k :| k in docs && docs[k] == d;
      var i :| 0 <= i < |order| && order[i] == k;
      assert r[i] == d;
    }
  }

  /** A listing inserted under a new key comes last in the scan; the others keep their places. */
  lemma ScanAfterInsert(docs: map<Value, Doc>, order: seq<Value>, k: Value, d: Doc)
    requires forall i :: 0 <= i < |order| ==> order[i] in docs
    requires k !in docs
    ensures ScanOf(docs[k := d], order + [k]) == ScanOf(docs, order) + [d]
  {
    var o := order + [k];
    forall i | 0 <= i < |order| ensures ScanOf(docs[k := d], o)[i] == ScanOf(docs, order)[i] {
      assert o[i] == order[i] && order[i] != k;
    }
  }

  /** Inserting under a new key whose document carries it keeps the store well formed. */
  lemma InsertKeepsWellFormed(docs: map<Value, Doc>, order: seq<Value>, k: Value, d: Doc)
    requires WellFormed(docs, order) && k !in docs && IdField in d && d[IdField] == k
    ensures WellFormed(docs[k := d], order + [k])
  {
    var o := order + [k];
    forall i, j | 0 <= i < j < |o| ensures o[i] != o[j] {
      if j == |o| - 1 {
        assert o[i] == order[i] && order[i] in docs;
      } else {
        assert o[i] == order[i] && o[j] == order[j];
      }
    }
  }

  /** Deleting a key, from the map and from the order, keeps the store well formed. */
  lemma DeleteKeepsWellFormed(docs: map<Value, Doc>, order: seq<Value>, k: Value)
    requires WellFormed(docs, order)
    ensures WellFormed(docs - {k}, Without(order, k))
  {
    var o := Without(order, k);
    forall i | 0 <= i < |o| ensures o[i] in docs - {k} {
      assert o[i] in o;
    }
  }

  class FoodCollection {
    /** The listings by `_id`. */
    var docs: map<Value, Doc>
    /** The `_id`s in the store's natural (insertion) order. */
    var order: seq<Value>

    ghost predicate Valid()
      reads this
    {
      WellFormed(docs, order)
    }

    constructor ()
      ensures Valid() && docs == map[] && order == []
    {
      docs := map[];
      order := [];
    }

    /** The listings in natural order: what a find or an aggregation reads. */
    function Scan(): (r: seq<Doc>)
      reads this
      requires Valid()
      ensures |r| == |order|
      ensures forall i :: 0 <= i < |r| ==> r[i] == docs[order[i]]
      ensures forall d :: d in r <==> d in docs.Values
    {
      ScanSeesAll(docs, order);
      ScanOf(docs, order)
    }

    /** GET /food/:id: the listing under the view's projection, or null for an unknown id. */
    function GetFood(id: Value, details: Param, request: Param): (r: Option<Doc>)
      reads this
      ensures r.Some? <==> id in docs
      ensures r.Some? ==> r.value == Project(docs[id], ChooseView(details, request))
    {
      if id in docs then Some(Project(docs[id], ChooseView(details, request))) else None
    }

    /** GET /foods: the featured pipeline, or a find with the resolved filter and sort. */
    function ListFoods(q: FoodsQuery, key: QuantityKey, searchMatches: (Param, Value) -> bool): (r: FoodsResult)
      reads this
      requires Valid()
      requires Resolve(q).ByRequester? ==> q.email.Some?
      ensures Resolve(q).Featured? ==> r.rows == FeaturedListings(key, Scan()) && r.sort == Unsorted
      ensures !Resolve(q).Featured? ==>
        forall d :: d in r.rows <==> d in docs.Values && Selects(Resolve(q), searchMatches, d)
      ensures !Resolve(q).Featured? ==> r.rows == Filter(Scan(), d => Selects(Resolve(q), searchMatches, d))
      ensures r.sort == if Resolve(q).Browse? then Resolve(q).sort else Unsorted
    {
      if Resolve(q).Featured? then FoodsResult(FeaturedListings(key, Scan()), Unsorted)
      else
        var rows := Filter(Scan(), d => Selects(Resolve(q), searchMatches, d));
        FoodsResult(rows, if Resolve(q).Browse? then Resolve(q).sort else Unsorted)
    }

    /** POST /food: stores the body as sent, under its own `_id` or a generated one. */
    method InsertOne(body: Doc, generated: Value) returns (r: InsertResult)
      requires Valid()
      modifies this
      ensures Valid()
      ensures var k := InsertKey(body, generated);
        if k in old(docs) then r == DuplicateKey(k) && docs == old(docs) && order == old(order)
        else && r == Inserted(k)
             && docs == old(docs)[k := body[IdField := k]]
             && order == old(order) + [k]
             && Scan() == old(Scan()) + [body[IdField := k]]
    {
      var k := InsertKey(body, generated);
      if k in docs {
        return DuplicateKey(k);
      }
      var stored := body[IdField := k];
      InsertKeepsWellFormed(docs, order, k, stored);
      ScanAfterInsert(docs, order, k, stored);
      docs := docs[k := stored];
      order := order + [k];
      r := Inserted(k);
    }

    /** PUT /food/:id: merges the patch into the listing with that `_id`. */
    method UpdateFields(id: Value, patch: Doc) returns (r: UpdateResult)
      requires Valid()
      modifies this
      ensures Valid() && order == old(order)
      ensures id !in old(docs) ==> r == Updated(0, 0) && docs == old(docs)
      ensures id in old(docs) && IdField in patch && patch[IdField] != id ==>
        r == ImmutableField(IdField) && docs == old(docs)
      ensures id in old(docs) && (IdField !in patch || patch[IdField] == id) ==>
        && docs == old(docs)[id := SetFields(old(docs)[id], patch)]
        && r == Updated(1, ModifiedCount(old(docs)[id], docs[id]))
    {
      if id !in docs {
        return Updated(0, 0);
      }
      if IdField in patch && patch[IdField] != id {
        return ImmutableField(IdField);
      }
      var before := docs[id];
      docs := docs[id := SetFields(before, patch)];
      r := Updated(1, ModifiedCount(before, docs[id]));
    }

    /** PATCH /food/:id: cancels the request on the listing with that `_id`. */
    method CancelRequest(id: Value) returns (r: UpdateResult)
      requires Valid()
      modifies this
      ensures Valid() && order == old(order)
      ensures id !in old(docs) ==> r == Updated(0, 0) && docs == old(docs)
      ensures id in old(docs) ==>
        && docs == old(docs)[id := Cancelled(old(docs)[id])]
        && r == Updated(1, ModifiedCount(old(docs)[id], docs[id]))
    {
      if id !in docs {
        return Updated(0, 0);
      }
      var before := docs[id];
      docs := docs[id := Cancelled(before)];
      r := Updated(1, ModifiedCount(before, docs[id]));
    }

    /** DELETE /food/:id: removes the listing with that `_id`, if there is one. */
    method DeleteOne(id: Value) returns (deletedCount: nat)
      requires Valid()
      modifies this
      ensures Valid()
      ensures deletedCount == if id in old(docs) then 1 else 0
      ensures docs == old(docs) - {id}
      ensures order == Without(old(order), id)
    {
      if id !in docs {
        assert Without(order, id) == order by { WithoutAbsent(order, id); }
        return 0;
      }
      DeleteKeepsWellFormed(docs, order, id);
      docs := docs - {id};
      order := Without(order, id);
      deletedCount := 1;
    }
  }

  /** Cancelling twice leaves the store as cancelling once, and the second cancel matches the
      listing but reports no modification. */
  method CancelTwice(c: FoodCollection, id: Value) returns (first: UpdateResult, second: UpdateResult)
    requires c.Valid() && id in c.docs
    modifies c
    ensures c.Valid()
    ensures c.docs == old(c.docs)[id := Cancelled(old(c.docs)[id])]
    ensures c.order == old(c.order)
    ensures first == Updated(1, ModifiedCount(old(c.docs)[id], Cancelled(old(c.docs)[id])))
    ensures second == Updated(1, 0)
  {
    first := c.CancelRequest(id);
    ghost var once := c.docs;
    second := c.CancelRequest(id);
    CancelIdempotent(old(c.docs)[id]);
    assert c.docs == once;
  }

  /** A listing's life, in three steps: created and browsed, requested through PUT and viewed
      from the request page, cancelled through PATCH. */
  method LifecycleScenario(id: Value, email: Value, date: Value)
  {
    var c := new FoodCollection();
    ghost var created := CreateAndBrowse(c, id);
    ghost var requested := RequestAndView(c, id, email, date);
    Cancel(c, id);
  }

  method CreateAndBrowse(c: FoodCollection, id: Value) returns (ghost created: Doc)
    requires c.Valid() && c.docs == map[]
    modifies c
    ensures c.Valid() && c.docs == map[id := created]
    ensures IsAvailable(created) && RequesterEmail !in created && AdditionalNotes in created
  {
    var body := map[FoodStatus := AvailableStatus, DonatorEmail := Str("d@x.com"), AdditionalNotes := Str("fresh")];
    var ins := c.InsertOne(body, id);
    assert ins == Inserted(id);
    created := c.docs[id];
    assert created == body[IdField := id];
    var seen := c.GetFood(id, None, None);
    BrowseHidesDonor(created);
    assert seen.Some? && DonatorEmail !in seen.value && IdField in seen.value;
  }

  method RequestAndView(c: FoodCollection, id: Value, email: Value, date: Value) returns (ghost requested: Doc)
    requires c.Valid() && id in c.docs && c.docs.Keys == {id}
    modifies c
    ensures c.Valid() && c.docs == map[id := requested]
    ensures HasValue(requested, FoodStatus, RequestedStatus) && HasValue(requested, RequesterEmail, email)
  {
    var patch := map[FoodStatus := RequestedStatus, RequesterEmail := email, RequestDate := date];
    var put := c.UpdateFields(id, patch);
    requested := c.docs[id];
    assert put.Updated? && put.matchedCount == 1;
    assert c.docs == map[id := requested];
    var page := c.GetFood(id, None, Some("1"));
    DetailHidesNotesAndId(requested);
    assert page.Some? && IdField !in page.value && AdditionalNotes !in page.value;
  }

  method Cancel(c: FoodCollection, id: Value)
    requires c.Valid() && id in c.docs && RequesterEmail in c.docs[id]
    modifies c
  {
    ghost var requested := c.docs[id];
    var cancel := c.CancelRequest(id);
    ghost var cancelled := c.docs[id];
    assert RequesterEmail !in cancelled && cancelled != requested;
    assert cancel == Updated(1, 1);
    assert IsAvailable(cancelled) && RequestDate !in cancelled;
  }
}
