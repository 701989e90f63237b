/** How GET /foods turns its query parameters into one store query. */
module Intent {
  import opened Documents
  import opened JsNumber

  /** The query parameters GET /foods reads. */
  datatype FoodsQuery = FoodsQuery(featured: Param, email: Param, request: Param, search: Param, filter: Param)

  /** The sort the find is asked for: none, or on expireDate with the raw `filter` value
      as the direction (absent when `filter` was not given). */
  datatype Sort = Unsorted | ByExpireDate(direction: Param)

  /** The query the handler issues. */
  datatype Intent =
    | Featured
    | ByDonator(email: string)
    | ByRequester(requester: Param)
    | Browse(search: Param, sort: Sort)

  /** The sort a public browse asks for: on expireDate exactly when `filter != 0` in JavaScript;
      an absent `filter` is undefined, and `undefined != 0` holds. */
  function BrowseSort(filter: Param): (s: Sort)
    ensures s.ByExpireDate? <==> filter.None? || !LooselyEqualsZero(filter.value)
    ensures s.ByExpireDate? ==> s.direction == filter
  {
    match filter
    case None => ByExpireDate(None)
    case Some(f) => if LooselyEqualsZero(f) then Unsorted else ByExpireDate(filter)
  }

  /** The branch GET /foods takes, in its order of precedence: each intent is chosen under
      exactly the condition its precedence gives it, and carries the parameters it uses. */
  function Resolve(q: FoodsQuery): (i: Intent)
    ensures i.Featured? <==> Truthy(q.featured)
    ensures i.ByDonator? <==> !Truthy(q.featured) && Truthy(q.email) && !Truthy(q.request)
    ensures i.ByDonator? ==> i.email == q.email.value
    ensures i.ByRequester? <==> !Truthy(q.featured) && Truthy(q.request)
    ensures i.ByRequester? ==> i.requester == q.email
    ensures i.Browse? <==> !Truthy(q.featured) && !Truthy(q.email) && !Truthy(q.request)
    ensures i.Browse? ==> i.search == q.search && i.sort == BrowseSort(q.filter)
  {
    if Truthy(q.featured) then Featured
    else if Truthy(q.email) && !Truthy(q.request) then ByDonator(q.email.value)
    else if Truthy(q.request) then ByRequester(q.email)
    else Browse(q.search, BrowseSort(q.filter))
  }

  /** A truthy `featured` makes every other parameter irrelevant. */
  lemma FeaturedIgnoresTheRest(q: FoodsQuery, q': FoodsQuery)
    requires Truthy(q.featured) && Truthy(q'.featured)
    ensures Resolve(q) == Resolve(q') == Featured
  {
  }

  /** Without `featured`, `search` and `filter` only matter to a public browse. */
  lemma SearchAndFilterOnlyBrowse(q: FoodsQuery, search: Param, filter: Param)
    requires !Resolve(q).Browse?
    ensures Resolve(q.(search := search, filter := filter)) == Resolve(q)
  {
  }

  /** A given `filter` sorts the browse by expireDate, with itself as the direction, unless it equals 0. */
  lemma SortIfNotZero(f: string)
    ensures BrowseSort(Some(f)) == if LooselyEqualsZero(f) then Unsorted else ByExpireDate(Some(f))
  {
  }

  /** `filter=0` and an empty `filter` leave the browse unsorted; `filter=asc`, `desc`, `1`
      and `-1` sort it. */
  lemma FilterExamples()
    ensures BrowseSort(Some("0")) == Unsorted
    ensures BrowseSort(Some("")) == Unsorted
    ensures BrowseSort(Some("asc")) == ByExpireDate(Some("asc"))
    ensures BrowseSort(Some("desc")) == ByExpireDate(Some("desc"))
    ensures BrowseSort(Some("1")) == ByExpireDate(Some("1"))
    ensures BrowseSort(Some("-1")) == ByExpireDate(Some("-1"))
  {
    SortIfNotZero("0");
    SortIfNotZero("");
    SortIfNotZero("asc");
    SortIfNotZero("desc");
    SortIfNotZero("1");
    SortIfNotZero("-1");
    ZeroIsZero();
    EmptyIsZero();
    AscIsNotZero();
    DescIsNotZero();
    OneIsNotZero();
    MinusOneIsNotZero();
  }

  /** Whether a stored listing satisfies the find filter of a non-featured intent: a donor query
      matches donatorEmail, a requester query matches requesterEmail, whatever the status; a
      public browse wants an Available listing whose foodName matches the search.
      `searchMatches(search, v)` stands for the case-insensitive regular expression built from
      the `search` parameter, applied to a foodName value v. A requester query with no `email`
      is not modelled. */
  function Selects(i: Intent, searchMatches: (Param, Value) -> bool, d: Doc): (b: bool)
    requires !i.Featured?
    requires i.ByRequester? ==> i.requester.Some?
    ensures i.ByDonator? ==> (b <==> Get(d, DonatorEmail) == Some(Str(i.email)))
    ensures i.ByRequester? ==> (b <==> Get(d, RequesterEmail) == Some(Str(i.requester.value)))
    ensures i.Browse? ==>
      (b <==> Get(d, FoodStatus) == Some(AvailableStatus) && FoodName in d && searchMatches(i.search, d[FoodName]))
    ensures i.Browse? && Get(d, FoodStatus) == Some(RequestedStatus) ==> !b
  {
    match i
    case ByDonator(email) => HasValue(d, DonatorEmail, Str(email))
    case ByRequester(email) => HasValue(d, RequesterEmail, Str(email.value))
    case Browse(search, _) => IsAvailable(d) && FoodName in d && searchMatches(search, d[FoodName])
  }

  /** The donor's own listings are selected whatever their status, Requested ones included. */
  lemma DonatorQueryIgnoresStatus(email: string, searchMatches: (Param, Value) -> bool, d: Doc)
    requires HasValue(d, DonatorEmail, Str(email))
    ensures Selects(ByDonator(email), searchMatches, d)
    ensures Selects(ByDonator(email), searchMatches, d[FoodStatus := RequestedStatus])
  {
  }
}
