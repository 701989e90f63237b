/** The aggregation pipeline GET /foods runs when `featured` is truthy: keep the Available
    listings, rank them by numeric quantity, highest first, keep six, drop the helper field. */
module Featured {
  import opened Documents
  import opened Seqs

  /** The integer the store's `$toDouble` gives a listing's foodQuantity (absent or present);
      how text converts to a number is not part of this model. */
  type QuantityKey = Option<Value> -> int

  const FeaturedLimit: nat := 6

  function Rank(key: QuantityKey, d: Doc): int
  {
    key(Get(d, FoodQuantity))
  }

  predicate SortedByRank(key: QuantityKey, s: seq<Doc>)
  {
    forall i, j :: 0 <= i < j < |s| ==> Rank(key, s[i]) >= Rank(key, s[j])
  }

  /** x placed into a ranked sequence after every listing of strictly higher rank. */
  function InsertByRank(key: QuantityKey, x: Doc, s: seq<Doc>): (r: seq<Doc>)
    requires SortedByRank(key, s)
    ensures SortedByRank(key, r)
    ensures multiset(r) == multiset(s) + multiset{x}
    ensures |r| == |s| + 1
  {
    if s == [] || Rank(key, s[0]) <= Rank(key, x) then
      RankedCons(key, x, s);
      [x] + s
    else
      var rest := InsertByRank(key, x, s[1..]);
      assert s == [s[0]] + s[1..];
      HeadOutranksInsert(key, x, s, rest);
      RankedCons(key, s[0], rest);
      [s[0]] + rest
  }

  /** A listing that ranks at least as high as every listing of a ranked sequence can go first. */
  lemma RankedCons(key: QuantityKey, x: Doc, s: seq<Doc>)
    requires SortedByRank(key, s)
    requires forall j :: 0 <= j < |s| ==> Rank(key, x) >= Rank(key, s[j])
    ensures SortedByRank(key, [x] + s)
  {
    var r := [x] + s;
    forall i, j | 0 <= i < j < |r| ensures Rank(key, r[i]) >= Rank(key, r[j]) {
      assert r[j] == s[j - 1];
      if i > 0 {
        assert r[i] == s[i - 1];
      }
    }
  }

  lemma HeadOutranksInsert(key: QuantityKey, x: Doc, s: seq<Doc>, rest: seq<Doc>)
    requires SortedByRank(key, s) && s != [] && Rank(key, s[0]) > Rank(key, x)
    requires multiset(rest) == multiset(s[1..]) + multiset{x}
    ensures forall j :: 0 <= j < |rest| ==> Rank(key, s[0]) >= Rank(key, rest[j])
  {
    forall j | 0 <= j < |rest| ensures Rank(key, s[0]) >= Rank(key, rest[j]) {
      var y := rest[j];
      assert y in multiset(rest);
      if y != x {
        assert y in multiset(s[1..]);
        var k :| 0 <= k < |s[1..]| && s[1..][k] == y;
        assert s[k + 1] == y;
      }
    }
  }

  /** The `$sort: {numericQuantity: -1}` stage: a permutation with ranks non-increasing.
      Listings of equal rank keep their scan order. */
  function SortByRank(key: QuantityKey, s: seq<Doc>): (r: seq<Doc>)
    ensures SortedByRank(key, r)
    ensures multiset(r) == multiset(s)
    ensures |r| == |s|
  {
    if s == [] then []
    else
      assert s == [s[0]] + s[1..];
      InsertByRank(key, s[0], SortByRank(key, s[1..]))
  }

  /** The `$project: {numericQuantity: 0}` stage. */
  function DropHelper(d: Doc): (r: Doc)
    ensures NumericQuantity !in r
    ensures forall f :: f in d && f != NumericQuantity ==> f in r && r[f] == d[f]
    ensures r.Keys <= d.Keys
  {
    d - {NumericQuantity}
  }

  /** The stored listings the pipeline keeps, before the helper field is dropped:
      `$match` on Available, `$sort`, then `$limit: 6`. */
  function TopAvailable(key: QuantityKey, docs: seq<Doc>): (top: seq<Doc>)
    ensures |top| <= FeaturedLimit
    ensures SortedByRank(key, top)
    ensures forall d :: d in top ==> d in docs && IsAvailable(d)
    ensures multiset(top) <= multiset(Filter(docs, IsAvailable))
  {
    var ranked := SortByRank(key, Filter(docs, IsAvailable));
    var n := if |ranked| <= FeaturedLimit then |ranked| else FeaturedLimit;
    SortKeepsMembers(key, Filter(docs, IsAvailable));
    RankedPrefix(key, ranked, n);
    ranked[..n]
  }

  /** Sorting brings in no listing that was not there. */
  lemma SortKeepsMembers(key: QuantityKey, s: seq<Doc>)
    ensures forall d :: d in SortByRank(key, s) ==> d in s
  {
    forall d | d in SortByRank(key, s) ensures d in s {
      assert d in multiset(SortByRank(key, s));
    }
  }

  /** A prefix of a ranked sequence is ranked and holds no listing more often than the sequence does. */
  lemma RankedPrefix(key: QuantityKey, s: seq<Doc>, n: nat)
    requires SortedByRank(key, s) && n <= |s|
    ensures SortedByRank(key, s[..n])
    ensures forall d :: d in s[..n] ==> d in s
    ensures multiset(s[..n]) <= multiset(s)
  {
    assert s == s[..n] + s[n..];
  }

  /** The featured listings in the order the pipeline returns them. */
  function FeaturedListings(key: QuantityKey, docs: seq<Doc>): (r: seq<Doc>)
    ensures |r| <= FeaturedLimit
    ensures forall i :: 0 <= i < |r| ==> IsAvailable(r[i]) && NumericQuantity !in r[i]
    ensures SortedByRank(key, r)
  {
    var top := TopAvailable(key, docs);
    var r := seq(|top|, i requires 0 <= i < |top| => DropHelper(top[i]));
    StrippedKeepsRanking(key, top, r);
    r
  }

  lemma StrippedKeepsRanking(key: QuantityKey, top: seq<Doc>, r: seq<Doc>)
    requires SortedByRank(key, top) && forall d :: d in top ==> IsAvailable(d)
    requires |r| == |top| && forall i :: 0 <= i < |r| ==> r[i] == DropHelper(top[i])
    ensures SortedByRank(key, r)
    ensures forall i :: 0 <= i < |r| ==> IsAvailable(r[i]) && NumericQuantity !in r[i]
  {
    forall i | 0 <= i < |r| ensures Rank(key, r[i]) == Rank(key, top[i]) && IsAvailable(r[i]) {
      assert top[i] in top;
      DropHelperKeepsRank(key, top[i]);
    }
  }

  /** Dropping the helper field leaves foodQuantity, and so the rank, as it was. */
  lemma DropHelperKeepsRank(key: QuantityKey, d: Doc)
    ensures Rank(key, DropHelper(d)) == Rank(key, d)
    ensures IsAvailable(DropHelper(d)) == IsAvailable(d)
  {
    assert Get(DropHelper(d), FoodQuantity) == Get(d, FoodQuantity);
  }

  /** Every featured listing is a stored Available listing minus the helper field, in the
      order of the ranked listings it comes from. */
  lemma FeaturedAreStoredListings(key: QuantityKey, docs: seq<Doc>)
    ensures var top := TopAvailable(key, docs);
      var r := FeaturedListings(key, docs);
      && |r| == |top|
      && forall i :: 0 <= i < |r| ==> top[i] in docs && IsAvailable(top[i]) && r[i] == DropHelper(top[i])
  {
  }

  /** The listings the limit leaves out rank no higher than any that was kept, and fewer
      than six are returned only when there are no more Available listings. */
  lemma {:induction false} FeaturedIsTopSix(key: QuantityKey, docs: seq<Doc>)
    ensures var top := TopAvailable(key, docs);
      && (forall d :: d in docs && IsAvailable(d) && d !in top ==>
            |top| == FeaturedLimit && forall i :: 0 <= i < |top| ==> Rank(key, d) <= Rank(key, top[i]))
      && |top| == if |Filter(docs, IsAvailable)| <= FeaturedLimit then |Filter(docs, IsAvailable)| else FeaturedLimit
  {
    var avail := Filter(docs, IsAvailable);
    var ranked := SortByRank(key, avail);
    var top := TopAvailable(key, docs);
    forall d | d in docs && IsAvailable(d) && d !in top
      ensures |top| == FeaturedLimit && forall i :: 0 <= i < |top| ==> Rank(key, d) <= Rank(key, top[i])
    {
      assert d in multiset(avail);
      assert d in multiset(ranked);
      LeftOutRanksLower(key, ranked, |top|, d);
    }
  }

  /** In a ranked sequence, an element outside the first n ranks no higher than any of them. */
  lemma LeftOutRanksLower(key: QuantityKey, ranked: seq<Doc>, n: nat, d: Doc)
    requires SortedByRank(key, ranked) && n <= |ranked| && d in ranked && d !in ranked[..n]
    ensures n < |ranked|
    ensures forall i :: 0 <= i < n ==> Rank(key, d) <= Rank(key, ranked[..n][i])
  {
    var j :| 0 <= j < |ranked| && ranked[j] == d;
  }
}
