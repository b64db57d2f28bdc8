/** Reading a paginated listing that grows while it is read
    (`scripts/verify-release-required-ci.py`, `pages`). A field that is missing or
    has the wrong type is `None`. */
module Pagination {
  import opened Base
  import opened Sequences

  datatype Page<T> = Page(total: Option<int>, items: Option<seq<T>>)

  datatype Malformed = Malformed

  predicate IsPage<T>(page: Page<T>) {
    page.items.Some? && page.total.Some? && page.total.value >= 0
  }

  function Items<T>(data: seq<Page<T>>): seq<T>
    requires forall k :: 0 <= k < |data| ==> IsPage(data[k])
  {
    if data == [] then []
    else
      assert IsPage(data[|data| - 1]);
      Items(data[..|data| - 1]) + data[|data| - 1].items.value
  }

  predicate IdsAreValid<T>(items: seq<T>, id: T -> Option<int>) {
    && (forall i :: 0 <= i < |items| ==> id(items[i]).Some? && id(items[i]).value > 0)
    && (forall i, j :: 0 <= i < j < |items| ==> id(items[i]) != id(items[j]))
  }

  /** One or more well-formed pages that agree on a total, hold that many items and
      repeat no id. */
  predicate AreConsistent<T>(data: seq<Page<T>>, id: T -> Option<int>) {
    && data != []
    && (forall k :: 0 <= k < |data| ==> IsPage(data[k]))
    && (forall k :: 0 <= k < |data| ==> data[k].total == Some(|Items(data)|))
    && IdsAreValid(Items(data), id)
  }

  function Pages<T>(data: seq<Page<T>>, id: T -> Option<int>): Result<seq<T>, Malformed> {
    if AreConsistent(data, id) then Ok(Items(data)) else Err(Malformed)
  }

  method CheckIds<T>(items: seq<T>, id: T -> Option<int>) returns (valid: bool)
    ensures valid <==> IdsAreValid(items, id)
  {
    var seen: set<Option<int>> := {};
    for i := 0 to |items|
      invariant IdsAreValid(items[..i], id)
      invariant forall other :: other in seen <==> exists k :: 0 <= k < i && id(items[k]) == other
    {
      if id(items[i]).None? || id(items[i]).value <= 0 || id(items[i]) in seen {
        return false;
      }
      seen := seen + {id(items[i])};
    }
    assert items[..|items|] == items;
    return true;
  }

  /** The accumulating loop computes `Pages`. */
  method ReadPages<T>(data: seq<Page<T>>, id: T -> Option<int>) returns (result: Result<seq<T>, Malformed>)
    ensures result == Pages(data, id)
  {
    if data == [] {
      return Err(Malformed);
    }
    var items: seq<T> := [];
    var counts: seq<int> := [];
    for k := 0 to |data|
      invariant forall j :: 0 <= j < k ==> IsPage(data[j])
      invariant |counts| == k && forall j :: 0 <= j < k ==> data[j].total == Some(counts[j])
      invariant items == Items(data[..k])
    {
      var page := data[k];
      if !IsPage(page) {
        return Err(Malformed);
      }
      counts := counts + [page.total.value];
      items := items + page.items.value;
      assert data[..k + 1][..k] == data[..k];
    }
    assert data[..|data|] == data;
    if exists j :: 0 <= j < |counts| && counts[j] != |items| {
      return Err(Malformed);
    }
    var valid := CheckIds(items, id);
    return if valid then Ok(items) else Err(Malformed);
  }

  // ----- Against a listing that grows -----------------------------------------

  /** The ids listed at each instant. */
  type Listing = nat -> set<int>

  ghost predicate Grows(listing: Listing) {
    forall t: nat, u: nat :: t <= u ==> listing(t) <= listing(u)
  }

  /** Page `k` was served at instant `times[k]`: it reports the number of ids listed
      then, and holds only items listed then. */
  ghost predicate IsHonest<T>(data: seq<Page<T>>, id: T -> Option<int>, times: seq<nat>, listing: Listing) {
    && |times| == |data|
    && (forall j, k :: 0 <= j < k < |times| ==> times[j] <= times[k])
    && forall k :: 0 <= k < |data| && IsPage(data[k]) ==>
         && data[k].total.value == |listing(times[k])|
         && forall i :: 0 <= i < |data[k].items.value| && id(data[k].items.value[i]).Some? ==>
              id(data[k].items.value[i]).value in listing(times[k])
  }

  function Ids<T>(items: seq<T>, id: T -> Option<int>): set<int> {
    set i | 0 <= i < |items| && id(items[i]).Some? :: id(items[i]).value
  }

  lemma {:induction false} ItemsAreListed<T>(
      data: seq<Page<T>>, id: T -> Option<int>, times: seq<nat>, listing: Listing, last: nat)
    requires Grows(listing) && IsHonest(data, id, times, listing)
    requires forall k :: 0 <= k < |data| ==> IsPage(data[k]) && times[k] <= last
    ensures Ids(Items(data), id) <= listing(last)
    decreases |data|
  {
    if data != [] {
      var n := |data| - 1;
      ItemsAreListed(data[..n], id, times[..n], listing, last);
      forall x | x in Ids(Items(data), id)
        ensures x in listing(last)
      {
        var i :| 0 <= i < |Items(data)| && id(Items(data)[i]) == Some(x);
        var before := Items(data[..n]);
        if i < |before| {
          assert before[i] == Items(data)[i];
          assert x in Ids(before, id);
        } else {
          assert data[n].items.value[i - |before|] == Items(data)[i];
          assert listing(times[n]) <= listing(last);
        }
      }
    }
  }

  lemma DistinctIds<T>(items: seq<T>, id: T -> Option<int>)
    requires IdsAreValid(items, id)
    ensures |Ids(items, id)| == |items|
  {
    var ids := seq(|items|, i requires 0 <= i < |items| && id(items[i]).Some? => id(items[i]).value);
    assert forall i, j :: 0 <= i < j < |items| ==> id(items[i]) != id(items[j]);
    DistinctSize(ids);
    assert Ids(items, id) == AsSet(ids) by {
      assert forall i :: 0 <= i < |items| ==> ids[i] == id(items[i]).value;
    }
  }

  /** Accepted pages are the whole listing, as it stood at every instant from the
      first page to the last, although each page was served at its own instant. */
  lemma AcceptedPagesAreComplete<T>(
      data: seq<Page<T>>, id: T -> Option<int>, times: seq<nat>, listing: Listing, at: nat)
    requires Grows(listing) && IsHonest(data, id, times, listing)
    requires Pages(data, id).Ok?
    requires times[0] <= at <= times[|times| - 1]
    ensures Ids(Pages(data, id).value, id) == listing(at)
  {
    var items, first, last := Items(data), times[0], times[|times| - 1];
    DistinctIds(items, id);
    ItemsAreListed(data, id, times, listing, last);
    assert |listing(first)| == |items| && |listing(last)| == |items|;
    assert listing(first) <= listing(at) && listing(at) <= listing(last) && listing(first) <= listing(last);
    SubsetOfSameSize(Ids(items, id), listing(last));
    SubsetOfSameSize(listing(first), listing(last));
  }

  lemma {:induction false} ItemIsOnAPage<T>(data: seq<Page<T>>, item: T) returns (k: nat, i: nat)
    requires forall k :: 0 <= k < |data| ==> IsPage(data[k])
    requires item in Items(data)
    ensures k < |data| && i < |data[k].items.value| && data[k].items.value[i] == item
    decreases |data|
  {
    var n := |data| - 1;
    if item in Items(data[..n]) {
      k, i := ItemIsOnAPage(data[..n], item);
    } else {
      k := n;
      i :| 0 <= i < |data[n].items.value| && data[n].items.value[i] == item;
    }
  }
}
