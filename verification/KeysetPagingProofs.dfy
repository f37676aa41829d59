/** Chaining pages by the last id of each walks the full listing. */
module KeysetPagingProofs {
  import opened Common
  import opened Ordering
  import opened KeysetPaging

  predicate IsNull(o: Sorting, x: Item) { o.Key(x).None? }

  function Nulls(o: Sorting, s: seq<Item>): nat { |Keep(x => IsNull(o, x), s)| }

  /** The rows with a sort value lie between `from` and `to`. */
  predicate Bounds(o: Sorting, s: seq<Item>, from: nat, to: nat) {
    && from <= to <= |s|
    && (if o.NullsFirst() then to == |s| else from == 0)
    && forall j :: 0 <= j < |s| ==> (IsNull(o, s[j]) <==> !(from <= j < to))
  }

  lemma NullsAtOneEnd(o: Sorting, s: seq<Item>) returns (from: nat, to: nat)
    requires Sorted(LeOf(o), s)
    ensures Bounds(o, s, from, to)
    ensures from == (if o.NullsFirst() then Nulls(o, s) else 0) && to == (if o.NullsFirst() then |s| else |s| - Nulls(o, s))
  {
    var cut := 0;
    while cut < |s| && IsNull(o, s[cut]) == o.NullsFirst()
      invariant cut <= |s| && forall j :: 0 <= j < cut ==> IsNull(o, s[j]) == o.NullsFirst()
    {
      cut := cut + 1;
    }
    forall j | cut <= j < |s| ensures IsNull(o, s[j]) == !o.NullsFirst() {
      if j > cut { assert o.Le(s[cut], s[j]); }
    }
    if o.NullsFirst() {
      from, to := cut, |s|;
      KeepSuffix(x => IsNull(o, x), s, 0, cut);
    } else {
      from, to := 0, cut;
      KeepSuffix(x => IsNull(o, x), s, cut, |s|);
    }
  }

  lemma ListingFacts(items: seq<Item>, o: Sorting, matches: Item -> bool)
    requires UniqueIds(items)
    ensures var s := Listing(items, o, matches);
      Sorted(LeOf(o), s) && UniqueIds(s) && forall x :: x in s <==> x in items && matches(x)
  {
    LeIsTotal(o);
    KeepUnique(items, matches);
    var kept := Keep(matches, items);
    SortSorts(LeOf(o), kept);
    SortUnique(LeOf(o), kept);
    KeepMembers(matches, items);
    forall x ensures x in Listing(items, o, matches) <==> x in kept {
      assert x in multiset(kept) <==> x in kept;
      assert x in multiset(Listing(items, o, matches)) <==> x in Listing(items, o, matches);
    }
  }

  lemma {:induction false} FindsRow(items: seq<Item>, x: Item)
    requires UniqueIds(items) && x in items
    ensures WithId(items, x.id) == Some(x)
  {
    if items[0] != x {
      var i :| 0 <= i < |items| && items[i] == x;
      assert items[0].id != items[i].id;
      assert items[1..][i - 1] == x;
      assert forall j :: 0 <= j < |items[1..]| ==> items[1..][j] == items[j + 1];
      FindsRow(items[1..], x);
    }
  }

  lemma PastAt(o: Sorting, s: seq<Item>, from: nat, to: nat, i: nat, j: nat)
    requires Sorted(LeOf(o), s) && UniqueIds(s) && Bounds(o, s, from, to) && i < |s| && j < |s|
    ensures PastOf(o, s[i])(s[j]) <==> from <= i < to && i + 1 <= j < to
  {
    if j < i { assert LeOf(o)(s[j], s[i]); }
    if j > i { assert LeOf(o)(s[i], s[j]); }
    assert j != i ==> s[j].id != s[i].id;
  }

  /** What lies past row `i` of the listing: the rest of the rows with a sort
      value, or nothing when row `i` has none. */
  lemma PastRow(o: Sorting, s: seq<Item>, from: nat, to: nat, i: nat)
    requires Sorted(LeOf(o), s) && UniqueIds(s) && Bounds(o, s, from, to) && i < |s|
    ensures Keep(PastOf(o, s[i]), s) == Tail(s, from, to, i)
  {
    var past := PastOf(o, s[i]);
    forall j | 0 <= j < |s|
      ensures past(s[j]) <==> from <= i < to && i + 1 <= j < to
    {
      PastAt(o, s, from, to, i, j);
    }
    if from <= i < to {
      KeepSuffix(past, s, i + 1, to);
    } else {
      KeepSuffix(past, s, 0, 0);
    }
  }

  /** Restricting to the rows past one of them restricts the listing. */
  lemma PastListing(items: seq<Item>, o: Sorting, matches: Item -> bool, c: Item)
    ensures Listing(items, o, Both(matches, PastOf(o, c))) == Keep(PastOf(o, c), Listing(items, o, matches))
  {
    LeIsTotal(o);
    KeepKeep(matches, PastOf(o, c), Both(matches, PastOf(o, c)), items);
    KeepSort(LeOf(o), PastOf(o, c), Keep(matches, items));
  }

  lemma PageAtCursor(items: seq<Item>, postgres: bool, f: Filter, c: Item)
    requires UniqueIds(items) && c in items
    ensures var o := SortingOf(f, postgres);
      Page(items, postgres, f.(cursor := Some(c.id)))
        == Window(Listing(items, o, Both(f.matches, PastOf(o, c))), 0, ClampedLimit(f.limit))
  {
    FindsRow(items, c);
    assert SortingOf(f.(cursor := Some(c.id)), postgres) == SortingOf(f, postgres);
  }

  lemma FirstWindow(s: seq<Item>, from: nat, to: nat, limit: nat)
    requires from <= to <= |s|
    ensures Window(s[from..to], 0, limit) == s[from..Min(from + limit, to)]
  {
  }

  /** The rows of a listing from `i + 1` up to `to`, when row `i` is one of those
      that the bounds enclose. */
  function Tail(s: seq<Item>, from: nat, to: nat, i: nat): seq<Item>
    requires to <= |s|
  {
    if from <= i < to then s[i + 1..to] else []
  }

  lemma TailWindow(s: seq<Item>, from: nat, to: nat, i: nat, limit: nat)
    requires to <= |s|
    ensures Window(Tail(s, from, to, i), 0, limit) == if from <= i < to then s[i + 1..Min(i + 1 + limit, to)] else []
  {
    if from <= i < to { FirstWindow(s, i + 1, to, limit); }
  }

  lemma TailToEnd(s: seq<Item>, from: nat, i: nat, limit: nat)
    requires from <= i < |s|
    ensures Window(Tail(s, from, |s|, i), 0, limit) == Window(s, i + 1, limit)
  {
    TailWindow(s, from, |s|, i, limit);
  }

  lemma PageIsTail(items: seq<Item>, postgres: bool, f: Filter, s: seq<Item>, from: nat, to: nat, i: nat)
    requires UniqueIds(items) && s == Listing(items, SortingOf(f, postgres), f.matches)
    requires Bounds(SortingOf(f, postgres), s, from, to) && i < |s|
    ensures Page(items, postgres, f.(cursor := Some(s[i].id))) == Window(Tail(s, from, to, i), 0, ClampedLimit(f.limit))
  {
    var o := SortingOf(f, postgres);
    ListingFacts(items, o, f.matches);
    assert s[i] in s;
    PageAtCursor(items, postgres, f, s[i]);
    PastListing(items, o, f.matches, s[i]);
    PastRow(o, s, from, to, i);
  }

  lemma CursorPage(items: seq<Item>, postgres: bool, f: Filter, s: seq<Item>, from: nat, to: nat, i: nat)
    requires UniqueIds(items) && s == Listing(items, SortingOf(f, postgres), f.matches)
    requires Bounds(SortingOf(f, postgres), s, from, to) && i < |s|
    ensures Page(items, postgres, f.(cursor := Some(s[i].id)))
         == if from <= i < to then s[i + 1..Min(i + 1 + ClampedLimit(f.limit), to)] else []
  {
    PageIsTail(items, postgres, f, s, from, to, i);
    TailWindow(s, from, to, i, ClampedLimit(f.limit));
  }

  lemma OffsetPage(items: seq<Item>, postgres: bool, f: Filter, offset: nat)
    ensures Page(items, postgres, f.(cursor := None, offset := offset))
         == Window(Listing(items, SortingOf(f, postgres), f.matches), offset, ClampedLimit(f.limit))
  {
    assert SortingOf(f.(cursor := None, offset := offset), postgres) == SortingOf(f, postgres);
  }

  /** A cursor on a row with a sort value reads what an offset just past that row
      reads, when rows without a sort value come first or there are none. */
  lemma CursorIsOffset(items: seq<Item>, postgres: bool, f: Filter, s: seq<Item>, i: nat)
    requires UniqueIds(items) && s == Listing(items, SortingOf(f, postgres), f.matches)
    requires i < |s| && !IsNull(SortingOf(f, postgres), s[i])
    requires SortingOf(f, postgres).NullsFirst() || Nulls(SortingOf(f, postgres), s) == 0
    ensures Page(items, postgres, f.(cursor := Some(s[i].id))) == Page(items, postgres, f.(cursor := None, offset := i + 1))
  {
    var o := SortingOf(f, postgres);
    ListingFacts(items, o, f.matches);
    var from, to := NullsAtOneEnd(o, s);
    assert to == |s| && from <= i;
    PageIsTail(items, postgres, f, s, from, |s|, i);
    TailToEnd(s, from, i, ClampedLimit(f.limit));
    OffsetPage(items, postgres, f, i + 1);
  }

  // ---- Chaining ----

  /** What a client has after `requests` pages from `cursor` on, each cursor
      being the last id of the page before. */
  function Chain(fetch: Option<int> -> seq<Item>, cursor: Option<int>, requests: nat): seq<Item>
    decreases requests
  {
    if requests == 0 then []
    else
      var page := fetch(cursor);
      if page == [] then [] else page + Chain(fetch, Some(page[|page| - 1].id), requests - 1)
  }

  function Start(f: Filter): Filter { f.(cursor := None, offset := 0) }

  /** The pages a client gets for a filter on a table that does not change. */
  function Fetch(items: seq<Item>, postgres: bool, f: Filter): Option<int> -> seq<Item> {
    c => Page(items, postgres, Start(f).(cursor := c))
  }

  /** Pages over `s`: the first is its beginning; past a row with a sort value
      comes the next stretch of those, past any other row comes nothing. */
  ghost predicate Paged(fetch: Option<int> -> seq<Item>, s: seq<Item>, from: nat, to: nat, limit: nat) {
    && from <= to <= |s|
    && fetch(None) == s[..Min(limit, |s|)]
    && forall i :: 0 <= i < |s| ==> PagedAt(fetch, s, from, to, limit, i)
  }

  ghost predicate PagedAt(fetch: Option<int> -> seq<Item>, s: seq<Item>, from: nat, to: nat, limit: nat, i: nat)
    requires i < |s| && to <= |s|
  {
    fetch(Some(s[i].id)) == if from <= i < to then s[i + 1..Min(i + 1 + limit, to)] else []
  }

  lemma FetchIsPaged(items: seq<Item>, postgres: bool, f: Filter, s: seq<Item>, from: nat, to: nat)
    requires UniqueIds(items) && s == Listing(items, SortingOf(f, postgres), f.matches)
    requires Bounds(SortingOf(f, postgres), s, from, to)
    ensures Paged(Fetch(items, postgres, f), s, from, to, ClampedLimit(f.limit))
  {
    var fetch := Fetch(items, postgres, f);
    FirstFetch(items, postgres, f);
    forall i | 0 <= i < |s|
      ensures PagedAt(fetch, s, from, to, ClampedLimit(f.limit), i)
    {
      FetchAt(items, postgres, f, s, from, to, i);
    }
  }

  lemma FirstFetch(items: seq<Item>, postgres: bool, f: Filter)
    ensures var s := Listing(items, SortingOf(f, postgres), f.matches);
      Fetch(items, postgres, f)(None) == s[..Min(ClampedLimit(f.limit), |s|)]
  {
    assert Start(f).(cursor := None) == f.(cursor := None, offset := 0);
    OffsetPage(items, postgres, f, 0);
  }

  lemma FetchAt(items: seq<Item>, postgres: bool, f: Filter, s: seq<Item>, from: nat, to: nat, i: nat)
    requires UniqueIds(items) && s == Listing(items, SortingOf(f, postgres), f.matches)
    requires Bounds(SortingOf(f, postgres), s, from, to) && i < |s|
    ensures PagedAt(Fetch(items, postgres, f), s, from, to, ClampedLimit(f.limit), i)
  {
    assert SortingOf(Start(f), postgres) == SortingOf(f, postgres);
    assert Start(f).matches == f.matches && Start(f).limit == f.limit;
    CursorPage(items, postgres, Start(f), s, from, to, i);
  }

  /** How far `requests` pages of `limit` rows get from row `i`, up to `to`. */
  function Reach(i: nat, requests: nat, limit: nat, to: nat): (r: nat)
    requires i <= to
    ensures i <= r <= to
    decreases requests
  {
    if requests == 0 then i else Reach(Min(i + limit, to), requests - 1, limit, to)
  }

  lemma {:induction false} ReachIs(i: nat, requests: nat, limit: nat, to: nat)
    requires i <= to
    ensures Reach(i, requests, limit, to) == Min(i + requests * limit, to)
    decreases requests
  {
    if requests > 0 {
      ReachIs(Min(i + limit, to), requests - 1, limit, to);
      assert requests * limit == (requests - 1) * limit + limit;
      assert (requests - 1) * limit >= 0;
    }
  }

  lemma {:induction false} ReachTop(requests: nat, limit: nat, to: nat)
    ensures Reach(to, requests, limit, to) == to
    decreases requests
  {
    if requests > 0 { ReachTop(requests - 1, limit, to); }
  }

  lemma Slices<T>(s: seq<T>, a: nat, b: nat, c: nat)
    requires a <= b <= c <= |s|
    ensures s[a..b] + s[b..c] == s[a..c]
  {
  }

  /** One page and then the chain from its last row. */
  lemma ChainStep(fetch: Option<int> -> seq<Item>, cursor: Option<int>, s: seq<Item>, start: nat, end: nat, requests: nat)
    requires start < end <= |s| && fetch(cursor) == s[start..end] && 0 < requests
    ensures Chain(fetch, cursor, requests) == s[start..end] + Chain(fetch, Some(s[end - 1].id), requests - 1)
  {
    var page := fetch(cursor);
    assert page[|page| - 1] == s[end - 1];
  }

  lemma {:induction false} ChainFrom(fetch: Option<int> -> seq<Item>, s: seq<Item>, from: nat, to: nat, limit: nat, i: nat, requests: nat)
    requires Paged(fetch, s, from, to, limit) && from <= i < to && 0 < limit
    ensures Chain(fetch, Some(s[i].id), requests) == s[i + 1..Reach(i + 1, requests, limit, to)]
    decreases requests
  {
    if requests > 0 {
      var end := Min(i + 1 + limit, to);
      assert PagedAt(fetch, s, from, to, limit, i);
      if i + 1 < to {
        ChainStep(fetch, Some(s[i].id), s, i + 1, end, requests);
        ChainFrom(fetch, s, from, to, limit, end - 1, requests - 1);
        Slices(s, i + 1, end, Reach(end, requests - 1, limit, to));
      } else {
        ReachTop(requests, limit, to);
      }
    }
  }

  /** What paging needs of NULL sort values: the listing fits in a page, or has
      none, or they come first and are fewer than a page. */
  predicate PagesCleanly(o: Sorting, s: seq<Item>, limit: nat) {
    |s| <= limit || Nulls(o, s) == 0 || (o.NullsFirst() && Nulls(o, s) < limit)
  }

  /** The rows without a sort value that the first page does not reach are lost,
      and so is everything when the first page ends on such a row. */
  lemma ChainFromStart(fetch: Option<int> -> seq<Item>, s: seq<Item>, from: nat, to: nat, limit: nat, requests: nat)
    requires Paged(fetch, s, from, to, limit) && 0 < requests && 0 < limit
    ensures var first := Min(limit, |s|);
      Chain(fetch, None, requests) == if from < first <= to then s[..Reach(first, requests - 1, limit, to)] else s[..first]
  {
    var first := Min(limit, |s|);
    if first > 0 {
      ChainStep(fetch, None, s, 0, first, requests);
      if from < first <= to {
        ChainFrom(fetch, s, from, to, limit, first - 1, requests - 1);
        Slices(s, 0, first, Reach(first, requests - 1, limit, to));
      } else {
        assert PagedAt(fetch, s, from, to, limit, first - 1);
        assert Chain(fetch, Some(s[first - 1].id), requests - 1) == [];
      }
    }
  }

  lemma ReachFromStart(requests: nat, limit: nat, size: nat)
    requires 0 < requests && 0 < limit
    ensures Reach(Min(limit, size), requests - 1, limit, size) == Reach(0, requests, limit, size)
  {
  }

  lemma {:induction false} ReachesTop(i: nat, requests: nat, limit: nat, to: nat)
    requires 0 < limit && i <= to <= i + requests
    ensures Reach(i, requests, limit, to) == to
    decreases requests
  {
    if requests > 0 { ReachesTop(Min(i + limit, to), requests - 1, limit, to); }
  }

  /** Keyset paging equals the full listing. After any number of requests the
      pages so far are the first rows of the sorted, filtered listing, in order,
      none lost or repeated, ascending or descending; as many requests as there
      are rows always give all of it. */
  lemma PagingIsTheListing(items: seq<Item>, postgres: bool, f: Filter, s: seq<Item>, requests: nat)
    requires UniqueIds(items) && s == Listing(items, SortingOf(f, postgres), f.matches)
    requires Nulls(SortingOf(f, postgres), s) == 0
    ensures Chain(Fetch(items, postgres, f), None, requests) == s[..Reach(0, requests, ClampedLimit(f.limit), |s|)]
    ensures Reach(0, requests, ClampedLimit(f.limit), |s|) == Min(requests * ClampedLimit(f.limit), |s|)
    ensures |s| <= requests ==> Chain(Fetch(items, postgres, f), None, requests) == s
  {
    var limit := ClampedLimit(f.limit);
    ListingFacts(items, SortingOf(f, postgres), f.matches);
    var from, to := NullsAtOneEnd(SortingOf(f, postgres), s);
    assert from == 0 && to == |s|;
    FetchIsPaged(items, postgres, f, s, 0, |s|);
    PrefixOfListing(Fetch(items, postgres, f), s, limit, requests);
  }

  lemma PrefixOfListing(fetch: Option<int> -> seq<Item>, s: seq<Item>, limit: nat, requests: nat)
    requires Paged(fetch, s, 0, |s|, limit) && 0 < limit
    ensures Chain(fetch, None, requests) == s[..Reach(0, requests, limit, |s|)]
    ensures Reach(0, requests, limit, |s|) == Min(requests * limit, |s|)
    ensures |s| <= requests ==> Chain(fetch, None, requests) == s
  {
    ReachIs(0, requests, limit, |s|);
    if requests > 0 {
      ChainFromStart(fetch, s, 0, |s|, limit, requests);
      ReachFromStart(requests, limit, |s|);
    }
    if |s| <= requests { ReachesTop(0, requests, limit, |s|); }
    assert s[..|s|] == s;
  }

  /** What all the pages together give: the listing, or only the rows up to the
      NULLs when these come last, or the first page alone when it ends on a NULL. */
  function Given(o: Sorting, s: seq<Item>, limit: nat): seq<Item> {
    var first, nulls := Min(limit, |s|), Nulls(o, s);
    if o.NullsFirst() then (if nulls < first then s else s[..first])
    else if 0 < first && first + nulls <= |s| then s[..|s| - nulls]
    else s[..first]
  }

  lemma GivenIs(o: Sorting, s: seq<Item>, from: nat, to: nat, limit: nat)
    requires 0 < limit && Nulls(o, s) <= |s|
    requires from == (if o.NullsFirst() then Nulls(o, s) else 0) && to == (if o.NullsFirst() then |s| else |s| - Nulls(o, s))
    ensures var first := Min(limit, |s|); Given(o, s, limit) == if from < first <= to then s[..to] else s[..first]
  {
    assert s[..|s|] == s;
  }

  lemma ChainGives(fetch: Option<int> -> seq<Item>, o: Sorting, s: seq<Item>, from: nat, to: nat, limit: nat, requests: nat)
    requires Paged(fetch, s, from, to, limit) && 0 < limit && |s| < requests && Nulls(o, s) <= |s|
    requires from == (if o.NullsFirst() then Nulls(o, s) else 0) && to == (if o.NullsFirst() then |s| else |s| - Nulls(o, s))
    ensures Chain(fetch, None, requests) == Given(o, s, limit)
  {
    ChainFromStart(fetch, s, from, to, limit, requests);
    GivenIs(o, s, from, to, limit);
    if Min(limit, |s|) <= to { ReachesTop(Min(limit, |s|), requests - 1, limit, to); }
  }

  lemma PagesGive(items: seq<Item>, postgres: bool, f: Filter, s: seq<Item>, requests: nat)
    requires UniqueIds(items) && s == Listing(items, SortingOf(f, postgres), f.matches) && |s| < requests
    ensures Chain(Fetch(items, postgres, f), None, requests) == Given(SortingOf(f, postgres), s, ClampedLimit(f.limit))
  {
    var o := SortingOf(f, postgres);
    ListingFacts(items, o, f.matches);
    var from, to := NullsAtOneEnd(o, s);
    NullsAreSome(o, s);
    FetchIsPaged(items, postgres, f, s, from, to);
    ChainGives(Fetch(items, postgres, f), o, s, from, to, ClampedLimit(f.limit), requests);
  }

  /** With NULL sort values paging can lose rows. It returns the whole listing if
      and only if the listing fits in a page, has no NULL sort value, or its
      NULLs come first and are fewer than a page. */
  lemma PagingIsCompleteIff(items: seq<Item>, postgres: bool, f: Filter, s: seq<Item>, requests: nat)
    requires UniqueIds(items) && s == Listing(items, SortingOf(f, postgres), f.matches) && |s| < requests
    ensures Chain(Fetch(items, postgres, f), None, requests) == s
       <==> PagesCleanly(SortingOf(f, postgres), s, ClampedLimit(f.limit))
  {
    PagesGive(items, postgres, f, s, requests);
    GivenIsAllIff(SortingOf(f, postgres), s, ClampedLimit(f.limit));
  }

  lemma GivenIsAllIff(o: Sorting, s: seq<Item>, limit: nat)
    requires 0 < limit
    ensures Given(o, s, limit) == s <==> PagesCleanly(o, s, limit)
  {
    assert s[..|s|] == s;
    NullsAreSome(o, s);
  }

  lemma {:induction false} NullsAreSome(o: Sorting, s: seq<Item>)
    ensures Nulls(o, s) <= |s|
  {
    KeepNoMore(x => IsNull(o, x), s);
  }

  lemma {:induction false} KeepNoMore<T>(p: T -> bool, s: seq<T>)
    ensures |Keep(p, s)| <= |s|
  {
    if s != [] { KeepNoMore(p, s[1..]); }
  }

  const Dated := Item(1, 0, 0, Some(2000), None)
  const Undated := Item(2, 0, 0, None, None)

  /** Such a listing: two items by ascending year in Postgres, a page of one. The
      item without a year is on the listing and on no page. */
  lemma UndatedItemIsLost(requests: nat)
    ensures
      var f := Filter((x: Item) => true, "year", "asc", None, 1, 0);
      Undated in Listing([Dated, Undated], SortingOf(f, true), f.matches) && Undated !in Chain(Fetch([Dated, Undated], true, f), None, requests)
  {
    var f := Filter((x: Item) => true, "year", "asc", None, 1, 0);
    var items, o := [Dated, Undated], SortingOf(f, true);
    var s := Listing(items, o, f.matches);
    assert o.column == Year && !o.NullsFirst();
    ListingFacts(items, o, f.matches);
    var from, to := NullsAtOneEnd(o, s);
    FetchIsPaged(items, true, f, s, from, to);
    assert Dated in s;
    ChainIsDated(Fetch(items, true, f), o, s, to, requests);
  }

  /** When the NULLs come last and the first page of one is not one of them, no
      page has a NULL. */
  lemma ChainIsDated(fetch: Option<int> -> seq<Item>, o: Sorting, s: seq<Item>, to: nat, requests: nat)
    requires Paged(fetch, s, 0, to, 1) && Bounds(o, s, 0, to) && Dated in s && o.column == Year
    ensures Undated !in Chain(fetch, None, requests)
  {
    var i :| 0 <= i < |s| && s[i] == Dated;
    if requests > 0 { ChainFromStart(fetch, s, 0, to, 1, requests); }
  }

  /** A cursor whose row is gone reads the first page again. */
  lemma LostCursorRestarts(items: seq<Item>, postgres: bool, f: Filter, id: int)
    requires !HasId(items, id)
    ensures Page(items, postgres, f.(cursor := Some(id))) == Page(items, postgres, Start(f))
  {
    NoRow(items, id);
    assert SortingOf(f.(cursor := Some(id)), postgres) == SortingOf(Start(f), postgres);
  }

  lemma {:induction false} NoRow(items: seq<Item>, id: int)
    requires !HasId(items, id)
    ensures WithId(items, id) == None
  {
    if items != [] {
      assert forall j :: 0 <= j < |items[1..]| ==> items[1..][j] == items[j + 1];
      NoRow(items[1..], id);
    }
  }
}
