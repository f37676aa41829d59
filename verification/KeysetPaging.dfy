/** Cursor paging in ItemRepository.List (internal/db/item_repository.go). Ids
    and sort columns are integers here, as only their order matters; the two
    nullable sort columns may be NULL, which no SQL comparison matches. */
module KeysetPaging {
  import opened Common
  import opened Ordering

  datatype Item = Item(id: int, sortTitle: int, addedAt: int, year: Option<int>, episodeNumber: Option<int>)

  datatype Column = SortTitle | AddedAt | Year | EpisodeNumber

  /** Where NULL sorts: smallest in SQLite, largest in Postgres. */
  datatype Sorting = Sorting(column: Column, desc: bool, postgres: bool) {
    predicate NullsFirst() { desc == postgres }

    function Key(x: Item): Option<int> {
      match column
      case SortTitle => Some(x.sortTitle)
      case AddedAt => Some(x.addedAt)
      case Year => x.year
      case EpisodeNumber => x.episodeNumber
    }

    /** ORDER BY column direction, id ASC. */
    predicate Le(a: Item, b: Item) {
      match (Key(a), Key(b))
      case (None, None) => a.id <= b.id
      case (None, Some(_)) => NullsFirst()
      case (Some(_), None) => !NullsFirst()
      case (Some(x), Some(y)) => if x == y then a.id <= b.id else if desc then x > y else x < y
    }

    /** (column > ? OR (column = ? AND id > ?)), with < for descending order. */
    predicate Past(cursor: Item, x: Item) {
      match (Key(cursor), Key(x))
      case (Some(c), Some(k)) => (if desc then k < c else k > c) || (k == c && x.id > cursor.id)
      case _ => false
    }
  }

  function LeOf(o: Sorting): (Item, Item) -> bool { (a, b) => o.Le(a, b) }

  function PastOf(o: Sorting, cursor: Item): Item -> bool { x => o.Past(cursor, x) }

  function Both(p: Item -> bool, q: Item -> bool): Item -> bool { x => p(x) && q(x) }

  datatype Filter = Filter(matches: Item -> bool, sortBy: string, sortOrder: string, cursor: Option<int>, limit: int, offset: nat)

  function ColumnOf(sortBy: string): Column {
    if sortBy == "added_at" then AddedAt
    else if sortBy == "year" then Year
    else if sortBy == "episode_number" then EpisodeNumber
    else SortTitle
  }

  function SortingOf(f: Filter, postgres: bool): Sorting {
    Sorting(ColumnOf(f.sortBy), f.sortOrder == "desc", postgres)
  }

  function ClampedLimit(limit: int): (n: nat)
    ensures 1 <= n <= 100
    ensures 1 <= limit <= 100 ==> n == limit
  {
    if limit <= 0 then 20 else if limit > 100 then 100 else limit
  }

  function Min(a: nat, b: nat): nat { if a < b then a else b }

  function Window<T>(s: seq<T>, offset: nat, limit: nat): seq<T> {
    s[Min(offset, |s|)..Min(offset + limit, |s|)]
  }

  /** The engine: WHERE, ORDER BY, LIMIT and OFFSET. */
  function Select(o: Sorting, cond: Item -> bool, items: seq<Item>, limit: nat, offset: nat): seq<Item> {
    Window(Sort(LeOf(o), Keep(cond, items)), offset, limit)
  }

  function WithId(items: seq<Item>, id: int): Option<Item> {
    if items == [] then None else if items[0].id == id then Some(items[0]) else WithId(items[1..], id)
  }

  /** One request. A cursor whose row is gone restarts from the first page. */
  function Page(items: seq<Item>, postgres: bool, f: Filter): seq<Item> {
    var o := SortingOf(f, postgres);
    if f.cursor.None? then Select(o, f.matches, items, ClampedLimit(f.limit), f.offset)
    else
      match WithId(items, f.cursor.value)
      case None => Select(o, f.matches, items, ClampedLimit(f.limit), 0)
      case Some(c) => Select(o, Both(f.matches, PastOf(o, c)), items, ClampedLimit(f.limit), 0)
  }

  // ---- The requested order, said on the rows ----

  predicate Before(desc: bool, x: int, y: int, a: Item, b: Item) {
    if x == y then a.id <= b.id else if desc then x > y else x < y
  }

  /** SQLite puts NULL below every value, Postgres above. */
  predicate BeforeOrNull(desc: bool, postgres: bool, x: Option<int>, y: Option<int>, a: Item, b: Item) {
    if x.Some? && y.Some? then Before(desc, x.value, y.value, a, b)
    else if x.None? && y.None? then a.id <= b.id
    else if postgres then (if desc then x.None? else y.None?)
    else (if desc then y.None? else x.None?)
  }

  /** `a` may stand before `b` when this order is asked for. */
  ghost predicate AsAsked(sortBy: string, desc: bool, postgres: bool, a: Item, b: Item) {
    && (sortBy == "added_at" ==> Before(desc, a.addedAt, b.addedAt, a, b))
    && (sortBy == "year" ==> BeforeOrNull(desc, postgres, a.year, b.year, a, b))
    && (sortBy == "episode_number" ==> BeforeOrNull(desc, postgres, a.episodeNumber, b.episodeNumber, a, b))
    && (sortBy != "added_at" && sortBy != "year" && sortBy != "episode_number" ==> Before(desc, a.sortTitle, b.sortTitle, a, b))
  }

  lemma LeIsAsAsked(f: Filter, postgres: bool, a: Item, b: Item)
    ensures SortingOf(f, postgres).Le(a, b) <==> AsAsked(f.sortBy, f.sortOrder == "desc", postgres, a, b)
  {
  }

  lemma WindowOfSorted<T>(le: (T, T) -> bool, s: seq<T>, offset: nat, limit: nat)
    requires Sorted(le, s)
    ensures Sorted(le, Window(s, offset, limit)) && |Window(s, offset, limit)| == Min(limit, |s| - Min(offset, |s|))
  {
    var from, w := Min(offset, |s|), Window(s, offset, limit);
    forall i, j | 0 <= i < j < |w| ensures le(w[i], w[j]) {
      assert w[i] == s[from + i] && w[j] == s[from + j];
    }
  }

  lemma SortIsSorted(o: Sorting, s: seq<Item>)
    ensures Sorted(LeOf(o), Sort(LeOf(o), s)) && |Sort(LeOf(o), s)| == |s|
  {
    LeIsTotal(o);
    SortSorts(LeOf(o), s);
    SameSize(Sort(LeOf(o), s), s);
  }

  lemma SelectIsSorted(o: Sorting, cond: Item -> bool, items: seq<Item>, limit: nat, offset: nat)
    ensures Sorted(LeOf(o), Select(o, cond, items, limit, offset))
    ensures |Select(o, cond, items, limit, offset)| == Min(limit, |Keep(cond, items)| - Min(offset, |Keep(cond, items)|))
  {
    SortIsSorted(o, Keep(cond, items));
    WindowOfSorted(LeOf(o), Sort(LeOf(o), Keep(cond, items)), offset, limit);
  }

  lemma SameSize<T>(a: seq<T>, b: seq<T>)
    requires multiset(a) == multiset(b)
    ensures |a| == |b|
  {
    assert |multiset(a)| == |a| && |multiset(b)| == |b|;
  }

  lemma PageIsSorted(items: seq<Item>, postgres: bool, f: Filter)
    ensures Sorted(LeOf(SortingOf(f, postgres)), Page(items, postgres, f))
  {
    var o := SortingOf(f, postgres);
    var limit := ClampedLimit(f.limit);
    SelectIsSorted(o, f.matches, items, limit, f.offset);
    SelectIsSorted(o, f.matches, items, limit, 0);
    if f.cursor.Some? {
      var row := WithId(items, f.cursor.value);
      if row.Some? { SelectIsSorted(o, Both(f.matches, PastOf(o, row.value)), items, limit, 0); }
    }
  }

  /** Every pair of rows of a page stands in the order that was asked for:
      by the named column, by title for any other name, descending for "desc" and
      ascending for anything else, and by id among equals. */
  lemma PageIsAsAsked(items: seq<Item>, postgres: bool, f: Filter)
    ensures var page := Page(items, postgres, f);
      forall i, j :: 0 <= i < j < |page| ==> AsAsked(f.sortBy, f.sortOrder == "desc", postgres, page[i], page[j])
  {
    var page, o := Page(items, postgres, f), SortingOf(f, postgres);
    PageIsSorted(items, postgres, f);
    forall i, j | 0 <= i < j < |page| ensures AsAsked(f.sortBy, f.sortOrder == "desc", postgres, page[i], page[j]) {
      assert LeOf(o)(page[i], page[j]);
      LeIsAsAsked(f, postgres, page[i], page[j]);
    }
  }

  /** A page without a cursor has 20 rows when no limit is given, 100 at most,
      and otherwise as many as asked for, as far as there are that many. */
  lemma PageSizes(items: seq<Item>, postgres: bool, f: Filter)
    requires f.cursor.None?
    ensures var left := |Keep(f.matches, items)| - Min(f.offset, |Keep(f.matches, items)|); var size := |Page(items, postgres, f)|;
      && (f.limit <= 0 ==> size == Min(20, left))
      && (0 < f.limit <= 100 ==> size == Min(f.limit, left))
      && (100 < f.limit ==> size == Min(100, left))
  {
    SelectIsSorted(SortingOf(f, postgres), f.matches, items, ClampedLimit(f.limit), f.offset);
  }

  class ItemRepository {
    var items: seq<Item>
    const postgres: bool

    constructor (items: seq<Item>, postgres: bool)
      ensures this.items == items && this.postgres == postgres
    {
      this.items, this.postgres := items, postgres;
    }

    method RowById(id: int) returns (row: Option<Item>)
      ensures row == WithId(items, id)
    {
      for i := 0 to |items|
        invariant WithId(items, id) == WithId(items[i..], id)
      {
        assert items[i..][1..] == items[i + 1..];
        if items[i].id == id {
          return Some(items[i]);
        }
      }
      return None;
    }

    method List(f: Filter) returns (page: seq<Item>, total: nat)
      ensures page == Page(items, postgres, f)
      ensures forall i, j :: 0 <= i < j < |page| ==> AsAsked(f.sortBy, f.sortOrder == "desc", postgres, page[i], page[j])
      ensures total == if f.cursor.None? then |Keep(f.matches, items)| else 0
    {
      var limit := f.limit;
      if limit <= 0 {
        limit := 20;
      }
      if limit > 100 {
        limit := 100;
      }
      var o := SortingOf(f, postgres);
      var cond := f.matches;
      total := 0;
      if f.cursor.None? {
        total := |Keep(cond, items)|;
      }
      if f.cursor.Some? {
        var row := RowById(f.cursor.value);
        if row.Some? {
          var c := row.value;
          cond := Both(f.matches, PastOf(o, c));
        }
      }
      var offset := f.offset;
      if f.cursor.Some? {
        offset := 0;
      }
      page := Select(o, cond, items, limit, offset);
      PageIsAsAsked(items, postgres, f);
    }
  }

  // ---- The full listing ----

  ghost predicate UniqueIds(items: seq<Item>) {
    forall i, j :: 0 <= i < j < |items| ==> items[i].id != items[j].id
  }

  function Listing(items: seq<Item>, o: Sorting, matches: Item -> bool): seq<Item> {
    Sort(LeOf(o), Keep(matches, items))
  }

  lemma LeIsTotal(o: Sorting)
    ensures TotalPreorder(LeOf(o))
  {
  }

  lemma {:induction false} KeepUnique(items: seq<Item>, p: Item -> bool)
    requires UniqueIds(items)
    ensures UniqueIds(Keep(p, items))
  {
    if items != [] {
      assert UniqueIds(items[1..]) by { assert forall i :: 0 <= i < |items[1..]| ==> items[1..][i] == items[i + 1]; }
      KeepUnique(items[1..], p);
      KeepMembers(p, items[1..]);
      var rest := Keep(p, items[1..]);
      forall j | 0 <= j < |rest| ensures rest[j].id != items[0].id {
        assert rest[j] in rest;
        var k :| 0 <= k < |items[1..]| && items[1..][k] == rest[j];
        assert items[k + 1] == rest[j];
      }
    }
  }

  predicate HasId(items: seq<Item>, id: int) { exists i :: 0 <= i < |items| && items[i].id == id }

  lemma {:induction false} InsertUnique(le: (Item, Item) -> bool, x: Item, s: seq<Item>)
    requires UniqueIds(s) && !HasId(s, x.id)
    ensures UniqueIds(Insert(le, x, s))
    ensures forall id :: HasId(Insert(le, x, s), id) <==> id == x.id || HasId(s, id)
  {
    var r := Insert(le, x, s);
    if s == [] || le(x, s[0]) {
      assert forall i :: 0 <= i < |s| ==> r[i + 1] == s[i];
      assert r[0] == x;
      forall id ensures HasId(r, id) <==> id == x.id || HasId(s, id) {
        if HasId(s, id) { var i :| 0 <= i < |s| && s[i].id == id; assert r[i + 1].id == id; }
      }
    } else {
      assert forall i :: 0 <= i < |s[1..]| ==> s[1..][i] == s[i + 1];
      forall id ensures HasId(s, id) <==> id == s[0].id || HasId(s[1..], id) {
        if HasId(s[1..], id) { var i :| 0 <= i < |s[1..]| && s[1..][i].id == id; assert s[i + 1].id == id; }
        if HasId(s, id) && id != s[0].id { var i :| 0 <= i < |s| && s[i].id == id; assert s[1..][i - 1].id == id; }
      }
      InsertUnique(le, x, s[1..]);
      var rest := Insert(le, x, s[1..]);
      assert !HasId(s[1..], s[0].id);
      forall j | 0 <= j < |rest| ensures rest[j].id != s[0].id {
        assert HasId(rest, rest[j].id);
      }
      forall id ensures HasId(r, id) <==> id == s[0].id || HasId(rest, id) {
        if HasId(rest, id) { var i :| 0 <= i < |rest| && rest[i].id == id; assert r[i + 1].id == id; }
        assert r[0].id == s[0].id;
      }
    }
  }

  lemma {:induction false} SortUnique(le: (Item, Item) -> bool, s: seq<Item>)
    requires UniqueIds(s)
    ensures UniqueIds(Sort(le, s)) && forall id :: HasId(Sort(le, s), id) <==> HasId(s, id)
  {
    if s != [] {
      var rest := s[1..];
      assert forall i :: 0 <= i < |rest| ==> rest[i] == s[i + 1];
      SortUnique(le, rest);
      forall id ensures HasId(s, id) <==> id == s[0].id || HasId(rest, id) {
        if HasId(rest, id) { var i :| 0 <= i < |rest| && rest[i].id == id; assert s[i + 1].id == id; }
        if HasId(s, id) && id != s[0].id { var i :| 0 <= i < |s| && s[i].id == id; assert rest[i - 1].id == id; }
      }
      InsertUnique(le, s[0], Sort(le, rest));
    }
  }
}
