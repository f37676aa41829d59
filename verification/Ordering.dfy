/** What a query engine does with WHERE and ORDER BY: keep rows, and sort them
    stably by a total preorder. */
module Ordering {
  ghost predicate TotalPreorder<T(!new)>(le: (T, T) -> bool) {
    && (forall a, b :: le(a, b) || le(b, a))
    && (forall a, b, c :: le(a, b) && le(b, c) ==> le(a, c))
  }

  function Keep<T>(p: T -> bool, s: seq<T>): seq<T> {
    if s == [] then [] else (if p(s[0]) then [s[0]] else []) + Keep(p, s[1..])
  }

  /** Places `x` before the first element that is not smaller. */
  function Insert<T>(le: (T, T) -> bool, x: T, s: seq<T>): seq<T> {
    if s == [] || le(x, s[0]) then [x] + s else [s[0]] + Insert(le, x, s[1..])
  }

  function Sort<T>(le: (T, T) -> bool, s: seq<T>): seq<T> {
    if s == [] then [] else Insert(le, s[0], Sort(le, s[1..]))
  }

  predicate Sorted<T>(le: (T, T) -> bool, s: seq<T>) {
    forall i, j :: 0 <= i < j < |s| ==> le(s[i], s[j])
  }

  lemma {:induction false} InsertKeeps<T>(le: (T, T) -> bool, x: T, s: seq<T>)
    ensures multiset(Insert(le, x, s)) == multiset([x] + s)
  {
    if s != [] && !le(x, s[0]) {
      InsertKeeps(le, x, s[1..]);
      assert s == [s[0]] + s[1..];
    }
  }

  lemma {:induction false} InsertSorts<T(!new)>(le: (T, T) -> bool, x: T, s: seq<T>)
    requires TotalPreorder(le) && Sorted(le, s)
    ensures Sorted(le, Insert(le, x, s))
    ensures multiset(Insert(le, x, s)) == multiset([x] + s)
  {
    InsertKeeps(le, x, s);
    if s != [] && !le(x, s[0]) {
      InsertSorts(le, x, s[1..]);
      var rest := Insert(le, x, s[1..]);
      forall j | 0 <= j < |rest|
        ensures le(s[0], rest[j])
      {
        InsertedFrom(le, x, s[1..], j);
      }
    }
  }

  lemma InsertedFrom<T>(le: (T, T) -> bool, x: T, s: seq<T>, j: nat)
    requires j < |Insert(le, x, s)|
    ensures Insert(le, x, s)[j] == x || Insert(le, x, s)[j] in s
  {
    InsertKeeps(le, x, s);
    assert Insert(le, x, s)[j] in multiset([x] + s);
  }

  lemma {:induction false} SortSorts<T(!new)>(le: (T, T) -> bool, s: seq<T>)
    requires TotalPreorder(le)
    ensures Sorted(le, Sort(le, s))
    ensures multiset(Sort(le, s)) == multiset(s)
  {
    if s != [] {
      SortSorts(le, s[1..]);
      InsertSorts(le, s[0], Sort(le, s[1..]));
      assert s == [s[0]] + s[1..];
    }
  }

  lemma KeepPush<T>(p: T -> bool, x: T, s: seq<T>)
    ensures Keep(p, [x] + s) == (if p(x) then [x] + Keep(p, s) else Keep(p, s))
  {
    assert ([x] + s)[1..] == s;
  }

  lemma {:induction false} KeepInsert<T(!new)>(le: (T, T) -> bool, p: T -> bool, x: T, s: seq<T>)
    requires TotalPreorder(le) && Sorted(le, s)
    ensures Keep(p, Insert(le, x, s)) == if p(x) then Insert(le, x, Keep(p, s)) else Keep(p, s)
  {
    if s == [] || le(x, s[0]) {
      KeepPush(p, x, s);
      KeepMembers(p, s);
      var kept := Keep(p, s);
      if kept != [] { assert kept[0] in s; }
    } else {
      var rest := s[1..];
      KeepInsert(le, p, x, rest);
      KeepPush(p, s[0], Insert(le, x, rest));
      KeepPush(p, s[0], rest);
      assert s == [s[0]] + rest;
      if p(s[0]) {
        assert ([s[0]] + Keep(p, rest))[1..] == Keep(p, rest);
      } else if p(x) {
        assert Keep(p, Insert(le, x, s)) == Insert(le, x, Keep(p, rest));
      }
    }
  }

  lemma {:induction false} KeepMembers<T>(p: T -> bool, s: seq<T>)
    ensures forall t :: t in Keep(p, s) <==> t in s && p(t)
  {
    if s != [] {
      KeepMembers(p, s[1..]);
      assert s == [s[0]] + s[1..];
    }
  }

  /** Keeping rows and sorting commute. */
  lemma {:induction false} KeepSort<T(!new)>(le: (T, T) -> bool, p: T -> bool, s: seq<T>)
    requires TotalPreorder(le)
    ensures Keep(p, Sort(le, s)) == Sort(le, Keep(p, s))
  {
    if s != [] {
      var x, rest := s[0], s[1..];
      assert s == [x] + rest;
      KeepSort(le, p, rest);
      SortSorts(le, rest);
      KeepInsert(le, p, x, Sort(le, rest));
      KeepPush(p, x, rest);
      SortPush(le, x, Keep(p, rest));
    }
  }

  lemma SortPush<T>(le: (T, T) -> bool, x: T, s: seq<T>)
    ensures Sort(le, [x] + s) == Insert(le, x, Sort(le, s))
  {
    assert ([x] + s)[1..] == s;
  }

  lemma {:induction false} KeepKeep<T>(p: T -> bool, q: T -> bool, both: T -> bool, s: seq<T>)
    requires forall t :: t in s ==> both(t) == (p(t) && q(t))
    ensures Keep(q, Keep(p, s)) == Keep(both, s)
  {
    if s != [] {
      var x, rest := s[0], s[1..];
      assert s == [x] + rest;
      KeepKeep(p, q, both, rest);
      KeepPush(p, x, rest);
      KeepPush(both, x, rest);
      KeepPush(q, x, Keep(p, rest));
    }
  }

  lemma {:induction false} InsertAgrees<T>(le: (T, T) -> bool, le': (T, T) -> bool, x: T, s: seq<T>)
    requires forall b :: b in s ==> le(x, b) == le'(x, b)
    ensures Insert(le, x, s) == Insert(le', x, s)
  {
    if s != [] { InsertAgrees(le, le', x, s[1..]); }
  }

  /** Two orders that agree on the rows at hand sort them alike. */
  lemma {:induction false} SortAgrees<T(!new)>(le: (T, T) -> bool, le': (T, T) -> bool, s: seq<T>)
    requires TotalPreorder(le)
    requires forall a, b :: a in s && b in s ==> le(a, b) == le'(a, b)
    ensures Sort(le, s) == Sort(le', s)
  {
    if s != [] {
      SortAgrees(le, le', s[1..]);
      SortSorts(le, s[1..]);
      forall b | b in Sort(le, s[1..]) ensures le(s[0], b) == le'(s[0], b) {
        assert b in multiset(s[1..]);
      }
      InsertAgrees(le, le', s[0], Sort(le, s[1..]));
    }
  }

  ghost predicate Between<T>(p: T -> bool, s: seq<T>, from: int, to: int) {
    forall j :: 0 <= j < |s| ==> (p(s[j]) <==> from <= j < to)
  }

  lemma BetweenTail<T>(p: T -> bool, s: seq<T>, from: int, to: int)
    requires s != [] && Between(p, s, from, to)
    ensures Between(p, s[1..], from - 1, to - 1) && (p(s[0]) <==> from <= 0 < to)
  {
    forall j | 0 <= j < |s[1..]|
      ensures p(s[1..][j]) <==> from - 1 <= j < to - 1
    {
      assert s[1..][j] == s[j + 1];
    }
  }

  lemma {:induction false} KeepNone<T>(p: T -> bool, s: seq<T>, from: int, to: int)
    requires Between(p, s, from, to) && to <= 0
    ensures Keep(p, s) == []
  {
    if s != [] {
      BetweenTail(p, s, from, to);
      KeepNone(p, s[1..], from - 1, to - 1);
    }
  }

  lemma {:induction false} KeepPrefix<T>(p: T -> bool, s: seq<T>, from: int, to: nat)
    requires Between(p, s, from, to) && from <= 0 && to <= |s|
    ensures Keep(p, s) == s[..to]
  {
    if to == 0 {
      KeepNone(p, s, from, 0);
    } else {
      BetweenTail(p, s, from, to);
      KeepPrefix(p, s[1..], from - 1, to - 1);
      assert s[..to] == [s[0]] + s[1..][..to - 1];
    }
  }

  /** Keeping what lies between two cuts keeps that stretch. */
  lemma {:induction false} KeepSuffix<T>(p: T -> bool, s: seq<T>, from: nat, to: nat)
    requires from <= to <= |s|
    requires forall j :: 0 <= j < |s| ==> (p(s[j]) <==> from <= j < to)
    ensures Keep(p, s) == s[from..to]
  {
    assert Between(p, s, from, to);
    KeepStretch(p, s, from, to);
  }

  lemma SliceOfTail<T>(s: seq<T>, from: nat, to: nat)
    requires 0 < from <= to <= |s|
    ensures s[from..to] == s[1..][from - 1..to - 1]
  {
    var tail := s[1..];
    forall j | 0 <= j < to - from
      ensures s[from..to][j] == tail[from - 1..to - 1][j]
    {
      assert tail[from - 1 + j] == s[from + j];
    }
  }

  lemma {:induction false} KeepStretch<T>(p: T -> bool, s: seq<T>, from: nat, to: nat)
    requires from <= to <= |s| && Between(p, s, from, to)
    ensures Keep(p, s) == s[from..to]
  {
    if from == 0 {
      KeepPrefix(p, s, 0, to);
    } else {
      BetweenTail(p, s, from, to);
      KeepStretch(p, s[1..], from - 1, to - 1);
      SliceOfTail(s, from, to);
    }
  }
}
