/** Whole-word replacement in SQL text (internal/db/audit_log_repository.go):
    the greedy scan of replaceWord against a map over identifier tokens. Text is
    a sequence of bytes. */
module WordMap {
  import opened Common

  predicate IsIdent(c: char) {
    'a' <= c <= 'z' || 'A' <= c <= 'Z' || '0' <= c <= '9' || c == '_' || c == '.'
  }

  predicate Idents(s: string) {
    forall i :: 0 <= i < |s| ==> IsIdent(s[i])
  }

  predicate Word(s: string) { s != [] && Idents(s) }

  // ---- The token-level map ----

  function Image(m: map<string, string>, w: string): string { if w in m then m[w] else w }

  /** `cur` is the identifier read so far; when it ends it goes through the map. */
  function Scan(s: string, cur: string, m: map<string, string>): string
    decreases |s|
  {
    if s == [] then Image(m, cur)
    else if IsIdent(s[0]) then Scan(s[1..], cur + [s[0]], m)
    else Image(m, cur) + [s[0]] + Scan(s[1..], [], m)
  }

  /** Every maximal identifier goes through the map; the rest stays. */
  function MapWords(s: string, m: map<string, string>): string {
    Scan(s, [], m)
  }

  // ---- The greedy scan ----

  predicate Occurs(s: string, word: string, j: nat) {
    j + |word| <= |s| && s[j..j + |word|] == word
  }

  /** strings.Index from position `i` on. */
  function IndexFrom(s: string, word: string, i: nat): (r: int)
    requires i <= |s|
    ensures r == -1 || (i <= r && Occurs(s, word, r))
    ensures forall j :: i <= j < (if r == -1 then |s| else r) ==> !Occurs(s, word, j)
    decreases |s| - i
  {
    if Occurs(s, word, i) then i else if i == |s| then -1 else IndexFrom(s, word, i + 1)
  }

  /** An occurrence that is not part of a longer identifier. */
  predicate Whole(s: string, word: string, j: nat) {
    && Occurs(s, word, j)
    && (j == 0 || !IsIdent(s[j - 1]))
    && (j + |word| == |s| || !IsIdent(s[j + |word|]))
  }

  /** The identifier that a text starts with. */
  function Ident(s: string): (w: string)
    ensures |w| <= |s| && w == s[..|w|] && Idents(w) && (|w| < |s| ==> !IsIdent(s[|w|]))
  {
    if s != [] && IsIdent(s[0]) then [s[0]] + Ident(s[1..]) else []
  }

  /** Copies the rest of an identifier, then goes on mapping. */
  function Skip(s: string, m: map<string, string>): string {
    if s == [] then []
    else if IsIdent(s[0]) then [s[0]] + Skip(s[1..], m)
    else [s[0]] + Scan(s[1..], [], m)
  }

  /** What the identifier at hand becomes decides the rest of the scan. */
  lemma {:induction false} ScanSkips(s: string, cur: string, m: map<string, string>)
    requires cur + Ident(s) !in m
    ensures Scan(s, cur, m) == cur + Skip(s, m)
    decreases |s|
  {
    if s != [] && IsIdent(s[0]) {
      assert cur + Ident(s) == (cur + [s[0]]) + Ident(s[1..]);
      ScanSkips(s[1..], cur + [s[0]], m);
    } else {
      assert cur + [] == cur;
    }
  }

  lemma {:induction false} ScanMaps(w: string, rest: string, cur: string, m: map<string, string>)
    requires Idents(w) && (rest == [] || !IsIdent(rest[0]))
    ensures Scan(w + rest, cur, m) == Image(m, cur + w) + Skip(rest, m)
    decreases |w|
  {
    if w == [] {
      assert w + rest == rest && cur + w == cur;
    } else {
      assert (w + rest)[1..] == w[1..] + rest;
      assert (cur + [w[0]]) + w[1..] == cur + w;
      ScanMaps(w[1..], rest, cur + [w[0]], m);
    }
  }

  predicate InsideAt(s: string, i: nat)
    requires i <= |s|
  {
    0 < i && IsIdent(s[i - 1])
  }

  /** What is still to be written from position `i` on; inside an identifier that
      has been passed over, its remainder is copied. */
  function Todo(s: string, i: nat, m: map<string, string>): string
    requires i <= |s|
  {
    if InsideAt(s, i) then Skip(s[i..], m) else Scan(s[i..], [], m)
  }

  /** The identifier that starts at a position is a whole word there. */
  lemma IdentIsWhole(s: string, i: nat)
    requires i < |s| && IsIdent(s[i]) && !InsideAt(s, i)
    ensures Whole(s, [s[i]] + Ident(s[i + 1..]), i)
  {
    var w := Ident(s[i + 1..]);
    assert s[i..i + 1 + |w|] == [s[i]] + s[i + 1..][..|w|];
  }

  /** At a position where no whole word starts, one byte is copied. */
  lemma CopyOne(s: string, i: nat, word: string, repl: string)
    requires Word(word) && i < |s| && !Whole(s, word, i)
    ensures Todo(s, i, map[word := repl]) == [s[i]] + Todo(s, i + 1, map[word := repl])
  {
    var m := map[word := repl];
    var rest := s[i..];
    assert rest[1..] == s[i + 1..] && rest[0] == s[i];
    if IsIdent(s[i]) && !InsideAt(s, i) {
      assert [] + [s[i]] == [s[i]];
      IdentIsWhole(s, i);
      ScanSkips(s[i + 1..], [s[i]], m);
    }
  }

  /** A whole word is mapped. */
  lemma WholeIsMapped(s: string, j: nat, word: string, repl: string)
    requires Word(word) && Whole(s, word, j)
    ensures Todo(s, j, map[word := repl]) == repl + Todo(s, j + |word|, map[word := repl])
  {
    var after := s[j + |word|..];
    assert s[j..] == word + after;
    ScanMaps(word, after, [], map[word := repl]);
    assert [] + word == word;
    assert s[j + |word| - 1] == word[|word| - 1];
  }

  /** `todo[i]` is what is still to be written from position `i` on. */
  ghost predicate Plan(s: string, word: string, repl: string, todo: seq<string>) {
    && |todo| == |s| + 1 && todo[|s|] == []
    && (forall i :: 0 <= i < |s| ==> PlanAt(s, word, repl, todo, i))
  }

  ghost predicate PlanAt(s: string, word: string, repl: string, todo: seq<string>, i: nat)
    requires i < |s| && |todo| == |s| + 1
  {
    todo[i] == if Whole(s, word, i) then repl + todo[i + |word|] else [s[i]] + todo[i + 1]
  }

  lemma TodoEnds(s: string, m: map<string, string>)
    requires "" !in m
    ensures Todo(s, 0, m) == MapWords(s, m) && Todo(s, |s|, m) == []
  {
    assert s[0..] == s && s[|s|..] == [];
  }

  lemma PlanExists(s: string, word: string, repl: string) returns (todo: seq<string>)
    requires Word(word)
    ensures Plan(s, word, repl, todo) && todo[0] == MapWords(s, map[word := repl])
  {
    var m := map[word := repl];
    todo := seq(|s| + 1, i requires 0 <= i <= |s| => Todo(s, i, m));
    TodoEnds(s, m);
    forall i | 0 <= i < |s|
      ensures PlanAt(s, word, repl, todo, i)
    {
      if Whole(s, word, i) { WholeIsMapped(s, i, word, repl); } else { CopyOne(s, i, word, repl); }
    }
  }

  lemma {:induction false} CopyRange(s: string, word: string, repl: string, todo: seq<string>, i: nat, k: nat)
    requires Plan(s, word, repl, todo) && i <= k <= |s|
    requires forall j :: i <= j < k ==> !Whole(s, word, j)
    ensures todo[i] == s[i..k] + todo[k]
    decreases k - i
  {
    if i < k {
      CopyRange(s, word, repl, todo, i + 1, k);
      assert PlanAt(s, word, repl, todo, i);
      assert todo[i] == [s[i]] + todo[i + 1];
      assert s[i..k] == [s[i]] + s[i + 1..k];
      Assoc([s[i]], s[i + 1..k], todo[k]);
    } else {
      assert s[i..k] == [] && [] + todo[k] == todo[k];
    }
  }

  /** Inside a rejected match no whole word starts: it would begin within an
      identifier. */
  lemma RejectedMatch(s: string, j: nat, word: string)
    requires Word(word) && Occurs(s, word, j) && !Whole(s, word, j)
    ensures forall k :: j <= k < j + |word| ==> !Whole(s, word, k)
  {
    forall k | j < k < j + |word| ensures !Whole(s, word, k) {
      assert s[k - 1] == s[j..j + |word|][k - 1 - j];
    }
  }

  /** One turn of the scan: up to the next match, and past it. */
  lemma NextMatch(s: string, word: string, repl: string, todo: seq<string>, i: nat, j: nat)
    requires Word(word) && Plan(s, word, repl, todo) && i <= j && Occurs(s, word, j)
    requires forall k :: i <= k < j ==> !Occurs(s, word, k)
    ensures todo[i] == s[i..j] + (if Whole(s, word, j) then repl else word) + todo[j + |word|]
  {
    CopyRange(s, word, repl, todo, i, j);
    assert j < |s| && PlanAt(s, word, repl, todo, j);
    if !Whole(s, word, j) {
      RejectedMatch(s, j, word);
      CopyRange(s, word, repl, todo, j, j + |word|);
    }
    Assoc(s[i..j], if Whole(s, word, j) then repl else word, todo[j + |word|]);
  }

  /** For a word of identifier bytes the scan, which jumps past rejected matches,
      replaces exactly the whole words. */
  method ReplaceWord(s: string, word: string, repl: string) returns (r: string)
    requires Word(word)
    ensures r == MapWords(s, map[word := repl])
  {
    ghost var todo := PlanExists(s, word, repl);
    ghost var goal := MapWords(s, map[word := repl]);
    r := "";
    var i := 0;
    while i < |s|
      invariant 0 <= i <= |s| && r + todo[i] == goal
    {
      var j := IndexFrom(s, word, i);
      if j < 0 {
        CopyRange(s, word, repl, todo, i, |s|);
        assert todo[i] == s[i..];
        r := r + s[i..];
        return;
      }
      NextMatch(s, word, repl, todo, i, j);
      var left := j == 0 || !IsIdent(s[j - 1]);
      var right := j + |word| == |s| || !IsIdent(s[j + |word|]);
      ghost var was := r;
      r := r + s[i..j];
      if left && right {
        r := r + repl;
      } else {
        r := r + word;
      }
      Regroup(was, s[i..j], if left && right then repl else word, todo[j + |word|]);
      i := j + |word|;
    }
  }

  lemma Regroup(a: string, b: string, c: string, d: string)
    ensures a + (b + c + d) == a + b + c + d
  {
  }
}
