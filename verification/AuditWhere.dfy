/** The filter of the audit log (internal/db/audit_log_repository.go): its WHERE
    clause, the qualification of the columns for the joined query, and how the
    parameters line up with the placeholders. */
module AuditWhere {
  import opened Common
  import opened WordMap
  import P = Placeholders

  // ---- Maps compose ----

  function Through(m2: map<string, string>, m1: map<string, string>, w: string): string {
    Image(m2, Image(m1, w))
  }

  /** Words go to words, and the empty identifier is left alone. */
  predicate WordMapping(m: map<string, string>) {
    "" !in m && forall w :: w in m ==> Word(m[w])
  }

  lemma {:induction false} ScanWord(w: string, rest: string, cur: string, m: map<string, string>)
    requires Idents(w)
    ensures Scan(w + rest, cur, m) == Scan(rest, cur + w, m)
    decreases |w|
  {
    if w == [] {
      assert w + rest == rest && cur + w == cur;
    } else {
      assert (w + rest)[1..] == w[1..] + rest && cur + [w[0]] + w[1..] == cur + w;
      ScanWord(w[1..], rest, cur + [w[0]], m);
    }
  }

  /** Two passes equal one pass of the composed map. */
  lemma {:induction false} ScansCompose(s: string, cur: string, m1: map<string, string>, m2: map<string, string>, m: map<string, string>)
    requires WordMapping(m1) && Idents(cur)
    requires forall w :: Image(m, w) == Through(m2, m1, w)
    ensures Scan(Scan(s, cur, m1), [], m2) == Scan(s, cur, m)
    decreases |s|
  {
    var w := Image(m1, cur);
    assert Idents(w) && Image(m2, w) == Image(m, cur) by {
      assert Image(m, cur) == Through(m2, m1, cur);
    }
    if s == [] {
      ScanLast(w, m2);
    } else if IsIdent(s[0]) {
      ScansCompose(s[1..], cur + [s[0]], m1, m2, m);
    } else {
      ScansCompose(s[1..], [], m1, m2, m);
      ScanBreak(w, s[0], Scan(s[1..], [], m1), m2);
    }
  }

  lemma ScanLast(w: string, m: map<string, string>)
    requires Idents(w)
    ensures Scan(w, [], m) == Image(m, w)
  {
    ScanWord(w, [], [], m);
    assert w + [] == w && [] + w == w;
  }

  lemma ScanBreak(w: string, c: char, rest: string, m: map<string, string>)
    requires Idents(w) && !IsIdent(c)
    ensures Scan(w + [c] + rest, [], m) == Image(m, w) + [c] + Scan(rest, [], m)
  {
    assert w + [c] + rest == w + ([c] + rest);
    ScanWord(w, [c] + rest, [], m);
    assert [] + w == w && ([c] + rest)[1..] == rest;
  }

  lemma {:induction false} ScanOfNothing(s: string, cur: string)
    ensures Scan(s, cur, map[]) == cur + s
    decreases |s|
  {
    if s == [] {
      assert cur + s == cur;
    } else {
      var c, rest := s[0], s[1..];
      assert s == [c] + rest;
      Assoc(cur, [c], rest);
      ScanOfNothing(rest, if IsIdent(c) then cur + [c] else []);
      assert [] + rest == rest;
    }
  }

  // ---- qualifyAuditWhere ----

  /** A bare column name: an identifier without a qualifying dot. */
  predicate Column(c: string) {
    Word(c) && '.' !in c
  }

  function Qualified(c: string): string { "a." + c }

  function QualMap(cols: seq<string>): map<string, string> {
    map c | c in cols :: Qualified(c)
  }

  const AuditColumns := ["event_type", "actor_user_id", "created_at", "target_id", "payload", "ip_address", "user_agent"]

  lemma QualifiedIsNoColumn(c: string)
    requires Column(c)
    ensures Word(Qualified(c)) && !Column(Qualified(c))
  {
    assert Qualified(c)[1] == '.';
  }

  lemma QualMapsCompose(done: seq<string>, c: string, w: string)
    requires (forall k :: k in done ==> Column(k)) && Column(c)
    ensures Image(QualMap(done + [c]), w) == Through(map[c := Qualified(c)], QualMap(done), w)
  {
    if w in done {
      QualifiedIsNoColumn(w);
      assert Qualified(w) != c;
    }
  }

  /** The passes, one column at a time, equal one simultaneous map. */
  method QualifyColumns(where: string, cols: seq<string>) returns (out: string)
    requires forall c :: c in cols ==> Column(c)
    ensures out == MapWords(where, QualMap(cols))
  {
    out := where;
    ScanOfNothing(where, []);
    assert QualMap([]) == map[] && [] + where == where;
    for i := 0 to |cols|
      invariant out == MapWords(where, QualMap(cols[..i]))
    {
      var c := cols[i];
      assert cols[..i + 1] == cols[..i] + [c];
      forall w ensures Image(QualMap(cols[..i + 1]), w) == Through(map[c := Qualified(c)], QualMap(cols[..i]), w) {
        QualMapsCompose(cols[..i], c, w);
      }
      QualMapIsWordMapping(cols[..i]);
      ScansCompose(where, [], QualMap(cols[..i]), map[c := Qualified(c)], QualMap(cols[..i + 1]));
      out := ReplaceWord(out, c, Qualified(c));
    }
    assert cols[..|cols|] == cols;
  }

  lemma QualMapIsWordMapping(cols: seq<string>)
    requires forall c :: c in cols ==> Column(c)
    ensures WordMapping(QualMap(cols))
  {
    forall w | w in QualMap(cols) ensures Word(QualMap(cols)[w]) { QualifiedIsNoColumn(w); }
    assert !Column("");
  }

  lemma AuditColumnsAreColumns()
    ensures forall c :: c in AuditColumns ==> Column(c)
  {
  }

  method QualifyAuditWhere(where: string) returns (out: string)
    ensures out == MapWords(where, QualMap(AuditColumns))
  {
    AuditColumnsAreColumns();
    out := QualifyColumns(where, AuditColumns);
  }

  /** Qualifying a qualified clause again changes nothing: the dot is part of
      the identifier, so `a.payload` is not the word `payload`. */
  lemma QualifyingIsIdempotent(where: string, cols: seq<string>)
    requires forall c :: c in cols ==> Column(c)
    ensures MapWords(MapWords(where, QualMap(cols)), QualMap(cols)) == MapWords(where, QualMap(cols))
  {
    var m := QualMap(cols);
    QualMapIsWordMapping(cols);
    forall w ensures Image(m, w) == Through(m, m, w) {
      if w in m {
        QualifiedIsNoColumn(w);
        assert Qualified(w) !in cols;
      }
    }
    ScansCompose(where, [], m, m, m);
  }

  // ---- buildAuditWhere ----

  datatype AuditQuery = AuditQuery(
    eventTypePrefix: string, actorUserId: string, from: Option<int>, to: Option<int>, searchText: string, limit: int, offset: int)

  datatype Arg = Text(s: string) | Time(t: int) | Number(n: int)

  /** The conditions a filter can add. */
  datatype Kind = EventLike | EventIs | ActorIs | Since | Until | AnyText

  /** One condition and the values of its placeholders. */
  datatype Clause = Clause(kind: Kind, args: seq<Arg>)

  function Wildcards(s: string): string {
    seq(|s|, i requires 0 <= i < |s| => if s[i] == '*' then '%' else s[i])
  }

  function Pattern(prefix: string): string {
    var p := Wildcards(prefix);
    if p != [] && p[|p| - 1] == '%' then p else p + "%"
  }

  predicate IsPrefixFilter(prefix: string) {
    (prefix != [] && prefix[|prefix| - 1] == '.') || '*' in prefix
  }

  function Ask(phrase: string): string { phrase + "?" }

  function Search(a: string, b: string, c: string, d: string): string {
    "(" + Ask(a) + " OR " + Ask(b) + " OR " + Ask(c) + " OR " + Ask(d) + ")"
  }

  function Sql(k: Kind): string {
    match k
    case EventLike => Ask("event_type LIKE ")
    case EventIs => Ask("event_type = ")
    case ActorIs => Ask("actor_user_id = ")
    case Since => Ask("created_at >= ")
    case Until => Ask("created_at <= ")
    case AnyText => Search("target_id LIKE ", "payload LIKE ", "ip_address LIKE ", "user_agent LIKE ")
  }

  function Slots(k: Kind): nat { if k.AnyText? then 4 else 1 }

  function OfType(q: AuditQuery): seq<Clause> {
    if q.eventTypePrefix == "" then []
    else if IsPrefixFilter(q.eventTypePrefix) then [Clause(EventLike, [Text(Pattern(q.eventTypePrefix))])]
    else [Clause(EventIs, [Text(q.eventTypePrefix)])]
  }

  function OfActor(q: AuditQuery): seq<Clause> {
    if q.actorUserId == "" then [] else [Clause(ActorIs, [Text(q.actorUserId)])]
  }

  function OfStart(q: AuditQuery): seq<Clause> {
    if q.from.None? then [] else [Clause(Since, [Time(q.from.value)])]
  }

  function OfEnd(q: AuditQuery): seq<Clause> {
    if q.to.None? then [] else [Clause(Until, [Time(q.to.value)])]
  }

  function OfText(q: AuditQuery): seq<Clause> {
    if q.searchText == "" then []
    else var n := Text("%" + q.searchText + "%"); [Clause(AnyText, [n, n, n, n])]
  }

  /** The conditions in the order of the filter's fields; empty fields add none. */
  function Clauses(q: AuditQuery): seq<Clause> {
    OfType(q) + OfActor(q) + OfStart(q) + OfEnd(q) + OfText(q)
  }

  function Join(parts: seq<string>): string {
    if parts == [] then "" else if |parts| == 1 then parts[0] else parts[0] + " AND " + Join(parts[1..])
  }

  function Texts(cs: seq<Clause>): seq<string> {
    seq(|cs|, i requires 0 <= i < |cs| => Sql(cs[i].kind))
  }

  function Args(cs: seq<Clause>): seq<Arg> {
    if cs == [] then [] else cs[0].args + Args(cs[1..])
  }

  lemma {:induction false} ArgsAppend(a: seq<Clause>, b: seq<Clause>)
    ensures Args(a + b) == Args(a) + Args(b)
    ensures Texts(a + b) == Texts(a) + Texts(b)
  {
    if a == [] {
      assert a + b == b;
    } else {
      assert (a + b)[1..] == a[1..] + b;
      ArgsAppend(a[1..], b);
    }
  }

  lemma OneClause(c: Clause)
    ensures Args([c]) == c.args && Texts([c]) == [Sql(c.kind)]
  {
    assert [c][1..] == [] && c.args + [] == c.args;
  }

  /** Appends a condition, if there is one, to the text parts and its values to
      the arguments. */
  method Add(parts: seq<string>, args: seq<Arg>, more: seq<Clause>, ghost cs: seq<Clause>) returns (parts': seq<string>, args': seq<Arg>)
    requires parts == Texts(cs) && args == Args(cs) && |more| <= 1
    ensures parts' == Texts(cs + more) && args' == Args(cs + more)
  {
    ArgsAppend(cs, more);
    parts', args' := parts, args;
    if |more| == 1 {
      OneClause(more[0]);
      assert more == [more[0]];
      parts', args' := parts + [Sql(more[0].kind)], args + more[0].args;
    }
  }

  method TypeFilter(q: AuditQuery) returns (more: seq<Clause>)
    ensures more == OfType(q)
  {
    if q.eventTypePrefix == "" {
      return [];
    }
    if IsPrefixFilter(q.eventTypePrefix) {
      var pattern := Wildcards(q.eventTypePrefix);
      if !(pattern != [] && pattern[|pattern| - 1] == '%') {
        pattern := pattern + "%";
      }
      return [Clause(EventLike, [Text(pattern)])];
    }
    return [Clause(EventIs, [Text(q.eventTypePrefix)])];
  }

  method BuildAuditWhere(q: AuditQuery) returns (where: string, args: seq<Arg>)
    ensures where == Join(Texts(Clauses(q))) && args == Args(Clauses(q))
  {
    var parts: seq<string> := [];
    args := [];
    var ofType := TypeFilter(q);
    parts, args := Add(parts, args, ofType, []);
    assert [] + OfType(q) == OfType(q);
    parts, args := Add(parts, args, OfActor(q), OfType(q));
    parts, args := Add(parts, args, OfStart(q), OfType(q) + OfActor(q));
    parts, args := Add(parts, args, OfEnd(q), OfType(q) + OfActor(q) + OfStart(q));
    parts, args := Add(parts, args, OfText(q), OfType(q) + OfActor(q) + OfStart(q) + OfEnd(q));
    where := Join(parts);
  }

  // ---- Placeholders and arguments line up ----

  function Questions(s: string): nat {
    if s == [] then 0 else (if s[0] == '?' then 1 else 0) + Questions(s[1..])
  }

  /** No quotes and no dashes: nothing that starts a literal or a comment. */
  predicate Clean(s: string) {
    forall i :: 0 <= i < |s| ==> s[i] != '\'' && s[i] != '-'
  }

  predicate Quiet(s: string) {
    Clean(s) && forall i :: 0 <= i < |s| ==> s[i] != '?'
  }

  lemma {:induction false} QuietHasNone(s: string)
    requires Quiet(s)
    ensures Questions(s) == 0
  {
    if s != [] { QuietHasNone(s[1..]); }
  }

  lemma {:induction false} QuestionsAppend(a: string, b: string)
    ensures Questions(a + b) == Questions(a) + Questions(b)
  {
    if a == [] {
      assert a + b == b;
    } else {
      assert (a + b)[1..] == a[1..] + b;
      QuestionsAppend(a[1..], b);
    }
  }

  /** A piece of SQL whose placeholders number `n`. */
  predicate Asks(s: string, n: nat) { Clean(s) && Questions(s) == n }

  lemma AsksAppend(a: string, m: nat, b: string, n: nat)
    requires Asks(a, m) && Asks(b, n)
    ensures Asks(a + b, m + n)
  {
    QuestionsAppend(a, b);
  }

  lemma QuietAsks(s: string)
    requires Quiet(s)
    ensures Asks(s, 0) && Asks(Ask(s), 1)
  {
    QuietHasNone(s);
    QuestionsAppend(s, "?");
  }

  lemma OrAsks(s: string, m: nat, or: string, phrase: string)
    requires Asks(s, m) && Quiet(or) && Quiet(phrase)
    ensures Asks(s + or + Ask(phrase), m + 1)
  {
    QuietAsks(or);
    QuietAsks(phrase);
    AsksAppend(s, m, or, 0);
    AsksAppend(s + or, m, Ask(phrase), 1);
  }

  lemma SearchAsks(a: string, b: string, c: string, d: string)
    requires Quiet(a) && Quiet(b) && Quiet(c) && Quiet(d)
    ensures Asks(Search(a, b, c, d), 4)
  {
    SearchParts(a, " OR ", b, c, d);
    QuietAsks(")");
    AsksAppend("(" + Ask(a) + " OR " + Ask(b) + " OR " + Ask(c) + " OR " + Ask(d), 4, ")", 0);
  }

  lemma SearchParts(a: string, or: string, b: string, c: string, d: string)
    requires Quiet(a) && Quiet(or) && Quiet(b) && Quiet(c) && Quiet(d)
    ensures Asks("(" + Ask(a) + or + Ask(b) + or + Ask(c) + or + Ask(d), 4)
  {
    QuietAsks("(");
    QuietAsks(a);
    AsksAppend("(", 0, Ask(a), 1);
    OrAsks("(" + Ask(a), 1, or, b);
    OrAsks("(" + Ask(a) + or + Ask(b), 2, or, c);
    OrAsks("(" + Ask(a) + or + Ask(b) + or + Ask(c), 3, or, d);
  }

  /** Each condition has as many placeholders as slots. */
  lemma SqlAsks(k: Kind)
    ensures Asks(Sql(k), Slots(k))
  {
    match k {
      case EventLike => QuietAsks("event_type LIKE ");
      case EventIs => QuietAsks("event_type = ");
      case ActorIs => QuietAsks("actor_user_id = ");
      case Since => QuietAsks("created_at >= ");
      case Until => QuietAsks("created_at <= ");
      case AnyText => SearchAsks("target_id LIKE ", "payload LIKE ", "ip_address LIKE ", "user_agent LIKE ");
    }
  }

  /** Each condition carries one value for each of its placeholders. */
  predicate Balanced(cs: seq<Clause>) {
    forall i :: 0 <= i < |cs| ==> |cs[i].args| == Slots(cs[i].kind)
  }

  lemma ClausesBalance(q: AuditQuery)
    ensures Balanced(Clauses(q)) && |Clauses(q)| <= 5
  {
  }

  lemma {:induction false} JoinBalances(cs: seq<Clause>)
    requires Balanced(cs)
    ensures Asks(Join(Texts(cs)), |Args(cs)|)
  {
    if cs != [] {
      var c, rest := cs[0], cs[1..];
      assert Balanced(rest) by { assert forall i :: 0 <= i < |rest| ==> rest[i] == cs[i + 1]; }
      JoinBalances(rest);
      assert Texts(cs)[1..] == Texts(rest);
      SqlAsks(c.kind);
      if rest != [] {
        QuietAsks(" AND ");
        AsksAppend(Sql(c.kind), |c.args|, " AND ", 0);
        AsksAppend(Sql(c.kind) + " AND ", |c.args|, Join(Texts(rest)), |Args(rest)|);
      }
    }
  }

  lemma {:induction false} ScanKeepsQuestions(s: string, cur: string, m: map<string, string>, n: nat)
    requires WordMapping(m) && Idents(cur) && Asks(s, n)
    ensures Asks(Scan(s, cur, m), n)
    decreases |s|
  {
    var w := Image(m, cur);
    IdentsAreQuiet(w);
    if s == [] {
      QuietAsks(w);
    } else if IsIdent(s[0]) {
      ScanKeepsQuestions(s[1..], cur + [s[0]], m, n);
    } else {
      var k := if s[0] == '?' then 1 else 0;
      ScanKeepsQuestions(s[1..], [], m, n - k);
      QuietAsks(w);
      assert Asks([s[0]], k) by { assert [s[0]][1..] == []; }
      AsksAppend(w, 0, [s[0]], k);
      AsksAppend(w + [s[0]], k, Scan(s[1..], [], m), n - k);
    }
  }

  lemma IdentsAreQuiet(w: string)
    requires Idents(w)
    ensures Quiet(w)
  {
  }

  lemma {:induction false} CleanMarks(s: string, rest: string)
    requires Clean(s)
    ensures P.Marks(P.Lex(s + rest, P.Code)) == Questions(s) + P.Marks(P.Lex(rest, P.Code))
  {
    if s == [] {
      assert s + rest == rest;
    } else {
      assert (s + rest)[1..] == s[1..] + rest;
      P.LexStep(s + rest, P.Code, 0);
      CleanMarks(s[1..], rest);
    }
  }

  // ---- The two statements of Query ----

  function PageSize(limit: int): int { if limit <= 0 then 50 else if limit > 500 then 500 else limit }

  function PageStart(offset: int): int { if offset < 0 then 0 else offset }

  /** The fixed text around the filter: the count's head, and the listing's
      select list up to its one literal ('user'), the literal's content, and
      the ordering with LIMIT ? OFFSET ?. */
  datatype SqlText = SqlText(count: string, select: string, literal: string, order: string)

  predicate Fixed(t: SqlText) {
    Quiet(t.count) && Quiet(t.select) && Asks(t.order, 2) && t.order != [] && '\'' !in t.literal
  }

  function Filtered(where: string): string { if where == "" then "" else " WHERE " + where }

  /** The filter of the joined query: the same conditions on qualified columns. */
  function Joined(where: string): string {
    if where == "" then "" else " WHERE " + MapWords(where, QualMap(AuditColumns))
  }

  function CountSql(t: SqlText, where: string): string { t.count + Filtered(where) }

  function ListSql(t: SqlText, where: string): string {
    t.select + ("'" + t.literal + "'") + (Joined(where) + t.order)
  }

  function ListArgs(q: AuditQuery): seq<Arg> {
    Args(Clauses(q)) + [Number(PageSize(q.limit)), Number(PageStart(q.offset))]
  }

  /** 50 rows when no limit is given, 500 at most; no offset before the first row. */
  predicate AsAsked(q: AuditQuery, size: int, start: int) {
    && (1 <= q.limit <= 500 ==> size == q.limit) && (q.limit < 1 ==> size == 50) && (500 < q.limit ==> size == 500)
    && (0 <= q.offset ==> start == q.offset) && (q.offset < 0 ==> start == 0)
  }

  function WhereOf(q: AuditQuery): string { Join(Texts(Clauses(q))) }

  function ForDriver(driver: string, sql: string): string {
    if driver == P.DriverPostgres then P.Rewritten(sql) else sql
  }

  /** Assembles the count and the listing for a driver; None would be the
      rewriter running out of digits. */
  method Assemble(driver: string, t: SqlText, q: AuditQuery)
    returns (count: Option<string>, countArgs: seq<Arg>, list: Option<string>, listArgs: seq<Arg>)
    requires Fixed(t)
    ensures countArgs == Args(Clauses(q)) && listArgs == ListArgs(q)
    ensures exists size, start :: listArgs == countArgs + [Number(size), Number(start)] && AsAsked(q, size, start)
    ensures count == Some(ForDriver(driver, CountSql(t, WhereOf(q)))) && list == Some(ForDriver(driver, ListSql(t, WhereOf(q))))
  {
    var limit := q.limit;
    if limit <= 0 {
      limit := 50;
    }
    if limit > 500 {
      limit := 500;
    }
    var offset := q.offset;
    if offset < 0 {
      offset := 0;
    }
    var where, args := BuildAuditWhere(q);
    CountLinesUp(t, q);
    var countQ, listQ := "", "";
    if where != "" {
      var qualified := QualifyAuditWhere(where);
      countQ := " WHERE " + where;
      listQ := " WHERE " + qualified;
    }
    count := P.RewritePlaceholders(driver, t.count + countQ);
    ListLinesUp(t, q);
    list := P.RewritePlaceholders(driver, t.select + ("'" + t.literal + "'") + (listQ + t.order));
    countArgs := args;
    listArgs := args + [Number(limit), Number(offset)];
    assert AsAsked(q, limit, offset);
  }

  lemma {:induction false} ArgsOfBalanced(cs: seq<Clause>)
    requires Balanced(cs)
    ensures |Args(cs)| <= 4 * |cs|
  {
    if cs != [] {
      assert Balanced(cs[1..]) by { assert forall i :: 0 <= i < |cs[1..]| ==> cs[1..][i] == cs[i + 1]; }
      ArgsOfBalanced(cs[1..]);
    }
  }

  lemma WhereAsks(q: AuditQuery)
    ensures Asks(WhereOf(q), |Args(Clauses(q))|) && |Args(Clauses(q))| <= 20
  {
    ClausesBalance(q);
    JoinBalances(Clauses(q));
    ArgsOfBalanced(Clauses(q));
  }

  lemma FilteredAsks(where: string, n: nat)
    requires Asks(where, n)
    ensures Asks(Filtered(where), n)
  {
    QuietAsks(" WHERE ");
    AsksAppend(" WHERE ", 0, where, n);
  }

  /** The count has one placeholder for each argument. */
  lemma CountLinesUp(t: SqlText, q: AuditQuery)
    requires Fixed(t)
    ensures P.Marks(P.Lex(CountSql(t, WhereOf(q)), P.Code)) == |Args(Clauses(q))| <= 9999
  {
    WhereAsks(q);
    FilteredAsks(WhereOf(q), |Args(Clauses(q))|);
    QuietHasNone(t.count);
    AsksAppend(t.count, 0, Filtered(WhereOf(q)), |Args(Clauses(q))|);
    AsksMarks(CountSql(t, WhereOf(q)), |Args(Clauses(q))|);
  }

  lemma AsksMarks(s: string, n: nat)
    requires Asks(s, n)
    ensures P.Marks(P.Lex(s, P.Code)) == n
  {
    CleanMarks(s, "");
    assert s + "" == s;
  }

  lemma {:induction false} InLiteral(w: string, rest: string)
    requires '\'' !in w && (rest == [] || rest[0] != '\'')
    ensures P.Marks(P.Lex(w + ("'" + rest), P.Str)) == P.Marks(P.Lex(rest, P.Code))
  {
    var all := w + ("'" + rest);
    P.LexStep(all, P.Str, 0);
    if w == [] {
      assert all[1..] == rest;
    } else {
      assert all[1..] == w[1..] + ("'" + rest) && all[0] == w[0];
      InLiteral(w[1..], rest);
    }
  }

  lemma QuotedMarks(w: string, rest: string)
    requires '\'' !in w && (rest == [] || rest[0] != '\'')
    ensures P.Marks(P.Lex(("'" + w + "'") + rest, P.Code)) == P.Marks(P.Lex(rest, P.Code))
  {
    var tail := w + ("'" + rest);
    var all := ("'" + w + "'") + rest;
    assert all == "'" + tail && all[1..] == tail;
    P.LexStep(all, P.Code, 0);
    InLiteral(w, rest);
  }

  /** Qualifying the columns keeps the placeholders. */
  lemma JoinedAsks(where: string, n: nat)
    requires Asks(where, n)
    ensures Asks(Joined(where), n)
  {
    AuditColumnsAreColumns();
    QualMapIsWordMapping(AuditColumns);
    ScanKeepsQuestions(where, [], QualMap(AuditColumns), n);
    QuietAsks(" WHERE ");
    AsksAppend(" WHERE ", 0, MapWords(where, QualMap(AuditColumns)), n);
  }

  /** For every filter the listing has one placeholder for each argument; no `?`
      in a value of the filter can add one, since values never enter the text. */
  lemma ListLinesUp(t: SqlText, q: AuditQuery)
    requires Fixed(t)
    ensures P.Marks(P.Lex(ListSql(t, WhereOf(q)), P.Code)) == |ListArgs(q)| <= 9999
  {
    var n := |Args(Clauses(q))|;
    WhereAsks(q);
    JoinedAsks(WhereOf(q), n);
    AsksAppend(Joined(WhereOf(q)), n, t.order, 2);
    ListMarks(t.select, t.literal, Joined(WhereOf(q)) + t.order, n + 2);
  }

  lemma ListMarks(select: string, literal: string, tail: string, n: nat)
    requires Quiet(select) && '\'' !in literal && Asks(tail, n)
    ensures P.Marks(P.Lex(select + ("'" + literal + "'") + tail, P.Code)) == n
  {
    var quoted := "'" + literal + "'";
    QuietHasNone(select);
    CleanMarks(select, quoted + tail);
    assert select + (quoted + tail) == select + quoted + tail;
    QuotedMarks(literal, tail);
    AsksMarks(tail, n);
  }
}
