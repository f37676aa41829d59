/** What the audit-log filter of internal/db/audit_log_repository.go selects: a
    reader of its WHERE text that decides whether a row satisfies the text with
    its arguments, and the proof that it does so exactly when the row meets the
    filter. */
module AuditReader {
  import opened Common
  import opened WordMap
  import opened AuditWhere

  /** A row of audit_log, as far as filters go; the actor may be NULL. */
  datatype Row = Row(
    eventType: string, actor: Option<string>, createdAt: int, target: string, payload: string, ip: string, agent: string)

  /** LIKE of the engine: a value and a pattern. */
  type Like = (string, string) -> bool

  // ---- Tokens ----

  function Flush(cur: string): seq<string> { if cur == [] then [] else [cur] }

  /** Identifiers, and every other character but a blank by itself. */
  function Tokens(s: string, cur: string): seq<string>
    decreases |s|
  {
    if s == [] then Flush(cur)
    else if IsIdent(s[0]) then Tokens(s[1..], cur + [s[0]])
    else Flush(cur) + Flush(if s[0] == ' ' then [] else [s[0]]) + Tokens(s[1..], [])
  }

  // ---- The reader ----

  datatype Reading = Unreadable | Reading(holds: bool, tokens: seq<string>, args: seq<Arg>)

  /** The value of a column; None when there is no such column or it is NULL. */
  function Field(row: Row, name: string): Option<Arg> {
    match name
    case "event_type" => Some(Text(row.eventType))
    case "actor_user_id" => if row.actor.Some? then Some(Text(row.actor.value)) else None
    case "created_at" => Some(Time(row.createdAt))
    case "target_id" => Some(Text(row.target))
    case "payload" => Some(Text(row.payload))
    case "ip_address" => Some(Text(row.ip))
    case "user_agent" => Some(Text(row.agent))
    case _ => None
  }

  /** In a statement that calls the table by an alias, columns carry it. */
  function FieldOf(row: Row, alias: string, name: string): Option<Arg> {
    if alias <= name then Field(row, name[|alias|..]) else None
  }

  datatype Relation = Equals | Matches | AtLeast | AtMost

  /** A comparison; NULL satisfies none. */
  predicate Compare(like: Like, field: Option<Arg>, rel: Relation, arg: Arg) {
    field.Some? &&
    match rel
    case Equals => field.value == arg
    case Matches => field.value.Text? && arg.Text? && like(field.value.s, arg.s)
    case AtLeast => field.value.Time? && arg.Time? && field.value.t >= arg.t
    case AtMost => field.value.Time? && arg.Time? && field.value.t <= arg.t
  }

  /** A relation at the start of the tokens, and how many they are. */
  function ReadRelation(t: seq<string>): Option<Relation> {
    if t == [] then None
    else if t[0] == "=" then Some(Equals)
    else if t[0] == "LIKE" then Some(Matches)
    else if |t| > 1 && t[0] == ">" && t[1] == "=" then Some(AtLeast)
    else if |t| > 1 && t[0] == "<" && t[1] == "=" then Some(AtMost)
    else None
  }

  function Width(rel: Relation): nat { if rel.AtLeast? || rel.AtMost? then 2 else 1 }

  /** column relation ?, the parameter being the next argument. */
  function ReadCondition(t: seq<string>, args: seq<Arg>, row: Row, alias: string, like: Like): (r: Reading)
    ensures r.Reading? ==> |r.tokens| < |t|
  {
    if t == [] || args == [] then Unreadable
    else
      match ReadRelation(t[1..])
      case None => Unreadable
      case Some(rel) =>
        var n := 1 + Width(rel);
        if n < |t| && t[n] == "?" then Reading(Compare(like, FieldOf(row, alias, t[0]), rel, args[0]), t[n + 1..], args[1..])
        else Unreadable
  }

  function ReadAny(t: seq<string>, args: seq<Arg>, row: Row, alias: string, like: Like): (r: Reading)
    ensures r.Reading? ==> |r.tokens| < |t|
    decreases |t|
  {
    var first := ReadCondition(t, args, row, alias, like);
    if first.Unreadable? || first.tokens == [] || first.tokens[0] != "OR" then first
    else
      var rest := ReadAny(first.tokens[1..], first.args, row, alias, like);
      if rest.Unreadable? then Unreadable else rest.(holds := first.holds || rest.holds)
  }

  /** A condition, or alternatives in parentheses. */
  function ReadAtom(t: seq<string>, args: seq<Arg>, row: Row, alias: string, like: Like): (r: Reading)
    ensures r.Reading? ==> |r.tokens| < |t|
  {
    if t != [] && t[0] == "(" then
      var inner := ReadAny(t[1..], args, row, alias, like);
      if inner.Reading? && inner.tokens != [] && inner.tokens[0] == ")" then inner.(tokens := inner.tokens[1..]) else Unreadable
    else ReadCondition(t, args, row, alias, like)
  }

  function ReadAll(t: seq<string>, args: seq<Arg>, row: Row, alias: string, like: Like): (r: Reading)
    ensures r.Reading? ==> |r.tokens| < |t|
    decreases |t|
  {
    var first := ReadAtom(t, args, row, alias, like);
    if first.Unreadable? || first.tokens == [] || first.tokens[0] != "AND" then first
    else
      var rest := ReadAll(first.tokens[1..], first.args, row, alias, like);
      if rest.Unreadable? then Unreadable else rest.(holds := first.holds && rest.holds)
  }

  /** What a statement's filter says of a row: no text keeps every row, any
      other is WHERE and conditions. */
  function Read(text: string, args: seq<Arg>, row: Row, alias: string, like: Like): Reading {
    var t := Tokens(text, []);
    if t == [] then Reading(true, [], args)
    else if t[0] == "WHERE" then ReadAll(t[1..], args, row, alias, like)
    else Unreadable
  }

  // ---- The filter, said on the row ----

  /** A type with a star or a final dot is a pattern, any other is exact. */
  predicate MeetsType(wanted: string, row: Row, like: Like)
    requires wanted != ""
  {
    if '*' in wanted || wanted[|wanted| - 1] == '.' then like(row.eventType, Pattern(wanted)) else row.eventType == wanted
  }

  predicate MeetsText(q: AuditQuery, row: Row, like: Like) {
    var p := "%" + q.searchText + "%";
    like(row.target, p) || like(row.payload, p) || like(row.ip, p) || like(row.agent, p)
  }

  predicate MeetsBounds(q: AuditQuery, row: Row) {
    (q.from.Some? ==> q.from.value <= row.createdAt) && (q.to.Some? ==> row.createdAt <= q.to.value)
  }

  /** Every field of the filter that is set holds of the row. */
  predicate Meets(q: AuditQuery, row: Row, like: Like) {
    && (q.eventTypePrefix != "" ==> MeetsType(q.eventTypePrefix, row, like))
    && (q.actorUserId != "" ==> row.actor == Some(q.actorUserId))
    && MeetsBounds(q, row)
    && (q.searchText != "" ==> MeetsText(q, row, like))
  }

  // ---- The text comes apart into tokens ----

  lemma {:induction false} TokensBreak(a: string, cur: string, c: char, b: string)
    requires !IsIdent(c)
    ensures Tokens(a + [c] + b, cur) == Tokens(a, cur) + Flush(if c == ' ' then [] else [c]) + Tokens(b, [])
    decreases |a|
  {
    var all := a + [c] + b;
    if a == [] {
      assert all == [c] + b && all[1..] == b;
    } else {
      assert all[0] == a[0] && all[1..] == a[1..] + [c] + b;
      if IsIdent(a[0]) {
        TokensBreak(a[1..], cur + [a[0]], c, b);
      } else {
        TokensBreak(a[1..], [], c, b);
        var before := Flush(cur) + Flush(if a[0] == ' ' then [] else [a[0]]);
        var sign := Flush(if c == ' ' then [] else [c]);
        Assoc(before, Tokens(a[1..], []) + sign, Tokens(b, []));
        Assoc(before, Tokens(a[1..], []), sign);
      }
    }
  }

  lemma {:induction false} WordToken(w: string, cur: string)
    requires Idents(w)
    ensures Tokens(w, cur) == Flush(cur + w)
    decreases |w|
  {
    if w == [] {
      assert cur + w == cur;
    } else {
      assert cur + [w[0]] + w[1..] == cur + w;
      WordToken(w[1..], cur + [w[0]]);
    }
  }

  /** A word and a blank in front. */
  lemma WordFirst(w: string, rest: string)
    requires Word(w)
    ensures Tokens(w + " " + rest, []) == [w] + Tokens(rest, [])
  {
    TokensBreak(w, [], ' ', rest);
    WordToken(w, []);
    assert [] + w == w;
  }

  /** A sign in front. */
  lemma SignFirst(c: char, rest: string)
    requires !IsIdent(c) && c != ' '
    ensures Tokens([c] + rest, []) == [[c]] + Tokens(rest, [])
  {
    assert ([c] + rest)[1..] == rest;
  }

  lemma BlankFirst(rest: string)
    ensures Tokens(" " + rest, []) == Tokens(rest, [])
  {
    assert (" " + rest)[1..] == rest;
  }

  // ---- Qualified text ----

  function MapAll(t: seq<string>, m: map<string, string>): seq<string> {
    seq(|t|, i requires 0 <= i < |t| => Image(m, t[i]))
  }

  predicate WordsOnly(m: map<string, string>) {
    WordMapping(m) && forall w :: w in m ==> Word(w)
  }

  lemma MapAppend(a: seq<string>, b: seq<string>, m: map<string, string>)
    ensures MapAll(a + b, m) == MapAll(a, m) + MapAll(b, m)
  {
  }

  lemma MapFlush(cur: string, m: map<string, string>)
    requires WordsOnly(m)
    ensures MapAll(Flush(cur), m) == Flush(Image(m, cur))
  {
  }

  lemma SignStays(c: char, m: map<string, string>)
    requires WordsOnly(m) && !IsIdent(c)
    ensures var sign := Flush(if c == ' ' then [] else [c]); MapAll(sign, m) == sign
  {
    assert !Word([c]) by { assert [c][0] == c; }
    MapFlush(if c == ' ' then [] else [c], m);
  }

  /** Mapping the words of a text maps its tokens. */
  lemma {:induction false} MappedTokens(s: string, cur: string, m: map<string, string>)
    requires WordsOnly(m) && Idents(cur)
    ensures Tokens(Scan(s, cur, m), []) == MapAll(Tokens(s, cur), m)
    decreases |s|
  {
    var w := Image(m, cur);
    WordToken(w, []);
    assert [] + w == w;
    MapFlush(cur, m);
    if s != [] {
      if IsIdent(s[0]) {
        MappedTokens(s[1..], cur + [s[0]], m);
      } else {
        var sign := Flush(if s[0] == ' ' then [] else [s[0]]);
        MappedTokens(s[1..], [], m);
        TokensBreak(w, [], s[0], Scan(s[1..], [], m));
        SignStays(s[0], m);
        MapAppend(Flush(cur), sign, m);
        MapAppend(Flush(cur) + sign, Tokens(s[1..], []), m);
      }
    }
  }

  // ---- The tokens of each condition ----

  function Asked(col: string, rel: seq<string>): seq<string> { [col] + rel + ["?"] }

  function Alternatives(a: string, b: string, c: string, d: string): seq<string> {
    ["("] + Asked(a, ["LIKE"]) + ["OR"] + Asked(b, ["LIKE"]) + ["OR"] + Asked(c, ["LIKE"]) + ["OR"] + Asked(d, ["LIKE"]) + [")"]
  }

  function KindTokens(k: Kind, alias: string): seq<string> {
    match k
    case EventLike => Asked(alias + "event_type", ["LIKE"])
    case EventIs => Asked(alias + "event_type", ["="])
    case ActorIs => Asked(alias + "actor_user_id", ["="])
    case Since => Asked(alias + "created_at", [">", "="])
    case Until => Asked(alias + "created_at", ["<", "="])
    case AnyText => Alternatives(alias + "target_id", alias + "payload", alias + "ip_address", alias + "user_agent")
  }

  lemma MarkTokens(rest: string)
    ensures Tokens("?" + rest, []) == ["?"] + Tokens(rest, [])
  {
    SignFirst('?', rest);
  }

  lemma LikeTokens(phrase: string, col: string, rest: string)
    requires Word(col) && phrase == col + " LIKE "
    ensures Tokens(Ask(phrase) + rest, []) == Asked(col, ["LIKE"]) + Tokens(rest, [])
  {
    assert Ask(phrase) + rest == col + " " + ("LIKE" + " " + ("?" + rest));
    WordFirst(col, "LIKE" + " " + ("?" + rest));
    WordFirst("LIKE", "?" + rest);
    MarkTokens(rest);
  }

  lemma EqualsTokens(phrase: string, col: string, rest: string)
    requires Word(col) && phrase == col + " = "
    ensures Tokens(Ask(phrase) + rest, []) == Asked(col, ["="]) + Tokens(rest, [])
  {
    assert Ask(phrase) + rest == col + " " + ("=" + (" " + ("?" + rest)));
    WordFirst(col, "=" + (" " + ("?" + rest)));
    SignFirst('=', " " + ("?" + rest));
    BlankFirst("?" + rest);
    MarkTokens(rest);
  }

  /** col blank c = blank ? and the rest, from the right. */
  lemma BoundParts(col: string, sign: string, mark: string, rest: string)
    ensures col + " " + sign + "= " + mark + rest == col + " " + (sign + ("=" + (" " + (mark + rest))))
  {
    var x, tail := col + " ", mark + rest;
    Assoc(x + sign + "= ", mark, rest);
    Assoc(x + sign, "= ", tail);
    Assoc(x, sign, "= " + tail);
    assert "= " == "=" + " ";
    Assoc("=", " ", tail);
  }

  lemma BoundSigns(c: char, rest: string)
    requires !IsIdent(c) && c != ' '
    ensures Tokens([c] + ("=" + (" " + ("?" + rest))), []) == [[c]] + (["="] + (["?"] + Tokens(rest, [])))
  {
    SignFirst(c, "=" + (" " + ("?" + rest)));
    SignFirst('=', " " + ("?" + rest));
    BlankFirst("?" + rest);
    MarkTokens(rest);
  }

  lemma BoundTokens(phrase: string, col: string, c: char, rest: string)
    requires Word(col) && !IsIdent(c) && c != ' ' && phrase == col + " " + [c] + "= "
    ensures Tokens(Ask(phrase) + rest, []) == Asked(col, [[c], "="]) + Tokens(rest, [])
  {
    BoundParts(col, [c], "?", rest);
    WordFirst(col, [c] + ("=" + (" " + ("?" + rest))));
    BoundSigns(c, rest);
    AskedParts(col, [c], "=", "?", Tokens(rest, []));
  }

  lemma AskedParts(col: string, a: string, b: string, mark: string, rest: seq<string>)
    ensures [col] + ([a] + ([b] + ([mark] + rest))) == [col] + [a, b] + [mark] + rest
  {
  }

  lemma OrTokens(rest: string)
    ensures Tokens(" OR " + rest, []) == ["OR"] + Tokens(rest, [])
  {
    assert " OR " + rest == " " + ("OR" + " " + rest);
    BlankFirst("OR" + " " + rest);
    WordFirst("OR", rest);
  }

  lemma AndTokens(rest: string)
    ensures Tokens(" AND " + rest, []) == ["AND"] + Tokens(rest, [])
  {
    assert " AND " + rest == " " + ("AND" + " " + rest);
    BlankFirst("AND" + " " + rest);
    WordFirst("AND", rest);
  }

  lemma WhereTokens(rest: string)
    ensures Tokens(" WHERE " + rest, []) == ["WHERE"] + Tokens(rest, [])
  {
    assert " WHERE " + rest == " " + ("WHERE" + " " + rest);
    BlankFirst("WHERE" + " " + rest);
    WordFirst("WHERE", rest);
  }

  /** One alternative, `or` and the alternatives after it. */
  lemma LikeThenOr(phrase: string, col: string, tail: string, t: seq<string>)
    requires Word(col) && phrase == col + " LIKE " && Tokens(tail, []) == t
    ensures Tokens(Ask(phrase) + (" OR " + tail), []) == Asked(col, ["LIKE"]) + (["OR"] + t)
  {
    LikeTokens(phrase, col, " OR " + tail);
    OrTokens(tail);
  }

  lemma Parts<T>(
    open: seq<T>, a: seq<T>, or: seq<T>, b: seq<T>, c: seq<T>, d: seq<T>, close: seq<T>, rest: seq<T>)
    ensures open + a + or + b + or + c + or + d + close + rest == open + (a + (or + (b + (or + (c + (or + (d + (close + rest))))))))
  {
    var e := open + a + or + b + or + c + or;
    Assoc(e + d, close, rest);
    Assoc(e, d, close + rest);
    var t := d + (close + rest);
    Assoc(open + a + or + b + or + c, or, t);
    Assoc(open + a + or + b + or, c, or + t);
    Assoc(open + a + or + b, or, c + (or + t));
    Assoc(open + a + or, b, or + (c + (or + t)));
    Assoc(open + a, or, b + (or + (c + (or + t))));
    Assoc(open, a, or + (b + (or + (c + (or + t)))));
  }

  lemma SearchTokens(pa: string, a: string, pb: string, b: string, pc: string, c: string, pd: string, d: string, rest: string)
    requires Word(a) && Word(b) && Word(c) && Word(d)
    requires pa == a + " LIKE " && pb == b + " LIKE " && pc == c + " LIKE " && pd == d + " LIKE "
    ensures Tokens(Search(pa, pb, pc, pd) + rest, []) == Alternatives(a, b, c, d) + Tokens(rest, [])
  {
    var or, like := " OR ", ["LIKE"];
    Parts("(", Ask(pa), or, Ask(pb), Ask(pc), Ask(pd), ")", rest);
    var s4 := Ask(pd) + (")" + rest);
    var s3 := Ask(pc) + (or + s4);
    var s2 := Ask(pb) + (or + s3);
    SignFirst(')', rest);
    LikeTokens(pd, d, ")" + rest);
    var t4 := Asked(d, like) + ([")"] + Tokens(rest, []));
    LikeThenOr(pc, c, s4, t4);
    var t3 := Asked(c, like) + (["OR"] + t4);
    LikeThenOr(pb, b, s3, t3);
    var t2 := Asked(b, like) + (["OR"] + t3);
    LikeThenOr(pa, a, s2, t2);
    SignFirst('(', Ask(pa) + (or + s2));
    Parts(["("], Asked(a, like), ["OR"], Asked(b, like), Asked(c, like), Asked(d, like), [")"], Tokens(rest, []));
  }

  lemma NoAlias(col: string)
    ensures "" + col == col
  {
  }

  lemma LikeSql(rest: string)
    ensures Tokens(Sql(EventLike) + rest, []) == KindTokens(EventLike, "") + Tokens(rest, [])
  {
    NoAlias("event_type");
    LikeTokens("event_type LIKE ", "event_type", rest);
  }

  lemma TypeSql(rest: string)
    ensures Tokens(Sql(EventIs) + rest, []) == KindTokens(EventIs, "") + Tokens(rest, [])
  {
    NoAlias("event_type");
    EqualsTokens("event_type = ", "event_type", rest);
  }

  lemma ActorSql(rest: string)
    ensures Tokens(Sql(ActorIs) + rest, []) == KindTokens(ActorIs, "") + Tokens(rest, [])
  {
    NoAlias("actor_user_id");
    EqualsTokens("actor_user_id = ", "actor_user_id", rest);
  }

  lemma SinceSql(rest: string)
    ensures Tokens(Sql(Since) + rest, []) == KindTokens(Since, "") + Tokens(rest, [])
  {
    NoAlias("created_at");
    BoundTokens("created_at >= ", "created_at", '>', rest);
  }

  lemma UntilSql(rest: string)
    ensures Tokens(Sql(Until) + rest, []) == KindTokens(Until, "") + Tokens(rest, [])
  {
    NoAlias("created_at");
    BoundTokens("created_at <= ", "created_at", '<', rest);
  }

  lemma SearchSql(rest: string)
    ensures Tokens(Sql(AnyText) + rest, []) == KindTokens(AnyText, "") + Tokens(rest, [])
  {
    SearchColumns();
    TargetPhrases();
    AgentPhrases();
    SearchTokens("target_id LIKE ", "target_id", "payload LIKE ", "payload", "ip_address LIKE ", "ip_address",
                 "user_agent LIKE ", "user_agent", rest);
  }

  lemma TargetPhrases()
    ensures Word("target_id") && "target_id LIKE " == "target_id" + " LIKE " && Word("payload") && "payload LIKE " == "payload" + " LIKE "
  {
  }

  lemma AgentPhrases()
    ensures Word("ip_address") && "ip_address LIKE " == "ip_address" + " LIKE "
    ensures Word("user_agent") && "user_agent LIKE " == "user_agent" + " LIKE "
  {
  }

  /** A condition's text, whatever comes after it. */
  lemma SqlTokens(k: Kind, rest: string)
    ensures Tokens(Sql(k) + rest, []) == KindTokens(k, "") + Tokens(rest, [])
  {
    match k {
      case EventLike => LikeSql(rest);
      case EventIs => TypeSql(rest);
      case ActorIs => ActorSql(rest);
      case Since => SinceSql(rest);
      case Until => UntilSql(rest);
      case AnyText => SearchSql(rest);
    }
  }

  lemma SearchColumns()
    ensures KindTokens(AnyText, "") == Alternatives("target_id", "payload", "ip_address", "user_agent")
  {
    NoAlias("target_id");
    NoAlias("payload");
    NoAlias("ip_address");
    NoAlias("user_agent");
  }

  /** The tokens of the joined conditions. */
  function AllTokens(cs: seq<Clause>, alias: string): seq<string> {
    if cs == [] then []
    else KindTokens(cs[0].kind, alias) + if |cs| == 1 then [] else ["AND"] + AllTokens(cs[1..], alias)
  }

  lemma {:induction false} JoinTokens(cs: seq<Clause>)
    ensures Tokens(Join(Texts(cs)), []) == AllTokens(cs, "")
  {
    if cs != [] {
      var c, rest := cs[0], cs[1..];
      assert Texts(cs)[1..] == Texts(rest);
      if rest == [] {
        SqlTokens(c.kind, "");
        assert Sql(c.kind) + "" == Sql(c.kind);
      } else {
        JoinTokens(rest);
        Assoc(Sql(c.kind), " AND ", Join(Texts(rest)));
        SqlTokens(c.kind, " AND " + Join(Texts(rest)));
        AndTokens(Join(Texts(rest)));
      }
    }
  }

  // ---- The tokens of the qualified conditions ----

  lemma AskedQualifies(col: string, rel: seq<string>, m: map<string, string>)
    requires m == QualMap(AuditColumns) && "?" !in m && col in AuditColumns
    requires forall r :: r in rel ==> r !in m
    ensures MapAll(Asked("" + col, rel), m) == Asked("a." + col, rel)
  {
    NoAlias(col);
  }

  lemma SignsStay(m: map<string, string>)
    requires m == QualMap(AuditColumns)
    ensures "?" !in m && "(" !in m && ")" !in m && "=" !in m && "<" !in m && ">" !in m
    ensures "LIKE" !in m && "OR" !in m && "AND" !in m
  {
    SignsAreNoColumns();
  }

  lemma SignsAreNoColumns()
    ensures "?" !in AuditColumns && "(" !in AuditColumns && ")" !in AuditColumns && "=" !in AuditColumns
    ensures "<" !in AuditColumns && ">" !in AuditColumns && "LIKE" !in AuditColumns && "OR" !in AuditColumns && "AND" !in AuditColumns
  {
  }

  lemma KindQualifies(k: Kind, m: map<string, string>)
    requires m == QualMap(AuditColumns)
    ensures MapAll(KindTokens(k, ""), m) == KindTokens(k, "a.")
  {
    SignsStay(m);
    match k {
      case EventLike => AskedQualifies("event_type", ["LIKE"], m);
      case EventIs => AskedQualifies("event_type", ["="], m);
      case ActorIs => AskedQualifies("actor_user_id", ["="], m);
      case Since => AskedQualifies("created_at", [">", "="], m);
      case Until => AskedQualifies("created_at", ["<", "="], m);
      case AnyText => SearchQualifies("target_id", "payload", "ip_address", "user_agent", m);
    }
  }

  lemma SignMaps(sign: string, m: map<string, string>)
    requires sign !in m
    ensures MapAll([sign], m) == [sign]
  {
  }

  /** One alternative more. */
  lemma OrQualifies(acc: seq<string>, acc': seq<string>, col: string, m: map<string, string>)
    requires m == QualMap(AuditColumns) && "?" !in m && "LIKE" !in m && "OR" !in m && col in AuditColumns
    requires MapAll(acc, m) == acc'
    ensures MapAll(acc + ["OR"] + Asked("" + col, ["LIKE"]), m) == acc' + ["OR"] + Asked("a." + col, ["LIKE"])
  {
    SignMaps("OR", m);
    MapAppend(acc, ["OR"], m);
    AskedQualifies(col, ["LIKE"], m);
    MapAppend(acc + ["OR"], Asked("" + col, ["LIKE"]), m);
  }

  lemma SearchQualifies(a: string, b: string, c: string, d: string, m: map<string, string>)
    requires m == QualMap(AuditColumns) && a in AuditColumns && b in AuditColumns && c in AuditColumns && d in AuditColumns
    requires "?" !in m && "(" !in m && ")" !in m && "LIKE" !in m && "OR" !in m
    ensures MapAll(Alternatives("" + a, "" + b, "" + c, "" + d), m) == Alternatives("a." + a, "a." + b, "a." + c, "a." + d)
  {
    var like := ["LIKE"];
    SignMaps("(", m);
    AskedQualifies(a, like, m);
    MapAppend(["("], Asked("" + a, like), m);
    var acc1, to1 := ["("] + Asked("" + a, like), ["("] + Asked("a." + a, like);
    OrQualifies(acc1, to1, b, m);
    var acc2, to2 := acc1 + ["OR"] + Asked("" + b, like), to1 + ["OR"] + Asked("a." + b, like);
    OrQualifies(acc2, to2, c, m);
    var acc3, to3 := acc2 + ["OR"] + Asked("" + c, like), to2 + ["OR"] + Asked("a." + c, like);
    OrQualifies(acc3, to3, d, m);
    SignMaps(")", m);
    MapAppend(acc3 + ["OR"] + Asked("" + d, like), [")"], m);
  }

  lemma MapPair(a: seq<string>, a': seq<string>, b: seq<string>, b': seq<string>, m: map<string, string>)
    requires MapAll(a, m) == a' && MapAll(b, m) == b'
    ensures MapAll(a + b, m) == a' + b'
  {
    MapAppend(a, b, m);
  }

  lemma {:induction false} AllQualify(cs: seq<Clause>, m: map<string, string>)
    requires m == QualMap(AuditColumns) && "AND" !in m
    ensures MapAll(AllTokens(cs, ""), m) == AllTokens(cs, "a.")
  {
    if cs != [] {
      var k, rest := cs[0].kind, cs[1..];
      KindQualifies(k, m);
      if rest == [] {
        assert KindTokens(k, "") + [] == KindTokens(k, "") && KindTokens(k, "a.") + [] == KindTokens(k, "a.");
      } else {
        AllQualify(rest, m);
        SignMaps("AND", m);
        MapPair(["AND"], ["AND"], AllTokens(rest, ""), AllTokens(rest, "a."), m);
        MapPair(KindTokens(k, ""), KindTokens(k, "a."), ["AND"] + AllTokens(rest, ""), ["AND"] + AllTokens(rest, "a."), m);
      }
    }
  }

  // ---- Reading the tokens ----

  function Signs(rel: Relation): seq<string> {
    match rel
    case Equals => ["="]
    case Matches => ["LIKE"]
    case AtLeast => [">", "="]
    case AtMost => ["<", "="]
  }

  lemma FieldIsFound(row: Row, alias: string, col: string)
    ensures FieldOf(row, alias, alias + col) == Field(row, col)
  {
    assert (alias + col)[|alias|..] == col;
  }

  lemma RelationReads(rel: Relation, more: seq<string>)
    ensures ReadRelation(Signs(rel) + more) == Some(rel) && |Signs(rel)| == Width(rel)
  {
  }

  lemma ConditionReads(col: string, rel: Relation, arg: Arg, more: seq<string>, args: seq<Arg>, row: Row, alias: string, like: Like)
    ensures ReadCondition(Asked(alias + col, Signs(rel)) + more, [arg] + args, row, alias, like)
         == Reading(Compare(like, Field(row, col), rel, arg), more, args)
  {
    var t := Asked(alias + col, Signs(rel)) + more;
    FieldIsFound(row, alias, col);
    RelationReads(rel, ["?"] + more);
    assert t[0] == alias + col && t[1..] == Signs(rel) + (["?"] + more);
    assert t[1 + Width(rel)] == "?" && t[2 + Width(rel)..] == more;
    assert ([arg] + args)[1..] == args;
  }

  lemma ColumnOpensNothing(col: string, alias: string)
    requires Word(col)
    ensures alias + col != "("
  {
    assert (alias + col)[|alias|] == col[0];
  }

  lemma AtomReads(col: string, rel: Relation, arg: Arg, more: seq<string>, args: seq<Arg>, row: Row, alias: string, like: Like)
    requires Word(col)
    ensures ReadAtom(Asked(alias + col, Signs(rel)) + more, [arg] + args, row, alias, like)
         == Reading(Compare(like, Field(row, col), rel, arg), more, args)
  {
    ConditionReads(col, rel, arg, more, args, row, alias, like);
    ColumnOpensNothing(col, alias);
    assert (Asked(alias + col, Signs(rel)) + more)[0] == alias + col;
  }

  /** The last alternative, and one before others. */
  lemma LastReads(col: string, arg: Arg, more: seq<string>, args: seq<Arg>, row: Row, alias: string, like: Like)
    ensures ReadAny(Asked(alias + col, ["LIKE"]) + ([")"] + more), [arg] + args, row, alias, like)
         == Reading(Compare(like, Field(row, col), Matches, arg), [")"] + more, args)
  {
    ConditionReads(col, Matches, arg, [")"] + more, args, row, alias, like);
  }

  lemma OrReads(col: string, arg: Arg, t: seq<string>, args: seq<Arg>, row: Row, alias: string, like: Like)
    requires ReadAny(t, args, row, alias, like).Reading?
    ensures var rest := ReadAny(t, args, row, alias, like);
      ReadAny(Asked(alias + col, ["LIKE"]) + (["OR"] + t), [arg] + args, row, alias, like)
        == rest.(holds := Compare(like, Field(row, col), Matches, arg) || rest.holds)
  {
    ConditionReads(col, Matches, arg, ["OR"] + t, args, row, alias, like);
    assert (["OR"] + t)[1..] == t;
  }

  /** The alternatives, nested from the right. */
  lemma AlternativesRead(
    a: string, b: string, c: string, d: string, n: Arg, more: seq<string>, args: seq<Arg>, row: Row, alias: string, like: Like)
    returns (t: seq<string>)
    ensures ["("] + t == Alternatives(alias + a, alias + b, alias + c, alias + d) + more
    ensures ReadAny(t, [n] + ([n] + ([n] + ([n] + args))), row, alias, like)
         == Reading(|| Compare(like, Field(row, a), Matches, n) || Compare(like, Field(row, b), Matches, n)
                    || Compare(like, Field(row, c), Matches, n) || Compare(like, Field(row, d), Matches, n), [")"] + more, args)
  {
    var m := ["LIKE"];
    Parts(["("], Asked(alias + a, m), ["OR"], Asked(alias + b, m), Asked(alias + c, m), Asked(alias + d, m), [")"], more);
    var t4 := Asked(alias + d, m) + ([")"] + more);
    var t3 := Asked(alias + c, m) + (["OR"] + t4);
    var t2 := Asked(alias + b, m) + (["OR"] + t3);
    t := Asked(alias + a, m) + (["OR"] + t2);
    LastReads(d, n, more, args, row, alias, like);
    OrReads(c, n, t4, [n] + args, row, alias, like);
    OrReads(b, n, t3, [n] + ([n] + args), row, alias, like);
    OrReads(a, n, t2, [n] + ([n] + ([n] + args)), row, alias, like);
  }

  lemma SearchReads(
    a: string, b: string, c: string, d: string, n: Arg, more: seq<string>, args: seq<Arg>, row: Row, alias: string, like: Like)
    ensures ReadAtom(Alternatives(alias + a, alias + b, alias + c, alias + d) + more, [n] + ([n] + ([n] + ([n] + args))), row, alias, like)
         == Reading(|| Compare(like, Field(row, a), Matches, n) || Compare(like, Field(row, b), Matches, n)
                    || Compare(like, Field(row, c), Matches, n) || Compare(like, Field(row, d), Matches, n), more, args)
  {
    var t := AlternativesRead(a, b, c, d, n, more, args, row, alias, like);
    InParentheses(t, more, [n] + ([n] + ([n] + ([n] + args))), args, row, alias, like);
  }

  lemma InParentheses(t: seq<string>, more: seq<string>, args: seq<Arg>, args': seq<Arg>, row: Row, alias: string, like: Like)
    requires var r := ReadAny(t, args, row, alias, like); r.Reading? && r.tokens == [")"] + more && r.args == args'
    ensures ReadAtom(["("] + t, args, row, alias, like) == ReadAny(t, args, row, alias, like).(tokens := more)
  {
    assert (["("] + t)[1..] == t && ([")"] + more)[1..] == more;
  }

  /** As many values as placeholders, and one needle for all four columns. */
  predicate Fitting(c: Clause) {
    if c.kind.AnyText? then |c.args| == 4 && c.args == [c.args[0], c.args[0], c.args[0], c.args[0]] else |c.args| == 1
  }

  /** A condition with its values, said on the row. */
  predicate Holds(c: Clause, row: Row, like: Like)
    requires Fitting(c)
  {
    match c.kind
    case EventLike => c.args[0].Text? && like(row.eventType, c.args[0].s)
    case EventIs => c.args[0] == Text(row.eventType)
    case ActorIs => row.actor.Some? && c.args[0] == Text(row.actor.value)
    case Since => c.args[0].Time? && c.args[0].t <= row.createdAt
    case Until => c.args[0].Time? && row.createdAt <= c.args[0].t
    case AnyText =>
      || (c.args[0].Text? && like(row.target, c.args[0].s)) || (c.args[1].Text? && like(row.payload, c.args[1].s))
      || (c.args[2].Text? && like(row.ip, c.args[2].s)) || (c.args[3].Text? && like(row.agent, c.args[3].s))
  }

  lemma TypeReads(c: Clause, more: seq<string>, args: seq<Arg>, row: Row, alias: string, like: Like)
    requires |c.args| == 1 && (c.kind.EventLike? || c.kind.EventIs?)
    ensures ReadAtom(KindTokens(c.kind, alias) + more, c.args + args, row, alias, like) == Reading(Holds(c, row, like), more, args)
  {
    assert c.args == [c.args[0]];
    AtomReads("event_type", if c.kind.EventLike? then Matches else Equals, c.args[0], more, args, row, alias, like);
  }

  lemma ActorReads(c: Clause, more: seq<string>, args: seq<Arg>, row: Row, alias: string, like: Like)
    requires |c.args| == 1 && c.kind.ActorIs?
    ensures ReadAtom(KindTokens(c.kind, alias) + more, c.args + args, row, alias, like) == Reading(Holds(c, row, like), more, args)
  {
    assert c.args == [c.args[0]];
    AtomReads("actor_user_id", Equals, c.args[0], more, args, row, alias, like);
  }

  lemma BoundReads(c: Clause, more: seq<string>, args: seq<Arg>, row: Row, alias: string, like: Like)
    requires |c.args| == 1 && (c.kind.Since? || c.kind.Until?)
    ensures ReadAtom(KindTokens(c.kind, alias) + more, c.args + args, row, alias, like) == Reading(Holds(c, row, like), more, args)
  {
    assert c.args == [c.args[0]];
    AtomReads("created_at", if c.kind.Since? then AtLeast else AtMost, c.args[0], more, args, row, alias, like);
  }

  lemma FourValues(n: Arg, args: seq<Arg>)
    ensures [n, n, n, n] + args == [n] + ([n] + ([n] + ([n] + args)))
  {
  }

  lemma TextReads(c: Clause, more: seq<string>, args: seq<Arg>, row: Row, alias: string, like: Like)
    requires c.kind.AnyText? && |c.args| == 4 && c.args == [c.args[0], c.args[0], c.args[0], c.args[0]]
    ensures ReadAtom(KindTokens(c.kind, alias) + more, c.args + args, row, alias, like) == Reading(Holds(c, row, like), more, args)
  {
    FourValues(c.args[0], args);
    SearchReads("target_id", "payload", "ip_address", "user_agent", c.args[0], more, args, row, alias, like);
  }

  lemma ClauseReads(c: Clause, more: seq<string>, args: seq<Arg>, row: Row, alias: string, like: Like)
    requires Fitting(c)
    ensures ReadAtom(KindTokens(c.kind, alias) + more, c.args + args, row, alias, like) == Reading(Holds(c, row, like), more, args)
  {
    match c.kind {
      case EventLike => TypeReads(c, more, args, row, alias, like);
      case EventIs => TypeReads(c, more, args, row, alias, like);
      case ActorIs => ActorReads(c, more, args, row, alias, like);
      case Since => BoundReads(c, more, args, row, alias, like);
      case Until => BoundReads(c, more, args, row, alias, like);
      case AnyText => TextReads(c, more, args, row, alias, like);
    }
  }

  predicate AllFitting(cs: seq<Clause>) {
    forall i :: 0 <= i < |cs| ==> Fitting(cs[i])
  }

  predicate AllHold(cs: seq<Clause>, row: Row, like: Like)
    requires AllFitting(cs)
  {
    forall i :: 0 <= i < |cs| ==> Holds(cs[i], row, like)
  }

  lemma HoldsFirst(cs: seq<Clause>, row: Row, like: Like)
    requires AllFitting(cs) && cs != []
    ensures Fitting(cs[0]) && AllFitting(cs[1..])
    ensures AllHold(cs, row, like) <==> Holds(cs[0], row, like) && AllHold(cs[1..], row, like)
  {
    var rest := cs[1..];
    assert forall i :: 0 <= i < |rest| ==> rest[i] == cs[i + 1];
    assert forall i :: 0 < i < |cs| ==> cs[i] == rest[i - 1];
  }

  /** The conditions, up to whatever comes after the last of them. */
  lemma {:induction false} ClausesReadThen(cs: seq<Clause>, more: seq<string>, args: seq<Arg>, row: Row, alias: string, like: Like)
    requires AllFitting(cs) && cs != [] && (more == [] || more[0] != "AND")
    ensures ReadAll(AllTokens(cs, alias) + more, Args(cs) + args, row, alias, like) == Reading(AllHold(cs, row, like), more, args)
  {
    var c, rest := cs[0], cs[1..];
    var k := KindTokens(c.kind, alias);
    HoldsFirst(cs, row, like);
    Assoc(c.args, Args(rest), args);
    if rest == [] {
      ClauseReads(c, more, args, row, alias, like);
      assert k + [] == k && c.args + [] == c.args;
    } else {
      var tail := ["AND"] + (AllTokens(rest, alias) + more);
      ClausesReadThen(rest, more, args, row, alias, like);
      ClauseReads(c, tail, Args(rest) + args, row, alias, like);
      Assoc(["AND"], AllTokens(rest, alias), more);
      Assoc(k, ["AND"] + AllTokens(rest, alias), more);
      assert tail[1..] == AllTokens(rest, alias) + more;
    }
  }

  lemma ClausesRead(cs: seq<Clause>, row: Row, alias: string, like: Like)
    requires AllFitting(cs) && cs != []
    ensures ReadAll(AllTokens(cs, alias), Args(cs), row, alias, like) == Reading(AllHold(cs, row, like), [], [])
  {
    ClausesReadThen(cs, [], [], row, alias, like);
    assert AllTokens(cs, alias) + [] == AllTokens(cs, alias) && Args(cs) + [] == Args(cs);
  }

  // ---- What the filter selects ----

  lemma HoldsAppend(a: seq<Clause>, b: seq<Clause>, row: Row, like: Like)
    requires AllFitting(a) && AllFitting(b)
    ensures AllFitting(a + b) && (AllHold(a + b, row, like) <==> AllHold(a, row, like) && AllHold(b, row, like))
  {
    assert AllFitting(a + b);
    assert forall i :: 0 <= i < |a| ==> (a + b)[i] == a[i];
    assert forall i :: 0 <= i < |b| ==> (a + b)[|a| + i] == b[i];
  }

  lemma OneHolds(cs: seq<Clause>, row: Row, like: Like)
    requires |cs| == 1 && Fitting(cs[0])
    ensures AllFitting(cs) && (AllHold(cs, row, like) <==> Holds(cs[0], row, like))
  {
  }

  lemma TypeMeans(q: AuditQuery, row: Row, like: Like)
    ensures AllFitting(OfType(q))
    ensures AllHold(OfType(q), row, like) <==> (q.eventTypePrefix != "" ==> MeetsType(q.eventTypePrefix, row, like))
  {
    if q.eventTypePrefix != "" { OneHolds(OfType(q), row, like); }
  }

  lemma ActorMeans(q: AuditQuery, row: Row, like: Like)
    ensures AllFitting(OfActor(q)) && (AllHold(OfActor(q), row, like) <==> (q.actorUserId != "" ==> row.actor == Some(q.actorUserId)))
  {
    if q.actorUserId != "" { OneHolds(OfActor(q), row, like); }
  }

  lemma BoundsMean(q: AuditQuery, row: Row, like: Like)
    ensures AllFitting(OfStart(q)) && AllFitting(OfEnd(q))
    ensures AllHold(OfStart(q), row, like) && AllHold(OfEnd(q), row, like) <==> MeetsBounds(q, row)
  {
    if q.from.Some? { OneHolds(OfStart(q), row, like); }
    if q.to.Some? { OneHolds(OfEnd(q), row, like); }
  }

  lemma TextMeans(q: AuditQuery, row: Row, like: Like)
    ensures AllFitting(OfText(q)) && (AllHold(OfText(q), row, like) <==> (q.searchText != "" ==> MeetsText(q, row, like)))
  {
    if q.searchText != "" { OneHolds(OfText(q), row, like); }
  }

  lemma ClausesMean(q: AuditQuery, row: Row, like: Like)
    ensures AllFitting(Clauses(q)) && (AllHold(Clauses(q), row, like) <==> Meets(q, row, like))
  {
    TypeMeans(q, row, like);
    ActorMeans(q, row, like);
    BoundsMean(q, row, like);
    TextMeans(q, row, like);
    HoldsAppend(OfType(q), OfActor(q), row, like);
    HoldsAppend(OfType(q) + OfActor(q), OfStart(q), row, like);
    HoldsAppend(OfType(q) + OfActor(q) + OfStart(q), OfEnd(q), row, like);
    HoldsAppend(OfType(q) + OfActor(q) + OfStart(q) + OfEnd(q), OfText(q), row, like);
  }

  lemma WhereReads(rest: string, cs: seq<Clause>, row: Row, alias: string, like: Like)
    requires AllFitting(cs) && cs != [] && Tokens(rest, []) == AllTokens(cs, alias)
    ensures Read(" WHERE " + rest, Args(cs), row, alias, like) == Reading(AllHold(cs, row, like), [], [])
  {
    WhereTokens(rest);
    ClausesRead(cs, row, alias, like);
    assert (["WHERE"] + Tokens(rest, []))[1..] == AllTokens(cs, alias);
  }

  lemma NoTextIff(cs: seq<Clause>)
    ensures Join(Texts(cs)) == "" <==> cs == []
  {
    JoinTokens(cs);
  }

  /** For every filter and every row, and whatever LIKE means to the engine: the
      count's filter is readable, takes every argument, and keeps the row if and
      only if the row meets the filter. */
  lemma CountSelects(q: AuditQuery, row: Row, like: Like)
    ensures Read(Filtered(WhereOf(q)), Args(Clauses(q)), row, "", like) == Reading(Meets(q, row, like), [], [])
  {
    var cs := Clauses(q);
    ClausesMean(q, row, like);
    NoTextIff(cs);
    if cs != [] {
      JoinTokens(cs);
      WhereReads(WhereOf(q), cs, row, "", like);
    }
  }

  lemma QualifiedTokens(cs: seq<Clause>)
    ensures Tokens(MapWords(Join(Texts(cs)), QualMap(AuditColumns)), []) == AllTokens(cs, "a.")
  {
    var m := QualMap(AuditColumns);
    JoinTokens(cs);
    AuditColumnsAreColumns();
    QualMapIsWordMapping(AuditColumns);
    SignsStay(m);
    MappedTokens(Join(Texts(cs)), [], m);
    AllQualify(cs, m);
  }

  /** And so does the listing's, on its qualified columns. */
  lemma ListSelects(q: AuditQuery, row: Row, like: Like)
    ensures Read(Joined(WhereOf(q)), Args(Clauses(q)), row, "a.", like) == Reading(Meets(q, row, like), [], [])
  {
    var cs, m := Clauses(q), QualMap(AuditColumns);
    ClausesMean(q, row, like);
    NoTextIff(cs);
    if cs != [] {
      QualifiedTokens(cs);
      WhereReads(MapWords(WhereOf(q), m), cs, row, "a.", like);
    }
  }
}