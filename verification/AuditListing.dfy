/** The listing of the audit log as a whole: what the text after its joins keeps,
    how it orders the rows and which of them make the page. */
module AuditListing {
  import opened Common
  import opened WordMap
  import opened AuditWhere
  import opened AuditReader
  import opened AuditStatements

  datatype SortKey = SortKey(column: string, descending: bool)

  /** The row is kept, the rows are sorted, and a page of them is cut out. */
  datatype Plan = Plan(keeps: bool, keys: seq<SortKey>, size: Arg, start: Arg)

  datatype Keys = NoKeys | Keys(keys: seq<SortKey>, rest: seq<string>)

  /** column direction, and more of them after a comma. */
  function ReadKeys(t: seq<string>): Keys
    decreases |t|
  {
    if |t| < 2 || (t[1] != "DESC" && t[1] != "ASC") then NoKeys
    else
      var key := SortKey(t[0], t[1] == "DESC");
      if |t| == 2 || t[2] != "," then Keys([key], t[2..])
      else
        match ReadKeys(t[3..])
        case NoKeys => NoKeys
        case Keys(keys, rest) => Keys([key] + keys, rest)
  }

  /** ORDER BY keys LIMIT ? OFFSET ?, for the last two arguments. */
  function ReadPaging(keeps: bool, t: seq<string>, args: seq<Arg>): Option<Plan> {
    if |t| < 2 || t[0] != "ORDER" || t[1] != "BY" || |args| != 2 then None
    else
      match ReadKeys(t[2..])
      case NoKeys => None
      case Keys(keys, rest) =>
        if rest == ["LIMIT", "?", "OFFSET", "?"] then Some(Plan(keeps, keys, args[0], args[1])) else None
  }

  function ReadListing(text: string, args: seq<Arg>, row: Row, alias: string, like: Like): Option<Plan> {
    match Read(text, args, row, alias, like)
    case Unreadable => ReadPaging(true, Tokens(text, []), args)
    case Reading(holds, rest, left) => ReadPaging(holds, rest, left)
  }

  // ---- The tokens of the ordering ----

  /** A word and a sign in front. */
  lemma WordSign(w: string, c: char, rest: string)
    requires Word(w) && !IsIdent(c) && c != ' '
    ensures Tokens(w + [c] + rest, []) == [w, [c]] + Tokens(rest, [])
  {
    TokensBreak(w, [], c, rest);
    WordToken(w, []);
    assert [] + w == w;
  }

  /** A blank, a word and a blank in front. */
  lemma Between(w: string, rest: string)
    requires Word(w)
    ensures Tokens(" " + (w + " " + rest), []) == [w] + Tokens(rest, [])
  {
    BlankFirst(w + " " + rest);
    WordFirst(w, rest);
  }

  lemma OrderByTokens(rest: string)
    ensures Tokens(" ORDER BY " + rest, []) == ["ORDER", "BY"] + Tokens(rest, [])
  {
    assert " ORDER BY " == " " + ("ORDER" + " ") + ("BY" + " ");
    assert " ORDER BY " + rest == " " + ("ORDER" + " " + ("BY" + " " + rest));
    Between("ORDER", "BY" + " " + rest);
    WordFirst("BY", rest);
  }

  lemma FirstKeyTokens(col: string, rest: string)
    requires Word(col)
    ensures Tokens(col + (" DESC, " + rest), []) == [col, "DESC", ","] + Tokens(rest, [])
  {
    assert " DESC, " == " " + ("DESC" + ([','] + " "));
    assert col + (" DESC, " + rest) == col + " " + ("DESC" + [','] + (" " + rest));
    WordFirst(col, "DESC" + [','] + (" " + rest));
    WordSign("DESC", ',', " " + rest);
    BlankFirst(rest);
  }

  lemma LastKeyTokens(col: string, rest: string)
    requires Word(col)
    ensures Tokens(col + (" DESC" + (" " + rest)), []) == [col, "DESC"] + Tokens(rest, [])
  {
    assert " DESC" == " " + "DESC";
    assert col + (" DESC" + (" " + rest)) == col + " " + ("DESC" + " " + rest);
    WordFirst(col, "DESC" + " " + rest);
    WordFirst("DESC", rest);
  }

  lemma AskLast(word: string)
    requires Word(word)
    ensures Tokens(word + " " + "?", []) == [word, "?"]
  {
    WordFirst(word, "?");
    MarkTokens("");
    assert "?" + "" == "?";
  }

  lemma AskThen(word: string, rest: string)
    requires Word(word)
    ensures Tokens(word + " " + ("?" + (" " + rest)), []) == [word, "?"] + Tokens(rest, [])
  {
    WordFirst(word, "?" + (" " + rest));
    MarkTokens(" " + rest);
    BlankFirst(rest);
  }

  /** The page: its size and its start. */
  lemma LimitTokens(limit: string, offset: string)
    requires Word(limit) && Word(offset)
    ensures Tokens(limit + " " + ("?" + (" " + (offset + " " + "?"))), []) == [limit, "?", offset, "?"]
  {
    AskThen(limit, offset + " " + "?");
    AskLast(offset);
  }

  lemma OrderParts(head: string, c1: string, d1: string, c2: string, d2: string, l1: string, l2: string)
    ensures head + (c1 + d1) + (c2 + d2 + []) + (l1 + l2) == head + (c1 + (d1 + (c2 + (d2 + (l1 + l2)))))
  {
    var page := l1 + l2;
    assert c2 + d2 + [] == c2 + d2;
    Assoc(head + (c1 + d1), c2 + d2, page);
    Assoc(head, c1 + d1, c2 + d2 + page);
    Assoc(c1, d1, c2 + d2 + page);
    Assoc(c2, d2, page);
  }

  lemma PageParts(limit: string, offset: string)
    ensures " " + (limit + " " + "?") + (" " + (offset + " " + "?")) == " " + (limit + " " + ("?" + (" " + (offset + " " + "?"))))
  {
    var tail := " " + (offset + " " + "?");
    Assoc(" ", limit + " " + "?", tail);
    Assoc(limit + " ", "?", tail);
  }

  lemma OrderPieces()
    ensures Order1 == " ORDER BY " + ("a.created_at" + " DESC, ") && Order2 == "a.id" + " DESC"
    ensures Word("a.created_at") && Word("a.id")
  {
  }

  lemma LimitPieces()
    ensures Ask(Limit) == " " + ("LIMIT" + " " + "?") && Ask(Offset) == " " + ("OFFSET" + " " + "?")
  {
    assert Limit == " " + ("LIMIT" + " ") && Offset == " " + ("OFFSET" + " ");
  }

  const Page := ["LIMIT", "?", "OFFSET", "?"]

  /** The two sort keys and the page. */
  lemma KeysTokens(c1: string, c2: string)
    requires Word(c1) && Word(c2)
    ensures Tokens(" ORDER BY " + (c1 + (" DESC, " + (c2 + (" DESC" + (" " + ("LIMIT" + " " + ("?" + (" " + ("OFFSET" + " " + "?"))))))))), [])
         == ["ORDER", "BY"] + ([c1, "DESC", ","] + ([c2, "DESC"] + Page))
  {
    var page := "LIMIT" + " " + ("?" + (" " + ("OFFSET" + " " + "?")));
    LimitTokens("LIMIT", "OFFSET");
    LastKeyTokens(c2, page);
    FirstKeyTokens(c1, c2 + (" DESC" + (" " + page)));
    OrderByTokens(c1 + (" DESC, " + (c2 + (" DESC" + (" " + page)))));
  }

  lemma OrderTokens()
    ensures Tokens(Statements().order, []) == ["ORDER", "BY"] + (["a.created_at", "DESC", ","] + (["a.id", "DESC"] + Page))
  {
    OrderPieces();
    LimitPieces();
    FlatPair(Order1, Order2);
    OrderParts(" ORDER BY ", "a.created_at", " DESC, ", "a.id", " DESC", Ask(Limit), Ask(Offset));
    PageParts("LIMIT", "OFFSET");
    KeysTokens("a.created_at", "a.id");
  }

  lemma FlatPair(a: string, b: string)
    ensures Flat([a, b]) == a + (b + [])
  {
    assert [a, b][1..] == [b] && [b][1..] == [];
    assert Flat([b]) == b + Flat([]) && Flat([]) == [];
  }

  lemma PagingReads(keeps: bool, c1: string, c2: string, size: Arg, start: Arg)
    ensures ReadPaging(keeps, ["ORDER", "BY"] + ([c1, "DESC", ","] + ([c2, "DESC"] + Page)), [size, start])
         == Some(Plan(keeps, [SortKey(c1, true), SortKey(c2, true)], size, start))
  {
    var t2 := [c2, "DESC"] + Page;
    var t1 := [c1, "DESC", ","] + t2;
    assert t2[2..] == Page && t2[0] == c2 && t2[1] == "DESC" && t2[2] == "LIMIT";
    assert ReadKeys(t2) == Keys([SortKey(c2, true)], Page);
    assert t1[3..] == t2 && t1[0] == c1 && t1[1] == "DESC" && t1[2] == ",";
    assert ReadKeys(t1) == Keys([SortKey(c1, true)] + [SortKey(c2, true)], Page);
    assert [SortKey(c1, true)] + [SortKey(c2, true)] == [SortKey(c1, true), SortKey(c2, true)];
    var t := ["ORDER", "BY"] + t1;
    assert t[0] == "ORDER" && t[1] == "BY" && t[2..] == t1;
  }

  /** Two texts, the second starting with a blank. */
  lemma TokensApart(a: string, b: string)
    requires b != [] && b[0] == ' '
    ensures Tokens(a + b, []) == Tokens(a, []) + Tokens(b, [])
  {
    assert b == " " + b[1..] && a + b == a + [' '] + b[1..];
    TokensBreak(a, [], ' ', b[1..]);
    BlankFirst(b[1..]);
  }

  /** The conditions, up to the ordering. */
  lemma ConditionsRead(rest: string, cs: seq<Clause>, more: seq<string>, args: seq<Arg>, order: string, row: Row, like: Like)
    requires AllFitting(cs) && cs != [] && Tokens(rest, []) == AllTokens(cs, "a.")
    requires order != [] && order[0] == ' ' && Tokens(order, []) == more && more != [] && more[0] == "ORDER"
    ensures Read(" WHERE " + rest + order, Args(cs) + args, row, "a.", like) == Reading(AllHold(cs, row, like), more, args)
  {
    TokensApart(" WHERE " + rest, order);
    WhereTokens(rest);
    ClausesReadThen(cs, more, args, row, "a.", like);
    Assoc(["WHERE"], AllTokens(cs, "a."), more);
    assert (["WHERE"] + (AllTokens(cs, "a.") + more))[1..] == AllTokens(cs, "a.") + more;
  }

  function Paging(): seq<string> { ["ORDER", "BY"] + (["a.created_at", "DESC", ","] + (["a.id", "DESC"] + Page)) }

  lemma TailReads(q: AuditQuery, row: Row, like: Like, order: string, more: seq<string>, args: seq<Arg>)
    requires order != [] && order[0] == ' ' && Tokens(order, []) == more && more != [] && more[0] == "ORDER"
    ensures ReadListing(Joined(WhereOf(q)) + order, Args(Clauses(q)) + args, row, "a.", like) == ReadPaging(Meets(q, row, like), more, args)
  {
    var cs := Clauses(q);
    NoTextIff(cs);
    ClausesMean(q, row, like);
    if cs == [] {
      assert Joined(WhereOf(q)) + order == order && Args(cs) + args == args;
    } else {
      QualifiedTokens(cs);
      ConditionsRead(MapWords(WhereOf(q), QualMap(AuditColumns)), cs, more, args, order, row, like);
    }
  }

  /** What follows the joins of the listing, for every filter and row: it keeps
      the row if and only if the row meets the filter, sorts by time and then id,
      both descending, and cuts out a page of the clamped size from the clamped
      start; it is readable and takes every argument. */
  lemma ListingReads(q: AuditQuery, row: Row, like: Like)
    ensures AsAsked(q, PageSize(q.limit), PageStart(q.offset))
    ensures ReadListing(Joined(WhereOf(q)) + Statements().order, ListArgs(q), row, "a.", like)
         == Some(Plan(Meets(q, row, like), [SortKey("a.created_at", true), SortKey("a.id", true)],
                      Number(PageSize(q.limit)), Number(PageStart(q.offset))))
  {
    OrderTokens();
    OrderStarts();
    TailReads(q, row, like, Statements().order, Paging(), [Number(PageSize(q.limit)), Number(PageStart(q.offset))]);
    PagingReads(Meets(q, row, like), "a.created_at", "a.id", Number(PageSize(q.limit)), Number(PageStart(q.offset)));
  }

  lemma OrderStarts()
    ensures Statements().order != [] && Statements().order[0] == ' '
  {
    FlatPair(Order1, Order2);
  }
}
