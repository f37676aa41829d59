/** The two statements of Query in internal/db/audit_log_repository.go, with
    their own text: both have exactly as many parameters as arguments. */
module AuditStatements {
  import opened Common
  import opened AuditWhere
  import P = Placeholders

  const Indent := "\n\t                 "
  const Margin := "\n\t          "

  const Columns1 := "SELECT a.id, a.actor_user_id, "
  const Columns2 := "ua.username,"
  const Columns3 := "a.event_type, a.target_type, "
  const Columns4 := "a.target_id, ut.username,"
  const Columns5 := "a.payload, a.ip_address, "
  const Columns6 := "a.user_agent, a.created_at"
  const From := "FROM audit_log a"
  const Actor1 := "LEFT JOIN users ua "
  const Actor2 := "ON ua.id = a.actor_user_id"
  const Target1 := "LEFT JOIN users ut "
  const Target2 := "ON ut.id = a.target_id "
  const Target3 := "AND a.target_type = "

  const Count1 := "SELECT COUNT(*) "
  const Count2 := "FROM audit_log"
  const Order1 := " ORDER BY a.created_at DESC, "
  const Order2 := "a.id DESC"
  const Limit := " LIMIT "
  const Offset := " OFFSET "

  const Literal := "user"

  function Flat(parts: seq<string>): string { if parts == [] then [] else parts[0] + Flat(parts[1..]) }

  /** The pieces of the listing up to its literal. */
  function SelectParts(): seq<string> {
    [Columns1, Columns2, Indent, Columns3, Columns4, Indent, Columns5, Columns6, Margin, From,
     Margin, Actor1, Actor2, Margin, Target1, Target2, Target3]
  }

  function Statements(): SqlText {
    SqlText(Flat([Count1, Count2]), Flat(SelectParts()), Literal, Flat([Order1, Order2]) + (Ask(Limit) + Ask(Offset)))
  }

  ghost predicate AllQuiet(parts: seq<string>) { forall i :: 0 <= i < |parts| ==> Quiet(parts[i]) }

  lemma {:induction false} FlatIsQuiet(parts: seq<string>)
    requires AllQuiet(parts)
    ensures Quiet(Flat(parts))
  {
    if parts != [] {
      assert forall i :: 0 <= i < |parts[1..]| ==> parts[1..][i] == parts[i + 1];
      FlatIsQuiet(parts[1..]);
    }
  }

  lemma MarginsAreQuiet()
    ensures Quiet(Indent) && Quiet(Margin) && Quiet(From)
  {
  }

  lemma FirstColumnsAreQuiet()
    ensures Quiet(Columns1) && Quiet(Columns2) && Quiet(Columns3)
  {
  }

  lemma LastColumnsAreQuiet()
    ensures Quiet(Columns4) && Quiet(Columns5) && Quiet(Columns6)
  {
  }

  lemma JoinsAreQuiet()
    ensures Quiet(Actor1) && Quiet(Actor2)
  {
  }

  lemma TargetsAreQuiet()
    ensures Quiet(Target1) && Quiet(Target2) && Quiet(Target3)
  {
  }

  lemma HeadsAreQuiet()
    ensures Quiet(Count1) && Quiet(Count2) && Quiet(Order1) && Quiet(Order2)
  {
  }

  lemma LimitsAreQuiet()
    ensures Quiet(Limit) && Quiet(Offset) && '\'' !in Literal
  {
  }

  lemma SelectIsQuiet()
    ensures Quiet(Flat(SelectParts()))
  {
    MarginsAreQuiet();
    FirstColumnsAreQuiet();
    LastColumnsAreQuiet();
    JoinsAreQuiet();
    TargetsAreQuiet();
    assert AllQuiet(SelectParts());
    FlatIsQuiet(SelectParts());
  }

  lemma CountIsQuiet()
    ensures Quiet(Flat([Count1, Count2])) && Quiet(Flat([Order1, Order2]))
  {
    HeadsAreQuiet();
    assert AllQuiet([Count1, Count2]) && AllQuiet([Order1, Order2]);
    FlatIsQuiet([Count1, Count2]);
    FlatIsQuiet([Order1, Order2]);
  }

  lemma OrderAsksTwo(order: string, limit: string, offset: string)
    requires Quiet(order) && Quiet(limit) && Quiet(offset)
    ensures Asks(order + (Ask(limit) + Ask(offset)), 2) && order + (Ask(limit) + Ask(offset)) != []
  {
    QuietAsks(order);
    QuietAsks(limit);
    QuietAsks(offset);
    AsksAppend(Ask(limit), 1, Ask(offset), 1);
    AsksAppend(order, 0, Ask(limit) + Ask(offset), 2);
  }

  /** The two statements are of the shape that Assemble asks for. */
  lemma StatementsAreFixed()
    ensures Fixed(Statements())
  {
    CountIsQuiet();
    SelectIsQuiet();
    LimitsAreQuiet();
    OrderAsksTwo(Flat([Order1, Order2]), Limit, Offset);
  }

  /** For every filter, both statements of Query have as many parameters as they
      get arguments, and few enough for the rewriter. */
  lemma QueryLinesUp(q: AuditQuery)
    ensures P.Marks(P.Lex(CountSql(Statements(), WhereOf(q)), P.Code)) == |Args(Clauses(q))| <= 9999
    ensures P.Marks(P.Lex(ListSql(Statements(), WhereOf(q)), P.Code)) == |ListArgs(q)| <= 9999
  {
    StatementsAreFixed();
    CountLinesUp(Statements(), q);
    ListLinesUp(Statements(), q);
  }
}
