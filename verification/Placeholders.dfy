/** The placeholder rewriter of internal/db/dialect.go: in Postgres queries the
    k-th `?` of the code becomes `$k`, string literals and line comments are
    left alone. A query is a sequence of runes. */
module Placeholders {
  import opened Common
  import opened Division

  datatype Mode = Code | Str | Comment

  /** A `?` that stands for a parameter, or any other rune. */
  datatype Token = Mark | Verbatim(c: char)

  /** The lexer: which `?` are parameters. A quote doubled inside a literal is
      an escaped quote. */
  function Lex(q: string, mode: Mode): seq<Token> {
    if q == [] then []
    else
      var c, rest := q[0], q[1..];
      match mode
      case Comment => [Verbatim(c)] + Lex(rest, if c == '\n' then Code else Comment)
      case Code =>
        if c == '-' && rest != [] && rest[0] == '-' then [Verbatim(c)] + Lex(rest, Comment)
        else if c == '\'' then [Verbatim(c)] + Lex(rest, Str)
        else if c == '?' then [Mark] + Lex(rest, Code)
        else [Verbatim(c)] + Lex(rest, Code)
      case Str =>
        if c == '\'' && rest != [] && rest[0] == '\'' then [Verbatim(c), Verbatim(c)] + Lex(rest[1..], Str)
        else [Verbatim(c)] + Lex(rest, if c == '\'' then Code else Str)
  }

  function Marks(ts: seq<Token>): nat {
    if ts == [] then 0 else (if ts[0].Mark? then 1 else 0) + Marks(ts[1..])
  }

  function Digit(d: nat): char
    requires d < 10
  {
    ('0' as int + d) as char
  }

  function Decimal(n: nat): string {
    if n < 10 then [Digit(n)] else Decimal(n / 10) + [Digit(n % 10)]
  }

  /** Numbered markers, after `n` earlier ones. */
  function Render(ts: seq<Token>, n: nat): string {
    if ts == [] then []
    else if ts[0].Mark? then "$" + Decimal(n + 1) + Render(ts[1..], n + 1)
    else [ts[0].c] + Render(ts[1..], n)
  }

  /** Question marks again. */
  function Restore(ts: seq<Token>): string {
    if ts == [] then [] else [if ts[0].Mark? then '?' else ts[0].c] + Restore(ts[1..])
  }

  function Rewritten(q: string): string {
    Render(Lex(q, Code), 0)
  }

  // ---- The rewriter ----

  function Pow10(k: nat): (p: nat)
    ensures 1 <= p
  {
    if k == 0 then 1 else 10 * Pow10(k - 1)
  }

  lemma DecimalPeels(left: nat, tail: string)
    ensures left >= 10 ==> Decimal(left / 10) + ([Digit(left % 10)] + tail) == Decimal(left) + tail
    ensures left < 10 ==> [Digit(left % 10)] + tail == Decimal(left) + tail
  {
  }

  /** A number has run out of digits before the fifth exactly when it is below 10000. */
  lemma FourDigits(n: nat, k: nat)
    requires k <= 4
    ensures n / Pow10(k) == 0 ==> n <= 9999
    ensures k == 4 && n / Pow10(k) > 0 ==> n > 9999
  {
    SmallPowers(k);
    if n < Pow10(k) { DivIs(n, Pow10(k), 0, n); }
    assert n == n / Pow10(k) * Pow10(k) + n % Pow10(k);
  }

  /** Fills a 4-byte buffer from the right; None is the index failure that the
      fifth digit would cause. */
  method Itoa(n: nat) returns (r: Option<string>)
    ensures r == if n <= 9999 then Some(Decimal(n)) else None
  {
    if n == 0 {
      return Some("0");
    }
    var buf := new char[4];
    var i := 4;
    var left := n;
    while left > 0
      invariant 0 <= i <= 4 && left == n / Pow10(4 - i)
      invariant left > 0 ==> Decimal(left) + buf[i..] == Decimal(n)
      invariant left == 0 ==> buf[i..] == Decimal(n)
      decreases left
    {
      FourDigits(n, 4 - i);
      if i == 0 {
        return None;
      }
      i := i - 1;
      DivDiv(n, Pow10(4 - i - 1), 10);
      ghost var tail := buf[i + 1..];
      buf[i] := Digit(left % 10);
      assert buf[i..] == [Digit(left % 10)] + tail;
      DecimalPeels(left, tail);
      left := left / 10;
    }
    FourDigits(n, 4 - i);
    return Some(buf[i..]);
  }

  lemma SmallPowers(k: nat)
    requires k <= 4
    ensures 1 <= Pow10(k) <= 10000 && (k == 4 ==> Pow10(k) == 10000)
  {
    assert Pow10(1) == 10 * Pow10(0) && Pow10(2) == 10 * Pow10(1);
    assert Pow10(3) == 10 * Pow10(2) && Pow10(4) == 10 * Pow10(3);
  }

  const DriverPostgres := "postgres"

  /** None is the index failure of Itoa. */
  method RewritePlaceholders(driver: string, query: string) returns (r: Option<string>)
    ensures driver != DriverPostgres ==> r == Some(query)
    ensures driver == DriverPostgres ==> r == if Marks(Lex(query, Code)) <= 9999 then Some(Rewritten(query)) else None
  {
    if driver != DriverPostgres {
      return Some(query);
    }
    var b := "";
    var counter := 0;
    var inString := false;
    var inComment := false;
    var i := 0;
    while i < |query|
      invariant Progress(query, i, inString, inComment, b, counter)
    {
      var c := query[i];
      Advance(query, i, inString, inComment, b, counter);
      if inComment {
        b := b + [c];
        if c == '\n' {
          inComment := false;
        }
        i := i + 1;
        continue;
      }
      if !inString && c == '-' && i + 1 < |query| && query[i + 1] == '-' {
        inComment := true;
        b := b + [c];
        i := i + 1;
        continue;
      }
      if c == '\'' {
        if inString && i + 1 < |query| && query[i + 1] == '\'' {
          b := b + "''";
          i := i + 2;
          continue;
        }
        inString := !inString;
        b := b + [c];
        i := i + 1;
        continue;
      }
      if c == '?' && !inString {
        counter := counter + 1;
        var number := Itoa(counter);
        if number.None? {
          return None;
        }
        b := b + ['$'] + number.value;
        i := i + 1;
        continue;
      }
      b := b + [c];
      i := i + 1;
    }
    assert query[i..] == [] && b + [] == b;
    return Some(b);
  }

  /** The output so far and the rest of the query make up the rewritten query. */
  ghost predicate Progress(query: string, i: nat, inString: bool, inComment: bool, b: string, counter: nat) {
    var mode := ModeOf(inString, inComment);
    && i <= |query| && !(inString && inComment) && counter <= 9999
    && b + Render(Lex(query[i..], mode), counter) == Rewritten(query)
    && counter + Marks(Lex(query[i..], mode)) == Marks(Lex(query, Code))
  }

  lemma Advance(query: string, i: nat, inString: bool, inComment: bool, b: string, counter: nat)
    requires Progress(query, i, inString, inComment, b, counter) && i < |query|
    ensures var c, mode := query[i], ModeOf(inString, inComment);
      if mode == Code && c == '?' then
        (if counter < 9999 then Progress(query, i + 1, false, false, b + ['$'] + Decimal(counter + 1), counter + 1)
         else Marks(Lex(query, Code)) > 9999)
      else if mode == Str && c == '\'' && i + 1 < |query| && query[i + 1] == '\'' then
        Progress(query, i + 2, true, false, b + "''", counter)
      else
        var next := NextMode(query[i..], mode);
        Progress(query, i + 1, next == Str, next == Comment, b + [c], counter)
  {
    var c, mode := query[i], ModeOf(inString, inComment);
    var q := query[i..];
    assert q[1..] == query[i + 1..] && q[0] == c;
    LexStep(q, mode, counter);
    if mode == Code && c == '?' {
      AssocMark(b, Decimal(counter + 1), Render(Lex(q[1..], Code), counter + 1));
    } else if mode == Str && c == '\'' && i + 1 < |query| && query[i + 1] == '\'' {
      assert q[1..][1..] == query[i + 2..] && q[1..][0] == query[i + 1];
      Assoc(b, "''", Render(Lex(query[i + 2..], Str), counter));
    } else {
      assert i + 1 < |query| ==> q[1] == query[i + 1];
      Assoc(b, [c], Render(Lex(q[1..], NextMode(q, mode)), counter));
    }
  }

  lemma AssocMark(b: string, number: string, more: string)
    ensures b + ("$" + number + more) == b + ['$'] + number + more
  {
    assert "$" == ['$'];
  }

  function ModeOf(inString: bool, inComment: bool): Mode {
    if inComment then Comment else if inString then Str else Code
  }

  /** The first token of a query, rendered and counted. */
  lemma LexStep(q: string, mode: Mode, n: nat)
    requires q != []
    ensures var c, rest := q[0], q[1..];
      if mode == Code && c == '?' then
        Render(Lex(q, mode), n) == "$" + Decimal(n + 1) + Render(Lex(rest, Code), n + 1)
        && Marks(Lex(q, mode)) == 1 + Marks(Lex(rest, Code))
      else if mode == Str && c == '\'' && rest != [] && rest[0] == '\'' then
        Render(Lex(q, mode), n) == "''" + Render(Lex(rest[1..], Str), n)
        && Marks(Lex(q, mode)) == Marks(Lex(rest[1..], Str))
      else
        var next := NextMode(q, mode);
        Render(Lex(q, mode), n) == [c] + Render(Lex(rest, next), n)
        && Marks(Lex(q, mode)) == Marks(Lex(rest, next))
  {
    var c, rest := q[0], q[1..];
    if mode == Code && c == '?' {
      LexMark(q, n);
    } else if mode == Str && c == '\'' && rest != [] && rest[0] == '\'' {
      LexEscape(q, n);
    } else {
      LexOther(q, mode, n);
    }
  }

  lemma LexMark(q: string, n: nat)
    requires q != [] && q[0] == '?'
    ensures Render(Lex(q, Code), n) == "$" + Decimal(n + 1) + Render(Lex(q[1..], Code), n + 1)
    ensures Marks(Lex(q, Code)) == 1 + Marks(Lex(q[1..], Code))
  {
    assert Lex(q, Code) == [Mark] + Lex(q[1..], Code);
    assert Lex(q, Code)[1..] == Lex(q[1..], Code);
  }

  lemma RenderPair(c: char, tail: seq<Token>, n: nat)
    ensures Render([Verbatim(c), Verbatim(c)] + tail, n) == [c, c] + Render(tail, n)
    ensures Marks([Verbatim(c), Verbatim(c)] + tail) == Marks(tail)
  {
    var all := [Verbatim(c), Verbatim(c)] + tail;
    assert all[1..] == [Verbatim(c)] + tail;
    assert all[1..][1..] == tail;
  }

  lemma LexEscape(q: string, n: nat)
    requires |q| > 1 && q[0] == '\'' && q[1] == '\''
    ensures Render(Lex(q, Str), n) == "''" + Render(Lex(q[1..][1..], Str), n)
    ensures Marks(Lex(q, Str)) == Marks(Lex(q[1..][1..], Str))
  {
    RenderPair('\'', Lex(q[1..][1..], Str), n);
    assert ['\'', '\''] == "''";
  }

  lemma LexOther(q: string, mode: Mode, n: nat)
    requires q != [] && !(mode == Code && q[0] == '?')
    requires !(mode == Str && q[0] == '\'' && |q| > 1 && q[1] == '\'')
    ensures Render(Lex(q, mode), n) == [q[0]] + Render(Lex(q[1..], NextMode(q, mode)), n)
    ensures Marks(Lex(q, mode)) == Marks(Lex(q[1..], NextMode(q, mode)))
  {
    var tail := Lex(q[1..], NextMode(q, mode));
    assert Lex(q, mode) == [Verbatim(q[0])] + tail;
    assert ([Verbatim(q[0])] + tail)[1..] == tail;
  }

  /** The mode after one rune, except after an escaped quote. */
  function NextMode(q: string, mode: Mode): Mode
    requires q != []
  {
    match mode
    case Comment => if q[0] == '\n' then Code else Comment
    case Str => if q[0] == '\'' then Code else Str
    case Code =>
      if q[0] == '-' && |q| > 1 && q[1] == '-' then Comment else if q[0] == '\'' then Str else Code
  }

  // ---- Numbers ----

  function Value(s: string): nat {
    if s == [] then 0 else 10 * Value(s[..|s| - 1]) + (s[|s| - 1] as int - '0' as int) % 10
  }

  predicate AllDigits(s: string) { forall i :: 0 <= i < |s| ==> '0' <= s[i] <= '9' }

  /** Markers are numbered in decimal: the digits read back as the number. */
  lemma {:induction false} DecimalReadsBack(n: nat)
    ensures Value(Decimal(n)) == n && AllDigits(Decimal(n)) && Decimal(n) != []
    ensures Decimal(n)[0] == '0' <==> n == 0
  {
    if n < 10 {
      assert Decimal(n)[..0] == [];
    } else {
      DecimalReadsBack(n / 10);
      var front := Decimal(n / 10);
      assert Decimal(n)[..|front|] == front;
    }
  }

  // ---- Restoring, numbering, idempotence ----

  lemma RestorePair(c: char, tail: seq<Token>)
    ensures Restore([Verbatim(c), Verbatim(c)] + tail) == [c, c] + Restore(tail)
  {
    var all := [Verbatim(c), Verbatim(c)] + tail;
    assert all[1..] == [Verbatim(c)] + tail;
    assert all[1..][1..] == tail;
  }

  /** Turning the markers back into question marks restores the query. */
  lemma {:induction false} MarkersRestore(q: string, mode: Mode)
    ensures Restore(Lex(q, mode)) == q
  {
    if q != [] {
      var c, rest := q[0], q[1..];
      assert q == [c] + rest;
      if mode == Str && c == '\'' && rest != [] && rest[0] == '\'' {
        MarkersRestore(rest[1..], Str);
        assert rest == [c] + rest[1..];
        RestorePair(c, Lex(rest[1..], Str));
        assert [c, c] + rest[1..] == q;
      } else {
        var next := NextMode(q, mode);
        MarkersRestore(rest, next);
        assert Lex(q, mode)[1..] == Lex(rest, next);
      }
    }
  }

  function Shown(t: Token, n: nat): string {
    if t.Mark? then "$" + Decimal(n + 1) else [t.c]
  }

  lemma RenderFirst(ts: seq<Token>, n: nat)
    requires ts != []
    ensures var next := if ts[0].Mark? then n + 1 else n; Render(ts, n) == Shown(ts[0], n) + Render(ts[1..], next)
  {
  }

  lemma {:induction false} RenderAppend(a: seq<Token>, b: seq<Token>, n: nat)
    ensures Render(a + b, n) == Render(a, n) + Render(b, n + Marks(a))
  {
    if a == [] {
      assert a + b == b;
    } else {
      assert (a + b)[1..] == a[1..] + b && (a + b)[0] == a[0];
      RenderFirst(a + b, n);
      RenderFirst(a, n);
      RenderAppend(a[1..], b, if a[0].Mark? then n + 1 else n);
    }
  }

  /** The k-th parameter of the query becomes `$k`, between the renderings of
      what comes before and after it. */
  lemma KthMarkIsNumberK(q: string, before: seq<Token>, after: seq<Token>)
    requires Lex(q, Code) == before + [Mark] + after
    ensures Rewritten(q) == Render(before, 0) + "$" + Decimal(Marks(before) + 1) + Render(after, Marks(before) + 1)
  {
    Assoc(before, [Mark], after);
    RenderAppend(before, [Mark] + after, 0);
    MarkRenders(after, Marks(before));
    Assoc(Render(before, 0), "$" + Decimal(Marks(before) + 1), Render(after, Marks(before) + 1));
    Assoc(Render(before, 0), "$", Decimal(Marks(before) + 1));
  }

  lemma MarkRenders(after: seq<Token>, n: nat)
    ensures Render([Mark] + after, n) == "$" + Decimal(n + 1) + Render(after, n + 1)
  {
    assert ([Mark] + after)[1..] == after;
  }

  lemma {:induction false} NoMarksIsVerbatim(ts: seq<Token>, n: nat)
    requires Marks(ts) == 0
    ensures Render(ts, n) == Restore(ts)
  {
    if ts != [] { NoMarksIsVerbatim(ts[1..], n); }
  }

  /** Digits and dollar signs in code lex to themselves. */
  lemma {:induction false} NumberLexes(s: string, rest: string)
    requires forall i :: 0 <= i < |s| ==> '0' <= s[i] <= '9' || s[i] == '$'
    ensures Marks(Lex(s + rest, Code)) == Marks(Lex(rest, Code))
  {
    if s == [] {
      assert s + rest == rest;
    } else {
      assert (s + rest)[1..] == s[1..] + rest;
      LexStep(s + rest, Code, 0);
      NumberLexes(s[1..], rest);
    }
  }

  lemma EscapedQuoteLexes(more: string)
    ensures Marks(Lex("''" + more, Str)) == Marks(Lex(more, Str))
  {
    var out := "''" + more;
    assert out[1..][1..] == more && out[1..][0] == '\'';
    LexStep(out, Str, 0);
  }

  /** A rune that the lexer passes over, before a rest that begins alike. */
  lemma VerbatimLexes(q: string, mode: Mode, more: string)
    requires q != [] && !(mode == Code && q[0] == '?')
    requires !(mode == Str && q[0] == '\'' && |q| > 1 && q[1] == '\'')
    requires more == [] <==> q[1..] == []
    requires more != [] ==> more[0] == if NextMode(q, mode) == Code && q[1] == '?' then '$' else q[1]
    ensures Marks(Lex([q[0]] + more, mode)) == Marks(Lex(more, NextMode(q, mode)))
  {
    var out := [q[0]] + more;
    assert out[1..] == more;
    LexStep(out, mode, 0);
    assert NextMode(out, mode) == NextMode(q, mode);
  }

  /** The rewritten query has no parameter left that the lexer would find. */
  lemma {:induction false} RewrittenHasNoMarks(q: string, mode: Mode, n: nat)
    ensures Marks(Lex(Render(Lex(q, mode), n), mode)) == 0
    ensures q == [] <==> Render(Lex(q, mode), n) == []
    ensures q != [] ==> Render(Lex(q, mode), n)[0] == if mode == Code && q[0] == '?' then '$' else q[0]
  {
    if q != [] {
      var c, rest := q[0], q[1..];
      LexStep(q, mode, n);
      if mode == Code && c == '?' {
        RewrittenHasNoMarks(rest, Code, n + 1);
        DecimalReadsBack(n + 1);
        NumberLexes("$" + Decimal(n + 1), Render(Lex(rest, Code), n + 1));
      } else if mode == Str && c == '\'' && rest != [] && rest[0] == '\'' {
        RewrittenHasNoMarks(rest[1..], Str, n);
        EscapedQuoteLexes(Render(Lex(rest[1..], Str), n));
      } else {
        var next := NextMode(q, mode);
        RewrittenHasNoMarks(rest, next, n);
        VerbatimLexes(q, mode, Render(Lex(rest, next), n));
      }
    }
  }

  /** Rewriting the output again changes nothing. */
  lemma RewritingIsIdempotent(q: string)
    ensures Rewritten(Rewritten(q)) == Rewritten(q)
  {
    RewrittenHasNoMarks(q, Code, 0);
    NoMarksIsVerbatim(Lex(Rewritten(q), Code), 0);
    MarkersRestore(Rewritten(q), Code);
  }
}
