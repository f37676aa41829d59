/** Queries as their authors see them: plain code, string literals by their
    contents, line comments and parameters. Every query is such a text, and the
    rewriter numbers its parameters and leaves the rest alone. */
module QueryPieces {
  import opened Placeholders

  const Quote := '\''

  /** An open literal or remark is cut off by the end of the query. */
  datatype Piece = Plain(code: string) | Literal(content: string, closed: bool) | Remark(text: string, closed: bool) | Param

  predicate NoDashes(s: string) { forall i :: 0 <= i < |s| - 1 ==> !(s[i] == '-' && s[i + 1] == '-') }

  predicate WellFormed(p: Piece) {
    match p
    case Plain(s) => s != [] && NoDashes(s) && forall i :: 0 <= i < |s| ==> s[i] != Quote && s[i] != '?'
    case Literal(_, _) => true
    case Remark(s, _) => forall i :: 0 <= i < |s| ==> s[i] != '\n'
    case Param => true
  }

  function Head(p: Piece): char {
    match p
    case Plain(s) => if s == [] then ' ' else s[0]
    case Literal(_, _) => Quote
    case Remark(_, _) => '-'
    case Param => '?'
  }

  predicate Open(p: Piece) { (p.Literal? && !p.closed) || (p.Remark? && !p.closed) }

  predicate EndsInDash(p: Piece) { p.Plain? && p.code != [] && p.code[|p.code| - 1] == '-' }

  /** Two literals in a row would read as one with an escaped quote, and two
      dashes in a row as a remark. Nothing follows an open piece. */
  predicate MayPrecede(p: Piece, next: char) {
    !Open(p) && (p.Literal? ==> next != Quote) && (EndsInDash(p) ==> next != '-')
  }

  predicate Separated(ps: seq<Piece>) {
    ps == [] || (WellFormed(ps[0]) && (|ps| > 1 ==> MayPrecede(ps[0], Head(ps[1]))) && Separated(ps[1..]))
  }

  function Escaped(s: string): string {
    if s == [] then [] else (if s[0] == Quote then [Quote, Quote] else [s[0]]) + Escaped(s[1..])
  }

  /** The text of a piece when `n` parameters came before it. */
  function Text(p: Piece, postgres: bool, n: nat): string {
    match p
    case Plain(s) => s
    case Literal(s, closed) => [Quote] + Escaped(s) + (if closed then [Quote] else [])
    case Remark(s, closed) => ['-', '-'] + s + (if closed then ['\n'] else [])
    case Param => if postgres then ['$'] + Decimal(n + 1) else ['?']
  }

  function Written(ps: seq<Piece>, postgres: bool, n: nat): string {
    if ps == [] then []
    else Text(ps[0], postgres, n) + Written(ps[1..], postgres, if ps[0].Param? then n + 1 else n)
  }

  /** What the rewriter makes of a rest of the query. */
  function Out(q: string, mode: Mode, n: nat): string { Render(Lex(q, mode), n) }

  // ---- One rune at a time ----

  lemma StepThrough(c: char, rest: string, mode: Mode, n: nat)
    requires !(mode == Code && c == '?')
    requires !(mode == Str && c == Quote && rest != [] && rest[0] == Quote)
    ensures Out([c] + rest, mode, n) == [c] + Out(rest, NextMode([c] + rest, mode), n)
  {
    assert ([c] + rest)[1..] == rest;
    LexStep([c] + rest, mode, n);
  }

  lemma StepEscape(rest: string, n: nat)
    ensures Out([Quote, Quote] + rest, Str, n) == [Quote, Quote] + Out(rest, Str, n)
  {
    var all := [Quote, Quote] + rest;
    assert all[1..][1..] == rest && all[1..][0] == Quote;
    LexStep(all, Str, n);
  }

  lemma StepParam(rest: string, n: nat)
    ensures Out(['?'] + rest, Code, n) == (['$'] + Decimal(n + 1)) + Out(rest, Code, n + 1)
  {
    assert (['?'] + rest)[1..] == rest;
    LexStep(['?'] + rest, Code, n);
  }

  // ---- One piece at a time ----

  lemma {:induction false} PlainRenders(s: string, rest: string, n: nat)
    requires NoDashes(s) && forall i :: 0 <= i < |s| ==> s[i] != Quote && s[i] != '?'
    requires s != [] && s[|s| - 1] == '-' && rest != [] ==> rest[0] != '-'
    ensures Out(s + rest, Code, n) == s + Out(rest, Code, n)
  {
    if s == [] {
      assert s + rest == rest;
    } else {
      var tail := s[1..] + rest;
      assert s + rest == [s[0]] + tail;
      assert tail != [] && s[0] == '-' ==> tail[0] != '-' by {
        if |s| > 1 { assert s[1..][0] == s[1]; }
      }
      StepThrough(s[0], tail, Code, n);
      assert NoDashes(s[1..]) by {
        forall i | 0 <= i < |s[1..]| - 1
          ensures !(s[1..][i] == '-' && s[1..][i + 1] == '-')
        {
          assert s[1..][i] == s[i + 1] && s[1..][i + 1] == s[i + 2];
        }
      }
      PlainRenders(s[1..], rest, n);
      assert [s[0]] + (s[1..] + Out(rest, Code, n)) == s + Out(rest, Code, n);
    }
  }

  function Closing(closed: bool, c: char, rest: string): string { if closed then [c] + rest else [] }

  lemma EscapedHead(s: string, suffix: string)
    requires s != []
    ensures Escaped(s) + suffix == (if s[0] == Quote then [Quote, Quote] else [s[0]]) + (Escaped(s[1..]) + suffix)
  {
  }

  lemma {:induction false} LiteralRenders(s: string, closed: bool, rest: string, n: nat)
    requires rest == [] || rest[0] != Quote
    ensures Out(Escaped(s) + Closing(closed, Quote, rest), Str, n) == Escaped(s) + Closing(closed, Quote, Out(rest, Code, n))
  {
    var ending, done := Closing(closed, Quote, rest), Closing(closed, Quote, Out(rest, Code, n));
    if s == [] {
      assert Escaped(s) + ending == ending && Escaped(s) + done == done;
      if closed { StepThrough(Quote, rest, Str, n); }
    } else {
      EscapedHead(s, ending);
      EscapedHead(s, done);
      LiteralRenders(s[1..], closed, rest, n);
      if s[0] == Quote {
        StepEscape(Escaped(s[1..]) + ending, n);
      } else {
        StepThrough(s[0], Escaped(s[1..]) + ending, Str, n);
      }
    }
  }

  lemma {:induction false} RemarkRenders(s: string, closed: bool, rest: string, n: nat)
    requires forall i :: 0 <= i < |s| ==> s[i] != '\n'
    ensures Out(s + Closing(closed, '\n', rest), Comment, n) == s + Closing(closed, '\n', Out(rest, Code, n))
  {
    var ending, done := Closing(closed, '\n', rest), Closing(closed, '\n', Out(rest, Code, n));
    if s == [] {
      assert s + ending == ending && s + done == done;
      if closed { StepThrough('\n', rest, Comment, n); }
    } else {
      assert s + ending == [s[0]] + (s[1..] + ending) && s + done == [s[0]] + (s[1..] + done);
      StepThrough(s[0], s[1..] + ending, Comment, n);
      RemarkRenders(s[1..], closed, rest, n);
    }
  }

  lemma Opened(open: string, s: string, closed: bool, c: char, rest: string)
    requires !closed ==> rest == []
    ensures open + s + (if closed then [c] else []) + rest == open + (s + Closing(closed, c, rest))
  {
  }

  lemma LiteralPieceRenders(s: string, closed: bool, rest: string, n: nat)
    requires (rest == [] || rest[0] != Quote) && (!closed ==> rest == [])
    ensures Out(Text(Literal(s, closed), false, n) + rest, Code, n) == Text(Literal(s, closed), true, n) + Out(rest, Code, n)
  {
    Opened([Quote], Escaped(s), closed, Quote, rest);
    Opened([Quote], Escaped(s), closed, Quote, Out(rest, Code, n));
    StepThrough(Quote, Escaped(s) + Closing(closed, Quote, rest), Code, n);
    LiteralRenders(s, closed, rest, n);
  }

  lemma TwoDashes(rest: string, n: nat)
    ensures Out(['-', '-'] + rest, Code, n) == ['-', '-'] + Out(rest, Comment, n)
  {
    var tail := ['-'] + rest;
    assert ['-', '-'] + rest == ['-'] + tail && ['-', '-'] + Out(rest, Comment, n) == ['-'] + (['-'] + Out(rest, Comment, n));
    StepThrough('-', tail, Code, n);
    StepThrough('-', rest, Comment, n);
  }

  lemma RemarkPieceRenders(s: string, closed: bool, rest: string, n: nat)
    requires WellFormed(Remark(s, closed)) && (!closed ==> rest == [])
    ensures Out(Text(Remark(s, closed), false, n) + rest, Code, n) == Text(Remark(s, closed), true, n) + Out(rest, Code, n)
  {
    Opened(['-', '-'], s, closed, '\n', rest);
    Opened(['-', '-'], s, closed, '\n', Out(rest, Code, n));
    TwoDashes(s + Closing(closed, '\n', rest), n);
    RemarkRenders(s, closed, rest, n);
  }

  lemma PieceRenders(p: Piece, rest: string, n: nat)
    requires WellFormed(p) && (rest == [] || MayPrecede(p, rest[0]))
    ensures Out(Text(p, false, n) + rest, Code, n) == Text(p, true, n) + Out(rest, Code, if p.Param? then n + 1 else n)
  {
    match p {
      case Plain(s) => PlainRenders(s, rest, n);
      case Literal(s, closed) => LiteralPieceRenders(s, closed, rest, n);
      case Remark(s, closed) => RemarkPieceRenders(s, closed, rest, n);
      case Param => StepParam(rest, n);
    }
  }

  lemma WrittenStarts(ps: seq<Piece>, n: nat)
    requires ps != [] && WellFormed(ps[0])
    ensures var q := Written(ps, false, n); q != [] && q[0] == Head(ps[0])
  {
  }

  /** The rewriter, on every text of the grammar: code, literals and comments
      come out as they went in, and the k-th parameter comes out as `$k`. */
  lemma {:induction false} RewritesPieces(ps: seq<Piece>, n: nat)
    requires Separated(ps)
    ensures Out(Written(ps, false, n), Code, n) == Written(ps, true, n)
  {
    if ps != [] {
      var m := if ps[0].Param? then n + 1 else n;
      RewritesPieces(ps[1..], m);
      if |ps| > 1 { WrittenStarts(ps[1..], m); }
      PieceRenders(ps[0], Written(ps[1..], false, m), n);
    }
  }

  // ---- Every query is a text of the grammar ----

  lemma {:induction false} LiteralSplits(s: string) returns (content: string, closed: bool, rest: string)
    ensures s == Escaped(content) + Closing(closed, Quote, rest)
    ensures (rest == [] || rest[0] != Quote) && (!closed ==> rest == [])
  {
    if s == [] {
      content, closed, rest := [], false, [];
    } else if s[0] != Quote {
      content, closed, rest := LiteralSplits(s[1..]);
      assert ([s[0]] + content)[1..] == content;
      EscapedHead([s[0]] + content, Closing(closed, Quote, rest));
      assert s == [s[0]] + s[1..];
      content := [s[0]] + content;
    } else if |s| > 1 && s[1] == Quote {
      content, closed, rest := LiteralSplits(s[2..]);
      assert ([s[0]] + content)[1..] == content;
      EscapedHead([s[0]] + content, Closing(closed, Quote, rest));
      assert s == [Quote, Quote] + s[2..];
      content := [s[0]] + content;
    } else {
      content, closed, rest := [], true, s[1..];
      assert s == [Quote] + s[1..];
      assert Escaped([]) + Closing(true, Quote, rest) == [Quote] + rest;
    }
  }

  lemma {:induction false} RemarkSplits(s: string) returns (text: string, closed: bool, rest: string)
    ensures s == text + Closing(closed, '\n', rest)
    ensures forall i :: 0 <= i < |text| ==> text[i] != '\n'
    ensures !closed ==> rest == []
  {
    if s == [] {
      text, closed, rest := [], false, [];
    } else if s[0] == '\n' {
      text, closed, rest := [], true, s[1..];
      assert s == [] + (['\n'] + s[1..]);
    } else {
      text, closed, rest := RemarkSplits(s[1..]);
      assert s == [s[0]] + (text + Closing(closed, '\n', rest)) == ([s[0]] + text) + Closing(closed, '\n', rest);
      text := [s[0]] + text;
    }
  }

  /** The first piece of a query, and the rest of the query. */
  lemma FirstPiece(q: string) returns (p: Piece, rest: string)
    requires q != []
    ensures WellFormed(p) && q == Text(p, false, 0) + rest && |rest| < |q|
    ensures rest == [] || MayPrecede(p, rest[0])
  {
    if q[0] == '?' {
      p, rest := Param, q[1..];
    } else if q[0] == Quote {
      var content, closed;
      content, closed, rest := LiteralSplits(q[1..]);
      p := Literal(content, closed);
      assert q == [Quote] + q[1..];
      Opened([Quote], Escaped(content), closed, Quote, rest);
    } else if q[0] == '-' && |q| > 1 && q[1] == '-' {
      var text, closed;
      text, closed, rest := RemarkSplits(q[2..]);
      p := Remark(text, closed);
      assert q == ['-', '-'] + q[2..];
      Opened(['-', '-'], text, closed, '\n', rest);
    } else {
      p, rest := Plain([q[0]]), q[1..];
    }
  }

  lemma {:induction false} EveryQueryIsWritten(q: string, n: nat) returns (ps: seq<Piece>)
    ensures Separated(ps) && Written(ps, false, n) == q
    decreases |q|
  {
    if q == [] {
      ps := [];
    } else {
      var p, rest := FirstPiece(q);
      var more := EveryQueryIsWritten(rest, if p.Param? then n + 1 else n);
      ps := [p] + more;
      assert ps[1..] == more;
      if more != [] { WrittenStarts(more, if p.Param? then n + 1 else n); }
    }
  }

  /** The rewriter on every query there is: the query is a text of the grammar,
      and its rewriting is that text with the parameters numbered. */
  lemma EveryQueryIsRewrittenByPieces(q: string) returns (ps: seq<Piece>)
    ensures Separated(ps) && Written(ps, false, 0) == q && Rewritten(q) == Written(ps, true, 0)
  {
    ps := EveryQueryIsWritten(q, 0);
    RewritesPieces(ps, 0);
  }
}
