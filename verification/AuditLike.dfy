/** What the patterns of the audit-log filter find, with LIKE written out: `%`
    stands for any text and `_` for any character, up to the engine's folding of
    case. */
module AuditLike {
  import opened Common
  import opened AuditWhere
  import opened AuditReader

  function LikeMatches(fold: char -> char, s: string, p: string): bool
    decreases |s| + |p|
  {
    if p == [] then s == []
    else if p[0] == '%' then LikeMatches(fold, s, p[1..]) || (s != [] && LikeMatches(fold, s[1..], p))
    else s != [] && (p[0] == '_' || fold(s[0]) == fold(p[0])) && LikeMatches(fold, s[1..], p[1..])
  }

  function LikeOf(fold: char -> char): Like { (s, p) => LikeMatches(fold, s, p) }

  /** A star stands for any text, everything else for itself. */
  function Glob(fold: char -> char, s: string, p: string): bool
    decreases |s| + |p|
  {
    if p == [] then s == []
    else if p[0] == '*' then Glob(fold, s, p[1..]) || (s != [] && Glob(fold, s[1..], p))
    else s != [] && fold(s[0]) == fold(p[0]) && Glob(fold, s[1..], p[1..])
  }

  predicate Same(fold: char -> char, a: string, b: string) {
    |a| == |b| && forall i :: 0 <= i < |a| ==> fold(a[i]) == fold(b[i])
  }

  /** The text begins with something that the glob matches. */
  ghost predicate BeginsWith(fold: char -> char, s: string, p: string) {
    exists k :: 0 <= k <= |s| && Glob(fold, s[..k], p)
  }

  predicate SameAt(fold: char -> char, s: string, t: string, i: nat) {
    i + |t| <= |s| && Same(fold, s[i..i + |t|], t)
  }

  /** The text has `t` somewhere. */
  ghost predicate HasText(fold: char -> char, s: string, t: string) {
    exists i: nat :: SameAt(fold, s, t, i)
  }

  /** No character that LIKE takes for a wildcard. */
  predicate Plain(p: string) { '%' !in p && '_' !in p }

  lemma {:induction false} WildcardsAreStars(fold: char -> char, s: string, p: string)
    requires Plain(p)
    ensures LikeMatches(fold, s, Wildcards(p)) == Glob(fold, s, p)
    decreases |s| + |p|
  {
    if p != [] {
      assert Wildcards(p)[1..] == Wildcards(p[1..]);
      assert Plain(p[1..]);
      if s != [] {
        WildcardsAreStars(fold, s[1..], p[1..]);
        WildcardsAreStars(fold, s[1..], p);
      }
      WildcardsAreStars(fold, s, p[1..]);
    }
  }

  ghost predicate Begins(fold: char -> char, s: string, p: string) {
    exists k :: 0 <= k <= |s| && LikeMatches(fold, s[..k], p)
  }

  /** Anything may follow a pattern that a percent sign ends. */
  lemma {:induction false} OpenEnd(fold: char -> char, s: string, p: string)
    ensures LikeMatches(fold, s, p + "%") <==> Begins(fold, s, p)
    decreases |s| + |p|
  {
    if p == [] {
      AnyText(fold, s);
      assert p + "%" == "%" && LikeMatches(fold, s[..0], p);
    } else {
      assert (p + "%")[0] == p[0] && (p + "%")[1..] == p[1..] + "%";
      OpenEnd(fold, s, p[1..]);
      if s != [] {
        OpenEnd(fold, s[1..], p);
        OpenEnd(fold, s[1..], p[1..]);
      }
      OpenEndStep(fold, s, p);
    }
  }

  lemma {:induction false} AnyText(fold: char -> char, s: string)
    ensures LikeMatches(fold, s, "%")
    decreases |s|
  {
    assert "%"[1..] == [];
    if s != [] { AnyText(fold, s[1..]); }
  }

  /** Some beginning matches `p`, told by the first character of each. */
  lemma OpenEndStep(fold: char -> char, s: string, p: string)
    requires p != []
    ensures Begins(fold, s, p) <==>
              if p[0] == '%' then Begins(fold, s, p[1..]) || (s != [] && Begins(fold, s[1..], p))
              else s != [] && (p[0] == '_' || fold(s[0]) == fold(p[0])) && Begins(fold, s[1..], p[1..])
  {
    forall k | 0 < k <= |s| ensures s[..k] != [] && s[..k][0] == s[0] && s[..k][1..] == s[1..][..k - 1] { }
    if k :| 0 <= k <= |s| && LikeMatches(fold, s[..k], p) {
      if p[0] == '%' {
        if LikeMatches(fold, s[..k], p[1..]) {
        } else {
          assert LikeMatches(fold, s[1..][..k - 1], p);
        }
      } else {
        assert LikeMatches(fold, s[1..][..k - 1], p[1..]);
      }
    }
    if p[0] == '%' {
      if k :| 0 <= k <= |s| && LikeMatches(fold, s[..k], p[1..]) {
        assert LikeMatches(fold, s[..k], p);
      }
      if s != [] && Begins(fold, s[1..], p) {
        var k :| 0 <= k <= |s[1..]| && LikeMatches(fold, s[1..][..k], p);
        assert s[..k + 1][1..] == s[1..][..k];
        assert LikeMatches(fold, s[..k + 1], p);
      }
    } else if s != [] && Begins(fold, s[1..], p[1..]) {
      var k :| 0 <= k <= |s[1..]| && LikeMatches(fold, s[1..][..k], p[1..]);
      assert s[..k + 1][1..] == s[1..][..k];
      if p[0] == '_' || fold(s[0]) == fold(p[0]) { assert LikeMatches(fold, s[..k + 1], p); }
    }
  }

  lemma StarsBegin(fold: char -> char, s: string, p: string)
    requires Plain(p)
    ensures Begins(fold, s, Wildcards(p)) <==> BeginsWith(fold, s, p)
  {
    forall k | 0 <= k <= |s| ensures LikeMatches(fold, s[..k], Wildcards(p)) == Glob(fold, s[..k], p) {
      WildcardsAreStars(fold, s[..k], p);
    }
  }

  /** Whatever begins with a beginning begins the whole. */
  lemma OpenEndTwice(fold: char -> char, s: string, p: string)
    ensures Begins(fold, s, p + "%") <==> Begins(fold, s, p)
  {
    if k :| 0 <= k <= |s| && LikeMatches(fold, s[..k], p + "%") {
      OpenEnd(fold, s[..k], p);
      var j :| 0 <= j <= |s[..k]| && LikeMatches(fold, s[..k][..j], p);
      assert s[..k][..j] == s[..j];
    }
    if k :| 0 <= k <= |s| && LikeMatches(fold, s[..k], p) {
      OpenEnd(fold, s[..k], p);
      assert s[..k][..k] == s[..k];
    }
  }

  /** An event-type pattern finds the types that begin as it says, its stars
      standing for any text. */
  lemma PatternFinds(fold: char -> char, s: string, p: string)
    requires Plain(p)
    ensures LikeMatches(fold, s, Pattern(p)) <==> BeginsWith(fold, s, p)
  {
    var w := Wildcards(p);
    StarsBegin(fold, s, p);
    if w != [] && w[|w| - 1] == '%' {
      var front := w[..|w| - 1];
      assert w == front + "%";
      OpenEnd(fold, s, front);
      OpenEndTwice(fold, s, front);
    } else {
      OpenEnd(fold, s, w);
    }
  }

  lemma {:induction false} GlobIsSame(fold: char -> char, s: string, p: string)
    requires '*' !in p
    ensures Glob(fold, s, p) <==> Same(fold, s, p)
    decreases |p|
  {
    if p != [] && s != [] {
      GlobIsSame(fold, s[1..], p[1..]);
      assert Same(fold, s, p) <==> fold(s[0]) == fold(p[0]) && Same(fold, s[1..], p[1..]) by {
        assert forall i :: 0 <= i < |s[1..]| ==> s[1..][i] == s[i + 1];
        assert forall i :: 0 <= i < |p[1..]| ==> p[1..][i] == p[i + 1];
        assert forall i :: 0 < i < |s| ==> s[i] == s[1..][i - 1];
      }
    }
  }

  /** Without stars: the types that begin with these characters. */
  lemma StarlessBegins(fold: char -> char, s: string, p: string)
    requires '*' !in p
    ensures BeginsWith(fold, s, p) <==> SameAt(fold, s, p, 0)
  {
    forall k | 0 <= k <= |s| ensures Glob(fold, s[..k], p) <==> Same(fold, s[..k], p) {
      GlobIsSame(fold, s[..k], p);
    }
  }

  lemma TextStep(fold: char -> char, s: string, t: string)
    ensures HasText(fold, s, t) <==> SameAt(fold, s, t, 0) || (s != [] && HasText(fold, s[1..], t))
  {
    if s != [] {
      forall i: nat ensures SameAt(fold, s[1..], t, i) == SameAt(fold, s, t, i + 1) {
        if i + 1 + |t| <= |s| { assert s[1..][i..i + |t|] == s[i + 1..i + 1 + |t|]; }
      }
      if i: nat :| SameAt(fold, s, t, i) {
        if i > 0 { assert SameAt(fold, s[1..], t, i - 1); }
      }
    }
  }

  // ---- Searching ----

  function Needle(t: string): string { "%" + t + "%" }

  /** A needle finds the texts with a tail that begins as `t` says. */
  lemma {:induction false} NeedleStep(fold: char -> char, s: string, t: string)
    ensures LikeMatches(fold, s, Needle(t)) <==> Begins(fold, s, t) || (s != [] && LikeMatches(fold, s[1..], Needle(t)))
  {
    assert Needle(t)[0] == '%' && Needle(t)[1..] == t + "%";
    OpenEnd(fold, s, t);
  }

  lemma {:induction false} PlainIsSame(fold: char -> char, s: string, t: string)
    requires Plain(t)
    ensures LikeMatches(fold, s, t) <==> Same(fold, s, t)
    decreases |t|
  {
    if t != [] && s != [] {
      PlainIsSame(fold, s[1..], t[1..]);
      SameStep(fold, s, t);
    }
  }

  lemma SameStep(fold: char -> char, s: string, t: string)
    requires s != [] && t != []
    ensures Same(fold, s, t) <==> fold(s[0]) == fold(t[0]) && Same(fold, s[1..], t[1..])
  {
    assert forall i :: 0 <= i < |s[1..]| ==> s[1..][i] == s[i + 1];
    assert forall i :: 0 <= i < |t[1..]| ==> t[1..][i] == t[i + 1];
    assert forall i :: 0 < i < |s| ==> s[i] == s[1..][i - 1];
  }

  /** A search for a plain text finds the values that have it somewhere. */
  lemma {:induction false} SearchFinds(fold: char -> char, s: string, t: string)
    requires Plain(t)
    ensures LikeMatches(fold, s, Needle(t)) <==> HasText(fold, s, t)
    decreases |s|
  {
    NeedleStep(fold, s, t);
    forall k | 0 <= k <= |s| ensures LikeMatches(fold, s[..k], t) <==> Same(fold, s[..k], t) { PlainIsSame(fold, s[..k], t); }
    TextStep(fold, s, t);
    if s != [] { SearchFinds(fold, s[1..], t); }
  }

  /** Every text matches itself as a pattern, before anything that matches. */
  lemma {:induction false} MatchesItself(fold: char -> char, a: string, s: string, p: string)
    requires LikeMatches(fold, s, p)
    ensures LikeMatches(fold, a + s, a + p)
    decreases |a|
  {
    if a == [] {
      assert a + s == s && a + p == p;
    } else {
      MatchesItself(fold, a[1..], s, p);
      assert (a + s)[0] == a[0] && (a + s)[1..] == a[1..] + s;
      assert (a + p)[0] == a[0] && (a + p)[1..] == a[1..] + p;
      if a[0] == '%' { assert LikeMatches(fold, (a + s)[1..], a + p); }
    }
  }

  /** A wildcard in a pattern matches what is put in its place. */
  lemma InItsPlace(fold: char -> char, front: string, mark: char, one: string, back: string)
    requires (mark == '%' && one == "") || (mark == '_' && one == "a")
    ensures LikeMatches(fold, front + (one + back), front + ([mark] + back))
  {
    MatchesItself(fold, back, "", "");
    assert back + "" == back && ([mark] + back)[1..] == back;
    if mark == '%' { assert one + back == back; } else { assert (one + back)[1..] == back; }
    MatchesItself(fold, front, one + back, [mark] + back);
  }

  lemma WholeIsFound(fold: char -> char, s: string, t: string)
    requires LikeMatches(fold, s, t)
    ensures LikeMatches(fold, s, Needle(t))
  {
    assert s[..|s|] == s;
    NeedleStep(fold, s, t);
  }

  /** A text that is too short, or as long and different somewhere. */
  lemma LacksText(fold: char -> char, s: string, t: string, i: nat)
    requires |s| < |t| || (|s| == |t| && i < |s| && fold(s[i]) != fold(t[i]))
    ensures !HasText(fold, s, t)
  {
    assert s[..|s|] == s;
  }

  /** Something the needle finds although it does not have the text. */
  lemma FoundWithout(fold: char -> char, t: string) returns (s: string)
    requires !Plain(t) && fold('_') != fold('a')
    ensures LikeMatches(fold, s, Needle(t)) && !HasText(fold, s, t)
  {
    var i :| 0 <= i < |t| && (t[i] == '%' || t[i] == '_');
    var front, back := t[..i], t[i + 1..];
    assert t == front + ([t[i]] + back);
    var one := if t[i] == '%' then "" else "a";
    s := front + (one + back);
    InItsPlace(fold, front, t[i], one, back);
    WholeIsFound(fold, s, t);
    LacksText(fold, s, t, i);
  }

  /** A search finds the values with its text and no others, if and only if the
      text has no percent sign and no underscore. */
  lemma SearchIsExactIff(fold: char -> char, t: string)
    requires fold('_') != fold('a')
    ensures (forall s :: LikeMatches(fold, s, Needle(t)) <==> HasText(fold, s, t)) <==> Plain(t)
  {
    if Plain(t) {
      forall s ensures LikeMatches(fold, s, Needle(t)) <==> HasText(fold, s, t) { SearchFinds(fold, s, t); }
    } else {
      var s := FoundWithout(fold, t);
    }
  }

  // ---- The filter in plain terms ----

  ghost predicate FindsType(fold: char -> char, wanted: string, row: Row)
    requires wanted != ""
  {
    if '*' in wanted || wanted[|wanted| - 1] == '.' then BeginsWith(fold, row.eventType, wanted) else row.eventType == wanted
  }

  ghost predicate FindsText(fold: char -> char, t: string, row: Row) {
    HasText(fold, row.target, t) || HasText(fold, row.payload, t) || HasText(fold, row.ip, t) || HasText(fold, row.agent, t)
  }

  ghost predicate Finds(fold: char -> char, q: AuditQuery, row: Row) {
    && (q.eventTypePrefix != "" ==> FindsType(fold, q.eventTypePrefix, row))
    && (q.actorUserId != "" ==> row.actor == Some(q.actorUserId))
    && MeetsBounds(q, row)
    && (q.searchText != "" ==> FindsText(fold, q.searchText, row))
  }

  lemma TypeIsFound(fold: char -> char, wanted: string, row: Row)
    requires wanted != "" && (Plain(wanted) || !IsPrefixFilter(wanted))
    ensures MeetsType(wanted, row, LikeOf(fold)) <==> FindsType(fold, wanted, row)
  {
    if IsPrefixFilter(wanted) { PatternFinds(fold, row.eventType, wanted); }
  }

  lemma TextIsFound(fold: char -> char, q: AuditQuery, row: Row)
    requires Plain(q.searchText)
    ensures MeetsText(q, row, LikeOf(fold)) <==> FindsText(fold, q.searchText, row)
  {
    SearchFinds(fold, row.target, q.searchText);
    SearchFinds(fold, row.payload, q.searchText);
    SearchFinds(fold, row.ip, q.searchText);
    SearchFinds(fold, row.agent, q.searchText);
  }

  /** A row meets the filter, and so is kept by either statement, if and only if
      it has the wanted type or one that begins with the wanted pattern, the wanted
      actor, a time within both bounds, and the searched text in one of four
      columns. */
  lemma AuditSearchFinds(fold: char -> char, q: AuditQuery, row: Row)
    requires Plain(q.searchText) && (Plain(q.eventTypePrefix) || !IsPrefixFilter(q.eventTypePrefix))
    ensures Meets(q, row, LikeOf(fold)) <==> Finds(fold, q, row)
  {
    if q.eventTypePrefix != "" { TypeIsFound(fold, q.eventTypePrefix, row); }
    TextIsFound(fold, q, row);
  }
}
