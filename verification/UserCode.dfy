/** The code a person types on the pairing page: how internal/auth/device.go
    generates, displays and normalises it. ASCII only. */
module UserCode {
  import opened Common

  const UserCodeLength := 8

  predicate IsSpace(c: char) { c == ' ' || 9 <= c as int <= 13 }

  function Upper(c: char): char {
    if 'a' <= c <= 'z' then (c as int - 32) as char else c
  }

  function UpperAll(s: string): (r: string)
    ensures |r| == |s|
  {
    seq(|s|, i requires 0 <= i < |s| => Upper(s[i]))
  }

  function TrimLeft(s: string): string {
    if s != [] && IsSpace(s[0]) then TrimLeft(s[1..]) else s
  }

  function TrimRight(s: string): string {
    if s != [] && IsSpace(s[|s| - 1]) then TrimRight(s[..|s| - 1]) else s
  }

  function Without(s: string, c: char): string {
    if s == [] then [] else (if s[0] == c then [] else [s[0]]) + Without(s[1..], c)
  }

  function CanonicalUserCode(s: string): string {
    Without(Without(UpperAll(TrimRight(TrimLeft(s))), '-'), ' ')
  }

  function FormatUserCodeDisplay(raw: string): string {
    if |raw| != UserCodeLength then raw else raw[..4] + "-" + raw[4..]
  }

  const UserCodeAlphabet := "ABCDEFGHJKMNPQRTUVWXYZ234679"

  function GenerateUserCode(random: seq<nat>): (code: string)
    requires |random| == UserCodeLength
    ensures |code| == UserCodeLength && forall i :: 0 <= i < |code| ==> code[i] in UserCodeAlphabet
  {
    seq(UserCodeLength, i requires 0 <= i < UserCodeLength => UserCodeAlphabet[random[i] % |UserCodeAlphabet|])
  }

  /** What a typed code comes down to: letters raised, dashes and blanks gone. */
  function Squeezed(s: string): string {
    if s == [] then []
    else (if s[0] == '-' || s[0] == ' ' then [] else [Upper(s[0])]) + Squeezed(s[1..])
  }

  predicate NoOtherSpace(s: string) {
    forall i :: 0 <= i < |s| && IsSpace(s[i]) ==> s[i] == ' '
  }

  lemma {:induction false} SqueezedAppend(a: string, b: string)
    ensures Squeezed(a + b) == Squeezed(a) + Squeezed(b)
  {
    if a == [] {
      assert a + b == b;
    } else {
      assert (a + b)[1..] == a[1..] + b;
      SqueezedAppend(a[1..], b);
    }
  }

  lemma {:induction false} TrimLeftSqueezes(s: string)
    requires NoOtherSpace(s)
    ensures NoOtherSpace(TrimLeft(s)) && Squeezed(TrimLeft(s)) == Squeezed(s)
  {
    if s != [] && IsSpace(s[0]) { TrimLeftSqueezes(s[1..]); }
  }

  lemma {:induction false} TrimRightSqueezes(s: string)
    requires NoOtherSpace(s)
    ensures Squeezed(TrimRight(s)) == Squeezed(s)
  {
    if s != [] && IsSpace(s[|s| - 1]) {
      TrimRightSqueezes(s[..|s| - 1]);
      SqueezedAppend(s[..|s| - 1], [s[|s| - 1]]);
      assert s == s[..|s| - 1] + [s[|s| - 1]];
    }
  }

  lemma {:induction false} StrippedIsSqueezed(s: string)
    ensures Without(Without(UpperAll(s), '-'), ' ') == Squeezed(s)
  {
    if s != [] {
      StrippedIsSqueezed(s[1..]);
      var u := UpperAll(s);
      assert u[1..] == UpperAll(s[1..]);
      assert u[0] == Upper(s[0]);
      var rest := Without(u[1..], '-');
      if u[0] != '-' {
        assert Without(u, '-') == [u[0]] + rest && ([u[0]] + rest)[1..] == rest;
      } else {
        assert Without(u, '-') == rest;
      }
    }
  }

  /** A typed code with no blanks but spaces canonicalises to its letters. */
  lemma CanonicalIsSqueezed(s: string)
    requires NoOtherSpace(s)
    ensures CanonicalUserCode(s) == Squeezed(s)
  {
    TrimLeftSqueezes(s);
    TrimRightSqueezes(TrimLeft(s));
    StrippedIsSqueezed(TrimRight(TrimLeft(s)));
  }

  // ---- Blanks of every kind ----

  /** The typed characters raised, without dashes and without any blank. */
  function Stripped(s: string): string {
    if s == [] then []
    else (if s[0] == '-' || IsSpace(s[0]) then [] else [Upper(s[0])]) + Stripped(s[1..])
  }

  lemma {:induction false} StrippedAppend(a: string, b: string)
    ensures Stripped(a + b) == Stripped(a) + Stripped(b)
  {
    if a == [] {
      assert a + b == b;
    } else {
      assert (a + b)[1..] == a[1..] + b;
      StrippedAppend(a[1..], b);
    }
  }

  lemma {:induction false} TrimLeftStrips(s: string)
    ensures Stripped(TrimLeft(s)) == Stripped(s)
  {
    if s != [] && IsSpace(s[0]) { TrimLeftStrips(s[1..]); }
  }

  lemma {:induction false} TrimRightStrips(s: string)
    ensures Stripped(TrimRight(s)) == Stripped(s)
  {
    if s != [] && IsSpace(s[|s| - 1]) {
      TrimRightStrips(s[..|s| - 1]);
      StrippedAppend(s[..|s| - 1], [s[|s| - 1]]);
      assert s == s[..|s| - 1] + [s[|s| - 1]];
    }
  }

  lemma {:induction false} SqueezedOrMore(s: string)
    ensures |Stripped(s)| <= |Squeezed(s)|
    ensures Stripped(s) == Squeezed(s) <==> NoOtherSpace(s)
  {
    if s != [] {
      SqueezedOrMore(s[1..]);
      SpaceFirst(s);
      var rest, more := Stripped(s[1..]), Squeezed(s[1..]);
      if s[0] == '-' || s[0] == ' ' {
        assert [] + rest == rest && [] + more == more;
      } else if IsSpace(s[0]) {
        assert [] + rest == rest;
        assert |Squeezed(s)| == 1 + |more|;
      } else {
        SameHead(Upper(s[0]), rest, more);
      }
    }
  }

  lemma SameHead(c: char, a: string, b: string)
    ensures [c] + a == [c] + b <==> a == b
  {
    assert ([c] + a)[1..] == a && ([c] + b)[1..] == b;
  }

  lemma SpaceFirst(s: string)
    requires s != []
    ensures NoOtherSpace(s) <==> (IsSpace(s[0]) ==> s[0] == ' ') && NoOtherSpace(s[1..])
  {
    if NoOtherSpace(s) {
      assert forall i :: 0 <= i < |s[1..]| ==> s[1..][i] == s[i + 1];
    } else {
      var i :| 0 <= i < |s| && IsSpace(s[i]) && s[i] != ' ';
      if i > 0 { assert s[1..][i - 1] == s[i]; }
    }
  }

  /** A typed code canonicalises to its letters without any blank if and only if
      every blank between its first and last other character is a space. A tab
      or a line break inside the code stays in it. */
  lemma CanonicalIsStrippedIff(s: string)
    ensures CanonicalUserCode(s) == Stripped(s) <==> NoOtherSpace(TrimRight(TrimLeft(s)))
  {
    TrimLeftStrips(s);
    TrimRightStrips(TrimLeft(s));
    SqueezedOrMore(TrimRight(TrimLeft(s)));
    StrippedIsSqueezed(TrimRight(TrimLeft(s)));
  }

  predicate Blank(s: string) {
    forall i :: 0 <= i < |s| ==> IsSpace(s[i])
  }

  predicate Plain(raw: string) {
    forall i :: 0 <= i < |raw| ==> raw[i] != '-' && !IsSpace(raw[i]) && Upper(raw[i]) == raw[i]
  }

  lemma {:induction false} PlainSqueezes(raw: string)
    requires Plain(raw)
    ensures Squeezed(raw) == raw
  {
    if raw != [] { PlainSqueezes(raw[1..]); }
  }

  lemma AlphabetIsPlain(c: char)
    requires c in UserCodeAlphabet
    ensures c != '-' && !IsSpace(c) && Upper(c) == c
  {
  }

  lemma ShownSqueezes(raw: string)
    requires |raw| == UserCodeLength && Plain(raw)
    ensures Squeezed(FormatUserCodeDisplay(raw)) == raw
  {
    var left, right := raw[..4], raw[4..];
    SqueezedAppend(left + "-", right);
    SqueezedAppend(left, "-");
    PlainSqueezes(left);
    PlainSqueezes(right);
    assert Squeezed("-") == [];
    assert left + [] + right == raw;
  }

  lemma TypedHasNoSpace(raw: string, typed: string, i: nat)
    requires Plain(raw) && UpperAll(typed) == FormatUserCodeDisplay(raw) && i < |typed|
    ensures !IsSpace(typed[i])
  {
    var shown := FormatUserCodeDisplay(raw);
    assert Upper(typed[i]) == shown[i];
    if |raw| == UserCodeLength && i > 4 { assert shown[i] == raw[i - 1]; }
  }

  lemma {:induction false} TrimLeftBlank(before: string, s: string)
    requires Blank(before)
    ensures TrimLeft(before + s) == TrimLeft(s)
  {
    if before == [] {
      assert before + s == s;
    } else {
      assert (before + s)[1..] == before[1..] + s;
      TrimLeftBlank(before[1..], s);
    }
  }

  lemma {:induction false} TrimRightBlank(s: string, after: string)
    requires Blank(after)
    ensures TrimRight(s + after) == TrimRight(s)
  {
    if after == [] {
      assert s + after == s;
    } else {
      var all := s + after;
      assert all[|all| - 1] == after[|after| - 1] && all[..|all| - 1] == s + after[..|after| - 1];
      TrimRightBlank(s, after[..|after| - 1]);
    }
  }

  lemma NothingToTrim(s: string)
    requires s != [] && !IsSpace(s[|s| - 1])
    ensures TrimRight(s) == s
  {
  }

  lemma BlanksAround(before: string, typed: string, after: string)
    requires Blank(before) && Blank(after) && typed != []
    requires forall i :: 0 <= i < |typed| ==> !IsSpace(typed[i])
    ensures CanonicalUserCode(before + typed + after) == Squeezed(typed)
  {
    Assoc(before, typed, after);
    TrimLeftBlank(before, typed + after);
    assert (typed + after)[0] == typed[0];
    TrimRightBlank(typed, after);
    NothingToTrim(typed);
    StrippedIsSqueezed(typed);
  }

  lemma GeneratedIsPlain(random: seq<nat>)
    requires |random| == UserCodeLength
    ensures Plain(GenerateUserCode(random))
  {
    var raw := GenerateUserCode(random);
    forall i | 0 <= i < |raw|
      ensures raw[i] != '-' && !IsSpace(raw[i]) && Upper(raw[i]) == raw[i]
    {
      AlphabetIsPlain(raw[i]);
    }
  }

  /** Each character as shown or, for a capital letter, its small one. */
  predicate InEitherCase(typed: string, shown: string) {
    |typed| == |shown| && forall i :: 0 <= i < |typed| ==>
      typed[i] == shown[i] || ('A' <= shown[i] <= 'Z' && typed[i] as int - 'a' as int == shown[i] as int - 'A' as int)
  }

  lemma RaisedIsShown(raw: string, typed: string)
    requires Plain(raw) && InEitherCase(typed, FormatUserCodeDisplay(raw))
    ensures UpperAll(typed) == FormatUserCodeDisplay(raw)
  {
    var shown := FormatUserCodeDisplay(raw);
    forall i | 0 <= i < |typed| ensures Upper(typed[i]) == shown[i] {
      if |raw| == UserCodeLength && i > 4 { assert shown[i] == raw[i - 1]; }
    }
  }

  /** The displayed form of a generated code, as typed in either case of letters
      and with any blanks around it, canonicalises back to the stored code. */
  lemma DisplayedCodeComesBack(random: seq<nat>, typed: string, before: string, after: string)
    requires |random| == UserCodeLength
    requires InEitherCase(typed, FormatUserCodeDisplay(GenerateUserCode(random)))
    requires Blank(before) && Blank(after)
    ensures CanonicalUserCode(before + typed + after) == GenerateUserCode(random)
  {
    var raw := GenerateUserCode(random);
    GeneratedIsPlain(random);
    RaisedIsShown(raw, typed);
    forall i | 0 <= i < |typed|
      ensures !IsSpace(typed[i])
    {
      TypedHasNoSpace(raw, typed, i);
    }
    BlanksAround(before, typed, after);
    SqueezedIgnoresCase(typed);
    ShownSqueezes(raw);
  }

  lemma {:induction false} SqueezedIgnoresCase(s: string)
    ensures Squeezed(UpperAll(s)) == Squeezed(s)
  {
    if s != [] {
      assert UpperAll(s)[1..] == UpperAll(s[1..]) && UpperAll(s)[0] == Upper(s[0]);
      SqueezedIgnoresCase(s[1..]);
    }
  }

  lemma AlphabetHasNoRepeats()
    ensures forall i, j :: 0 <= i < j < |UserCodeAlphabet| ==> UserCodeAlphabet[i] != UserCodeAlphabet[j]
  {
  }

  /** The random bytes decide the code through their remainders, and every code
      over the alphabet can come out. */
  lemma SameCodeIff(a: seq<nat>, b: seq<nat>)
    requires |a| == UserCodeLength && |b| == UserCodeLength
    ensures GenerateUserCode(a) == GenerateUserCode(b) <==> forall i :: 0 <= i < UserCodeLength ==> a[i] % 28 == b[i] % 28
  {
    AlphabetHasNoRepeats();
    if GenerateUserCode(a) == GenerateUserCode(b) {
      forall i | 0 <= i < UserCodeLength ensures a[i] % 28 == b[i] % 28 {
        assert GenerateUserCode(a)[i] == GenerateUserCode(b)[i];
      }
    }
  }
}
