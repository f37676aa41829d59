/** RedactDSN of internal/db/postgres.go: what a log line still shows of a
    connection string, in the URL form and in the key=value form. A string is
    the sequence of its bytes. */
module RedactDsn {
  import opened Common

  const Short := "postgres://"
  const Long := "postgresql://"
  const Separator := "://"
  const Key := "password="
  const Mask := "***"
  const Hidden := ":***@"

  // ---- Searching ----

  predicate At(s: string, sub: string, i: int) {
    0 <= i && i + |sub| <= |s| && s[i..i + |sub|] == sub
  }

  ghost predicate IsFirst(s: string, sub: string, r: int) {
    && (r == -1 || At(s, sub, r))
    && forall j :: (r == -1 || j < r) ==> !At(s, sub, j)
  }

  ghost predicate IsLast(s: string, sub: string, r: int) {
    && (r == -1 || At(s, sub, r))
    && forall j :: r < j ==> !At(s, sub, j)
  }

  function FirstFrom(s: string, sub: string, from: nat): (r: int)
    requires forall j :: j < from ==> !At(s, sub, j)
    ensures IsFirst(s, sub, r)
    decreases |s| + 1 - from
  {
    if |s| < from + |sub| then -1
    else if At(s, sub, from) then from
    else FirstFrom(s, sub, from + 1)
  }

  function First(s: string, sub: string): (r: int)
    ensures IsFirst(s, sub, r)
  {
    FirstFrom(s, sub, 0)
  }

  function LastUpTo(s: string, sub: string, bound: nat): (r: int)
    requires forall j :: bound <= j ==> !At(s, sub, j)
    ensures IsLast(s, sub, r)
  {
    if bound == 0 then -1
    else if At(s, sub, bound - 1) then bound - 1
    else LastUpTo(s, sub, bound - 1)
  }

  function Last(s: string, sub: string): (r: int)
    ensures IsLast(s, sub, r)
  {
    LastUpTo(s, sub, |s| + 1)
  }

  lemma FirstIs(s: string, sub: string, r: int)
    requires IsFirst(s, sub, r)
    ensures First(s, sub) == r
  {
    var f := First(s, sub);
    assert f == -1 || At(s, sub, f);
  }

  lemma LastIs(s: string, sub: string, r: int)
    requires IsLast(s, sub, r)
    ensures Last(s, sub) == r
  {
    var l := Last(s, sub);
    assert l == -1 || At(s, sub, l);
    assert r == -1 || At(s, sub, r);
  }

  method StartsWith(s: string, prefix: string) returns (r: bool)
    ensures r <==> prefix <= s
  {
    r := |s| >= |prefix| && s[..|prefix|] == prefix;
  }

  method IndexOf(s: string, sub: string) returns (r: int)
    ensures IsFirst(s, sub, r)
  {
    var i := 0;
    while i + |sub| <= |s|
      invariant forall j :: j < i ==> !At(s, sub, j)
    {
      if s[i..i + |sub|] == sub {
        return i;
      }
      i := i + 1;
    }
    return -1;
  }

  method LastIndex(s: string, sub: string) returns (last: int)
    ensures IsLast(s, sub, last)
  {
    last := -1;
    var i := 0;
    while i + |sub| <= |s|
      invariant 0 <= i && last < i
      invariant last == -1 || At(s, sub, last)
      invariant forall j :: last < j < i ==> !At(s, sub, j)
    {
      if s[i..i + |sub|] == sub {
        last := i;
      }
      i := i + 1;
    }
  }

  lemma AtChar(s: string, c: char, i: int)
    ensures At(s, [c], i) <==> 0 <= i < |s| && s[i] == c
  {
    if 0 <= i < |s| {
      assert s[i..i + 1] == [s[i]];
    }
  }

  lemma FirstChar(s: string, c: char, r: nat)
    requires r < |s| && s[r] == c && c !in s[..r]
    ensures First(s, [c]) == r
  {
    forall j | j < r
      ensures !At(s, [c], j)
    {
      AtChar(s, c, j);
      if 0 <= j {
        assert s[..r][j] == s[j];
      }
    }
    AtChar(s, c, r);
    FirstIs(s, [c], r);
  }

  lemma NoChar(s: string, c: char)
    ensures First(s, [c]) == -1 <==> c !in s
    ensures Last(s, [c]) == -1 <==> c !in s
  {
    if c in s {
      var i :| 0 <= i < |s| && s[i] == c;
      AtChar(s, c, i);
    } else {
      AtChar(s, c, First(s, [c]));
      AtChar(s, c, Last(s, [c]));
    }
  }

  lemma LastChar(s: string, c: char, r: nat)
    requires r < |s| && s[r] == c && c !in s[r + 1..]
    ensures Last(s, [c]) == r
  {
    forall j | r < j
      ensures !At(s, [c], j)
    {
      AtChar(s, c, j);
      if j < |s| {
        assert s[r + 1..][j - r - 1] == s[j];
      }
    }
    AtChar(s, c, r);
    LastIs(s, [c], r);
  }

  // ---- The two forms ----

  predicate IsUrl(dsn: string) { Short <= dsn || Long <= dsn }

  lemma SchemeAt(scheme: string, dsn: string, r: nat)
    requires scheme <= dsn && |scheme| == r + 3
    requires scheme[r] == ':' && scheme[r + 1] == '/' && scheme[r + 2] == '/'
    requires forall j :: 0 <= j < r ==> scheme[j] != ':'
    requires forall j :: 0 <= j < |scheme| ==> scheme[j] != '@'
    ensures First(dsn, Separator) == r && forall j :: 0 <= j < r + 3 ==> dsn[j] != '@'
  {
    forall j | 0 <= j < |scheme|
      ensures dsn[j] == scheme[j]
    {
    }
    assert dsn[r] == scheme[r] && dsn[r + 1] == scheme[r + 1] && dsn[r + 2] == scheme[r + 2];
    assert dsn[r..r + 3] == [':', '/', '/'];
    forall j | 0 <= j < r
      ensures !At(dsn, Separator, j)
    {
      assert dsn[j..j + 3][0] == scheme[j];
    }
    FirstIs(dsn, Separator, r);
  }

  /** The separator of a URL ends its scheme, and no at sign lies before it ends. */
  lemma SchemeEnds(dsn: string)
    requires IsUrl(dsn)
    ensures First(dsn, Separator) == if Short <= dsn then 8 else 10
    ensures var i := First(dsn, Separator) + 3; i <= |dsn| && forall j :: 0 <= j < i ==> dsn[j] != '@'
  {
    if Short <= dsn {
      SchemeAt(Short, dsn, 8);
    } else {
      SchemeAt(Long, dsn, 10);
    }
  }

  lemma AtSignAfterScheme(dsn: string)
    requires IsUrl(dsn) && First(dsn, Separator) < Last(dsn, "@")
    ensures 0 <= First(dsn, Separator) && First(dsn, Separator) + 3 <= Last(dsn, "@") < |dsn|
  {
    SchemeEnds(dsn);
    AtChar(dsn, '@', Last(dsn, "@"));
  }

  function RedactedUrl(dsn: string): string
    requires IsUrl(dsn)
  {
    var at, schemeEnd := Last(dsn, "@"), First(dsn, Separator);
    if at < 0 || schemeEnd < 0 || schemeEnd >= at then dsn
    else
      AtSignAfterScheme(dsn);
      var colon := First(dsn[schemeEnd + 3..at], ":");
      if colon < 0 then dsn
      else dsn[..schemeEnd + 3] + dsn[schemeEnd + 3..at][..colon] + Hidden + dsn[at + 1..]
  }

  /** What follows the first space, the space included. */
  function FromSpace(s: string): (r: string)
    ensures ' ' !in s ==> r == ""
    ensures r == "" || r[0] == ' '
  {
    if s == "" then "" else if s[0] == ' ' then s else FromSpace(s[1..])
  }

  function RedactedPairs(dsn: string): string {
    var idx := First(dsn, Key);
    if idx < 0 then dsn else dsn[..idx] + (Key + Mask) + FromSpace(dsn[idx + |Key|..])
  }

  /** The connection string as shown. */
  function Redacted(dsn: string): string {
    if IsUrl(dsn) then RedactedUrl(dsn) else RedactedPairs(dsn)
  }

  lemma FromSpaceAt(s: string, end: nat)
    requires end <= |s| && ' ' !in s[..end] && (end == |s| || s[end] == ' ')
    ensures FromSpace(s) == s[end..]
  {
    if end > 0 {
      assert s[..end][0] == s[0];
      assert s[1..][..end - 1] == s[..end][1..];
      FromSpaceAt(s[1..], end - 1);
      assert s[1..][end - 1..] == s[end..];
    }
  }

  method RedactDSN(dsn: string) returns (shown: string)
    ensures shown == Redacted(dsn)
  {
    var short := StartsWith(dsn, Short);
    var long := StartsWith(dsn, Long);
    if short || long {
      var at := LastIndex(dsn, "@");
      var schemeEnd := IndexOf(dsn, Separator);
      LastIs(dsn, "@", at);
      FirstIs(dsn, Separator, schemeEnd);
      if at < 0 || schemeEnd < 0 || schemeEnd >= at {
        return dsn;
      }
      AtSignAfterScheme(dsn);
      var userInfo := dsn[schemeEnd + 3..at];
      var colon := IndexOf(userInfo, ":");
      FirstIs(userInfo, ":", colon);
      if colon < 0 {
        return dsn;
      }
      return dsn[..schemeEnd + 3] + userInfo[..colon] + Hidden + dsn[at + 1..];
    }
    var idx := IndexOf(dsn, Key);
    FirstIs(dsn, Key, idx);
    if idx < 0 {
      return dsn;
    }
    var rest := dsn[idx + |Key|..];
    var end := |rest|;
    for i := 0 to |rest|
      invariant ' ' !in rest[..i] && end == |rest|
    {
      if rest[i] == ' ' {
        end := i;
        break;
      }
      assert rest[..i + 1] == rest[..i] + [rest[i]];
    }
    FromSpaceAt(rest, end);
    return dsn[..idx] + (Key + Mask) + rest[end..];
  }

  // ---- URLs ----

  /** The user part up to its first colon. */
  function UpToColon(s: string): (r: string)
    ensures r <= s && ':' !in r
    ensures ':' !in s ==> r == s
    ensures ':' in s ==> |r| < |s| && s[|r|] == ':'
  {
    if s == "" || s[0] == ':' then "" else [s[0]] + UpToColon(s[1..])
  }

  /** What follows the last at sign. */
  function AfterAt(s: string): (r: string)
    ensures |r| <= |s| && '@' !in r
    ensures '@' !in s ==> r == s
    ensures '@' in s ==> |r| < |s|
  {
    if s == "" then "" else if '@' in s[1..] then AfterAt(s[1..]) else if s[0] == '@' then s[1..] else s
  }

  /** What precedes the last at sign. */
  function BeforeAt(s: string): string
    requires '@' in s
  {
    if '@' in s[1..] then [s[0]] + BeforeAt(s[1..]) else ""
  }

  lemma {:induction false} AtSplits(s: string)
    requires '@' in s
    ensures s == BeforeAt(s) + "@" + AfterAt(s)
  {
    assert s == [s[0]] + s[1..];
    if '@' in s[1..] { AtSplits(s[1..]); }
  }

  /** What a URL shows of what follows its scheme. */
  function Masked(body: string): string {
    if '@' in body && ':' in BeforeAt(body) then UpToColon(BeforeAt(body)) + Hidden + AfterAt(body) else body
  }

  lemma {:induction false} UpToColonAppend(a: string, b: string)
    ensures UpToColon(a + b) == if ':' in a then UpToColon(a) else a + UpToColon(b)
  {
    if a == "" {
      assert a + b == b;
    } else {
      assert (a + b)[0] == a[0] && (a + b)[1..] == a[1..] + b;
      if a[0] != ':' { UpToColonAppend(a[1..], b); }
    }
  }

  lemma Members(a: string, b: string, c: char)
    ensures c in a + b <==> c in a || c in b
  {
  }

  lemma {:induction false} AfterAtAppend(a: string, b: string)
    ensures AfterAt(a + b) == if '@' in b then AfterAt(b) else AfterAt(a) + b
  {
    if a == "" {
      assert a + b == b;
    } else {
      assert (a + b)[0] == a[0] && (a + b)[1..] == a[1..] + b;
      Members(a[1..], b, '@');
      AfterAtAppend(a[1..], b);
    }
  }

  lemma BeforeAtStep(c: char, s: string)
    requires '@' in s
    ensures '@' in [c] + s && BeforeAt([c] + s) == [c] + BeforeAt(s)
  {
    assert ([c] + s)[1..] == s;
  }

  lemma {:induction false} BeforeAtAppend(a: string, b: string)
    requires '@' in a || '@' in b
    ensures '@' in a + b && BeforeAt(a + b) == if '@' in b then a + BeforeAt(b) else BeforeAt(a)
  {
    Members(a, b, '@');
    if a == "" {
      assert a + b == b;
      if '@' in b { assert a + BeforeAt(b) == BeforeAt(b); }
    } else {
      var c, rest := a[0], a[1..];
      assert a == [c] + rest && a + b == [c] + (rest + b);
      Members(rest, b, '@');
      if '@' in rest || '@' in b {
        BeforeAtAppend(rest, b);
        BeforeAtStep(c, rest + b);
        if '@' in b { Assoc([c], rest, BeforeAt(b)); } else { BeforeAtStep(c, rest); }
      } else {
        assert (a + b)[1..] == rest + b;
      }
    }
  }

  lemma KnownScheme(scheme: string, dsn: string)
    requires (scheme == Short || scheme == Long) && scheme <= dsn
    ensures IsUrl(dsn) && First(dsn, Separator) == |scheme| - 3
    ensures forall j :: 0 <= j < |scheme| ==> dsn[j] != '@'
  {
    SchemeEnds(dsn);
    SchemeLength(scheme, dsn);
  }

  lemma SchemeLength(scheme: string, dsn: string)
    requires (scheme == Short || scheme == Long) && scheme <= dsn
    ensures (if Short <= dsn then 8 else 10) + 3 == |scheme|
  {
    if scheme == Long {
      assert dsn[8] == Long[8];
      assert Short[8] != Long[8];
    }
  }

  lemma RedactedParts(dsn: string, at: nat, scheme: string, info: string, user: string, tail: string)
    requires IsUrl(dsn) && First(dsn, Separator) == |scheme| - 3 && Last(dsn, "@") == at
    requires |scheme| <= at < |dsn| && dsn[..|scheme|] == scheme && dsn[|scheme|..at] == info && dsn[at + 1..] == tail
    requires First(info, ":") == |user| <= |info| && info[..|user|] == user
    ensures Redacted(dsn) == scheme + user + Hidden + tail
  {
    SchemeEnds(dsn);
  }

  lemma NoUserInfo(scheme: string, body: string)
    requires (scheme == Short || scheme == Long) && '@' !in body
    ensures Redacted(scheme + body) == scheme + body
  {
    var dsn := scheme + body;
    KnownScheme(scheme, dsn);
    forall j | 0 <= j < |dsn|
      ensures dsn[j] != '@'
    {
      if |scheme| <= j { assert dsn[j] == body[j - |scheme|]; }
    }
    NoChar(dsn, '@');
  }

  /** The last at sign of a URL is that of its body. */
  lemma LastAtSign(scheme: string, body: string)
    requires '@' in body
    ensures
      var dsn, at := scheme + body, |scheme| + |BeforeAt(body)|;
      at < |dsn| && Last(dsn, "@") == at && dsn[|scheme|..at] == BeforeAt(body) && dsn[at + 1..] == AfterAt(body)
  {
    AtSplits(body);
    LastAt(scheme, BeforeAt(body), AfterAt(body), body);
  }

  lemma LastAt(scheme: string, head: string, tail: string, body: string)
    requires body == head + "@" + tail && '@' !in tail
    ensures
      var dsn, at := scheme + body, |scheme| + |head|;
      at < |dsn| && Last(dsn, "@") == at && dsn[|scheme|..at] == head && dsn[at + 1..] == tail
  {
    var dsn, at := scheme + body, |scheme| + |head|;
    Slices(scheme, head, "@", tail, dsn);
    LastChar(dsn, '@', at);
  }

  lemma Slices(a: string, b: string, c: string, d: string, s: string)
    requires s == a + (b + c + d) && |c| == 1
    ensures var n := |a| + |b|; n < |s| && s[|a|..n] == b && s[n] == c[0] && s[n + 1..] == d
  {
  }

  /** A URL shows its scheme and the masked rest, on every input. */
  lemma UrlShowsBody(scheme: string, body: string)
    requires scheme == Short || scheme == Long
    ensures IsUrl(scheme + body) && Redacted(scheme + body) == scheme + Masked(body)
  {
    var dsn := scheme + body;
    KnownScheme(scheme, dsn);
    if '@' !in body {
      NoUserInfo(scheme, body);
    } else {
      var info := BeforeAt(body);
      LastAtSign(scheme, body);
      if ':' in info {
        UpToColonFirst(info);
        assert dsn[..|scheme|] == scheme;
        RedactedParts(dsn, |scheme| + |info|, scheme, info, UpToColon(info), AfterAt(body));
        Regroup3(scheme, UpToColon(info), Hidden, AfterAt(body));
      } else {
        NoChar(info, ':');
      }
    }
  }

  lemma UpToColonFirst(info: string)
    requires ':' in info
    ensures First(info, ":") == |UpToColon(info)| < |info| && info[..|UpToColon(info)|] == UpToColon(info)
  {
    FirstChar(info, ':', |UpToColon(info)|);
  }

  lemma Regroup3(a: string, b: string, c: string, d: string)
    ensures a + b + c + d == a + (b + c + d)
  {
  }

  // ---- A URL with credentials ----

  function Credentials(user: string, password: string, tail: string): string {
    user + ":" + password + "@" + tail
  }

  function Url(scheme: string, user: string, password: string, tail: string): string {
    scheme + Credentials(user, password, tail)
  }

  lemma CredentialsSplit(user: string, password: string, tail: string)
    ensures var body := Credentials(user, password, tail); '@' in body && AfterAt(body) == AfterAt(tail)
    ensures (user + ":") <= BeforeAt(Credentials(user, password, tail))
  {
    var head := user + ":" + password;
    var rest := "@" + tail;
    assert Credentials(user, password, tail) == head + rest;
    Members("@", tail, '@');
    AtAlone();
    AfterAtAppend("@", tail);
    BeforeAtAppend("@", tail);
    AfterAtAppend(head, rest);
    BeforeAtAppend(head, rest);
    Starts(user + ":", password, BeforeAt(rest));
  }

  lemma AtAlone()
    ensures '@' in "@" && AfterAt("@") == "" && BeforeAt("@") == ""
  {
  }

  lemma Starts(a: string, b: string, c: string)
    ensures a <= a + b + c
  {
  }

  /** A URL of the credentials' shape shows the user up to its first colon and
      what follows the last at sign, whatever the password is. */
  lemma UrlShows(scheme: string, user: string, password: string, tail: string)
    requires scheme == Short || scheme == Long
    ensures IsUrl(Url(scheme, user, password, tail))
    ensures Redacted(Url(scheme, user, password, tail)) == scheme + (UpToColon(user) + Hidden + AfterAt(tail))
  {
    var body := Credentials(user, password, tail);
    UrlShowsBody(scheme, body);
    CredentialsSplit(user, password, tail);
    ColonAfterUser(user, BeforeAt(body));
  }

  lemma ColonAfterUser(user: string, info: string)
    requires (user + ":") <= info
    ensures ':' in info && UpToColon(info) == UpToColon(user)
  {
    var rest := info[|user| + 1..];
    assert info == (user + ":") + rest;
    assert info[|user|] == ':';
    UpToColonAppend(user + ":", rest);
    UpToColonAppend(user, ":");
    assert (user + ":")[|user|] == ':';
    assert UpToColon(":") == "" && user + "" == user;
  }

  /** Two URLs that differ only in the password show the same, whatever at
      signs and colons the user, the password and the tail hold. */
  lemma UrlHidesPassword(scheme: string, user: string, password: string, other: string, tail: string)
    requires scheme == Short || scheme == Long
    ensures Redacted(Url(scheme, user, password, tail)) == Redacted(Url(scheme, user, other, tail))
  {
    UrlShows(scheme, user, password, tail);
    UrlShows(scheme, user, other, tail);
  }

  /** Everything but the password is kept exactly when the user part has no
      colon and the tail no at sign. */
  lemma UrlKeepsTheRestIff(scheme: string, user: string, password: string, tail: string)
    requires scheme == Short || scheme == Long
    ensures Redacted(Url(scheme, user, password, tail)) == Url(scheme, user, Mask, tail) <==> ':' !in user && '@' !in tail
  {
    UrlShows(scheme, user, password, tail);
    MaskedUrl(user, tail);
    assert |Url(scheme, user, Mask, tail)| == |scheme| + |user| + 5 + |tail|;
    assert |scheme + (UpToColon(user) + Hidden + AfterAt(tail))| == |scheme| + |UpToColon(user)| + 5 + |AfterAt(tail)|;
  }

  lemma MaskedUrl(user: string, tail: string)
    ensures Credentials(user, Mask, tail) == user + Hidden + tail
  {
    assert ":" + Mask + "@" == Hidden;
    assert Credentials(user, Mask, tail) == user + (":" + Mask + "@") + tail;
  }

  lemma UrlIdempotent(dsn: string)
    requires IsUrl(dsn)
    ensures Redacted(Redacted(dsn)) == Redacted(dsn)
  {
    var scheme := if Short <= dsn then Short else Long;
    var body := dsn[|scheme|..];
    assert dsn == scheme + body;
    UrlShowsBody(scheme, body);
    if '@' in body && ':' in BeforeAt(body) {
      var user, tail := UpToColon(BeforeAt(body)), AfterAt(body);
      MaskedUrl(user, tail);
      UrlShows(scheme, user, Mask, tail);
    }
  }

  // ---- A secret anywhere in a URL ----

  predicate Plain(secret: string) { '@' !in secret && ':' !in secret }

  /** What a URL shows before a secret that it does not hide. */
  function ShownBefore(pre: string, post: string): string {
    if '@' !in post && '@' in pre && ':' in BeforeAt(pre) then UpToColon(BeforeAt(pre)) + Hidden + AfterAt(pre) else pre
  }

  function ShownAfter(post: string): string {
    if '@' in post && ':' in BeforeAt(post) then UpToColon(BeforeAt(post)) + Hidden + AfterAt(post) else post
  }

  lemma MaskedHides(pre: string, secret: string, post: string)
    requires ':' in pre && '@' in post
    ensures Masked(pre + secret + post) == UpToColon(pre) + Hidden + AfterAt(post)
  {
    var head := pre + secret;
    AfterAtAppend(head, post);
    BeforeAtAppend(head, post);
    Assoc(pre, secret, BeforeAt(post));
    UpToColonAppend(pre, secret + BeforeAt(post));
    Members(pre, secret + BeforeAt(post), ':');
  }

  lemma MaskedShowsByPost(pre: string, secret: string, post: string)
    requires Plain(secret) && ':' !in pre && '@' in post
    ensures Masked(pre + secret + post) == pre + secret + ShownAfter(post)
  {
    var head := pre + secret;
    Members(pre, secret, ':');
    AfterAtAppend(head, post);
    BeforeAtAppend(head, post);
    Members(head, BeforeAt(post), ':');
    UpToColonAppend(head, BeforeAt(post));
    var u := UpToColon(BeforeAt(post));
    Regroup3(head, u, Hidden, AfterAt(post));
  }

  lemma MaskedShowsByPre(pre: string, secret: string, post: string)
    requires Plain(secret) && '@' !in post
    ensures Masked(pre + secret + post) == ShownBefore(pre, post) + secret + post
  {
    var tail := secret + post;
    Members(secret, post, '@');
    MaskedTail(pre, tail);
    Assoc(pre, secret, post);
    Assoc(ShownBefore(pre, post), secret, post);
  }

  lemma MaskedTail(pre: string, tail: string)
    requires '@' !in tail
    ensures Masked(pre + tail) == (if '@' in pre && ':' in BeforeAt(pre) then UpToColon(BeforeAt(pre)) + Hidden + AfterAt(pre) else pre) + tail
  {
    Members(pre, tail, '@');
    if '@' in pre {
      AfterAtAppend(pre, tail);
      BeforeAtAppend(pre, tail);
      Assoc(UpToColon(BeforeAt(pre)) + Hidden, AfterAt(pre), tail);
    }
  }

  lemma CancelMiddle(a: string, p: string, q: string, c: string)
    ensures a + p + c == a + q + c <==> p == q
  {
    if a + p + c == a + q + c {
      assert |p| == |q|;
      assert (a + p + c)[|a|..|a| + |p|] == p && (a + q + c)[|a|..|a| + |q|] == q;
    }
  }

  /** Any secret in a URL, not the user's password alone. With a colon before it
      and an at sign after it a secret is hidden, whatever it is; otherwise two
      different secrets without those signs are told apart by what is shown. */
  lemma UrlHidesSecretIff(scheme: string, pre: string, secret: string, other: string, post: string)
    requires scheme == Short || scheme == Long
    ensures ':' in pre && '@' in post ==> Redacted(scheme + (pre + secret + post)) == Redacted(scheme + (pre + other + post))
    ensures Plain(secret) && Plain(other) && secret != other ==>
              (Redacted(scheme + (pre + secret + post)) == Redacted(scheme + (pre + other + post)) <==> ':' in pre && '@' in post)
  {
    UrlShowsBody(scheme, pre + secret + post);
    UrlShowsBody(scheme, pre + other + post);
    CancelPrefix(scheme, Masked(pre + secret + post), Masked(pre + other + post));
    if ':' in pre && '@' in post {
      MaskedHides(pre, secret, post);
      MaskedHides(pre, other, post);
    } else if Plain(secret) && Plain(other) {
      if '@' in post {
        MaskedShowsByPost(pre, secret, post);
        MaskedShowsByPost(pre, other, post);
        CancelMiddle(pre, secret, other, ShownAfter(post));
      } else {
        MaskedShowsByPre(pre, secret, post);
        MaskedShowsByPre(pre, other, post);
        CancelMiddle(ShownBefore(pre, post), secret, other, post);
      }
    }
  }

  lemma CancelPrefix(a: string, p: string, q: string)
    ensures a + p == a + q <==> p == q
  {
    if a + p == a + q {
      assert (a + p)[|a|..] == p && (a + q)[|a|..] == q;
    }
  }

  /** A password among the parameters of a URL without user information, as libpq
      accepts it, is shown. */
  lemma UrlParameterIsShown(scheme: string, host: string, password: string)
    requires (scheme == Short || scheme == Long) && '@' !in host && '@' !in password
    ensures Redacted(scheme + (host + "?" + Key + password)) == scheme + (host + "?" + Key + password)
  {
    NoAtInKey();
    Members(host, "?", '@');
    Members(host + "?", Key, '@');
    Members(host + "?" + Key, password, '@');
    NoUserInfo(scheme, host + "?" + Key + password);
  }

  lemma NoAtInKey()
    ensures '@' !in Key && '@' !in "?"
  {
  }

  // ---- Key=value pairs ----

  /** What stands before an occurrence of the key, and the key itself, decide
      whether the whole is a URL. */
  lemma KeyDecidesUrl(pre: string, rest: string)
    ensures IsUrl(pre + Key + rest) == IsUrl(pre + Key)
  {
    var s, head := pre + Key + rest, pre + Key;
    assert s[..|head|] == head;
    if |pre| < 10 {
      assert s[|pre| + 1] == 'a' == head[|pre| + 1];
      NotUrl(s, |pre| + 1);
      NotUrl(head, |pre| + 1);
    } else {
      assert |Short| <= |head| && |Long| <= |head|;
      assert Short <= s <==> Short <= head;
      assert Long <= s <==> Long <= head;
    }
  }

  lemma NotUrl(s: string, i: nat)
    requires i < |Short| && i < |s| && s[i] == 'a'
    ensures !IsUrl(s)
  {
    assert Short[i] != 'a';
    assert Long[i] != 'a';
  }

  /** The key does not overlap itself: before a key in its place, an earlier
      occurrence lies wholly in what precedes it. */
  lemma FirstKey(pre: string, rest: string)
    requires First(pre, Key) == -1
    ensures First(pre + Key + rest, Key) == |pre|
  {
    var s := pre + Key + rest;
    assert s[|pre|..|pre| + |Key|] == Key;
    forall j | j < |pre|
      ensures !At(s, Key, j)
    {
      if At(s, Key, j) {
        KeyInside(pre, rest, j);
      }
    }
    FirstIs(s, Key, |pre|);
  }

  lemma KeyChars(s: string, i: nat, k: nat)
    requires At(s, Key, i) && k < |Key|
    ensures s[i + k] == 'p' <==> k == 0
  {
    assert s[i..i + |Key|][k] == s[i + k];
  }

  lemma KeyInside(pre: string, rest: string, j: int)
    requires j < |pre| && At(pre + Key + rest, Key, j)
    ensures At(pre, Key, j)
  {
    var s := pre + Key + rest;
    assert s[|pre|..|pre| + |Key|] == Key;
    KeyChars(s, |pre|, 0);
    KeyChars(s, j, if |pre| < j + |Key| then |pre| - j else 0);
    assert s[j..j + |Key|] == pre[j..j + |Key|];
  }

  lemma EarlierKey(pre: string, rest: string)
    requires 0 <= First(pre, Key)
    ensures First(pre + Key + rest, Key) == First(pre, Key)
  {
    var s, i := pre + Key + rest, First(pre, Key);
    assert s[i..i + |Key|] == pre[i..i + |Key|];
    forall j | j < i
      ensures !At(s, Key, j)
    {
      if At(s, Key, j) {
        KeyInside(pre, rest, j);
      }
    }
    FirstIs(s, Key, i);
  }

  /** The first key's value is masked up to its first space and no further. */
  lemma FirstValueMasked(pre: string, rest: string)
    requires !IsUrl(pre + Key) && First(pre, Key) == -1
    ensures Redacted(pre + Key + rest) == pre + (Key + Mask) + FromSpace(rest)
  {
    var s := pre + Key + rest;
    KeyDecidesUrl(pre, rest);
    FirstKey(pre, rest);
    assert s[..|pre|] == pre && s[|pre| + |Key|..] == rest;
  }

  lemma PairsIdempotent(dsn: string)
    requires !IsUrl(dsn)
    ensures Redacted(Redacted(dsn)) == Redacted(dsn)
  {
    var i := First(dsn, Key);
    if i >= 0 {
      var pre, rest := dsn[..i], dsn[i + |Key|..];
      NoEarlierKey(dsn, i);
      assert dsn == pre + Key + rest;
      KeyDecidesUrl(pre, rest);
      var kept := FromSpace(rest);
      assert pre + (Key + Mask) + kept == pre + Key + (Mask + kept);
      KeyDecidesUrl(pre, Mask + kept);
      FirstValueMasked(pre, Mask + kept);
      MaskStays(kept);
    }
  }

  lemma NoEarlierKey(dsn: string, i: nat)
    requires First(dsn, Key) == i
    ensures i + |Key| <= |dsn| && First(dsn[..i], Key) == -1
  {
    var pre := dsn[..i];
    forall j
      ensures !At(pre, Key, j)
    {
      if At(pre, Key, j) {
        assert pre[j..j + |Key|] == dsn[j..j + |Key|];
        assert At(dsn, Key, j);
      }
    }
    FirstIs(pre, Key, -1);
  }

  lemma MaskStays(kept: string)
    requires kept == "" || kept[0] == ' '
    ensures FromSpace(Mask + kept) == kept
  {
    var s := Mask + kept;
    assert s[..3] == Mask && s[3..] == kept;
    FromSpaceAt(s, 3);
  }

  /** Redacting twice is redacting once, on every input. */
  lemma RedactionIsIdempotent(dsn: string)
    ensures Redacted(Redacted(dsn)) == Redacted(dsn)
  {
    if IsUrl(dsn) { UrlIdempotent(dsn); } else { PairsIdempotent(dsn); }
  }

  /** An earlier occurrence of the key whose value ends before the password. */
  predicate Shadowed(pre: string) {
    var i := First(pre, Key);
    0 <= i && ' ' in pre[i + |Key|..]
  }

  predicate EndsValue(post: string) { post == "" || post[0] == ' ' }

  lemma FromSpaceSkips(word: string, s: string)
    requires ' ' !in word
    ensures FromSpace(word + s) == FromSpace(s)
  {
    if word == "" {
      assert word + s == s;
    } else {
      assert (word + s)[1..] == word[1..] + s;
      FromSpaceSkips(word[1..], s);
    }
  }

  lemma FromSpaceExtends(s: string, t: string)
    requires ' ' in s
    ensures FromSpace(s + t) == FromSpace(s) + t
  {
    if s[0] != ' ' {
      assert (s + t)[1..] == s[1..] + t;
      FromSpaceExtends(s[1..], t);
    }
  }

  lemma FromSpaceWhole(s: string)
    requires EndsValue(s)
    ensures FromSpace(s) == s
  {
  }

  /** Unless a key shadows it, of a value only what follows its first space is
      shown, and what stands before the first key. */
  lemma HiddenValue(pre: string, rest: string)
    requires !IsUrl(pre + Key) && !Shadowed(pre)
    ensures Redacted(pre + Key + rest) == (var i := First(pre, Key); if i < 0 then pre else pre[..i]) + (Key + Mask) + FromSpace(rest)
  {
    var i := First(pre, Key);
    if i < 0 {
      FirstValueMasked(pre, rest);
    } else {
      KeyDecidesUrl(pre, rest);
      EarlierKey(pre, rest);
      KeyHasNoSpace();
      var word := pre[i + |Key|..] + Key;
      Members(pre[i + |Key|..], Key, ' ');
      assert (pre + Key + rest)[i + |Key|..] == word + rest;
      assert (pre + Key + rest)[..i] == pre[..i];
      FromSpaceSkips(word, rest);
    }
  }

  lemma KeyHasNoSpace()
    ensures ' ' !in Key
  {
  }

  /** Behind a shadowing key, all that follows is shown. */
  lemma ShownRest(pre: string, rest: string)
    requires !IsUrl(pre + Key) && Shadowed(pre)
    ensures var i := First(pre, Key); Redacted(pre + Key + rest) == pre[..i] + (Key + Mask) + (FromSpace(pre[i + |Key|..]) + (Key + rest))
  {
    var i := First(pre, Key);
    KeyDecidesUrl(pre, rest);
    EarlierKey(pre, rest);
    var value := pre[i + |Key|..];
    assert (pre + Key + rest)[i + |Key|..] == value + (Key + rest);
    assert (pre + Key + rest)[..i] == pre[..i];
    FromSpaceExtends(value, Key + rest);
  }

  lemma Cancel(a: string, b: string, p: string, q: string)
    ensures a + (b + (Key + p)) == a + (b + (Key + q)) <==> p == q
  {
    assert a + (b + (Key + p)) == (a + b + Key) + p;
    assert a + (b + (Key + q)) == (a + b + Key) + q;
    CancelPrefix(a + b + Key, p, q);
  }

  /** Two key=value strings that differ only in a password, on every input. When
      an earlier key's value ends before it, they show the same only if they are
      the same; otherwise they show the same exactly when the two values agree
      from their first space on. */
  lemma PairsHidePasswordIff(pre: string, password: string, other: string, post: string)
    requires !IsUrl(pre + Key)
    ensures Redacted(pre + Key + (password + post)) == Redacted(pre + Key + (other + post))
       <==> (if Shadowed(pre) then password == other else FromSpace(password + post) == FromSpace(other + post))
  {
    var i := First(pre, Key);
    if Shadowed(pre) {
      ShownRest(pre, password + post);
      ShownRest(pre, other + post);
      Cancel(pre[..i] + (Key + Mask), FromSpace(pre[i + |Key|..]), password + post, other + post);
      CancelSuffix(password, other, post);
    } else {
      HiddenValue(pre, password + post);
      HiddenValue(pre, other + post);
      CancelPrefix((if i < 0 then pre else pre[..i]) + (Key + Mask), FromSpace(password + post), FromSpace(other + post));
    }
  }

  lemma CancelSuffix(p: string, q: string, c: string)
    ensures p + c == q + c <==> p == q
  {
    if p + c == q + c {
      assert |p| == |q|;
      assert (p + c)[..|p|] == p && (q + c)[..|q|] == q;
    }
  }

  /** So a password without spaces is hidden exactly when no key shadows it. */
  lemma SpacelessPasswordHiddenIff(pre: string, password: string, other: string, post: string)
    requires !IsUrl(pre + Key) && EndsValue(post)
    requires ' ' !in password && ' ' !in other && password != other
    ensures Redacted(pre + Key + (password + post)) == Redacted(pre + Key + (other + post)) <==> !Shadowed(pre)
  {
    PairsHidePasswordIff(pre, password, other, post);
    FromSpaceSkips(password, post);
    FromSpaceSkips(other, post);
  }

  /** A quoted password, which libpq lets hold spaces, is shown from its first
      space on. */
  lemma QuotedPasswordIsShown(pre: string, first: string, rest: string)
    requires !IsUrl(pre + Key) && First(pre, Key) == -1 && ' ' !in first
    ensures Redacted(pre + Key + ("'" + first + (" " + rest + "'"))) == pre + (Key + Mask) + (" " + rest + "'")
  {
    FirstValueMasked(pre, "'" + first + (" " + rest + "'"));
    FromSpaceSkips("'" + first, " " + rest + "'");
    FromSpaceWhole(" " + rest + "'");
  }

  lemma SslKeyShadows(ssl: string, value: string)
    requires |ssl| < |Key| && ' ' !in value
    ensures
      var pre := ssl + Key + (value + " ");
      First(pre, Key) == |ssl| && pre[..|ssl|] == ssl && FromSpace(pre[|ssl| + |Key|..]) == " " && Shadowed(pre)
  {
    var pre := ssl + Key + (value + " ");
    assert First(ssl, Key) == -1;
    FirstKey(ssl, value + " ");
    assert pre[|ssl| + |Key|..] == value + " ";
    FromSpaceSkips(value, " ");
  }

  lemma Regrouped(a: string, b: string, c: string, d: string, e: string)
    ensures a + (b + c) + (d + (b + e)) == (a + b + c + d) + b + e
  {
  }

  lemma NotUrlByHead(head: string, rest: string)
    requires head != "" && head[0] != 'p'
    ensures !IsUrl(head + rest)
  {
    assert (head + rest)[0] == head[0];
  }

  lemma SslPairIsNoUrl(head: string, value: string, space: string)
    requires head != "" && head[0] != 'p'
    ensures !IsUrl(head + Key + (value + space) + Key)
  {
    NotUrlByHead(head, Key + (value + space) + Key);
    assert head + Key + (value + space) + Key == head + (Key + (value + space) + Key);
  }

  lemma PasswordShownAfter(head: string, value: string, space: string, password: string)
    requires head != "" && head[0] != 'p' && |head| < |Key| && ' ' !in value && space == " "
    ensures Redacted(head + Key + (value + space) + Key + password) == head + Key + Mask + space + Key + password
  {
    SslKeyShadows(head, value);
    SslPairIsNoUrl(head, value, space);
    ShownRest(head + Key + (value + space), password);
    Regrouped(head, Key, Mask, space, password);
  }

  /** The key is also the end of libpq's sslpassword: set that first, and the
      password that follows is shown. */
  lemma PasswordShownAfterSslPassword(sslPassword: string, password: string)
    requires ' ' !in sslPassword
    ensures Redacted("ssl" + Key + (sslPassword + " ") + Key + password) == "ssl" + Key + Mask + " " + Key + password
  {
    PasswordShownAfter("ssl", sslPassword, " ", password);
  }
}
