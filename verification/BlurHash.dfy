/** The integer side of internal/blurhash/blurhash.go: base-83 packing of the
    size flag, the quantised maximum, the DC colour and the AC triples. The
    cosine sums and colour conversions are not modelled; what they round to
    enters as integers. */
module BlurHash {
  import opened Common
  import opened Division

  const Digits := "0123456789"
  const Upper := "ABCDEFGHIJKLMNOPQRSTUVWXYZ"
  const Lower := "abcdefghijklmnopqrstuvwxyz"
  const Marks := "#$%*+,-.:;=?@[]^_{|}~"

  const Base83 := Digits + Upper + Lower + Marks

  // ---- The alphabet ----

  /** The digit a character stands for: the decoder's own reading of the
      alphabet, by ranges and not by search. */
  function DigitOf(c: char): Option<nat> {
    if '0' <= c <= '9' then Some(c as int - '0' as int)
    else if 'A' <= c <= 'Z' then Some(c as int - 'A' as int + 10)
    else if 'a' <= c <= 'z' then Some(c as int - 'a' as int + 36)
    else
      match c
      case '#' => Some(62) case '$' => Some(63) case '%' => Some(64) case '*' => Some(65)
      case '+' => Some(66) case ',' => Some(67) case '-' => Some(68) case '.' => Some(69)
      case ':' => Some(70) case ';' => Some(71) case '=' => Some(72) case '?' => Some(73)
      case '@' => Some(74) case '[' => Some(75) case ']' => Some(76) case '^' => Some(77)
      case '_' => Some(78) case '{' => Some(79) case '|' => Some(80) case '}' => Some(81)
      case '~' => Some(82)
      case _ => None
  }

  function DigitChar(d: nat): (c: char)
    requires d < 83
    ensures DigitOf(c) == Some(d)
  {
    if d < 10 then ('0' as int + d) as char
    else if d < 36 then ('A' as int + d - 10) as char
    else if d < 62 then ('a' as int + d - 36) as char
    else MarkChar(d - 62)
  }

  function MarkChar(k: nat): (c: char)
    requires k < 21
    ensures DigitOf(c) == Some(62 + k)
  {
    Marks[k]
  }

  lemma DigitsAre(d: nat)
    requires d < 10
    ensures |Digits| == 10 && Digits[d] == DigitChar(d)
  {
  }

  lemma UpperAre(d: nat)
    requires d < 26
    ensures |Upper| == 26 && Upper[d] == DigitChar(10 + d)
  {
  }

  lemma LowerAre(d: nat)
    requires d < 26
    ensures |Lower| == 26 && Lower[d] == DigitChar(36 + d)
  {
  }

  /** The alphabet lists the characters of the digits in order. */
  lemma AlphabetReadsBack(d: nat)
    requires d < 83
    ensures |Base83| == 83 && Base83[d] == DigitChar(d) && DigitOf(Base83[d]) == Some(d)
  {
    assert |Marks| == 21;
    if d < 10 {
      DigitsAre(d);
    } else if d < 36 {
      UpperAre(d - 10);
    } else if d < 62 {
      LowerAre(d - 36);
    } else {
      assert Base83[d] == Marks[d - 62];
    }
  }

  // ---- Numbers in base 83 ----

  function Pow83Of(k: nat): (p: nat)
    ensures 1 <= p
  {
    if k == 0 then 1 else 83 * Pow83Of(k - 1)
  }

  method Pow83(exp: nat) returns (result: nat)
    ensures result == Pow83Of(exp)
  {
    result := 1;
    for i := 0 to exp
      invariant result == Pow83Of(i)
    {
      result := result * 83;
    }
  }

  /** The low `length` digits of a number, most significant first. */
  function Written(value: nat, length: nat): (s: string)
    ensures |s| == length
  {
    if length == 0 then "" else Written(value / 83, length - 1) + [DigitChar(value % 83)]
  }

  function Read(s: string): Option<nat> {
    if s == [] then Some(0)
    else
      match (Read(s[..|s| - 1]), DigitOf(s[|s| - 1]))
      case (Some(n), Some(d)) => Some(83 * n + d)
      case _ => None
  }

  lemma ReadLast(front: string, c: char, n: nat, d: nat)
    requires Read(front) == Some(n) && DigitOf(c) == Some(d)
    ensures Read(front + [c]) == Some(83 * n + d)
  {
    var s := front + [c];
    assert s[..|s| - 1] == front && s[|s| - 1] == c;
  }

  /** What is written reads back, up to the digits that do not fit. */
  lemma {:induction false} WrittenReadsBack(value: nat, length: nat)
    ensures Read(Written(value, length)) == Some(value % Pow83Of(length))
    decreases length
  {
    if length > 0 {
      var high, low := value / 83, value % 83;
      WrittenReadsBack(high, length - 1);
      ReadLast(Written(high, length - 1), DigitChar(low), high % Pow83Of(length - 1), low);
      ModStep(value, length);
    }
  }

  lemma ModStep(value: nat, length: nat)
    requires 0 < length
    ensures value % Pow83Of(length) == 83 * (value / 83 % Pow83Of(length - 1)) + value % 83
  {
    var p := Pow83Of(length - 1);
    var q, r := value / 83 / p, value / 83 % p;
    assert value / 83 == q * p + r;
    assert value == q * (83 * p) + (83 * r + value % 83);
    DivIs(value, 83 * p, q, 83 * r + value % 83);
  }

  lemma {:induction false} WrittenDigit(value: nat, length: nat, i: nat)
    requires i < length
    ensures Written(value, length)[i] == DigitChar(value / Pow83Of(length - 1 - i) % 83)
    decreases length
  {
    if i < length - 1 {
      WrittenDigit(value / 83, length - 1, i);
      DivDiv(value, 83, Pow83Of(length - 2 - i));
    }
  }

  lemma PrefixGrows(a: string, b: string, i: nat)
    requires i < |a| && i < |b| && a[..i] == b[..i] && a[i] == b[i]
    ensures a[..i + 1] == b[..i + 1]
  {
    assert a[..i + 1] == a[..i] + [a[i]] && b[..i + 1] == b[..i] + [b[i]];
  }

  method EncodeBase83(value: nat, length: nat) returns (s: string)
    ensures s == Written(value, length)
  {
    ghost var goal := Written(value, length);
    var result := new char[length];
    for i := 1 to length + 1
      invariant result[..][..i - 1] == goal[..i - 1]
    {
      var p := Pow83(length - i);
      var digit := value / p % 83;
      WrittenDigit(value, length, i - 1);
      ghost var before := result[..];
      AlphabetReadsBack(digit);
      result[i - 1] := Base83[digit];
      assert result[..][..i - 1] == before[..i - 1];
      PrefixGrows(result[..], goal, i - 1);
    }
    assert result[..][..length] == result[..] && goal[..length] == goal;
    return result[..];
  }

  // ---- Packing ----

  function Clamp(v: int, lo: int, hi: int): (r: int)
    requires lo <= hi
    ensures lo <= r <= hi && (lo <= v <= hi ==> r == v) && (v < lo ==> r == lo) && (hi < v ==> r == hi)
  {
    if v < lo then lo else if v > hi then hi else v
  }

  datatype Rgb = Rgb(r: int, g: int, b: int)

  function Clamped(c: Rgb, hi: nat): Rgb {
    Rgb(Clamp(c.r, 0, hi), Clamp(c.g, 0, hi), Clamp(c.b, 0, hi))
  }

  function PackDc(c: Rgb): nat {
    var k := Clamped(c, 255);
    k.r * 65536 + k.g * 256 + k.b
  }

  function UnpackDc(n: nat): Rgb { Rgb(n / 65536, n / 256 % 256, n % 256) }

  function PackAc(c: Rgb): nat {
    var k := Clamped(c, 18);
    k.r * 19 * 19 + k.g * 19 + k.b
  }

  function UnpackAc(n: nat): Rgb { Rgb(n / 361, n / 19 % 19, n % 19) }

  lemma Powers()
    ensures Pow83Of(1) == 83 && Pow83Of(2) == 6889 && Pow83Of(4) == 47458321
  {
    assert Pow83Of(2) == 83 * Pow83Of(1) && Pow83Of(3) == 83 * Pow83Of(2) && Pow83Of(4) == 83 * Pow83Of(3);
  }

  lemma DcUnpacks(r: nat, g: nat, b: nat)
    requires r <= 255 && g <= 255 && b <= 255
    ensures var n := r * 65536 + g * 256 + b; n <= 16777215 && UnpackDc(n) == Rgb(r, g, b)
  {
    var n := r * 65536 + g * 256 + b;
    DivIs(n, 256, r * 256 + g, b);
    DivIs(r * 256 + g, 256, r, g);
    DivIs(n, 65536, r, g * 256 + b);
  }

  lemma AcUnpacks(r: nat, g: nat, b: nat)
    requires r <= 18 && g <= 18 && b <= 18
    ensures var n := r * 19 * 19 + g * 19 + b; n <= 6858 && UnpackAc(n) == Rgb(r, g, b)
  {
    var n := r * 361 + g * 19 + b;
    DivIs(n, 19, r * 19 + g, b);
    DivIs(r * 19 + g, 19, r, g);
    DivIs(n, 361, r, g * 19 + b);
  }

  /** Every packed value fits its field and unpacks to the clamped components. */
  lemma PackedValuesFit(c: Rgb)
    ensures PackDc(c) < Pow83Of(4) && UnpackDc(PackDc(c)) == Clamped(c, 255)
    ensures PackAc(c) < Pow83Of(2) && UnpackAc(PackAc(c)) == Clamped(c, 18)
  {
    Powers();
    var d, a := Clamped(c, 255), Clamped(c, 18);
    DcUnpacks(d.r, d.g, d.b);
    AcUnpacks(a.r, a.g, a.b);
  }

  /** The sizes one digit can carry. */
  predicate SizeFits(x: nat, y: nat)
    requires 1 <= x && 1 <= y
  {
    x <= 9 && SizeFlag(x, y) < 83
  }

  /** The digit of the size flag gives the size back for the sizes that fit, up
      to nine components each way among them, and for no other. */
  lemma SizeReadsBackIff(x: nat, y: nat)
    requires 1 <= x && 1 <= y
    ensures var n := SizeFlag(x, y) % 83; Read(Written(SizeFlag(x, y), 1)) == Some(n) && (n % 9 + 1 == x && n / 9 + 1 == y <==> SizeFits(x, y))
    ensures x <= 9 && y <= 9 ==> SizeFits(x, y)
  {
    Powers();
    WrittenReadsBack(SizeFlag(x, y), 1);
    if SizeFits(x, y) {
      ModSmall(SizeFlag(x, y), 83);
      DivIs(SizeFlag(x, y), 9, y - 1, x - 1);
    }
  }

  function SizeFlag(x: nat, y: nat): (n: nat)
    requires 1 <= x && 1 <= y
  {
    (x - 1) + (y - 1) * 9
  }

  /** No component deviates, or the largest deviation rounded down to an integer. */
  function QuantisedMaximum(raw: Option<int>): (q: nat)
    ensures q <= 82
  {
    if raw.None? then 0 else Clamp(raw.value, 0, 82)
  }

  // ---- The whole hash ----

  function AcText(acs: seq<Rgb>): (s: string)
    ensures |s| == 2 * |acs|
  {
    if acs == [] then "" else AcText(acs[..|acs| - 1]) + Written(PackAc(acs[|acs| - 1]), 2)
  }

  lemma AcTextMore(acs: seq<Rgb>, i: nat)
    requires i < |acs|
    ensures AcText(acs[..i + 1]) == AcText(acs[..i]) + Written(PackAc(acs[i]), 2)
  {
    assert acs[..i + 1][..i] == acs[..i];
  }

  function HashText(x: nat, y: nat, rawMaximum: Option<int>, dc: Rgb, acs: seq<Rgb>): string
    requires 1 <= x && 1 <= y
  {
    Written(SizeFlag(x, y), 1) + Written(QuantisedMaximum(rawMaximum), 1) + Written(PackDc(dc), 4) + AcText(acs)
  }

  /** The AC fields, after the text so far. */
  method EncodeAcs(head: string, acs: seq<Rgb>) returns (hash: string)
    ensures hash == head + AcText(acs)
  {
    hash := head;
    assert acs[..0] == [] && head + "" == head;
    for i := 0 to |acs|
      invariant hash == head + AcText(acs[..i])
    {
      AcTextMore(acs, i);
      var part := EncodeBase83(PackAc(acs[i]), 2);
      Assoc(head, AcText(acs[..i]), part);
      hash := hash + part;
    }
    assert acs[..|acs|] == acs;
  }

  /** The quantised components, the DC one first, in the order Encode writes. */
  method Encode(x: nat, y: nat, rawMaximum: Option<int>, dc: Rgb, acs: seq<Rgb>) returns (hash: string)
    requires 1 <= x && 1 <= y
    ensures hash == HashText(x, y, rawMaximum, dc, acs)
  {
    var sizeFlag: nat := (x - 1) + (y - 1) * 9;
    assert sizeFlag == SizeFlag(x, y);
    hash := EncodeBase83(sizeFlag, 1);
    var quantisedMaximumValue: nat := 0;
    if rawMaximum.Some? {
      quantisedMaximumValue := Clamp(rawMaximum.value, 0, 82);
    }
    assert quantisedMaximumValue == QuantisedMaximum(rawMaximum);
    var part := EncodeBase83(quantisedMaximumValue, 1);
    hash := hash + part;
    part := EncodeBase83(PackDc(dc), 4);
    hash := hash + part;
    hash := EncodeAcs(hash, acs);
  }

  // ---- A reference decoder ----

  datatype Hash = Hash(x: nat, y: nat, maximum: nat, dc: Rgb, acs: seq<Rgb>)

  function ReadAcs(s: string): Option<seq<Rgb>> {
    if s == [] then Some([])
    else if |s| == 1 then None
    else
      match (ReadAcs(s[..|s| - 2]), Read(s[|s| - 2..]))
      case (Some(acs), Some(n)) => Some(acs + [UnpackAc(n)])
      case _ => None
  }

  function Sized(flag: nat, maximum: nat, dc: nat, acs: seq<Rgb>, size: nat): Option<Hash> {
    var x, y := flag % 9 + 1, flag / 9 + 1;
    if size == 4 + 2 * x * y then Some(Hash(x, y, maximum, UnpackDc(dc), acs)) else None
  }

  function Decode(s: string): Option<Hash> {
    if |s| < 6 then None
    else
      match (Read(s[..1]), Read(s[1..2]), Read(s[2..6]), ReadAcs(s[6..]))
      case (Some(flag), Some(maximum), Some(dc), Some(acs)) =>
        Sized(flag, maximum, dc, acs, |s|)
      case _ => None
  }

  function ClampedAll(acs: seq<Rgb>): seq<Rgb> {
    seq(|acs|, i requires 0 <= i < |acs| => Clamped(acs[i], 18))
  }

  lemma ReadAcsAppend(s: string, t: string, acs: seq<Rgb>, n: nat)
    requires |t| == 2 && ReadAcs(s) == Some(acs) && Read(t) == Some(n)
    ensures ReadAcs(s + t) == Some(acs + [UnpackAc(n)])
  {
    var all := s + t;
    assert all[..|all| - 2] == s && all[|all| - 2..] == t;
  }

  /** One triple more: its two digits go on, and its clamped value comes back. */
  lemma AcsReadOneMore(before: seq<Rgb>, last: Rgb)
    requires ReadAcs(AcText(before)) == Some(ClampedAll(before))
    ensures ReadAcs(AcText(before) + Written(PackAc(last), 2)) == Some(ClampedAll(before) + [Clamped(last, 18)])
  {
    PackedValuesFit(last);
    FieldReadsBack(PackAc(last), 2);
    ReadAcsAppend(AcText(before), Written(PackAc(last), 2), ClampedAll(before), PackAc(last));
  }

  lemma AcTextSplits(acs: seq<Rgb>)
    requires acs != []
    ensures AcText(acs) == AcText(acs[..|acs| - 1]) + Written(PackAc(acs[|acs| - 1]), 2)
  {
  }

  lemma ClampedAllSplits(acs: seq<Rgb>)
    requires acs != []
    ensures ClampedAll(acs) == ClampedAll(acs[..|acs| - 1]) + [Clamped(acs[|acs| - 1], 18)]
  {
  }

  lemma NothingReadsBack()
    ensures ReadAcs(AcText([])) == Some(ClampedAll([]))
  {
    assert ClampedAll([]) == [];
  }

  /** The AC digits read back as the clamped triples, all of them and in order. */
  lemma {:induction false} AcsReadBack(acs: seq<Rgb>)
    ensures ReadAcs(AcText(acs)) == Some(ClampedAll(acs))
  {
    if acs == [] {
      NothingReadsBack();
    } else {
      var before, last := acs[..|acs| - 1], acs[|acs| - 1];
      AcsReadBack(before);
      AcsReadOneMore(before, last);
      AcTextSplits(acs);
      ClampedAllSplits(acs);
    }
  }

  lemma ModSmall(n: nat, d: nat)
    requires n < d
    ensures n % d == n
  {
    DivIs(n, d, 0, n);
  }

  lemma HeadParts(a: string, b: string, c: string, d: string)
    requires |a| == 1 && |b| == 1 && |c| == 4
    ensures var s := a + b + c + d; s[..1] == a && s[1..2] == b && s[2..6] == c && s[6..] == d
  {
  }

  lemma FieldReadsBack(value: nat, length: nat)
    requires value < Pow83Of(length)
    ensures Read(Written(value, length)) == Some(value)
  {
    WrittenReadsBack(value, length);
    ModSmall(value, Pow83Of(length));
  }

  /** For every size that fits, the hash has 4 + 2xy characters and decodes to
      exactly the size, the quantised maximum, the DC colour and every AC triple
      that went in. For other sizes the decoder does not get them back. */
  lemma HashDecodesIff(x: nat, y: nat, rawMaximum: Option<int>, dc: Rgb, acs: seq<Rgb>)
    requires 1 <= x && 1 <= y && |acs| == x * y - 1
    ensures |HashText(x, y, rawMaximum, dc, acs)| == 4 + 2 * x * y
    ensures Decode(HashText(x, y, rawMaximum, dc, acs))
         == Some(Hash(x, y, QuantisedMaximum(rawMaximum), Clamped(dc, 255), ClampedAll(acs)))
       <==> SizeFits(x, y)
  {
    SizeReadsBackIff(x, y);
    HashReads(x, y, rawMaximum, dc, acs);
    PackedValuesFit(dc);
    Twice(x, y);
    SizedIff(x, y, SizeFlag(x, y) % 83, QuantisedMaximum(rawMaximum), PackDc(dc), ClampedAll(acs));
  }

  lemma HashReads(x: nat, y: nat, rawMaximum: Option<int>, dc: Rgb, acs: seq<Rgb>)
    requires 1 <= x && 1 <= y
    ensures Decode(HashText(x, y, rawMaximum, dc, acs))
         == Sized(SizeFlag(x, y) % 83, QuantisedMaximum(rawMaximum), PackDc(dc), ClampedAll(acs), 6 + 2 * |acs|)
  {
    SizeReadsBackIff(x, y);
    MaximumReadsBack(rawMaximum);
    PackedValuesFit(dc);
    FieldReadsBack(PackDc(dc), 4);
    AcsReadBack(acs);
    DecodesParts(Written(SizeFlag(x, y), 1), Written(QuantisedMaximum(rawMaximum), 1), Written(PackDc(dc), 4), AcText(acs),
      SizeFlag(x, y) % 83, QuantisedMaximum(rawMaximum), PackDc(dc), ClampedAll(acs));
  }

  lemma MaximumReadsBack(rawMaximum: Option<int>)
    ensures Read(Written(QuantisedMaximum(rawMaximum), 1)) == Some(QuantisedMaximum(rawMaximum))
  {
    Powers();
    FieldReadsBack(QuantisedMaximum(rawMaximum), 1);
  }

  lemma SizedIff(x: nat, y: nat, flag: nat, maximum: nat, dc: nat, acs: seq<Rgb>)
    ensures Sized(flag, maximum, dc, acs, 4 + 2 * x * y) == Some(Hash(x, y, maximum, UnpackDc(dc), acs))
       <==> flag % 9 + 1 == x && flag / 9 + 1 == y
  {
  }

  lemma Twice(x: nat, y: nat)
    requires 1 <= x && 1 <= y
    ensures 2 * x * y == 2 * (x * y) && 1 <= x * y
  {
  }

  lemma DecodesParts(a: string, b: string, c: string, d: string, flag: nat, maximum: nat, dc: nat, acs: seq<Rgb>)
    requires |a| == 1 && |b| == 1 && |c| == 4
    requires Read(a) == Some(flag) && Read(b) == Some(maximum) && Read(c) == Some(dc) && ReadAcs(d) == Some(acs)
    ensures Decode(a + b + c + d) == Sized(flag, maximum, dc, acs, 6 + |d|)
  {
    HeadParts(a, b, c, d);
    DecodesFields(a + b + c + d, flag, maximum, dc, acs);
  }

  lemma DecodesFields(s: string, flag: nat, maximum: nat, dc: nat, acs: seq<Rgb>)
    requires |s| >= 6
    requires Read(s[..1]) == Some(flag) && Read(s[1..2]) == Some(maximum) && Read(s[2..6]) == Some(dc) && ReadAcs(s[6..]) == Some(acs)
    ensures Decode(s) == Sized(flag, maximum, dc, acs, |s|)
  {
  }

  // ---- Downsampling ----

  /** The source column (or row) sampled for the i-th of `to` target ones. */
  function Sampled(min: int, size: nat, to: nat, i: nat): int
    requires 0 < to
  {
    min + i * size / to
  }

  /** Sampling stays inside a non-empty image and never goes backwards. */
  lemma SamplingInBounds(min: int, size: nat, to: nat, i: nat, j: nat)
    requires 0 < size && i <= j < to
    ensures min <= Sampled(min, size, to, i) <= Sampled(min, size, to, j) < min + size
  {
    Times(i, j, size);
    DivMono(i * size, j * size, to);
    Times(j + 1, to, size);
    assert (j + 1) * size == j * size + size && to * size == size * to;
    DivBelow(j * size, size, to);
  }

  /** The sampled pixel is the one under the target pixel's near corner when both
      images are laid over each other; an image of the same size is copied. */
  lemma SampledIsUnder(min: int, size: nat, to: nat, i: nat)
    requires i < to
    ensures var k := Sampled(min, size, to, i) - min; k * to <= i * size < (k + 1) * to
    ensures size == to ==> Sampled(min, size, to, i) == min + i
  {
    var k := i * size / to;
    assert i * size == to * k + (i * size) % to;
    assert (k + 1) * to == k * to + to;
    Times(i, i, size);
    if size == to { DivIs(i * size, to, i, 0); }
  }

  method Downsample<Color(0)>(pixel: (int, int) -> Color, minX: int, minY: int, srcW: nat, srcH: nat, dstW: nat, dstH: nat)
    returns (dst: array2<Color>)
    requires 0 < dstW && 0 < dstH
    ensures dst.Length0 == dstW && dst.Length1 == dstH
    ensures forall x, y :: 0 <= x < dstW && 0 <= y < dstH ==> dst[x, y] == pixel(Sampled(minX, srcW, dstW, x), Sampled(minY, srcH, dstH, y))
  {
    dst := new Color[dstW, dstH];
    for y := 0 to dstH
      invariant forall x, k :: 0 <= x < dstW && 0 <= k < y ==> dst[x, k] == pixel(Sampled(minX, srcW, dstW, x), Sampled(minY, srcH, dstH, k))
    {
      var srcY := minY + y * srcH / dstH;
      for x := 0 to dstW
        invariant forall k, l :: 0 <= k < dstW && 0 <= l < y ==> dst[k, l] == pixel(Sampled(minX, srcW, dstW, k), Sampled(minY, srcH, dstH, l))
        invariant forall k :: 0 <= k < x ==> dst[k, y] == pixel(Sampled(minX, srcW, dstW, k), srcY)
      {
        var srcX := minX + x * srcW / dstW;
        dst[x, y] := pixel(srcX, srcY);
      }
    }
  }
}
