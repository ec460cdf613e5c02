/** The ioctl range of an extended permission statement, as add_xperm_rule (jni/magiskpolicy/sepolicy.c) reads it
    with sscanf: "%hx-%hx" if the text has a `-`, else "%hx" for both ends.  What sscanf does not assign keeps
    whatever the uninitialised variables held. */
module RangeText {
  import opened Wrappers
  import opened Ioctl

  // ------------------------------------------------------------------ %hx

  predicate IsHex(c: char) { '0' <= c <= '9' || 'a' <= c <= 'f' || 'A' <= c <= 'F' }

  predicate IsSpace(c: char) { c in {' ', '\t', '\n', '\r'} || c as int == 11 || c as int == 12 }

  function HexValue(c: char): nat
    requires IsHex(c)
  {
    if c <= '9' then c as int - '0' as int
    else if c <= 'F' then c as int - 'A' as int + 10
    else c as int - 'a' as int + 10
  }

  predicate AllHex(s: string) { forall c :: c in s ==> IsHex(c) }

  /** The value of hexadecimal digits. */
  function Value(s: string): nat
    requires AllHex(s)
  {
    if s == "" then 0 else 16 * Value(s[..|s| - 1]) + HexValue(s[|s| - 1])
  }

  function DigitCount(s: string): (n: nat)
    ensures n <= |s| && AllHex(s[..n]) && (n < |s| ==> !IsHex(s[n]))
  {
    if s == "" || !IsHex(s[0]) then 0 else 1 + DigitCount(s[1..])
  }

  const LONGEST := 0x1_0000_0000_0000_0000

  /** strtoumax and the conversion to 16 bits: too large a number counts as the largest, a sign wraps it around. */
  function Half(v: nat, negative: bool): Code {
    var m := if v >= LONGEST then LONGEST - 1 else v;
    (if negative then LONGEST - m else m) % 0x1_0000
  }

  datatype Scanned = Scanned(value: Code, rest: string)

  function SkipSpace(s: string): string { if s != "" && IsSpace(s[0]) then SkipSpace(s[1..]) else s }

  predicate HasPrefix(s: string) { |s| > 2 && s[0] == '0' && s[1] in {'x', 'X'} && IsHex(s[2]) }

  /** The digits, with 0x in front of them or not. */
  function ScanDigits(s: string, negative: bool): Option<Scanned> {
    var t := if HasPrefix(s) then s[2..] else s;
    var n := DigitCount(t);
    if n == 0 then None else Some(Scanned(Half(Value(t[..n]), negative), t[n..]))
  }

  function ScanHex(text: string): Option<Scanned> {
    var s := SkipSpace(text);
    if s != "" && s[0] in {'+', '-'} then ScanDigits(s[1..], s[0] == '-') else ScanDigits(s, false)
  }

  // ------------------------------------------------------------------ the range

  /** Behind the first number: a `-` and the second number. */
  function ScanSecond(rest: string): Option<Scanned> {
    if rest != "" && rest[0] == '-' then ScanHex(rest[1..]) else None
  }

  function Decode(text: string, junk: Range): Range {
    var first := ScanHex(text);
    if '-' !in text then
      var low := if first.Some? then first.value.value else junk.low;
      Range(low, low)
    else if first.None? then junk
    else
      var second := ScanSecond(first.value.rest);
      Range(first.value.value, if second.Some? then second.value.value else junk.high)
  }

  /** Both ends can be read. */
  predicate Reads(text: string) {
    ScanHex(text).Some? && ('-' in text ==> ScanSecond(ScanHex(text).value.rest).Some?)
  }

  /** The range depends on the text alone if and only if both ends can be read. */
  lemma JunkMatters(text: string)
    ensures (forall a, b :: Decode(text, a) == Decode(text, b)) <==> Reads(text)
  {
    if !Reads(text) { assert Decode(text, Range(0, 0)) != Decode(text, Range(1, 1)); }
  }

  /** A text that does not read. */
  lemma JunkRange()
    ensures !Reads("ioctl")
  {
    assert SkipSpace("ioctl") == "ioctl";
  }

  // ------------------------------------------------------------------ well-formed ranges

  lemma {:induction false} DigitsAre(digits: string, rest: string)
    requires AllHex(digits) && (rest == "" || !IsHex(rest[0]))
    ensures DigitCount(digits + rest) == |digits|
  {
    if digits == "" {
      assert digits + rest == rest;
    } else {
      TailOfSum(digits, rest);
      assert digits[0] in digits && forall c :: c in digits[1..] ==> c in digits;
      DigitsAre(digits[1..], rest);
    }
  }

  /** Digits with or without 0x. */
  function Number(digits: string, prefixed: bool): string { if prefixed then "0x" + digits else digits }

  lemma DigitsScan(digits: string, rest: string)
    requires AllHex(digits) && digits != "" && (rest == "" || rest[0] == '-')
    ensures ScanDigits(digits + rest, false) == Some(Scanned(Half(Value(digits), false), rest))
  {
    var s := digits + rest;
    assert s[0] == digits[0] && digits[0] in digits;
    assert |digits| > 1 ==> s[1] == digits[1] && digits[1] in digits;
    assert !HasPrefix(s);
    DigitsAre(digits, rest);
    assert s[..|digits|] == digits && s[|digits|..] == rest;
  }

  lemma PrefixedScan(digits: string, rest: string)
    requires AllHex(digits) && digits != "" && (rest == "" || rest[0] == '-')
    ensures ScanDigits("0x" + (digits + rest), false) == Some(Scanned(Half(Value(digits), false), rest))
  {
    var t := digits + rest;
    var s := "0x" + t;
    assert t[0] == digits[0] && digits[0] in digits;
    SuffixOfSum("0x", t);
    assert s[0] == '0' && s[1] == 'x' && s[2] == t[0];
    DigitsAre(digits, rest);
    SuffixOfSum(digits, rest);
    assert t[..|digits|] == digits;
  }

  lemma NumberScans(digits: string, prefixed: bool, rest: string)
    requires AllHex(digits) && digits != "" && (rest == "" || rest[0] == '-')
    ensures ScanHex(Number(digits, prefixed) + rest) == Some(Scanned(Half(Value(digits), false), rest))
  {
    var s := Number(digits, prefixed) + rest;
    assert digits[0] in digits;
    assert s[0] == if prefixed then '0' else digits[0];
    assert SkipSpace(s) == s;
    if prefixed {
      Regrouped("0x", digits, rest);
      PrefixedScan(digits, rest);
    } else {
      DigitsScan(digits, rest);
    }
  }

  lemma NoDash(digits: string, prefixed: bool)
    requires AllHex(digits)
    ensures '-' !in Number(digits, prefixed)
  {}

  /** One number is both ends; two are the two ends; of each the low 16 bits count. */
  lemma RangeReads(a: string, b: string, pa: bool, pb: bool, junk: Range)
    requires AllHex(a) && a != "" && AllHex(b) && b != ""
    ensures Decode(Number(a, pa), junk) == Range(Half(Value(a), false), Half(Value(a), false))
    ensures Decode(Number(a, pa) + ("-" + Number(b, pb)), junk) == Range(Half(Value(a), false), Half(Value(b), false))
  {
    NoDash(a, pa);
    NumberScans(a, pa, "");
    assert Number(a, pa) + "" == Number(a, pa);
    var rest := "-" + Number(b, pb);
    NumberScans(a, pa, rest);
    NumberScans(b, pb, "");
    assert Number(b, pb) + "" == Number(b, pb) && rest[1..] == Number(b, pb);
    assert rest[0] == '-' && '-' in Number(a, pa) + rest;
  }

  // ------------------------------------------------------------------ printing

  function Digit(d: nat, upper: bool): char
    requires d < 16
  {
    if upper then "0123456789ABCDEF"[d] else "0123456789abcdef"[d]
  }

  function Hex(code: Code, upper: bool): string {
    [Digit(code / 16 / 16 / 16, upper), Digit(code / 16 / 16 % 16, upper), Digit(code / 16 % 16, upper),
     Digit(code % 16, upper)]
  }

  lemma DigitValue(d: nat, upper: bool)
    requires d < 16
    ensures IsHex(Digit(d, upper)) && HexValue(Digit(d, upper)) == d
  {}

  lemma ValueSnoc(s: string, c: char)
    requires AllHex(s) && IsHex(c)
    ensures AllHex(s + [c]) && Value(s + [c]) == 16 * Value(s) + HexValue(c)
  {
    assert (s + [c])[..|s|] == s;
  }

  lemma Digits(a: char, b: char, c: char, d: char)
    ensures [a] == "" + [a] && [a, b] == [a] + [b] && [a, b, c] == [a, b] + [c] && [a, b, c, d] == [a, b, c] + [d]
  {}

  lemma FourDigits(a: char, b: char, c: char, d: char)
    requires IsHex(a) && IsHex(b) && IsHex(c) && IsHex(d)
    ensures AllHex([a, b, c, d])
    ensures Value([a, b, c, d]) == 16 * (16 * (16 * HexValue(a) + HexValue(b)) + HexValue(c)) + HexValue(d)
  {
    Digits(a, b, c, d);
    ValueSnoc("", a);
    ValueSnoc([a], b);
    ValueSnoc([a, b], c);
    ValueSnoc([a, b, c], d);
  }

  lemma HexIsValue(code: Code, upper: bool)
    ensures AllHex(Hex(code, upper)) && Value(Hex(code, upper)) == code
  {
    var x := code / 16;
    var y := x / 16;
    DigitValue(y / 16, upper);
    DigitValue(y % 16, upper);
    DigitValue(x % 16, upper);
    DigitValue(code % 16, upper);
    FourDigits(Digit(y / 16, upper), Digit(y % 16, upper), Digit(x % 16, upper), Digit(code % 16, upper));
  }

  lemma HalfOfCode(code: Code)
    ensures Half(code, false) == code
  {}

  lemma RangeIsRead(a: string, b: string, prefixed: bool, r: Range, junk: Range)
    requires AllHex(a) && a != "" && AllHex(b) && b != "" && Value(a) == r.low && Value(b) == r.high
    ensures Decode(Number(a, prefixed) + ("-" + Number(b, prefixed)), junk) == r
  {
    RangeReads(a, b, prefixed, prefixed, junk);
    HalfOfCode(r.low);
    HalfOfCode(r.high);
  }

  /** Every range survives being written, in either case and with 0x or without, and read. */
  lemma RangeRoundTrip(r: Range, prefixed: bool, upper: bool, junk: Range)
    ensures Decode(Number(Hex(r.low, upper), prefixed) + ("-" + Number(Hex(r.high, upper), prefixed)), junk) == r
    ensures Decode(Number(Hex(r.low, upper), prefixed), junk) == Range(r.low, r.low)
  {
    HexIsValue(r.low, upper);
    HexIsValue(r.high, upper);
    RangeIsRead(Hex(r.low, upper), Hex(r.high, upper), prefixed, r, junk);
    RangeReads(Hex(r.low, upper), Hex(r.high, upper), prefixed, prefixed, junk);
    HalfOfCode(r.low);
  }

  lemma HalfNegative(v: nat)
    requires v <= 0xFFFF
    ensures Half(v, true) == (0x1_0000 - v) % 0x1_0000
  {}

  lemma SignScan(sign: char, s: string)
    requires sign == '+' || sign == '-'
    ensures ScanHex([sign] + s) == ScanDigits(s, sign == '-')
  {
    SuffixOfSum([sign], s);
    assert SkipSpace([sign] + s) == [sign] + s;
  }

  /** A minus sign wraps a number around, a plus sign does nothing. */
  lemma SignedScan(digits: string, rest: string)
    requires AllHex(digits) && digits != "" && (rest == "" || rest[0] == '-') && Value(digits) <= 0xFFFF
    ensures ScanHex(['-'] + (digits + rest)) == Some(Scanned((0x1_0000 - Value(digits)) % 0x1_0000, rest))
    ensures ScanHex(['+'] + (digits + rest)) == Some(Scanned(Value(digits), rest))
  {
    SignScan('-', digits + rest);
    SignScan('+', digits + rest);
    NegatedScan(digits, rest);
    DigitsScan(digits, rest);
    HalfNegative(Value(digits));
    HalfOfCode(Value(digits));
  }

  /** White space before a number does not matter. */
  lemma SpaceScan(space: char, s: string)
    requires IsSpace(space)
    ensures ScanHex([space] + s) == ScanHex(s)
  {
    SuffixOfSum([space], s);
    assert SkipSpace([space] + s) == SkipSpace(s);
  }

  lemma NegatedScan(digits: string, rest: string)
    requires AllHex(digits) && digits != "" && (rest == "" || rest[0] == '-')
    ensures ScanDigits(digits + rest, true) == Some(Scanned(Half(Value(digits), true), rest))
  {
    var s := digits + rest;
    assert s[0] == digits[0] && digits[0] in digits;
    assert |digits| > 1 ==> s[1] == digits[1] && digits[1] in digits;
    assert !HasPrefix(s);
    DigitsAre(digits, rest);
    SuffixOfSum(digits, rest);
    assert s[..|digits|] == digits;
  }
}
