/**
 runs/demo-greenfield/workspace/app/validation.py, parse_relaxed_ipv4: IPv4 literals
 of one to four parts, each decimal, octal or hexadecimal. Hosts are ASCII.

 Splitting, joining, case and leading zeros are followed character by character;
 shifts and ors are related to sums through the low bits that are still free.
 Printing goes the other way, in every form the decoder accepts.
 */
module RelaxedIpv4 {
  import opened Prelude

  // ---- Tokens ------------------------------------------------------------------------

  function LowerChar(c: char): char {
    if 'A' <= c <= 'Z' then c - 'A' + 'a' else c
  }

  function Lower(s: string): (r: string)
    ensures |r| == |s|
    ensures forall i :: 0 <= i < |s| ==> r[i] == LowerChar(s[i])
  {
    if s == "" then "" else Lower(s[..|s| - 1]) + [LowerChar(s[|s| - 1])]
  }

  datatype Base = Eight | Ten | Sixteen {
    function Size(): nat {
      match this
      case Eight => 8
      case Ten => 10
      case Sixteen => 16
    }

    function Times(v: nat): nat {
      match this
      case Eight => v * 8
      case Ten => v * 10
      case Sixteen => v * 16
    }

    function Quotient(v: nat): nat {
      match this
      case Eight => v / 8
      case Ten => v / 10
      case Sixteen => v / 16
    }

    function Remainder(v: nat): nat {
      match this
      case Eight => v % 8
      case Ten => v % 10
      case Sixteen => v % 16
    }
  }

  /** The value of a digit of a base, or the size of the base if it is not one. */
  function DigitOf(c: char, base: Base): (d: nat)
    ensures d <= base.Size()
  {
    var d := if '0' <= c <= '9' then c as int - '0' as int
             else if 'a' <= c <= 'f' then c as int - 'a' as int + 10
             else base.Size();
    if d < base.Size() then d else base.Size()
  }

  predicate AllDigits(s: string, base: Base) {
    forall i :: 0 <= i < |s| ==> DigitOf(s[i], base) < base.Size()
  }

  function Value(digits: string, base: Base): nat {
    if digits == "" then 0
    else base.Times(Value(digits[..|digits| - 1], base)) + DigitOf(digits[|digits| - 1], base)
  }

  const MAX_WORD := 0xFFFF_FFFF

  /** _parse_int_token */
  function ParseToken(token: string): Option<nat> {
    if token == "" then None else ParseLowered(Lower(token))
  }

  function ParseLowered(lowered: string): Option<nat> {
    if |lowered| >= 2 && lowered[..2] == "0x" then
      if |lowered| == 2 then None else ParseDigits(lowered[2..], Sixteen)
    else if |lowered| > 1 && lowered[0] == '0' then ParseDigits(lowered[1..], Eight)
    else ParseDigits(lowered, Ten)
  }

  function ParseDigits(digits: string, base: Base): Option<nat> {
    if !AllDigits(digits, base) || Value(digits, base) > MAX_WORD then None else Some(Value(digits, base))
  }

  // ---- Splitting ----------------------------------------------------------------------

  function StripDots(s: string): string {
    if s != "" && s[|s| - 1] == '.' then StripDots(s[..|s| - 1]) else s
  }

  // The last part made longer.
  function GrowLast(parts: seq<string>, t: string): (r: seq<string>)
    requires parts != []
    ensures |r| == |parts|
  {
    parts[..|parts| - 1] + [parts[|parts| - 1] + t]
  }

  function Split(s: string): (parts: seq<string>)
    ensures parts != []
  {
    if s == "" then [""]
    else
      var before, c := Split(s[..|s| - 1]), s[|s| - 1];
      if c == '.' then before + [""] else GrowLast(before, [c])
  }

  // ---- Decoding -----------------------------------------------------------------------

  function ParseAll(parts: seq<string>): (values: Option<seq<nat>>)
    ensures values.Some? ==> |values.value| == |parts|
  {
    if parts == [] then Some([])
    else
      var n := |parts| - 1;
      match ParseAll(parts[..n])
      case None => None
      case Some(before) =>
        match ParseToken(parts[n])
        case None => None
        case Some(v) => Some(before + [v])
  }

  // What a unit in part i counts for, unless it is the last part.
  function Weight(i: nat): nat {
    if i == 0 then 0x100_0000 else if i == 1 then 0x1_0000 else if i == 2 then 0x100 else 1
  }

  /** How many values the last of `count` parts can take. */
  function Room(count: nat): nat {
    if count <= 1 then 0x1_0000_0000 else Weight(count - 2)
  }

  /** The first n parts, each at its place. */
  function Leading(values: seq<nat>, n: nat): nat
    requires n <= |values|
  {
    if n == 0 then 0 else Leading(values, n - 1) + values[n - 1] * Weight(n - 1)
  }

  predicate Fits(values: seq<nat>) {
    && 1 <= |values| <= 4
    && (forall i :: 0 <= i < |values| - 1 ==> values[i] <= 0xFF)
    && values[|values| - 1] < Room(|values|)
  }

  /** The positional sum of a literal's parts: the last part fills all the bytes that are left. */
  function Positional(values: seq<nat>): nat
    requires values != []
  {
    Leading(values, |values| - 1) + values[|values| - 1]
  }

  /** The address a host stands for. */
  function Decode(host: string): Option<nat> {
    var candidate := StripDots(host);
    if candidate == "" then None
    else match ParseAll(Split(candidate))
      case None => None
      case Some(values) => if Fits(values) then Some(Positional(values)) else None
  }

  // ---- Bitwise or ------------------------------------------------------------------------

  function BitOr(a: nat, b: nat): nat {
    if a == 0 then b else if b == 0 then a
    else BitOr(a / 2, b / 2) * 2 + if a % 2 == 1 || b % 2 == 1 then 1 else 0
  }

  function Pow2(k: nat): nat {
    if k == 0 then 1 else 2 * Pow2(k - 1)
  }

  /** The lowest k bits of a are zero. */
  predicate FreeBits(a: nat, k: nat) {
    k == 0 || (a % 2 == 0 && FreeBits(a / 2, k - 1))
  }

  /** Or-ing a number into zero bits below another adds it. */
  lemma {:induction false} OrFillsZeros(k: nat, a: nat, b: nat)
    requires FreeBits(a, k) && b < Pow2(k)
    ensures BitOr(a, b) == a + b
  {
    if k > 0 {
      OrFillsZeros(k - 1, a / 2, b / 2);
    }
  }

  lemma {:induction false} ShiftedFree(q: nat, k: nat)
    ensures FreeBits(q * Pow2(k), k)
  {
    if k > 0 {
      var half := q * Pow2(k - 1);
      ShiftedFree(q, k - 1);
      assert q * Pow2(k) == half * 2;
      HalfOf(half, k);
    }
  }

  lemma HalfOf(half: nat, k: nat)
    requires k > 0 && FreeBits(half, k - 1)
    ensures FreeBits(half * 2, k)
  {
    assert half * 2 / 2 == half;
  }

  lemma Bytes()
    ensures Pow2(8) == 0x100 && Pow2(16) == 0x1_0000 && Pow2(24) == 0x100_0000 && Pow2(32) == 0x1_0000_0000
  {
    assert Pow2(4) == 16 && Pow2(8) == 256;
    assert Pow2(12) == 4096 && Pow2(16) == 65536;
    assert Pow2(20) == 1048576 && Pow2(24) == 16777216;
    assert Pow2(28) == 268435456;
  }

  // The shifts of the loop: one to the left by 8 * (3 - i) bits multiplies by the weight.
  lemma ShiftIsWeight(i: nat)
    requires i < 4
    ensures Pow2(8 * (3 - i)) == Weight(i)
    ensures Pow2(8 * (4 - i)) == 256 * Weight(i)
  {
    Bytes();
    assert 8 * (3 - i) == if i == 0 then 24 else if i == 1 then 16 else if i == 2 then 8 else 0;
    assert 8 * (4 - i) == if i == 0 then 32 else if i == 1 then 24 else if i == 2 then 16 else 8;
  }

  /** The first n parts leave the bits below them free. */
  lemma {:induction false} LeadingIsMultiple(values: seq<nat>, n: nat) returns (q: nat)
    requires n <= |values| && n <= 3
    ensures Leading(values, n) == q * (256 * Weight(n))
  {
    if n == 0 {
      q := 0;
    } else {
      var p := LeadingIsMultiple(values, n - 1);
      q := 256 * p + values[n - 1];
      assert Weight(n - 1) == 256 * Weight(n);
      assert p * (256 * Weight(n - 1)) + values[n - 1] * Weight(n - 1) == q * Weight(n - 1);
    }
  }

  lemma OrAdds(values: seq<nat>, n: nat, part: nat)
    requires n <= |values| && n <= 3 && part < 256 * Weight(n)
    ensures BitOr(Leading(values, n), part) == Leading(values, n) + part
  {
    var q := LeadingIsMultiple(values, n);
    ShiftIsWeight(n);
    ShiftedFree(q, 8 * (4 - n));
    OrFillsZeros(8 * (4 - n), Leading(values, n), part);
  }

  // ---- The decoder ------------------------------------------------------------------------

  method ParseParts(parts: seq<string>) returns (values: Option<seq<nat>>)
    ensures values == ParseAll(parts)
  {
    var found: seq<nat> := [];
    for i := 0 to |parts|
      invariant ParseAll(parts[..i]) == Some(found)
    {
      assert parts[..i + 1][..i] == parts[..i];
      var parsed := ParseToken(parts[i]);
      if parsed.None? {
        OneBad(parts, i + 1);
        return None;
      }
      found := found + [parsed.value];
    }
    assert parts[..|parts|] == parts;
    values := Some(found);
  }

  method Combine(values: seq<nat>) returns (total: nat)
    requires Fits(values)
    ensures total == Positional(values)
  {
    var last := values[|values| - 1];
    total := 0;
    for i := 0 to |values| - 1
      invariant total == Leading(values, i)
    {
      ShiftIsWeight(i);
      PartBelow(values[i], Weight(i));
      OrAdds(values, i, values[i] * Weight(i));
      total := BitOr(total, values[i] * Pow2(8 * (3 - i)));
    }
    OrAdds(values, |values| - 1, last);
    total := BitOr(total, last);
  }

  lemma PartBelow(v: nat, weight: nat)
    requires v <= 0xFF && weight > 0
    ensures v * weight < 256 * weight
  {
  }

  method InRange(values: seq<nat>) returns (ok: bool)
    requires 1 <= |values| <= 4
    ensures ok == Fits(values)
  {
    for i := 0 to |values| - 1
      invariant forall k :: 0 <= k < i ==> values[k] <= 0xFF
    {
      if values[i] > 0xFF {
        return false;
      }
    }
    RoomIsPower(|values|);
    ok := values[|values| - 1] <= Pow2(8 * (4 - (|values| - 1))) - 1;
  }

  method ParseRelaxedIpv4(host: string) returns (address: Option<nat>)
    ensures address == Decode(host)
  {
    var candidate := StripDots(host);
    if candidate == "" {
      return None;
    }
    var parts := Split(candidate);
    if |parts| > 4 {
      return None;
    }
    var parsed := ParseParts(parts);
    if parsed.None? {
      return None;
    }
    var ok := InRange(parsed.value);
    if !ok {
      return None;
    }
    var total := Combine(parsed.value);
    address := Some(total);
  }

  lemma RoomIsPower(count: nat)
    requires 1 <= count <= 4
    ensures Pow2(8 * (4 - (count - 1))) == Room(count)
  {
    ShiftIsWeight(count - 1);
  }

  lemma {:induction false} OneBad(parts: seq<string>, n: nat)
    requires n <= |parts| && ParseAll(parts[..n]).None?
    ensures ParseAll(parts).None?
    decreases |parts| - n
  {
    if n < |parts| {
      assert parts[..n + 1][..n] == parts[..n];
      OneBad(parts, n + 1);
    } else {
      assert parts[..n] == parts;
    }
  }

  lemma {:induction false} LeadingBelow(values: seq<nat>, n: nat)
    requires n <= |values| && n <= 3 && forall i :: 0 <= i < n ==> values[i] <= 0xFF
    ensures Leading(values, n) + 256 * Weight(n) <= 0x1_0000_0000
  {
    if n > 0 {
      LeadingBelow(values, n - 1);
      assert Weight(n - 1) == 256 * Weight(n);
      assert values[n - 1] * Weight(n - 1) + Weight(n - 1) <= 256 * Weight(n - 1);
    }
  }

  /** Every accepted host is an address of 32 bits. */
  lemma DecodesToWord(host: string)
    requires Decode(host).Some?
    ensures Decode(host).value <= MAX_WORD
  {
    var values := ParseAll(Split(StripDots(host))).value;
    LeadingBelow(values, |values| - 1);
  }

  // ---- Printing -----------------------------------------------------------------------------

  // How a part is written: the base, and leading zeros where the base allows them.
  datatype Style = Decimal | Octal(zeros: nat) | Hex(zeros: nat)

  function DigitChar(d: nat): char
    requires d < 16
  {
    if d < 10 then '0' + d as char else 'a' + (d - 10) as char
  }

  function Digits(v: nat, base: Base): string
    decreases v
  {
    if v < base.Size() then [DigitChar(v)] else Digits(base.Quotient(v), base) + [DigitChar(base.Remainder(v))]
  }

  function Zeros(n: nat): string {
    if n == 0 then "" else "0" + Zeros(n - 1)
  }

  function PrintPart(v: nat, style: Style): string {
    match style
    case Decimal => Digits(v, Ten)
    case Octal(zeros) => "0" + (Zeros(zeros) + Digits(v, Eight))
    case Hex(zeros) => "0x" + (Zeros(zeros) + Digits(v, Sixteen))
  }

  lemma ValueAppend(digits: string, c: char, base: Base)
    ensures Value(digits + [c], base) == base.Times(Value(digits, base)) + DigitOf(c, base)
  {
    assert (digits + [c])[..|digits|] == digits;
  }

  lemma DigitBack(d: nat, base: Base)
    requires d < base.Size()
    ensures DigitOf(DigitChar(d), base) == d && (DigitChar(d) == '0' <==> d == 0)
  {
  }

  /** A text of digits of this base that reads as v, with no idle zero in front. */
  predicate Writes(text: string, v: nat, base: Base) {
    && text != "" && AllDigits(text, base) && Value(text, base) == v
    && (v > 0 ==> text[0] != '0') && (v == 0 ==> text == "0")
  }

  lemma WritesNext(text: string, q: nat, d: nat, base: Base)
    requires d < base.Size() && q > 0 && Writes(text, q, base)
    ensures Writes(text + [DigitChar(d)], base.Times(q) + d, base)
  {
    DigitBack(d, base);
    ValueAppend(text, DigitChar(d), base);
    assert (text + [DigitChar(d)])[0] == text[0];
  }

  lemma {:induction false} DigitsParse(v: nat, base: Base)
    ensures Writes(Digits(v, base), v, base)
    decreases v
  {
    if v < base.Size() {
      OneDigit(v, base);
    } else {
      var q, d := base.Quotient(v), base.Remainder(v);
      QuotientBack(v, base);
      DigitsParse(q, base);
      WritesNext(Digits(q, base), q, d, base);
    }
  }

  lemma OneDigit(d: nat, base: Base)
    requires d < base.Size()
    ensures Writes([DigitChar(d)], d, base)
  {
    DigitBack(d, base);
    OneValue(DigitChar(d), base);
  }

  lemma OneValue(c: char, base: Base)
    ensures Value([c], base) == DigitOf(c, base)
  {
    ValueAppend("", c, base);
    assert "" + [c] == [c];
  }

  lemma QuotientBack(v: nat, base: Base)
    requires v >= base.Size()
    ensures base.Times(base.Quotient(v)) + base.Remainder(v) == v
    ensures 0 < base.Quotient(v) < v && base.Remainder(v) < base.Size()
  {
  }

  lemma {:induction false} ZerosIgnored(zeros: nat, digits: string, base: Base)
    requires AllDigits(digits, base)
    ensures AllDigits(Zeros(zeros) + digits, base) && Value(Zeros(zeros) + digits, base) == Value(digits, base)
  {
    if zeros == 0 {
      assert Zeros(0) + digits == digits;
    } else {
      ZerosIgnored(zeros - 1, digits, base);
      assert Zeros(zeros) + digits == "0" + (Zeros(zeros - 1) + digits);
      LeadingZero(Zeros(zeros - 1) + digits, base);
    }
  }

  lemma {:induction false} LeadingZero(digits: string, base: Base)
    requires AllDigits(digits, base)
    ensures AllDigits("0" + digits, base) && Value("0" + digits, base) == Value(digits, base)
  {
    if digits == "" {
      assert "0" + digits == "0" && "0"[..0] == "";
    } else {
      var n := |digits| - 1;
      LeadingZero(digits[..n], base);
      assert ("0" + digits)[..n + 1] == "0" + digits[..n];
    }
  }

  lemma LowerDigits(s: string, base: Base)
    requires AllDigits(s, base)
    ensures forall i :: 0 <= i < |s| ==> LowerChar(s[i]) == s[i] && s[i] != '.' && s[i] != 'x'
  {
  }

  lemma LowerSame(s: string)
    requires forall i :: 0 <= i < |s| ==> LowerChar(s[i]) == s[i]
    ensures Lower(s) == s
  {
  }

  lemma DecimalParses(v: nat)
    ensures var text := Digits(v, Ten); text != "" && Lower(text) == text && '.' !in text
    ensures v <= MAX_WORD ==> ParseLowered(Digits(v, Ten)) == Some(v)
  {
    var text := Digits(v, Ten);
    DigitsParse(v, Ten);
    LowerDigits(text, Ten);
    LowerSame(text);
    assert text[0] == '0' ==> text == "0";
  }

  lemma OctalParses(v: nat, digits: string)
    requires digits != "" && AllDigits(digits, Eight) && Value(digits, Eight) == v <= MAX_WORD
    ensures var text := "0" + digits; ParseLowered(text) == Some(v) && Lower(text) == text && '.' !in text
  {
    var text := "0" + digits;
    LowerDigits(digits, Eight);
    LowerSame(text);
    OctalBranch(digits);
  }

  lemma OctalBranch(digits: string)
    requires digits != "" && digits[0] != 'x'
    ensures ParseLowered("0" + digits) == ParseDigits(digits, Eight)
  {
    var text := "0" + digits;
    assert text[1..] == digits;
    assert text[..2][1] == digits[0];
    assert "0x"[1] == 'x';
  }

  lemma HexParses(v: nat, digits: string)
    requires digits != "" && AllDigits(digits, Sixteen) && Value(digits, Sixteen) == v <= MAX_WORD
    ensures var text := "0x" + digits; ParseLowered(text) == Some(v) && Lower(text) == text && '.' !in text
  {
    var text := "0x" + digits;
    LowerDigits(digits, Sixteen);
    LowerSame(text);
    assert text[2..] == digits && text[..2] == "0x";
  }

  /** A printed part parses back, and holds no dot. */
  lemma PartParses(v: nat, style: Style)
    requires v <= MAX_WORD
    ensures var text := PrintPart(v, style);
      text != "" && ParseToken(text) == Some(v) && Lower(text) == text && '.' !in text
  {
    match style
    case Decimal =>
      DecimalParses(v);
    case Octal(zeros) =>
      DigitsParse(v, Eight);
      ZerosIgnored(zeros, Digits(v, Eight), Eight);
      OctalParses(v, Zeros(zeros) + Digits(v, Eight));
    case Hex(zeros) =>
      DigitsParse(v, Sixteen);
      ZerosIgnored(zeros, Digits(v, Sixteen), Sixteen);
      HexParses(v, Zeros(zeros) + Digits(v, Sixteen));
  }

  function Join(parts: seq<string>): string {
    if parts == [] then "" else if |parts| == 1 then parts[0]
    else Join(parts[..|parts| - 1]) + "." + parts[|parts| - 1]
  }

  lemma SplitNext(s: string, c: char)
    ensures Split(s + [c]) == if c == '.' then Split(s) + [""] else GrowLast(Split(s), [c])
  {
    assert (s + [c])[..|s|] == s;
  }

  lemma GrowTwice(parts: seq<string>, t: string, u: string)
    requires parts != []
    ensures GrowLast(GrowLast(parts, t), u) == GrowLast(parts, t + u)
  {
    var last := parts[|parts| - 1];
    assert last + t + u == last + (t + u);
  }

  lemma GrowNone(parts: seq<string>)
    requires parts != []
    ensures GrowLast(parts, "") == parts
  {
    assert parts[|parts| - 1] + "" == parts[|parts| - 1];
  }

  lemma GrowEmpty(parts: seq<string>, t: string)
    ensures GrowLast(parts + [""], t) == parts + [t]
  {
    assert (parts + [""])[..|parts|] == parts;
    assert "" + t == t;
  }

  lemma {:induction false} SplitAppend(s: string, t: string)
    requires '.' !in t
    ensures Split(s + t) == GrowLast(Split(s), t)
  {
    if t == "" {
      assert s + t == s;
      GrowNone(Split(s));
    } else {
      var before, c := t[..|t| - 1], t[|t| - 1];
      assert t == before + [c];
      SplitAppend(s, before);
      assert s + t == s + before + [c];
      SplitNext(s + before, c);
      GrowTwice(Split(s), before, [c]);
    }
  }

  lemma JoinNext(parts: seq<string>, last: string)
    requires parts != []
    ensures Join(parts + [last]) == Join(parts) + "." + last
  {
    assert (parts + [last])[..|parts|] == parts;
  }

  lemma SplitOne(t: string)
    requires '.' !in t
    ensures Split(t) == [t]
  {
    SplitAppend("", t);
    GrowEmpty([], t);
    assert "" + t == t;
    assert [] + [""] == [""] && [] + [t] == [t];
  }

  lemma SplitJoinNext(parts: seq<string>, last: string)
    requires parts != [] && Split(Join(parts)) == parts && '.' !in last
    ensures Split(Join(parts + [last])) == parts + [last]
  {
    JoinNext(parts, last);
    SplitNext(Join(parts), '.');
    SplitAppend(Join(parts) + ".", last);
    GrowEmpty(parts, last);
  }

  lemma {:induction false} SplitJoin(parts: seq<string>)
    requires parts != [] && forall i :: 0 <= i < |parts| ==> '.' !in parts[i]
    ensures Split(Join(parts)) == parts
  {
    var n := |parts| - 1;
    if n == 0 {
      SplitOne(parts[0]);
      assert parts == [parts[0]];
    } else {
      SplitJoin(parts[..n]);
      SplitJoinNext(parts[..n], parts[n]);
      assert parts == parts[..n] + [parts[n]];
    }
  }

  lemma {:induction false} DotsStripped(s: string, dots: nat)
    requires s != "" && s[|s| - 1] != '.'
    ensures StripDots(s + Dots(dots)) == s
  {
    if dots == 0 {
      assert s + Dots(0) == s;
    } else {
      DotsStripped(s, dots - 1);
      assert (s + Dots(dots))[..|s| + dots - 1] == s + Dots(dots - 1);
    }
  }

  function Dots(n: nat): (r: string)
    ensures |r| == n
  {
    if n == 0 then "" else Dots(n - 1) + "."
  }

  /** The parts of an address written in `count` parts. */
  function PartsOf(address: nat, count: nat): seq<nat>
    requires 1 <= count <= 4
  {
    var a, b, c := address / 0x100_0000, address / 0x1_0000 % 0x100, address / 0x100 % 0x100;
    if count == 1 then [address]
    else if count == 2 then [a, address % 0x100_0000]
    else if count == 3 then [a, b, address % 0x1_0000]
    else [a, b, c, address % 0x100]
  }

  lemma SplitBytes(address: nat)
    requires address <= MAX_WORD
    ensures var a, b, c := address / 0x100_0000, address / 0x1_0000 % 0x100, address / 0x100 % 0x100;
      && a <= 0xFF
      && address == a * 0x100_0000 + address % 0x100_0000
      && address % 0x100_0000 == b * 0x1_0000 + address % 0x1_0000
      && address % 0x1_0000 == c * 0x100 + address % 0x100
  {
  }

  lemma LeadingSteps(values: seq<nat>)
    ensures |values| >= 1 ==> Leading(values, 1) == values[0] * 0x100_0000
    ensures |values| >= 2 ==> Leading(values, 2) == values[0] * 0x100_0000 + values[1] * 0x1_0000
    ensures |values| >= 3 ==> Leading(values, 3) == values[0] * 0x100_0000 + values[1] * 0x1_0000 + values[2] * 0x100
  {
    if |values| >= 1 {
      assert Leading(values, 1) == Leading(values, 0) + values[0] * Weight(0);
    }
    if |values| >= 2 {
      assert Leading(values, 2) == Leading(values, 1) + values[1] * Weight(1);
    }
    if |values| >= 3 {
      assert Leading(values, 3) == Leading(values, 2) + values[2] * Weight(2);
    }
  }

  lemma PartsAddUp(address: nat, count: nat)
    requires address <= MAX_WORD && 1 <= count <= 4
    ensures var parts := PartsOf(address, count);
      |parts| == count && Fits(parts) && Positional(parts) == address
      && forall i :: 0 <= i < count ==> parts[i] <= MAX_WORD
  {
    SplitBytes(address);
    LeadingSteps(PartsOf(address, count));
  }

  function PrintParts(values: seq<nat>, styles: seq<Style>): (r: seq<string>)
    requires |values| == |styles|
    ensures |r| == |values|
  {
    if values == [] then []
    else
      var n := |values| - 1;
      PrintParts(values[..n], styles[..n]) + [PrintPart(values[n], styles[n])]
  }

  lemma ParseAllNext(parts: seq<string>, last: string, values: seq<nat>, v: nat)
    requires ParseAll(parts) == Some(values) && ParseToken(last) == Some(v)
    ensures ParseAll(parts + [last]) == Some(values + [v])
  {
    assert (parts + [last])[..|parts|] == parts;
  }

  predicate WellPrinted(p: string) {
    p != "" && '.' !in p && Lower(p) == p
  }

  /** The printed parts read back as the values. */
  ghost predicate ReadsBack(parts: seq<string>, values: seq<nat>) {
    ParseAll(parts) == Some(values) && forall i :: 0 <= i < |parts| ==> WellPrinted(parts[i])
  }

  lemma ReadsBackNext(parts: seq<string>, values: seq<nat>, last: string, v: nat)
    requires ReadsBack(parts, values) && WellPrinted(last) && ParseToken(last) == Some(v)
    ensures ReadsBack(parts + [last], values + [v])
  {
    ParseAllNext(parts, last, values, v);
  }

  lemma {:induction false} PrintedParse(values: seq<nat>, styles: seq<Style>)
    requires |values| == |styles| && forall i :: 0 <= i < |values| ==> values[i] <= MAX_WORD
    ensures ReadsBack(PrintParts(values, styles), values)
  {
    if values != [] {
      var n := |values| - 1;
      PrintedParse(values[..n], styles[..n]);
      PartParses(values[n], styles[n]);
      ReadsBackNext(PrintParts(values[..n], styles[..n]), values[..n], PrintPart(values[n], styles[n]), values[n]);
      assert values[..n] + [values[n]] == values;
    }
  }

  lemma JoinEnds(parts: seq<string>)
    requires parts != [] && WellPrinted(parts[|parts| - 1])
    ensures Join(parts) != "" && Join(parts)[|Join(parts)| - 1] != '.'
  {
    var last := parts[|parts| - 1];
    assert last[|last| - 1] in last;
  }

  // ---- Case ----------------------------------------------------------------------------------

  lemma {:induction false} StripIgnoresCase(s: string)
    ensures StripDots(Lower(s)) == Lower(StripDots(s))
  {
    if s != "" && s[|s| - 1] == '.' {
      StripIgnoresCase(s[..|s| - 1]);
      assert Lower(s)[..|s| - 1] == Lower(s[..|s| - 1]);
    }
  }

  function LowerAll(parts: seq<string>): (r: seq<string>)
    ensures |r| == |parts|
  {
    if parts == [] then [] else LowerAll(parts[..|parts| - 1]) + [Lower(parts[|parts| - 1])]
  }

  lemma LowerNext(s: string, c: char)
    ensures Lower(s + [c]) == Lower(s) + [LowerChar(c)]
  {
    assert (s + [c])[..|s|] == s;
  }

  lemma LowerAllNext(parts: seq<string>, last: string)
    ensures LowerAll(parts + [last]) == LowerAll(parts) + [Lower(last)]
  {
    assert (parts + [last])[..|parts|] == parts;
  }

  lemma LowerGrow(parts: seq<string>, c: char)
    requires parts != []
    ensures LowerAll(GrowLast(parts, [c])) == GrowLast(LowerAll(parts), [LowerChar(c)])
  {
    var before, last := parts[..|parts| - 1], parts[|parts| - 1];
    LowerAllNext(before, last + [c]);
    LowerNext(last, c);
    LowerAllNext(before, last);
    assert parts == before + [last];
    assert (LowerAll(before) + [Lower(last)])[..|before|] == LowerAll(before);
  }

  lemma {:induction false} SplitIgnoresCase(s: string)
    ensures Split(Lower(s)) == LowerAll(Split(s))
  {
    if s == "" {
      assert [""][..0] == [];
    } else {
      var before, c := s[..|s| - 1], s[|s| - 1];
      SplitIgnoresCase(before);
      LowerNext(before, c);
      assert s == before + [c];
      SplitNext(Lower(before), LowerChar(c));
      if c == '.' {
        LowerAllNext(Split(before), "");
      } else {
        LowerGrow(Split(before), c);
      }
    }
  }

  lemma TokenIgnoresCase(token: string)
    ensures ParseToken(Lower(token)) == ParseToken(token)
  {
    LowerSame(Lower(token));
  }

  lemma {:induction false} ParseAllIgnoresCase(parts: seq<string>)
    ensures ParseAll(LowerAll(parts)) == ParseAll(parts)
  {
    if parts != [] {
      var n := |parts| - 1;
      ParseAllIgnoresCase(parts[..n]);
      TokenIgnoresCase(parts[n]);
      assert LowerAll(parts)[..n] == LowerAll(parts[..n]);
    }
  }

  /** Only the lower-case form of a host matters. */
  lemma DecodeIgnoresCase(host: string)
    ensures Decode(Lower(host)) == Decode(host)
  {
    StripIgnoresCase(host);
    SplitIgnoresCase(StripDots(host));
    ParseAllIgnoresCase(Split(StripDots(host)));
  }

  /**
   Round trip: every 32-bit address, written in one to four parts in any mix of bases
   and of upper and lower case, with leading zeros and trailing dots, decodes to itself.
   */
  lemma RoundTrip(address: nat, styles: seq<Style>, dots: nat, host: string)
    requires address <= MAX_WORD && 1 <= |styles| <= 4
    requires Lower(host) == Join(PrintParts(PartsOf(address, |styles|), styles)) + Dots(dots)
    ensures Decode(host) == Some(address)
  {
    var values := PartsOf(address, |styles|);
    PartsAddUp(address, |styles|);
    PrintedParse(values, styles);
    var parts := PrintParts(values, styles);
    JoinEnds(parts);
    DotsStripped(Join(parts), dots);
    SplitJoin(parts);
    DecodeIgnoresCase(host);
  }
}
