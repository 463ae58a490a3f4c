/** A host decodes to an address only if it is that address, written out. */
module Ipv4Rejects {
  import opened Prelude
  import opened RelaxedIpv4

  // ---- One part ------------------------------------------------------------------------

  lemma CharBack(c: char, base: Base)
    requires DigitOf(c, base) < base.Size()
    ensures DigitChar(DigitOf(c, base)) == c
  {
  }

  lemma {:induction false} ZerosEnd(n: nat)
    ensures Zeros(n) + "0" == Zeros(n + 1)
  {
    if n > 0 {
      ZerosEnd(n - 1);
      assert Zeros(n) + "0" == "0" + (Zeros(n - 1) + "0");
    }
  }

  lemma NextDigits(q: nat, d: nat, base: Base)
    requires q > 0 && d < base.Size()
    ensures Digits(base.Times(q) + d, base) == Digits(q, base) + [DigitChar(d)]
  {
    assert base.Quotient(base.Times(q) + d) == q && base.Remainder(base.Times(q) + d) == d;
  }

  lemma NextWritten(before: string, zeros: nat, q: nat, c: char, base: Base) returns (zeros': nat)
    requires before == Zeros(zeros) + Digits(q, base) && DigitOf(c, base) < base.Size()
    ensures before + [c] == Zeros(zeros') + Digits(base.Times(q) + DigitOf(c, base), base)
  {
    CharBack(c, base);
    if q == 0 {
      zeros' := zeros + 1;
      ZerosEnd(zeros);
      assert Digits(0, base) == "0" && Digits(DigitOf(c, base), base) == [c];
      assert Zeros(zeros) + "0" + [c] == before + [c];
    } else {
      zeros' := zeros;
      NextDigits(q, DigitOf(c, base), base);
      assert Zeros(zeros) + (Digits(q, base) + [c]) == before + [c];
    }
  }

  lemma OneWritten(c: char, base: Base)
    requires DigitOf(c, base) < base.Size()
    ensures [c] == Zeros(0) + Digits(Value([c], base), base)
  {
    CharBack(c, base);
    OneValue(c, base);
  }

  /** Digits of a base are leading zeros and the number they stand for, written in that base. */
  lemma {:induction false} DigitsWritten(text: string, base: Base) returns (zeros: nat)
    requires text != "" && AllDigits(text, base)
    ensures text == Zeros(zeros) + Digits(Value(text, base), base)
  {
    var k := |text| - 1;
    if k == 0 {
      zeros := 0;
      OneWritten(text[0], base);
      assert text == [text[0]];
    } else {
      var z := DigitsWritten(text[..k], base);
      zeros := NextWritten(text[..k], z, Value(text[..k], base), text[k], base);
      ValueAppend(text[..k], text[k], base);
      assert text == text[..k] + [text[k]];
    }
  }

  /** A text that parses as v is v in one of its spellings. */
  lemma LoweredPrinted(text: string) returns (style: Style)
    requires text != "" && ParseLowered(text).Some?
    ensures text == PrintPart(ParseLowered(text).value, style) && ParseLowered(text).value <= MAX_WORD
  {
    if |text| >= 2 && text[..2] == "0x" {
      var zeros := DigitsWritten(text[2..], Sixteen);
      style := Hex(zeros);
      assert text == text[..2] + text[2..];
    } else if |text| > 1 && text[0] == '0' {
      var zeros := DigitsWritten(text[1..], Eight);
      style := Octal(zeros);
      assert text == "0" + text[1..];
    } else {
      var zeros := DigitsWritten(text, Ten);
      style := Decimal;
      if zeros > 0 {
        DigitsParse(Value(text, Ten), Ten);
      }
      assert Zeros(0) + Digits(Value(text, Ten), Ten) == Digits(Value(text, Ten), Ten);
    }
  }

  // ---- All parts -----------------------------------------------------------------------

  lemma PrintPartsNext(values: seq<nat>, v: nat, styles: seq<Style>, style: Style)
    requires |values| == |styles|
    ensures PrintParts(values + [v], styles + [style]) == PrintParts(values, styles) + [PrintPart(v, style)]
  {
    assert (values + [v])[..|values|] == values && (styles + [style])[..|styles|] == styles;
  }

  lemma {:induction false} PartsPrinted(parts: seq<string>) returns (styles: seq<Style>)
    requires ParseAll(parts).Some?
    ensures |styles| == |parts| && LowerAll(parts) == PrintParts(ParseAll(parts).value, styles)
  {
    if parts == [] {
      styles := [];
    } else {
      var n := |parts| - 1;
      var before := PartsPrinted(parts[..n]);
      var style := LoweredPrinted(Lower(parts[n]));
      styles := before + [style];
      PrintPartsNext(ParseAll(parts[..n]).value, ParseToken(parts[n]).value, before, style);
    }
  }

  lemma JoinGrow(parts: seq<string>, c: char)
    requires parts != []
    ensures Join(GrowLast(parts, [c])) == Join(parts) + [c]
  {
    var n := |parts| - 1;
    var last := parts[n] + [c];
    assert GrowLast(parts, [c])[..n] == parts[..n];
    if n > 0 {
      assert Join(parts[..n]) + "." + last == Join(parts[..n]) + "." + parts[n] + [c];
    }
  }

  lemma {:induction false} JoinSplit(s: string)
    ensures Join(Split(s)) == s
  {
    if s != "" {
      var before, c := s[..|s| - 1], s[|s| - 1];
      JoinSplit(before);
      assert s == before + [c];
      if c == '.' {
        JoinNext(Split(before), "");
        assert before + "." + "" == s;
      } else {
        JoinGrow(Split(before), c);
      }
    }
  }

  lemma {:induction false} DotsBack(s: string) returns (dots: nat)
    ensures s == StripDots(s) + Dots(dots)
  {
    if s != "" && s[|s| - 1] == '.' {
      var n := DotsBack(s[..|s| - 1]);
      dots := n + 1;
      assert s == s[..|s| - 1] + ".";
      assert StripDots(s) + (Dots(n) + ".") == StripDots(s) + Dots(n) + ".";
    } else {
      dots := 0;
      assert s + Dots(0) == s;
    }
  }

  // ---- The address ---------------------------------------------------------------------

  lemma FourBytes(a: nat, b: nat, c: nat, d: nat)
    requires a <= 0xFF && b <= 0xFF && c <= 0xFF && d <= 0xFF
    ensures var x := a * 0x100_0000 + b * 0x1_0000 + c * 0x100 + d;
      x <= MAX_WORD && x / 0x100_0000 == a && x / 0x1_0000 % 0x100 == b && x / 0x100 % 0x100 == c && x % 0x100 == d
  {
  }

  lemma ThreeParts(a: nat, b: nat, c: nat)
    requires a <= 0xFF && b <= 0xFF && c <= 0xFFFF
    ensures var x := a * 0x100_0000 + b * 0x1_0000 + c;
      x <= MAX_WORD && x / 0x100_0000 == a && x / 0x1_0000 % 0x100 == b && x % 0x1_0000 == c
  {
  }

  lemma TwoParts(a: nat, b: nat)
    requires a <= 0xFF && b <= 0xFF_FFFF
    ensures var x := a * 0x100_0000 + b;
      x <= MAX_WORD && x / 0x100_0000 == a && x % 0x100_0000 == b
  {
  }

  /** Values that fit are the parts of the address they stand for. */
  lemma FittingParts(values: seq<nat>)
    requires Fits(values)
    ensures Positional(values) <= MAX_WORD && PartsOf(Positional(values), |values|) == values
  {
    LeadingSteps(values);
    var n := |values|;
    if n == 2 {
      TwoParts(values[0], values[1]);
    } else if n == 3 {
      ThreeParts(values[0], values[1], values[2]);
    } else if n == 4 {
      FourBytes(values[0], values[1], values[2], values[3]);
    }
  }

  /** host, in lower case, is the address in some spelling of its one to four parts, and dots. */
  ghost predicate Spells(host: string, address: nat, styles: seq<Style>, dots: nat) {
    && address <= MAX_WORD && 1 <= |styles| <= 4
    && Lower(host) == Join(PrintParts(PartsOf(address, |styles|), styles)) + Dots(dots)
  }

  lemma LowerTwice(s: string)
    ensures Lower(Lower(s)) == Lower(s)
  {
    LowerSame(Lower(s));
  }

  lemma LowerParts(h: string)
    requires Lower(h) == h
    ensures LowerAll(Split(StripDots(h))) == Split(StripDots(h))
  {
    StripIgnoresCase(h);
    SplitIgnoresCase(StripDots(h));
  }

  lemma DecodedValues(h: string)
    requires Decode(h).Some?
    ensures var parts := Split(StripDots(h));
      ParseAll(parts).Some? && Fits(ParseAll(parts).value) && Positional(ParseAll(parts).value) == Decode(h).value
  {
  }

  lemma SpelledLower(h: string) returns (styles: seq<Style>, dots: nat)
    requires Lower(h) == h && Decode(h).Some?
    ensures Spells(h, Decode(h).value, styles, dots)
  {
    DecodedValues(h);
    LowerParts(h);
    var parts := Split(StripDots(h));
    FittingParts(ParseAll(parts).value);
    JoinSplit(StripDots(h));
    styles := PartsPrinted(parts);
    dots := DotsBack(h);
  }

  /** A host that decodes is its address, spelled out. */
  lemma DecodedIsSpelled(host: string) returns (styles: seq<Style>, dots: nat)
    requires Decode(host).Some?
    ensures Spells(host, Decode(host).value, styles, dots)
  {
    DecodeIgnoresCase(host);
    LowerTwice(host);
    styles, dots := SpelledLower(Lower(host));
  }

  /**
   A host decodes to an address if and only if, in lower case, it is that address written
   in one to four parts, each in decimal, octal or hexadecimal with leading zeros where
   the base shows them, followed by any number of dots.
   */
  lemma DecodesExactly(host: string, address: nat)
    ensures Decode(host) == Some(address) <==> exists styles, dots :: Spells(host, address, styles, dots)
  {
    if Decode(host) == Some(address) {
      var styles, dots := DecodedIsSpelled(host);
    }
    if styles, dots :| Spells(host, address, styles, dots) {
      RoundTrip(address, styles, dots, host);
    }
  }
}
