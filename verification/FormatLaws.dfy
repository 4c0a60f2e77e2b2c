/** What the formatter's conversions print, in the characters themselves, and how a format is read. */
module FormatLaws {
  import opened Common
  import opened Format

  const PERCENT: byte := 37

  /** A digit of the base: 0-9, and for base 16 also A-F or a-f. */
  predicate IsDigitOf(c: byte, base: nat, upper: bool) {
    || 48 <= c <= 57
    || (base == 16 && if upper then 65 <= c <= 70 else 97 <= c <= 102)
  }

  /** A numeral of the value: at least one digit, none of them a leading zero. */
  predicate IsNumeral(s: seq<byte>, val: nat, base: nat, upper: bool) {
    && s != [] && Value(s, base) == val
    && (forall i :: 0 <= i < |s| ==> IsDigitOf(s[i], base, upper))
    && (s[0] == 48 ==> |s| == 1)
  }

  /** The numeral with zeros or blanks in front up to the width. */
  predicate IsPadded(text: seq<byte>, f: Flags, val: nat, base: nat, upper: bool) {
    exists n | 0 <= n <= |text| ::
      && IsNumeral(text[n..], val, base, upper)
      && (forall i :: 0 <= i < n ==> text[i] == if f.zero then 48 else 32)
      && n == if f.width > |text| - n then f.width - (|text| - n) else 0
  }

  lemma {:induction false} DigitsAreOfBase(val: nat, base: nat, upper: bool)
    requires (base == 10 || base == 16) && val > 0
    ensures var d := DigitsUp(val, base, upper);
            && d != [] && d[|d| - 1] != 48
            && forall i :: 0 <= i < |d| ==> IsDigitOf(d[i], base, upper)
  {
    if Quotient(val, base) > 0 {
      DigitsAreOfBase(Quotient(val, base), base, upper);
    } else {
      assert DigitsUp(0, base, upper) == [];
    }
  }

  lemma {:induction false} ReverseAt(s: seq<byte>, i: nat)
    requires i < |s|
    ensures Reverse(s)[i] == s[|s| - 1 - i]
  {
    if i < |s| - 1 {
      ReverseAt(s[1..], i);
    }
  }

  lemma ReversedAreOfBase(d: seq<byte>, base: nat, upper: bool)
    requires d != [] && d[|d| - 1] != 48 && forall i :: 0 <= i < |d| ==> IsDigitOf(d[i], base, upper)
    ensures var r := Reverse(d); r[0] != 48 && forall i :: 0 <= i < |r| ==> IsDigitOf(r[i], base, upper)
  {
    forall i | 0 <= i < |d|
      ensures Reverse(d)[i] == d[|d| - 1 - i]
    {
      ReverseAt(d, i);
    }
  }

  lemma NumberTextIsNumeral(val: u32, base: nat, upper: bool)
    requires base == 10 || base == 16
    ensures IsNumeral(NumberText(val, base, upper), val, base, upper)
  {
    NumberTextReadsBack(val, base, upper);
    if val > 0 {
      DigitsAreOfBase(val, base, upper);
      ReversedAreOfBase(DigitsUp(val, base, upper), base, upper);
    }
  }

  lemma PaddedIsPadded(f: Flags, val: u32, base: nat, upper: bool)
    requires base == 10 || base == 16
    ensures IsPadded(Padded(f, val, base, upper), f, val, base, upper)
  {
    var digits, text := NumberText(val, base, upper), Padded(f, val, base, upper);
    NumberTextIsNumeral(val, base, upper);
    var n := if f.width > |digits| then f.width - |digits| else 0;
    assert text[n..] == digits;
  }

  lemma PieceIsPadded(f: Flags, w: u32, conv: byte, base: nat, upper: bool)
    requires (conv, base, upper) in [(117, 10, false), (120, 16, false), (88, 16, true)]
    ensures Piece(f, conv, [Word(w)]) == Padded(f, w, base, upper)
  {
  }

  /** `%u` prints the word in decimal, `%x` and `%X` in base 16 with small and capital letters, padded to the width. */
  lemma UnsignedPrints(f: Flags, w: u32, conv: byte, base: nat, upper: bool)
    requires (conv, base, upper) in [(117, 10, false), (120, 16, false), (88, 16, true)]
    ensures IsPadded(Piece(f, conv, [Word(w)]), f, w, base, upper)
  {
    PieceIsPadded(f, w, conv, base, upper);
    PaddedIsPadded(f, w, base, upper);
  }

  /** `%d` prints a minus sign for a negative word, then its magnitude in decimal padded to the width. */
  lemma SignedPrints(f: Flags, w: u32)
    ensures var text := Piece(f, 100, [Word(w)]);
            if w >= 0x8000_0000
            then text[0] == 45 && IsPadded(text[1..], f, 0x1_0000_0000 - w, 10, false)
            else IsPadded(text, f, w, 10, false)
  {
    var text := Piece(f, 100, [Word(w)]);
    if w >= 0x8000_0000 {
      var m: u32 := 0x1_0000_0000 - w;
      PaddedIsPadded(f, m, 10, false);
      assert text[1..] == Padded(f, m, 10, false);
    } else {
      PaddedIsPadded(f, w, 10, false);
    }
  }

  /** `%s`, `%c`, `%%` and a character that names no conversion. */
  lemma OthersPrint(f: Flags, t: seq<byte>, w: u32, conv: byte, args: seq<Arg>)
    requires conv !in [115, 100, 117, 120, 88, 99, 37]
    ensures Piece(f, 115, [Str(Some(t))]) == t
    ensures Piece(f, 115, [Str(None)]) == [40, 110, 117, 108, 108, 41]
    ensures Piece(f, 99, [Word(w)]) == [w % 0x100]
    ensures Piece(f, 37, args) == [37]
    ensures Piece(f, conv, args) == [37, conv]
  {
  }

  // ---- Reading a format ----

  /** Text without a percent sign prints as it stands. */
  lemma {:induction false} LiteralsPrint(lit: seq<byte>, fmt: seq<byte>, args: seq<Arg>)
    requires PERCENT !in lit && Matches(fmt, args)
    ensures Matches(lit + fmt, args) && Render(lit + fmt, args) == lit + Render(fmt, args)
  {
    if lit == [] {
      assert lit + fmt == fmt;
    } else {
      assert (lit + fmt)[0] == lit[0] && (lit + fmt)[1..] == lit[1..] + fmt;
      LiteralsPrint(lit[1..], fmt, args);
      assert [lit[0]] + (lit[1..] + Render(fmt, args)) == lit + Render(fmt, args);
    }
  }

  predicate AllDigits(d: seq<byte>) {
    forall i :: 0 <= i < |d| ==> 48 <= d[i] <= 57
  }

  /** Where the digits of a conversion end. */
  predicate NoDigitNext(tail: seq<byte>) {
    tail != [] ==> !(48 <= tail[0] <= 57)
  }

  /** Digits before a conversion character: zero padding when they start with a zero, and a width modulo 2^32. */
  function Meant(d: seq<byte>): Flags {
    Flags(d != [] && d[0] == 48, Value(d, 10) % 0x1_0000_0000)
  }

  /** The width may be wrapped at any time. */
  lemma WrapDigit(v: nat, c: nat)
    ensures (v % 0x1_0000_0000 * 10 + c) % 0x1_0000_0000 == (v * 10 + c) % 0x1_0000_0000
  {
    var q, r := v / 0x1_0000_0000, v % 0x1_0000_0000;
    var x := r * 10 + c;
    assert v * 10 + c == x + (q * 10) * 0x1_0000_0000;
    Wraps(x, q * 10);
  }

  lemma Wraps(x: nat, q: nat)
    ensures (x + q * 0x1_0000_0000) % 0x1_0000_0000 == x % 0x1_0000_0000
  {
  }

  lemma {:induction false} WidthReads(d: seq<byte>, k: nat, tail: seq<byte>)
    requires k <= |d| && AllDigits(d) && NoDigitNext(tail)
    ensures ParseWidth(Value(d[..k], 10) % 0x1_0000_0000, d[k..] + tail) == (Value(d, 10) % 0x1_0000_0000, tail)
    decreases |d| - k
  {
    if k == |d| {
      assert d[..k] == d && d[k..] + tail == tail;
    } else {
      var s := d[k..] + tail;
      assert d[..k + 1] == d[..k] + [d[k]];
      ValueSnoc(d[..k], d[k], 10);
      WrapDigit(Value(d[..k], 10), d[k] - 48);
      assert s[0] == d[k] && s[1..] == d[k + 1..] + tail;
      WidthReads(d, k + 1, tail);
    }
  }

  /** Whatever digits stand before a conversion character, they are read as what they mean. */
  lemma FlagsAreRead(d: seq<byte>, tail: seq<byte>)
    requires AllDigits(d) && NoDigitNext(tail)
    ensures ParseFlags(d + tail) == (Meant(d), tail)
  {
    var s := d + tail;
    if d != [] && d[0] == 48 {
      assert d[..1] == [48] && [48][..0] == [];
      assert Value([48], 10) == Value([48][..0], 10) * 10 + DigitValue(48);
      assert s[0] == 48 && s[1..] == d[1..] + tail;
      WidthReads(d, 1, tail);
    } else {
      assert d[..0] == [] && d[0..] == d;
      assert s != [] ==> s[0] != 48;
      WidthReads(d, 0, tail);
    }
  }

  /** The width's numeral, nothing for none. */
  function WidthText(width: u32): seq<byte> {
    if width != 0 then NumberText(width, 10, false) else []
  }

  lemma WidthTextReads(width: u32)
    ensures var t := WidthText(width); AllDigits(t) && Value(t, 10) == width && (t != [] ==> t[0] != 48)
  {
    NumberTextIsNumeral(width, 10, false);
    NotZero(width);
  }

  lemma ZeroInFront(t: seq<byte>)
    requires AllDigits(t)
    ensures AllDigits([48] + t) && Value([48] + t, 10) == Value(t, 10)
  {
    PaddingKeepsValue(48, 1, t, 10);
    assert Repeat(48, 1) + t == [48] + t;
  }

  lemma MeantIs(d: seq<byte>, zero: bool, width: u32)
    requires Value(d, 10) == width && (zero <==> d != [] && d[0] == 48)
    ensures Meant(d) == Flags(zero, width)
  {
  }

  /** A width up to 2^32 - 1 can be asked for by its numeral, with a zero in front for zero padding. */
  lemma EveryWidthCanBeAsked(f: Flags)
    ensures var d := if f.zero then [48] + WidthText(f.width) else WidthText(f.width); AllDigits(d) && Meant(d) == f
  {
    var t := WidthText(f.width);
    WidthTextReads(f.width);
    ZeroInFront(t);
    MeantIs(if f.zero then [48] + t else t, f.zero, f.width);
  }

  lemma NotZero(w: u32)
    ensures w != 0 ==> NumberText(w, 10, false)[0] != 48
  {
    var t := NumberText(w, 10, false);
    NumberTextIsNumeral(w, 10, false);
    if t[0] == 48 {
      assert t[..0] == [] && t == [48];
      assert Value([48], 10) == Value([48][..0], 10) * 10 + 0;
    }
  }

  /** The arguments left after a conversion. */
  function Left(conv: byte, args: seq<Arg>): seq<Arg>
    requires ArgFits(conv, args)
  {
    if conv in [115, 100, 117, 120, 88, 99] then args[1..] else args
  }

  lemma LeftIsConsumed(conv: byte, args: seq<Arg>)
    requires ArgFits(conv, args)
    ensures Left(conv, args) == Consume(conv, args)
  {
  }

  lemma ParsedPrints(fmt: seq<byte>, f: Flags, tail: seq<byte>, args: seq<Arg>)
    requires fmt != [] && fmt[0] == PERCENT && ParseFlags(fmt[1..]) == (f, tail) && tail != []
    requires ArgFits(tail[0], args) && Matches(tail[1..], Consume(tail[0], args))
    ensures Matches(fmt, args)
    ensures Render(fmt, args) == Piece(f, tail[0], args) + Render(tail[1..], Consume(tail[0], args))
  {
  }

  /**
   * A percent sign, any digits and a character print what the character and the digits mean, take the
   * argument it needs, and the rest of the format follows.
   */
  lemma ConversionsPrint(d: seq<byte>, conv: byte, rest: seq<byte>, args: seq<Arg>)
    requires AllDigits(d) && !(48 <= conv <= 57) && ArgFits(conv, args) && Matches(rest, Left(conv, args))
    ensures var fmt := [PERCENT] + d + [conv] + rest;
            && Matches(fmt, args)
            && Render(fmt, args) == Piece(Meant(d), conv, args) + Render(rest, Left(conv, args))
  {
    var fmt, tail := [PERCENT] + d + [conv] + rest, [conv] + rest;
    FlagsAreRead(d, tail);
    LeftIsConsumed(conv, args);
    assert fmt[1..] == d + tail;
    assert tail[1..] == rest;
    ParsedPrints(fmt, Meant(d), tail, args);
  }

  /** A format that ends inside a conversion prints nothing for it. */
  lemma CutConversionPrintsNothing(d: seq<byte>, args: seq<Arg>)
    requires AllDigits(d)
    ensures Render([], args) == [] && Matches([PERCENT] + d, args) && Render([PERCENT] + d, args) == []
  {
    FlagsAreRead(d, []);
    assert ([PERCENT] + d)[1..] == d + [];
  }
}
