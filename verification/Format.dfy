/** The log formatter: a bounded, in-place printf against an unbounded rendering. */
module Format {
  import opened Common
  import Console

  const LINE_MAX: nat := 128

  /** Text is bytes; `Ch` is a character's code. */
  function Ch(c: char): byte
    requires c as int < 0x100
  {
    c as int
  }

  /** A variadic argument: a C string (absent when the pointer is null), or a 32-bit word. */
  datatype Arg = Str(s: Option<seq<byte>>) | Word(w: u32)

  /** A conversion's flags: zero padding and the width, which wraps like the 32-bit variable it is kept in. */
  datatype Flags = Flags(zero: bool, width: u32)

  predicate IsDigit(c: byte) {
    Ch('0') <= c <= Ch('9')
  }

  /** Reads the width digits; returns the width and what follows. */
  function ParseWidth(width: u32, s: seq<byte>): (r: (u32, seq<byte>))
    ensures |r.1| <= |s|
    decreases |s|
  {
    if s != [] && IsDigit(s[0])
    then ParseWidth((width * 10 + (s[0] - Ch('0'))) % TWO32, s[1..])
    else (width, s)
  }

  /** Reads what stands between `%` and the conversion character. */
  function ParseFlags(s: seq<byte>): (r: (Flags, seq<byte>))
    ensures |r.1| <= |s|
  {
    var zero := s != [] && s[0] == Ch('0');
    var (width, rest) := ParseWidth(0, if zero then s[1..] else s);
    (Flags(zero, width), rest)
  }

  function DigitChar(d: nat, upper: bool): byte
    requires d < 16
  {
    if d < 10 then Ch('0') + d else (if upper then Ch('A') else Ch('a')) + d - 10
  }

  /** Division by the two bases in use. */
  function Quotient(val: nat, base: nat): nat
    requires base == 10 || base == 16
  {
    if base == 10 then val / 10 else val / 16
  }

  function Remainder(val: nat, base: nat): (r: nat)
    requires base == 10 || base == 16
    ensures r < 16 && r < base
  {
    if base == 10 then val % 10 else val % 16
  }

  lemma QuotientIsDivision(val: nat, base: nat)
    requires base == 10 || base == 16
    ensures val / base == Quotient(val, base) && val % base == Remainder(val, base)
    ensures Quotient(val, base) * base + Remainder(val, base) == val
  {
    if base == 10 {
      assert val / 10 * 10 + val % 10 == val;
    } else {
      assert val / 16 * 16 + val % 16 == val;
    }
  }

  /** The digits of a positive number, least significant first; none for zero. */
  function DigitsUp(val: nat, base: nat, upper: bool): seq<byte>
    requires base == 10 || base == 16
  {
    if val == 0 then [] else [DigitChar(Remainder(val, base), upper)] + DigitsUp(Quotient(val, base), base, upper)
  }

  function Reverse(s: seq<byte>): (r: seq<byte>)
    ensures |r| == |s|
  {
    if s == [] then [] else Reverse(s[1..]) + [s[0]]
  }

  /** A number as text, most significant digit first. */
  function NumberText(val: nat, base: nat, upper: bool): seq<byte>
    requires base == 10 || base == 16
  {
    if val == 0 then [Ch('0')] else Reverse(DigitsUp(val, base, upper))
  }

  function Repeat(c: byte, n: nat): (s: seq<byte>)
    ensures |s| == n
  {
    seq(n, _ => c)
  }

  function PadChar(zero: bool): byte {
    if zero then Ch('0') else Ch(' ')
  }

  function Padding(f: Flags, length: nat): seq<byte> {
    Repeat(PadChar(f.zero), if f.width > length then f.width - length else 0)
  }

  /** A number padded to the width on its left. */
  function Padded(f: Flags, val: nat, base: nat, upper: bool): seq<byte>
    requires base == 10 || base == 16
  {
    Padding(f, |NumberText(val, base, upper)|) + NumberText(val, base, upper)
  }

  /** The word read as a two's complement integer. */
  function Signed(w: u32): int {
    if w < TWO31 then w else w - TWO32
  }

  /** A signed number: the sign stands before the padding. */
  function SignedText(f: Flags, v: int): seq<byte> {
    if v < 0 then [Ch('-')] + Padded(f, -v, 10, false) else Padded(f, v, 10, false)
  }

  predicate TakesArg(conv: byte) {
    conv in [Ch('s'), Ch('d'), Ch('u'), Ch('x'), Ch('X'), Ch('c')]
  }

  /** The argument at the front is what the conversion reads. */
  predicate ArgFits(conv: byte, args: seq<Arg>) {
    TakesArg(conv) ==> args != [] && (conv == Ch('s') <==> args[0].Str?)
  }

  /** What one conversion prints. */
  function Piece(f: Flags, conv: byte, args: seq<Arg>): seq<byte>
    requires ArgFits(conv, args)
  {
    if conv == Ch('s') then
      (match args[0].s case None => NullText() case Some(t) => t)
    else if conv == Ch('d') then
      SignedText(f, Signed(args[0].w))
    else if conv == Ch('u') then Padded(f, args[0].w, 10, false)
    else if conv == Ch('x') then Padded(f, args[0].w, 16, false)
    else if conv == Ch('X') then Padded(f, args[0].w, 16, true)
    else if conv == Ch('c') then [args[0].w % 0x100]
    else if conv == Ch('%') then [Ch('%')]
    else [Ch('%'), conv]
  }

  function NullText(): seq<byte> {
    [Ch('('), Ch('n'), Ch('u'), Ch('l'), Ch('l'), Ch(')')]
  }

  function Consume(conv: byte, args: seq<Arg>): seq<Arg>
    requires ArgFits(conv, args)
  {
    if TakesArg(conv) then args[1..] else args
  }

  /** The arguments are the ones the format asks for, in order. */
  predicate Matches(fmt: seq<byte>, args: seq<Arg>)
    decreases |fmt|
  {
    if fmt == [] then true
    else if fmt[0] != Ch('%') then Matches(fmt[1..], args)
    else
      var (f, rest) := ParseFlags(fmt[1..]);
      rest != [] ==> ArgFits(rest[0], args) && Matches(rest[1..], Consume(rest[0], args))
  }

  /** The unbounded rendering; a format that ends inside a conversion prints nothing for it. */
  function Render(fmt: seq<byte>, args: seq<Arg>): seq<byte>
    requires Matches(fmt, args)
    decreases |fmt|
  {
    if fmt == [] then []
    else if fmt[0] != Ch('%') then [fmt[0]] + Render(fmt[1..], args)
    else
      var (f, rest) := ParseFlags(fmt[1..]);
      if rest == [] then []
      else Piece(f, rest[0], args) + Render(rest[1..], Consume(rest[0], args))
  }

  /** What a digit character stands for. */
  function DigitValue(c: byte): nat {
    if IsDigit(c) then c - Ch('0')
    else if Ch('a') <= c <= Ch('f') then c - Ch('a') + 10
    else if Ch('A') <= c <= Ch('F') then c - Ch('A') + 10
    else 0
  }

  /** The value of a numeral read from its most significant digit. */
  function Value(s: seq<byte>, base: nat): nat {
    if s == [] then 0 else Value(s[..|s| - 1], base) * base + DigitValue(s[|s| - 1])
  }

  lemma ReverseCons(c: byte, s: seq<byte>)
    ensures Reverse([c] + s) == Reverse(s) + [c]
  {
    assert ([c] + s)[1..] == s;
  }

  lemma ValueSnoc(s: seq<byte>, c: byte, base: nat)
    ensures Value(s + [c], base) == Value(s, base) * base + DigitValue(c)
  {
    assert (s + [c])[..|s|] == s;
  }

  lemma {:induction false} ValueOfReversedDigits(val: nat, base: nat, upper: bool)
    requires base == 10 || base == 16
    ensures Value(Reverse(DigitsUp(val, base, upper)), base) == val
    decreases val
  {
    if val > 0 {
      QuotientIsDivision(val, base);
      var q := Quotient(val, base);
      ValueOfReversedDigits(q, base, upper);
      var low, high := DigitChar(Remainder(val, base), upper), DigitsUp(q, base, upper);
      ReverseCons(low, high);
      ValueSnoc(Reverse(high), low, base);
    }
  }

  lemma {:induction false} DigitCount(val: nat, base: nat, upper: bool, room: nat)
    requires base == 10 || base == 16
    requires val < Power10(room)
    ensures |DigitsUp(val, base, upper)| <= room
    decreases room
  {
    if val > 0 {
      DigitCount(Quotient(val, base), base, upper, room - 1);
    }
  }

  function Power10(n: nat): nat {
    if n == 0 then 1 else 10 * Power10(n - 1)
  }

  lemma Power10Of10()
    ensures Power10(10) == 10_000_000_000
  {
    assert Power10(5) == 100_000;
    assert Power10(9) == 1_000_000_000;
  }

  /** Every 32-bit number prints in at most ten digits, and the digits read back as the number. */
  lemma NumberTextReadsBack(val: u32, base: nat, upper: bool)
    requires base == 10 || base == 16
    ensures Value(NumberText(val, base, upper), base) == val
    ensures 1 <= |NumberText(val, base, upper)| <= 10
  {
    Power10Of10();
    DigitCount(val, base, upper, 10);
    if val == 0 {
      assert [Ch('0')][..0] == [];
    } else {
      ValueOfReversedDigits(val, base, upper);
    }
  }

  /** The first `pos` cells of the buffer hold as much of `text` as `cap` allows. */
  ghost predicate Holds(out: array<byte>, cap: nat, pos: nat, text: seq<byte>)
    reads out
  {
    && cap <= out.Length
    && pos == Min(cap, |text|)
    && out[..pos] == text[..pos]
  }

  method PutC(out: array<byte>, cap: nat, pos: nat, c: byte, ghost text: seq<byte>) returns (pos': nat)
    requires Holds(out, cap, pos, text)
    modifies out
    ensures Holds(out, cap, pos', text + [c])
    ensures out[cap..] == old(out[cap..])
  {
    pos' := pos;
    if pos < cap {
      out[pos] := c;
      pos' := pos + 1;
    }
  }

  method PutStr(out: array<byte>, cap: nat, pos: nat, s: Option<seq<byte>>, ghost text: seq<byte>) returns (pos': nat)
    requires Holds(out, cap, pos, text)
    modifies out
    ensures Holds(out, cap, pos', text + if s.Some? then s.value else NullText())
    ensures out[cap..] == old(out[cap..])
  {
    var t := if s.Some? then s.value else NullText();
    pos' := pos;
    var i := 0;
    assert text + t[..0] == text;
    while i < |t|
      invariant i <= |t|
      invariant Holds(out, cap, pos', text + t[..i])
      invariant out[cap..] == old(out[cap..])
    {
      pos' := PutC(out, cap, pos', t[i], text + t[..i]);
      assert text + t[..i] + [t[i]] == text + t[..i + 1];
      i := i + 1;
    }
    assert t[..i] == t;
  }

  lemma Assoc(a: seq<byte>, b: seq<byte>, c: seq<byte>)
    ensures (a + b) + c == a + (b + c)
  {
  }

  /** Fills the ten-character scratch from the least significant digit. */
  method Digits(val0: u32, base: nat, upper: bool, tmp: array<byte>) returns (n: nat)
    requires base == 10 || base == 16
    requires tmp.Length == 10
    modifies tmp
    ensures n <= 10 && n == |NumberText(val0, base, upper)|
    ensures Reverse(tmp[..n]) == NumberText(val0, base, upper)
  {
    if val0 == 0 {
      tmp[0] := Ch('0');
      ReverseCons(Ch('0'), []);
      assert tmp[..1] == [Ch('0')] + [];
      n := 1;
    } else {
      n := DigitsOfPositive(val0, base, upper, tmp);
    }
  }

  method DivMod(val: nat, base: nat) returns (digit: nat, rest: nat)
    requires base == 10 || base == 16
    ensures digit == Remainder(val, base) && rest == Quotient(val, base) && (val > 0 ==> rest < val)
  {
    QuotientIsDivision(val, base);
    digit, rest := val % base, val / base;
  }

  /** One round of the digit loop: the least significant digit moves from what is left to what is done. */
  lemma DigitMoves(val: nat, base: nat, upper: bool, done: seq<byte>, all: seq<byte>)
    requires base == 10 || base == 16
    requires val > 0 && done + DigitsUp(val, base, upper) == all
    ensures |done| < |all|
    ensures done + [DigitChar(Remainder(val, base), upper)] + DigitsUp(Quotient(val, base), base, upper) == all
  {
    Assoc(done, [DigitChar(Remainder(val, base), upper)], DigitsUp(Quotient(val, base), base, upper));
  }

  method DigitsOfPositive(val0: u32, base: nat, upper: bool, tmp: array<byte>) returns (n: nat)
    requires base == 10 || base == 16
    requires tmp.Length == 10
    modifies tmp
    ensures n <= 10 && tmp[..n] == DigitsUp(val0, base, upper)
  {
    n := 0;
    var val: nat := val0;
    Power10Of10();
    DigitCount(val, base, upper, 10);
    ghost var all := DigitsUp(val0, base, upper);
    assert tmp[..0] + all == all;
    while val > 0
      invariant n <= 10 && tmp[..n] + DigitsUp(val, base, upper) == all
      decreases val
    {
      DigitMoves(val, base, upper, tmp[..n], all);
      var digit, rest := DivMod(val, base);
      ghost var done := tmp[..n];
      tmp[n] := DigitChar(digit, upper);
      n := n + 1;
      assert tmp[..n] == done + [DigitChar(digit, upper)];
      val := rest;
    }
  }

  /** Prints the scratch from its last digit down. */
  method PutReversed(out: array<byte>, cap: nat, pos: nat, tmp: array<byte>, n: nat, ghost text: seq<byte>)
    returns (pos': nat)
    requires Holds(out, cap, pos, text) && n <= tmp.Length && tmp != out
    modifies out
    ensures Holds(out, cap, pos', text + Reverse(tmp[..n]))
    ensures out[cap..] == old(out[cap..])
  {
    pos' := pos;
    var k: nat := n;
    ghost var done, all := text, text + Reverse(tmp[..n]);
    while k > 0
      invariant k <= n && done + Reverse(tmp[..k]) == all
      invariant Holds(out, cap, pos', done)
      invariant out[cap..] == old(out[cap..])
    {
      k := k - 1;
      ReverseSnoc(tmp[..k], tmp[k]);
      assert tmp[..k + 1] == tmp[..k] + [tmp[k]];
      assert done + ([tmp[k]] + Reverse(tmp[..k])) == (done + [tmp[k]]) + Reverse(tmp[..k]);
      pos' := PutC(out, cap, pos', tmp[k], done);
      done := done + [tmp[k]];
    }
    assert done + [] == done;
  }

  method PutPadding(out: array<byte>, cap: nat, pos: nat, f: Flags, length: nat, ghost text: seq<byte>)
    returns (pos': nat)
    requires Holds(out, cap, pos, text)
    modifies out
    ensures Holds(out, cap, pos', text + Padding(f, length))
    ensures out[cap..] == old(out[cap..])
  {
    pos' := pos;
    var pad := PadChar(f.zero);
    var i := 0;
    assert text + Repeat(pad, 0) == text;
    while i < f.width - length
      invariant 0 <= i && (i <= f.width - length || i == 0)
      invariant Holds(out, cap, pos', text + Repeat(pad, i))
      invariant out[cap..] == old(out[cap..])
    {
      pos' := PutC(out, cap, pos', pad, text + Repeat(pad, i));
      assert text + Repeat(pad, i) + [pad] == text + Repeat(pad, i + 1);
      i := i + 1;
    }
  }

  /** Prints the number's digits behind its padding, through a scratch of ten characters. */
  method PutNumber(out: array<byte>, cap: nat, pos: nat, f: Flags, val: u32, base: nat, upper: bool,
                   ghost text: seq<byte>) returns (pos': nat)
    requires Holds(out, cap, pos, text)
    requires base == 10 || base == 16
    modifies out
    ensures Holds(out, cap, pos', text + Padded(f, val, base, upper))
    ensures out[cap..] == old(out[cap..])
  {
    var tmp := new byte[10];
    var n := Digits(val, base, upper, tmp);
    pos' := PutPadding(out, cap, pos, f, n, text);
    pos' := PutReversed(out, cap, pos', tmp, n, text + Padding(f, n));
    Assoc(text, Padding(f, n), NumberText(val, base, upper));
  }

  lemma {:induction false} ReverseSnoc(s: seq<byte>, c: byte)
    ensures Reverse(s + [c]) == [c] + Reverse(s)
  {
    if s == [] {
      assert s + [c] == [c] && Reverse([c]) == Reverse([]) + [c];
    } else {
      assert (s + [c])[1..] == s[1..] + [c];
      ReverseSnoc(s[1..], c);
    }
  }

  /** Prints a signed number: the sign first, then the padding and the magnitude, which fits 32 bits unsigned. */
  method PutSigned(out: array<byte>, cap: nat, pos: nat, f: Flags, v: int, ghost text: seq<byte>) returns (pos': nat)
    requires Holds(out, cap, pos, text) && -TWO31 <= v < TWO31
    modifies out
    ensures Holds(out, cap, pos', text + SignedText(f, v))
    ensures out[cap..] == old(out[cap..])
  {
    if v < 0 {
      pos' := PutC(out, cap, pos, Ch('-'), text);
      var m: u32 := -(v + 1) + 1;
      ghost var number := Padded(f, m, 10, false);
      assert SignedText(f, v) == [Ch('-')] + number;
      Assoc(text, [Ch('-')], number);
      pos' := PutNumber(out, cap, pos', f, m, 10, false, text + [Ch('-')]);
    } else {
      pos' := PutNumber(out, cap, pos, f, v, 10, false, text);
    }
  }

  /** Prints one conversion. */
  method PutPiece(out: array<byte>, cap: nat, pos: nat, f: Flags, conv: byte, args: seq<Arg>,
                  ghost text: seq<byte>) returns (pos': nat)
    requires Holds(out, cap, pos, text) && ArgFits(conv, args)
    modifies out
    ensures Holds(out, cap, pos', text + Piece(f, conv, args))
    ensures out[cap..] == old(out[cap..])
  {
    if conv == Ch('s') {
      pos' := PutStr(out, cap, pos, args[0].s, text);
    } else if conv == Ch('d') {
      pos' := PutSigned(out, cap, pos, f, Signed(args[0].w), text);
    } else if conv == Ch('u') {
      pos' := PutNumber(out, cap, pos, f, args[0].w, 10, false, text);
    } else if conv == Ch('x') {
      pos' := PutNumber(out, cap, pos, f, args[0].w, 16, false, text);
    } else if conv == Ch('X') {
      pos' := PutNumber(out, cap, pos, f, args[0].w, 16, true, text);
    } else if conv == Ch('c') {
      pos' := PutC(out, cap, pos, args[0].w % 0x100, text);
    } else if conv == Ch('%') {
      pos' := PutC(out, cap, pos, Ch('%'), text);
    } else {
      pos' := PutC(out, cap, pos, Ch('%'), text);
      pos' := PutC(out, cap, pos', conv, text + [Ch('%')]);
      assert text + [Ch('%')] + [conv] == text + [Ch('%'), conv];
    }
  }

  /** Skips the padding flag and the width, accumulating the width modulo 2^32. */
  method ReadFlags(s: seq<byte>) returns (f: Flags, rest: seq<byte>)
    ensures (f, rest) == ParseFlags(s)
  {
    rest := s;
    var zero := false;
    var width: u32 := 0;
    if rest != [] && rest[0] == Ch('0') {
      zero, rest := true, rest[1..];
    }
    while rest != [] && IsDigit(rest[0])
      invariant ParseWidth(width, rest) == ParseWidth(0, if zero then s[1..] else s)
      decreases |rest|
    {
      width := (width * 10 + (rest[0] - Ch('0'))) % TWO32;
      rest := rest[1..];
    }
    f := Flags(zero, width);
  }

  /**
   * The bounded formatter. It returns how much of the unbounded rendering fits `cap`, leaves that
   * prefix in the buffer with a terminator inside the bounds, and touches nothing past them.
   */
  method VFormat(out: array<byte>, cap: nat, fmt: seq<byte>, args: seq<Arg>) returns (n: int)
    requires cap <= out.Length && Matches(fmt, args)
    modifies out
    ensures cap == 0 ==> n == -1
    ensures cap > 0 ==>
              && n == Min(cap, |Render(fmt, args)|)
              && var end := Min(cap - 1, |Render(fmt, args)|);
                 out[..end] == Render(fmt, args)[..end] && out[end] == 0
    ensures out[cap..] == old(out[cap..])
  {
    if cap == 0 {
      return -1;
    }
    var pos: nat := 0;
    var p, rest := fmt, args;
    ghost var text: seq<byte>, whole := [], Render(fmt, args);
    while p != []
      invariant Matches(p, rest) && text + Render(p, rest) == whole
      invariant Holds(out, cap, pos, text)
      invariant out[cap..] == old(out[cap..])
      decreases |p|
    {
      if p[0] != Ch('%') {
        Assoc(text, [p[0]], Render(p[1..], rest));
        pos := PutC(out, cap, pos, p[0], text);
        text, p := text + [p[0]], p[1..];
      } else {
        var f, tail := ReadFlags(p[1..]);
        if tail == [] {
          assert Render(p, rest) == [];
          p := [];
          rest := [];
        } else {
          ghost var piece, after := Piece(f, tail[0], rest), Render(tail[1..], Consume(tail[0], rest));
          Assoc(text, piece, after);
          pos := PutPiece(out, cap, pos, f, tail[0], rest, text);
          text, p, rest := text + piece, tail[1..], Consume(tail[0], rest);
        }
      }
    }
    assert text == whole;
    if pos < cap {
      out[pos] := 0;
    } else {
      out[cap - 1] := 0;
    }
    n := pos;
  }

  /**
   * The line that is posted: the rendering cut to one character less than the line limit, and the
   * line ending. Nothing is posted for an empty rendering. The line fits its allocation and the log
   * task's pending buffer.
   */
  method LogPrintf(fmt: seq<byte>, args: seq<Arg>) returns (line: Option<seq<byte>>)
    requires Matches(fmt, args)
    ensures line.None? <==> Render(fmt, args) == []
    ensures line.Some? ==>
              && line.value == Render(fmt, args)[..Min(127, |Render(fmt, args)|)] + [13, 10]
              && Console.Fits(Console.Line(line.value))
  {
    var buf := new byte[LINE_MAX + 2];
    var n := VFormat(buf, LINE_MAX, fmt, args);
    if n <= 0 {
      return None;
    }
    var len := n;
    if len >= LINE_MAX {
      len := LINE_MAX - 1;
    }
    buf[len] := 13;
    buf[len + 1] := 10;
    line := Some(buf[..len + 2]);
  }

  lemma PadIsWorthless(zero: bool)
    ensures DigitValue(PadChar(zero)) == 0
  {
  }

  /** Padding in front of a numeral does not change what it reads as. */
  lemma {:induction false} PaddingKeepsValue(c: byte, n: nat, t: seq<byte>, base: nat)
    requires DigitValue(c) == 0
    ensures Value(Repeat(c, n) + t, base) == Value(t, base)
    decreases |t|, n
  {
    var all := Repeat(c, n) + t;
    if t != [] {
      PaddingKeepsValue(c, n, t[..|t| - 1], base);
      assert all[..|all| - 1] == Repeat(c, n) + t[..|t| - 1];
    } else if n > 0 {
      PaddingKeepsValue(c, n - 1, [], base);
      assert all[..|all| - 1] == Repeat(c, n - 1) + [];
    }
  }

  /** `%d` prints every integer exactly, the least one included, at every width. */
  lemma IntegersPrintExactly(w: u32, f: Flags)
    ensures var text := Piece(f, Ch('d'), [Word(w)]);
            if Signed(w) < 0 then text[0] == Ch('-') && Signed(w) + Value(text[1..], 10) == 0
            else Value(text, 10) == Signed(w)
  {
    var v := Signed(w);
    var m: nat := if v < 0 then -v else v;
    var digits := NumberText(m, 10, false);
    NumberTextReadsBack(m, 10, false);
    PadIsWorthless(f.zero);
    PaddingKeepsValue(PadChar(f.zero), if f.width > |digits| then f.width - |digits| else 0, digits, 10);
    assert v < 0 ==> SignedText(f, v)[1..] == Padded(f, m, 10, false);
  }
}
