/**
 * The NEC protocol in its own numbers: which widths a frame and a repeat are sent with, and which
 * measured widths are heard as one. Nothing here refers to the names the encoder and the decoder use.
 */
module NecLaws {
  import opened Common
  import opened Nec

  /** Bit `j` of a byte, the most significant first. */
  predicate BitOf(b: byte, j: nat)
    requires j < 8
  {
    b / [128, 64, 32, 16, 8, 4, 2, 1][j] % 2 == 1
  }

  /** The four bytes of a frame in the order they are sent. */
  function Sent(address: byte, command: byte, k: nat): byte
    requires k < 4
  {
    [address, 255 - address, command, 255 - command][k]
  }

  lemma {:induction false} BitsSplit(hi: nat, lo: nat, n: nat, k: nat)
    requires lo < Power2(k)
    ensures Bits(hi * Power2(k) + lo, n + k) == Bits(hi, n) + Bits(lo, k)
  {
    if k > 0 {
      var half := Power2(k - 1);
      assert hi * Power2(k) == 2 * (hi * half);
      assert (2 * (hi * half) + lo) / 2 == hi * half + lo / 2;
      BitsSplit(hi, lo / 2, n, k - 1);
    }
  }

  lemma BitsAppendByte(hi: nat, lo: byte, n: nat)
    ensures Bits(hi * 256 + lo, n + 8) == Bits(hi, n) + Bits(lo, 8)
  {
    assert Power2(8) == 256;
    BitsSplit(hi, lo, n, 8);
  }

  lemma {:induction false} ShiftDivides(x: nat, k: nat)
    ensures Power2(k) > 0 && Shr(x, k) == x / Power2(k)
  {
    if k > 0 {
      ShiftDivides(x / 2, k - 1);
      var p := Power2(k - 1);
      HalvesDivide(x, p);
    }
  }

  lemma HalvesDivide(x: nat, p: nat)
    requires p > 0
    ensures x / 2 / p == x / (2 * p)
  {
    var q := x / 2 / p;
    assert 2 * p * q <= x < 2 * p * q + 2 * p by {
      assert p * q <= x / 2 < p * q + p;
    }
    QuotientIs(x, 2 * p, q);
  }

  lemma QuotientIs(x: nat, d: nat, q: nat)
    requires d > 0 && d * q <= x < d * q + d
    ensures x / d == q
  {
    var q' := x / d;
    assert d * q' <= x < d * q' + d;
    TimesMonotone(d, q' + 1, q);
    TimesMonotone(d, q + 1, q');
  }

  lemma TimesMonotone(d: nat, a: nat, b: nat)
    ensures a <= b ==> d * a <= d * b
  {
    if a <= b {
      assert d * b == d * a + d * (b - a);
    }
  }

  lemma Weights(k: nat)
    requires k < 8
    ensures Power2(k) == [1, 2, 4, 8, 16, 32, 64, 128][k]
  {
  }

  lemma ByteBits(b: byte, j: nat)
    requires j < 8
    ensures Bits(b, 8)[j] == BitOf(b, j)
  {
    BitsAt(b, 8, j);
    ShiftDivides(b, 7 - j);
    Weights(7 - j);
  }

  /** The transmitted word is the four bytes one after the other. */
  lemma WordIsBytes(address: byte, command: byte)
    ensures Bits(WordOf(address, command), 32)
         == Bits(address, 8) + Bits(255 - address, 8) + Bits(command, 8) + Bits(255 - command, 8)
  {
    var top := address * 256 + (255 - address);
    var third := top * 256 + command;
    assert WordOf(address, command) == third * 256 + (255 - command);
    BitsAppendByte(address, 255 - address, 8);
    BitsAppendByte(top, command, 16);
    BitsAppendByte(third, 255 - command, 24);
  }

  lemma FourBytesAt(bytes: seq<seq<bool>>, k: nat, j: nat)
    requires |bytes| == 4 && k < 4 && j < 8 && forall i :: 0 <= i < 4 ==> |bytes[i]| == 8
    ensures (bytes[0] + bytes[1] + bytes[2] + bytes[3])[8 * k + j] == bytes[k][j]
  {
  }

  lemma WordBit(address: byte, command: byte, k: nat, j: nat)
    requires k < 4 && j < 8
    ensures Bits(WordOf(address, command), 32)[8 * k + j] == BitOf(Sent(address, command, k), j)
  {
    WordIsBytes(address, command);
    FourBytesAt([Bits(address, 8), Bits(255 - address, 8), Bits(command, 8), Bits(255 - command, 8)], k, j);
    ByteBits(Sent(address, command, k), j);
  }

  /**
   * A frame is sent as 9000 us of carrier, 4500 us of silence, then for each bit of the address, its
   * complement, the command and its complement, most significant first, 560 us of carrier and 1690 us of
   * silence for a one or 560 us for a zero, and last a 560 us mark.
   */
  lemma FrameIsSpelledOut(address: byte, command: byte)
    ensures var d := Durations(Flat(FrameWaves(address, command)));
            && |d| == 67 && d[0] == 9000 && d[1] == 4500 && d[66] == 560
            && forall k: nat, j: nat :: k < 4 && j < 8 ==>
                 && d[2 + 2 * (8 * k + j)] == 560
                 && d[3 + 2 * (8 * k + j)] == if BitOf(Sent(address, command, k), j) then 1690 else 560
  {
    FlatFrame(address, command);
    forall k: nat, j: nat | k < 4 && j < 8
      ensures Bits(WordOf(address, command), 32)[8 * k + j] == BitOf(Sent(address, command, k), j)
    {
      WordBit(address, command, k, j);
    }
  }

  /** A repeat is sent as 9000 us of carrier, 2250 us of silence and a 560 us mark. */
  lemma RepeatIsSpelledOut()
    ensures Flat(RepeatWaves()) == [Segment(9000, true), Segment(2250, false), Segment(560, true)]
  {
    var w := RepeatWaves();
    assert w[..1] == [Wave(9000, 2250)] && w[..1][..0] == [];
    assert Flat(w[..1]) == [] + Piece(w[0]);
    assert Flat(w) == Flat(w[..1]) + Piece(w[1]);
  }

  /** The widths that are heard as bit `bit`: a mark of 280 to 840 us, then a space of its own band. */
  predicate HeardAs(mark: u16, space: u16, bit: bool) {
    280 <= mark <= 840 && if bit then 845 <= space <= 2535 else 280 <= space <= 840
  }

  lemma BandsInMicroseconds(v: u16)
    ensures Matches(v, 9000) <==> 4500 <= v <= 13500
    ensures Matches(v, 4500) <==> 2250 <= v <= 6750
    ensures Matches(v, 2250) <==> 1125 <= v <= 3375
    ensures Matches(v, 1690) <==> 845 <= v <= 2535
    ensures Matches(v, 560) <==> 280 <= v <= 840
  {
  }

  /** Bit `j` of byte `k` is heard as it was sent. */
  predicate BitHeard(p: seq<u16>, address: byte, command: byte, k: nat, j: nat)
    requires k < 4 && j < 8 && |p| >= 66
  {
    var at := 2 + 2 * (8 * k + j);
    HeardAs(p[at], p[at + 1], BitOf(Sent(address, command, k), j))
  }

  predicate Heard(p: seq<u16>, address: byte, command: byte) {
    && |p| >= 66 && 4500 <= p[0] <= 13500 && 3375 < p[1] <= 6750
    && forall k: nat, j: nat :: k < 4 && j < 8 ==> BitHeard(p, address, command, k, j)
  }

  /** Bit `i` of the word lies in its bands. */
  predicate InBand(p: seq<u16>, bits: seq<bool>, i: nat)
    requires i < |bits| && |p| >= 2 + 2 * |bits|
  {
    Matches(p[2 + 2 * i], BIT_MARK) && Matches(p[3 + 2 * i], if bits[i] then ONE_SPACE else ZERO_SPACE)
  }

  lemma HeardBit(p: seq<u16>, address: byte, command: byte, k: nat, j: nat)
    requires k < 4 && j < 8 && |p| >= 66
    ensures BitHeard(p, address, command, k, j) <==> InBand(p, Bits(WordOf(address, command), 32), 8 * k + j)
  {
    var i := 8 * k + j;
    WordBit(address, command, k, j);
    BandsInMicroseconds(p[2 + 2 * i]);
    BandsInMicroseconds(p[3 + 2 * i]);
  }

  lemma BandByBand(p: seq<u16>, bits: seq<bool>)
    requires |p| >= 2 + 2 * |bits|
    ensures BitsMatch(p, bits) <==> forall i: nat :: i < |bits| ==> InBand(p, bits, i)
  {
    if forall i: nat :: i < |bits| ==> InBand(p, bits, i) {
      forall i | 0 <= i < |bits|
        ensures Matches(p[2 + 2 * i], BIT_MARK) && Matches(p[3 + 2 * i], if bits[i] then ONE_SPACE else ZERO_SPACE)
      {
        assert InBand(p, bits, i);
      }
    }
  }

  lemma HeardIsBitsMatch(p: seq<u16>, address: byte, command: byte)
    requires |p| >= 66
    ensures BitsMatch(p, Bits(WordOf(address, command), 32)) <==>
            forall k: nat, j: nat :: k < 4 && j < 8 ==> BitHeard(p, address, command, k, j)
  {
    var bits := Bits(WordOf(address, command), 32);
    BandByBand(p, bits);
    if forall k: nat, j: nat :: k < 4 && j < 8 ==> BitHeard(p, address, command, k, j) {
      forall i: nat | i < 32
        ensures InBand(p, bits, i)
      {
        HeardBit(p, address, command, i / 8, i % 8);
      }
    } else {
      var k: nat, j: nat :| k < 4 && j < 8 && !BitHeard(p, address, command, k, j);
      HeardBit(p, address, command, k, j);
    }
  }

  /** Which measured widths decode to the frame of an address and a command, in microseconds. */
  lemma FrameIsHeardIff(p: seq<u16>, address: byte, command: byte)
    ensures Decode(p) == Some(Frame(address, 255 - address, command, 255 - command, false)) <==>
            Heard(p, address, command)
  {
    DecodeInvertsEncodeIff(p, address, command);
    BandsAreBits(p, address, command);
    if |p| >= 66 {
      HeardIsBitsMatch(p, address, command);
      BandsInMicroseconds(p[0]);
      BandsInMicroseconds(p[1]);
    }
  }

  /** Which measured widths decode to a repeat, in microseconds. */
  lemma RepeatIsHeardIff(p: seq<u16>)
    ensures Decode(p) == Some(Frame(0, 0, 0, 0, true)) <==>
            |p| >= 3 && 4500 <= p[0] <= 13500 && 1125 <= p[1] <= 3375
  {
    RepeatDecodesIff(p);
    if |p| >= 3 {
      BandsInMicroseconds(p[0]);
      BandsInMicroseconds(p[1]);
    }
  }

  /** What is heard is a repeat or a frame; everything else is turned away. */
  lemma AnythingElseIsTurnedAway(p: seq<u16>)
    ensures Decode(p).None? <==>
            && !(|p| >= 3 && 4500 <= p[0] <= 13500 && 1125 <= p[1] <= 3375)
            && forall address: byte, command: byte :: !Heard(p, address, command)
  {
    RepeatIsHeardIff(p);
    if Decode(p).Some? {
      if !Decode(p).value.isRepeat {
        DecodedFramesAreFrames(p);
        var f := Decode(p).value;
        FrameIsHeardIff(p, f.address, f.command);
        assert Heard(p, f.address, f.command);
      }
    } else {
      forall address: byte, command: byte
        ensures !Heard(p, address, command)
      {
        FrameIsHeardIff(p, address, command);
      }
    }
  }
}
