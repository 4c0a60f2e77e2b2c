/** The NEC infrared protocol: encoding to waves, and the tolerant decoder of measured pulse widths. */
module Nec {
  import opened Common

  const LEADER_MARK: u16 := 9000
  const LEADER_SPACE: u16 := 4500
  const BIT_MARK: u16 := 560
  const ZERO_SPACE: u16 := 560
  const ONE_SPACE: u16 := 1690
  const REPEAT_MARK: u16 := 9000
  const REPEAT_SPACE: u16 := 2250
  const REPEAT_END: u16 := 560
  const TOLERANCE: nat := 50
  const MAX_SEGMENTS: nat := 80

  datatype Wave = Wave(mark: u16, space: u16)

  /** A stretch with the carrier on or off. */
  datatype Segment = Segment(duration: u16, carrier: bool)

  datatype Frame = Frame(address: byte, addressInv: byte, command: byte, commandInv: byte, isRepeat: bool)

  // ---- Bits and words ----

  /** `x >> k`. */
  function Shr(x: nat, k: nat): nat {
    if k == 0 then x else Shr(x / 2, k - 1)
  }

  /** The low `n` bits of `x`, most significant first. */
  function Bits(x: nat, n: nat): (bits: seq<bool>)
    ensures |bits| == n
  {
    if n == 0 then [] else Bits(x / 2, n - 1) + [x % 2 == 1]
  }

  /** The number the bits spell, most significant first. */
  function Value(bits: seq<bool>): nat {
    if bits == [] then 0 else 2 * Value(bits[..|bits| - 1]) + if bits[|bits| - 1] then 1 else 0
  }

  function Power2(n: nat): nat {
    if n == 0 then 1 else 2 * Power2(n - 1)
  }

  lemma {:induction false} BitsAt(x: nat, n: nat, i: nat)
    requires i < n
    ensures Bits(x, n)[i] == (Shr(x, n - 1 - i) % 2 == 1)
  {
    if i < n - 1 {
      BitsAt(x / 2, n - 1, i);
    }
  }

  lemma {:induction false} ValueOfBits(x: nat, n: nat)
    requires x < Power2(n)
    ensures Value(Bits(x, n)) == x
  {
    if n > 0 {
      ValueOfBits(x / 2, n - 1);
      assert Bits(x, n)[..n - 1] == Bits(x / 2, n - 1);
    }
  }

  lemma {:induction false} BitsOfValue(bits: seq<bool>)
    ensures Bits(Value(bits), |bits|) == bits && Value(bits) < Power2(|bits|)
  {
    if bits != [] {
      var front := bits[..|bits| - 1];
      BitsOfValue(front);
      assert Value(bits) / 2 == Value(front);
      assert bits == front + [bits[|bits| - 1]];
    }
  }

  lemma Power2Of32()
    ensures Power2(32) == 0x1_0000_0000
  {
    assert Power2(8) == 0x100;
    assert Power2(16) == 0x1_0000;
    assert Power2(24) == 0x100_0000;
  }

  /** Exclusive or of the low `n` bits. */
  function Xor(x: nat, y: nat, n: nat): nat {
    if n == 0 then 0 else 2 * Xor(x / 2, y / 2, n - 1) + if x % 2 != y % 2 then 1 else 0
  }

  lemma {:induction false} XorIsAllOnesIff(x: nat, y: nat, n: nat)
    requires x < Power2(n) && y < Power2(n)
    ensures Xor(x, y, n) < Power2(n)
    ensures Xor(x, y, n) == Power2(n) - 1 <==> x + y == Power2(n) - 1
  {
    if n > 0 {
      XorIsAllOnesIff(x / 2, y / 2, n - 1);
    }
  }

  /** The transmitted word: address, its complement, command, its complement. */
  function WordOf(address: byte, command: byte): u32 {
    ((address * 0x100 + (0xFF - address)) * 0x100 + command) * 0x100 + (0xFF - command)
  }

  function FrameOf(address: byte, command: byte): Frame {
    Frame(address, 0xFF - address, command, 0xFF - command, false)
  }

  // ---- Encoding ----

  function BitWave(bit: bool): Wave {
    Wave(BIT_MARK, if bit then ONE_SPACE else ZERO_SPACE)
  }

  function BitWaves(bits: seq<bool>): (waves: seq<Wave>)
    ensures |waves| == |bits|
    ensures forall i :: 0 <= i < |bits| ==> waves[i] == BitWave(bits[i])
  {
    if bits == [] then [] else BitWaves(bits[..|bits| - 1]) + [BitWave(bits[|bits| - 1])]
  }

  /** Leader, thirty-two data bits, and a closing mark. */
  function FrameWaves(address: byte, command: byte): (waves: seq<Wave>)
    ensures |waves| == 34
  {
    [Wave(LEADER_MARK, LEADER_SPACE)] + BitWaves(Bits(WordOf(address, command), 32)) + [Wave(BIT_MARK, 0)]
  }

  function RepeatWaves(): seq<Wave> {
    [Wave(REPEAT_MARK, REPEAT_SPACE), Wave(REPEAT_END, 0)]
  }

  method AppendWave(waves: array<Wave>, idx: nat, cap: nat, mark: u16, space: u16) returns (idx': nat)
    requires cap <= waves.Length
    modifies waves
    ensures idx >= cap ==> idx' == idx && waves[..] == old(waves[..])
    ensures idx < cap ==> idx' == idx + 1 && waves[..] == old(waves[..])[idx := Wave(mark, space)]
  {
    if idx >= cap {
      return idx;
    }
    waves[idx] := Wave(mark, space);
    idx' := idx + 1;
  }

  method Encode(address: byte, command: byte, waves: array<Wave>, cap: nat) returns (n: nat)
    requires cap <= waves.Length
    modifies waves
    ensures cap < 34 ==> n == 0 && waves[..] == old(waves[..])
    ensures cap >= 34 ==> n == 34 && waves[..n] == FrameWaves(address, command)
  {
    if cap < 34 {
      return 0;
    }
    var idx := AppendWave(waves, 0, cap, LEADER_MARK, LEADER_SPACE);
    var data: u32 := address * 0x100_0000 + (0xFF - address) * 0x1_0000 + command * 0x100 + (0xFF - command);
    ghost var bits := Bits(data, 32);
    var bit := 31;
    while bit >= 0
      invariant -1 <= bit <= 31 && idx == 32 - bit
      invariant waves[0] == Wave(LEADER_MARK, LEADER_SPACE)
      invariant forall i :: 1 <= i < idx ==> waves[i] == BitWave(bits[i - 1])
    {
      BitsAt(data, 32, 31 - bit);
      var space := if Shr(data, bit) % 2 == 1 then ONE_SPACE else ZERO_SPACE;
      idx := AppendWave(waves, idx, cap, BIT_MARK, space);
      bit := bit - 1;
    }
    if idx < cap {
      waves[idx] := Wave(560, 0);
      idx := idx + 1;
    }
    n := idx;
  }

  method EncodeRepeat(waves: array<Wave>, cap: nat) returns (n: nat)
    requires cap <= waves.Length
    modifies waves
    ensures cap < 3 ==> n == 0
    ensures cap >= 3 ==> n == 2 && waves[..n] == RepeatWaves()
  {
    if cap < 3 {
      return 0;
    }
    n := AppendWave(waves, 0, cap, REPEAT_MARK, REPEAT_SPACE);
    if n < cap {
      waves[n] := Wave(REPEAT_END, 0);
      n := n + 1;
    }
  }

  // ---- Flattening ----

  function Piece(w: Wave): seq<Segment> {
    (if w.mark != 0 then [Segment(w.mark, true)] else []) + (if w.space != 0 then [Segment(w.space, false)] else [])
  }

  /** The waves as consecutive segments; empty stretches vanish. */
  function Flat(waves: seq<Wave>): seq<Segment> {
    if waves == [] then [] else Flat(waves[..|waves| - 1]) + Piece(waves[|waves| - 1])
  }

  function Durations(segments: seq<Segment>): (widths: seq<u16>)
    ensures |widths| == |segments|
  {
    seq(|segments|, i requires 0 <= i < |segments| => segments[i].duration)
  }

  lemma {:induction false} FlatAppend(a: seq<Wave>, b: seq<Wave>)
    ensures Flat(a + b) == Flat(a) + Flat(b)
  {
    if b == [] {
      assert a + b == a;
    } else {
      assert (a + b)[..|a + b| - 1] == a + b[..|b| - 1];
      FlatAppend(a, b[..|b| - 1]);
    }
  }

  lemma {:induction false} FlatBitWaves(bits: seq<bool>)
    ensures |Flat(BitWaves(bits))| == 2 * |bits|
    ensures forall i :: 0 <= i < |bits| ==>
              && Flat(BitWaves(bits))[2 * i] == Segment(BIT_MARK, true)
              && Flat(BitWaves(bits))[2 * i + 1] == Segment(if bits[i] then ONE_SPACE else ZERO_SPACE, false)
  {
    if bits != [] {
      var front := bits[..|bits| - 1];
      FlatBitWaves(front);
      assert BitWaves(bits)[..|bits| - 1] == BitWaves(front);
    }
  }

  /** The nominal pulse widths of a frame: leader, bits, closing mark. */
  lemma FlatFrame(address: byte, command: byte)
    ensures var d, bits := Durations(Flat(FrameWaves(address, command))), Bits(WordOf(address, command), 32);
            && |d| == 67 && d[0] == LEADER_MARK && d[1] == LEADER_SPACE && d[66] == BIT_MARK
            && forall i :: 0 <= i < 32 ==>
                 d[2 + 2 * i] == BIT_MARK && d[3 + 2 * i] == if bits[i] then ONE_SPACE else ZERO_SPACE
  {
    var bits := Bits(WordOf(address, command), 32);
    var head, data, tail := [Wave(LEADER_MARK, LEADER_SPACE)], BitWaves(bits), [Wave(BIT_MARK, 0)];
    FlatAppend(head + data, tail);
    FlatAppend(head, data);
    FlatBitWaves(bits);
    FlatOne(head[0]);
    FlatOne(tail[0]);
    var flat := Flat(FrameWaves(address, command));
    assert flat == ([Segment(LEADER_MARK, true), Segment(LEADER_SPACE, false)] + Flat(data)) + [Segment(BIT_MARK, true)];
    forall i | 0 <= i < 32
      ensures flat[2 + 2 * i] == Flat(data)[2 * i] && flat[3 + 2 * i] == Flat(data)[2 * i + 1]
    {
    }
  }

  lemma FlatOne(w: Wave)
    ensures Flat([w]) == Piece(w)
  {
    assert [w][..0] == [];
  }

  // ---- Decoding ----

  predicate Matches(value: u16, target: u16) {
    var lo, hi := target * (100 - TOLERANCE) / 100, target * (100 + TOLERANCE) / 100;
    lo <= value <= hi
  }

  /** Measured widths stay in the tolerance bands of the first `n` nominal ones. */
  predicate InBands(measured: seq<u16>, nominal: seq<u16>, n: nat)
    requires n <= |nominal|
  {
    n <= |measured| && forall i :: 0 <= i < n ==> Matches(measured[i], nominal[i])
  }

  /** The first `n` data bits, read from pulse 2 on. */
  function ReadBits(p: seq<u16>, n: nat): Option<seq<bool>> {
    if n == 0 then Some([])
    else
      var before, mark := ReadBits(p, n - 1), 2 * n;
      if before.None? || mark + 1 >= |p| || !Matches(p[mark], BIT_MARK) then None
      else if Matches(p[mark + 1], ONE_SPACE) then Some(before.value + [true])
      else if Matches(p[mark + 1], ZERO_SPACE) then Some(before.value + [false])
      else None
  }

  predicate BitsMatch(p: seq<u16>, bits: seq<bool>) {
    forall i :: 0 <= i < |bits| ==>
      && 3 + 2 * i < |p| && Matches(p[2 + 2 * i], BIT_MARK)
      && Matches(p[3 + 2 * i], if bits[i] then ONE_SPACE else ZERO_SPACE)
  }

  lemma {:induction false} ReadBitsSound(p: seq<u16>, n: nat)
    ensures ReadBits(p, n).Some? ==> |ReadBits(p, n).value| == n && BitsMatch(p, ReadBits(p, n).value)
  {
    if n > 0 {
      ReadBitsSound(p, n - 1);
    }
  }

  lemma {:induction false} ReadBitsComplete(p: seq<u16>, bits: seq<bool>)
    requires BitsMatch(p, bits)
    ensures ReadBits(p, |bits|) == Some(bits)
  {
    if bits != [] {
      var front, n := bits[..|bits| - 1], |bits|;
      ReadBitsComplete(p, front);
      assert bits == front + [bits[n - 1]];
      assert Matches(p[2 + 2 * (n - 1)], BIT_MARK);
    }
  }

  /** The word of a frame, when both complements check; the shifts and truncations of a 32-bit word. */
  function FrameOfWord(data: u32): Option<Frame> {
    var top := data / 0x100 / 0x100;
    var a, ai, c, ci := top / 0x100, top % 0x100, data / 0x100 % 0x100, data % 0x100;
    if Xor(a, ai, 8) != 0xFF || Xor(c, ci, 8) != 0xFF then None else Some(Frame(a, ai, c, ci, false))
  }

  /** The decoder: the repeat check comes first, then leader, data bits and complements. */
  function Decode(p: seq<u16>): Option<Frame> {
    if |p| < 3 then None
    else if Matches(p[0], REPEAT_MARK) && Matches(p[1], REPEAT_SPACE) then Some(Frame(0, 0, 0, 0, true))
    else if !Matches(p[0], LEADER_MARK) || !Matches(p[1], LEADER_SPACE) then None
    else
      var bits := ReadBits(p, 32);
      if bits.None? then None
      else
        ReadBitsSound(p, 32);
        BitsOfValue(bits.value);
        Power2Of32();
        FrameOfWord(Value(bits.value))
  }

  lemma ValueSnoc(bits: seq<bool>, bit: bool)
    ensures Value(bits + [bit]) == 2 * Value(bits) + if bit then 1 else 0
  {
    assert (bits + [bit])[..|bits|] == bits;
  }

  lemma RoomForOneMore(bits: seq<bool>)
    requires |bits| < 32
    ensures 2 * Value(bits) + 1 < 0x1_0000_0000
  {
    BitsOfValue(bits);
    PowerMonotone(|bits|, 31);
    Power2Of32();
  }

  /** One round of the data loop: the word so far shifted by one bit, still below 2^32. */
  lemma NextBit(p: seq<u16>, bit: nat, mark: nat)
    requires bit < 32 && ReadBits(p, bit).Some? && mark == 2 * (bit + 1)
    ensures var before, next := Value(ReadBits(p, bit).value), ReadBits(p, bit + 1);
            && 2 * before + 1 < 0x1_0000_0000
            && (next.Some? <==> mark + 1 < |p| && Matches(p[mark], BIT_MARK)
                                && (Matches(p[mark + 1], ONE_SPACE) || Matches(p[mark + 1], ZERO_SPACE)))
            && (next.Some? ==> Value(next.value) == 2 * before + if Matches(p[mark + 1], ONE_SPACE) then 1 else 0)
  {
    var bits, next := ReadBits(p, bit).value, ReadBits(p, bit + 1);
    ReadBitsSound(p, bit);
    RoomForOneMore(bits);
    if next.Some? {
      var one := Matches(p[mark + 1], ONE_SPACE);
      assert next.value == bits + [one];
      ValueSnoc(bits, one);
    }
  }

  method DecodeDataBits(p: seq<u16>) returns (ok: bool, data: u32)
    ensures ok <==> ReadBits(p, 32).Some?
    ensures ok ==> data == Value(ReadBits(p, 32).value)
  {
    data := 0;
    var bit := 0;
    while bit < 32
      invariant bit <= 32 && ReadBits(p, bit).Some? && data == Value(ReadBits(p, bit).value)
    {
      var mark := 2 + bit * 2;
      NextBit(p, bit, mark);
      var space := mark + 1;
      ok := space < |p| && Matches(p[mark], BIT_MARK) && (Matches(p[space], ONE_SPACE) || Matches(p[space], ZERO_SPACE));
      if !ok {
        ReadBitsStuck(p, bit + 1, 32);
        return;
      }
      data := if Matches(p[space], ONE_SPACE) then data * 2 + 1 else data * 2;
      bit := bit + 1;
    }
    ok := true;
  }

  lemma {:induction false} ReadBitsStuck(p: seq<u16>, n: nat, m: nat)
    requires n <= m && ReadBits(p, n).None?
    ensures ReadBits(p, m).None?
  {
    if n < m {
      ReadBitsStuck(p, n, m - 1);
    }
  }

  lemma {:induction false} PowerMonotone(n: nat, m: nat)
    requires n <= m
    ensures Power2(n) <= Power2(m) && 2 * Power2(31) == Power2(32)
  {
    if n < m {
      PowerMonotone(n, m - 1);
    }
  }

  method DecodeFrame(p: seq<u16>) returns (rc: int, frame: Frame)
    ensures rc == if Decode(p).Some? then 0 else -1
    ensures rc == 0 ==> frame == Decode(p).value
  {
    frame := Frame(0, 0, 0, 0, false);
    if |p| < 3 {
      return -1, frame;
    }
    if Matches(p[0], REPEAT_MARK) && Matches(p[1], REPEAT_SPACE) {
      return 0, frame.(isRepeat := true);
    }
    if !Matches(p[0], LEADER_MARK) || !Matches(p[1], LEADER_SPACE) {
      return -1, frame;
    }
    var ok, data := DecodeDataBits(p);
    if !ok {
      return -1, frame;
    }
    var top := data / 0x100 / 0x100;
    frame := Frame(top / 0x100, top % 0x100, data / 0x100 % 0x100, data % 0x100, false);
    if Xor(frame.address, frame.addressInv, 8) != 0xFF || Xor(frame.command, frame.commandInv, 8) != 0xFF {
      return -1, frame;
    }
    rc := 0;
  }

  // ---- Decoding inverts encoding ----

  /** The nominal pulse widths of a frame. */
  function Nominal(address: byte, command: byte): (widths: seq<u16>)
    ensures |widths| == 67
  {
    FlatFrame(address, command);
    Durations(Flat(FrameWaves(address, command)))
  }

  lemma WordBytes(a: byte, ai: byte, c: byte, ci: byte)
    ensures var data := ((a * 0x100 + ai) * 0x100 + c) * 0x100 + ci;
            && 0 <= data < 0x1_0000_0000
            && data % 0x100 == ci && data / 0x100 % 0x100 == c
            && data / 0x100 / 0x100 % 0x100 == ai && data / 0x100 / 0x100 / 0x100 == a
  {
    var d1 := (a * 0x100 + ai) * 0x100 + c;
    assert (d1 * 0x100 + ci) / 0x100 == d1;
    var d2 := a * 0x100 + ai;
    assert (d2 * 0x100 + c) / 0x100 == d2;
  }

  lemma FrameOfWordIff(data: u32, address: byte, command: byte)
    ensures FrameOfWord(data) == Some(FrameOf(address, command)) <==> data == WordOf(address, command)
    ensures FrameOfWord(data).Some? ==>
              FrameOfWord(data).value == FrameOf(FrameOfWord(data).value.address, FrameOfWord(data).value.command)
  {
    var top := data / 0x100 / 0x100;
    var a, ai, c, ci := top / 0x100, top % 0x100, data / 0x100 % 0x100, data % 0x100;
    assert Power2(8) == 0x100;
    XorIsAllOnesIff(a, ai, 8);
    XorIsAllOnesIff(c, ci, 8);
    WordBytes(address, 0xFF - address, command, 0xFF - command);
  }

  lemma BitsGiveBands(p: seq<u16>, address: byte, command: byte, i: nat)
    requires i < 66 && |p| >= 66 && Matches(p[0], LEADER_MARK) && Matches(p[1], LEADER_SPACE)
    requires BitsMatch(p, Bits(WordOf(address, command), 32))
    ensures Matches(p[i], Nominal(address, command)[i])
  {
    FlatFrame(address, command);
    if i >= 2 {
      var d, k := Nominal(address, command), (i - 2) / 2;
      assert Matches(p[2 + 2 * k], d[2 + 2 * k]) && Matches(p[3 + 2 * k], d[3 + 2 * k]);
      assert i == 2 + 2 * k || i == 3 + 2 * k;
    }
  }

  lemma BandsGiveBits(p: seq<u16>, address: byte, command: byte, k: nat)
    requires k < 32 && InBands(p, Nominal(address, command), 66)
    ensures Matches(p[2 + 2 * k], BIT_MARK)
    ensures Matches(p[3 + 2 * k], if Bits(WordOf(address, command), 32)[k] then ONE_SPACE else ZERO_SPACE)
  {
    FlatFrame(address, command);
    var d := Nominal(address, command);
    assert Matches(p[2 + 2 * k], d[2 + 2 * k]) && Matches(p[3 + 2 * k], d[3 + 2 * k]);
  }

  /** The first 66 pulses lie in the frame's bands exactly when the leader does and the bits spell its word. */
  lemma BandsAreBits(p: seq<u16>, address: byte, command: byte)
    ensures InBands(p, Nominal(address, command), 66) <==>
              |p| >= 66 && Matches(p[0], LEADER_MARK) && Matches(p[1], LEADER_SPACE)
              && BitsMatch(p, Bits(WordOf(address, command), 32))
  {
    var bits := Bits(WordOf(address, command), 32);
    if |p| >= 66 && Matches(p[0], LEADER_MARK) && Matches(p[1], LEADER_SPACE) && BitsMatch(p, bits) {
      forall i: nat | i < 66
        ensures Matches(p[i], Nominal(address, command)[i])
      {
        BitsGiveBands(p, address, command, i);
      }
    }
    if InBands(p, Nominal(address, command), 66) {
      FlatFrame(address, command);
      forall k: nat | k < 32
        ensures Matches(p[2 + 2 * k], BIT_MARK) && Matches(p[3 + 2 * k], if bits[k] then ONE_SPACE else ZERO_SPACE)
      {
        BandsGiveBits(p, address, command, k);
      }
    }
  }

  lemma WordReadsBack(address: byte, command: byte)
    ensures Value(Bits(WordOf(address, command), 32)) == WordOf(address, command)
  {
    Power2Of32();
    ValueOfBits(WordOf(address, command), 32);
  }

  lemma BandsDecode(p: seq<u16>, address: byte, command: byte)
    requires InBands(p, Nominal(address, command), 66) && p[1] > 3375
    ensures Decode(p) == Some(FrameOf(address, command))
  {
    BandsAreBits(p, address, command);
    ReadBitsComplete(p, Bits(WordOf(address, command), 32));
    WordReadsBack(address, command);
    FrameOfWordIff(WordOf(address, command), address, command);
  }

  lemma DecodedIsInBands(p: seq<u16>, address: byte, command: byte)
    requires Decode(p) == Some(FrameOf(address, command))
    ensures InBands(p, Nominal(address, command), 66) && p[1] > 3375
  {
    ReadBitsSound(p, 32);
    var read := ReadBits(p, 32).value;
    BitsOfValue(read);
    Power2Of32();
    FrameOfWordIff(Value(read), address, command);
    assert read == Bits(WordOf(address, command), 32);
    assert Matches(p[3 + 2 * 31], if read[31] then ONE_SPACE else ZERO_SPACE);
    BandsAreBits(p, address, command);
  }

  /**
   * Decoding is the exact inverse of encoding up to tolerance: a pulse list decodes to the frame of
   * (address, command) if and only if its first 66 pulses lie in the bands of that frame's nominal
   * widths and its leader space is longer than 3375 us, below which the repeat check wins.
   */
  lemma DecodeInvertsEncodeIff(p: seq<u16>, address: byte, command: byte)
    ensures Decode(p) == Some(FrameOf(address, command)) <==> InBands(p, Nominal(address, command), 66) && p[1] > 3375
  {
    if InBands(p, Nominal(address, command), 66) && p[1] > 3375 {
      BandsDecode(p, address, command);
    }
    if Decode(p) == Some(FrameOf(address, command)) {
      DecodedIsInBands(p, address, command);
    }
  }

  /** Whatever decodes without being a repeat is the frame of its address and command, complements checked. */
  lemma DecodedFramesAreFrames(p: seq<u16>)
    requires Decode(p).Some? && !Decode(p).value.isRepeat
    ensures Decode(p).value == FrameOf(Decode(p).value.address, Decode(p).value.command)
  {
    ReadBitsSound(p, 32);
    BitsOfValue(ReadBits(p, 32).value);
    Power2Of32();
    FrameOfWordIff(Value(ReadBits(p, 32).value), 0, 0);
  }

  /** No pulse list lies in the bands of two frames: the zero band 280..840 and the one band 845..2535 are disjoint. */
  lemma {:induction false} BandsAreDisjoint(p: seq<u16>, a: byte, c: byte, a': byte, c': byte)
    requires InBands(p, Nominal(a, c), 66) && InBands(p, Nominal(a', c'), 66)
    ensures a == a' && c == c'
  {
    BandsAreBits(p, a, c);
    BandsAreBits(p, a', c');
    ReadBitsComplete(p, Bits(WordOf(a, c), 32));
    ReadBitsComplete(p, Bits(WordOf(a', c'), 32));
    WordReadsBack(a, c);
    WordReadsBack(a', c');
    FrameOfWordIff(WordOf(a, c), a, c);
    FrameOfWordIff(WordOf(a, c), a', c');
  }

  /**
   * A pulse list decodes as a repeat if and only if it has three pulses and starts in the bands of the
   * encoded repeat.
   */
  lemma RepeatDecodesIff(p: seq<u16>)
    ensures Durations(Flat(RepeatWaves())) == [REPEAT_MARK, REPEAT_SPACE, REPEAT_END]
    ensures Decode(p).Some? && Decode(p).value.isRepeat <==>
              |p| >= 3 && InBands(p, [REPEAT_MARK, REPEAT_SPACE, REPEAT_END], 2)
  {
    var w := RepeatWaves();
    assert w[..1] == [Wave(REPEAT_MARK, REPEAT_SPACE)] && w[..1][..0] == [];
    assert Flat(w[..1]) == [] + Piece(w[0]);
    assert Flat(w) == Flat(w[..1]) + Piece(w[1]);
  }
}
