/**
 Burst errors: messages of equal length whose bits, in the order in which the register takes them, differ only
 within sixteen consecutive places, wherever these lie. A byte enters the register at once; here it is taken apart
 into the bits that are shifted out one after the other.
 */
module BurstErrors {
  import opened Checksum

  type BitString = seq<bool>

  /**
   A register with its bit order. `lead` is the bit of a byte that is shifted out first, `drop` what is left of the
   byte behind it, and `put` the inverse of both. `top` is the register with only the bit that is shifted out next,
   `rest` a byte in its place without its first bit.
   */
  datatype Serial<!T> = Serial(
    register: Register<T>,
    top: T,
    lead: bv8 -> bool,
    drop: bv8 -> bv8,
    put: (bool, bv8) -> bv8,
    rest: bv8 -> T)

  function DropTimes<T>(s: Serial<T>, b: bv8, n: nat): bv8
    decreases n
  {
    if n == 0 then b else DropTimes(s, s.drop(b), n - 1)
  }

  /** The first `n` bits of a byte. */
  function Leading<T>(s: Serial<T>, b: bv8, n: nat): (bits: BitString)
    ensures |bits| == n
    decreases n
  {
    if n == 0 then [] else [s.lead(b)] + Leading(s, s.drop(b), n - 1)
  }

  /** One step shifts the first bit out and brings the rest of the byte into its place. */
  ghost predicate Shifts<T(!new)>(s: Serial<T>) {
    && (forall b :: s.register.near(b) == if s.lead(b) then s.register.xor(s.top, s.rest(b)) else s.rest(b))
    && (forall b :: s.register.step(s.rest(b)) == s.register.near(s.drop(b)))
  }

  /** Eight shifts empty a byte, and an empty byte changes nothing. */
  ghost predicate Empties<T(!new)>(s: Serial<T>) {
    && (forall b :: DropTimes(s, b, 8) == 0)
    && s.register.near(0) == s.register.zero
    && (forall x :: s.register.xor(x, s.register.zero) == x)
  }

  /** A byte is put together from its first bit and the rest, and a byte with room for a bit takes one. */
  ghost predicate Rebuilds<T>(s: Serial<T>) {
    && s.drop(0) == 0
    && (forall b :: s.put(s.lead(b), s.drop(b)) == b)
    && (forall x, b :: DropTimes(s, b, 7) == 0 ==> s.lead(s.put(x, b)) == x && s.drop(s.put(x, b)) == b)
  }

  ghost predicate Orderly<T(!new)>(s: Serial<T>) {
    Lawful(s.register) && Shifts(s) && Empties(s) && Rebuilds(s)
  }

  // ---------- bit by bit ----------

  function Feed<T>(s: Serial<T>, x: T, bit: bool): T {
    s.register.step(if bit then s.register.xor(x, s.top) else x)
  }

  function BitCrc<T>(s: Serial<T>, bits: BitString, x: T): T
    decreases |bits|
  {
    if bits == [] then x else BitCrc(s, bits[1..], Feed(s, x, bits[0]))
  }

  lemma {:induction false} BitCrcJoins<T>(s: Serial<T>, a: BitString, b: BitString, x: T)
    ensures BitCrc(s, a + b, x) == BitCrc(s, b, BitCrc(s, a, x))
    decreases |a|
  {
    if a == [] {
      assert a + b == b;
    } else {
      assert (a + b)[1..] == a[1..] + b;
      BitCrcJoins(s, a[1..], b, Feed(s, x, a[0]));
    }
  }

  lemma FeedShifts<T(!new)>(s: Serial<T>, x: T, b: bv8)
    requires Associates(s.register) && StepIsLinear(s.register) && Shifts(s)
    ensures var r := s.register;
            r.step(r.xor(x, r.near(b))) == r.xor(Feed(s, x, s.lead(b)), r.near(s.drop(b)))
  {
    var r := s.register;
    if s.lead(b) {
      assert r.xor(x, r.xor(s.top, s.rest(b))) == r.xor(r.xor(x, s.top), s.rest(b));
    }
  }

  /** `n` steps with a byte in place are its first `n` bits one by one, with the others still in place. */
  lemma {:induction false} StepsAreBits<T(!new)>(s: Serial<T>, x: T, b: bv8, n: nat)
    requires Associates(s.register) && StepIsLinear(s.register) && Shifts(s)
    ensures var r := s.register;
            Bits(r, r.xor(x, r.near(b)), n) == r.xor(BitCrc(s, Leading(s, b, n), x), r.near(DropTimes(s, b, n)))
    decreases n
  {
    if n > 0 {
      FeedShifts(s, x, b);
      StepsAreBits(s, Feed(s, x, s.lead(b)), s.drop(b), n - 1);
      assert Leading(s, b, n)[1..] == Leading(s, s.drop(b), n - 1);
    }
  }

  lemma ByteIsBits<T(!new)>(s: Serial<T>, x: T, b: bv8)
    requires Associates(s.register) && StepIsLinear(s.register) && Shifts(s) && Empties(s)
    ensures Byte(s.register, x, b) == BitCrc(s, Leading(s, b, 8), x)
  {
    StepsAreBits(s, x, b, 8);
    assert DropTimes(s, b, 8) == 0;
  }

  /** The bits of a message in the order in which the register takes them. */
  function Spread<T>(s: Serial<T>, data: Data): BitString {
    if data == [] then [] else Leading(s, data[0], 8) + Spread(s, data[1..])
  }

  /** The byte-wise checksum is the checksum of the bits. */
  lemma {:induction false} CrcIsBits<T(!new)>(s: Serial<T>, data: Data, init: T)
    requires Associates(s.register) && StepIsLinear(s.register) && Shifts(s) && Empties(s)
    ensures Crc(s.register, data, init) == BitCrc(s, Spread(s, data), init)
    decreases |data|
  {
    if data != [] {
      ByteIsBits(s, init, data[0]);
      BitCrcJoins(s, Leading(s, data[0], 8), Spread(s, data[1..]), init);
      CrcIsBits(s, data[1..], Byte(s.register, init, data[0]));
    }
  }

  // ---------- bytes and their bits ----------

  lemma {:induction false} LeadingDetermines<T>(s: Serial<T>, a: bv8, b: bv8, n: nat)
    requires Rebuilds(s) && Leading(s, a, n) == Leading(s, b, n) && DropTimes(s, a, n) == DropTimes(s, b, n)
    ensures a == b
    decreases n
  {
    if n > 0 {
      assert Leading(s, a, n)[0] == Leading(s, b, n)[0] && Leading(s, a, n)[1..] == Leading(s, b, n)[1..];
      LeadingDetermines(s, s.drop(a), s.drop(b), n - 1);
      assert s.put(s.lead(a), s.drop(a)) == a && s.put(s.lead(b), s.drop(b)) == b;
    }
  }

  lemma {:induction false} EmptyStaysEmpty<T>(s: Serial<T>, b: bv8, n: nat, m: nat)
    requires s.drop(0) == 0 && DropTimes(s, b, n) == 0 && n <= m
    ensures DropTimes(s, b, m) == 0
    decreases m
  {
    if n == 0 {
      if m > 0 {
        EmptyStaysEmpty(s, s.drop(b), 0, m - 1);
      }
    } else {
      EmptyStaysEmpty(s, s.drop(b), n - 1, m - 1);
    }
  }

  /** Any eight bits are the bits of a byte. */
  lemma {:induction false} Packs<T>(s: Serial<T>, bits: BitString) returns (b: bv8)
    requires Rebuilds(s) && |bits| <= 8
    ensures Leading(s, b, |bits|) == bits && DropTimes(s, b, |bits|) == 0
    decreases |bits|
  {
    if bits == [] {
      b := 0;
    } else {
      var later := Packs(s, bits[1..]);
      EmptyStaysEmpty(s, later, |bits| - 1, 7);
      b := s.put(bits[0], later);
      assert s.lead(b) == bits[0] && s.drop(b) == later;
      assert bits == [bits[0]] + bits[1..];
    }
  }

  lemma {:induction false} SpreadDetermines<T(!new)>(s: Serial<T>, m: Data, m': Data)
    requires Rebuilds(s) && Empties(s) && Spread(s, m) == Spread(s, m')
    ensures m == m'
    decreases |m|
  {
    hide Spread, Leading, DropTimes, Rebuilds, Empties;
    SpreadLength(s, m);
    SpreadLength(s, m');
    if m != [] {
      SpreadSplits(s, m);
      SpreadSplits(s, m');
      AllBitsDetermine(s, m[0], m'[0]);
      SpreadDetermines(s, m[1..], m'[1..]);
      assert m == [m[0]] + m[1..] && m' == [m'[0]] + m'[1..];
    }
  }

  lemma SpreadSplits<T>(s: Serial<T>, m: Data)
    requires m != []
    ensures |Spread(s, m)| >= 8
    ensures Spread(s, m)[..8] == Leading(s, m[0], 8) && Spread(s, m)[8..] == Spread(s, m[1..])
  {
  }

  lemma AllBitsDetermine<T(!new)>(s: Serial<T>, a: bv8, b: bv8)
    requires Rebuilds(s) && Empties(s) && Leading(s, a, 8) == Leading(s, b, 8)
    ensures a == b
  {
    hide Leading, Rebuilds;
    assert DropTimes(s, a, 8) == DropTimes(s, b, 8);
    LeadingDetermines(s, a, b, 8);
  }

  lemma {:induction false} SpreadLength<T>(s: Serial<T>, m: Data)
    ensures |Spread(s, m)| == 8 * |m|
    decreases |m|
  {
    if m != [] {
      SpreadLength(s, m[1..]);
    }
  }

  // ---------- detection ----------

  lemma {:induction false} SuffixKeepsDifference<T(!new)>(s: Serial<T>, bits: BitString, x: T, y: T)
    requires StepIsInjective(s.register) && Cancels(s.register) && BitCrc(s, bits, x) == BitCrc(s, bits, y)
    ensures x == y
    decreases |bits|
  {
    if bits != [] {
      SuffixKeepsDifference(s, bits[1..], Feed(s, x, bits[0]), Feed(s, y, bits[0]));
    }
  }

  /** Sixteen bits are two bytes. */
  lemma TwoBytesOf<T(!new)>(s: Serial<T>, w: BitString, x: T) returns (a: bv8, b: bv8)
    requires Associates(s.register) && StepIsLinear(s.register) && Shifts(s) && Empties(s) && Rebuilds(s) && |w| == 16
    ensures w == Leading(s, a, 8) + Leading(s, b, 8)
    ensures BitCrc(s, w, x) == Byte(s.register, Byte(s.register, x, a), b)
  {
    a := Packs(s, w[..8]);
    b := Packs(s, w[8..]);
    assert w == w[..8] + w[8..];
    BitCrcJoins(s, w[..8], w[8..], x);
    ByteIsBits(s, x, a);
    ByteIsBits(s, Byte(s.register, x, a), b);
  }

  lemma WindowIsDetected<T(!new)>(s: Serial<T>, w: BitString, w': BitString, x: T)
    requires Orderly(s) && |w| == |w'| == 16 && BitCrc(s, w, x) == BitCrc(s, w', x)
    ensures w == w'
  {
    var a, b := TwoBytesOf(s, w, x);
    var a', b' := TwoBytesOf(s, w', x);
    WordIsDetected(s.register, x, a, b, a', b');
  }

  /** A shorter window is the beginning of one of sixteen bits. */
  lemma ShortWindowIsDetected<T(!new)>(s: Serial<T>, w: BitString, w': BitString, x: T)
    requires Orderly(s) && |w| == |w'| <= 16 && BitCrc(s, w, x) == BitCrc(s, w', x)
    ensures w == w'
  {
    hide Orderly, BitCrc;
    var zeros: BitString := seq(16 - |w|, _ => false);
    BitCrcJoins(s, w, zeros, x);
    BitCrcJoins(s, w', zeros, x);
    WindowIsDetected(s, w + zeros, w' + zeros, x);
    assert w == (w + zeros)[..|w|] && w' == (w' + zeros)[..|w|];
  }

  /**
   Two messages whose bits differ only within a window of at most sixteen consecutive bits have equal checksums
   only if they are equal, wherever the window lies and over however many bytes it reaches.
   */
  lemma BurstIsDetected<T(!new)>(s: Serial<T>, m: Data, m': Data, front: BitString, w: BitString, w': BitString,
                                 back: BitString, init: T)
    requires Orderly(s) && |w| == |w'| <= 16
    requires Spread(s, m) == front + (w + back) && Spread(s, m') == front + (w' + back)
    ensures Crc(s.register, m, init) == Crc(s.register, m', init) <==> m == m'
  {
    CrcIsBits(s, m, init);
    CrcIsBits(s, m', init);
    var x := BitCrc(s, front, init);
    BitCrcJoins(s, front, w + back, init);
    BitCrcJoins(s, front, w' + back, init);
    BitCrcJoins(s, w, back, x);
    BitCrcJoins(s, w', back, x);
    if BitCrc(s, back, BitCrc(s, w, x)) == BitCrc(s, back, BitCrc(s, w', x)) {
      SuffixKeepsDifference(s, back, BitCrc(s, w, x), BitCrc(s, w', x));
      ShortWindowIsDetected(s, w, w', x);
      SpreadDetermines(s, m, m');
    }
  }

  // ---------- the two registers ----------

  function TopBit(b: bv8): bool { b & 0x80 != 0 }

  function DropTop(b: bv8): bv8 { b << 1 }

  function PutTop(x: bool, b: bv8): bv8 { (if x then 0x80 else 0) | (b >> 1) }

  function WithoutTop(b: bv8): bv16 { ((b & 0x7F) as bv16) << 8 }

  function LowBit(b: bv8): bool { b & 0x01 != 0 }

  function DropLow(b: bv8): bv8 { b >> 1 }

  function PutLow(x: bool, b: bv8): bv8 { (if x then 0x01 else 0) | (b << 1) }

  function WithoutLow(b: bv8): bv16 { (b & 0xFE) as bv16 }

  /** Most significant bit first. */
  const CCITT_BITS: Serial<bv16> := Serial(CCITT, 0x8000, TopBit, DropTop, PutTop, WithoutTop)

  /** Least significant bit first. */
  const MODBUS_BITS: Serial<bv16> := Serial(MODBUS, 0x0001, LowBit, DropLow, PutLow, WithoutLow)

  lemma TopShiftsOut(b: bv8)
    ensures AsHigh(b) == if TopBit(b) then Xor(0x8000, WithoutTop(b)) else WithoutTop(b)
    ensures CcittStep(WithoutTop(b)) == AsHigh(DropTop(b))
  {
  }

  lemma TopRebuilds(x: bool, b: bv8)
    ensures PutTop(TopBit(b), DropTop(b)) == b
    ensures b << 7 == 0 ==> TopBit(PutTop(x, b)) == x && DropTop(PutTop(x, b)) == b
  {
  }

  lemma LowShiftsOut(b: bv8)
    ensures AsLow(b) == if LowBit(b) then Xor(0x0001, WithoutLow(b)) else WithoutLow(b)
    ensures ModbusStep(WithoutLow(b)) == AsLow(DropLow(b))
  {
  }

  lemma LowRebuilds(x: bool, b: bv8)
    ensures PutLow(LowBit(b), DropLow(b)) == b
    ensures b >> 7 == 0 ==> LowBit(PutLow(x, b)) == x && DropLow(PutLow(x, b)) == b
  {
  }

  /** Seven and eight shifts one by one. */
  lemma EightDrops<T>(s: Serial<T>, x0: bv8, x1: bv8, x2: bv8, x3: bv8, x4: bv8, x5: bv8, x6: bv8, x7: bv8, x8: bv8)
    requires s.drop(x0) == x1 && s.drop(x1) == x2 && s.drop(x2) == x3 && s.drop(x3) == x4
    requires s.drop(x4) == x5 && s.drop(x5) == x6 && s.drop(x6) == x7 && s.drop(x7) == x8
    ensures DropTimes(s, x0, 7) == x7 && DropTimes(s, x0, 8) == x8
  {
    assert DropTimes(s, x7, 1) == x8 && DropTimes(s, x7, 0) == x7;
    assert DropTimes(s, x4, 4) == x8 && DropTimes(s, x4, 3) == x7;
    assert DropTimes(s, x0, 8) == DropTimes(s, x1, 7) == DropTimes(s, x2, 6) == DropTimes(s, x3, 5) == x8;
    assert DropTimes(s, x0, 7) == DropTimes(s, x1, 6) == DropTimes(s, x2, 5) == DropTimes(s, x3, 4) == x7;
  }

  lemma ShiftsCompose(b: bv8, k: bv8)
    requires k < 8
    ensures (b << k) << 1 == b << (k + 1) && (b >> k) >> 1 == b >> (k + 1)
  {
  }

  lemma AllOut(b: bv8)
    ensures b << 8 == 0 && b >> 8 == 0 && b << 0 == b && b >> 0 == b
  {
  }

  lemma TopDrops(b: bv8)
    ensures DropTimes(CCITT_BITS, b, 7) == b << 7 && DropTimes(CCITT_BITS, b, 8) == 0
  {
    ShiftsCompose(b, 1);
    ShiftsCompose(b, 2);
    ShiftsCompose(b, 3);
    ShiftsCompose(b, 4);
    ShiftsCompose(b, 5);
    ShiftsCompose(b, 6);
    ShiftsCompose(b, 7);
    AllOut(b);
    EightDrops(CCITT_BITS, b, b << 1, b << 2, b << 3, b << 4, b << 5, b << 6, b << 7, b << 8);
  }

  lemma LowDrops(b: bv8)
    ensures DropTimes(MODBUS_BITS, b, 7) == b >> 7 && DropTimes(MODBUS_BITS, b, 8) == 0
  {
    ShiftsCompose(b, 1);
    ShiftsCompose(b, 2);
    ShiftsCompose(b, 3);
    ShiftsCompose(b, 4);
    ShiftsCompose(b, 5);
    ShiftsCompose(b, 6);
    ShiftsCompose(b, 7);
    AllOut(b);
    EightDrops(MODBUS_BITS, b, b >> 1, b >> 2, b >> 3, b >> 4, b >> 5, b >> 6, b >> 7, b >> 8);
  }

  lemma XorZero(x: bv16)
    ensures Xor(x, 0) == x
  {
  }

  lemma CcittShifts()
    ensures Shifts(CCITT_BITS)
  {
    var s := CCITT_BITS;
    forall b
      ensures s.register.near(b) == if s.lead(b) then s.register.xor(s.top, s.rest(b)) else s.rest(b)
      ensures s.register.step(s.rest(b)) == s.register.near(s.drop(b))
    {
      TopShiftsOut(b);
    }
  }

  lemma CcittEmpties()
    ensures Empties(CCITT_BITS)
  {
    var s := CCITT_BITS;
    forall b ensures DropTimes(s, b, 8) == 0 {
      TopDrops(b);
    }
    forall x ensures s.register.xor(x, s.register.zero) == x {
      XorZero(x);
    }
  }

  lemma CcittRebuilds()
    ensures Rebuilds(CCITT_BITS)
  {
    var s := CCITT_BITS;
    forall b ensures s.put(s.lead(b), s.drop(b)) == b {
      TopRebuilds(true, b);
    }
    forall x, b | DropTimes(s, b, 7) == 0
      ensures s.lead(s.put(x, b)) == x && s.drop(s.put(x, b)) == b
    {
      TopDrops(b);
      TopRebuilds(x, b);
    }
  }

  /** CRC-16/CCITT-FALSE takes its bits most significant first. */
  lemma CcittIsOrderly()
    ensures Orderly(CCITT_BITS)
  {
    hide Lawful, Shifts, Empties, Rebuilds;
    CcittIsLawful();
    CcittShifts();
    CcittEmpties();
    CcittRebuilds();
  }

  lemma ModbusShifts()
    ensures Shifts(MODBUS_BITS)
  {
    var s := MODBUS_BITS;
    forall b
      ensures s.register.near(b) == if s.lead(b) then s.register.xor(s.top, s.rest(b)) else s.rest(b)
      ensures s.register.step(s.rest(b)) == s.register.near(s.drop(b))
    {
      LowShiftsOut(b);
    }
  }

  lemma ModbusEmpties()
    ensures Empties(MODBUS_BITS)
  {
    var s := MODBUS_BITS;
    forall b ensures DropTimes(s, b, 8) == 0 {
      LowDrops(b);
    }
    forall x ensures s.register.xor(x, s.register.zero) == x {
      XorZero(x);
    }
  }

  lemma ModbusRebuilds()
    ensures Rebuilds(MODBUS_BITS)
  {
    var s := MODBUS_BITS;
    forall b ensures s.put(s.lead(b), s.drop(b)) == b {
      LowRebuilds(true, b);
    }
    forall x, b | DropTimes(s, b, 7) == 0
      ensures s.lead(s.put(x, b)) == x && s.drop(s.put(x, b)) == b
    {
      LowDrops(b);
      LowRebuilds(x, b);
    }
  }

  /** And CRC-16/MODBUS least significant first. */
  lemma ModbusIsOrderly()
    ensures Orderly(MODBUS_BITS)
  {
    hide Lawful, Shifts, Empties, Rebuilds;
    ModbusIsLawful();
    ModbusShifts();
    ModbusEmpties();
    ModbusRebuilds();
  }
}
