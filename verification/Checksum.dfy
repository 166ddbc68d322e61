/**
 The two 16-bit CRCs. What is proved about them needs only a few laws of the register, so the theory is
 stated for any register with these laws; the registers of CRC-16/CCITT-FALSE and CRC-16/MODBUS are then
 shown to have them. Words are 16-bit, so that Python's masking is the width of the type.
 */
module Checksum {
  type Data = seq<bv8>

  /**
   `near` places a data byte where it enters the register, `far` in the other half; `first` and `second`
   are the register's bytes in the order they are appended to a message.
   */
  datatype Register<!T> = Register(
    xor: (T, T) -> T,
    step: T -> T,
    zero: T,
    near: bv8 -> T,
    far: bv8 -> T,
    first: T -> bv8,
    second: T -> bv8)

  function Bits<T>(r: Register<T>, crc: T, n: nat): T
    decreases n
  {
    if n == 0 then crc else Bits(r, r.step(crc), n - 1)
  }

  function Eight<T>(r: Register<T>, crc: T): T {
    Bits(r, crc, 8)
  }

  function Byte<T>(r: Register<T>, crc: T, b: bv8): T {
    Eight(r, r.xor(crc, r.near(b)))
  }

  function Crc<T>(r: Register<T>, data: Data, init: T): T
    decreases |data|
  {
    if data == [] then init else Crc(r, data[1..], Byte(r, init, data[0]))
  }

  ghost predicate Associates<T(!new)>(r: Register<T>) {
    forall a, b, c :: r.xor(a, r.xor(b, c)) == r.xor(r.xor(a, b), c)
  }

  ghost predicate Cancels<T(!new)>(r: Register<T>) {
    && (forall a :: r.xor(a, a) == r.zero)
    && (forall a, b, p :: r.xor(a, p) == r.xor(b, p) ==> a == b)
    && (forall a, b, p :: r.xor(p, a) == r.xor(p, b) ==> a == b)
  }

  ghost predicate StepIsLinear<T(!new)>(r: Register<T>) {
    forall a, b :: r.step(r.xor(a, b)) == r.xor(r.step(a), r.step(b))
  }

  ghost predicate StepIsInjective<T(!new)>(r: Register<T>) {
    r.step(r.zero) == r.zero && forall a, b :: r.step(a) == r.step(b) ==> a == b
  }

  /** A register is two bytes, and eight steps carry the far one into the near place. */
  ghost predicate HasHalves<T(!new)>(r: Register<T>) {
    && (forall a, b, a', b' :: r.xor(r.near(a), r.far(b)) == r.xor(r.near(a'), r.far(b')) ==> a == a' && b == b')
    && (forall x :: r.xor(x, r.near(r.first(x))) == r.far(r.second(x)))
    && (forall b :: Eight(r, r.far(b)) == r.near(b))
  }

  ghost predicate Lawful<T(!new)>(r: Register<T>) {
    Associates(r) && Cancels(r) && StepIsLinear(r) && StepIsInjective(r) && HasHalves(r)
  }

  // ---------- streaming ----------

  /** The checksum of a concatenation continues from the checksum of the first part. */
  lemma {:induction false} Streaming<T>(r: Register<T>, a: Data, b: Data, init: T)
    ensures Crc(r, a + b, init) == Crc(r, b, Crc(r, a, init))
    decreases |a|
  {
    if a == [] {
      assert a + b == b;
    } else {
      assert (a + b)[1..] == a[1..] + b;
      Streaming(r, a[1..], b, Byte(r, init, a[0]));
    }
  }

  lemma TwoBytes<T>(r: Register<T>, a: bv8, b: bv8, back: Data, crc: T)
    ensures Crc(r, [a, b] + back, crc) == Crc(r, back, Byte(r, Byte(r, crc, a), b))
  {
    assert ([a, b] + back)[1..] == [b] + back && ([b] + back)[1..] == back;
    assert Crc(r, [a, b] + back, crc) == Crc(r, [b] + back, Byte(r, crc, a));
  }

  // ---------- residue ----------

  lemma {:induction false} ZeroStays<T(!new)>(r: Register<T>, n: nat)
    requires StepIsInjective(r)
    ensures Bits(r, r.zero, n) == r.zero
    decreases n
  {
    if n > 0 {
      ZeroStays(r, n - 1);
    }
  }

  lemma FarArrives<T(!new)>(r: Register<T>, b: bv8)
    requires HasHalves(r)
    ensures Eight(r, r.far(b)) == r.near(b)
  {
  }

  lemma HalvesCancel<T(!new)>(r: Register<T>, crc: T)
    requires Cancels(r) && StepIsInjective(r) && HasHalves(r)
    ensures Byte(r, Byte(r, crc, r.first(crc)), r.second(crc)) == r.zero
  {
    var a, b := r.first(crc), r.second(crc);
    assert r.xor(crc, r.near(a)) == r.far(b);
    FarArrives(r, b);
    assert r.xor(r.near(b), r.near(b)) == r.zero;
    ZeroStays(r, 8);
  }

  lemma ResidueFrom<T(!new)>(r: Register<T>, data: Data, init: T, crc: T)
    requires Cancels(r) && StepIsInjective(r) && HasHalves(r) && crc == Crc(r, data, init)
    ensures Crc(r, data + [r.first(crc), r.second(crc)], init) == r.zero
  {
    var a, b := r.first(crc), r.second(crc);
    Streaming(r, data, [a, b], init);
    assert [a, b] + [] == [a, b];
    TwoBytes(r, a, b, [], crc);
    HalvesCancel(r, crc);
  }

  /** A message followed by its own checksum has checksum zero. */
  lemma ResidueIsZero<T(!new)>(r: Register<T>, data: Data, init: T)
    requires Lawful(r)
    ensures var crc := Crc(r, data, init);
            Crc(r, data + [r.first(crc), r.second(crc)], init) == r.zero
  {
    ResidueFrom(r, data, init, Crc(r, data, init));
  }

  // ---------- error detection ----------

  lemma {:induction false} BitsLinear<T(!new)>(r: Register<T>, x: T, y: T, n: nat)
    requires StepIsLinear(r)
    ensures Bits(r, r.xor(x, y), n) == r.xor(Bits(r, x, n), Bits(r, y, n))
    decreases n
  {
    if n > 0 {
      BitsLinear(r, r.step(x), r.step(y), n - 1);
    }
  }

  lemma {:induction false} BitsInjective<T(!new)>(r: Register<T>, x: T, y: T, n: nat)
    requires StepIsInjective(r) && Bits(r, x, n) == Bits(r, y, n)
    ensures x == y
    decreases n
  {
    if n > 0 {
      BitsInjective(r, r.step(x), r.step(y), n - 1);
    }
  }

  /** Equal bytes keep different registers different. */
  lemma {:induction false} SuffixKeepsDifference<T(!new)>(r: Register<T>, data: Data, x: T, y: T)
    requires StepIsInjective(r) && Cancels(r) && Crc(r, data, x) == Crc(r, data, y)
    ensures x == y
    decreases |data|
  {
    if data != [] {
      SuffixKeepsDifference(r, data[1..], Byte(r, x, data[0]), Byte(r, y, data[0]));
      BitsInjective(r, r.xor(x, r.near(data[0])), r.xor(y, r.near(data[0])), 8);
    }
  }

  /** Two bytes entering one after the other are one word entering at once. */
  lemma TwoBytesAreAWord<T(!new)>(r: Register<T>, crc: T, a: bv8, b: bv8)
    requires Associates(r) && StepIsLinear(r) && HasHalves(r)
    ensures Byte(r, Byte(r, crc, a), b) == Bits(r, Bits(r, r.xor(crc, r.xor(r.near(a), r.far(b))), 8), 8)
  {
    BitsLinear(r, r.xor(crc, r.near(a)), r.far(b), 8);
  }

  /**
   Two messages of equal length that differ only within two adjacent bytes have different checksums.
   */
  lemma AdjacentBytesAreDetected<T(!new)>(r: Register<T>, front: Data, a: bv8, b: bv8, a': bv8, b': bv8, back: Data,
                                          init: T)
    requires Lawful(r)
    ensures Crc(r, front + ([a, b] + back), init) == Crc(r, front + ([a', b'] + back), init) <==> a == a' && b == b'
  {
    var crc := Crc(r, front, init);
    var one, two := Byte(r, Byte(r, crc, a), b), Byte(r, Byte(r, crc, a'), b');
    Streaming(r, front, [a, b] + back, init);
    Streaming(r, front, [a', b'] + back, init);
    TwoBytes(r, a, b, back, crc);
    TwoBytes(r, a', b', back, crc);
    if Crc(r, back, one) == Crc(r, back, two) {
      SuffixKeepsDifference(r, back, one, two);
      WordIsDetected(r, crc, a, b, a', b');
    }
  }

  lemma WordIsDetected<T(!new)>(r: Register<T>, crc: T, a: bv8, b: bv8, a': bv8, b': bv8)
    requires Lawful(r) && Byte(r, Byte(r, crc, a), b) == Byte(r, Byte(r, crc, a'), b')
    ensures a == a' && b == b'
  {
    TwoBytesAreAWord(r, crc, a, b);
    TwoBytesAreAWord(r, crc, a', b');
    var w, w' := r.xor(r.near(a), r.far(b)), r.xor(r.near(a'), r.far(b'));
    BitsInjective(r, Bits(r, r.xor(crc, w), 8), Bits(r, r.xor(crc, w'), 8), 8);
    BitsInjective(r, r.xor(crc, w), r.xor(crc, w'), 8);
  }

  /** The same for one changed byte anywhere, at the very end included. */
  lemma OneByteIsDetected<T(!new)>(r: Register<T>, front: Data, a: bv8, a': bv8, back: Data, init: T)
    requires Lawful(r)
    ensures Crc(r, front + ([a] + back), init) == Crc(r, front + ([a'] + back), init) <==> a == a'
  {
    var crc := Crc(r, front, init);
    Streaming(r, front, [a] + back, init);
    Streaming(r, front, [a'] + back, init);
    assert ([a] + back)[1..] == back && ([a'] + back)[1..] == back;
    var one, two := Byte(r, crc, a), Byte(r, crc, a');
    if Crc(r, back, one) == Crc(r, back, two) {
      SuffixKeepsDifference(r, back, one, two);
      BitsInjective(r, r.xor(crc, r.near(a)), r.xor(crc, r.near(a')), 8);
      assert r.xor(r.near(a), r.far(0)) == r.xor(r.near(a'), r.far(0));
    }
  }

  // ---------- the registers of the two CRCs ----------

  const CCITT_POLY: bv16 := 0x1021
  const MODBUS_POLY: bv16 := 0xA001

  function CcittStep(crc: bv16): bv16 {
    if crc & 0x8000 != 0 then (crc << 1) ^ CCITT_POLY else crc << 1
  }

  function ModbusStep(crc: bv16): bv16 {
    if crc & 0x0001 != 0 then (crc >> 1) ^ MODBUS_POLY else crc >> 1
  }

  function Xor(x: bv16, y: bv16): bv16 {
    x ^ y
  }

  function AsLow(b: bv8): bv16 {
    b as bv16
  }

  function AsHigh(b: bv8): bv16 {
    (b as bv16) << 8
  }

  function Low(x: bv16): bv8 {
    (x & 0xFF) as bv8
  }

  function High(x: bv16): bv8 {
    (x >> 8) as bv8
  }

  /** The checksum is appended high byte first. */
  const CCITT: Register<bv16> := Register(Xor, CcittStep, 0, AsHigh, AsLow, High, Low)

  /** The checksum is appended low byte first. */
  const MODBUS: Register<bv16> := Register(Xor, ModbusStep, 0, AsLow, AsHigh, Low, High)

  method Crc16Ccitt(data: Data, init: bv16) returns (crc: bv16)
    ensures crc == Crc(CCITT, data, init)
  {
    crc := init;
    for i := 0 to |data|
      invariant Crc(CCITT, data[i..], crc) == Crc(CCITT, data, init)
    {
      assert data[i..][0] == data[i] && data[i..][1..] == data[i + 1..];
      crc := CcittShift(Xor(crc, AsHigh(data[i])));
    }
  }

  /** The inner loop of `crc16_ccitt`. */
  method CcittShift(start: bv16) returns (crc: bv16)
    ensures crc == Bits(CCITT, start, 8)
  {
    crc := start;
    for k := 0 to 8
      invariant Bits(CCITT, crc, 8 - k) == Bits(CCITT, start, 8)
    {
      crc := if crc & 0x8000 != 0 then (crc << 1) ^ CCITT_POLY else crc << 1;
    }
  }

  method Crc16Modbus(data: Data, init: bv16) returns (crc: bv16)
    ensures crc == Crc(MODBUS, data, init)
  {
    crc := init;
    for i := 0 to |data|
      invariant Crc(MODBUS, data[i..], crc) == Crc(MODBUS, data, init)
    {
      assert data[i..][0] == data[i] && data[i..][1..] == data[i + 1..];
      crc := ModbusShift(Xor(crc, AsLow(data[i])));
    }
  }

  /** The inner loop of `crc16_modbus`. */
  method ModbusShift(start: bv16) returns (crc: bv16)
    ensures crc == Bits(MODBUS, start, 8)
  {
    crc := start;
    for k := 0 to 8
      invariant Bits(MODBUS, crc, 8 - k) == Bits(MODBUS, start, 8)
    {
      crc := if crc & 0x0001 != 0 then (crc >> 1) ^ MODBUS_POLY else crc >> 1;
    }
  }

  lemma XorAssociates(a: bv16, b: bv16, c: bv16)
    ensures Xor(a, Xor(b, c)) == Xor(Xor(a, b), c)
  {
  }

  lemma XorSelf(a: bv16)
    ensures Xor(a, a) == 0
  {
  }

  lemma XorCancels(a: bv16, b: bv16, c: bv16)
    requires Xor(a, c) == Xor(b, c) || Xor(c, a) == Xor(c, b)
    ensures a == b
  {
  }

  lemma CcittBothTop(a: bv16, b: bv16, c: bv16)
    requires c == a ^ b && a & 0x8000 != 0 && b & 0x8000 != 0
    ensures CcittStep(c) == CcittStep(a) ^ CcittStep(b)
  {
  }

  lemma CcittOneTop(a: bv16, b: bv16, c: bv16)
    requires c == a ^ b && a & 0x8000 != 0 && b & 0x8000 == 0
    ensures CcittStep(c) == CcittStep(a) ^ CcittStep(b)
  {
  }

  lemma CcittOtherTop(a: bv16, b: bv16, c: bv16)
    requires c == a ^ b && a & 0x8000 == 0 && b & 0x8000 != 0
    ensures CcittStep(c) == CcittStep(a) ^ CcittStep(b)
  {
  }

  lemma CcittNoTop(a: bv16, b: bv16, c: bv16)
    requires c == a ^ b && a & 0x8000 == 0 && b & 0x8000 == 0
    ensures CcittStep(c) == CcittStep(a) ^ CcittStep(b)
  {
  }

  lemma CcittLinear(a: bv16, b: bv16)
    ensures CcittStep(Xor(a, b)) == Xor(CcittStep(a), CcittStep(b))
  {
    if a & 0x8000 != 0 {
      if b & 0x8000 != 0 {
        CcittBothTop(a, b, Xor(a, b));
      } else {
        CcittOneTop(a, b, Xor(a, b));
      }
    } else if b & 0x8000 != 0 {
      CcittOtherTop(a, b, Xor(a, b));
    } else {
      CcittNoTop(a, b, Xor(a, b));
    }
  }

  lemma CcittInjective(a: bv16, b: bv16)
    requires CcittStep(a) == CcittStep(b)
    ensures a == b
  {
    if a & 0x8000 != 0 {
      if b & 0x8000 != 0 {
      }
    } else if b & 0x8000 != 0 {
    }
  }

  lemma ModbusBothLow(a: bv16, b: bv16, c: bv16)
    requires c == a ^ b && a & 0x0001 != 0 && b & 0x0001 != 0
    ensures ModbusStep(c) == ModbusStep(a) ^ ModbusStep(b)
  {
  }

  lemma ModbusOneLow(a: bv16, b: bv16, c: bv16)
    requires c == a ^ b && a & 0x0001 != 0 && b & 0x0001 == 0
    ensures ModbusStep(c) == ModbusStep(a) ^ ModbusStep(b)
  {
  }

  lemma ModbusOtherLow(a: bv16, b: bv16, c: bv16)
    requires c == a ^ b && a & 0x0001 == 0 && b & 0x0001 != 0
    ensures ModbusStep(c) == ModbusStep(a) ^ ModbusStep(b)
  {
  }

  lemma ModbusNoLow(a: bv16, b: bv16, c: bv16)
    requires c == a ^ b && a & 0x0001 == 0 && b & 0x0001 == 0
    ensures ModbusStep(c) == ModbusStep(a) ^ ModbusStep(b)
  {
  }

  lemma ModbusLinear(a: bv16, b: bv16)
    ensures ModbusStep(Xor(a, b)) == Xor(ModbusStep(a), ModbusStep(b))
  {
    if a & 0x0001 != 0 {
      if b & 0x0001 != 0 {
        ModbusBothLow(a, b, Xor(a, b));
      } else {
        ModbusOneLow(a, b, Xor(a, b));
      }
    } else if b & 0x0001 != 0 {
      ModbusOtherLow(a, b, Xor(a, b));
    } else {
      ModbusNoLow(a, b, Xor(a, b));
    }
  }

  lemma ModbusInjective(a: bv16, b: bv16)
    requires ModbusStep(a) == ModbusStep(b)
    ensures a == b
  {
    if a & 0x0001 != 0 {
      if b & 0x0001 != 0 {
      }
    } else if b & 0x0001 != 0 {
    }
  }

  lemma HalvesDetermine(a: bv8, b: bv8, a': bv8, b': bv8)
    requires Xor(AsHigh(a), AsLow(b)) == Xor(AsHigh(a'), AsLow(b'))
             || Xor(AsLow(b), AsHigh(a)) == Xor(AsLow(b'), AsHigh(a'))
    ensures a == a' && b == b'
  {
  }

  lemma HighRemoved(x: bv16)
    ensures Xor(x, AsHigh(High(x))) == AsLow(Low(x))
  {
  }

  lemma LowRemoved(x: bv16)
    ensures Xor(x, AsLow(Low(x))) == AsHigh(High(x))
  {
  }

  lemma CcittCarries(b: bv8, k: bv16)
    requires k < 8
    ensures CcittStep((b as bv16) << k) == (b as bv16) << (k + 1)
  {
  }

  lemma ModbusCarries(b: bv8, k: bv16)
    requires k < 8
    ensures ModbusStep(((b as bv16) << 8) >> k) == ((b as bv16) << 8) >> (k + 1)
  {
  }

  /** Eight steps one by one. */
  lemma EightSteps<T>(r: Register<T>, x0: T, x1: T, x2: T, x3: T, x4: T, x5: T, x6: T, x7: T, x8: T)
    requires r.step(x0) == x1 && r.step(x1) == x2 && r.step(x2) == x3 && r.step(x3) == x4
    requires r.step(x4) == x5 && r.step(x5) == x6 && r.step(x6) == x7 && r.step(x7) == x8
    ensures Bits(r, x0, 8) == x8
  {
    assert Bits(r, x0, 8) == Bits(r, x1, 7) == Bits(r, x2, 6) == Bits(r, x3, 5) == Bits(r, x4, 4);
    assert Bits(r, x4, 4) == Bits(r, x5, 3) == Bits(r, x6, 2) == Bits(r, x7, 1) == Bits(r, x8, 0);
  }

  lemma CcittCarriesByte(b: bv8)
    ensures Bits(CCITT, AsLow(b), 8) == AsHigh(b)
  {
    var x := b as bv16;
    CcittCarries(b, 0);
    CcittCarries(b, 1);
    CcittCarries(b, 2);
    CcittCarries(b, 3);
    CcittCarries(b, 4);
    CcittCarries(b, 5);
    CcittCarries(b, 6);
    CcittCarries(b, 7);
    assert x << 0 == x;
    EightSteps(CCITT, x, x << 1, x << 2, x << 3, x << 4, x << 5, x << 6, x << 7, x << 8);
  }

  lemma ModbusCarriesByte(b: bv8)
    ensures Bits(MODBUS, AsHigh(b), 8) == AsLow(b)
  {
    var x := (b as bv16) << 8;
    ModbusCarries(b, 0);
    ModbusCarries(b, 1);
    ModbusCarries(b, 2);
    ModbusCarries(b, 3);
    ModbusCarries(b, 4);
    ModbusCarries(b, 5);
    ModbusCarries(b, 6);
    ModbusCarries(b, 7);
    assert x >> 0 == x && x >> 8 == b as bv16;
    EightSteps(MODBUS, x, x >> 1, x >> 2, x >> 3, x >> 4, x >> 5, x >> 6, x >> 7, x >> 8);
  }

  lemma XorIsAssociative(r: Register<bv16>)
    requires r.xor == CCITT.xor
    ensures Associates(r)
  {
    forall a, b, c ensures r.xor(a, r.xor(b, c)) == r.xor(r.xor(a, b), c) {
      XorAssociates(a, b, c);
    }
  }

  lemma XorIsCancellative(r: Register<bv16>)
    requires r.xor == CCITT.xor && r.zero == 0
    ensures Cancels(r)
  {
    forall a ensures r.xor(a, a) == r.zero {
      XorSelf(a);
    }
    forall a, b, p | r.xor(a, p) == r.xor(b, p) || r.xor(p, a) == r.xor(p, b) ensures a == b {
      XorCancels(a, b, p);
    }
  }

  lemma CcittStepLaws()
    ensures StepIsLinear(CCITT) && StepIsInjective(CCITT)
  {
    forall a, b ensures CCITT.step(CCITT.xor(a, b)) == CCITT.xor(CCITT.step(a), CCITT.step(b)) {
      CcittLinear(a, b);
    }
    forall a, b | CCITT.step(a) == CCITT.step(b) ensures a == b {
      CcittInjective(a, b);
    }
  }

  lemma ModbusStepLaws()
    ensures StepIsLinear(MODBUS) && StepIsInjective(MODBUS)
  {
    forall a, b ensures MODBUS.step(MODBUS.xor(a, b)) == MODBUS.xor(MODBUS.step(a), MODBUS.step(b)) {
      ModbusLinear(a, b);
    }
    forall a, b | MODBUS.step(a) == MODBUS.step(b) ensures a == b {
      ModbusInjective(a, b);
    }
  }

  lemma CcittHalves()
    ensures HasHalves(CCITT)
  {
    var r := CCITT;
    forall a, b, a', b' | r.xor(r.near(a), r.far(b)) == r.xor(r.near(a'), r.far(b')) ensures a == a' && b == b' {
      HalvesDetermine(a, b, a', b');
    }
    forall x ensures r.xor(x, r.near(r.first(x))) == r.far(r.second(x)) {
      HighRemoved(x);
    }
    forall b ensures Eight(r, r.far(b)) == r.near(b) {
      CcittCarriesByte(b);
    }
  }

  lemma ModbusHalves()
    ensures HasHalves(MODBUS)
  {
    var r := MODBUS;
    forall a, b, a', b' | r.xor(r.near(a), r.far(b)) == r.xor(r.near(a'), r.far(b')) ensures a == a' && b == b' {
      HalvesDetermine(b, a, b', a');
    }
    forall x ensures r.xor(x, r.near(r.first(x))) == r.far(r.second(x)) {
      LowRemoved(x);
    }
    forall b ensures Eight(r, r.far(b)) == r.near(b) {
      ModbusCarriesByte(b);
    }
  }

  /** Everything proved above holds of CRC-16/CCITT-FALSE. */
  lemma CcittIsLawful()
    ensures Lawful(CCITT)
  {
    XorIsAssociative(CCITT);
    XorIsCancellative(CCITT);
    CcittStepLaws();
    CcittHalves();
  }

  /** And of CRC-16/MODBUS. */
  lemma ModbusIsLawful()
    ensures Lawful(MODBUS)
  {
    XorIsAssociative(MODBUS);
    XorIsCancellative(MODBUS);
    ModbusStepLaws();
    ModbusHalves();
  }

  /** CRC-16/CCITT-FALSE is appended high byte first. */
  lemma CcittResidue(data: Data, init: bv16)
    ensures var crc := Crc(CCITT, data, init); Crc(CCITT, data + [High(crc), Low(crc)], init) == 0
  {
    hide Crc;
    CcittIsLawful();
    ResidueIsZero(CCITT, data, init);
  }

  /** CRC-16/MODBUS is appended low byte first. */
  lemma ModbusResidue(data: Data, init: bv16)
    ensures var crc := Crc(MODBUS, data, init); Crc(MODBUS, data + [Low(crc), High(crc)], init) == 0
  {
    hide Crc;
    ModbusIsLawful();
    ResidueIsZero(MODBUS, data, init);
  }
}
