/** Bit and byte helpers. Indices are Python's: a negative one counts from the end of the buffer. */
module ByteUtils {
  import opened Common

  datatype Error = ValueError | IndexError

  function Pow2(n: nat): (p: nat)
    ensures p > 0
  {
    if n == 0 then 1 else 2 * Pow2(n - 1)
  }

  /** `x >> k`. */
  function ShiftRight(x: nat, k: nat): nat
    decreases k
  {
    if k == 0 then x else ShiftRight(x / 2, k - 1)
  }

  /** `(x >> k) & 1`. */
  function BitOf(x: nat, k: nat): nat {
    ShiftRight(x, k) % 2
  }

  lemma {:induction false} ShiftRightStep(x: nat, k: nat)
    ensures ShiftRight(x, k + 1) == ShiftRight(x, k) / 2
    decreases k
  {
    if k > 0 {
      ShiftRightStep(x / 2, k - 1);
    }
  }

  lemma {:induction false} ShiftedOut(x: nat, k: nat)
    requires x < Pow2(k)
    ensures ShiftRight(x, k) == 0
    decreases k
  {
    if k > 0 {
      ShiftedOut(x / 2, k - 1);
    }
  }

  function Shift(offset: nat, msbFirst: bool): (k: nat)
    requires offset < 8
    ensures k < 8
  {
    if msbFirst then 7 - offset else offset
  }

  /** The byte an index falls into, or None where Python raises IndexError. */
  function ByteIndex(length: nat, bitIndex: int): (i: Option<nat>)
    ensures i.Some? <==> -8 * length <= bitIndex < 8 * length
    ensures i.Some? ==> i.value < length
  {
    var i := bitIndex / 8;
    if i >= length || i + length < 0 then None else Some(if i < 0 then i + length else i)
  }

  function GetBit(data: Bytes, bitIndex: int, msbFirst: bool): Option<nat> {
    var i := ByteIndex(|data|, bitIndex);
    if i.None? then None else Some(BitOf(data[i.value], Shift(bitIndex % 8, msbFirst)))
  }

  // ---------- set_bit ----------

  /** A set bit is part of the number. */
  lemma {:induction false} BitIsContained(x: nat, k: nat)
    ensures BitOf(x, k) == 1 ==> x >= Pow2(k)
    decreases k
  {
    if k > 0 {
      BitIsContained(x / 2, k - 1);
    }
  }

  /** `x | 1 << k` or `x & ~(1 << k)`. */
  function WithBit(x: nat, k: nat, value: bool): nat {
    if value then (if BitOf(x, k) == 1 then x else x + Pow2(k))
    else if BitOf(x, k) == 1 then
      BitIsContained(x, k);
      x - Pow2(k)
    else x
  }

  lemma WithBitHalves(x: nat, k: nat, value: bool)
    requires k > 0
    ensures WithBit(x, k, value) == 2 * WithBit(x / 2, k - 1, value) + x % 2
  {
    assert Pow2(k) == 2 * Pow2(k - 1);
  }

  lemma {:induction false} WithBitFits(x: nat, k: nat, value: bool, n: nat)
    requires x < Pow2(n) && k < n
    ensures WithBit(x, k, value) < Pow2(n)
    decreases n
  {
    var p := Pow2(n - 1);
    assert Pow2(n) == 2 * p;
    if k > 0 {
      WithBitHalves(x, k, value);
      WithBitFits(x / 2, k - 1, value, n - 1);
    }
  }

  lemma {:induction false} WithBitChangesOne(x: nat, k: nat, value: bool, j: nat)
    ensures BitOf(WithBit(x, k, value), j) == if j == k then (if value then 1 else 0) else BitOf(x, j)
    decreases k
  {
    if k > 0 {
      WithBitHalves(x, k, value);
      if j > 0 {
        WithBitChangesOne(x / 2, k - 1, value, j - 1);
      }
    }
  }

  lemma Pow2Of8()
    ensures Pow2(8) == 256
  {
    assert Pow2(4) == 16;
    assert Pow2(6) == 64;
  }

  function ByteWithBit(b: byte, k: nat, value: bool): byte
    requires k < 8
  {
    Pow2Of8();
    WithBitFits(b, k, value, 8);
    WithBit(b, k, value)
  }

  function SetBit(data: Bytes, bitIndex: int, value: bool, msbFirst: bool): Option<Bytes> {
    var i := ByteIndex(|data|, bitIndex);
    if i.None? then None
    else Some(data[i.value := ByteWithBit(data[i.value], Shift(bitIndex % 8, msbFirst), value)])
  }

  /** Setting a bit changes exactly that bit, as read in the same numbering. */
  lemma SetBitChangesOne(data: Bytes, index: int, value: bool, msbFirst: bool, j: nat)
    requires j < 8 * |data| && SetBit(data, index, value, msbFirst).Some?
    ensures var after := SetBit(data, index, value, msbFirst).value;
            && |after| == |data|
            && GetBit(after, j, msbFirst) ==
               if j == index % (8 * |data|) then Some(if value then 1 else 0) else GetBit(data, j, msbFirst)
  {
    var k := Shift(index % 8, msbFirst);
    WrapIndex(|data|, index);
    if j / 8 == ByteIndex(|data|, index).value {
      WithBitChangesOne(data[j / 8], k, value, Shift(j % 8, msbFirst));
    }
  }

  lemma WrapIndex(length: nat, index: int)
    requires -8 * length <= index < 8 * length
    ensures var at := index % (8 * length);
            at / 8 == ByteIndex(length, index).value && at % 8 == index % 8
    ensures index >= 0 ==> index % (8 * length) == index
    ensures index < 0 ==> index % (8 * length) == index + 8 * length
  {
    var n := 8 * length;
    if index >= 0 {
      SmallRemainder(index, n);
    } else {
      SmallRemainder(index + n, n);
      assert (index + n) % n == index % n by {
        assert index + n == n * 1 + index;
        Periodic(index, n);
      }
    }
  }

  lemma SmallRemainder(x: int, n: int)
    requires 0 <= x < n
    ensures x % n == x
  {
  }

  lemma Periodic(x: int, n: int)
    requires n > 0
    ensures (x + n) % n == x % n
  {
    var q := x / n;
    assert x == q * n + x % n;
    assert x + n == (q + 1) * n + x % n;
    UniqueQuotient(x + n, n, q + 1, x % n);
  }

  // ---------- extract_bits ----------

  predicate AreBits(bits: seq<nat>) {
    forall i :: 0 <= i < |bits| ==> bits[i] < 2
  }

  /** All bits of a buffer in index order. */
  function BitsOf(data: Bytes, msbFirst: bool): (bits: seq<nat>)
    ensures |bits| == 8 * |data| && AreBits(bits)
  {
    seq(8 * |data|, i requires 0 <= i < 8 * |data| => GetBit(data, i, msbFirst).value)
  }

  lemma BitAt(data: Bytes, i: nat, msbFirst: bool)
    requires i < 8 * |data|
    ensures GetBit(data, i, msbFirst) == Some(BitsOf(data, msbFirst)[i])
  {
  }

  /** The number with the given bits, the first one most significant. */
  function Value(bits: seq<nat>): nat {
    if bits == [] then 0 else 2 * Value(bits[..|bits| - 1]) + bits[|bits| - 1]
  }

  function Part(bits: seq<nat>, from: int, n: int): nat
    requires 0 <= from && 0 <= n && from + n <= |bits|
  {
    Value(bits[from..from + n])
  }

  /** A negative start wraps: it reads the buffer put before itself. */
  function Extract(data: Bytes, start: int, n: int, msbFirst: bool): Result<nat, Error> {
    if n <= 0 then Err(ValueError)
    else if start + n > 8 * |data| || start < -8 * |data| then Err(IndexError)
    else Ok(Part(BitsOf(data + data, msbFirst), start + 8 * |data|, n))
  }

  lemma WrappedRead(data: Bytes, index: int, msbFirst: bool)
    requires -8 * |data| <= index < 8 * |data|
    ensures GetBit(data, index, msbFirst) == Some(BitsOf(data + data, msbFirst)[index + 8 * |data|])
  {
    var shifted := index + 8 * |data|;
    assert shifted / 8 == index / 8 + |data| && shifted % 8 == index % 8;
    assert GetBit(data, index, msbFirst) == GetBit(data + data, shifted, msbFirst);
    BitAt(data + data, shifted, msbFirst);
  }

  lemma PartSnoc(bits: seq<nat>, from: nat, n: nat)
    requires from + n < |bits|
    ensures Part(bits, from, n + 1) == 2 * Part(bits, from, n) + bits[from + n]
  {
    assert bits[from..from + n + 1][..n] == bits[from..from + n];
  }

  method ExtractBits(data: Bytes, start: int, n: int, msbFirst: bool) returns (r: Result<nat, Error>)
    ensures r == Extract(data, start, n, msbFirst)
  {
    if n <= 0 {
      return Err(ValueError);
    }
    if start + n > |data| * 8 {
      return Err(IndexError);
    }
    var value: nat, offset: nat := 0, 0;
    while offset < n
      invariant offset <= n && (offset > 0 ==> start >= -8 * |data|)
      invariant Reads(data, start, offset, msbFirst, value)
    {
      var bit := GetBit(data, start + offset, msbFirst);
      if bit.None? {
        return Err(IndexError);
      }
      NextRead(data, start, offset, msbFirst, value);
      value := 2 * value + bit.value;
      offset := offset + 1;
    }
    return Ok(value);
  }

  /** `value` is what has been read after `offset` bits, if the start is a legal index. */
  predicate Reads(data: Bytes, start: int, offset: nat, msbFirst: bool, value: nat)
    requires start + offset <= 8 * |data|
  {
    start >= -8 * |data| ==> value == Part(BitsOf(data + data, msbFirst), start + 8 * |data|, offset)
  }

  lemma NextRead(data: Bytes, start: int, offset: nat, msbFirst: bool, value: nat)
    requires -8 * |data| <= start && start + offset < 8 * |data| && Reads(data, start, offset, msbFirst, value)
    ensures Reads(data, start, offset + 1, msbFirst, 2 * value + GetBit(data, start + offset, msbFirst).value)
  {
    var bits, at := BitsOf(data + data, msbFirst), start + 8 * |data|;
    WrappedRead(data, start + offset, msbFirst);
    assert bits[at + offset] == GetBit(data, start + offset, msbFirst).value;
    PartSnoc(bits, at, offset);
  }

  // ---------- the extracted number ----------

  /** The buffer as one big-endian integer. */
  function BigEndian(data: Bytes): nat {
    if data == [] then 0 else 256 * BigEndian(data[..|data| - 1]) + data[|data| - 1]
  }

  lemma DoubleProduct(a: nat, p: nat)
    ensures a * (2 * p) == 2 * (a * p)
  {
  }

  /** Appending bits shifts a number up by their count. */
  lemma {:induction false} ValueSplits(a: seq<nat>, b: seq<nat>)
    requires AreBits(b)
    ensures Value(a + b) == Value(a) * Pow2(|b|) + Value(b)
    ensures Value(b) < Pow2(|b|)
    decreases |b|
  {
    if b == [] {
      assert a + b == a;
    } else {
      var front := b[..|b| - 1];
      assert (a + b)[..|a + b| - 1] == a + front;
      ValueSplits(a, front);
      var high, p := Value(a), Pow2(|front|);
      assert Value(a + b) == 2 * Value(a + front) + b[|b| - 1] && Pow2(|b|) == 2 * p;
      DoubleProduct(high, p);
    }
  }

  lemma {:induction false} OneByteValue(b: byte, n: nat)
    requires n <= 8
    ensures Value(BitsOf([b], true)[..n]) == ShiftRight(b, 8 - n)
    decreases n
  {
    var bits := BitsOf([b], true);
    if n == 0 {
      Pow2Of8();
      ShiftedOut(b, 8);
    } else {
      OneByteValue(b, n - 1);
      ShiftRightStep(b, 8 - n);
      assert bits[..n][..n - 1] == bits[..n - 1];
      BitAt([b], n - 1, true);
      assert GetBit([b], n - 1, true) == Some(BitOf(b, 8 - n));
    }
  }

  lemma BitsAppend(front: Bytes, last: byte, msbFirst: bool)
    ensures BitsOf(front + [last], msbFirst) == BitsOf(front, msbFirst) + BitsOf([last], msbFirst)
  {
    var data := front + [last];
    forall i | 0 <= i < 8 * |data|
      ensures BitsOf(data, msbFirst)[i] == (BitsOf(front, msbFirst) + BitsOf([last], msbFirst))[i]
    {
      BitAt(data, i, msbFirst);
      if i >= 8 * |front| {
        var k := i - 8 * |front|;
        BitAt([last], k, msbFirst);
        assert i / 8 == |front| && i % 8 == k == k % 8 && k / 8 == 0;
        assert GetBit(data, i, msbFirst) == GetBit([last], k, msbFirst);
      } else {
        BitAt(front, i, msbFirst);
        assert i / 8 < |front|;
        assert GetBit(data, i, msbFirst) == GetBit(front, i, msbFirst);
      }
    }
  }

  /** All bits, most significant first, are the big-endian integer. */
  lemma {:induction false} AllBitsAreBigEndian(data: Bytes)
    ensures Value(BitsOf(data, true)) == BigEndian(data)
    decreases |data|
  {
    hide BitsOf, GetBit;
    if data != [] {
      var front, last := data[..|data| - 1], data[|data| - 1];
      assert data == front + [last];
      BitsAppend(front, last, true);
      ValueSplits(BitsOf(front, true), BitsOf([last], true));
      assert BitsOf([last], true)[..8] == BitsOf([last], true);
      OneByteValue(last, 8);
      Pow2Of8();
      AllBitsAreBigEndian(front);
    }
  }

  /** Dividing by a power of two cuts a number in two. */
  lemma ValueDivides(a: seq<nat>, b: seq<nat>)
    requires AreBits(b)
    ensures Value(a + b) / Pow2(|b|) == Value(a) && Value(a + b) % Pow2(|b|) == Value(b)
  {
    ValueSplits(a, b);
    UniqueQuotient(Value(a + b), Pow2(|b|), Value(a), Value(b));
  }

  lemma PartIsArithmetic(bits: seq<nat>, start: nat, n: nat)
    requires AreBits(bits) && start + n <= |bits|
    ensures Part(bits, start, n) == Value(bits) / Pow2(|bits| - start - n) % Pow2(n)
  {
    var front, middle, back := bits[..start], bits[start..start + n], bits[start + n..];
    assert bits == (front + middle) + back;
    ValueDivides(front + middle, back);
    ValueDivides(front, middle);
  }

  lemma PartSplits(bits: seq<nat>, from: nat, m: nat, n: nat)
    requires AreBits(bits) && from + m + n <= |bits|
    ensures Part(bits, from, m + n) == Part(bits, from, m) * Pow2(n) + Part(bits, from + m, n)
  {
    var a, b := bits[from..from + m], bits[from + m..from + m + n];
    assert bits[from..from + (m + n)] == a + b;
    ValueSplits(a, b);
  }

  lemma PartOfBack(bits: seq<nat>, skip: nat, start: nat, n: nat)
    requires skip + start + n <= |bits|
    ensures Part(bits, skip + start, n) == Part(bits[skip..], start, n)
  {
    assert bits[skip..][start..start + n] == bits[skip + start..skip + start + n];
  }

  lemma SecondCopy(data: Bytes, msbFirst: bool)
    ensures BitsOf(data + data, msbFirst)[8 * |data|..] == BitsOf(data, msbFirst)
  {
    forall i | 0 <= i < 8 * |data| ensures BitsOf(data + data, msbFirst)[8 * |data| + i] == BitsOf(data, msbFirst)[i] {
      WrappedRead(data, i, msbFirst);
      BitAt(data, i, msbFirst);
    }
  }

  lemma PartOfSecondCopy(data: Bytes, start: nat, n: nat, msbFirst: bool)
    requires start + n <= 8 * |data|
    ensures Part(BitsOf(data + data, msbFirst), start + 8 * |data|, n) == Part(BitsOf(data, msbFirst), start, n)
  {
    hide BitsOf, Part;
    SecondCopy(data, msbFirst);
    PartOfBack(BitsOf(data + data, msbFirst), 8 * |data|, start, n);
  }

  /**
   From a negative start on, `extract_bits` reads the buffer put before itself; it raises IndexError for a start before
   that and for an end behind the buffer, and ValueError for no bits at all.
   */
  lemma ExtractWraps(data: Bytes, start: int, n: int, msbFirst: bool)
    ensures n <= 0 ==> Extract(data, start, n, msbFirst) == Err(ValueError)
    ensures n > 0 && (start < -(8 * |data|) || start + n > 8 * |data|) ==>
              Extract(data, start, n, msbFirst) == Err(IndexError)
    ensures n > 0 && -(8 * |data|) <= start && start + n <= 8 * |data| ==>
              Extract(data, start, n, msbFirst).Ok?
              && Extract(data, start, n, msbFirst) == Extract(data + data, start + 8 * |data|, n, msbFirst)
  {
    hide BitsOf, Part;
    if n > 0 && -(8 * |data|) <= start && start + n <= 8 * |data| {
      PartOfSecondCopy(data + data, start + 8 * |data|, n, msbFirst);
    }
  }

  lemma BufferPart(data: Bytes, start: nat, n: nat)
    requires start + n <= 8 * |data|
    ensures Part(BitsOf(data, true), start, n) == BigEndian(data) / Pow2(8 * |data| - start - n) % Pow2(n)
  {
    PartIsArithmetic(BitsOf(data, true), start, n);
    AllBitsAreBigEndian(data);
  }

  /**
   `extract_bits`, most significant bit first, from a start inside the buffer: an error, or the arithmetic
   slice floor(BE / 2^(8·len - start - n)) mod 2^n of the whole buffer.
   */
  lemma ExtractIsArithmetic(data: Bytes, start: nat, n: int)
    ensures Extract(data, start, n, true) ==
            if n <= 0 then Err(ValueError)
            else if start + n > 8 * |data| then Err(IndexError)
            else Ok(BigEndian(data) / Pow2(8 * |data| - start - n) % Pow2(n))
  {
    if 0 < n && start + n <= 8 * |data| {
      PartOfSecondCopy(data, start, n, true);
      BufferPart(data, start, n);
    }
  }

  /** Extraction splits, in either numbering: extract(s, m + n) = extract(s, m)·2^n + extract(s + m, n). */
  lemma ExtractSplits(data: Bytes, start: int, m: int, n: int, msbFirst: bool)
    requires m > 0 && n > 0
    requires Extract(data, start, m, msbFirst).Ok? && Extract(data, start + m, n, msbFirst).Ok?
    ensures Extract(data, start, m + n, msbFirst) ==
            Ok(Extract(data, start, m, msbFirst).value * Pow2(n) + Extract(data, start + m, n, msbFirst).value)
  {
    hide BitsOf, Part, Pow2, Value;
    PartSplits(BitsOf(data + data, msbFirst), start + 8 * |data|, m, n);
  }

  // ---------- the other numbering ----------

  /** The buffer as one little-endian integer. */
  function LittleEndian(data: Bytes): nat {
    if data == [] then 0 else data[0] + 256 * LittleEndian(data[1..])
  }

  lemma {:induction false} ShiftsAdd(x: nat, j: nat, k: nat)
    ensures ShiftRight(x, j + k) == ShiftRight(ShiftRight(x, j), k)
    decreases j
  {
    if j > 0 {
      ShiftsAdd(x / 2, j - 1, k);
    }
  }

  lemma {:induction false} ShiftIsQuotient(x: nat, k: nat)
    ensures ShiftRight(x, k) == x / Pow2(k)
    decreases k
  {
    if k > 0 {
      ShiftIsQuotient(x / 2, k - 1);
      var p := Pow2(k - 1);
      var q, r := x / 2 / p, x / 2 % p;
      assert x / 2 == q * p + r;
      DoubleProduct(q, p);
      UniqueQuotient(x, 2 * p, q, 2 * r + x % 2);
    }
  }

  /** Bits below those of `high` are the bits of `low`, the others its own. */
  lemma {:induction false} BitOfSum(low: nat, high: nat, n: nat, k: nat)
    requires low < Pow2(n)
    ensures BitOf(low + Pow2(n) * high, k) == if k < n then BitOf(low, k) else BitOf(high, k - n)
    decreases n
  {
    if n > 0 {
      var p := Pow2(n - 1);
      assert Pow2(n) * high == 2 * (p * high) by {
        DoubleProduct(high, p);
      }
      assert (low + Pow2(n) * high) / 2 == low / 2 + p * high && (low + Pow2(n) * high) % 2 == low % 2;
      if k > 0 {
        BitOfSum(low / 2, high, n - 1, k - 1);
      }
    }
  }

  /** Numbered from the least significant bit of the first byte on, bit `i` is bit `i` of the little-endian integer. */
  lemma {:induction false} LeastFirstIsLittleEndian(data: Bytes, i: nat)
    requires i < 8 * |data|
    ensures GetBit(data, i, false) == Some(LittleEndian(data) / Pow2(i) % 2)
    decreases |data|
  {
    var later := data[1..];
    Pow2Of8();
    BitOfSum(data[0], LittleEndian(later), 8, i);
    ShiftIsQuotient(LittleEndian(data), i);
    if i >= 8 {
      LeastFirstIsLittleEndian(later, i - 8);
      ShiftIsQuotient(LittleEndian(later), i - 8);
      assert i / 8 == (i - 8) / 8 + 1 && (i - 8) % 8 == i % 8;
    }
  }

  /** The bits of a number put together from bits, the last of them being the lowest. */
  lemma {:induction false} ValueHasBits(bits: seq<nat>, k: nat)
    requires AreBits(bits)
    ensures BitOf(Value(bits), k) == if k < |bits| then bits[|bits| - 1 - k] else 0
    decreases |bits|
  {
    if bits == [] {
      assert 0 < Pow2(k) && ShiftRight(0, k) == 0 by {
        ShiftedOut(0, k);
      }
    } else {
      var front, last := bits[..|bits| - 1], bits[|bits| - 1];
      assert Value(bits) / 2 == Value(front) && Value(bits) % 2 == last;
      if k > 0 {
        ValueHasBits(front, k - 1);
      }
    }
  }

  lemma BitIsQuotient(x: nat, k: nat)
    ensures BitOf(x, k) == x / Pow2(k) % 2
  {
    ShiftIsQuotient(x, k);
  }

  /**
   `extract_bits`, least significant bit first, from a start inside the buffer: bit `k` of the result is bit
   start + n - 1 - k of the little-endian integer, and there are no others.
   */
  lemma ExtractReverses(data: Bytes, start: nat, n: nat, k: nat)
    requires 0 < n && start + n <= 8 * |data|
    ensures Extract(data, start, n, false).Ok?
    ensures Extract(data, start, n, false).value / Pow2(k) % 2 ==
            if k < n then LittleEndian(data) / Pow2(start + n - 1 - k) % 2 else 0
  {
    hide GetBit, BitsOf, Value, BitOf, LittleEndian;
    var at := start + 8 * |data|;
    var bits := BitsOf(data + data, false)[at..at + n];
    ValueHasBits(bits, k);
    BitIsQuotient(Value(bits), k);
    if k < n {
      WrappedRead(data, start + n - 1 - k, false);
      LeastFirstIsLittleEndian(data, start + n - 1 - k);
    }
  }
}
