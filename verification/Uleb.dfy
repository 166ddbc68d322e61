/** The ULEB128 writer of the package builder and the reader of the package checker. */
module Uleb {
  import opened Common

  // ---------- writer ----------

  function Encode(n: nat): (bytes: Bytes)
    ensures bytes != []
  {
    if n < 128 then [n] else [n % 128 + 128] + Encode(n / 128)
  }

  method Write(value: nat) returns (out: Bytes)
    ensures out == Encode(value)
  {
    out := [];
    var n := value;
    while true
      invariant out + Encode(n) == Encode(value)
      decreases n
    {
      var b := n % 128;
      n := n / 128;
      if n != 0 {
        out := out + [b + 128];
      } else {
        out := out + [b];
        return;
      }
    }
  }

  function EncodeAll(values: seq<nat>): Bytes {
    if values == [] then [] else Encode(values[0]) + EncodeAll(values[1..])
  }

  // ---------- reader ----------

  /** `2 ** (7 * k)`. */
  function Pow128(k: nat): (p: nat)
    ensures p > 0
  {
    if k == 0 then 1 else 128 * Pow128(k - 1)
  }

  datatype Read = Read(value: nat, next: nat)

  /**
   The number that starts at `offset`, and the offset behind it; None where the reader runs off the end of
   the data.
   */
  function Decode(data: Bytes, offset: nat): (r: Option<Read>)
    ensures r.Some? ==> offset < r.value.next <= |data|
    decreases |data| - offset
  {
    if offset >= |data| then None
    else if data[offset] < 128 then Some(Read(data[offset], offset + 1))
    else
      var rest := Decode(data, offset + 1);
      if rest.None? then None else Some(Read(data[offset] - 128 + 128 * rest.value.value, rest.value.next))
  }

  /** After `k` groups with sum `v`, what is still to come is read from `o`. */
  predicate Continues(data: Bytes, start: nat, v: nat, k: nat, o: nat) {
    var whole, rest := Decode(data, start), Decode(data, o);
    if rest.None? then whole.None?
    else whole == Some(Read(v + Pow128(k) * rest.value.value, rest.value.next))
  }

  lemma ShiftedSum(v: nat, p: nat, low: nat, rest: nat)
    ensures v + p * (low + 128 * rest) == v + low * p + 128 * p * rest
  {
    assert p * (low + 128 * rest) == p * low + p * (128 * rest);
  }

  /** The seven bits of a byte at the place of group `k`. */
  function Group(b: byte, k: nat): nat {
    b % 128 * Pow128(k)
  }

  lemma NextGroup(b: byte, k: nat)
    requires b >= 128
    ensures Group(b, k) == (b - 128) * Pow128(k) && Pow128(k + 1) == 128 * Pow128(k)
  {
    assert b % 128 == b - 128;
  }

  lemma ContinuesFurther(data: Bytes, start: nat, v: nat, k: nat, o: nat)
    requires Continues(data, start, v, k, o) && o < |data| && data[o] >= 128
    ensures Continues(data, start, v + Group(data[o], k), k + 1, o + 1)
  {
    hide Pow128, Group;
    NextGroup(data[o], k);
    var rest := Decode(data, o + 1);
    if rest.Some? {
      ShiftedSum(v, Pow128(k), data[o] - 128, rest.value.value);
    }
  }

  lemma ContinuesToEnd(data: Bytes, start: nat, v: nat, k: nat, o: nat)
    requires Continues(data, start, v, k, o) && o < |data| && data[o] < 128
    ensures Decode(data, start) == Some(Read(v + Group(data[o], k), o + 1))
  {
    LastGroup(data[o], k);
  }

  lemma LastGroup(b: byte, k: nat)
    requires b < 128
    ensures Pow128(k) * b == Group(b, k)
  {
    var low := b % 128;
    assert low == b;
    Commutes(Pow128(k), low);
  }

  lemma Commutes(p: nat, low: nat)
    ensures p * low == low * p
  {
  }

  lemma GroupFits(v: nat, b: byte, k: nat)
    requires v < Pow128(k)
    ensures v + Group(b, k) < Pow128(k + 1)
  {
    ProductBound(b % 128, Pow128(k));
  }

  lemma ProductBound(low: nat, p: nat)
    requires low <= 127
    ensures low * p <= 127 * p
  {
    assert (127 - low) * p >= 0;
  }

  /** The bits added by a group lie above all earlier ones, so the reader's `|=` is an addition. */
  method ReadAt(data: Bytes, start: nat) returns (r: Option<Read>)
    ensures r == Decode(data, start)
  {
    var v: nat, k: nat, o := 0, 0, start;
    while true
      invariant start <= o && v < Pow128(k) && Continues(data, start, v, k, o)
      decreases |data| - o
    {
      if o >= |data| {
        return None;
      }
      var b := data[o];
      if b < 128 {
        ContinuesToEnd(data, start, v, k, o);
        return Some(Read(v + Group(b, k), o + 1));
      }
      ContinuesFurther(data, start, v, k, o);
      GroupFits(v, b, k);
      v, k, o := v + Group(b, k), k + 1, o + 1;
    }
  }

  // ---------- round trip ----------

  /** A number is read back wherever it is written, and the reader stops exactly behind it. */
  lemma {:induction false} DecodesEncoded(front: Bytes, n: nat, back: Bytes)
    ensures Decode(front + (Encode(n) + back), |front|) == Some(Read(n, |front| + |Encode(n)|))
    decreases n
  {
    var data := front + (Encode(n) + back);
    assert data[|front|] == Encode(n)[0];
    if n >= 128 {
      var longer := front + [Encode(n)[0]];
      assert data == longer + (Encode(n / 128) + back);
      DecodesEncoded(longer, n / 128, back);
    }
  }

  /** Reading one number after the other. */
  function DecodeMany(data: Bytes, offset: nat, count: nat): Option<(seq<nat>, nat)>
    decreases count
  {
    if count == 0 then Some(([], offset))
    else
      var first := Decode(data, offset);
      if first.None? then None
      else
        var rest := DecodeMany(data, first.value.next, count - 1);
        if rest.None? then None else Some(([first.value.value] + rest.value.0, rest.value.1))
  }

  lemma {:induction false} DecodesAllFrom(front: Bytes, values: seq<nat>)
    ensures DecodeMany(front + EncodeAll(values), |front|, |values|) == Some((values, |front| + |EncodeAll(values)|))
    decreases |values|
  {
    hide Encode, Decode;
    if values != [] {
      DecodesAllFrom(front + Encode(values[0]), values[1..]);
      DecodesFirst(front, values[0], values[1..]);
      assert [values[0]] + values[1..] == values;
    }
  }

  lemma DecodesFirst(front: Bytes, n: nat, rest: seq<nat>)
    requires var shifted := front + Encode(n);
      DecodeMany(shifted + EncodeAll(rest), |shifted|, |rest|) == Some((rest, |shifted + EncodeAll(rest)|))
    ensures var data := front + (Encode(n) + EncodeAll(rest));
      DecodeMany(data, |front|, |rest| + 1) == Some(([n] + rest, |data|))
  {
    hide Encode, Decode, EncodeAll;
    DecodesEncoded(front, n, EncodeAll(rest));
    assert front + (Encode(n) + EncodeAll(rest)) == (front + Encode(n)) + EncodeAll(rest);
  }

  /** Any list of naturals is read back from its concatenated encodings, up to exactly the end. */
  lemma ListRoundTrip(values: seq<nat>)
    ensures DecodeMany(EncodeAll(values), 0, |values|) == Some((values, |EncodeAll(values)|))
  {
    DecodesAllFrom([], values);
    assert [] + EncodeAll(values) == EncodeAll(values);
  }

  // ---------- minimality ----------

  /** Groups carry seven bits each. */
  lemma {:induction false} DecodedIsBounded(data: Bytes, offset: nat)
    requires Decode(data, offset).Some?
    ensures var r := Decode(data, offset).value; r.value < Pow128(r.next - offset)
    decreases |data| - offset
  {
    if data[offset] >= 128 {
      DecodedIsBounded(data, offset + 1);
    }
  }

  lemma {:induction false} EncodedIsShort(n: nat, k: nat)
    requires n < Pow128(k) && k > 0
    ensures |Encode(n)| <= k
    decreases k
  {
    if n >= 128 {
      assert k > 1;
      EncodedIsShort(n / 128, k - 1);
    }
  }

  /** No byte string that reads as `n` is shorter than the one written, and none as short differs from it. */
  lemma EncodingIsMinimal(data: Bytes, n: nat)
    requires Decode(data, 0) == Some(Read(n, |data|))
    ensures |Encode(n)| <= |data|
    ensures |Encode(n)| == |data| ==> data == Encode(n)
  {
    DecodedIsBounded(data, 0);
    EncodedIsShort(n, |data|);
    if |Encode(n)| == |data| {
      ShortestIsUnique(data, 0, n);
    }
  }

  lemma {:induction false} ShortestIsUnique(data: Bytes, offset: nat, n: nat)
    requires Decode(data, offset) == Some(Read(n, |data|)) && |data| == offset + |Encode(n)|
    ensures data[offset..] == Encode(n)
    decreases |data| - offset
  {
    if data[offset] < 128 {
      assert data[offset..] == [data[offset]];
    } else {
      DecodedIsBounded(data, offset + 1);
      if n >= 128 {
        ShortestIsUnique(data, offset + 1, n / 128);
        assert data[offset..] == [data[offset]] + data[offset + 1..];
      }
    }
  }
}
