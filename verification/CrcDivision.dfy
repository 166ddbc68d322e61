/**
 The two CRCs as remainders. A polynomial over the two-element field is the sequence of its coefficients, the highest
 power first; the division knows nothing of registers.
 */
module CrcDivision {
  import opened Checksum
  import opened BurstErrors

  type Poly = seq<bool>

  function Zeros(n: nat): (p: Poly)
    ensures |p| == n
  {
    seq(n, _ => false)
  }

  function Plus(a: Poly, b: Poly): (sum: Poly)
    requires |a| == |b|
    ensures |sum| == |a|
  {
    seq(|a|, i requires 0 <= i < |a| => a[i] != b[i])
  }

  /** The polynomial of degree 16 with the given powers. */
  function Generator(powers: set<nat>): (g: Poly)
    ensures |g| == 17
  {
    seq(17, i requires 0 <= i < 17 => 16 - i in powers)
  }

  /** The product of two polynomials: the sum of the multiples of `g` by the powers in `q`. */
  function Times(q: Poly, g: Poly): (product: Poly)
    requires |g| == 17
    ensures |product| == |q| + 16
  {
    if q == [] then Zeros(16)
    else Plus(if q[0] then g + Zeros(|q| - 1) else Zeros(|q| + 16), [false] + Times(q[1..], g))
  }

  /** p = q·g + r, where r has a lower degree than g. */
  predicate Divides(p: Poly, g: Poly, q: Poly, r: Poly)
    requires |g| == 17
  {
    |r| == 16 && |p| == |q| + 16 && p == Plus(Times(q, g), Zeros(|q|) + r)
  }

  /** Long division: while there is a power left, the generator is subtracted where the highest one stands. */
  function Remainder(p: Poly, g: Poly): (r: Poly)
    requires |p| >= 16 && |g| == 17
    ensures |r| == 16
    decreases |p|
  {
    if |p| == 16 then p else Remainder(Reduced(p, g), g)
  }

  function Reduced(p: Poly, g: Poly): (r: Poly)
    requires |p| > 16 && |g| == 17
    ensures |r| == |p| - 1
  {
    (if p[0] then Plus(p, g + Zeros(|p| - 17)) else p)[1..]
  }

  /** A sum without its highest coefficients. */
  lemma PlusLater(a: Poly, b: Poly)
    requires |a| == |b| > 0
    ensures Plus(a, b)[1..] == Plus(a[1..], b[1..])
  {
  }

  /** Subtracting is adding. */
  lemma PlusMoves(a: Poly, b: Poly, c: Poly)
    requires |a| == |b| == |c|
    ensures a == Plus(b, c) <==> Plus(a, b) == c
  {
    if a == Plus(b, c) {
      forall i | 0 <= i < |a| ensures Plus(a, b)[i] == c[i] {
        assert a[i] == (b[i] != c[i]);
      }
    }
    if Plus(a, b) == c {
      forall i | 0 <= i < |a| ensures a[i] == Plus(b, c)[i] {
        assert Plus(a, b)[i] == c[i];
      }
    }
  }

  lemma PlusAssociates(a: Poly, b: Poly, c: Poly)
    requires |a| == |b| == |c|
    ensures Plus(Plus(a, b), c) == Plus(a, Plus(b, c))
  {
  }

  /** What is subtracted for the first power of the quotient. */
  function FirstMultiple(q: Poly, g: Poly): (r: Poly)
    requires q != [] && |g| == 17
    ensures |r| == |q| + 16
  {
    if q[0] then g + Zeros(|q| - 1) else Zeros(|q| + 16)
  }

  /** p = (first multiple) + (0, rest) says the highest coefficient and the others. */
  lemma SplitsAtTop(p: Poly, first: Poly, rest: Poly)
    requires |p| == |first| == |rest| + 1
    ensures p == Plus(first, [false] + rest) <==> p[0] == first[0] && Plus(p, first)[1..] == rest
  {
    PlusMoves(p, first, [false] + rest);
    var sum := Plus(p, first);
    assert sum[0] == (p[0] != first[0]);
    if sum[0] == false && sum[1..] == rest {
      assert sum == [sum[0]] + sum[1..];
    }
    if sum == [false] + rest {
      assert sum[1..] == rest;
    }
  }

  /** One step of the division takes one power off the quotient. */
  lemma DividesStep(p: Poly, g: Poly, q: Poly, r: Poly)
    requires |g| == 17 && g[0] && |p| > 16 && |q| == |p| - 16 && |r| == 16
    ensures Divides(p, g, q, r) <==> q[0] == p[0] && Divides(Reduced(p, g), g, q[1..], r)
  {
    hide Plus, Times;
    var first := FirstMultiple(q, g);
    var rest := Plus(Times(q[1..], g), Zeros(|q| - 1) + r);
    TimesFirst(q, g, r);
    SplitsAtTop(p, first, rest);
    assert first[0] == q[0];
    if q[0] == p[0] {
      ReducedIs(p, g, q);
    }
  }

  lemma TimesFirst(q: Poly, g: Poly, r: Poly)
    requires q != [] && |g| == 17 && |r| == 16
    ensures Plus(Times(q, g), Zeros(|q|) + r) ==
            Plus(FirstMultiple(q, g), [false] + Plus(Times(q[1..], g), Zeros(|q| - 1) + r))
  {
    hide Plus, FirstMultiple, Zeros, Times;
    var low := Zeros(|q| - 1) + r;
    TimesIs(q, g);
    PlusAssociates(FirstMultiple(q, g), [false] + Times(q[1..], g), Zeros(|q|) + r);
    OneZeroMore(|q|, r);
    PlusCons(false, false, Times(q[1..], g), low);
  }

  lemma TimesIs(q: Poly, g: Poly)
    requires q != [] && |g| == 17
    ensures Times(q, g) == Plus(FirstMultiple(q, g), [false] + Times(q[1..], g))
  {
    hide Plus;
  }

  lemma OneZeroMore(n: nat, r: Poly)
    requires n > 0
    ensures Zeros(n) + r == [false] + (Zeros(n - 1) + r)
  {
  }

  lemma ReducedIs(p: Poly, g: Poly, q: Poly)
    requires |g| == 17 && |p| > 16 && |q| == |p| - 16 && q[0] == p[0]
    ensures Reduced(p, g) == Plus(p, FirstMultiple(q, g))[1..]
  {
    if !p[0] {
      assert Plus(p, Zeros(|p|)) == p;
    }
  }

  lemma PlusCons(a: bool, b: bool, p: Poly, q: Poly)
    requires |p| == |q|
    ensures Plus([a] + p, [b] + q) == [a != b] + Plus(p, q)
  {
  }

  /** What the long division leaves is the remainder, and the only one. */
  lemma {:induction false} RemainderIsUnique(p: Poly, g: Poly, r: Poly)
    requires |p| >= 16 && |g| == 17 && g[0]
    ensures (exists q :: Divides(p, g, q, r)) <==> r == Remainder(p, g)
    decreases |p|
  {
    if |p| == 16 {
      var none: Poly := [];
      if r == p {
        assert Plus(Times(none, g), Zeros(0) + r) == p;
        assert Divides(p, g, none, r);
      }
      if q :| Divides(p, g, q, r) {
        assert q == none && Plus(Times(none, g), Zeros(0) + r) == r;
      }
    } else {
      var next := Reduced(p, g);
      RemainderIsUnique(next, g, r);
      if r == Remainder(p, g) {
        var q :| Divides(next, g, q, r);
        var longer := [p[0]] + q;
        assert longer[1..] == q;
        DividesStep(p, g, longer, r);
        assert Divides(p, g, longer, r);
      }
      if q :| Divides(p, g, q, r) {
        DividesStep(p, g, q, r);
      }
    }
  }

  // ---------- a register that divides ----------

  /** The register's coefficients after one more bit: shifted, and reduced if the highest one and the bit differ. */
  function Shifted(c: Poly, bit: bool, g: Poly): (r: Poly)
    requires |c| == 16 && |g| == 17
    ensures |r| == 16
  {
    Plus(c[1..] + [false], if c[0] != bit then g[1..] else Zeros(16))
  }

  /** The message times x^16, with the initial register added at its beginning. */
  function Dividend(bits: Poly, init: Poly): (p: Poly)
    requires |init| == 16
    ensures |p| == |bits| + 16
  {
    Plus(bits + Zeros(16), init + Zeros(|bits|))
  }

  lemma FeedReduces(bits: Poly, c: Poly, g: Poly)
    requires bits != [] && |c| == 16 && |g| == 17 && g[0]
    ensures Reduced(Dividend(bits, c), g) == Dividend(bits[1..], Shifted(c, bits[0], g))
  {
    var p, n := Dividend(bits, c), |bits|;
    var left, right := Reduced(p, g), Dividend(bits[1..], Shifted(c, bits[0], g));
    assert p[0] == (bits[0] != c[0]);
    forall j | 0 <= j < n + 15 ensures left[j] == right[j] {
      assert (bits + Zeros(16))[j + 1] == (bits[1..] + Zeros(16))[j];
      assert (c + Zeros(n))[j + 1] == (c[1..] + [false] + Zeros(n - 1))[j];
    }
    assert left == right;
  }

  // ---------- words as polynomials ----------

  /** The highest coefficient: the most significant bit of CRC-16/CCITT-FALSE, the least significant one of MODBUS. */
  function Lead(high: bool, x: bv16): bool {
    if high then x & 0x8000 != 0 else x & 0x0001 != 0
  }

  function Shift(high: bool, x: bv16): bv16 {
    if high then x << 1 else x >> 1
  }

  /** The first `n` coefficients of a register. */
  function Coefficients(high: bool, x: bv16, n: nat): (c: Poly)
    ensures |c| == n
    decreases n
  {
    if n == 0 then [] else [Lead(high, x)] + Coefficients(high, Shift(high, x), n - 1)
  }

  function Word(high: bool, x: bv16): (c: Poly)
    ensures |c| == 16
  {
    Coefficients(high, x, 16)
  }

  function ShiftTimes(high: bool, x: bv16, n: nat): bv16
    decreases n
  {
    if n == 0 then x else ShiftTimes(high, Shift(high, x), n - 1)
  }

  lemma FourShifts(x: bv16)
    ensures (((x << 1) << 1) << 1) << 1 == x << 4 && (((x >> 1) >> 1) >> 1) >> 1 == x >> 4
    ensures (((x << 4) << 4) << 4) << 4 == 0 && (((x >> 4) >> 4) >> 4) >> 4 == 0
  {
    hide *;
  }

  lemma FourTimes(high: bool, x: bv16, n: nat)
    ensures ShiftTimes(high, x, n + 4) == ShiftTimes(high, if high then x << 4 else x >> 4, n)
  {
    var y := Shift(high, Shift(high, x));
    assert ShiftTimes(high, x, n + 4) == ShiftTimes(high, y, n + 2);
    assert ShiftTimes(high, y, n + 2) == ShiftTimes(high, Shift(high, Shift(high, y)), n);
    FourShifts(x);
  }

  lemma AllShiftedOut(high: bool, x: bv16)
    ensures ShiftTimes(high, x, 16) == 0
  {
    FourShifts(x);
    FourTimes(high, x, 12);
    if high {
      FourTimes(high, x << 4, 8);
      FourTimes(high, (x << 4) << 4, 4);
      FourTimes(high, ((x << 4) << 4) << 4, 0);
    } else {
      FourTimes(high, x >> 4, 8);
      FourTimes(high, (x >> 4) >> 4, 4);
      FourTimes(high, ((x >> 4) >> 4) >> 4, 0);
    }
  }

  lemma {:induction false} CoefficientsSnoc(high: bool, x: bv16, n: nat)
    ensures Coefficients(high, x, n + 1) == Coefficients(high, x, n) + [Lead(high, ShiftTimes(high, x, n))]
    decreases n
  {
    hide Lead, Shift;
    if n > 0 {
      CoefficientsSnoc(high, Shift(high, x), n - 1);
    }
  }

  lemma ZeroDoesNotLead(high: bool)
    ensures !Lead(high, 0)
  {
  }

  /** Shifting a register multiplies it by x and drops what is x^16 then. */
  lemma ShiftIsTimesX(high: bool, x: bv16)
    ensures Word(high, Shift(high, x)) == Word(high, x)[1..] + [false]
  {
    hide Shift, Lead, Coefficients;
    AllShiftedOut(high, x);
    ZeroDoesNotLead(high);
    CoefficientsSnoc(high, x, 16);
    OneCoefficient(high, x, 16, Shift(high, x));
    var word, lead, later := Word(high, x), Lead(high, x), Word(high, Shift(high, x));
    assert word + [false] == [lead] + later;
    assert (word + [false])[1..] == word[1..] + [false];
    assert ([lead] + later)[1..] == later;
  }

  lemma LeftOfXor(x: bv16, y: bv16)
    ensures (x ^ y) << 1 == (x << 1) ^ (y << 1)
  {
    hide *;
  }

  lemma RightOfXor(x: bv16, y: bv16)
    ensures (x ^ y) >> 1 == (x >> 1) ^ (y >> 1)
  {
    hide *;
  }

  lemma BothLead(high: bool, x: bv16, y: bv16)
    requires Lead(high, x) && Lead(high, y)
    ensures !Lead(high, Xor(x, y))
  {
  }

  lemma FirstLeads(high: bool, x: bv16, y: bv16)
    requires Lead(high, x) && !Lead(high, y)
    ensures Lead(high, Xor(x, y))
  {
  }

  lemma SecondLeads(high: bool, x: bv16, y: bv16)
    requires !Lead(high, x) && Lead(high, y)
    ensures Lead(high, Xor(x, y))
  {
  }

  lemma NoneLeads(high: bool, x: bv16, y: bv16)
    requires !Lead(high, x) && !Lead(high, y)
    ensures !Lead(high, Xor(x, y))
  {
  }

  lemma LeadOfXor(high: bool, x: bv16, y: bv16)
    ensures Lead(high, Xor(x, y)) == (Lead(high, x) != Lead(high, y))
  {
    hide Lead, Xor;
    if Lead(high, x) {
      if Lead(high, y) {
        BothLead(high, x, y);
      } else {
        FirstLeads(high, x, y);
      }
    } else if Lead(high, y) {
      SecondLeads(high, x, y);
    } else {
      NoneLeads(high, x, y);
    }
  }

  lemma ShiftOfXor(high: bool, x: bv16, y: bv16)
    ensures Shift(high, Xor(x, y)) == Xor(Shift(high, x), Shift(high, y))
  {
    if high {
      LeftOfXor(x, y);
    } else {
      RightOfXor(x, y);
    }
  }

  /** Adding registers adds their polynomials. */
  lemma {:induction false} XorIsPlus(high: bool, x: bv16, y: bv16, n: nat)
    ensures Coefficients(high, Xor(x, y), n) == Plus(Coefficients(high, x, n), Coefficients(high, y, n))
    decreases n
  {
    hide Lead, Shift, Xor, Plus;
    if n > 0 {
      LeadOfXor(high, x, y);
      ShiftOfXor(high, x, y);
      XorIsPlus(high, Shift(high, x), Shift(high, y), n - 1);
      PlusCons(Lead(high, x), Lead(high, y), Coefficients(high, Shift(high, x), n - 1),
               Coefficients(high, Shift(high, y), n - 1));
    } else {
      PlusNothing();
    }
  }

  lemma PlusNothing()
    ensures Plus([], []) == []
  {
  }

  /** A register from its highest coefficient and the shifted others. */
  function Rebuilt(high: bool, lead: bool, rest: bv16): bv16 {
    if high then (if lead then 0x8000 else 0) | (rest >> 1) else (if lead then 0x0001 else 0) | (rest << 1)
  }

  lemma TopSet(x: bv16)
    requires Lead(true, x)
    ensures Rebuilt(true, true, Shift(true, x)) == x
  {
  }

  lemma TopClear(x: bv16)
    requires !Lead(true, x)
    ensures Rebuilt(true, false, Shift(true, x)) == x
  {
  }

  lemma LowSet(x: bv16)
    requires Lead(false, x)
    ensures Rebuilt(false, true, Shift(false, x)) == x
  {
  }

  lemma LowClear(x: bv16)
    requires !Lead(false, x)
    ensures Rebuilt(false, false, Shift(false, x)) == x
  {
  }

  lemma RebuiltIs(high: bool, x: bv16)
    ensures Rebuilt(high, Lead(high, x), Shift(high, x)) == x
  {
    hide Lead, Shift, Rebuilt;
    if high {
      if Lead(high, x) {
        TopSet(x);
      } else {
        TopClear(x);
      }
    } else if Lead(high, x) {
      LowSet(x);
    } else {
      LowClear(x);
    }
  }

  lemma LeadAndRest(high: bool, x: bv16, y: bv16)
    requires Lead(high, x) == Lead(high, y) && Shift(high, x) == Shift(high, y)
    ensures x == y
  {
    hide Lead, Shift, Rebuilt;
    RebuiltIs(high, x);
    RebuiltIs(high, y);
  }

  lemma {:induction false} CoefficientsDetermine(high: bool, x: bv16, y: bv16, n: nat)
    requires Coefficients(high, x, n) == Coefficients(high, y, n) && ShiftTimes(high, x, n) == ShiftTimes(high, y, n)
    ensures x == y
    decreases n
  {
    hide Lead, Shift;
    if n > 0 {
      assert Coefficients(high, x, n)[0] == Coefficients(high, y, n)[0];
      assert Coefficients(high, x, n)[1..] == Coefficients(high, y, n)[1..];
      CoefficientsDetermine(high, Shift(high, x), Shift(high, y), n - 1);
      LeadAndRest(high, x, y);
    }
  }

  /** A register is determined by its polynomial. */
  lemma WordIsDetermined(high: bool, x: bv16, y: bv16)
    ensures Word(high, x) == Word(high, y) <==> x == y
  {
    hide Coefficients;
    AllShiftedOut(high, x);
    AllShiftedOut(high, y);
    if Word(high, x) == Word(high, y) {
      CoefficientsDetermine(high, x, y, 16);
    }
  }

  lemma OneCoefficient(high: bool, x: bv16, n: nat, y: bv16)
    requires Shift(high, x) == y
    ensures Coefficients(high, x, n + 1) == [Lead(high, x)] + Coefficients(high, y, n)
  {
  }

  // ---------- the generators ----------

  /** x^16 + x^12 + x^5 + 1 */
  const CCITT_POWERS: set<nat> := {16, 12, 5, 0}

  /** x^16 + x^15 + x^2 + 1 */
  const MODBUS_POWERS: set<nat> := {16, 15, 2, 0}

  lemma CcittGenerator()
    ensures Generator(CCITT_POWERS) ==
            [true, false, false, false, true, false, false, false, false, false, false, true,
             false, false, false, false, true]
  {
  }

  lemma ModbusGenerator()
    ensures Generator(MODBUS_POWERS) ==
            [true, true, false, false, false, false, false, false, false, false, false, false,
             false, false, true, false, true]
  {
  }

  lemma CcittPolynomial()
    ensures Word(true, CCITT_POLY) ==
            [false, false, false, true, false, false, false, false, false, false, true, false,
             false, false, false, true]
  {
    OneCoefficient(true, 0x8000, 0, 0x0000);
    OneCoefficient(true, 0x4000, 1, 0x8000);
    OneCoefficient(true, 0x2000, 2, 0x4000);
    OneCoefficient(true, 0x1000, 3, 0x2000);
    OneCoefficient(true, 0x0800, 4, 0x1000);
    OneCoefficient(true, 0x8400, 5, 0x0800);
    OneCoefficient(true, 0x4200, 6, 0x8400);
    OneCoefficient(true, 0x2100, 7, 0x4200);
    OneCoefficient(true, 0x1080, 8, 0x2100);
    OneCoefficient(true, 0x0840, 9, 0x1080);
    OneCoefficient(true, 0x0420, 10, 0x0840);
    OneCoefficient(true, 0x0210, 11, 0x0420);
    OneCoefficient(true, 0x8108, 12, 0x0210);
    OneCoefficient(true, 0x4084, 13, 0x8108);
    OneCoefficient(true, 0x2042, 14, 0x4084);
    OneCoefficient(true, 0x1021, 15, 0x2042);
  }

  lemma ModbusPolynomial()
    ensures Word(false, MODBUS_POLY) ==
            [true, false, false, false, false, false, false, false, false, false, false, false,
             false, true, false, true]
  {
    OneCoefficient(false, 0x0001, 0, 0x0000);
    OneCoefficient(false, 0x0002, 1, 0x0001);
    OneCoefficient(false, 0x0005, 2, 0x0002);
    OneCoefficient(false, 0x000A, 3, 0x0005);
    OneCoefficient(false, 0x0014, 4, 0x000A);
    OneCoefficient(false, 0x0028, 5, 0x0014);
    OneCoefficient(false, 0x0050, 6, 0x0028);
    OneCoefficient(false, 0x00A0, 7, 0x0050);
    OneCoefficient(false, 0x0140, 8, 0x00A0);
    OneCoefficient(false, 0x0280, 9, 0x0140);
    OneCoefficient(false, 0x0500, 10, 0x0280);
    OneCoefficient(false, 0x0A00, 11, 0x0500);
    OneCoefficient(false, 0x1400, 12, 0x0A00);
    OneCoefficient(false, 0x2800, 13, 0x1400);
    OneCoefficient(false, 0x5000, 14, 0x2800);
    OneCoefficient(false, 0xA001, 15, 0x5000);
  }

  // ---------- the registers divide ----------

  function Poly16(high: bool): bv16 {
    if high then CCITT_POLY else MODBUS_POLY
  }

  function Top(high: bool): bv16 {
    if high then 0x8000 else 0x0001
  }

  function StepOf(high: bool, x: bv16): bv16 {
    if high then CcittStep(x) else ModbusStep(x)
  }

  function Powers(high: bool): set<nat> {
    if high then CCITT_POWERS else MODBUS_POWERS
  }

  lemma CcittLeads(x: bv16)
    requires Lead(true, x)
    ensures CcittStep(x) == Xor(Shift(true, x), CCITT_POLY)
  {
  }

  lemma ModbusLeads(x: bv16)
    requires Lead(false, x)
    ensures ModbusStep(x) == Xor(Shift(false, x), MODBUS_POLY)
  {
  }

  lemma LeadingSteps(high: bool, x: bv16)
    requires Lead(high, x)
    ensures StepOf(high, x) == Xor(Shift(high, x), Poly16(high))
  {
    hide Lead, Shift, Xor, CcittStep, ModbusStep, CCITT_POLY, MODBUS_POLY;
    if high {
      CcittLeads(x);
    } else {
      ModbusLeads(x);
    }
  }

  lemma OtherSteps(high: bool, x: bv16)
    requires !Lead(high, x)
    ensures StepOf(high, x) == Shift(high, x)
  {
  }

  lemma WordOfPoly(high: bool)
    ensures Word(high, Poly16(high)) == Generator(Powers(high))[1..]
    ensures Generator(Powers(high))[0]
  {
    hide Word, Generator;
    if high {
      CcittPolynomial();
      CcittGenerator();
    } else {
      ModbusPolynomial();
      ModbusGenerator();
    }
  }

  /** A step multiplies by x and subtracts the generator where x^16 comes up. */
  lemma StepDivides(high: bool, x: bv16)
    ensures Word(high, StepOf(high, x)) ==
            Plus(Word(high, x)[1..] + [false], if Lead(high, x) then Generator(Powers(high))[1..] else Zeros(16))
  {
    hide Lead, Shift, Generator, Plus, Coefficients, StepOf, Xor;
    ShiftIsTimesX(high, x);
    if Lead(high, x) {
      LeadingSteps(high, x);
      WordOfPoly(high);
      XorIsPlus(high, Shift(high, x), Poly16(high), 16);
    } else {
      OtherSteps(high, x);
      PlusZeros(Word(high, x)[1..] + [false]);
    }
  }

  lemma PlusZeros(p: Poly)
    ensures Plus(p, Zeros(|p|)) == p
  {
  }

  lemma TopLeads(high: bool)
    ensures Lead(high, Top(high)) && Shift(high, Top(high)) == 0
  {
  }

  lemma {:induction false} NothingIsZeros(high: bool, n: nat)
    ensures Coefficients(high, 0, n) == Zeros(n)
    decreases n
  {
    ZeroDoesNotLead(high);
    ZeroStaysZero(high);
    hide Lead, Shift;
    if n > 0 {
      NothingIsZeros(high, n - 1);
      assert [false] + Zeros(n - 1) == Zeros(n);
    }
  }

  lemma ZeroStaysZero(high: bool)
    ensures Shift(high, 0) == 0
  {
  }

  /** Adding the highest coefficient changes that one only. */
  lemma TopFlips(high: bool, x: bv16)
    ensures Word(high, Xor(x, Top(high)))[1..] == Word(high, x)[1..]
    ensures Lead(high, Xor(x, Top(high))) == !Lead(high, x)
  {
    hide Lead, Shift, Top, Xor, Plus, Coefficients;
    var top := Top(high);
    TopLeads(high);
    LeadOfXor(high, x, top);
    XorIsPlus(high, x, top, 16);
    OneCoefficient(high, top, 15, 0);
    NothingIsZeros(high, 15);
    PlusTail(Word(high, x), [true] + Zeros(15));
  }

  lemma PlusTail(p: Poly, q: Poly)
    requires |p| == |q| == 16 && q[1..] == Zeros(15)
    ensures Plus(p, q)[1..] == p[1..]
  {
    forall i | 0 <= i < 15 ensures Plus(p, q)[1..][i] == p[1..][i] {
      assert q[i + 1] == q[1..][i];
    }
  }

  function Fed(high: bool, x: bv16, bit: bool): bv16 {
    StepOf(high, if bit then Xor(x, Top(high)) else x)
  }

  lemma FeedDivides(high: bool, x: bv16, bit: bool)
    ensures Word(high, Fed(high, x, bit)) == Shifted(Word(high, x), bit, Generator(Powers(high)))
  {
    hide Lead, Shift, Top, Xor, Plus, Coefficients, Generator, StepOf;
    var y := if bit then Xor(x, Top(high)) else x;
    TopFlips(high, x);
    StepDivides(high, y);
    FirstIsLead(high, x);
  }

  lemma FirstIsLead(high: bool, x: bv16)
    ensures Word(high, x)[0] == Lead(high, x)
  {
    hide Lead, Shift;
  }

  function BitsFed(high: bool, bits: Poly, x: bv16): bv16
    decreases |bits|
  {
    if bits == [] then x else BitsFed(high, bits[1..], Fed(high, x, bits[0]))
  }

  /** Fed bit by bit, the register divides. */
  lemma {:induction false} BitsAreDivided(high: bool, bits: Poly, x: bv16)
    ensures Word(high, BitsFed(high, bits, x)) == Remainder(Dividend(bits, Word(high, x)), Generator(Powers(high)))
    decreases |bits|
  {
    hide Word, Generator, Fed, Shifted;
    WordOfPoly(high);
    var c, g := Word(high, x), Generator(Powers(high));
    if bits == [] {
      assert Dividend(bits, c) == c;
    } else {
      hide Dividend;
      FeedReduces(bits, c, g);
      FeedDivides(high, x, bits[0]);
      BitsAreDivided(high, bits[1..], Fed(high, x, bits[0]));
    }
  }

  lemma {:induction false} CcittBitsFed(bits: Poly, x: bv16)
    ensures BitCrc(CCITT_BITS, bits, x) == BitsFed(true, bits, x)
    decreases |bits|
  {
    hide CcittStep, Xor;
    if bits != [] {
      CcittBitsFed(bits[1..], Feed(CCITT_BITS, x, bits[0]));
    }
  }

  lemma {:induction false} ModbusBitsFed(bits: Poly, x: bv16)
    ensures BitCrc(MODBUS_BITS, bits, x) == BitsFed(false, bits, x)
    decreases |bits|
  {
    hide ModbusStep, Xor;
    if bits != [] {
      ModbusBitsFed(bits[1..], Feed(MODBUS_BITS, x, bits[0]));
    }
  }

  // ---------- messages ----------

  /** The first `n` bits of a byte, from the most or from the least significant one. */
  function ByteBits(high: bool, b: bv8, n: nat): Poly
    decreases n
  {
    if n == 0 then []
    else if high then [b & 0x80 != 0] + ByteBits(high, b << 1, n - 1)
    else [b & 0x01 != 0] + ByteBits(high, b >> 1, n - 1)
  }

  function MessageBits(high: bool, data: Data): Poly {
    if data == [] then [] else ByteBits(high, data[0], 8) + MessageBits(high, data[1..])
  }

  lemma {:induction false} CcittByte(b: bv8, n: nat)
    ensures Leading(CCITT_BITS, b, n) == ByteBits(true, b, n)
    decreases n
  {
    if n > 0 {
      CcittByte(b << 1, n - 1);
    }
  }

  lemma {:induction false} ModbusByte(b: bv8, n: nat)
    ensures Leading(MODBUS_BITS, b, n) == ByteBits(false, b, n)
    decreases n
  {
    if n > 0 {
      ModbusByte(b >> 1, n - 1);
    }
  }

  lemma {:induction false} CcittMessage(data: Data)
    ensures Spread(CCITT_BITS, data) == MessageBits(true, data)
  {
    hide Leading, ByteBits;
    if data != [] {
      CcittByte(data[0], 8);
      CcittMessage(data[1..]);
    }
  }

  lemma {:induction false} ModbusMessage(data: Data)
    ensures Spread(MODBUS_BITS, data) == MessageBits(false, data)
  {
    hide Leading, ByteBits;
    if data != [] {
      ModbusByte(data[0], 8);
      ModbusMessage(data[1..]);
    }
  }

  /**
   CRC-16/CCITT-FALSE is the remainder of the message times x^16, with the initial register added at its beginning,
   by x^16 + x^12 + x^5 + 1: it is the only polynomial of degree below 16 that such a division can leave.
   */
  lemma CcittIsRemainder(data: Data, init: bv16, r: Poly)
    ensures var p := Dividend(MessageBits(true, data), Word(true, init));
            (exists q :: Divides(p, Generator({16, 12, 5, 0}), q, r)) <==> r == Word(true, Crc(CCITT, data, init))
  {
    hide Generator, Dividend, Word, Divides;
    var bits := MessageBits(true, data);
    CcittIsOrderly();
    CcittMessage(data);
    CrcIsBits(CCITT_BITS, data, init);
    CcittBitsFed(bits, init);
    BitsAreDivided(true, bits, init);
    WordOfPoly(true);
    RemainderIsUnique(Dividend(bits, Word(true, init)), Generator({16, 12, 5, 0}), r);
  }

  /** CRC-16/MODBUS is the same for x^16 + x^15 + x^2 + 1, with every byte and the register reflected. */
  lemma ModbusIsRemainder(data: Data, init: bv16, r: Poly)
    ensures var p := Dividend(MessageBits(false, data), Word(false, init));
            (exists q :: Divides(p, Generator({16, 15, 2, 0}), q, r)) <==> r == Word(false, Crc(MODBUS, data, init))
  {
    hide Generator, Dividend, Word, Divides;
    var bits := MessageBits(false, data);
    ModbusIsOrderly();
    ModbusMessage(data);
    CrcIsBits(MODBUS_BITS, data, init);
    ModbusBitsFed(bits, init);
    BitsAreDivided(false, bits, init);
    WordOfPoly(false);
    RemainderIsUnique(Dividend(bits, Word(false, init)), Generator({16, 15, 2, 0}), r);
  }
}
