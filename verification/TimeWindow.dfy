/**
  The RAPL time window `2^Y * A_F[F] * unit`: decoding, and the search for the
  best (Y, F) pair. Doubles are exact reals. Everything is proved for any octave
  of four steps g0 < g1 < g2 < g3 < 2*g0; the steps of the code are A_F[F]*unit.
 */
module TimeWindow {
  import opened BitField

  const MAX_Y: nat := 30  // the largest exponent B2POW handles without overflow

  type Multipliers = a: seq<real> |
      |a| == 4 && a[0] == 1.0 && a[0] < a[1] && a[1] < a[2] && a[2] < a[3] && a[3] < 2.0
    witness [1.0, 1.1, 1.2, 1.3]

  /** The table in the code, and the one of the Intel SDM (1 + Z/4). */
  const A_F: Multipliers := [1.0, 1.1, 1.2, 1.3]
  const SDM_F: Multipliers := [1.0, 1.25, 1.5, 1.75]

  /** The four windows with Y = 0. */
  type Octave = g: seq<real> |
      |g| == 4 && 0.0 < g[0] && g[0] < g[1] && g[1] < g[2] && g[2] < g[3] && g[3] < 2.0 * g[0]
    witness [1.0, 1.1, 1.2, 1.3]

  datatype Pair = Pair(y: nat, f: nat)

  predicate Encodable(p: Pair) {
    p.y <= MAX_Y && p.f < 4
  }

  // ----- the C conversions

  /** A number cut to the 32 bits of an int, in two's complement. */
  function Int32(x: int): int {
    (x + 0x8000_0000) % 0x1_0000_0000 - 0x8000_0000
  }

  /** The macro shifts an int: with e = 31 the sign bit is set. */
  function B2Pow(e: nat): int
    requires e <= MAX_Y + 1
  {
    if e == 0 then 1 else Int32(2 * Pow2(e - 1))
  }

  function FromWindow(a: Multipliers, unit: real, p: Pair): real
    requires p.y <= MAX_Y + 1 && p.f < 4
  {
    Product(B2Pow(p.y), a[p.f], unit)
  }

  function Product(b: int, m: real, unit: real): real {
    b as real * m * unit
  }

  /** log2(x), truncated toward zero as the conversion to an integer does. */
  function Log2(x: real): (n: nat)
    requires x > 0.5
    ensures x >= 1.0 ==> Scale(n, 1.0) <= x < Scale(n + 1, 1.0)
    ensures x < 1.0 ==> n == 0
    decreases x.Floor
  {
    if x < 2.0 then 0 else 1 + Log2(x / 2.0)
  }

  function ComputeY(g: Octave, f: nat, time: real): nat
    requires f < 4 && g[f] < 2.0 * time
  {
    RatioAtLeast(time, g[f], 0.5);
    Log2(time / g[f])
  }

  // ----- windows as doublings of a step

  /** x doubled n times */
  function Scale(n: nat, x: real): real {
    if n == 0 then x else 2.0 * Scale(n - 1, x)
  }

  function Window(g: Octave, p: Pair): real
    requires p.f < 4
  {
    Scale(p.y, g[p.f])
  }

  /** What the code decodes a pair to: with Y = 31 the window is negative. */
  function Decoded(g: Octave, p: Pair): real
    requires p.f < 4
  {
    if p.y <= MAX_Y then Window(g, p) else -Window(g, p)
  }

  function Step(m: real, unit: real): real {
    m * unit
  }

  function OctaveOf(a: Multipliers, unit: real): Octave
    requires unit > 0.0
  {
    TimesPositive(a[0], a[1], unit);
    TimesPositive(a[1], a[2], unit);
    TimesPositive(a[2], a[3], unit);
    TimesPositive(a[3], 2.0, unit);
    [Step(a[0], unit), Step(a[1], unit), Step(a[2], unit), Step(a[3], unit)]
  }

  lemma {:induction false} FromWindowIsDecoded(a: Multipliers, unit: real, p: Pair)
    requires unit > 0.0 && p.y <= MAX_Y + 1 && p.f < 4
    ensures FromWindow(a, unit, p) == Decoded(OctaveOf(a, unit), p)
  {
    var m := a[p.f];
    assert OctaveOf(a, unit)[p.f] == Step(m, unit);
    B2PowIsPow2(p.y);
    ProductIsScale(p.y, m, unit);
    ProductOfNegative(Pow2(p.y), m, unit);
  }

  /** The two tables: tenths in the code, quarters in the processor. */
  lemma {:induction false} MultipliersAre(unit: real, p: Pair, b: int, tenths: real, quarters: real)
    requires unit > 0.0 && Encodable(p) && b == Pow2(p.y)
    requires tenths == 1.0 + p.f as real / 10.0 && quarters == 1.0 + p.f as real / 4.0
    ensures FromWindow(A_F, unit, p) == b as real * tenths * unit
    ensures FromWindow(SDM_F, unit, p) == b as real * quarters * unit
  {
    TablesAre(p.f);
    FromWindowIs(A_F, unit, p, tenths, b);
    FromWindowIs(SDM_F, unit, p, quarters, b);
  }

  lemma {:induction false} TablesAre(f: nat)
    requires f < 4
    ensures A_F[f] == 1.0 + f as real / 10.0 && SDM_F[f] == 1.0 + f as real / 4.0
  {
  }

  lemma {:induction false} FromWindowIs(a: Multipliers, unit: real, p: Pair, m: real, b: int)
    requires Encodable(p) && a[p.f] == m && b == Pow2(p.y)
    ensures FromWindow(a, unit, p) == b as real * m * unit
  {
    B2PowIsPow2(p.y);
  }

  lemma {:induction false} B2PowIsPow2(e: nat)
    requires e <= MAX_Y + 1
    ensures B2Pow(e) == if e <= MAX_Y then Pow2(e) else 0 - Pow2(e)
  {
    Pow2Of31();
    assert Pow2(e) == if e == 0 then 1 else 2 * Pow2(e - 1);
    if e <= MAX_Y {
      Pow2Monotone(e, MAX_Y);
      assert Pow2(31) == 2 * Pow2(30);
    }
  }

  lemma {:induction false} ProductOfNegative(b: int, m: real, unit: real)
    ensures Product(-b, m, unit) == -Product(b, m, unit)
  {
    assert (-b) as real * m == -(b as real * m);
  }

  lemma {:induction false} ProductIsScale(n: nat, m: real, unit: real)
    ensures Product(Pow2(n), m, unit) == Scale(n, Step(m, unit))
  {
    ScaleIsProduct(n, m * unit);
    Assoc(Pow2(n) as real, m, unit);
  }

  /** p denotes the largest of all encodable windows not above the request. */
  ghost predicate IsBest(g: Octave, time: real, p: Pair) {
    && Encodable(p)
    && Window(g, p) <= time
    && forall q: Pair | Encodable(q) && Window(g, q) <= time :: Window(g, q) <= Window(g, p)
  }

  /** The requests on which the C conversions are defined. */
  predicate InRange(g: Octave, time: real) {
    g[3] < 2.0 * time && time < Scale(31, g[0])
  }

  /** The normal form of a request: its binary exponent, then the largest step that fits. */
  function BestPair(g: Octave, time: real): (p: Pair)
    requires g[0] <= time
    ensures p.f < 4
  {
    RatioAtLeast(time, g[0], 1.0);
    var y := Log2(time / g[0]);
    Pair(y, if Scale(y, g[3]) <= time then 3
            else if Scale(y, g[2]) <= time then 2
            else if Scale(y, g[1]) <= time then 1
            else 0)
  }

  /** What the two C out-parameters hold after the call, given what they held before. */
  function Converted(g: Octave, time: real, before: Pair): Pair {
    if time < g[0] then before else BestPair(g, time)
  }

  // ----- real arithmetic

  lemma {:induction false} TimesPositive(x: real, y: real, c: real)
    requires 0.0 < c && x < y
    ensures x * c < y * c
  {
  }

  lemma {:induction false} Assoc(x: real, y: real, z: real)
    ensures x * y * z == x * (y * z)
  {
  }

  lemma {:induction false} RatioAtLeast(t: real, g: real, c: real)
    requires 0.0 < g
    ensures t / g >= c <==> t >= c * g
    ensures t / g > c <==> t > c * g
  {
    var x := t / g;
    assert x * g == t;
    if x < c {
      TimesPositive(x, c, g);
    } else if c < x {
      TimesPositive(c, x, g);
    }
  }

  lemma {:induction false} ScaleIsProduct(n: nat, x: real)
    ensures Scale(n, x) == Pow2(n) as real * x
  {
    if n == 0 {
    } else {
      ScaleIsProduct(n - 1, x);
      Assoc(2.0, Pow2(n - 1) as real, x);
    }
  }

  lemma {:induction false} ScaleTimes(n: nat, x: real, c: real)
    ensures Scale(n, x) * c == Scale(n, x * c)
  {
    if n == 0 {
    } else {
      ScaleTimes(n - 1, x, c);
      Assoc(2.0, Scale(n - 1, x), c);
    }
  }

  lemma {:induction false} ScaleOrder(n: nat, x: real, y: real)
    ensures x < y <==> Scale(n, x) < Scale(n, y)
  {
    if n == 0 {
    } else {
      ScaleOrder(n - 1, x, y);
    }
  }

  lemma {:induction false} ScaleGrows(m: nat, n: nat, x: real)
    requires 0.0 < x
    ensures 0.0 < Scale(m, x)
    ensures m <= n ==> Scale(m, x) <= Scale(n, x)
  {
    if m > 0 {
      ScaleGrows(m - 1, if n == 0 then 0 else n - 1, x);
    } else if n > 0 {
      ScaleGrows(0, n - 1, x);
    }
  }

  lemma {:induction false} ScaleDouble(n: nat, x: real)
    ensures Scale(n, 2.0 * x) == Scale(n + 1, x)
  {
    if n == 0 {
    } else {
      ScaleDouble(n - 1, x);
    }
  }

  lemma {:induction false} Log2Ratio(time: real, g: real, y: nat)
    requires 0.0 < g && time / g >= 1.0 && y == Log2(time / g)
    ensures Scale(y, g) <= time < Scale(y + 1, g)
  {
    var x := time / g;
    assert x * g == time;
    ScaleBounds(y, x, g);
  }

  lemma {:induction false} ScaleBounds(y: nat, x: real, g: real)
    requires 0.0 < g && Scale(y, 1.0) <= x < Scale(y + 1, 1.0)
    ensures Scale(y, g) <= x * g < Scale(y + 1, g)
  {
    ScaleTimes(y, 1.0, g);
    ScaleTimes(y + 1, 1.0, g);
    assert 1.0 * g == g;
    TimesPositive(x, Scale(y + 1, 1.0), g);
    if Scale(y, 1.0) < x {
      TimesPositive(Scale(y, 1.0), x, g);
    }
  }

  /** Scale(y, g) is the largest doubling of g not above the request. */
  lemma {:induction false} ExponentIsLargest(g: real, time: real, y: nat, y': nat)
    requires 0.0 < g && time < Scale(y + 1, g) && Scale(y', g) <= time
    ensures y' <= y
  {
    if y' > y {
      ScaleGrows(y + 1, y', g);
    }
  }

  // ----- encodings are unique and ordered

  lemma {:induction false} WindowOrder(g: Octave, p: Pair, q: Pair)
    requires p.f < 4 && q.f < 4
    requires p.y < q.y || (p.y == q.y && p.f < q.f)
    ensures Window(g, p) < Window(g, q)
  {
    ScaleOrder(p.y, g[p.f], g[q.f]);
    if p.y < q.y {
      ScaleOrder(p.y, g[p.f], 2.0 * g[0]);
      ScaleDouble(p.y, g[0]);
      ScaleGrows(p.y + 1, q.y, g[0]);
      ScaleOrder(q.y, g[q.f], g[0]);
    }
  }

  /** No window has two encodings. */
  lemma {:induction false} UniqueEncoding(g: Octave, p: Pair, q: Pair)
    requires p.f < 4 && q.f < 4 && Window(g, p) == Window(g, q)
    ensures p == q
  {
    if p.y < q.y || (p.y == q.y && p.f < q.f) {
      WindowOrder(g, p, q);
    } else if p != q {
      WindowOrder(g, q, p);
    }
  }

  lemma {:induction false} BestIsUnique(g: Octave, time: real, p: Pair, q: Pair)
    requires IsBest(g, time, p) && IsBest(g, time, q)
    ensures p == q
  {
    UniqueEncoding(g, p, q);
  }

  /** The pair after p in the order of windows. */
  function Next(p: Pair): Pair {
    if p.f < 3 then Pair(p.y, p.f + 1) else Pair(p.y + 1, 0)
  }

  /** The normal form brackets the request between two neighbours. */
  lemma {:induction false} BestPairBrackets(g: Octave, time: real)
    requires g[0] <= time < Scale(31, g[0])
    ensures var p := BestPair(g, time);
            p.y <= MAX_Y && Window(g, p) <= time < Window(g, Next(p))
  {
    var p := BestPair(g, time);
    RatioAtLeast(time, g[0], 1.0);
    Log2Ratio(time, g[0], p.y);
    ExponentIsLargest(g[0], time, p.y, p.y);
    if p.y > MAX_Y {
      ScaleGrows(31, p.y, g[0]);
    }
  }

  /** Optimality over all encodable pairs, and uniqueness of the optimum. */
  lemma {:induction false} BestPairIsBest(g: Octave, time: real)
    requires g[0] <= time < Scale(31, g[0])
    ensures IsBest(g, time, BestPair(g, time))
  {
    var p := BestPair(g, time);
    BestPairBrackets(g, time);
    forall q: Pair | Encodable(q) && Window(g, q) <= time
      ensures Window(g, q) <= Window(g, p)
    {
      var next := Next(p);
      if q.y > p.y || (q.y == p.y && q.f > p.f) {
        if q != next {
          WindowOrder(g, next, q);
        }
      } else if q != p {
        WindowOrder(g, q, p);
      }
    }
  }

  /** Decoding then encoding gives the pair back. */
  lemma {:induction false} RoundTrip(g: Octave, p: Pair, before: Pair)
    requires Encodable(p)
    ensures InRange(g, Window(g, p))
    ensures Converted(g, Window(g, p), before) == p
  {
    var t := Window(g, p);
    ScaleGrows(0, p.y, g[p.f]);
    ScaleOrder(p.y, g[p.f], 2.0 * g[0]);
    ScaleDouble(p.y, g[0]);
    ScaleGrows(p.y + 1, 31, g[0]);
    BestPairIsBest(g, t);
    UniqueEncoding(g, BestPair(g, t), p);
  }

  /** Encoding is defined on a decoded window exactly when its Y did not overflow. */
  lemma {:induction false} DecodedInRangeIff(g: Octave, p: Pair)
    requires p.y <= MAX_Y + 1 && p.f < 4
    ensures InRange(g, Decoded(g, p)) <==> Encodable(p)
  {
    ScaleGrows(0, p.y, g[p.f]);
    if p.y <= MAX_Y {
      RoundTrip(g, p, p);
    }
  }

  // ----- the search loop of the source

  /** The candidate the loop tries for multiplier f. */
  function Candidate(g: Octave, f: nat, time: real): Pair
    requires f < 4 && InRange(g, time)
  {
    Pair(ComputeY(g, f, time), f)
  }

  lemma {:induction false} CandidateIsLargest(g: Octave, f: nat, time: real)
    requires f < 4 && InRange(g, time)
    ensures Candidate(g, f, time).y <= MAX_Y
    ensures Window(g, Candidate(g, f, time)) <= time <==> g[f] <= time
    ensures forall q: Pair | q.f == f && Window(g, q) <= time ::
              Window(g, q) <= Window(g, Candidate(g, f, time)) <= time
  {
    var y := Candidate(g, f, time).y;
    RatioAtLeast(time, g[f], 1.0);
    ScaleOrder(31, g[0], g[f]);
    if g[f] <= time {
      Log2Ratio(time, g[f], y);
      ScaleGrows(31, y, g[f]);
    }
    forall q: Pair | q.f == f && Window(g, q) <= time
      ensures Window(g, q) <= Window(g, Candidate(g, f, time)) <= time
    {
      ScaleGrows(0, q.y, g[f]);
      ExponentIsLargest(g[f], time, y, q.y);
      ScaleGrows(q.y, y, g[f]);
    }
  }

  lemma {:induction false} CandidatesSuffice(g: Octave, time: real, p: Pair)
    requires InRange(g, time) && g[0] <= time
    requires p.f < 4 && p == Candidate(g, p.f, time) && Window(g, p) <= time
    requires forall f: nat | f < 4 && g[f] <= time ::
               Window(g, Candidate(g, f, time)) <= Window(g, p)
    ensures p == BestPair(g, time)
  {
    CandidateIsLargest(g, p.f, time);
    forall q: Pair | Encodable(q) && Window(g, q) <= time
      ensures Window(g, q) <= Window(g, p)
    {
      CandidateIsLargest(g, q.f, time);
    }
    BestPairIsBest(g, time);
    BestIsUnique(g, time, p, BestPair(g, time));
  }

  method ConvertToLimitTimeWindow(g: Octave, time: real, before: Pair) returns (p: Pair)
    requires g[0] <= 1.0  // RAPL_TIME_UNIT is 1/2^k
    requires InRange(g, time)
    ensures p == Converted(g, time, before)
  {
    p := before;
    var delta := 2147483648.0;
    ghost var found := false;
    for currentF := 0 to 4
      invariant found <==> exists f: nat :: f < currentF && g[f] <= time
      invariant !found ==> p == before && delta == 2147483648.0
      invariant found ==> p.f < currentF && p == Candidate(g, p.f, time)
                          && Window(g, p) <= time && delta == time - Window(g, p)
      invariant found ==> forall f: nat | f < currentF && g[f] <= time ::
                    Window(g, Candidate(g, f, time)) <= Window(g, p)
    {
      CandidateIsLargest(g, currentF, time);
      var currentY := ComputeY(g, currentF, time);
      var current := Pair(currentY, currentF);
      var currentTime := Decoded(g, current);
      var currentDelta := time - currentTime;
      assert currentTime == Window(g, Candidate(g, currentF, time));
      DeltaFits(g, time, current);
      if currentDelta >= 0.0 && currentDelta < delta {
        delta := currentDelta;
        p := current;
        found := true;
      }
    }
    if g[0] <= time {
      CandidatesSuffice(g, time, p);
    }
  }

  /** The initial delta, 2^31 seconds, is above every gap that can occur. */
  lemma {:induction false} DeltaFits(g: Octave, time: real, p: Pair)
    requires InRange(g, time) && p.f < 4 && g[0] <= 1.0
    ensures time - Window(g, p) < 2147483648.0
  {
    ScaleGrows(p.y, 0, g[p.f]);
    ScaleOrder(31, 1.0, g[0]);
    ScaleIsProduct(31, 1.0);
    Pow2Of31();
  }

  lemma {:induction false} Pow2Of31()
    ensures Pow2(31) == 2147483648
  {
    assert Pow2(10) == 1024 && Pow2(20) == 1048576;
  }

  // ----- how good the best window of the code's table is

  /** It is more than 13/20 of the request ... */
  lemma {:induction false} WindowRatio(unit: real, time: real)
    requires 0.0 < unit <= time < Scale(31, unit)
    ensures var g := OctaveOf(A_F, unit);
            13.0 * time < 20.0 * Window(g, BestPair(g, time)) <= 20.0 * time
  {
    var g := OctaveOf(A_F, unit);
    var p := BestPair(g, time);
    BestPairBrackets(g, time);
    var below, above := g[p.f], if p.f < 3 then g[p.f + 1] else 2.0 * g[0];
    ScaleDouble(p.y, g[0]);
    ScaleTimes(p.y, below, 20.0);
    ScaleTimes(p.y, above, 13.0);
    ScaleOrder(p.y, below * 20.0, above * 13.0);
  }

  /** ... and no larger ratio holds for every request. */
  lemma {:induction false} WindowRatioIsTight(unit: real, c: real) returns (time: real)
    requires 0.0 < unit && 13.0 / 20.0 < c <= 1.0
    ensures unit <= time < 2.0 * unit
    ensures var g := OctaveOf(A_F, unit); Window(g, BestPair(g, time)) < c * time
  {
    time := HardRequest(unit, c);
    var g := OctaveOf(A_F, unit);
    assert g[3] == 1.3 * unit && g[0] == unit;
    TightCase(g, time);
  }

  lemma {:induction false} HardRequest(unit: real, c: real) returns (time: real)
    requires 0.0 < unit && 13.0 / 20.0 < c <= 1.0
    ensures 1.3 * unit <= time < 2.0 * unit
    ensures 1.3 * unit < c * time
  {
    var x := 0.65 / c;
    assert x * c == 0.65;
    RatioAtLeast(0.65, c, 0.65);
    RatioAtLeast(0.65, c, 1.0);
    time := (x + 1.0) * unit;
    var over := c - 0.65;
    assert c * (x + 1.0) == 1.3 + over;
    assert c * time == 1.3 * unit + over * unit;
    assert time == x * unit + unit;
    TimesPositive(x, 1.0, unit);
    if 0.65 < x {
      TimesPositive(0.65, x, unit);
    }
  }

  lemma {:induction false} TightCase(g: Octave, time: real)
    requires g[3] <= time < 2.0 * g[0]
    ensures g[0] <= time && Window(g, BestPair(g, time)) == g[3]
  {
    ScaleGrows(1, 31, g[0]);
    BestPairIsBest(g, time);
    forall q: Pair | Encodable(q) && Window(g, q) <= time ensures Window(g, q) <= g[3] {
      if q.y > 0 {
        ScaleGrows(1, q.y, g[q.f]);
      }
    }
    assert IsBest(g, time, Pair(0, 3));
    BestIsUnique(g, time, Pair(0, 3), BestPair(g, time));
  }

  /**
    The processor reads the two fields with the multipliers 1 + Z/4 of section
    14.9.3 of the Intel SDM, Volume 3B. The window it applies is longer than the
    request exactly when the request lies in [1.1, 1.75) of its octave y.
   */
  lemma {:induction false} HardwareWindow(unit: real, time: real, y: nat)
    requires 0.0 < unit && y <= MAX_Y && Scale(y, unit) <= time < Scale(y + 1, unit)
    ensures unit <= time
    ensures time < Window(OctaveOf(SDM_F, unit), BestPair(OctaveOf(A_F, unit), time)) <==>
            Scale(y, 1.1 * unit) <= time < Scale(y, 1.75 * unit)
  {
    var g := OctaveOf(A_F, unit);
    ScaleGrows(0, y, unit);
    ScaleGrows(y + 1, 31, unit);
    var p := BestPair(g, time);
    BestPairBrackets(g, time);
    ExponentOf(g, time, y);
    ScaleDouble(y, unit);
    ScaleOrder(y, g[1], g[2]);
    ScaleOrder(y, g[2], g[3]);
    ScaleOrder(y, 1.2 * unit, 1.25 * unit);
    ScaleOrder(y, 1.3 * unit, 1.5 * unit);
    ScaleOrder(y, 1.5 * unit, 1.75 * unit);
    ScaleOrder(y, 1.3 * unit, 1.75 * unit);
  }

  /** The exponent chosen is that of the octave of the request. */
  lemma {:induction false} ExponentOf(g: Octave, time: real, y: nat)
    requires Scale(y, g[0]) <= time < Scale(y + 1, g[0]) && g[0] <= time < Scale(31, g[0])
    ensures BestPair(g, time).y == y
  {
    var p := BestPair(g, time);
    BestPairBrackets(g, time);
    RatioAtLeast(time, g[0], 1.0);
    Log2Ratio(time, g[0], p.y);
    ExponentIsLargest(g[0], time, y, p.y);
    ExponentIsLargest(g[0], time, p.y, y);
  }

  /** A request of 1.5 time units: the code writes 1.3 units, the processor reads 1.75. */
  lemma {:induction false} HardwareWindowExample(unit: real)
    requires 0.0 < unit
    ensures Window(OctaveOf(SDM_F, unit), BestPair(OctaveOf(A_F, unit), 1.5 * unit)) > 1.5 * unit
  {
    HardwareWindow(unit, 1.5 * unit, 0);
  }
}
