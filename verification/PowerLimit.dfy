/**
  The RAPL power-limit registers: 64-bit words read and written by
  read-modify-write on bit-fields. A limit occupies 24 bits from `base`; the
  package register holds two of them and a lock bit, the registers of the other
  domains one of them and a lock bit.
 */
module PowerLimit {
  import opened BitField
  import opened TimeWindow

  /** Conversion factors: the power unit, and the four windows with Y = 0. */
  datatype Units = Units(power: real, steps: Octave) {
    ghost predicate Valid() {
      0.0 < power && steps[0] <= 1.0
    }
  }

  datatype Limit = Limit(watts: real, seconds: real, enabled: nat, clamp: nat)
  datatype PkgLimits = PkgLimits(limit1: Limit, limit2: Limit, lock: nat)
  datatype DomainLimit = DomainLimit(limit: Limit, lock: nat)

  const PKG_BASE_2: nat := 32
  const PKG_LOCK: nat := 63
  const DOMAIN_LOCK: nat := 31

  /** The quotients that convert to a 64-bit unsigned integer, truncated toward zero. */
  predicate Storable(u: Units, watts: real) {
    -u.power < watts < ToWatts(u, 0x1_0000_0000_0000_0000)
  }

  /** The requests the C conversions to unsigned integers are defined on. */
  ghost predicate Settable(l: Limit, u: Units) {
    Storable(u, l.watts) && InRange(u.steps, l.seconds)
  }

  function ToWatts(u: Units, raw: nat): real {
    u.power * raw as real
  }

  function FromWatts(u: Units, watts: real): (raw: nat)
    requires u.Valid() && Storable(u, watts)
    ensures 0.0 <= watts ==> ToWatts(u, raw) <= watts < ToWatts(u, raw + 1)
    ensures watts < 0.0 ==> raw == 0
  {
    if watts < 0.0 then 0 else Whole(watts, u.power)
  }

  /** How often d fits into x. */
  function Whole(x: real, d: real): (n: nat)
    requires 0.0 <= x && 0.0 < d
    ensures d * n as real <= x < d * (n + 1) as real
  {
    FloorOfRatio(x, d);
    (x / d).Floor
  }

  /** The two window fields of the limit at `base`. */
  function WindowFields(r: nat, base: nat): Pair {
    Pair(Extract(r, base + 17, 5), Extract(r, base + 22, 2))
  }

  function GetLimit(r: nat, base: nat, u: Units): Limit {
    assert WindowFields(r, base).f < Pow2(2) == 4;
    Limit(ToWatts(u, Extract(r, base, 15)), Decoded(u.steps, WindowFields(r, base)),
          Extract(r, base + 15, 1), Extract(r, base + 16, 1))
  }

  /** What is assigned to the five fields of a limit. */
  datatype Fields = Fields(power: nat, enabled: nat, clamp: nat, window: Pair)

  function FieldsOf(l: Limit, p: Pair, u: Units): Fields
    requires u.Valid() && Storable(u, l.watts)
  {
    Fields(FromWatts(u, l.watts), l.enabled, l.clamp, p)
  }

  function SetLimit(r: nat, base: nat, f: Fields): nat {
    var r1 := Insert(r, base, 15, f.power);
    var r2 := Insert(r1, base + 15, 1, f.enabled);
    var r3 := Insert(r2, base + 16, 1, f.clamp);
    var r4 := Insert(r3, base + 17, 5, f.window.y);
    Insert(r4, base + 22, 2, f.window.f)
  }

  function GetPkg(r: nat, u: Units): PkgLimits {
    PkgLimits(GetLimit(r, 0, u), GetLimit(r, PKG_BASE_2, u), Extract(r, PKG_LOCK, 1))
  }

  /**
    The written register. `before` is what the uninitialised y and f hold; the
    second conversion starts from what the first one left in them.
   */
  function SetPkg(r: nat, o: PkgLimits, u: Units, before: Pair): nat
    requires u.Valid() && Settable(o.limit1, u) && Settable(o.limit2, u)
  {
    var p1 := Converted(u.steps, o.limit1.seconds, before);
    var p2 := Converted(u.steps, o.limit2.seconds, p1);
    SetWord(r, FieldsOf(o.limit1, p1, u), FieldsOf(o.limit2, p2, u), o.lock)
  }

  function SetWord(r: nat, f1: Fields, f2: Fields, lock: nat): nat {
    Insert(SetLimit(SetLimit(r, 0, f1), PKG_BASE_2, f2), PKG_LOCK, 1, lock)
  }

  function GetDomain(r: nat, u: Units): DomainLimit {
    DomainLimit(GetLimit(r, 0, u), Extract(r, DOMAIN_LOCK, 1))
  }

  function SetDomain(r: nat, o: DomainLimit, u: Units, before: Pair): nat
    requires u.Valid() && Settable(o.limit, u)
  {
    SetDomainWord(r, FieldsOf(o.limit, Converted(u.steps, o.limit.seconds, before), u), o.lock)
  }

  function SetDomainWord(r: nat, f: Fields, lock: nat): nat {
    Insert(SetLimit(r, 0, f), DOMAIN_LOCK, 1, lock)
  }

  // ----- watts

  lemma {:induction false} FloorOfRatio(x: real, d: real)
    requires 0.0 <= x && 0.0 < d
    ensures var n := (x / d).Floor; 0 <= n && d * n as real <= x < d * (n + 1) as real
  {
    RatioAtLeast(x, d, 0.0);
    var q := x / d;
    var n := q.Floor as real;
    assert n <= q < n + 1.0;
    RatioAtLeast(x, d, n);
    RatioAtLeast(x, d, n + 1.0);
  }

  lemma {:induction false} WattsOrder(u: Units, m: nat, n: nat)
    requires u.Valid()
    ensures m < n <==> ToWatts(u, m) < ToWatts(u, n)
  {
    if m < n {
      TimesPositive(m as real, n as real, u.power);
    } else if n < m {
      TimesPositive(n as real, m as real, u.power);
    }
  }

  lemma {:induction false} WattsRoundTrip(u: Units, raw: nat)
    requires u.Valid() && raw < 0x1_0000_0000_0000_0000
    ensures Storable(u, ToWatts(u, raw)) && FromWatts(u, ToWatts(u, raw)) == raw
  {
    WattsOrder(u, 0, raw);
    WattsOrder(u, raw, 0x1_0000_0000_0000_0000);
    assert ToWatts(u, 0) == 0.0;
    var n := FromWatts(u, ToWatts(u, raw));
    WattsOrder(u, raw, n);
    WattsOrder(u, raw, n + 1);
  }

  lemma {:induction false} NextWatts(u: Units, raw: nat)
    ensures ToWatts(u, raw + 1) == ToWatts(u, raw) + u.power
  {
  }

  /** The stored power is the request rounded down exactly when it is not negative and fits the 15-bit field. */
  lemma {:induction false} StoredWatts(u: Units, watts: real)
    requires u.Valid() && Storable(u, watts)
    ensures var raw := Low(FromWatts(u, watts), 15);
            ToWatts(u, raw) <= watts < ToWatts(u, raw) + u.power <==> 0.0 <= watts < ToWatts(u, 32768)
  {
    StoredBetween(u, watts, FromWatts(u, watts), Low(FromWatts(u, watts), 15));
  }

  lemma {:induction false} StoredBetween(u: Units, watts: real, n: nat, raw: nat)
    requires u.Valid() && raw == Low(n, 15)
    requires if watts < 0.0 then n == 0 else ToWatts(u, n) <= watts < ToWatts(u, n + 1)
    ensures ToWatts(u, raw) <= watts < ToWatts(u, raw) + u.power <==> 0.0 <= watts < ToWatts(u, 32768)
  {
    NotAbove(u, 0, 32768);
    NotAbove(u, 0, raw);
    LowOf15(n);
    if n < 32768 {
      NotAbove(u, n + 1, 32768);
    } else {
      NotAbove(u, 32768, n);
      NotAbove(u, raw + 1, n);
    }
    NextWatts(u, raw);
  }

  lemma {:induction false} LowOf15(n: nat)
    ensures Low(n, 15) < 32768 && (n < 32768 ==> Low(n, 15) == n)
  {
    assert Pow2(15) == 32768;
    if n < 32768 {
      LowOfSmall(n, 15);
    }
  }

  lemma {:induction false} NotAbove(u: Units, m: nat, n: nat)
    requires u.Valid() && m <= n
    ensures ToWatts(u, m) <= ToWatts(u, n)
    ensures ToWatts(u, 0) == 0.0
  {
    WattsOrder(u, m, n);
  }

  /** A power can be converted exactly when its quotient lies between -1 and 2^64. */
  lemma {:induction false} StorableIff(u: Units, watts: real, quotient: real)
    requires u.Valid() && watts == quotient * u.power
    ensures Storable(u, watts) <==> -1.0 < quotient < 18446744073709551616.0
  {
    StorableBetween(u, watts, quotient, -1.0, 18446744073709551616.0);
  }

  lemma {:induction false} StorableBetween(u: Units, watts: real, quotient: real, low: real, top: real)
    requires u.Valid() && watts == quotient * u.power && low == -1.0 && top == 18446744073709551616.0
    ensures Storable(u, watts) <==> low < quotient < top
  {
    assert low * u.power == -u.power;
    assert ToWatts(u, 0x1_0000_0000_0000_0000) == top * u.power;
    TimesOrder(low, quotient, u.power);
    TimesOrder(quotient, top, u.power);
  }

  lemma {:induction false} TimesOrder(x: real, y: real, c: real)
    requires 0.0 < c
    ensures x < y <==> x * c < y * c
  {
    if x < y {
      TimesPositive(x, y, c);
    } else if y < x {
      TimesPositive(y, x, c);
    }
  }

  // ----- one limit

  /** Reading a limit just written. */
  ghost predicate Reads(s: nat, base: nat, f: Fields) {
    && Extract(s, base, 15) == Low(f.power, 15)
    && Extract(s, base + 15, 1) == Low(f.enabled, 1)
    && Extract(s, base + 16, 1) == Low(f.clamp, 1)
    && WindowFields(s, base) == Pair(Low(f.window.y, 5), Low(f.window.f, 2))
  }

  lemma {:induction false} SetLimitReads(r: nat, base: nat, f: Fields)
    ensures Reads(SetLimit(r, base, f), base, f)
  {
    var r1 := Insert(r, base, 15, f.power);
    var r2 := Insert(r1, base + 15, 1, f.enabled);
    var r3 := Insert(r2, base + 16, 1, f.clamp);
    var r4 := Insert(r3, base + 17, 5, f.window.y);
    InsertSame(r, base, 15, f.power);
    InsertOther(r1, base + 15, 1, f.enabled, base, 15);
    InsertOther(r2, base + 16, 1, f.clamp, base, 15);
    InsertOther(r3, base + 17, 5, f.window.y, base, 15);
    InsertOther(r4, base + 22, 2, f.window.f, base, 15);
    InsertSame(r1, base + 15, 1, f.enabled);
    InsertOther(r2, base + 16, 1, f.clamp, base + 15, 1);
    InsertOther(r3, base + 17, 5, f.window.y, base + 15, 1);
    InsertOther(r4, base + 22, 2, f.window.f, base + 15, 1);
    InsertSame(r2, base + 16, 1, f.clamp);
    InsertOther(r3, base + 17, 5, f.window.y, base + 16, 1);
    InsertOther(r4, base + 22, 2, f.window.f, base + 16, 1);
    InsertSame(r3, base + 17, 5, f.window.y);
    InsertOther(r4, base + 22, 2, f.window.f, base + 17, 5);
    InsertSame(r4, base + 22, 2, f.window.f);
  }

  /** Bits outside the 24 of the limit are not touched. */
  lemma {:induction false} SetLimitFrame(r: nat, base: nat, f: Fields, lo: nat, w: nat)
    requires lo + w <= base || base + 24 <= lo
    ensures Extract(SetLimit(r, base, f), lo, w) == Extract(r, lo, w)
  {
    var r1 := Insert(r, base, 15, f.power);
    var r2 := Insert(r1, base + 15, 1, f.enabled);
    var r3 := Insert(r2, base + 16, 1, f.clamp);
    var r4 := Insert(r3, base + 17, 5, f.window.y);
    InsertOther(r, base, 15, f.power, lo, w);
    InsertOther(r1, base + 15, 1, f.enabled, lo, w);
    InsertOther(r2, base + 16, 1, f.clamp, lo, w);
    InsertOther(r3, base + 17, 5, f.window.y, lo, w);
    InsertOther(r4, base + 22, 2, f.window.f, lo, w);
  }

  lemma {:induction false} SetLimitFits(r: nat, base: nat, f: Fields, total: nat)
    requires base + 24 <= total && r < Pow2(total)
    ensures SetLimit(r, base, f) < Pow2(total)
  {
    var r1 := Insert(r, base, 15, f.power);
    var r2 := Insert(r1, base + 15, 1, f.enabled);
    var r3 := Insert(r2, base + 16, 1, f.clamp);
    var r4 := Insert(r3, base + 17, 5, f.window.y);
    InsertFits(r, base, 15, f.power, total);
    InsertFits(r1, base + 15, 1, f.enabled, total);
    InsertFits(r2, base + 16, 1, f.clamp, total);
    InsertFits(r3, base + 17, 5, f.window.y, total);
    InsertFits(r4, base + 22, 2, f.window.f, total);
  }

  /** Writing one limit leaves the fields of another one below it, and so does the lock bit above. */
  lemma {:induction false} ReadsBelow(r: nat, base: nat, f: Fields, at: nat, g: Fields, lock: nat)
    requires base + 24 <= at && Reads(r, base, f)
    ensures Reads(SetLimit(r, at, g), base, f)
    ensures Reads(Insert(r, at, 1, lock), base, f)
  {
    SetLimitFrame(r, at, g, base, 15);
    SetLimitFrame(r, at, g, base + 15, 1);
    SetLimitFrame(r, at, g, base + 16, 1);
    SetLimitFrame(r, at, g, base + 17, 5);
    SetLimitFrame(r, at, g, base + 22, 2);
    InsertOther(r, at, 1, lock, base, 15);
    InsertOther(r, at, 1, lock, base + 15, 1);
    InsertOther(r, at, 1, lock, base + 16, 1);
    InsertOther(r, at, 1, lock, base + 17, 5);
    InsertOther(r, at, 1, lock, base + 22, 2);
  }

  /** A limit read from a register converts back to the same five fields. */
  lemma {:induction false} LimitRoundTrip(r: nat, base: nat, u: Units, before: Pair)
    requires u.Valid() && WindowFields(r, base).y <= MAX_Y
    ensures var l := GetLimit(r, base, u);
            && Settable(l, u)
            && FromWatts(u, l.watts) == Extract(r, base, 15)
            && Converted(u.steps, l.seconds, before) == WindowFields(r, base)
            && SetLimit(r, base, FieldsOf(l, WindowFields(r, base), u)) == r
  {
    assert WindowFields(r, base).f < Pow2(2) == 4;
    assert Extract(r, base, 15) < Pow2(15) == 32768;
    WattsRoundTrip(u, Extract(r, base, 15));
    RoundTrip(u.steps, WindowFields(r, base), before);
    InsertExtract(r, base, 15);
    InsertExtract(r, base + 15, 1);
    InsertExtract(r, base + 16, 1);
    InsertExtract(r, base + 17, 5);
    InsertExtract(r, base + 22, 2);
  }

  // ----- the package register

  /** A limit that was read can be set exactly when its Y field did not overflow. */
  lemma {:induction false} ReadIsSettableIff(r: nat, base: nat, u: Units)
    requires u.Valid()
    ensures Settable(GetLimit(r, base, u), u) <==> WindowFields(r, base).y <= MAX_Y
  {
    var p, raw := WindowFields(r, base), Extract(r, base, 15);
    assert Pow2(5) == 32 && p.f < Pow2(2) == 4;
    DecodedInRangeIff(u.steps, p);
    assert raw < Pow2(15) == 32768;
    WattsRoundTrip(u, raw);
  }

  /**
    Writing back what was read changes no bit, reserved bits included. It is
    defined exactly when both Y fields are at most 30.
   */
  lemma {:induction false} PkgWriteBackIsIdentity(r: nat, u: Units, before: Pair)
    requires u.Valid()
    ensures Settable(GetPkg(r, u).limit1, u) && Settable(GetPkg(r, u).limit2, u) <==>
            WindowFields(r, 0).y <= MAX_Y && WindowFields(r, PKG_BASE_2).y <= MAX_Y
    ensures Settable(GetPkg(r, u).limit1, u) && Settable(GetPkg(r, u).limit2, u) ==>
              SetPkg(r, GetPkg(r, u), u, before) == r
  {
    ReadIsSettableIff(r, 0, u);
    ReadIsSettableIff(r, PKG_BASE_2, u);
    if WindowFields(r, 0).y <= MAX_Y && WindowFields(r, PKG_BASE_2).y <= MAX_Y {
      LimitRoundTrip(r, 0, u, before);
      LimitRoundTrip(r, PKG_BASE_2, u, WindowFields(r, 0));
      InsertExtract(r, PKG_LOCK, 1);
    }
  }

  /** The bits of the package register the code assigns. */
  predicate PkgField(k: nat) {
    k < 24 || PKG_BASE_2 <= k < PKG_BASE_2 + 24 || k == PKG_LOCK
  }

  lemma {:induction false} WordReservedBits(r: nat, f1: Fields, f2: Fields, lock: nat)
    ensures r < Pow2(64) ==> SetWord(r, f1, f2, lock) < Pow2(64)
    ensures forall k: nat | !PkgField(k) :: Extract(SetWord(r, f1, f2, lock), k, 1) == Extract(r, k, 1)
  {
    var r1 := SetLimit(r, 0, f1);
    var r2 := SetLimit(r1, PKG_BASE_2, f2);
    if r < Pow2(64) {
      SetLimitFits(r, 0, f1, 64);
      SetLimitFits(r1, PKG_BASE_2, f2, 64);
      InsertFits(r2, PKG_LOCK, 1, lock, 64);
    }
    forall k: nat | !PkgField(k) ensures Extract(SetWord(r, f1, f2, lock), k, 1) == Extract(r, k, 1) {
      SetLimitFrame(r, 0, f1, k, 1);
      SetLimitFrame(r1, PKG_BASE_2, f2, k, 1);
      InsertOther(r2, PKG_LOCK, 1, lock, k, 1);
    }
  }

  lemma {:induction false} WordReads(r: nat, f1: Fields, f2: Fields, lock: nat)
    ensures var s := SetWord(r, f1, f2, lock);
            Reads(s, 0, f1) && Reads(s, PKG_BASE_2, f2) && Extract(s, PKG_LOCK, 1) == Low(lock, 1)
  {
    var r1 := SetLimit(r, 0, f1);
    var r2 := SetLimit(r1, PKG_BASE_2, f2);
    SetLimitReads(r, 0, f1);
    SetLimitReads(r1, PKG_BASE_2, f2);
    ReadsBelow(r1, 0, f1, PKG_BASE_2, f2, lock);
    ReadsBelow(r2, 0, f1, PKG_LOCK, f2, lock);
    ReadsBelow(r2, PKG_BASE_2, f2, PKG_LOCK, f2, lock);
    InsertSame(r2, PKG_LOCK, 1, lock);
  }

  /** Whatever is written, a 64-bit word stays one and its reserved bits stay. */
  lemma {:induction false} PkgReservedBits(r: nat, o: PkgLimits, u: Units, before: Pair)
    requires u.Valid() && Settable(o.limit1, u) && Settable(o.limit2, u)
    requires r < Pow2(64)
    ensures SetPkg(r, o, u, before) < Pow2(64)
    ensures forall k: nat | !PkgField(k) ::
              Extract(SetPkg(r, o, u, before), k, 1) == Extract(r, k, 1)
  {
    var p1 := Converted(u.steps, o.limit1.seconds, before);
    var p2 := Converted(u.steps, o.limit2.seconds, p1);
    WordReservedBits(r, FieldsOf(o.limit1, p1, u), FieldsOf(o.limit2, p2, u), o.lock);
  }

  /** The fields of the register after a write, field by field. */
  lemma {:induction false} PkgSetReads(r: nat, o: PkgLimits, u: Units, before: Pair)
    requires u.Valid() && Settable(o.limit1, u) && Settable(o.limit2, u)
    ensures var s := SetPkg(r, o, u, before);
            var p1 := Converted(u.steps, o.limit1.seconds, before);
            var p2 := Converted(u.steps, o.limit2.seconds, p1);
            && Reads(s, 0, FieldsOf(o.limit1, p1, u))
            && Reads(s, PKG_BASE_2, FieldsOf(o.limit2, p2, u))
            && Extract(s, PKG_LOCK, 1) == Low(o.lock, 1)
  {
    var p1 := Converted(u.steps, o.limit1.seconds, before);
    var p2 := Converted(u.steps, o.limit2.seconds, p1);
    WordReads(r, FieldsOf(o.limit1, p1, u), FieldsOf(o.limit2, p2, u), o.lock);
  }

  /** Set, then get: what of a limit survives. */
  ghost predicate Approximates(got: Limit, asked: Limit, u: Units)
    requires u.Valid() && Settable(asked, u)
  {
    && got.enabled == asked.enabled % 2 && got.clamp == asked.clamp % 2
    && (got.watts <= asked.watts < got.watts + u.power <==> 0.0 <= asked.watts < ToWatts(u, 32768))
    && (u.steps[0] <= asked.seconds ==>
          got.seconds == Window(u.steps, BestPair(u.steps, asked.seconds)) <= asked.seconds)
  }

  ghost predicate Survives(got: PkgLimits, asked: PkgLimits, u: Units)
    requires u.Valid() && Settable(asked.limit1, u) && Settable(asked.limit2, u)
  {
    && Approximates(got.limit1, asked.limit1, u) && Approximates(got.limit2, asked.limit2, u)
    && got.lock == asked.lock % 2
  }

  lemma {:induction false} PkgSetThenGet(r: nat, o: PkgLimits, u: Units, before: Pair)
    requires u.Valid() && Settable(o.limit1, u) && Settable(o.limit2, u)
    ensures Survives(GetPkg(SetPkg(r, o, u, before), u), o, u)
  {
    PkgSetReads(r, o, u, before);
    var p1 := Converted(u.steps, o.limit1.seconds, before);
    OneBit(o.lock);
    ReadBack(SetPkg(r, o, u, before), 0, o.limit1, before, u);
    ReadBack(SetPkg(r, o, u, before), PKG_BASE_2, o.limit2, p1, u);
  }

  lemma {:induction false} ReadBack(s: nat, base: nat, l: Limit, before: Pair, u: Units)
    requires u.Valid() && Settable(l, u)
    requires Reads(s, base, FieldsOf(l, Converted(u.steps, l.seconds, before), u))
    ensures Approximates(GetLimit(s, base, u), l, u)
  {
    StoredWatts(u, l.watts);
    OneBit(l.enabled);
    OneBit(l.clamp);
    if u.steps[0] <= l.seconds {
      WindowReadBack(s, base, l.seconds, u);
    }
  }

  lemma {:induction false} OneBit(x: nat)
    ensures Low(x, 1) == x % 2
  {
  }

  lemma {:induction false} WindowReadBack(s: nat, base: nat, seconds: real, u: Units)
    requires InRange(u.steps, seconds) && u.steps[0] <= seconds
    requires var p := BestPair(u.steps, seconds); WindowFields(s, base) == Pair(Low(p.y, 5), Low(p.f, 2))
    ensures WindowFields(s, base) == BestPair(u.steps, seconds)
    ensures GetLimit(s, base, u).seconds == Window(u.steps, BestPair(u.steps, seconds)) <= seconds
  {
    var p := BestPair(u.steps, seconds);
    BestPairBrackets(u.steps, seconds);
    assert Pow2(5) == 32 && Pow2(2) == 4;
    LowOfSmall(p.y, 5);
    LowOfSmall(p.f, 2);
  }

  /**
    A window request below the time unit has no encoding, and the read-back
    window then exceeds it, unless the variable for Y happened to hold 31, which
    reads back as a negative window. In the package register a second window that
    is too short is given the fields of the first.
   */
  lemma {:induction false} WindowNeverAboveIff(r: nat, o: PkgLimits, u: Units, before: Pair)
    requires u.Valid() && Settable(o.limit1, u) && Settable(o.limit2, u)
    ensures var got, unit := GetPkg(SetPkg(r, o, u, before), u), u.steps[0];
            && (got.limit1.seconds <= o.limit1.seconds <==> unit <= o.limit1.seconds || Low(before.y, 5) == 31)
            && (got.limit2.seconds <= o.limit2.seconds <==>
                unit <= o.limit2.seconds || (o.limit1.seconds < unit && Low(before.y, 5) == 31))
            && (o.limit2.seconds < unit ==> got.limit2.seconds == got.limit1.seconds)
  {
    var s := SetPkg(r, o, u, before);
    PkgSetReads(r, o, u, before);
    PkgSetThenGet(r, o, u, before);
    ReadWindow(s, 0, u);
    ReadWindow(s, PKG_BASE_2, u);
    if u.steps[0] <= o.limit1.seconds {
      WindowReadBack(s, 0, o.limit1.seconds, u);
      BestPairBrackets(u.steps, o.limit1.seconds);
    }
  }

  /** A window that is read is at least the time unit or, with Y = 31, negative. */
  lemma {:induction false} ReadWindow(r: nat, base: nat, u: Units)
    ensures var seconds := GetLimit(r, base, u).seconds;
            if WindowFields(r, base).y == 31 then seconds < 0.0 else u.steps[0] <= seconds
  {
    var p := WindowFields(r, base);
    assert Pow2(5) == 32 && p.f < Pow2(2) == 4;
    ScaleGrows(0, p.y, u.steps[p.f]);
  }

  /** A request of nine tenths of a unit is read back as a longer window when the variables held zero. */
  lemma {:induction false} ShortWindowExample(r: nat, o: PkgLimits, u: Units)
    requires u.Valid() && Settable(o.limit1, u) && Settable(o.limit2, u)
    requires o.limit1.seconds == 0.9 * u.steps[0]
    ensures GetPkg(SetPkg(r, o, u, Pair(0, 0)), u).limit1.seconds > o.limit1.seconds
  {
    WindowNeverAboveIff(r, o, u, Pair(0, 0));
  }

  // ----- the layout, bit by bit

  lemma {:induction false} Powers()
    ensures Pow2(0) == 1 && Pow2(1) == 2 && Pow2(2) == 4 && Pow2(5) == 32 && Pow2(15) == 0x8000
    ensures Pow2(16) == 0x1_0000 && Pow2(17) == 0x2_0000 && Pow2(22) == 0x40_0000 && Pow2(31) == 0x8000_0000
  {
    Pow2Of31();
    assert Pow2(10) == 1024 && Pow2(15) == 0x8000 && Pow2(20) == 0x10_0000;
  }

  lemma {:induction false} HighPowers()
    ensures Pow2(32) == 0x1_0000_0000 && Pow2(47) == 0x8000_0000_0000 && Pow2(48) == 0x1_0000_0000_0000
    ensures Pow2(49) == 0x2_0000_0000_0000 && Pow2(54) == 0x40_0000_0000_0000 && Pow2(63) == 0x8000_0000_0000_0000
  {
    Pow2Of31();
    assert Pow2(36) == 0x10_0000_0000 && Pow2(40) == 0x100_0000_0000 && Pow2(44) == 0x1000_0000_0000;
    assert Pow2(52) == 0x10_0000_0000_0000 && Pow2(56) == 0x100_0000_0000_0000 && Pow2(60) == 0x1000_0000_0000_0000;
  }

  /** What the first limit of a register says, in the bits of the register. */
  lemma {:induction false} FirstLimitBits(r: nat, u: Units)
    ensures var l := GetLimit(r, 0, u);
            && l.watts == u.power * (r % 0x8000) as real
            && l.enabled == r / 0x8000 % 2 && l.clamp == r / 0x1_0000 % 2
            && WindowFields(r, 0) == Pair(r / 0x2_0000 % 32, r / 0x40_0000 % 4)
            && l.seconds == Decoded(u.steps, WindowFields(r, 0))
  {
    LowFields(r);
  }

  /** What the second limit of a package register says. */
  lemma {:induction false} SecondLimitBits(r: nat, u: Units)
    ensures var l := GetLimit(r, 32, u);
            && l.watts == u.power * (r / 0x1_0000_0000 % 0x8000) as real
            && l.enabled == r / 0x8000_0000_0000 % 2 && l.clamp == r / 0x1_0000_0000_0000 % 2
            && WindowFields(r, 32) == Pair(r / 0x2_0000_0000_0000 % 32, r / 0x40_0000_0000_0000 % 4)
            && l.seconds == Decoded(u.steps, WindowFields(r, 32))
  {
    HighFields(r);
  }

  /** `get_pkg_rapl_power_limit_control`: limits from the bits 0 and 32 on, the lock at bit 63. */
  lemma {:induction false} PkgBits(r: nat, u: Units)
    ensures GetPkg(r, u) == PkgLimits(GetLimit(r, 0, u), GetLimit(r, 32, u), r / 0x8000_0000_0000_0000 % 2)
  {
    HighFields(r);
  }

  lemma {:induction false} HighFields(r: nat)
    ensures Extract(r, 32, 15) == r / 0x1_0000_0000 % 0x8000
    ensures Extract(r, 47, 1) == r / 0x8000_0000_0000 % 2
    ensures Extract(r, 48, 1) == r / 0x1_0000_0000_0000 % 2
    ensures Extract(r, 49, 5) == r / 0x2_0000_0000_0000 % 32
    ensures Extract(r, 54, 2) == r / 0x40_0000_0000_0000 % 4
    ensures Extract(r, 63, 1) == r / 0x8000_0000_0000_0000 % 2
  {
    Powers();
    HighPowers();
    FieldIs(r, 32, 15, 0x1_0000_0000, 0x8000);
    FieldIs(r, 47, 1, 0x8000_0000_0000, 2);
    FieldIs(r, 48, 1, 0x1_0000_0000_0000, 2);
    FieldIs(r, 49, 5, 0x2_0000_0000_0000, 32);
    FieldIs(r, 54, 2, 0x40_0000_0000_0000, 4);
    FieldIs(r, 63, 1, 0x8000_0000_0000_0000, 2);
  }

  lemma {:induction false} LowFields(r: nat)
    ensures Extract(r, 0, 15) == r % 0x8000
    ensures Extract(r, 15, 1) == r / 0x8000 % 2 && Extract(r, 16, 1) == r / 0x1_0000 % 2
    ensures Extract(r, 17, 5) == r / 0x2_0000 % 32 && Extract(r, 22, 2) == r / 0x40_0000 % 4
  {
    Powers();
    FieldIs(r, 0, 15, 1, 0x8000);
    FieldIs(r, 15, 1, 0x8000, 2);
    FieldIs(r, 16, 1, 0x1_0000, 2);
    FieldIs(r, 17, 5, 0x2_0000, 32);
    FieldIs(r, 22, 2, 0x40_0000, 4);
  }

  lemma {:induction false} FieldIs(r: nat, lo: nat, w: nat, d: nat, m: nat)
    requires Pow2(lo) == d && Pow2(w) == m
    ensures Extract(r, lo, w) == r / d % m
  {
    ExtractIs(r, lo, w);
  }

  /** `get_rapl_power_limit_control`: one limit, and the lock at bit 31. */
  lemma {:induction false} DomainBits(r: nat, u: Units)
    ensures GetDomain(r, u).limit == GetLimit(r, 0, u) && GetDomain(r, u).lock == r / 0x8000_0000 % 2
  {
    Powers();
    ExtractIs(r, 31, 1);
  }

  /** `set_pkg_rapl_power_limit_control`: every bit of the new register. */
  lemma {:induction false} PkgSetBits(r: nat, o: PkgLimits, u: Units, before: Pair)
    requires u.Valid() && Settable(o.limit1, u) && Settable(o.limit2, u)
    ensures var s := SetPkg(r, o, u, before);
            var p1 := Converted(u.steps, o.limit1.seconds, before);
            var p2 := Converted(u.steps, o.limit2.seconds, p1);
            && Extract(s, 0, 15) == FromWatts(u, o.limit1.watts) % 0x8000
            && Extract(s, 15, 1) == o.limit1.enabled % 2 && Extract(s, 16, 1) == o.limit1.clamp % 2
            && Extract(s, 17, 5) == p1.y % 32 && Extract(s, 22, 2) == p1.f % 4
            && Extract(s, 24, 8) == Extract(r, 24, 8)
            && Extract(s, 32, 15) == FromWatts(u, o.limit2.watts) % 0x8000
            && Extract(s, 47, 1) == o.limit2.enabled % 2 && Extract(s, 48, 1) == o.limit2.clamp % 2
            && Extract(s, 49, 5) == p2.y % 32 && Extract(s, 54, 2) == p2.f % 4
            && Extract(s, 56, 7) == Extract(r, 56, 7)
            && Extract(s, 63, 1) == o.lock % 2
  {
    var p1 := Converted(u.steps, o.limit1.seconds, before);
    var p2 := Converted(u.steps, o.limit2.seconds, p1);
    WordBits(r, FieldsOf(o.limit1, p1, u), FieldsOf(o.limit2, p2, u), o.lock);
  }

  lemma {:induction false} WordBits(r: nat, f1: Fields, f2: Fields, lock: nat)
    ensures var s := SetWord(r, f1, f2, lock);
            && HasFields(s, 0, f1) && HasFields(s, 32, f2) && Extract(s, 63, 1) == lock % 2
            && Extract(s, 24, 8) == Extract(r, 24, 8) && Extract(s, 56, 7) == Extract(r, 56, 7)
  {
    var s, r1 := SetWord(r, f1, f2, lock), SetLimit(r, 0, f1);
    var r2 := SetLimit(r1, 32, f2);
    WordReads(r, f1, f2, lock);
    ReadsAreFields(s, 0, f1);
    ReadsAreFields(s, 32, f2);
    OneBit(lock);
    SetLimitFrame(r, 0, f1, 24, 8);
    SetLimitFrame(r1, 32, f2, 24, 8);
    InsertOther(r2, 63, 1, lock, 24, 8);
    SetLimitFrame(r, 0, f1, 56, 7);
    SetLimitFrame(r1, 32, f2, 56, 7);
    InsertOther(r2, 63, 1, lock, 56, 7);
  }

  /** The fields of a limit, cut to their widths, stand in the bits from `base` on. */
  predicate HasFields(s: nat, base: nat, f: Fields) {
    && Extract(s, base, 15) == f.power % 0x8000
    && Extract(s, base + 15, 1) == f.enabled % 2 && Extract(s, base + 16, 1) == f.clamp % 2
    && Extract(s, base + 17, 5) == f.window.y % 32 && Extract(s, base + 22, 2) == f.window.f % 4
  }

  lemma {:induction false} ReadsAreFields(s: nat, base: nat, f: Fields)
    requires Reads(s, base, f)
    ensures HasFields(s, base, f)
  {
    Powers();
    ShiftIsQuotient(f.power, 15);
    OneBit(f.enabled);
    OneBit(f.clamp);
    ShiftIsQuotient(f.window.y, 5);
    ShiftIsQuotient(f.window.f, 2);
  }

  /** `set_rapl_power_limit_control`: every bit of the new register, the lock at bit 31. */
  lemma {:induction false} DomainSetBits(r: nat, o: DomainLimit, u: Units, before: Pair)
    requires u.Valid() && Settable(o.limit, u)
    ensures var s, p := SetDomain(r, o, u, before), Converted(u.steps, o.limit.seconds, before);
            && Extract(s, 0, 15) == FromWatts(u, o.limit.watts) % 0x8000
            && Extract(s, 15, 1) == o.limit.enabled % 2 && Extract(s, 16, 1) == o.limit.clamp % 2
            && Extract(s, 17, 5) == p.y % 32 && Extract(s, 22, 2) == p.f % 4
            && Extract(s, 24, 7) == Extract(r, 24, 7) && Extract(s, 31, 1) == o.lock % 2
  {
    var p := Converted(u.steps, o.limit.seconds, before);
    DomainBitsOf(r, FieldsOf(o.limit, p, u), o.lock);
  }

  lemma {:induction false} DomainBitsOf(r: nat, f: Fields, lock: nat)
    ensures var s := SetDomainWord(r, f, lock);
            HasFields(s, 0, f) && Extract(s, 31, 1) == lock % 2 && Extract(s, 24, 7) == Extract(r, 24, 7)
  {
    DomainWordReads(r, f, lock);
    ReadsAreFields(SetDomainWord(r, f, lock), 0, f);
    OneBit(lock);
    SetLimitFrame(r, 0, f, 24, 7);
    InsertOther(SetLimit(r, 0, f), 31, 1, lock, 24, 7);
  }

  // ----- two writes

  /** Two words with equal package fields and equal reserved bits are the same. */
  lemma {:induction false} SamePkgWord(r: nat, s: nat)
    requires r < Pow2(64) && s < Pow2(64)
    requires SameLimit(r, s, 0) && SameLimit(r, s, PKG_BASE_2)
    requires Extract(r, PKG_LOCK, 1) == Extract(s, PKG_LOCK, 1)
    requires forall k: nat | !PkgField(k) :: Extract(r, k, 1) == Extract(s, k, 1)
    ensures r == s
  {
    LimitBits(r, s, 0);
    LimitBits(r, s, PKG_BASE_2);
    SameBits(r, s, 64);
  }

  predicate SameLimit(r: nat, s: nat, base: nat) {
    && Extract(r, base, 15) == Extract(s, base, 15) && WindowFields(r, base) == WindowFields(s, base)
    && Extract(r, base + 15, 1) == Extract(s, base + 15, 1) && Extract(r, base + 16, 1) == Extract(s, base + 16, 1)
  }

  lemma {:induction false} LimitBits(r: nat, s: nat, base: nat)
    requires SameLimit(r, s, base)
    ensures forall k: nat | base <= k < base + 24 :: Extract(r, k, 1) == Extract(s, k, 1)
  {
    FieldBits(r, s, base, 15);
    FieldBits(r, s, base + 17, 5);
    FieldBits(r, s, base + 22, 2);
  }

  /** The last write wins: what an earlier one left shows in no bit. */
  lemma {:induction false} PkgLastWriteWins(r: nat, first: PkgLimits, o: PkgLimits, u: Units, junk: Pair, before: Pair)
    requires u.Valid() && r < Pow2(64)
    requires Settable(first.limit1, u) && Settable(first.limit2, u)
    requires Settable(o.limit1, u) && Settable(o.limit2, u)
    ensures SetPkg(SetPkg(r, first, u, junk), o, u, before) == SetPkg(r, o, u, before)
  {
    var r1 := SetPkg(r, first, u, junk);
    PkgReservedBits(r, first, u, junk);
    PkgReservedBits(r, o, u, before);
    PkgReservedBits(r1, o, u, before);
    PkgSetReads(r, o, u, before);
    PkgSetReads(r1, o, u, before);
    SamePkgWord(SetPkg(r1, o, u, before), SetPkg(r, o, u, before));
  }

  // ----- the register of a single-limit domain

  lemma {:induction false} DomainWriteBackIsIdentity(r: nat, u: Units, before: Pair)
    requires u.Valid()
    ensures Settable(GetDomain(r, u).limit, u) <==> WindowFields(r, 0).y <= MAX_Y
    ensures Settable(GetDomain(r, u).limit, u) ==> SetDomain(r, GetDomain(r, u), u, before) == r
  {
    ReadIsSettableIff(r, 0, u);
    if WindowFields(r, 0).y <= MAX_Y {
      LimitRoundTrip(r, 0, u, before);
      InsertExtract(r, DOMAIN_LOCK, 1);
    }
  }

  lemma {:induction false} DomainSetThenGet(r: nat, o: DomainLimit, u: Units, before: Pair)
    requires u.Valid() && Settable(o.limit, u)
    ensures var s := SetDomain(r, o, u, before);
            && Approximates(GetDomain(s, u).limit, o.limit, u)
            && GetDomain(s, u).lock == o.lock % 2
            && (forall k: nat | 24 <= k && k != DOMAIN_LOCK :: Extract(s, k, 1) == Extract(r, k, 1))
  {
    var f := FieldsOf(o.limit, Converted(u.steps, o.limit.seconds, before), u);
    DomainWordReads(r, f, o.lock);
    OneBit(o.lock);
    ReadBack(SetDomain(r, o, u, before), 0, o.limit, before, u);
  }

  lemma {:induction false} DomainWordReads(r: nat, f: Fields, lock: nat)
    ensures var s := SetDomainWord(r, f, lock);
            && Reads(s, 0, f) && Extract(s, DOMAIN_LOCK, 1) == Low(lock, 1)
            && (forall k: nat | 24 <= k && k != DOMAIN_LOCK :: Extract(s, k, 1) == Extract(r, k, 1))
  {
    var r1 := SetLimit(r, 0, f);
    SetLimitReads(r, 0, f);
    ReadsBelow(r1, 0, f, DOMAIN_LOCK, f, lock);
    InsertSame(r1, DOMAIN_LOCK, 1, lock);
    forall k: nat | 24 <= k && k != DOMAIN_LOCK
      ensures Extract(SetDomainWord(r, f, lock), k, 1) == Extract(r, k, 1)
    {
      SetLimitFrame(r, 0, f, k, 1);
      InsertOther(r1, DOMAIN_LOCK, 1, lock, k, 1);
    }
  }
}
