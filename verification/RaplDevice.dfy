/**
  The model-specific registers of the machine, and the calls of the power
  library that read and write a power limit. A register that cannot be opened
  is absent from `regs`; one that cannot be written is not in `writable`.
 */
module RaplDevice {
  import opened BitField
  import opened TimeWindow
  import opened PowerLimit

  const MSR_RAPL_PKG_POWER_LIMIT: nat := 0x610

  type Key = (nat, nat)  // (cpu, address)

  class Device {
    const units: Units
    const supported: set<nat>   // msr_support_table, indexed by the low byte
    const nodeCpu: seq<nat>     // pkg_node_to_cpu
    const writable: set<Key>
    var regs: map<Key, nat>

    constructor (units: Units, supported: set<nat>, nodeCpu: seq<nat>, writable: set<Key>, regs: map<Key, nat>)
      ensures this.units == units && this.supported == supported && this.nodeCpu == nodeCpu
      ensures this.writable == writable && this.regs == regs
    {
      this.units, this.supported, this.nodeCpu := units, supported, nodeCpu;
      this.writable, this.regs := writable, regs;
    }

    predicate IsSupported(address: nat) {
      address % 256 in supported
    }

    predicate Readable(key: Key)
      reads this
    {
      IsSupported(key.1) && key in regs
    }

    function PkgKey(node: nat): Key
      requires node < |nodeCpu|
    {
      (nodeCpu[node], MSR_RAPL_PKG_POWER_LIMIT)
    }

    method ReadMsr(key: Key) returns (err: int, value: nat)
      ensures err == 0 <==> key in regs
      ensures err == 0 ==> value == regs[key]
    {
      if key in regs { return 0, regs[key]; }
      return 1, 0;
    }

    method WriteMsr(key: Key, value: nat) returns (err: int)
      modifies this
      ensures err == 0 <==> key in writable
      ensures regs == if err == 0 then old(regs)[key := value] else old(regs)
    {
      if key !in writable { return 1; }
      regs := regs[key := value];
      return 0;
    }

    method GetPkgPowerLimit(node: nat, before: PkgLimits) returns (err: int, obj: PkgLimits)
      requires node < |nodeCpu|
      ensures err == 0 <==> 0x10 in supported && (nodeCpu[node], 0x610) in regs
      ensures obj == if err == 0 then GetPkg(regs[(nodeCpu[node], 0x610)], units) else before
    {
      obj := before;
      err := if IsSupported(MSR_RAPL_PKG_POWER_LIMIT) then 0 else 1;
      var msr := 0;
      if err == 0 {
        err, msr := ReadMsr(PkgKey(node));
      }
      if err == 0 {
        obj := GetPkg(msr, units);
      }
    }

    /** One limit of the register image, assigned field by field. */
    method AssignLimit(msr: nat, base: nat, l: Limit, p: Pair) returns (s: nat)
      requires units.Valid() && Storable(units, l.watts)
      ensures s == SetLimit(msr, base, FieldsOf(l, p, units))
    {
      s := Insert(msr, base, 15, FromWatts(units, l.watts));
      s := Insert(s, base + 15, 1, l.enabled);
      s := Insert(s, base + 16, 1, l.clamp);
      s := Insert(s, base + 17, 5, p.y);
      s := Insert(s, base + 22, 2, p.f);
    }

    /** `y`, `f` start uninitialised: any `junk`. */
    method SetPkgPowerLimit(node: nat, obj: PkgLimits, junk: Pair) returns (err: int)
      requires node < |nodeCpu| && units.Valid()
      requires Settable(obj.limit1, units) && Settable(obj.limit2, units)
      modifies this
      ensures err == 0 <==>
                0x10 in supported && (nodeCpu[node], 0x610) in old(regs) && (nodeCpu[node], 0x610) in writable
      ensures regs == if err == 0
                      then old(regs)[(nodeCpu[node], 0x610) :=
                                       SetPkg(old(regs[(nodeCpu[node], 0x610)]), obj, units, junk)]
                      else old(regs)
    {
      err := if IsSupported(MSR_RAPL_PKG_POWER_LIMIT) then 0 else 1;
      var msr := 0;
      if err == 0 {
        err, msr := ReadMsr(PkgKey(node));
      }
      if err == 0 {
        var p := junk;
        p := ConvertToLimitTimeWindow(units.steps, obj.limit1.seconds, p);
        msr := AssignLimit(msr, 0, obj.limit1, p);
        p := ConvertToLimitTimeWindow(units.steps, obj.limit2.seconds, p);
        msr := AssignLimit(msr, PKG_BASE_2, obj.limit2, p);
        msr := Insert(msr, PKG_LOCK, 1, obj.lock);
        err := WriteMsr(PkgKey(node), msr);
      }
    }

    method GetPowerLimit(cpu: nat, address: nat, before: DomainLimit) returns (err: int, obj: DomainLimit)
      ensures err == 0 <==> address % 256 in supported && (cpu, address) in regs
      ensures obj == if err == 0 then GetDomain(regs[(cpu, address)], units) else before
    {
      obj := before;
      err := if IsSupported(address) then 0 else 1;
      var msr := 0;
      if err == 0 {
        err, msr := ReadMsr((cpu, address));
      }
      if err == 0 {
        obj := GetDomain(msr, units);
      }
    }

    method SetPowerLimit(cpu: nat, address: nat, obj: DomainLimit, junk: Pair) returns (err: int)
      requires units.Valid() && Settable(obj.limit, units)
      modifies this
      ensures err == 0 <==> address % 256 in supported && (cpu, address) in old(regs) && (cpu, address) in writable
      ensures regs == if err == 0
                      then old(regs)[(cpu, address) := SetDomain(old(regs)[(cpu, address)], obj, units, junk)]
                      else old(regs)
    {
      err := if IsSupported(address) then 0 else 1;
      var msr := 0;
      if err == 0 {
        err, msr := ReadMsr((cpu, address));
      }
      if err == 0 {
        var p := ConvertToLimitTimeWindow(units.steps, obj.limit.seconds, junk);
        msr := AssignLimit(msr, 0, obj.limit, p);
        msr := Insert(msr, DOMAIN_LOCK, 1, obj.lock);
        err := WriteMsr((cpu, address), msr);
      }
    }
  }

  /** A unit as a fraction of a second or a watt. */
  function UnitFraction(e: nat): (x: real)
    requires e <= MAX_Y
    ensures 0.0 < x <= 1.0 && x == Reciprocal(Pow2(e))
  {
    B2PowIsPow2(e);
    Reciprocal(B2Pow(e))
  }

  /** It is the inverse of a power of two. */
  lemma {:induction false} UnitFractionIs(e: nat, x: real, n: int)
    requires e <= MAX_Y && n == Pow2(e) && x == UnitFraction(e)
    ensures x * n as real == 1.0
  {
    ReciprocalIs(n, x);
  }

  lemma {:induction false} ReciprocalIs(n: int, x: real)
    requires n >= 1 && x == Reciprocal(n)
    ensures x * n as real == 1.0
  {
  }

  function Reciprocal(n: int): (x: real)
    requires n >= 1
    ensures 0.0 < x <= 1.0 && x * n as real == 1.0
  {
    1.0 / n as real
  }

  /** The units from the bit-fields of the unit register, and the code's table of multipliers. */
  function UnitsOf(r: nat): (u: Units)
    ensures CodeUnits(u, UnitFraction(Extract(r, 16, 4))) && u.power == UnitFraction(Extract(r, 0, 4))
  {
    assert Extract(r, 16, 4) < Pow2(4) == 16 && Extract(r, 0, 4) < Pow2(4);
    var time := UnitFraction(Extract(r, 16, 4));
    assert Step(1.0, time) == time;
    Units(UnitFraction(Extract(r, 0, 4)), OctaveOf(A_F, time))
  }

  ghost predicate CodeUnits(u: Units, time: real) {
    u.Valid() && 0.0 < time && u.steps == OctaveOf(A_F, time) && u.steps[0] == time
  }

  /** With these units a register decodes as the code does it. */
  lemma {:induction false} UnitsDecode(u: Units, time: real, p: Pair)
    requires CodeUnits(u, time) && p.y <= MAX_Y + 1 && p.f < 4
    ensures Decoded(u.steps, p) == FromWindow(A_F, time, p)
  {
    FromWindowIsDecoded(A_F, time, p);
  }

  /** Flags of one bit, power within the 15-bit field, windows from the time unit up to 2^31 of them. */
  ghost predicate Reasonable(l: Limit, u: Units) {
    && l.enabled < 2 && l.clamp < 2
    && 0.0 <= l.watts < ToWatts(u, 32768)
    && u.steps[0] <= l.seconds < Scale(31, u.steps[0])
  }

  /** Flags unchanged, power less than one unit below the request, more than 13/20 of the window. */
  ghost predicate Close(got: Limit, asked: Limit, power: real) {
    && got.enabled == asked.enabled && got.clamp == asked.clamp
    && got.watts <= asked.watts < got.watts + power
    && 13.0 * asked.seconds < 20.0 * got.seconds <= 20.0 * asked.seconds
  }

  ghost predicate AllClose(got: PkgLimits, asked: PkgLimits, power: real) {
    Close(got.limit1, asked.limit1, power) && Close(got.limit2, asked.limit2, power) && got.lock == asked.lock
  }

  lemma {:induction false} ReasonableIsSettable(l: Limit, u: Units, time: real)
    requires CodeUnits(u, time) && Reasonable(l, u)
    ensures Settable(l, u)
  {
    WattsOrder(u, 32768, 0x1_0000_0000_0000_0000);
  }

  lemma {:induction false} ApproximatesIsClose(got: Limit, l: Limit, u: Units, time: real)
    requires CodeUnits(u, time) && Reasonable(l, u)
    requires Settable(l, u) && Approximates(got, l, u)
    ensures Close(got, l, u.power)
  {
    WindowRatio(time, l.seconds);
  }

  /** Set, then get, with the code's own table and units: close for every reasonable pair of limits. */
  lemma {:induction false} PkgSetThenGetIsClose(r: nat, o: PkgLimits, u: Units, time: real, before: Pair)
    requires CodeUnits(u, time) && o.lock < 2
    requires Reasonable(o.limit1, u) && Reasonable(o.limit2, u)
    ensures Settable(o.limit1, u) && Settable(o.limit2, u)
    ensures AllClose(GetPkg(SetPkg(r, o, u, before), u), o, u.power)
  {
    ReasonableIsSettable(o.limit1, u, time);
    ReasonableIsSettable(o.limit2, u, time);
    PkgSetThenGet(r, o, u, before);
    BothClose(GetPkg(SetPkg(r, o, u, before), u), o, u, time);
  }

  lemma {:induction false} BothClose(got: PkgLimits, o: PkgLimits, u: Units, time: real)
    requires CodeUnits(u, time) && Reasonable(o.limit1, u) && Reasonable(o.limit2, u)
    requires Settable(o.limit1, u) && Settable(o.limit2, u) && Survives(got, o, u) && o.lock < 2
    ensures AllClose(got, o, u.power)
  {
    ApproximatesIsClose(got.limit1, o.limit1, u, time);
    ApproximatesIsClose(got.limit2, o.limit2, u, time);
  }

  /** The same for a register with one limit. */
  lemma {:induction false} DomainSetThenGetIsClose(r: nat, o: DomainLimit, u: Units, time: real, before: Pair)
    requires CodeUnits(u, time) && o.lock < 2 && Reasonable(o.limit, u)
    ensures Settable(o.limit, u)
    ensures var got := GetDomain(SetDomain(r, o, u, before), u);
            Close(got.limit, o.limit, u.power) && got.lock == o.lock
  {
    ReasonableIsSettable(o.limit, u, time);
    DomainSetThenGet(r, o, u, before);
    ApproximatesIsClose(GetDomain(SetDomain(r, o, u, before), u).limit, o.limit, u, time);
  }

  /** `read_rapl_units`: a machine has the units of its unit register, with which the code decodes and encodes. */
  method MakeDevice(unitMsr: nat, supported: set<nat>, nodeCpu: seq<nat>, writable: set<Key>, regs: map<Key, nat>)
    returns (d: Device, ghost time: real)
    ensures fresh(d) && d.units == UnitsOf(unitMsr) && CodeUnits(d.units, time)
    ensures d.supported == supported && d.nodeCpu == nodeCpu && d.writable == writable && d.regs == regs
  {
    time := UnitFraction(Extract(unitMsr, 16, 4));
    d := new Device(UnitsOf(unitMsr), supported, nodeCpu, writable, regs);
  }

  /**
    On one machine, with the units that MakeDevice gives it: limits that are set are
    read back close to what was asked for, exactly when the register can be read
    and written.
   */
  method SetThenGetPkg(d: Device, ghost time: real, node: nat, asked: PkgLimits, junk: Pair, before: PkgLimits)
    returns (err: int, got: PkgLimits)
    requires CodeUnits(d.units, time) && node < |d.nodeCpu| && asked.lock < 2
    requires Reasonable(asked.limit1, d.units) && Reasonable(asked.limit2, d.units)
    modifies d
    ensures err == 0 <==> old(d.Readable(d.PkgKey(node))) && d.PkgKey(node) in d.writable
    ensures err == 0 ==> AllClose(got, asked, d.units.power)
    ensures err != 0 ==> d.regs == old(d.regs) && got == before
  {
    ReasonableIsSettable(asked.limit1, d.units, time);
    ReasonableIsSettable(asked.limit2, d.units, time);
    got := before;
    ghost var r := if d.PkgKey(node) in d.regs then d.regs[d.PkgKey(node)] else 0;
    err := d.SetPkgPowerLimit(node, asked, junk);
    if err == 0 {
      err, got := d.GetPkgPowerLimit(node, before);
      PkgSetThenGetIsClose(r, asked, d.units, time, junk);
    }
  }

  method SetThenGet(d: Device, ghost time: real, cpu: nat, address: nat, asked: DomainLimit, junk: Pair,
                    before: DomainLimit)
    returns (err: int, got: DomainLimit)
    requires CodeUnits(d.units, time) && asked.lock < 2 && Reasonable(asked.limit, d.units)
    modifies d
    ensures err == 0 <==> old(d.Readable((cpu, address))) && (cpu, address) in d.writable
    ensures err == 0 ==> Close(got.limit, asked.limit, d.units.power) && got.lock == asked.lock
    ensures err != 0 ==> d.regs == old(d.regs) && got == before
  {
    ReasonableIsSettable(asked.limit, d.units, time);
    got := before;
    ghost var r := if (cpu, address) in d.regs then d.regs[(cpu, address)] else 0;
    err := d.SetPowerLimit(cpu, address, asked, junk);
    if err == 0 {
      err, got := d.GetPowerLimit(cpu, address, before);
      DomainSetThenGetIsClose(r, asked, d.units, time, junk);
    }
  }
}
