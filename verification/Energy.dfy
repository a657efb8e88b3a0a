/**
  Energy accounting of the RAPL module: a 32-bit counter read as joules, its
  wraparound corrected by 2^32 - 1 units, and the differences accumulated.
 */
module Energy {
  import opened Common

  const WRAP: nat := 0x1_0000_0000
  const DOMAINS: nat := 4      // RAPL_NR_DOMAIN
  const NUM_NODE: nat := 8

  // ----- in counter units

  /** The difference `rapl_read` accounts for between two readings. */
  function DeltaUnits(prev: nat, cur: nat): int {
    if cur < prev then cur - prev + (WRAP - 1) else cur - prev
  }

  /** No difference is negative. */
  lemma {:induction false} DeltaNotNegative(prev: nat, cur: nat)
    requires prev < WRAP
    ensures 0 <= DeltaUnits(prev, cur)
  {
  }

  /** The units accumulated over k reads while the true counter goes through `total`. */
  function Accumulated(total: seq<nat>, k: nat): int
    requires k < |total|
  {
    if k == 0 then 0
    else Accumulated(total, k - 1) + DeltaUnits(total[k - 1] % WRAP, total[k] % WRAP)
  }

  predicate Growing(total: seq<nat>) {
    forall i :: 0 < i < |total| ==> total[i - 1] <= total[i]
  }

  predicate ShortSteps(total: seq<nat>, k: nat)
    requires k < |total|
  {
    forall i :: 0 < i <= k ==> total[i] < total[i - 1] + 0x1_0000_0000
  }

  /** One step loses one unit per wrap, or more when the counter advances by 2^32 or beyond. */
  lemma {:induction false} StepLoss(t: nat, t': nat)
    requires t <= t'
    ensures var lost := t' - t - DeltaUnits(t % WRAP, t' % WRAP);
            var wraps := t' / WRAP - t / WRAP;
            lost >= wraps >= 0 && (lost == wraps <==> t' - t < WRAP)
  {
    var q, q', r, r' := t / WRAP, t' / WRAP, t % WRAP, t' % WRAP;
    assert t == q * WRAP + r && t' == q' * WRAP + r';
    assert q <= q';
    if r' < r {
      assert q < q';
    }
  }

  /** Over a run exactly one unit is lost per wrap, if and only if no step reaches 2^32. */
  lemma {:induction false} ClosedFormIff(total: seq<nat>, k: nat)
    requires k < |total| && Growing(total)
    ensures var exact := total[k] - total[0] - (total[k] / WRAP - total[0] / WRAP);
            && Accumulated(total, k) <= exact
            && (Accumulated(total, k) == exact <==> ShortSteps(total, k))
  {
    if k == 0 {
    } else {
      ClosedFormIff(total, k - 1);
      StepLoss(total[k - 1], total[k]);
      assert ShortSteps(total, k) <==> ShortSteps(total, k - 1) && total[k] - total[k - 1] < WRAP;
    }
  }

  /** The units used up to reading k, less one per wrap of the 32-bit counter since the first reading. */
  function Net(total: seq<nat>, k: nat): int
    requires k < |total|
  {
    var r0, used := total[0] as int % 0x1_0000_0000, total[k] as int - total[0] as int;
    used - (r0 + used) / 0x1_0000_0000
  }

  /** The same, from the first reading r0 and the units used since. */
  lemma {:induction false} LossFromFirstReading(total: seq<nat>, k: nat)
    requires k < |total| && Growing(total) && ShortSteps(total, k)
    ensures Accumulated(total, k) == Net(total, k)
  {
    ClosedFormIff(total, k);
    WrapsFromReading(total[0], total[k]);
  }

  lemma {:induction false} WrapsFromReading(t: nat, t': nat)
    ensures t' / WRAP - t / WRAP == (t % WRAP + t' - t) / WRAP
  {
  }

  // ----- in joules

  function Joules(unit: real, raw: int): real {
    unit * raw as real
  }

  /** The correction adds MAX_ENERGY_STATUS_JOULES. */
  function Delta(unit: real, prev: real, cur: real): real {
    var delta := cur - prev;
    if delta < 0.0 then delta + Joules(unit, WRAP - 1) else delta
  }

  lemma {:induction false} DeltaIsUnits(unit: real, prev: nat, cur: nat)
    requires 0.0 < unit
    ensures Delta(unit, Joules(unit, prev), Joules(unit, cur)) == Joules(unit, DeltaUnits(prev, cur))
  {
    JoulesDifference(unit, cur, prev);
    var d := cur - prev;
    JoulesSign(unit, d);
    if d < 0 {
      JoulesDifference(unit, d, -(WRAP - 1));
      JoulesDifference(unit, 0, WRAP - 1);
    }
  }

  lemma {:induction false} JoulesDifference(unit: real, a: int, b: int)
    ensures Joules(unit, a) - Joules(unit, b) == Joules(unit, a - b)
  {
  }

  lemma {:induction false} JoulesSign(unit: real, a: int)
    requires 0.0 < unit
    ensures Joules(unit, a) < 0.0 <==> a < 0
  {
  }

  /** cum_energy_J of one domain after k reads of the true counter. */
  function Energy(unit: real, total: seq<nat>, k: nat): real
    requires k < |total|
  {
    if k == 0 then 0.0
    else Energy(unit, total, k - 1)
         + Delta(unit, Joules(unit, total[k - 1] % WRAP), Joules(unit, total[k] % WRAP))
  }

  /** In joules the same number of units is accumulated, whatever the steps. */
  lemma {:induction false} EnergyIsExact(unit: real, total: seq<nat>, k: nat)
    requires 0.0 < unit && k < |total|
    ensures Energy(unit, total, k) == Joules(unit, Accumulated(total, k))
  {
    if k == 0 {
    } else {
      EnergyIsExact(unit, total, k - 1);
      DeltaIsUnits(unit, total[k - 1] % WRAP, total[k] % WRAP);
      JoulesDifference(unit, Accumulated(total, k),
                       DeltaUnits(total[k - 1] % WRAP, total[k] % WRAP));
    }
  }

  /**
    In joules: the energy reported is the energy unit times the counter units used,
    less one unit per wrap, exactly when no step reaches 2^32.
   */
  lemma {:induction false} EnergyLossIff(unit: real, total: seq<nat>, k: nat)
    requires 0.0 < unit && k < |total| && Growing(total)
    ensures Energy(unit, total, k) == unit * Net(total, k) as real <==> ShortSteps(total, k)
  {
    ClosedFormIff(total, k);
    WrapsFromReading(total[0], total[k]);
    EnergyIsExact(unit, total, k);
    SameJoules(unit, Accumulated(total, k), Net(total, k));
    JoulesAre(unit, Net(total, k));
  }

  lemma {:induction false} SameJoules(unit: real, a: int, b: int)
    requires 0.0 < unit && a <= b
    ensures Joules(unit, a) == Joules(unit, b) <==> a == b
  {
    JoulesDifference(unit, a, b);
    JoulesSign(unit, a - b);
  }

  lemma {:induction false} JoulesAre(unit: real, raw: int)
    ensures Joules(unit, raw) == unit * raw as real
  {
  }

  /** One joule: the counter goes from 0 to 65536, at 2^-16 joules a unit. */
  lemma {:induction false} OneJouleExample()
    ensures Energy(1.0 / 65536.0, [0, 65536], 1) == 1.0
  {
    var unit, total := 1.0 / 65536.0, [0, 65536];
    EnergyIsExact(unit, total, 1);
    assert Accumulated(total, 1) == Accumulated(total, 0) + 65536;
    JoulesAre(unit, 65536);
  }

  /** A counter that advances by 2^32 between two reads is accounted as unchanged. */
  lemma {:induction false} LongStepExample(unit: real)
    ensures Energy(unit, [0, WRAP], 1) == 0.0
  {
    assert Energy(unit, [0, WRAP], 0) == 0.0;
    assert Joules(unit, 0) == 0.0;
  }

  /** Watts over a time; a division by zero gives no number. */
  function Power(joules: real, seconds: real): (p: Option<real>)
    ensures p.None? <==> seconds == 0.0
    ensures p.Some? ==> p.value * seconds == joules
  {
    if seconds == 0.0 then None else Some(joules / seconds)
  }

  // ----- the module

  class Reader {
    const unit: real
    const numNode: nat
    const supported: set<nat>           // the supported power domains
    const prevSample: array2<real>
    const cumEnergy: array2<real>
    const powerWatt: array2<Option<real>>
    var end: real

    constructor (unit: real, numNode: nat, supported: set<nat>)
      requires numNode <= NUM_NODE
      ensures Valid() && this.numNode == numNode && this.unit == unit && this.supported == supported
      ensures forall i, d :: 0 <= i < NUM_NODE && 0 <= d < DOMAINS ==> cumEnergy[i, d] == 0.0
      ensures fresh(prevSample) && fresh(cumEnergy) && fresh(powerWatt)
      ensures cumEnergy.Length0 == prevSample.Length0 == 8 && cumEnergy.Length1 == prevSample.Length1 == 4
    {
      this.unit, this.numNode, this.supported := unit, numNode, supported;
      prevSample := new real[NUM_NODE, DOMAINS];
      cumEnergy := new real[NUM_NODE, DOMAINS]((_, _) => 0.0);
      powerWatt := new Option<real>[NUM_NODE, DOMAINS];
      end := 0.0;
    }

    predicate Valid() {
      && numNode <= NUM_NODE
      && prevSample.Length0 == NUM_NODE && prevSample.Length1 == DOMAINS
      && cumEnergy.Length0 == NUM_NODE && cumEnergy.Length1 == DOMAINS
      && powerWatt.Length0 == NUM_NODE && powerWatt.Length1 == DOMAINS
      && prevSample != cumEnergy
    }

    /** `raw` gives the 32-bit counter of a node and domain at the time of the call. */
    method Init(raw: (nat, nat) -> nat, now: real)
      requires Valid()
      modifies prevSample, this
      ensures end == now
      ensures forall i: nat, d: nat :: i < NUM_NODE && d < DOMAINS ==>
                prevSample[i, d] == if i < numNode && d in supported then Joules(unit, raw(i, d))
                                    else old(prevSample[i, d])
    {
      for i := 0 to numNode
        invariant forall k: nat, d: nat :: k < NUM_NODE && d < DOMAINS ==>
                    prevSample[k, d] == if k < i && d in supported then Joules(unit, raw(k, d))
                                        else old(prevSample[k, d])
      {
        for domain := 0 to DOMAINS
          invariant forall k: nat, d: nat :: k < NUM_NODE && d < DOMAINS ==>
                      prevSample[k, d] == if (k < i || (k == i && d < domain)) && d in supported
                                          then Joules(unit, raw(k, d)) else old(prevSample[k, d])
        {
          if domain in supported {
            prevSample[i, domain] := Joules(unit, raw(i, domain));
          }
        }
      }
      end := now;
    }

    /** The loops have passed node k, domain d when they stand at node i and `domain`. */
    predicate Passed(i: nat, domain: nat, k: nat, d: nat) {
      d in supported && (k < i || (k == i && d < domain))
    }

    method SampleOne(newSample: real, elapsed: real, i: nat, domain: nat)
      requires Valid() && i < NUM_NODE && domain < DOMAINS
      modifies prevSample, cumEnergy, powerWatt
      ensures var delta := Delta(unit, old(prevSample[i, domain]), newSample);
              && prevSample[i, domain] == newSample
              && cumEnergy[i, domain] == old(cumEnergy[i, domain]) + delta
              && powerWatt[i, domain] == Power(delta, elapsed)
      ensures forall k: nat, d: nat :: k < NUM_NODE && d < DOMAINS && (k != i || d != domain) ==>
                && prevSample[k, d] == old(prevSample[k, d])
                && cumEnergy[k, d] == old(cumEnergy[k, d])
                && powerWatt[k, d] == old(powerWatt[k, d])
    {
      var delta := newSample - prevSample[i, domain];
      if delta < 0.0 {
        delta := delta + Joules(unit, WRAP - 1);
      }
      prevSample[i, domain] := newSample;
      powerWatt[i, domain] := Power(delta, elapsed);
      cumEnergy[i, domain] := cumEnergy[i, domain] + delta;
    }

    /** `rapl_read`: the loops that sample every supported domain of every node. */
    method Read(raw: (nat, nat) -> nat, intervalStart: real, now: real)
      requires Valid()
      modifies prevSample, cumEnergy, powerWatt, this
      ensures end == now
      ensures forall k: nat, d: nat :: k < NUM_NODE && d < DOMAINS ==>
                && prevSample[k, d] ==
                     (if Passed(numNode, 0, k, d) then Joules(unit, raw(k, d)) else old(prevSample[k, d]))
                && cumEnergy[k, d] == old(cumEnergy[k, d]) +
                     (if Passed(numNode, 0, k, d)
                      then Delta(unit, old(prevSample[k, d]), Joules(unit, raw(k, d))) else 0.0)
                && powerWatt[k, d] ==
                     (if Passed(numNode, 0, k, d)
                      then Power(Delta(unit, old(prevSample[k, d]), Joules(unit, raw(k, d))), intervalStart - old(end))
                      else old(powerWatt[k, d]))
    {
      var elapsed := intervalStart - end;
      for i := 0 to numNode
        invariant forall k: nat, d: nat :: k < NUM_NODE && d < DOMAINS ==>
                    prevSample[k, d] == if Passed(i, 0, k, d) then Joules(unit, raw(k, d)) else old(prevSample[k, d])
        invariant forall k: nat, d: nat :: k < NUM_NODE && d < DOMAINS ==>
                    cumEnergy[k, d] == old(cumEnergy[k, d]) +
                      if Passed(i, 0, k, d) then Delta(unit, old(prevSample[k, d]), Joules(unit, raw(k, d))) else 0.0
        invariant forall k: nat, d: nat :: k < NUM_NODE && d < DOMAINS ==>
                    powerWatt[k, d] == if Passed(i, 0, k, d)
                      then Power(Delta(unit, old(prevSample[k, d]), Joules(unit, raw(k, d))), elapsed)
                      else old(powerWatt[k, d])
      {
        for domain := 0 to DOMAINS
          invariant forall k: nat, d: nat :: k < NUM_NODE && d < DOMAINS ==>
                      prevSample[k, d] ==
                        if Passed(i, domain, k, d) then Joules(unit, raw(k, d)) else old(prevSample[k, d])
          invariant forall k: nat, d: nat :: k < NUM_NODE && d < DOMAINS ==>
                      cumEnergy[k, d] == old(cumEnergy[k, d]) +
                        if Passed(i, domain, k, d)
                        then Delta(unit, old(prevSample[k, d]), Joules(unit, raw(k, d))) else 0.0
          invariant forall k: nat, d: nat :: k < NUM_NODE && d < DOMAINS ==>
                      powerWatt[k, d] == if Passed(i, domain, k, d)
                        then Power(Delta(unit, old(prevSample[k, d]), Joules(unit, raw(k, d))), elapsed)
                        else old(powerWatt[k, d])
        {
          if domain in supported {
            SampleOne(Joules(unit, raw(i, domain)), elapsed, i, domain);
          }
        }
      }
      end := now;
    }
  }

  // ----- a whole run

  /** The 32-bit counter at the time of read k, 0 being the initial one. */
  function Reading(total: seq<nat>, k: nat): nat {
    if k < |total| then total[k] % WRAP else 0
  }

  /** What the reader holds after k reads. */
  ghost predicate After(c: Reader, total: (nat, nat) -> seq<nat>, k: nat)
    requires c.Valid()
    requires forall i: nat, d: nat :: |total(i, d)| > k
    reads c.prevSample, c.cumEnergy
  {
    forall i: nat, d: nat :: i < c.numNode && d < DOMAINS && d in c.supported ==>
      && c.prevSample[i, d] == Joules(c.unit, Reading(total(i, d), k))
      && c.cumEnergy[i, d] == Energy(c.unit, total(i, d), k)
  }

  /** Nothing is accounted to other domains and nodes. */
  ghost predicate OthersZero(c: Reader)
    requires c.Valid()
    reads c.cumEnergy
  {
    forall i: nat, d: nat :: i < NUM_NODE && d < DOMAINS && (i >= c.numNode || d !in c.supported) ==>
      c.cumEnergy[i, d] == 0.0
  }

  /**
    The initial reading and then one read per element of `times`, which holds the
    two clock times of a read, in any order; `total` gives the true counter at every reading.
   */
  method Collect(c: Reader, total: (nat, nat) -> seq<nat>, start: real, times: seq<(real, real)>)
    requires c.Valid()
    requires forall i: nat, d: nat :: |total(i, d)| == |times| + 1
    requires forall i, d :: 0 <= i < NUM_NODE && 0 <= d < DOMAINS ==> c.cumEnergy[i, d] == 0.0
    modifies c, c.prevSample, c.cumEnergy, c.powerWatt
    ensures After(c, total, |times|) && OthersZero(c)
    ensures 0.0 < c.unit ==> Reported(c, total, |times|)
  {
    c.Init((i, d) => Reading(total(i, d), 0), start);
    for k := 0 to |times|
      invariant After(c, total, k) && OthersZero(c)
    {
      c.Read((i, d) => Reading(total(i, d), k + 1), times[k].0, times[k].1);
    }
    if 0.0 < c.unit {
      AfterIsReported(c, total, |times|);
    }
  }

  /** The joules are the energy unit times the net units, exactly when no step was long. */
  ghost predicate Reports(unit: real, total: seq<nat>, k: nat, joules: real)
    requires k < |total|
  {
    joules == unit * Net(total, k) as real <==> ShortSteps(total, k)
  }

  lemma {:induction false} EnergyReports(unit: real, total: seq<nat>, k: nat)
    requires 0.0 < unit && k < |total| && Growing(total)
    ensures Reports(unit, total, k, Energy(unit, total, k))
  {
    EnergyLossIff(unit, total, k);
  }

  /** What every supported domain reports after k reads. */
  ghost predicate Reported(c: Reader, total: (nat, nat) -> seq<nat>, k: nat)
    requires c.Valid() && forall i: nat, d: nat :: |total(i, d)| > k
    reads c.cumEnergy
  {
    forall i: nat, d: nat :: i < c.numNode && d < 4 && d in c.supported && Growing(total(i, d)) ==>
      Reports(c.unit, total(i, d), k, c.cumEnergy[i, d])
  }

  lemma {:induction false} AfterIsReported(c: Reader, total: (nat, nat) -> seq<nat>, k: nat)
    requires c.Valid() && 0.0 < c.unit
    requires forall i: nat, d: nat :: |total(i, d)| > k
    requires After(c, total, k)
    ensures Reported(c, total, k)
  {
    forall i: nat, d: nat | i < c.numNode && d < 4 && d in c.supported && Growing(total(i, d))
      ensures Reports(c.unit, total(i, d), k, c.cumEnergy[i, d])
    {
      EnergyReports(c.unit, total(i, d), k);
      assert c.cumEnergy[i, d] == Energy(c.unit, total(i, d), k);
    }
  }
}
