/**
  The processor topology: x2APIC ids split into SMT, core and package fields
  (section 8.9 of the Intel SDM, Volume 3A), and the table of packages filled
  from them.
 */
module Topology {
  import opened Common
  import opened BitField

  /** The registers of one CPUID leaf; edx holds the 32-bit x2APIC id. */
  datatype Leaf = Leaf(eax: nat, ebx: nat, edx: nat)

  /** What one CPU reports for sub-leaf 0 (SMT) and 1 (core). */
  datatype Cpu = Cpu(l0: Leaf, l1: Leaf)

  datatype ApicId = ApicId(smt: nat, core: nat, pkg: nat, os: nat)

  /**
    The mask of the low w bits is the complement of -1 shifted left by w, and the
    package mask is that shifted -1, in 64 bits.
   */
  function ParseApicId(l0: Leaf, l1: Leaf, os: nat): ApicId {
    var smtWidth := l0.eax % 32;
    var smtMask := Band(0, smtWidth);
    var coreWidth := l1.eax % 32;
    var coreMask := Xor(Band(0, coreWidth), smtMask);
    ApicId(And(l0.edx, smtMask),
           Shr(And(l1.edx, coreMask), smtWidth),
           Shr(And(l1.edx, Band(coreWidth, 64)), coreWidth),
           os)
  }

  // ----- the id is the sum of its parts

  lemma {:induction false} ShrShl(x: nat, k: nat)
    ensures Shr(Shl(x, k), k) == x
  {
    if k == 0 {
    } else {
      ShrShl(x, k - 1);
    }
  }

  lemma {:induction false} ShrOfSmall(x: nat, k: nat)
    requires x < Pow2(k)
    ensures Shr(x, k) == 0
  {
    if k == 0 {
    } else {
      ShrOfSmall(x / 2, k - 1);
    }
  }

  /** The low b bits are the field at a .. b-1 above the low a bits. */
  lemma {:induction false} LowInTwo(x: nat, a: nat, b: nat)
    requires a <= b
    ensures Low(x, b) == Shl(Extract(x, a, b - a), a) + Low(x, a)
  {
    if a == 0 {
    } else {
      LowInTwo(x / 2, a - 1, b - 1);
    }
  }

  /** Masking a band of bits and shifting it down extracts it. */
  lemma {:induction false} BandField(x: nat, lo: nat, hi: nat)
    requires lo <= hi
    ensures Shr(And(x, Band(lo, hi)), lo) == Extract(x, lo, hi - lo)
  {
    AndMask(x, lo, hi);
    LowInTwo(x, lo, hi);
    ShrShl(Extract(x, lo, hi - lo), lo);
  }

  lemma {:induction false} CoreField(x: nat, sw: nat, cw: nat)
    ensures Shr(And(x, Xor(Band(0, cw), Band(0, sw))), sw) == if sw <= cw then Extract(x, sw, cw - sw) else 0
  {
    XorMasks(cw, sw);
    if sw <= cw {
      BandField(x, sw, cw);
    } else {
      AndMask(x, cw, sw);
      ShrOfSmall(And(x, Band(cw, sw)), sw);
    }
  }

  lemma {:induction false} PkgField(x: nat, cw: nat, top: nat, bits: nat)
    requires x < Pow2(top) && top <= bits && cw <= bits
    ensures Shr(And(x, Band(cw, bits)), cw) == Shr(x, cw)
  {
    Pow2Monotone(top, bits);
    AndMask(x, cw, bits);
    LowOfSmall(x, bits);
    HighPart(x, cw);
  }

  lemma {:induction false} HighPart(x: nat, k: nat)
    ensures Low(x, k) <= x && Shr(x - Low(x, k), k) == Shr(x, k)
  {
    ShiftMask(x, k);
    ShrShl(Shr(x, k), k);
  }

  /** The three masks select the three fields of the id. */
  lemma {:induction false} ParsedFields(l0: Leaf, l1: Leaf, os: nat)
    requires l1.edx < Pow2(32)
    ensures var id, sw, cw := ParseApicId(l0, l1, os), l0.eax % 32, l1.eax % 32;
            && id.smt == Low(l0.edx, sw)
            && id.core == (if sw <= cw then Extract(l1.edx, sw, cw - sw) else 0)
            && id.pkg == Shr(l1.edx, cw)
  {
    var sw, cw := l0.eax % 32, l1.eax % 32;
    SmtField(l0.edx, sw);
    CoreField(l1.edx, sw, cw);
    PkgField(l1.edx, cw, 32, 64);
  }

  lemma {:induction false} SmtField(x: nat, sw: nat)
    ensures And(x, Band(0, sw)) == Low(x, sw)
  {
    AndMask(x, 0, sw);
    assert Low(x, 0) == 0;
  }

  /** Nothing of the id is lost, and each part is in its range. */
  lemma {:induction false} PartsMakeTheId(l0: Leaf, l1: Leaf, os: nat)
    requires l0.edx == l1.edx < Pow2(32) && l0.eax % 32 <= l1.eax % 32
    ensures var id, sw, cw := ParseApicId(l0, l1, os), l0.eax % 32, l1.eax % 32;
            && l1.edx == id.pkg * Pow2(cw) + id.core * Pow2(sw) + id.smt
            && id.smt < Pow2(sw) && id.core < Pow2(cw - sw)
  {
    var sw, cw := l0.eax % 32, l1.eax % 32;
    ParsedFields(l0, l1, os);
    FieldsMakeTheWord(l1.edx, sw, cw);
  }

  lemma {:induction false} FieldsMakeTheWord(x: nat, sw: nat, cw: nat)
    requires sw <= cw
    ensures x == Shr(x, cw) * Pow2(cw) + Extract(x, sw, cw - sw) * Pow2(sw) + Low(x, sw)
  {
    ShiftMask(x, cw);
    LowInTwo(x, sw, cw);
    ShlIsProduct(Shr(x, cw), cw);
    ShlIsProduct(Extract(x, sw, cw - sw), sw);
  }

  /** Distinct ids have distinct triples, whatever the two widths are. */
  lemma {:induction false} TriplesAreInjective(a0: Leaf, a1: Leaf, b0: Leaf, b1: Leaf, i: nat, j: nat)
    requires a0.edx == a1.edx < Pow2(32) && b0.edx == b1.edx < Pow2(32)
    requires a0.eax % 32 == b0.eax % 32 && a1.eax % 32 == b1.eax % 32
    requires var a, b := ParseApicId(a0, a1, i), ParseApicId(b0, b1, j);
             a.smt == b.smt && a.core == b.core && a.pkg == b.pkg
    ensures a1.edx == b1.edx
  {
    ParsedFields(a0, a1, i);
    ParsedFields(b0, b1, j);
    FieldsDetermine(a1.edx, b1.edx, a0.eax % 32, a1.eax % 32);
  }

  lemma {:induction false} FieldsDetermine(x: nat, y: nat, sw: nat, cw: nat)
    requires Low(x, sw) == Low(y, sw) && Shr(x, cw) == Shr(y, cw)
    requires sw <= cw ==> Extract(x, sw, cw - sw) == Extract(y, sw, cw - sw)
    ensures x == y
  {
    ShiftMask(x, cw);
    ShiftMask(y, cw);
    if sw <= cw {
      LowInTwo(x, sw, cw);
      LowInTwo(y, sw, cw);
    } else {
      LowLow(x, cw, sw);
      LowLow(y, cw, sw);
    }
  }

  // ----- the table of packages

  function IdOf(cpus: seq<Cpu>, i: nat): ApicId
    requires i < |cpus|
  {
    ParseApicId(cpus[i].l0, cpus[i].l1, i)
  }

  /** os_map after all CPUs were asked. */
  function OsMap(cpus: seq<Cpu>): (os: seq<ApicId>)
    ensures |os| == |cpus|
  {
    FirstIds(cpus, |cpus|)
  }

  function FirstIds(cpus: seq<Cpu>, k: nat): (os: seq<ApicId>)
    requires k <= |cpus|
    ensures |os| == k
  {
    if k == 0 then [] else FirstIds(cpus, k - 1) + [IdOf(cpus, k - 1)]
  }

  lemma {:induction false} FirstIdsAt(cpus: seq<Cpu>, k: nat, i: nat)
    requires i < k <= |cpus|
    ensures FirstIds(cpus, k)[i] == IdOf(cpus, i)
  {
    if i == k - 1 {
    } else {
      FirstIdsAt(cpus, k - 1, i);
    }
  }

  lemma {:induction false} OsMapAt(cpus: seq<Cpu>, i: nat)
    requires i < |cpus|
    ensures OsMap(cpus)[i] == IdOf(cpus, i)
  {
    FirstIdsAt(cpus, |cpus|, i);
  }

  /** The largest package id of the first k CPUs. */
  function MaxPkg(os: seq<ApicId>, k: nat): nat
    requires k <= |os|
  {
    if k == 0 then 0
    else if os[k - 1].pkg > MaxPkg(os, k - 1) then os[k - 1].pkg
    else MaxPkg(os, k - 1)
  }

  predicate PkgsBelow(os: seq<ApicId>, k: nat, nodes: nat)
    requires k <= |os|
  {
    forall i :: 0 <= i < k ==> os[i].pkg < nodes
  }

  lemma {:induction false} MaxPkgIsLargest(os: seq<ApicId>, k: nat)
    requires k <= |os|
    ensures PkgsBelow(os, k, MaxPkg(os, k) + 1)
    ensures MaxPkg(os, k) > 0 ==> exists i :: 0 <= i < k && os[i].pkg == MaxPkg(os, k)
  {
    if k == 0 {
    } else {
      MaxPkgIsLargest(os, k - 1);
    }
  }

  function Nodes(cpus: seq<Cpu>): nat {
    MaxPkg(OsMap(cpus), |cpus|) + 1
  }

  lemma {:induction false} QuotientIs(a: nat, b: nat)
    requires b > 0
    ensures Quotient(a, b) * b <= a < (Quotient(a, b) + 1) * b
  {
    assert a == a / b * b + a % b;
  }

  /** The counts, in terms of what the CPU asked last reported. */
  lemma {:induction false} CountsAre(cpus: seq<Cpu>)
    requires cpus != []
    ensures CoreThreads(cpus) == cpus[|cpus| - 1].l0.ebx % 65536
    ensures PkgThreads(cpus) == cpus[|cpus| - 1].l1.ebx % 65536
    ensures CoreThreads(cpus) > 0 ==>
              PkgCores(cpus) * CoreThreads(cpus) <= PkgThreads(cpus) < (PkgCores(cpus) + 1) * CoreThreads(cpus)
  {
    if CoreThreads(cpus) > 0 {
      QuotientIs(PkgThreads(cpus), CoreThreads(cpus));
    }
  }

  /** Package numbers go from 0 to the largest that occurs. */
  lemma {:induction false} NodesAre(cpus: seq<Cpu>)
    ensures forall i :: 0 <= i < |cpus| ==> IdOf(cpus, i).pkg < Nodes(cpus)
    ensures Nodes(cpus) == 1 || exists i :: 0 <= i < |cpus| && IdOf(cpus, i).pkg == Nodes(cpus) - 1
  {
    var os := OsMap(cpus);
    MaxPkgIsLargest(os, |os|);
    forall i | 0 <= i < |cpus| ensures os[i] == IdOf(cpus, i) {
      OsMapAt(cpus, i);
    }
  }

  /** The low 16 bits. */
  function Low16(x: nat): nat {
    x % 65536
  }

  /** The thread counts come from the CPU asked last. */
  function CoreThreads(cpus: seq<Cpu>): nat
    requires cpus != []
  {
    Low16(cpus[|cpus| - 1].l0.ebx)
  }

  function PkgThreads(cpus: seq<Cpu>): nat
    requires cpus != []
  {
    Low16(cpus[|cpus| - 1].l1.ebx)
  }

  function PkgCores(cpus: seq<Cpu>): nat
    requires cpus != [] && CoreThreads(cpus) > 0
  {
    Quotient(PkgThreads(cpus), CoreThreads(cpus))
  }

  function Quotient(a: nat, b: nat): nat
    requires b > 0
  {
    a / b
  }

  function SlotOf(id: ApicId, pkgCores: nat): nat {
    id.smt * pkgCores + id.core
  }

  /** What the first k placements left in slot t of package p: the last one wins. */
  function Placed(os: seq<ApicId>, pkgCores: nat, k: nat, p: nat, t: nat): Option<ApicId>
    requires k <= |os|
  {
    if k == 0 then None
    else if os[k - 1].pkg == p && SlotOf(os[k - 1], pkgCores) == t then Some(os[k - 1])
    else Placed(os, pkgCores, k - 1, p, t)
  }

  /** Every placement lands inside the row of its package. */
  ghost predicate InBounds(os: seq<ApicId>, pkgCores: nat, pkgThreads: nat) {
    forall i :: 0 <= i < |os| ==> SlotOf(os[i], pkgCores) < pkgThreads
  }

  /** The table after the first k placements. */
  ghost predicate Holds(table: array2<ApicId>, os: seq<ApicId>, pkgCores: nat, k: nat)
    requires k <= |os|
    reads table
  {
    forall p: nat, t: nat | p < table.Length0 && t < table.Length1 ::
      Placed(os, pkgCores, k, p, t).Some? ==> table[p, t] == Placed(os, pkgCores, k, p, t).value
  }

  class Machine {
    var numCoreThreads: nat
    var numPkgThreads: nat
    var numPkgCores: nat
    var numNodes: nat
    var osMap: array<ApicId>
    var pkgMap: array2<ApicId>

    constructor ()
    {
      osMap := new ApicId[0];
      pkgMap := new ApicId[0, 0];
      numCoreThreads, numPkgThreads, numPkgCores, numNodes := 0, 0, 0, 0;
    }

    /**
      Slots that no CPU is placed in keep whatever malloc left there. The model
      stops where the code would write outside a row. `bound` and `restored` are
      the results of moving to each CPU and back; only the last one is returned.
     */
    method BuildTopology(cpus: seq<Cpu>, bound: seq<int>, restored: seq<int>) returns (inside: bool, err: int)
      requires cpus != [] && CoreThreads(cpus) > 0 && |bound| == |restored| == |cpus|
      modifies this
      ensures err == restored[|cpus| - 1]
      ensures numCoreThreads == cpus[|cpus| - 1].l0.ebx % 65536 && numPkgThreads == cpus[|cpus| - 1].l1.ebx % 65536
      ensures numPkgCores * numCoreThreads <= numPkgThreads < (numPkgCores + 1) * numCoreThreads
      ensures forall i :: 0 <= i < |cpus| ==> IdOf(cpus, i).pkg < numNodes
      ensures numNodes == 1 || exists i :: 0 <= i < |cpus| && IdOf(cpus, i).pkg == numNodes - 1
      ensures inside <==> InBounds(OsMap(cpus), PkgCores(cpus), PkgThreads(cpus))
      ensures osMap[..] == OsMap(cpus)
      ensures numCoreThreads == CoreThreads(cpus) && numPkgThreads == PkgThreads(cpus)
      ensures numPkgCores == PkgCores(cpus) && numNodes == Nodes(cpus)
      ensures pkgMap.Length0 == numNodes && pkgMap.Length1 == numPkgThreads
      ensures inside ==> Holds(pkgMap, OsMap(cpus), numPkgCores, |cpus|)
    {
      ghost var os := OsMap(cpus);
      var maxPkg;
      maxPkg, err := ReadCpus(cpus, bound, restored, os);
      numPkgCores := Quotient(numPkgThreads, numCoreThreads);
      MaxPkgIsLargest(os, |os|);
      inside := MakePkgMap(maxPkg, os);
      CountsAre(cpus);
      NodesAre(cpus);
    }

    /** What CPU i answers. */
    static method AskCpu(cpus: seq<Cpu>, i: nat, ghost os: seq<ApicId>) returns (id: ApicId)
      requires i < |cpus| && os == OsMap(cpus)
      ensures id == os[i]
    {
      OsMapAt(cpus, i);
      id := ParseApicId(cpus[i].l0, cpus[i].l1, i);
    }

    /** The second half: the rows, and every CPU into its slot. */
    method MakePkgMap(maxPkg: nat, ghost os: seq<ApicId>) returns (inside: bool)
      requires os == osMap[..] && PkgsBelow(os, |os|, maxPkg + 1)
      modifies this`numNodes, this`pkgMap
      ensures numNodes == maxPkg + 1
      ensures pkgMap.Length0 == numNodes && pkgMap.Length1 == numPkgThreads
      ensures inside <==> InBounds(os, numPkgCores, numPkgThreads)
      ensures inside ==> Holds(pkgMap, os, numPkgCores, |os|)
    {
      numNodes := maxPkg + 1;
      inside, pkgMap := PlaceCpus(osMap, numPkgCores, numNodes, numPkgThreads);
    }

    /** The first loop: ask every CPU in turn. */
    method ReadCpus(cpus: seq<Cpu>, bound: seq<int>, restored: seq<int>, ghost os: seq<ApicId>)
      returns (maxPkg: nat, err: int)
      requires cpus != [] && os == OsMap(cpus) && |bound| == |restored| == |cpus|
      modifies this
      ensures err == restored[|cpus| - 1]
      ensures osMap[..] == os && maxPkg == MaxPkg(os, |os|)
      ensures numCoreThreads == CoreThreads(cpus) && numPkgThreads == PkgThreads(cpus)
    {
      var ids := new ApicId[|cpus|];
      var coreThreads, pkgThreads := 0, 0;
      maxPkg, err := 0, 0;
      for i := 0 to |cpus|
        invariant ids[..i] == os[..i] && maxPkg == MaxPkg(os, i)
        invariant i > 0 ==> err == restored[i - 1]
        invariant i > 0 ==> coreThreads == Low16(cpus[i - 1].l0.ebx)
                            && pkgThreads == Low16(cpus[i - 1].l1.ebx)
      {
        err := bound[i];
        var id := AskCpu(cpus, i, os);
        ids[i] := id;
        coreThreads, pkgThreads := Low16(cpus[i].l0.ebx), Low16(cpus[i].l1.ebx);
        if id.pkg > maxPkg {
          maxPkg := id.pkg;
        }
        err := restored[i];
      }
      osMap, numCoreThreads, numPkgThreads := ids, coreThreads, pkgThreads;
    }

    /** The second loop: every CPU into the row of its package. */
    static method PlaceCpus(osMap: array<ApicId>, pkgCores: nat, nodes: nat, pkgThreads: nat)
      returns (inside: bool, table: array2<ApicId>)
      requires PkgsBelow(osMap[..], osMap.Length, nodes)
      ensures fresh(table) && table.Length0 == nodes && table.Length1 == pkgThreads
      ensures inside <==> InBounds(osMap[..], pkgCores, pkgThreads)
      ensures inside ==> Holds(table, osMap[..], pkgCores, osMap.Length)
    {
      ghost var os := osMap[..];
      table := new ApicId[nodes, pkgThreads];
      for i := 0 to osMap.Length
        invariant osMap[..] == os && Holds(table, os, pkgCores, i)
        invariant forall k :: 0 <= k < i ==> SlotOf(os[k], pkgCores) < pkgThreads
      {
        assert osMap[i] == os[i];
        var t := SlotOf(osMap[i], pkgCores);
        if t >= pkgThreads {
          return false, table;
        }
        table[osMap[i].pkg, t] := osMap[i];
      }
      inside := true;
    }

    /** `pkg_node_to_cpu` */
    function PkgNodeToCpu(node: nat): nat
      requires node < pkgMap.Length0 && pkgMap.Length1 > 0
      reads this, pkgMap
    {
      pkgMap[node, 0].os
    }
  }

  // ----- placements

  /** Core ids below the number of cores, SMT ids below the number of threads. */
  predicate Contiguous(os: seq<ApicId>, coreThreads: nat, pkgCores: nat) {
    forall i :: 0 <= i < |os| ==> os[i].smt < coreThreads && os[i].core < pkgCores
  }

  predicate DistinctIds(os: seq<ApicId>) {
    forall i, j :: 0 <= i < j < |os| ==>
      (os[i].smt, os[i].core, os[i].pkg) != (os[j].smt, os[j].core, os[j].pkg)
  }

  lemma {:induction false} MulMonotone(a: nat, b: nat, c: nat)
    requires a <= b
    ensures a * c <= b * c
  {
  }

  lemma {:induction false} MixedRadix(x: nat, y: nat, n: nat, x': nat, y': nat)
    requires y < n && y' < n && x * n + y == x' * n + y'
    ensures x == x' && y == y'
  {
    MulMonotone(x + 1, if x < x' then x' else x + 1, n);
    MulMonotone(x' + 1, if x' < x then x else x' + 1, n);
  }

  lemma {:induction false} MixedRadixBound(x: nat, y: nat, n: nat, m: nat)
    requires y < n && x < m
    ensures x * n + y < m * n
  {
    MulMonotone(x + 1, m, n);
  }

  lemma {:induction false} SlotBound(id: ApicId, coreThreads: nat, pkgThreads: nat)
    requires coreThreads > 0
    requires id.smt < coreThreads && id.core < pkgThreads / coreThreads
    ensures SlotOf(id, pkgThreads / coreThreads) < coreThreads * (pkgThreads / coreThreads) <= pkgThreads
  {
    MixedRadixBound(id.smt, id.core, pkgThreads / coreThreads, coreThreads);
  }

  lemma {:induction false} PlacedIff(os: seq<ApicId>, pkgCores: nat, k: nat, p: nat, t: nat)
    requires k <= |os|
    ensures Placed(os, pkgCores, k, p, t).Some? <==>
            exists i :: 0 <= i < k && os[i].pkg == p && SlotOf(os[i], pkgCores) == t
    ensures Placed(os, pkgCores, k, p, t).Some? ==>
            var id := Placed(os, pkgCores, k, p, t).value;
            id in os && id.pkg == p && SlotOf(id, pkgCores) == t
  {
    if k == 0 {
    } else {
      PlacedIff(os, pkgCores, k - 1, p, t);
    }
  }

  /** No placement overwrites another: every CPU is found in its own slot. */
  lemma {:induction false} EveryCpuPlaced(os: seq<ApicId>, coreThreads: nat, pkgCores: nat, k: nat, i: nat)
    requires Contiguous(os, coreThreads, pkgCores) && DistinctIds(os)
    requires i < k <= |os|
    ensures Placed(os, pkgCores, k, os[i].pkg, SlotOf(os[i], pkgCores)) == Some(os[i])
  {
    var j := k - 1;
    if i == j {
    } else {
      if os[j].pkg == os[i].pkg && SlotOf(os[j], pkgCores) == SlotOf(os[i], pkgCores) {
        MixedRadix(os[j].smt, os[j].core, pkgCores, os[i].smt, os[i].core);
      }
      EveryCpuPlaced(os, coreThreads, pkgCores, k - 1, i);
    }
  }

  /** The slot index, as a row of cores and a place in it. */
  function Fold(id: ApicId, pkgCores: nat): (nat, nat) {
    if pkgCores == 0 then (0, id.core) else (id.smt + id.core / pkgCores, id.core % pkgCores)
  }

  lemma {:induction false} SlotIsFold(id: ApicId, pkgCores: nat)
    ensures SlotOf(id, pkgCores) == Fold(id, pkgCores).0 * pkgCores + Fold(id, pkgCores).1
  {
    if pkgCores == 0 {
    } else {
      Carry(id.smt, id.core / pkgCores, id.core % pkgCores, pkgCores);
      assert id.core == id.core / pkgCores * pkgCores + id.core % pkgCores;
    }
  }

  lemma {:induction false} Carry(x: nat, q: nat, m: nat, n: nat)
    ensures (x + q) * n + m == x * n + (q * n + m)
  {
  }

  lemma {:induction false} SameSlotIff(a: ApicId, b: ApicId, pkgCores: nat)
    ensures SlotOf(a, pkgCores) == SlotOf(b, pkgCores) <==> Fold(a, pkgCores) == Fold(b, pkgCores)
  {
    SlotIsFold(a, pkgCores);
    SlotIsFold(b, pkgCores);
    if pkgCores > 0 && SlotOf(a, pkgCores) == SlotOf(b, pkgCores) {
      MixedRadix(Fold(a, pkgCores).0, Fold(a, pkgCores).1, pkgCores, Fold(b, pkgCores).0, Fold(b, pkgCores).1);
    }
  }

  /** Two CPUs of a package whose SMT and core ids fold to the same place. */
  predicate Clash(a: ApicId, b: ApicId, pkgCores: nat) {
    a.pkg == b.pkg && Fold(a, pkgCores) == Fold(b, pkgCores)
  }

  predicate NoClash(os: seq<ApicId>, pkgCores: nat) {
    forall i, j :: 0 <= i < j < |os| ==> !Clash(os[i], os[j], pkgCores)
  }

  predicate Kept(os: seq<ApicId>, pkgCores: nat, k: nat, i: nat)
    requires i < |os| && k <= |os|
  {
    Placed(os, pkgCores, k, os[i].pkg, SlotOf(os[i], pkgCores)) == Some(os[i])
  }

  lemma {:induction false} KeptWithoutClash(os: seq<ApicId>, pkgCores: nat, k: nat, i: nat)
    requires NoClash(os, pkgCores) && i < k <= |os|
    ensures Kept(os, pkgCores, k, i)
  {
    if i == k - 1 {
    } else {
      assert !Clash(os[i], os[k - 1], pkgCores);
      SameSlotIff(os[i], os[k - 1], pkgCores);
      KeptWithoutClash(os, pkgCores, k - 1, i);
    }
  }

  /** No CPU is overwritten exactly when no two of a package fold to the same place, gaps in the core ids or not. */
  lemma {:induction false} NoOverwriteIff(os: seq<ApicId>, pkgCores: nat)
    requires Distinct(os)
    ensures (forall i: nat :: i < |os| ==> Kept(os, pkgCores, |os|, i)) <==> NoClash(os, pkgCores)
  {
    if NoClash(os, pkgCores) {
      forall i: nat | i < |os| ensures Kept(os, pkgCores, |os|, i) {
        KeptWithoutClash(os, pkgCores, |os|, i);
      }
    }
    if forall i: nat :: i < |os| ==> Kept(os, pkgCores, |os|, i) {
      forall i: nat, j: nat | i < j < |os| ensures !Clash(os[i], os[j], pkgCores) {
        assert Kept(os, pkgCores, |os|, i) && Kept(os, pkgCores, |os|, j);
        SameSlotIff(os[i], os[j], pkgCores);
      }
    }
  }

  /** On any machine: every CPU is found in its slot exactly when no two of a package fold to the same place. */
  lemma {:induction false} AllCpusKeptIff(cpus: seq<Cpu>, pkgCores: nat)
    ensures (forall i: nat :: i < |cpus| ==> Kept(OsMap(cpus), pkgCores, |cpus|, i)) <==> NoClash(OsMap(cpus), pkgCores)
  {
    var os := OsMap(cpus);
    forall i, j | 0 <= i < j < |os| ensures os[i] != os[j] {
      OsMapAt(cpus, i);
      OsMapAt(cpus, j);
    }
    NoOverwriteIff(os, pkgCores);
  }

  /** Of two CPUs that fold to the same place the later one is kept. */
  lemma {:induction false} LaterWins(a: ApicId, b: ApicId, pkgCores: nat)
    requires Clash(a, b, pkgCores) && a != b
    ensures !Kept([a, b], pkgCores, 2, 0) && Kept([a, b], pkgCores, 2, 1)
  {
    SameSlotIff(a, b, pkgCores);
  }

  /**
    A gap in the core ids: in a package of n cores, the first thread of a core
    numbered n takes the slot of the second thread of core 0.
   */
  lemma {:induction false} GapExample(n: nat, a: ApicId, b: ApicId)
    requires n > 0 && a == ApicId(1, 0, 0, 0) && b == ApicId(0, n, 0, 1)
    ensures !Kept([a, b], n, 2, 0) && Kept([a, b], n, 2, 1)
  {
    SelfQuotient(n);
    LaterWins(a, b, n);
  }

  lemma {:induction false} SelfQuotient(n: nat)
    requires n > 0
    ensures n / n == 1 && n % n == 0 && 0 / n == 0 && 0 % n == 0
  {
  }

  predicate SameWidths(cpus: seq<Cpu>) {
    forall i, j :: 0 <= i < j < |cpus| ==>
      cpus[i].l0.eax % 32 == cpus[j].l0.eax % 32 && cpus[i].l1.eax % 32 == cpus[j].l1.eax % 32
  }

  /** Every CPU reports one 32-bit x2APIC id in both leaves, and no two the same. */
  predicate DistinctX2ApicIds(cpus: seq<Cpu>) {
    && (forall i :: 0 <= i < |cpus| ==> cpus[i].l0.edx == cpus[i].l1.edx < Pow2(32))
    && (forall i, j :: 0 <= i < j < |cpus| ==> cpus[i].l1.edx != cpus[j].l1.edx)
  }

  /** On CPUs that agree on the widths, distinct x2APIC ids make distinct placements. */
  lemma {:induction false} DistinctApicIds(cpus: seq<Cpu>)
    requires SameWidths(cpus) && DistinctX2ApicIds(cpus)
    ensures DistinctIds(OsMap(cpus))
  {
    var os := OsMap(cpus);
    forall i, j | 0 <= i < j < |os|
      ensures (os[i].smt, os[i].core, os[i].pkg) != (os[j].smt, os[j].core, os[j].pkg)
    {
      OsMapAt(cpus, i);
      OsMapAt(cpus, j);
      if (os[i].smt, os[i].core, os[i].pkg) == (os[j].smt, os[j].core, os[j].pkg) {
        TriplesAreInjective(cpus[i].l0, cpus[i].l1, cpus[j].l0, cpus[j].l1, i, j);
      }
    }
  }

  /** A slot's number when the rows are laid end to end. */
  function Number(p: nat, t: nat, slots: nat): nat {
    p * slots + t
  }

  lemma {:induction false} SlotNumber(id: ApicId, coreThreads: nat, pkgCores: nat, nodes: nat)
    requires id.smt < coreThreads && id.core < pkgCores && id.pkg < nodes
    ensures var slots := coreThreads * pkgCores;
            SlotOf(id, pkgCores) < slots && Number(id.pkg, SlotOf(id, pkgCores), slots) < nodes * slots
  {
    MixedRadixBound(id.smt, id.core, pkgCores, coreThreads);
    MixedRadixBound(id.pkg, SlotOf(id, pkgCores), coreThreads * pkgCores, nodes);
  }

  lemma {:induction false} NumberIsInjective(p: nat, t: nat, p': nat, t': nat, slots: nat)
    requires t < slots && t' < slots && Number(p, t, slots) == Number(p', t', slots)
    ensures p == p' && t == t'
  {
    MixedRadix(p, t, slots, p', t');
  }

  /** With as many CPUs as slots every slot is filled. */
  lemma {:induction false} FullMachineFillsAllSlots(os: seq<ApicId>, coreThreads: nat, pkgCores: nat, nodes: nat,
                                                    p: nat, t: nat)
    requires Contiguous(os, coreThreads, pkgCores) && DistinctIds(os)
    requires forall i :: 0 <= i < |os| ==> os[i].pkg < nodes
    requires |os| == nodes * (coreThreads * pkgCores)
    requires p < nodes && t < coreThreads * pkgCores
    ensures Placed(os, pkgCores, |os|, p, t).Some?
  {
    var slots := coreThreads * pkgCores;
    var numbers: seq<nat> := seq(|os|, i requires 0 <= i < |os| => Number(os[i].pkg, SlotOf(os[i], pkgCores), slots));
    forall i | 0 <= i < |os| ensures SlotOf(os[i], pkgCores) < slots && numbers[i] < nodes * slots {
      SlotNumber(os[i], coreThreads, pkgCores, nodes);
    }
    forall i, j | 0 <= i < j < |os| ensures numbers[i] != numbers[j] {
      if numbers[i] == numbers[j] {
        NumberIsInjective(os[i].pkg, SlotOf(os[i], pkgCores), os[j].pkg, SlotOf(os[j], pkgCores), slots);
        MixedRadix(os[i].smt, os[i].core, pkgCores, os[j].smt, os[j].core);
      }
    }
    Pigeonhole(numbers, nodes * slots);
    MixedRadixBound(p, t, slots, nodes);
    var n: nat := Number(p, t, slots);
    assert n in numbers;
    var i :| 0 <= i < |os| && numbers[i] == n;
    NumberIsInjective(os[i].pkg, SlotOf(os[i], pkgCores), p, t, slots);
    PlacedIff(os, pkgCores, |os|, p, t);
  }

  /** Slot 0 of a package, which pkg_node_to_cpu reads, is filled exactly when its first thread of core 0 is online. */
  lemma {:induction false} FirstSlotIff(os: seq<ApicId>, coreThreads: nat, pkgCores: nat, node: nat)
    requires Contiguous(os, coreThreads, pkgCores)
    ensures Placed(os, pkgCores, |os|, node, 0).Some? <==>
            exists i :: 0 <= i < |os| && os[i].pkg == node && os[i].smt == 0 && os[i].core == 0
    ensures Placed(os, pkgCores, |os|, node, 0).Some? ==> Placed(os, pkgCores, |os|, node, 0).value.pkg == node
  {
    PlacedIff(os, pkgCores, |os|, node, 0);
    forall i | 0 <= i < |os| ensures SlotOf(os[i], pkgCores) == 0 <==> os[i].smt == 0 && os[i].core == 0 {
      if os[i].smt > 0 {
        assert os[i].smt * pkgCores >= pkgCores;
      }
    }
  }

  /**
    The table that BuildTopology leaves: every CPU stands in its slot and nowhere
    else, and on a full machine pkg_node_to_cpu names a CPU of the package.
   */
  predicate FirstThread(id: ApicId, node: nat) {
    id.pkg == node && id.smt == 0 && id.core == 0
  }

  lemma {:induction false} SlotZero(id: ApicId, pkgCores: nat)
    requires pkgCores > 0 && SlotOf(id, pkgCores) == 0
    ensures id.smt == 0 && id.core == 0
  {
    if id.smt > 0 {
      MulMonotone(1, id.smt, pkgCores);
    }
  }

  lemma {:induction false} TableIsComplete(table: array2<ApicId>, os: seq<ApicId>, coreThreads: nat, pkgCores: nat)
    requires Contiguous(os, coreThreads, pkgCores) && DistinctIds(os)
    requires Holds(table, os, pkgCores, |os|)
    requires table.Length1 >= coreThreads * pkgCores > 0
    requires forall i :: 0 <= i < |os| ==> os[i].pkg < table.Length0
    ensures forall i, p: nat, t: nat ::
              0 <= i < |os| && p < table.Length0 && t < table.Length1 && Placed(os, pkgCores, |os|, p, t).Some? ==>
              (table[p, t] == os[i] <==> p == os[i].pkg && t == SlotOf(os[i], pkgCores))
    ensures forall i :: 0 <= i < |os| ==>
              && SlotOf(os[i], pkgCores) < table.Length1
              && table[os[i].pkg, SlotOf(os[i], pkgCores)] == os[i]
    ensures |os| == table.Length0 * (coreThreads * pkgCores) ==>
              forall node: nat :: node < table.Length0 ==> table[node, 0] in os && FirstThread(table[node, 0], node)
  {
    forall i | 0 <= i < |os|
      ensures SlotOf(os[i], pkgCores) < table.Length1 && table[os[i].pkg, SlotOf(os[i], pkgCores)] == os[i]
    {
      SlotNumber(os[i], coreThreads, pkgCores, table.Length0);
      EveryCpuPlaced(os, coreThreads, pkgCores, |os|, i);
    }
    forall p: nat, t: nat | p < table.Length0 && t < table.Length1 && Placed(os, pkgCores, |os|, p, t).Some?
      ensures table[p, t] in os && table[p, t].pkg == p && SlotOf(table[p, t], pkgCores) == t
    {
      PlacedIff(os, pkgCores, |os|, p, t);
    }
    if |os| == table.Length0 * (coreThreads * pkgCores) {
      forall node: nat | node < table.Length0
        ensures table[node, 0] in os && FirstThread(table[node, 0], node)
      {
        FullMachineFillsAllSlots(os, coreThreads, pkgCores, table.Length0, node, 0);
        SlotZero(table[node, 0], pkgCores);
      }
    }
  }

  /**
    A whole machine: CPUs that agree on widths and counts, with distinct x2APIC
    ids, core and SMT ids below their counts, and as many CPUs as there are
    packages times cores times threads. After build_topology, pkg_node_to_cpu
    names the first thread of core 0 of the package it is asked for.
   */
  method BuildFullMachine(m: Machine, cpus: seq<Cpu>, bound: seq<int>, restored: seq<int>,
                          ghost threads: nat, ghost cores: nat)
    requires cpus != [] && |bound| == |restored| == |cpus|
    requires SameWidths(cpus) && DistinctX2ApicIds(cpus)
    requires threads == cpus[|cpus| - 1].l0.ebx % 65536 > 0
    requires cores * threads <= cpus[|cpus| - 1].l1.ebx % 65536 < (cores + 1) * threads
    requires forall i :: 0 <= i < |cpus| ==> IdOf(cpus, i).smt < threads && IdOf(cpus, i).core < cores
    requires |cpus| == Nodes(cpus) * (threads * cores)
    modifies m
    ensures m.numNodes == Nodes(cpus) == m.pkgMap.Length0 && m.pkgMap.Length1 > 0 && m.numPkgCores == cores
    ensures forall node: nat :: node < m.numNodes ==>
              m.PkgNodeToCpu(node) < |cpus| && FirstThread(IdOf(cpus, m.PkgNodeToCpu(node)), node)
  {
    ghost var os := OsMap(cpus);
    SameQuotient(cpus, cores, threads);
    forall i | 0 <= i < |os| ensures os[i] == IdOf(cpus, i) && os[i].os == i {
      OsMapAt(cpus, i);
    }
    forall i | 0 <= i < |os| ensures SlotOf(os[i], cores) < PkgThreads(cpus) {
      SlotBound(os[i], threads, PkgThreads(cpus));
    }
    var inside, err := m.BuildTopology(cpus, bound, restored);
    DistinctApicIds(cpus);
    SlotBound(os[0], threads, PkgThreads(cpus));
    MaxPkgIsLargest(os, |os|);
    TableIsComplete(m.pkgMap, os, threads, cores);
  }

  lemma {:induction false} SameQuotient(cpus: seq<Cpu>, cores: nat, threads: nat)
    requires cpus != [] && threads == cpus[|cpus| - 1].l0.ebx % 65536 > 0
    requires cores * threads <= cpus[|cpus| - 1].l1.ebx % 65536 < (cores + 1) * threads
    ensures CoreThreads(cpus) == threads && PkgCores(cpus) == cores == PkgThreads(cpus) / threads
  {
    var a := PkgThreads(cpus);
    DivUnique(a, threads, cores, a - cores * threads);
  }

  /**
    On a machine whose cores are complete, the placements stay inside the rows
    exactly when the core ids are below the number of cores.
   */
  lemma {:induction false} InBoundsIff(os: seq<ApicId>, coreThreads: nat, pkgCores: nat)
    requires coreThreads > 0
    requires forall i :: 0 <= i < |os| ==> os[i].smt < coreThreads
    requires forall i :: 0 <= i < |os| ==> HasLastThread(os, os[i].core, coreThreads)
    ensures InBounds(os, pkgCores, coreThreads * pkgCores) <==> Contiguous(os, coreThreads, pkgCores)
  {
    forall i | 0 <= i < |os| && os[i].core < pkgCores
      ensures SlotOf(os[i], pkgCores) < coreThreads * pkgCores
    {
      MixedRadixBound(os[i].smt, os[i].core, pkgCores, coreThreads);
    }
    if i :| 0 <= i < |os| && os[i].core >= pkgCores {
      assert HasLastThread(os, os[i].core, coreThreads);
      var j :| 0 <= j < |os| && os[j].core == os[i].core && os[j].smt == coreThreads - 1;
      LastThreadOutside(os[j], coreThreads, pkgCores);
    }
  }

  predicate HasLastThread(os: seq<ApicId>, core: nat, coreThreads: nat) {
    exists j :: 0 <= j < |os| && os[j].core == core && os[j].smt == coreThreads - 1
  }

  lemma {:induction false} LastThreadOutside(id: ApicId, coreThreads: nat, n: nat)
    requires coreThreads > 0 && id.smt == coreThreads - 1 && id.core >= n
    ensures SlotOf(id, n) >= coreThreads * n
  {
    assert (coreThreads - 1) * n + n == coreThreads * n;
  }
}
