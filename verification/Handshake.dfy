/**
  The bandwidth module of the GPUs: one worker thread per device and a
  collector (`gpu_rt_read`), as a state machine over their atomic steps. POSIX
  lets pthread_cond_wait also return without a signal; `spurious` says whether
  the runs considered include such wakeups.

  Values are tagged: a record field holds the number of the broadcast after which
  the calculation that wrote it was started, 0 for none.
 */
module Handshake {
  import opened Common

  const FIELDS: nat := 5           // fields of a bandwidth record
  const MEMSET_BYTES: nat := 4     // sizeof(numDev), which is an int
  const UCHAR: nat := 256          // the range of `sum`

  datatype Mutex = Free | HeldBy(worker: nat) | HeldByCollector

  datatype Worker =
    | Starting    // before pthread_mutex_lock
    | Locked      // mutex held, before pthread_cond_wait
    | Waiting     // blocked in pthread_cond_wait
    | Woken       // signalled, before the mutex is taken again
    | Relocked    // mutex held, before pthread_mutex_unlock
    | Testing     // before the test of done[idx]
    | Computing   // in CZCudaCalcDeviceBandwidth
    | Finished    // before done[idx] = 1

  datatype Collector =
    | Idle                       // outside gpu_rt_read
    | Entered                    // before memset
    | Cleared                    // before pthread_mutex_lock
    | Holding                    // before pthread_cond_broadcast
    | Signalled                  // before pthread_mutex_unlock
    | Loop                       // at the test sum < numDev
    | Poll(i: nat)               // at the test of done[i]
    | Copy(i: nat, k: nat)       // before copying field k of device i
    | Count(i: nat)              // done[i] reset, before ++sum

  datatype State = State(
    worker: seq<Worker>,
    since: seq<nat>,             // the broadcast after which worker i started its calculation
    done: seq<int>,
    band: seq<seq<nat>>,         // devInfo[i].band
    info: seq<seq<nat>>,         // mod->info
    mutex: Mutex,
    pc: Collector,
    sum: nat,
    round: nat,                  // broadcasts so far
    copied: seq<nat>)            // devices copied in this read, in order

  /** What runs next: the collector, a worker, a worker's write of one field, or a spurious wakeup. */
  datatype Event = CollectorStep | WorkerStep(i: nat) | WorkerWrite(i: nat, k: nat) | Spurious(i: nat)

  ghost predicate Shaped(s: State) {
    var n := |s.worker|;
    && |s.since| == n && |s.done| == n && |s.band| == n && |s.info| == n
    && forall i :: 0 <= i < n ==> |s.band[i]| == FIELDS && |s.info[i]| == FIELDS
  }

  function Memset(done: seq<int>): seq<int> {
    seq(|done|, i requires 0 <= i < |done| => if i < MEMSET_BYTES then 0 else done[i])
  }

  function Broadcast(worker: seq<Worker>): seq<Worker> {
    seq(|worker|, i requires 0 <= i < |worker| => if worker[i] == Waiting then Woken else worker[i])
  }

  predicate Enabled(spurious: bool, s: State, e: Event)
    requires Shaped(s)
  {
    match e
    case CollectorStep =>
      (match s.pc
       case Cleared => s.mutex == Free
       case Poll(i) => i <= |s.worker|
       case Copy(i, k) => i < |s.worker| && k <= FIELDS
       case _ => true)
    case WorkerStep(i) =>
      && i < |s.worker|
      && (match s.worker[i]
          case Starting => s.mutex == Free
          case Waiting => false
          case Woken => s.mutex == Free
          case Computing => forall k :: 0 <= k < FIELDS ==> s.band[i][k] == s.since[i]
          case _ => true)
    case WorkerWrite(i, k) =>
      i < |s.worker| && s.worker[i] == Computing && k < FIELDS
    case Spurious(i) =>
      spurious && i < |s.worker| && s.worker[i] == Waiting
  }

  function CollectorNext(s: State): State
    requires Shaped(s) && Enabled(false, s, CollectorStep)
  {
    match s.pc
    case Idle => s.(pc := Entered, sum := 0, copied := [])
    case Entered => s.(pc := Cleared, done := Memset(s.done))
    case Cleared => s.(pc := Holding, mutex := HeldByCollector)
    case Holding => s.(pc := Signalled, worker := Broadcast(s.worker), round := s.round + 1)
    case Signalled => s.(pc := Loop, mutex := Free)
    case Loop => s.(pc := if s.sum < |s.worker| then Poll(0) else Idle)
    case Poll(i) =>
      s.(pc := if i == |s.worker| then Loop else if s.done[i] == 1 then Copy(i, 0) else Poll(i + 1))
    case Copy(i, k) =>
      if k < FIELDS then s.(pc := Copy(i, k + 1), info := s.info[i := s.info[i][k := s.band[i][k]]])
      else s.(pc := Count(i), done := s.done[i := 0], copied := s.copied + [i])
    case Count(i) => s.(pc := Poll(i + 1), sum := (s.sum + 1) % UCHAR)
  }

  function WorkerNext(s: State, i: nat): State
    requires Shaped(s) && Enabled(false, s, WorkerStep(i))
  {
    match s.worker[i]
    case Starting => s.(worker := s.worker[i := Locked], mutex := HeldBy(i))
    case Locked => s.(worker := s.worker[i := Waiting], mutex := Free)
    case Woken => s.(worker := s.worker[i := Relocked], mutex := HeldBy(i))
    case Relocked => s.(worker := s.worker[i := Testing], mutex := Free)
    case Testing =>
      if s.done[i] == 0 then s.(worker := s.worker[i := Computing], since := s.since[i := s.round])
      else s.(worker := s.worker[i := Starting])
    case Computing => s.(worker := s.worker[i := Finished])
    case Finished => s.(worker := s.worker[i := Starting], done := s.done[i := 1])
  }

  function Next(s: State, e: Event): (t: State)
    requires Shaped(s) && Enabled(true, s, e)
    ensures Shaped(t)
  {
    match e
    case CollectorStep => CollectorNext(s)
    case WorkerStep(i) => WorkerNext(s, i)
    case WorkerWrite(i, k) => s.(band := s.band[i := s.band[i][k := s.since[i]]])
    case Spurious(i) => s.(worker := s.worker[i := Woken])
  }

  /** t is reached from s by the interleaving `run`. */
  ghost predicate Reaches(spurious: bool, s: State, run: seq<Event>, t: State)
    decreases |run|
  {
    if run == [] then s == t
    else Shaped(s) && Enabled(spurious, s, run[0]) && Reaches(spurious, Next(s, run[0]), run[1..], t)
  }

  /** All threads created, none waiting yet; malloc leaves any bytes in `done`. */
  function Init(done: seq<int>): State {
    var n := |done|;
    State(seq(n, _ => Starting), seq(n, _ => 0), done, seq(n, _ => seq(FIELDS, _ => 0)),
          seq(n, _ => seq(FIELDS, _ => 0)), Free, Idle, 0, 0, [])
  }

  // ----- the property

  predicate Busy(w: Worker) {
    w.Woken? || w.Relocked? || w.Testing? || w.Computing? || w.Finished?
  }

  ghost predicate AllFields(record: seq<nat>, round: nat) {
    forall k :: 0 <= k < |record| ==> record[k] == round
  }

  /** gpu_rt_read is about to return. */
  predicate Returning(s: State) {
    s.pc == Loop && s.sum >= |s.worker|
  }

  /** Every device was copied exactly once, all fields computed after this read's broadcast. */
  ghost predicate Complete(s: State) {
    && |s.info| == |s.worker| == |s.copied| && Distinct(s.copied)
    && (forall i: nat :: i < |s.worker| ==> i in s.copied && AllFields(s.info[i], s.round))
  }

  /** A record being copied is at rest and of this round; a read that returns is complete. */
  ghost predicate Safe(s: State) {
    && (s.pc.Copy? ==> s.pc.i < |s.worker| == |s.band| && !Busy(s.worker[s.pc.i]) && AllFields(s.band[s.pc.i], s.round))
    && (Returning(s) ==> Complete(s) && |s.worker| < UCHAR)
  }

  // ----- the invariant

  /** Between a read's broadcast and its return. */
  predicate Active(pc: Collector) {
    pc.Signalled? || pc.Loop? || pc.Poll? || pc.Copy? || pc.Count?
  }

  /** Device i during a read: idle, pending, ready to be copied, or copied. */
  ghost predicate DeviceOk(s: State, i: nat)
    requires Shaped(s) && i < |s.worker|
  {
    && (Busy(s.worker[i]) ==> s.done[i] != 1 && i !in s.copied)
    && (s.worker[i].Computing? || s.worker[i].Finished? ==> s.since[i] == s.round)
    && (s.worker[i].Finished? ==> AllFields(s.band[i], s.round))
    && (s.done[i] == 1 ==> i !in s.copied && AllFields(s.band[i], s.round))
    && (i in s.copied ==> AllFields(s.info[i], s.round))
  }

  ghost predicate PcOk(s: State)
    requires Shaped(s)
  {
    match s.pc
    case Poll(i) => i <= |s.worker|
    case Copy(i, k) => i < |s.worker| && k <= FIELDS && s.done[i] == 1
                       && forall j :: 0 <= j < k ==> s.info[i][j] == s.round
    case Count(i) => i < |s.worker| && s.copied != []
    case _ => true
  }

  ghost predicate Inv(s: State) {
    && Shaped(s) && s.sum < UCHAR
    && if Active(s.pc) then
         && PcOk(s)
         && Distinct(s.copied) && (forall a :: 0 <= a < |s.copied| ==> s.copied[a] < |s.worker|)
         && s.sum == (|s.copied| - if s.pc.Count? then 1 else 0) % UCHAR
         && forall i: nat :: i < |s.worker| ==> DeviceOk(s, i)
       else
         && (s.pc.Idle? || (s.sum == 0 && s.copied == []))
         && forall i: nat :: i < |s.worker| ==>
           !Busy(s.worker[i]) && (s.pc.Cleared? || s.pc.Holding? || i >= MEMSET_BYTES ==> s.done[i] != 1)
  }

  // ----- every step keeps the invariant

  lemma {:induction false} ReturnIsComplete(s: State)
    requires Inv(s) && Returning(s)
    ensures Complete(s) && |s.worker| < UCHAR
  {
    Pigeonhole(s.copied, |s.worker|);
    forall i: nat | i < |s.worker| ensures i in s.copied && AllFields(s.info[i], s.round) {
      assert DeviceOk(s, i);
    }
  }

  lemma {:induction false} InvIsSafe(s: State)
    requires Inv(s)
    ensures Safe(s)
  {
    if Returning(s) {
      ReturnIsComplete(s);
    }
    if s.pc.Copy? {
      assert DeviceOk(s, s.pc.i);
    }
  }

  lemma {:induction false} CollectorKeepsInv(s: State)
    requires Inv(s) && Enabled(false, s, CollectorStep)
    ensures Inv(CollectorNext(s))
  {
    if s.pc.Copy? {
      CopyKeepsInv(s);
    } else if Returning(s) {
      ReturnIsComplete(s);
      forall i: nat | i < |s.worker| ensures !Busy(s.worker[i]) && s.done[i] != 1 {
        assert DeviceOk(s, i) && i in s.copied;
      }
    } else if Active(s.pc) {
      PollKeepsInv(s);
    } else if s.pc.Holding? {
      BroadcastKeepsInv(s);
    }
  }

  /** The steps of a read but copying and returning. */
  lemma {:induction false} PollKeepsInv(s: State)
    requires Inv(s) && Enabled(false, s, CollectorStep) && Active(s.pc) && !s.pc.Copy? && !Returning(s)
    ensures Inv(CollectorNext(s))
  {
    var t := CollectorNext(s);
    forall i: nat | i < |t.worker| ensures DeviceOk(t, i) {
      assert DeviceOk(s, i);
      SameDevice(s, t, i);
    }
    if s.pc.Count? {
      NextSum(|s.copied|);
    }
  }

  lemma {:induction false} SameDevice(s: State, t: State, i: nat)
    requires Shaped(s) && i < |s.worker| && DeviceOk(s, i)
    requires t == s.(pc := t.pc, mutex := t.mutex, sum := t.sum)
    ensures Shaped(t) && DeviceOk(t, i)
  {
  }

  lemma {:induction false} NextSum(n: nat)
    requires n > 0
    ensures ((n - 1) % UCHAR + 1) % UCHAR == n % UCHAR
  {
  }

  lemma {:induction false} BroadcastKeepsInv(s: State)
    requires Inv(s) && Enabled(false, s, CollectorStep) && s.pc.Holding?
    ensures Inv(CollectorNext(s))
  {
    var t := CollectorNext(s);
    forall i: nat | i < |t.worker| ensures DeviceOk(t, i) {
      assert !Busy(s.worker[i]) && s.done[i] != 1;
    }
  }

  lemma {:induction false} CopyKeepsInv(s: State)
    requires Inv(s) && s.pc.Copy?
    ensures Inv(CollectorNext(s))
  {
    var t := CollectorNext(s);
    assert DeviceOk(s, s.pc.i);
    forall i: nat | i < |t.worker| ensures DeviceOk(t, i) {
      assert DeviceOk(s, i);
    }
  }

  lemma {:induction false} WorkerKeepsInv(s: State, i: nat)
    requires Inv(s) && Enabled(false, s, WorkerStep(i))
    ensures Inv(WorkerNext(s, i))
  {
    var t := WorkerNext(s, i);
    if Active(s.pc) {
      forall j: nat | j < |t.worker| ensures DeviceOk(t, j) {
        assert DeviceOk(s, j);
      }
    }
  }

  lemma {:induction false} WriteKeepsInv(s: State, i: nat, k: nat)
    requires Inv(s) && Enabled(false, s, WorkerWrite(i, k))
    ensures Inv(Next(s, WorkerWrite(i, k)))
  {
    var t := Next(s, WorkerWrite(i, k));
    if Active(s.pc) {
      forall j: nat | j < |t.worker| ensures DeviceOk(t, j) {
        assert DeviceOk(s, j);
      }
    }
  }

  lemma {:induction false} RunKeepsInv(s: State, run: seq<Event>, t: State)
    requires Inv(s) && Reaches(false, s, run, t)
    ensures Inv(t)
    decreases |run|
  {
    if run == [] {
    } else {
      match run[0] {
        case CollectorStep => CollectorKeepsInv(s);
        case WorkerStep(i) => WorkerKeepsInv(s, i);
        case WorkerWrite(i, k) => WriteKeepsInv(s, i, k);
      }
      RunKeepsInv(Next(s, run[0]), run[1..], t);
    }
  }

  // ----- safety, and exactly when it holds

  /** The flags memset does not reach are not left at 1 by malloc. */
  predicate TailFlagsClear(done: seq<int>) {
    forall i :: MEMSET_BYTES <= i < |done| ==> done[i] != 1
  }

  lemma {:induction false} SafeRuns(done: seq<int>, run: seq<Event>, t: State)
    requires TailFlagsClear(done) && Reaches(false, Init(done), run, t)
    ensures Safe(t)
  {
    RunKeepsInv(Init(done), run, t);
    InvIsSafe(t);
  }

  /** From s some interleaving leads to a state that is not safe. */
  ghost predicate CanFail(spurious: bool, s: State) {
    exists run, t :: Reaches(spurious, s, run, t) && !Safe(t)
  }

  lemma {:induction false} CanFailBefore(spurious: bool, s: State, e: Event)
    requires Shaped(s) && Enabled(spurious, s, e) && CanFail(spurious, Next(s, e))
    ensures CanFail(spurious, s)
  {
    var run, t :| Reaches(spurious, Next(s, e), run, t) && !Safe(t);
    var run' := [e] + run;
    assert run'[1..] == run;
    assert Reaches(spurious, s, run', t);
  }

  lemma {:induction false} CanFailNow(spurious: bool, s: State)
    requires !Safe(s)
    ensures CanFail(spurious, s)
  {
    assert Reaches(spurious, s, [], s);
  }

  /** A collector that polls its way to a flag that is 1 copies a record of an older round. */
  lemma {:induction false} PollsStaleFlag(spurious: bool, s: State, i: nat)
    requires Shaped(s) && i < |s.worker| && s.done[i] == 1
    requires s.pc.Poll? && s.pc.i <= i && s.round == 1
    requires forall j :: 0 <= j < |s.worker| ==> s.band[j][0] == 0
    ensures CanFail(spurious, s)
    decreases i - s.pc.i
  {
    var t := CollectorNext(s);
    if t.pc.Copy? {
      CanFailNow(spurious, t);
    } else {
      PollsStaleFlag(spurious, t, i);
    }
    CanFailBefore(spurious, s, CollectorStep);
  }

  lemma {:induction false} StaleFlagFails(spurious: bool, done: seq<int>, i: nat)
    requires MEMSET_BYTES <= i < |done| && done[i] == 1
    ensures CanFail(spurious, Init(done))
  {
    var s0 := Init(done);
    var s1 := CollectorNext(s0);
    var s2 := CollectorNext(s1);
    var s3 := CollectorNext(s2);
    var s4 := CollectorNext(s3);
    var s5 := CollectorNext(s4);
    PollsStaleFlag(spurious, CollectorNext(s5), i);
    CanFailBefore(spurious, s5, CollectorStep);
    CanFailBefore(spurious, s4, CollectorStep);
    CanFailBefore(spurious, s3, CollectorStep);
    CanFailBefore(spurious, s2, CollectorStep);
    CanFailBefore(spurious, s1, CollectorStep);
    CanFailBefore(spurious, s0, CollectorStep);
  }

  /** Worker 0, woken by nothing before the broadcast, reports a value of the round before. */
  lemma {:induction false} SpuriousWakeupFails(done: seq<int>)
    requires done != []
    ensures CanFail(true, Init(done))
  {
    var s0 := Init(done);
    var s1 := CollectorNext(s0);
    var s2 := CollectorNext(s1);
    EarlyWorkerFails(s2);
    CanFailBefore(true, s1, CollectorStep);
    CanFailBefore(true, s0, CollectorStep);
  }

  lemma {:induction false} EarlyWorkerFails(s: State)
    requires Shaped(s) && s.worker != [] && s.worker[0] == Starting && s.done[0] == 0
    requires s.pc == Cleared && s.mutex == Free && s.round == 0 && s.sum == 0
    requires forall j :: 0 <= j < |s.worker| ==> AllFields(s.band[j], 0)
    ensures CanFail(true, s)
  {
    var s1 := WorkerNext(s, 0);
    var s2 := WorkerNext(s1, 0);
    var s3 := Next(s2, Spurious(0));
    var s4 := WorkerNext(s3, 0);
    var s5 := WorkerNext(s4, 0);
    var s6 := WorkerNext(s5, 0);
    var s7 := WorkerNext(s6, 0);
    EarlyValueFails(s7);
    CanFailBefore(true, s6, WorkerStep(0));
    CanFailBefore(true, s5, WorkerStep(0));
    CanFailBefore(true, s4, WorkerStep(0));
    CanFailBefore(true, s3, WorkerStep(0));
    CanFailBefore(true, s2, Spurious(0));
    CanFailBefore(true, s1, WorkerStep(0));
    CanFailBefore(true, s, WorkerStep(0));
  }

  lemma {:induction false} EarlyValueFails(s: State)
    requires Shaped(s) && s.worker != [] && s.worker[0] == Finished
    requires s.pc == Cleared && s.mutex == Free && s.round == 0 && s.sum == 0
    requires forall j :: 0 <= j < |s.worker| ==> AllFields(s.band[j], 0)
    ensures CanFail(true, s)
  {
    var s1 := CollectorNext(s);
    var s2 := CollectorNext(s1);
    var s3 := CollectorNext(s2);
    var s4 := CollectorNext(s3);
    var s5 := WorkerNext(s4, 0);
    PollsStaleFlag(true, s5, 0);
    CanFailBefore(true, s4, WorkerStep(0));
    CanFailBefore(true, s3, CollectorStep);
    CanFailBefore(true, s2, CollectorStep);
    CanFailBefore(true, s1, CollectorStep);
    CanFailBefore(true, s, CollectorStep);
  }

  /**
    Every interleaving of every number of reads is safe if and only if malloc
    left no flag behind the first four at 1 and, unless there is no device at
    all, no wait returns without a signal.
   */
  lemma {:induction false} SafeIff(spurious: bool, done: seq<int>)
    ensures CanFail(spurious, Init(done)) <==> !TailFlagsClear(done) || (spurious && done != [])
  {
    if !TailFlagsClear(done) {
      var i :| MEMSET_BYTES <= i < |done| && done[i] == 1;
      StaleFlagFails(spurious, done, i);
    } else if spurious && done != [] {
      SpuriousWakeupFails(done);
    } else {
      forall run, t | Reaches(spurious, Init(done), run, t) ensures Safe(t) {
        if spurious {
          NoWorkerNoWakeup(Init(done), run, t);
        }
        SafeRuns(done, run, t);
      }
    }
  }

  lemma {:induction false} NoWorkerNoWakeup(s: State, run: seq<Event>, t: State)
    requires s.worker == [] && Reaches(true, s, run, t)
    ensures Reaches(false, s, run, t)
    decreases |run|
  {
    if run == [] {
    } else {
      NoWorkerNoWakeup(Next(s, run[0]), run[1..], t);
    }
  }
}
