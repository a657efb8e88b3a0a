/**
  Reads of the GPU bandwidth module that can return. A worker that is not waiting
  misses the broadcast, so a read need not return; this module says exactly which
  ones still can.
 */
module HandshakeReturn {
  import opened Common
  import opened Handshake

  // ----- who holds the mutex

  /** The mutex is held exactly by the thread that stands between taking it and giving it back. */
  ghost predicate MutexOk(s: State) {
    && (s.mutex.HeldBy? ==> s.mutex.worker < |s.worker|)
    && (forall i: nat :: i < |s.worker| ==> (s.mutex == HeldBy(i) <==> s.worker[i].Locked? || s.worker[i].Relocked?))
    && (s.mutex == HeldByCollector <==> s.pc.Holding? || s.pc.Signalled?)
  }

  lemma {:induction false} StepKeepsMutex(s: State, e: Event)
    requires Shaped(s) && Enabled(false, s, e) && MutexOk(s)
    ensures MutexOk(Next(s, e))
  {
  }

  lemma {:induction false} StepKeepsInv(s: State, e: Event)
    requires Inv(s) && Enabled(false, s, e)
    ensures Inv(Next(s, e)) && |Next(s, e).worker| == |s.worker|
  {
    match e
    case CollectorStep => CollectorKeepsInv(s);
    case WorkerStep(i) => WorkerKeepsInv(s, i);
    case WorkerWrite(i, k) => WriteKeepsInv(s, i, k);
  }

  // ----- devices a read can still collect

  /** Device i is copied, ready, being computed, or its worker is on the way to computing it. */
  predicate Pending(s: State, i: nat)
    requires Shaped(s) && i < |s.worker|
  {
    || i in s.copied || s.done[i] == 1 || s.worker[i].Computing? || s.worker[i].Finished?
    || ((s.worker[i].Woken? || s.worker[i].Relocked? || s.worker[i].Testing?) && s.done[i] == 0)
  }

  ghost predicate AllPending(s: State)
    requires Shaped(s)
  {
    forall i: nat :: i < |s.worker| ==> Pending(s, i)
  }

  /** A read in progress. */
  ghost predicate Reading(s: State) {
    Inv(s) && MutexOk(s) && Active(s.pc)
  }

  ghost predicate Hopeful(s: State) {
    Reading(s) && |s.worker| < UCHAR && AllPending(s)
  }

  lemma {:induction false} PendingStays(s: State, e: Event, i: nat)
    requires Reading(s) && Enabled(false, s, e) && !(Returning(s) && e == CollectorStep)
    requires i < |s.worker|
    ensures Shaped(Next(s, e)) && |Next(s, e).worker| == |s.worker|
    ensures Pending(s, i) <==> Pending(Next(s, e), i)
  {
    assert DeviceOk(s, i);
  }

  lemma {:induction false} ReadingStays(s: State, e: Event)
    requires Reading(s) && Enabled(false, s, e) && !(Returning(s) && e == CollectorStep)
    ensures Reading(Next(s, e)) && |Next(s, e).worker| == |s.worker|
    ensures Hopeful(s) ==> Hopeful(Next(s, e))
  {
    StepKeepsInv(s, e);
    StepKeepsMutex(s, e);
    if Hopeful(s) {
      forall i: nat | i < |s.worker| ensures Pending(Next(s, e), i) {
        PendingStays(s, e, i);
      }
    }
  }

  lemma {:induction false} FirstStep(s: State, e: Event, run: seq<Event>, t: State)
    requires Shaped(s) && Enabled(false, s, e) && Reaches(false, Next(s, e), run, t)
    ensures Reaches(false, s, [e] + run, t)
  {
    assert ([e] + run)[1..] == run;
  }

  // ----- a device that is not pending stays lost

  lemma {:induction false} LostForGood(s: State, i: nat, run: seq<Event>, t: State)
    requires Reading(s) && i < |s.worker| && !Pending(s, i) && Reaches(false, s, run, t)
    ensures !Returning(t)
    decreases |run|
  {
    if Returning(s) {
      ReturnIsComplete(s);
    }
    if run == [] {
    } else {
      ReadingStays(s, run[0]);
      PendingStays(s, run[0], i);
      LostForGood(Next(s, run[0]), i, run[1..], t);
    }
  }

  // ----- the collector, once all workers are at rest

  predicate Settled(w: Worker) {
    w.Starting? || w.Waiting?
  }

  ghost predicate AllSettled(s: State) {
    forall i: nat :: i < |s.worker| ==> Settled(s.worker[i])
  }

  /** A device from p on is ready. */
  ghost predicate Ahead(s: State, p: nat)
    requires Shaped(s)
  {
    exists j: nat :: p <= j < |s.worker| && s.done[j] == 1
  }

  ghost function Phase(s: State): nat
    requires Shaped(s)
  {
    match s.pc
    case Copy(_, _) => 0
    case Poll(p) => if Ahead(s, p) then 1 else 3
    case Loop => 2
    case Count(_) => 4
    case _ => 5
  }

  function Distance(s: State): int {
    match s.pc
    case Copy(_, k) => FIELDS - k
    case Poll(p) => |s.worker| - p
    case _ => 0
  }

  /** Fewer than n distinct numbers leave one below n out. */
  lemma {:induction false} Missing(s: seq<nat>, n: nat)
    requires |s| < n
    ensures exists i: nat :: i < n && i !in s
  {
    if forall i: nat :: i < n ==> i in s {
      var places: seq<nat> := seq(n, i requires 0 <= i < n => PlaceOf(s, i));
      Pigeonhole(places, |s|);
    }
  }

  function PlaceOf(s: seq<nat>, x: nat): (p: nat)
    requires x in s
    ensures p < |s| && s[p] == x
  {
    if s[0] == x then 0 else 1 + PlaceOf(s[1..], x)
  }

  /** At the test of the loop either all are counted or some device is ready. */
  lemma {:induction false} MoreOrDone(s: State)
    requires Hopeful(s) && AllSettled(s) && s.pc == Loop && !Returning(s)
    ensures Ahead(s, 0)
  {
    Pigeonhole(s.copied, |s.worker|);
    Missing(s.copied, |s.worker|);
    var i: nat :| i < |s.worker| && i !in s.copied;
    assert Pending(s, i) && Settled(s.worker[i]);
  }

  lemma {:induction false} CollectorLeavesWorkers(s: State)
    requires Shaped(s) && Enabled(false, s, CollectorStep) && Active(s.pc)
    ensures CollectorNext(s).worker == s.worker
  {
  }

  /** The collector alone comes to its return. */
  lemma {:induction false} Collect(s: State) returns (run: seq<Event>, t: State)
    requires Hopeful(s) && AllSettled(s)
    ensures Reaches(false, s, run, t) && Returning(t)
    decreases |s.worker| - |s.copied|, Phase(s), Distance(s)
  {
    if Returning(s) {
      run, t := [], s;
    } else {
      Pigeonhole(s.copied, |s.worker|);
      var u := CollectorNext(s);
      ReadingStays(s, CollectorStep);
      CollectorLeavesWorkers(s);
      CollectorAdvances(s);
      run, t := Collect(u);
      FirstStep(s, CollectorStep, run, t);
      run := [CollectorStep] + run;
    }
  }

  lemma {:induction false} CollectorAdvances(s: State)
    requires Hopeful(s) && AllSettled(s) && !Returning(s)
    ensures var u := CollectorNext(s);
            && Shaped(u) && Distance(s) >= 0
            && (|u.copied| > |s.copied| ||
                (|u.copied| == |s.copied| &&
                 (Phase(u) < Phase(s) || (Phase(u) == Phase(s) && Distance(u) < Distance(s)))))
  {
    var u := CollectorNext(s);
    if s.pc == Loop {
      MoreOrDone(s);
      var j: nat :| j < |s.worker| && s.done[j] == 1;
      assert u.done[j] == 1;
    }
    if s.pc.Poll? {
      assert u.done == s.done;
    }
  }

  // ----- the workers, one after the other

  function Rank(w: Worker): nat {
    match w
    case Woken => 6
    case Relocked => 5
    case Testing => 4
    case Computing => 3
    case Finished => 2
    case Locked => 1
    case _ => 0
  }

  /** Workers from i on come to rest, each with its calculation done; k fields of i are written. */
  lemma {:induction false} Settle(s: State, i: nat, k: nat) returns (run: seq<Event>, t: State)
    requires Hopeful(s) && !s.pc.Signalled? && i <= |s.worker| && k <= FIELDS
    requires s.mutex == Free || s.mutex == HeldBy(i)
    requires forall j: nat :: j < i ==> Settled(s.worker[j])
    requires i < |s.worker| && s.worker[i].Computing? ==> forall m :: 0 <= m < k ==> s.band[i][m] == s.since[i]
    ensures Reaches(false, s, run, t) && Returning(t)
    decreases |s.worker| - i, if i < |s.worker| then Rank(s.worker[i]) else 0, FIELDS - k
  {
    if i == |s.worker| {
      run, t := Collect(s);
    } else if Settled(s.worker[i]) {
      run, t := Settle(s, i + 1, 0);
    } else {
      var e := if s.worker[i].Computing? && k < FIELDS then WorkerWrite(i, k) else WorkerStep(i);
      assert DeviceOk(s, i) && Pending(s, i);
      ReadingStays(s, e);
      run, t := Settle(Next(s, e), i, if e.WorkerWrite? then k + 1 else 0);
      FirstStep(s, e, run, t);
      run := [e] + run;
    }
  }

  /** A read whose devices are all pending can return. */
  lemma {:induction false} HopefulReturns(s: State) returns (run: seq<Event>, t: State)
    requires Hopeful(s)
    ensures Reaches(false, s, run, t) && Returning(t)
  {
    if s.pc.Signalled? || s.mutex.HeldBy? {
      var e := if s.pc.Signalled? then CollectorStep else WorkerStep(s.mutex.worker);
      ReadingStays(s, e);
      run, t := Settle(Next(s, e), 0, 0);
      FirstStep(s, e, run, t);
      run := [e] + run;
    } else {
      run, t := Settle(s, 0, 0);
    }
  }

  ghost predicate CanReturn(s: State) {
    exists run, t :: Reaches(false, s, run, t) && Returning(t)
  }

  /**
    A read in progress can still return if and only if there are fewer than 256
    devices and every device is copied, ready, being computed, or its worker was
    woken and will find the flag at 0.
   */
  lemma {:induction false} ReadReturnsIff(s: State)
    requires Reading(s)
    ensures CanReturn(s) <==> |s.worker| < 256 && AllPending(s)
  {
    if |s.worker| < 256 && AllPending(s) {
      var run, t := HopefulReturns(s);
    }
    if CanReturn(s) {
      var run, t :| Reaches(false, s, run, t) && Returning(t);
      forall i: nat | i < |s.worker| ensures Pending(s, i) {
        if !Pending(s, i) {
          LostForGood(s, i, run, t);
        }
      }
      RunKeepsInv(s, run, t);
      RunKeepsSize(s, run, t);
      ReturnIsComplete(t);
    }
  }

  lemma {:induction false} RunKeepsSize(s: State, run: seq<Event>, t: State)
    requires Inv(s) && Reaches(false, s, run, t)
    ensures |t.worker| == |s.worker|
    decreases |run|
  {
    if run == [] {
    } else {
      StepKeepsInv(s, run[0]);
      RunKeepsSize(Next(s, run[0]), run[1..], t);
    }
  }

  // ----- from one read to the next

  /** The flags memset does not reach are 0 or 1. */
  ghost predicate TailBits(s: State)
    requires Shaped(s)
  {
    forall i :: 4 <= i < |s.done| ==> s.done[i] == 0 || s.done[i] == 1
  }

  lemma {:induction false} StepKeepsBits(s: State, e: Event)
    requires Shaped(s) && Enabled(false, s, e) && TailBits(s)
    ensures TailBits(Next(s, e))
  {
  }

  /** Between two reads, or before the first. */
  ghost predicate Between(s: State) {
    Inv(s) && MutexOk(s) && s.pc == Idle && |s.worker| < 256 && TailBits(s)
  }

  lemma {:induction false} RunKeepsAll(s: State, run: seq<Event>, t: State)
    requires Inv(s) && MutexOk(s) && TailBits(s) && Reaches(false, s, run, t)
    ensures Inv(t) && MutexOk(t) && TailBits(t) && |t.worker| == |s.worker|
    decreases |run|
  {
    if run == [] {
    } else {
      StepKeepsInv(s, run[0]);
      StepKeepsMutex(s, run[0]);
      StepKeepsBits(s, run[0]);
      RunKeepsAll(Next(s, run[0]), run[1..], t);
    }
  }

  /** With all workers waiting, a read calls them all. */
  lemma {:induction false} CallAll(s: State) returns (run: seq<Event>, t: State)
    requires Between(s) && s.mutex == Free && forall i: nat :: i < |s.worker| ==> s.worker[i] == Waiting
    ensures Reaches(false, s, run, t) && Returning(t)
  {
    var s1 := CollectorNext(s);
    var s2 := CollectorNext(s1);
    var s3 := CollectorNext(s2);
    var s4 := CollectorNext(s3);
    CollectorKeepsAll(s);
    CollectorKeepsAll(s1);
    CollectorKeepsAll(s2);
    CollectorKeepsAll(s3);
    forall i: nat | i < |s4.worker| ensures Pending(s4, i) {
      assert s4.worker[i] == Woken && s4.done[i] == 0;
    }
    run, t := HopefulReturns(s4);
    FirstStep(s3, CollectorStep, run, t);
    FirstStep(s2, CollectorStep, [CollectorStep] + run, t);
    FirstStep(s1, CollectorStep, [CollectorStep] + ([CollectorStep] + run), t);
    FirstStep(s, CollectorStep, [CollectorStep] + ([CollectorStep] + ([CollectorStep] + run)), t);
    run := [CollectorStep] + ([CollectorStep] + ([CollectorStep] + ([CollectorStep] + run)));
  }

  lemma {:induction false} CollectorKeepsAll(s: State)
    requires Inv(s) && MutexOk(s) && TailBits(s) && Enabled(false, s, CollectorStep)
    ensures Inv(CollectorNext(s)) && MutexOk(CollectorNext(s)) && TailBits(CollectorNext(s))
  {
    StepKeepsInv(s, CollectorStep);
    StepKeepsMutex(s, CollectorStep);
    StepKeepsBits(s, CollectorStep);
  }

  /** The workers from i on come to wait, and then a read returns. */
  lemma {:induction false} Gather(s: State, i: nat) returns (run: seq<Event>, t: State)
    requires Between(s) && i <= |s.worker| && (s.mutex == Free || s.mutex == HeldBy(i))
    requires forall j: nat :: j < i ==> s.worker[j] == Waiting
    ensures Reaches(false, s, run, t) && Returning(t)
    decreases |s.worker| - i,
              if i == |s.worker| || s.worker[i].Waiting? then 0 else if s.worker[i].Locked? then 1 else 2
  {
    if i == |s.worker| {
      run, t := CallAll(s);
    } else if s.worker[i] == Waiting {
      run, t := Gather(s, i + 1);
    } else {
      var e := WorkerStep(i);
      assert !Busy(s.worker[i]);
      StepKeepsInv(s, e);
      StepKeepsMutex(s, e);
      run, t := Gather(Next(s, e), i);
      FirstStep(s, e, run, t);
      run := [e] + run;
    }
  }

  /** Between two reads another one can always return. */
  lemma {:induction false} NextReadReturns(s: State) returns (run: seq<Event>, t: State)
    requires Between(s)
    ensures Reaches(false, s, run, t) && Returning(t) && Shaped(t) && Between(CollectorNext(t))
  {
    if s.mutex.HeldBy? {
      var e := WorkerStep(s.mutex.worker);
      assert !Busy(s.worker[s.mutex.worker]);
      StepKeepsInv(s, e);
      StepKeepsMutex(s, e);
      run, t := Gather(Next(s, e), 0);
      FirstStep(s, e, run, t);
      run := [e] + run;
    } else {
      run, t := Gather(s, 0);
    }
    RunKeepsAll(s, run, t);
    CollectorKeepsAll(t);
  }

  /** k reads, one after the other, can return. */
  ghost predicate CanReturnTimes(s: State, k: nat)
    decreases k
  {
    k == 0 ||
    exists run, t :: Reaches(false, s, run, t) && Returning(t) && Shaped(t) && CanReturnTimes(CollectorNext(t), k - 1)
  }

  lemma {:induction false} ReadsReturn(s: State, k: nat)
    requires Between(s)
    ensures CanReturnTimes(s, k)
    decreases k
  {
    if k == 0 {
    } else {
      var run, t := NextReadReturns(s);
      ReadsReturn(CollectorNext(t), k - 1);
    }
  }

  // ----- a flag that is neither 0 nor 1

  /** Device i is never computed: its flag, out of memset's reach, is neither 0 nor 1. */
  ghost predicate Stuck(s: State, i: nat)
    requires Shaped(s)
  {
    && 4 <= i < |s.worker| && s.done[i] != 0 && s.done[i] != 1 && i !in s.copied
    && !s.worker[i].Computing? && !s.worker[i].Finished?
  }

  lemma {:induction false} StuckStays(s: State, i: nat, e: Event)
    requires Inv(s) && Stuck(s, i) && Enabled(false, s, e)
    ensures Shaped(Next(s, e)) && Stuck(Next(s, e), i)
  {
  }

  lemma {:induction false} StuckForGood(s: State, i: nat, run: seq<Event>, t: State)
    requires Inv(s) && Stuck(s, i) && Reaches(false, s, run, t)
    ensures !Returning(t)
    decreases |run|
  {
    if Returning(s) {
      ReturnIsComplete(s);
    }
    if run == [] {
    } else {
      StepKeepsInv(s, run[0]);
      StuckStays(s, i, run[0]);
      StuckForGood(Next(s, run[0]), i, run[1..], t);
    }
  }

  // ----- from the start

  /**
    Where malloc left no unreachable flag at 1: some read can return if and only
    if there are fewer than 256 devices and malloc left the flags from the fifth
    on at 0. Then any number of reads can.
   */
  lemma {:induction false} SomeReadReturnsIff(done: seq<int>, k: nat)
    requires TailFlagsClear(done)
    ensures CanReturn(Init(done)) <==> |done| < 256 && forall i :: 4 <= i < |done| ==> done[i] == 0
    ensures CanReturn(Init(done)) ==> CanReturnTimes(Init(done), k)
  {
    var s := Init(done);
    if |done| < 256 && forall i :: 4 <= i < |done| ==> done[i] == 0 {
      var run, t := NextReadReturns(s);
      ReadsReturn(s, k);
    }
    if CanReturn(s) {
      var run, t :| Reaches(false, s, run, t) && Returning(t);
      forall i | 4 <= i < |done| ensures done[i] == 0 {
        if done[i] != 0 {
          StuckForGood(s, i, run, t);
        }
      }
      RunKeepsInv(s, run, t);
      RunKeepsSize(s, run, t);
      ReturnIsComplete(t);
    }
  }

  /** How often the collector broadcasts in a run. */
  ghost function Broadcasts(s: State, run: seq<Event>): nat
    decreases |run|
  {
    if run == [] || !Shaped(s) || !Enabled(false, s, run[0]) then 0
    else Broadcasts(Next(s, run[0]), run[1..]) + if run[0] == CollectorStep && s.pc == Holding then 1 else 0
  }

  lemma {:induction false} RoundCounts(s: State, run: seq<Event>, t: State)
    requires Reaches(false, s, run, t)
    ensures t.round == s.round + Broadcasts(s, run)
    decreases |run|
  {
    if run == [] {
    } else {
      RoundCounts(Next(s, run[0]), run[1..], t);
    }
  }

  lemma {:induction false} ActiveAfterBroadcast(s: State, run: seq<Event>, t: State)
    requires Inv(s) && (Active(s.pc) ==> s.round > 0) && Reaches(false, s, run, t)
    ensures Active(t.pc) ==> t.round > 0
    decreases |run|
  {
    if run == [] {
    } else {
      StepKeepsInv(s, run[0]);
      ActiveAfterBroadcast(Next(s, run[0]), run[1..], t);
    }
  }

  /**
    A read that returns leaves the collector outside, and has copied every device
    once: five fields, each calculated after the last broadcast of the run.
   */
  lemma {:induction false} ReturnCollectsAll(done: seq<int>, run: seq<Event>, t: State)
    requires TailFlagsClear(done) && Reaches(false, Init(done), run, t) && Returning(t)
    ensures Shaped(t) && |t.copied| == |done| == |t.info| && Distinct(t.copied) && CollectorNext(t).pc == Idle
    ensures t.round == Broadcasts(Init(done), run) > 0
    ensures forall i: nat :: i < |done| ==> i in t.copied && t.info[i] == seq(5, _ => t.round)
  {
    SafeRuns(done, run, t);
    RunKeepsInv(Init(done), run, t);
    RunKeepsSize(Init(done), run, t);
    RoundCounts(Init(done), run, t);
    ActiveAfterBroadcast(Init(done), run, t);
    forall i: nat | i < |done| ensures t.info[i] == seq(5, _ => t.round) {
      assert AllFields(t.info[i], t.round);
    }
  }

  /** A first read that comes before a worker waits: its broadcast is missed, and it never returns. */
  lemma {:induction false} FirstReadCanHang(done: seq<int>) returns (t: State)
    requires TailFlagsClear(done) && done != []
    ensures Reaches(false, Init(done), seq(5, _ => CollectorStep), t) && t.pc == Loop && !CanReturn(t)
  {
    var s0 := Init(done);
    var s1 := CollectorNext(s0);
    var s2 := CollectorNext(s1);
    var s3 := CollectorNext(s2);
    var s4 := CollectorNext(s3);
    t := CollectorNext(s4);
    FiveSteps(s0, s1, s2, s3, s4, t);
    StepKeepsMutex(s0, CollectorStep);
    StepKeepsMutex(s1, CollectorStep);
    StepKeepsMutex(s2, CollectorStep);
    StepKeepsMutex(s3, CollectorStep);
    StepKeepsMutex(s4, CollectorStep);
    RunKeepsInv(s0, seq(5, _ => CollectorStep), t);
    assert t.worker[0] == Starting && t.done[0] == 0;
    assert !Pending(t, 0);
    ReadReturnsIff(t);
  }

  lemma {:induction false} FiveSteps(s0: State, s1: State, s2: State, s3: State, s4: State, t: State)
    requires Shaped(s0) && Enabled(false, s0, CollectorStep) && s1 == Next(s0, CollectorStep)
    requires Enabled(false, s1, CollectorStep) && s2 == Next(s1, CollectorStep)
    requires Enabled(false, s2, CollectorStep) && s3 == Next(s2, CollectorStep)
    requires Enabled(false, s3, CollectorStep) && s4 == Next(s3, CollectorStep)
    requires Enabled(false, s4, CollectorStep) && t == Next(s4, CollectorStep)
    ensures Reaches(false, s0, seq(5, _ => CollectorStep), t)
  {
    var c := CollectorStep;
    assert Reaches(false, t, [], t);
    FirstStep(s4, c, [], t);
    FirstStep(s3, c, [c], t);
    FirstStep(s2, c, [c] + [c], t);
    FirstStep(s1, c, [c] + ([c] + [c]), t);
    FirstStep(s0, c, [c] + ([c] + ([c] + [c])), t);
    assert [c] + ([c] + ([c] + ([c] + [c]))) == seq(5, _ => CollectorStep);
  }
}
