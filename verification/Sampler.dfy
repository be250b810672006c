/** The accounting of CPU time over a sequence of samples. */
module Accounting {

  /** What one completed sample reads: cumulated user and system time of the watched processes, and their memory. */
  datatype Times = Times(user: real, system: real, vsize: int) {
    function Cpu(): real { user + system }
  }

  const NO_TIMES := Times(0.0, 0.0, 0)

  /** Sample number n; before the first one all counters are 0. */
  function At(samples: seq<Times>, n: nat): Times
    requires n <= |samples|
  {
    if n == 0 then NO_TIMES else samples[n - 1]
  }

  /** Whether the CPU time is less at sample n than at the one before. */
  predicate Falls(samples: seq<Times>, n: nat)
    requires 0 < n <= |samples|
  {
    At(samples, n).Cpu() < At(samples, n - 1).Cpu()
  }

  /** The user time missing at the falls among the first n samples. */
  function LostUser(samples: seq<Times>, n: nat): real
    requires n <= |samples|
  {
    if n == 0 then 0.0
    else LostUser(samples, n - 1) + if Falls(samples, n) then At(samples, n - 1).user - At(samples, n).user else 0.0
  }

  function LostSystem(samples: seq<Times>, n: nat): real
    requires n <= |samples|
  {
    if n == 0 then 0.0
    else
      LostSystem(samples, n - 1)
      + if Falls(samples, n) then At(samples, n - 1).system - At(samples, n).system else 0.0
  }

  function LostCpu(samples: seq<Times>, n: nat): real
    requires n <= |samples|
  {
    if n == 0 then 0.0
    else LostCpu(samples, n - 1) + if Falls(samples, n) then At(samples, n - 1).Cpu() - At(samples, n).Cpu() else 0.0
  }

  /** The sum of the increments of the CPU time over the first n samples, leaving the falls out. */
  function Growth(samples: seq<Times>, n: nat): real
    requires n <= |samples|
  {
    if n == 0 then 0.0
    else
      var step := At(samples, n).Cpu() - At(samples, n - 1).Cpu();
      Growth(samples, n - 1) + if step > 0.0 then step else 0.0
  }

  /** Current and lost time together are the sum of the increments; the lost time is the sum of its parts. */
  lemma {:induction false} CpuTimeIsGrowth(samples: seq<Times>, n: nat)
    requires n <= |samples|
    ensures At(samples, n).Cpu() + LostCpu(samples, n) == Growth(samples, n)
    ensures LostCpu(samples, n) == LostUser(samples, n) + LostSystem(samples, n)
  {
    if n > 0 {
      CpuTimeIsGrowth(samples, n - 1);
    }
  }

  /** The time compared with the limit never decreases, so a limit once exceeded stays exceeded. */
  lemma {:induction false} LimitStaysExceeded(samples: seq<Times>, m: nat, n: nat, limit: real)
    requires m <= n <= |samples|
    ensures At(samples, m).Cpu() + LostCpu(samples, m) <= At(samples, n).Cpu() + LostCpu(samples, n)
    ensures At(samples, m).Cpu() + LostCpu(samples, m) >= limit ==> At(samples, n).Cpu() + LostCpu(samples, n) >= limit
    decreases n
  {
    if m < n {
      LimitStaysExceeded(samples, m, n - 1, limit);
      CpuTimeIsGrowth(samples, n - 1);
      CpuTimeIsGrowth(samples, n);
    }
  }

  datatype Limits = Limits(cpu: real, wallClock: real, vsize: int)

  /** The CPU limit is reached if there is one and the solver has consumed it, however the figure went up and down. */
  predicate CpuLimitReached(samples: seq<Times>, n: nat, limits: Limits)
    requires n <= |samples|
  {
    limits.cpu != 0.0 && Growth(samples, n) >= limits.cpu
  }

  /** Whether a limit is reached at sample n, taken at the given time. */
  predicate LimitReached(samples: seq<Times>, n: nat, elapsed: real, limits: Limits)
    requires n <= |samples|
  {
    || CpuLimitReached(samples, n, limits)
    || (limits.wallClock != 0.0 && elapsed >= limits.wallClock)
    || (limits.vsize != 0 && At(samples, n).vsize >= limits.vsize)
  }

  /** Once the CPU limit is reached it is reached at every later sample, and so is the wall clock limit, time going on;
      the limit of memory is not. */
  lemma LimitStaysReached(samples: seq<Times>, m: nat, before: real, n: nat, after: real,
                          limits: Limits)
    requires m <= n <= |samples| && before <= after
    ensures CpuLimitReached(samples, m, limits) ==> CpuLimitReached(samples, n, limits)
    ensures LimitReached(samples, m, before, limits)
            ==> LimitReached(samples, n, after, limits)
                || (limits.vsize != 0 && At(samples, n).vsize < limits.vsize <= At(samples, m).vsize)
  {
    CpuTimeIsGrowth(samples, m);
    CpuTimeIsGrowth(samples, n);
    LimitStaysExceeded(samples, m, n, limits.cpu);
  }

  /** The user time with its lost part. */
  function UserTime(samples: seq<Times>, n: nat): real
    requires n <= |samples|
  {
    At(samples, n).user + LostUser(samples, n)
  }

  /** Unlike the total, the user part can go down: at exactly those samples where the user time falls
      while the total does not. */
  lemma UserTimeCanFall(samples: seq<Times>, n: nat)
    requires 0 < n <= |samples|
    ensures UserTime(samples, n) < UserTime(samples, n - 1)
            <==> !Falls(samples, n) && At(samples, n).user < At(samples, n - 1).user
  {}

  /** One second of user time, then two of system time and none of user time. */
  lemma UserTimeFallsHere()
    ensures var samples := [Times(1.0, 0.0, 0), Times(0.0, 2.0, 0)];
            UserTime(samples, 2) < UserTime(samples, 1)
  {
    UserTimeCanFall([Times(1.0, 0.0, 0), Times(0.0, 2.0, 0)], 2);
  }

  function Larger(a: int, b: int): int { if a < b then b else a }

  /** The largest memory of the first n samples, and at least 0. */
  function PeakVSize(samples: seq<Times>, n: nat): int
    requires n <= |samples|
  {
    if n == 0 then 0 else Larger(PeakVSize(samples, n - 1), At(samples, n).vsize)
  }

  lemma {:induction false} PeakIsLargest(samples: seq<Times>, n: nat)
    requires n <= |samples|
    ensures forall i :: 0 <= i < n ==> samples[i].vsize <= PeakVSize(samples, n)
    ensures PeakVSize(samples, n) == 0 || exists i :: 0 <= i < n && samples[i].vsize == PeakVSize(samples, n)
  {
    if n > 0 {
      PeakIsLargest(samples, n - 1);
    }
  }

  /** All figures depend on the samples counted only. */
  lemma {:induction false} SameFigures(a: seq<Times>, b: seq<Times>, n: nat)
    requires n <= |a| && n <= |b| && a[..n] == b[..n]
    ensures At(a, n) == At(b, n) && LostCpu(a, n) == LostCpu(b, n) && LostUser(a, n) == LostUser(b, n)
    ensures LostSystem(a, n) == LostSystem(b, n) && PeakVSize(a, n) == PeakVSize(b, n)
  {
    if n > 0 {
      assert forall i :: 0 <= i < n ==> a[i] == a[..n][i] == b[..n][i] == b[i];
      assert a[..n - 1] == b[..n - 1];
      SameFigures(a, b, n - 1);
    }
  }

  lemma NoSamples()
    ensures At([], 0) == NO_TIMES && LostCpu([], 0) == LostUser([], 0) == LostSystem([], 0) == 0.0
        && PeakVSize([], 0) == 0
  {}

  /** What one more sample adds. */
  lemma OneMoreSample(samples: seq<Times>, next: Times)
    ensures var all, n := samples + [next], |samples|;
            var last := At(samples, n);
            var falls := next.Cpu() < last.Cpu();
            && At(all, n + 1) == next
            && LostCpu(all, n + 1) == LostCpu(samples, n) + (if falls then last.Cpu() - next.Cpu() else 0.0)
            && LostUser(all, n + 1) == LostUser(samples, n) + (if falls then last.user - next.user else 0.0)
            && LostSystem(all, n + 1) == LostSystem(samples, n) + (if falls then last.system - next.system else 0.0)
            && PeakVSize(all, n + 1) == Larger(PeakVSize(samples, n), next.vsize)
  {
    SameFigures(samples, samples + [next], |samples|);
  }
}

/** readProcessData, which every thread that watches the solver calls once per sample. */
module Sampler {
  import opened Accounting
  import opened ProcessHistory
  import opened SharedFlags

  /** What one reading of /proc gives. */
  datatype Outcome = RootEnded | Alive(times: Times)

  /** The current tree is the newest of those pushed, and each was made once, in this order. */
  ghost predicate Kept(pushed: seq<Sample>, tree: Sample, trees: nat) {
    && pushed != [] && tree == pushed[|pushed| - 1]
    && (forall i :: 0 <= i < |pushed| ==> pushed[i].id < trees)
    && (forall i, j :: 0 <= i < j < |pushed| ==> pushed[i].id < pushed[j].id)
  }

  lemma KeptFirst(tree: Sample)
    ensures Kept([tree], tree, tree.id + 1)
  {}

  lemma KeptWithNext(pushed: seq<Sample>, tree: Sample, trees: nat, next: Sample)
    requires Kept(pushed, tree, trees) && next.id >= trees
    ensures Kept(pushed + [next], next, next.id + 1) && Kept(pushed, tree, next.id + 1)
  {}

  class RunSolver {
    var childpid: int
    var elapsed: real

    // current figures of the watched processes, those of the last sample, and the time lost so far
    var currentCPUTime: real
    var currentSystemTime: real
    var currentUserTime: real
    var lastCPUTime: real
    var lastUserTime: real
    var lastSystemTime: real
    var lostCPUTime: real
    var lostUserTime: real
    var lostSystemTime: real
    var currentVSize: int
    var lastVSize: int
    var maxVSize: int

    // limits; 0 if there is none
    const limitCPUTime: real
    const limitWallClockTime: real
    const limitVSize: int

    var procTree: Sample
    var lastProcTree: Sample
    var trees: nat // number of trees made so far
    const procHistory: ProcessHistory
    const flags: FlagStore

    ghost var samples: seq<Times> // all completed samples

    ghost predicate Counting()
      reads `samples, `currentUserTime, `currentSystemTime, `currentCPUTime, `currentVSize
      reads `lostCPUTime, `lostUserTime, `lostSystemTime, `maxVSize
    {
      var n := |samples|;
      && currentUserTime == At(samples, n).user && currentSystemTime == At(samples, n).system
      && currentCPUTime == At(samples, n).Cpu() && currentVSize == At(samples, n).vsize
      && lostCPUTime == LostCpu(samples, n)
      && lostUserTime == LostUser(samples, n) && lostSystemTime == LostSystem(samples, n)
      && maxVSize == PeakVSize(samples, n)
    }

    ghost predicate Valid()
      reads this, procHistory, procHistory.nbitem, procHistory.history
    {
      && Counting()
      && procHistory.Valid()
      && Kept(procHistory.pushed, procTree, trees)
      && |procHistory.pushed| == |samples| + 1
    }

    constructor (store: FlagStore, limitCPU: real, limitWallClock: real, limitV: int)
      ensures Valid() && samples == [] && flags == store && fresh(procHistory) && childpid == 0
      ensures procHistory.nbcell == 10 && procHistory.pushed == [procTree] && procTree == Sample(0, 0.0)
      ensures limitCPUTime == limitCPU && limitWallClockTime == limitWallClock && limitVSize == limitV
    {
      hide ProcessHistory.Valid, At, LostCpu, LostUser, LostSystem, PeakVSize, Kept;
      childpid, elapsed := 0, 0.0;
      currentCPUTime, currentUserTime, currentSystemTime := 0.0, 0.0, 0.0;
      lastCPUTime, lastUserTime, lastSystemTime := 0.0, 0.0, 0.0;
      lostCPUTime, lostUserTime, lostSystemTime := 0.0, 0.0, 0.0;
      currentVSize, lastVSize, maxVSize := 0, 0, 0;
      limitCPUTime, limitWallClockTime, limitVSize := limitCPU, limitWallClock, limitV;
      flags := store;
      var history := new ProcessHistory(10);
      procHistory := history;
      procTree := Sample(0, 0.0);
      lastProcTree := Sample(0, 0.0);
      trees := 1;
      samples := [];
      new;
      NoSamples();
      KeptFirst(procTree);
      procHistory.Push(procTree);
      assert procHistory.pushed == [procTree];
    }

    method CountLostTime()
      modifies `lostCPUTime, `lostSystemTime, `lostUserTime
      ensures lostCPUTime == old(lostCPUTime)
                             + if currentCPUTime < lastCPUTime then lastCPUTime - currentCPUTime else 0.0
      ensures lostUserTime == old(lostUserTime)
                              + if currentCPUTime < lastCPUTime then lastUserTime - currentUserTime else 0.0
      ensures lostSystemTime == old(lostSystemTime)
                                + if currentCPUTime < lastCPUTime then lastSystemTime - currentSystemTime else 0.0
    {
      if currentCPUTime < lastCPUTime {
        lostCPUTime := lostCPUTime + (lastCPUTime - currentCPUTime);
        lostSystemTime := lostSystemTime + (lastSystemTime - currentSystemTime);
        lostUserTime := lostUserTime + (lastUserTime - currentUserTime);
      }
    }

    function GivenLimits(): Limits {
      Limits(limitCPUTime, limitWallClockTime, limitVSize)
    }

    /** Stops the solver if a limit is reached. */
    method TestLimits()
      requires Counting()
      modifies flags
      ensures flags.Value() == if LimitReached(samples, |samples|, elapsed, GivenLimits())
                               then old(flags.Value()).Stopped() else old(flags.Value())
    {
      hide LostCpu, LostUser, LostSystem, PeakVSize, Growth;
      CpuTimeIsGrowth(samples, |samples|);
      if limitCPUTime != 0.0 && currentCPUTime + lostCPUTime >= limitCPUTime {
        flags.StopSolver();
      }
      if limitWallClockTime != 0.0 && elapsed >= limitWallClockTime {
        flags.StopSolver();
      }
      if limitVSize != 0 && currentVSize >= limitVSize {
        flags.StopSolver();
      }
    }

    /** Takes over the figures read from the current tree. */
    method Count(times: Times)
      requires Counting()
      modifies `lastCPUTime, `lastSystemTime, `lastUserTime, `lastVSize, `currentUserTime, `currentSystemTime,
          `currentCPUTime,
               `currentVSize, `maxVSize, `lostCPUTime, `lostSystemTime, `lostUserTime, `samples
      ensures Counting() && samples == old(samples) + [times]
      ensures lastCPUTime == old(currentCPUTime) && lastVSize == old(currentVSize)
      ensures lastUserTime == old(currentUserTime) && lastSystemTime == old(currentSystemTime)
    {
      hide At, LostCpu, LostUser, LostSystem, PeakVSize;
      OneMoreSample(samples, times);
      lastCPUTime := currentCPUTime;
      lastSystemTime := currentSystemTime;
      lastUserTime := currentUserTime;
      lastVSize := currentVSize;
      currentUserTime, currentSystemTime := times.user, times.system;
      currentCPUTime := currentUserTime + currentSystemTime;
      currentVSize := times.vsize;
      maxVSize := Larger(maxVSize, currentVSize);
      CountLostTime();
      samples := samples + [times];
    }

    /** One sample; true if the root process has ended. */
    method ReadProcessData(outcome: Outcome) returns (ended: bool)
      requires Valid()
      modifies this, procHistory, procHistory.nbitem, procHistory.history, flags
      ensures Valid() && childpid == old(childpid) && elapsed == old(elapsed)
      ensures ended <==> childpid != 0 && outcome.RootEnded?
      ensures if childpid != 0 && outcome.Alive?
              then && samples == old(samples) + [outcome.times] && lastProcTree == old(procTree)
                   && procHistory.pushed == old(procHistory.pushed) + [procTree]
                   && procTree == Sample(old(trees), elapsed)
                   && flags.Value() == if LimitReached(samples, |samples|, elapsed, GivenLimits())
                                       then old(flags.Value()).Stopped() else old(flags.Value())
              else && samples == old(samples) && procTree == old(procTree)
                   && procHistory.pushed == old(procHistory.pushed) && flags.Value() == old(flags.Value())
    {
      hide ProcessHistory.Valid, Counting, Kept, LimitReached, FlagStore.Value;
      if childpid == 0 {
        return false; // the solver has not been forked yet
      }
      KeptWithNext(procHistory.pushed, procTree, trees, Sample(trees, elapsed));
      lastProcTree := procTree;
      procTree := Sample(trees, elapsed);
      trees := trees + 1;
      if outcome.RootEnded? {
        procTree := lastProcTree;
        return true; // counters and history keep what they have
      }
      Count(outcome.times);
      procHistory.Push(procTree);
      TestLimits();
      ended := false;
    }

    /** The current tree is kept by the history: no push so far has deleted it. */
    lemma CurrentTreeIsKept()
      requires Valid()
      ensures procTree !in procHistory.dropped && Live(procHistory.cells)[procTree] == 1
    {
      hide Holds, Live;
      var pushed := procHistory.pushed;
      PushedOnce(pushed);
      LiveOrDroppedOnce(procHistory.cells, pushed, procHistory.dropped, procTree);
    }
  }

  lemma PushedOnce(pushed: seq<Sample>)
    requires pushed != []
    requires forall i, j :: 0 <= i < j < |pushed| ==> pushed[i].id < pushed[j].id
    ensures multiset(pushed)[pushed[|pushed| - 1]] == 1
  {
    var last := |pushed| - 1;
    assert pushed == pushed[..last] + [pushed[last]];
    assert pushed[last] !in pushed[..last];
  }
}
