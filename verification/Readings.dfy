/** The totals of a tree, measured by what /proc gives. */
module Readings {
  import opened Forest
  import opened ProcessData
  import opened Wrappers

  /** What a sample sums up: the time a process and its reaped children have used, in ticks, and its memory, in KiB. */
  function UserTicks(r: Reading): int { r.utime + r.cutime }
  function SystemTicks(r: Reading): int { r.stime + r.cstime }
  function VirtualKiB(r: Reading): int { r.vsize / 1024 }
  function ResidentKiB(r: Reading): int { r.rss + r.swap }

  datatype Figures = Figures(user: int, system: int, vsize: int, memory: int)

  /** A figure of a process, straight from /proc. */
  function Measured(proc: Proc, f: Reading -> int, p: Pid): int {
    match proc(p, NO_TASK)
    case Some(reading) => f(reading)
    case None => 0
  }

  /** The sum of a figure over a set of processes, straight from /proc. */
  ghost function ReadingSum(proc: Proc, f: Reading -> int, s: set<Pid>): int {
    if s == {} then 0
    else
      var p :| p in s;
      ReadingSum(proc, f, s - {p}) + Measured(proc, f, p)
  }

  lemma {:induction false} ReadingSumRemove(proc: Proc, f: Reading -> int, s: set<Pid>, x: Pid)
    requires x in s
    ensures ReadingSum(proc, f, s) == ReadingSum(proc, f, s - {x}) + Measured(proc, f, x)
  {
    var p :| p in s && ReadingSum(proc, f, s) == ReadingSum(proc, f, s - {p}) + Measured(proc, f, p);
    if p != x {
      ReadingSumRemove(proc, f, s - {p}, x);
      ReadingSumRemove(proc, f, s - {x}, p);
      assert s - {p} - {x} == s - {x} - {p};
    }
  }

  /** What the processes of a set use according to /proc. */
  ghost function Consumed(proc: Proc, s: set<Pid>): Figures {
    Figures(ReadingSum(proc, UserTicks, s), ReadingSum(proc, SystemTicks, s),
            ReadingSum(proc, VirtualKiB, s), ReadingSum(proc, ResidentKiB, s))
  }

  /** What they use according to their records. */
  ghost function Totals(v: Records, s: set<Pid>): Figures {
    Figures(SetTotal(v, UserTimeOf, s), SetTotal(v, SystemTimeOf, s), SetTotal(v, VSizeOf, s), SetTotal(v, MemoryOf, s))
  }

  /** The records of these processes carry what /proc gives. */
  ghost predicate CarryReadings(v: Records, proc: Proc, s: set<Pid>) {
    forall p :: p in s ==> p in v && proc(p, NO_TASK) == Some(v[p].info)
  }

  lemma {:induction false} TotalIsReadingSum(v: Records, proc: Proc, s: set<Pid>, f: ProcessData -> int,
      g: Reading -> int)
    requires CarryReadings(v, proc, s) && forall d :: f(d) == g(d.info)
    ensures SetTotal(v, f, s) == ReadingSum(proc, g, s)
  {
    if s != {} {
      var p :| p in s;
      TotalIsReadingSum(v, proc, s - {p}, f, g);
      SetTotalRemove(v, f, s, p);
      ReadingSumRemove(proc, g, s, p);
    }
  }

  /** The totals of up-to-date records are the sums of what /proc gives. */
  lemma TotalsAreReadings(v: Records, proc: Proc, s: set<Pid>)
    requires CarryReadings(v, proc, s)
    ensures Totals(v, s) == Consumed(proc, s)
  {
    TotalIsReadingSum(v, proc, s, UserTimeOf, UserTicks);
    TotalIsReadingSum(v, proc, s, SystemTimeOf, SystemTicks);
    TotalIsReadingSum(v, proc, s, VSizeOf, VirtualKiB);
    TotalIsReadingSum(v, proc, s, MemoryOf, ResidentKiB);
  }
}
