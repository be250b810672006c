/** The retry loop around write(2) that every output filter uses. */
module FileDescriptor {

  /** A C++ char; the filters never look inside it. */
  type Byte = char

  /** How the kernel answers one call of write(2): it takes at most `most` of the bytes offered,
      or the call is interrupted (EINTR), or it fails for another reason. */
  datatype Outcome = Accepts(most: nat) | Interrupted | HardError

  datatype Status = Running | Completed | Failed

  /** Where the retry loop stands: the bytes already handed over, those still to go, and whether it goes on. */
  datatype Transfer = Transfer(sent: seq<Byte>, rest: seq<Byte>, status: Status)

  /** One turn of the do-while loop. An interrupted call jumps to the loop test, which sees the old length. */
  function Turn(t: Transfer, answer: Outcome): Transfer {
    match answer
    case HardError => t.(status := Failed)
    case Interrupted => t.(status := if t.rest == [] then Completed else Running)
    case Accepts(most) =>
      var n := if most < |t.rest| then most else |t.rest|;
      Transfer(t.sent + t.rest[..n], t.rest[n..], if t.rest[n..] == [] then Completed else Running)
  }

  /** The loop after at most m turns, when the kernel's answers from call number `from` on are its schedule. */
  function Run(kernel: nat -> Outcome, from: nat, buf: seq<Byte>, m: nat): Transfer {
    if m == 0 then Transfer([], buf, Running)
    else
      var t := Run(kernel, from, buf, m - 1);
      if t.status.Running? then Turn(t, kernel(from + m - 1)) else t
  }

  /** Number of interrupted calls among m calls. */
  function Interrupts(kernel: nat -> Outcome, from: nat, m: nat): nat {
    if m == 0 then 0
    else Interrupts(kernel, from, m - 1) + if kernel(from + m - 1).Interrupted? then 1 else 0
  }

  /** Under any schedule whatever, the bytes go out in order, none repeated and none skipped. */
  lemma {:induction false} RunKeepsOrder(kernel: nat -> Outcome, from: nat, buf: seq<Byte>, m: nat)
    ensures var t := Run(kernel, from, buf, m);
            && t.sent + t.rest == buf
            && (t.status.Completed? ==> t.sent == buf)
            && (t.status.Running? && m > 0 ==> t.rest != [])
  {
    if m > 0 {
      RunKeepsOrder(kernel, from, buf, m - 1);
    }
  }

  /** Each call takes what the kernel says: no more than it accepts and no less unless nothing is left to write; and
      nothing when it is interrupted or fails. */
  lemma CallTakesWhatIsAccepted(kernel: nat -> Outcome, from: nat, buf: seq<Byte>, m: nat)
    requires Run(kernel, from, buf, m).status.Running?
    ensures var before, after := Run(kernel, from, buf, m).sent, Run(kernel, from, buf, m + 1).sent;
            && before <= after <= buf
            && match kernel(from + m)
               case Accepts(most) => |after| == |before| + most || (|after| < |before| + most && after == buf)
               case _ => after == before
  {
    RunKeepsOrder(kernel, from, buf, m);
    RunKeepsOrder(kernel, from, buf, m + 1);
    RunOneMoreTurn(kernel, from, buf, m);
  }

  /** Only a hard error ends the loop before the whole buffer is out. */
  lemma {:induction false} RunFailsOnlyOnHardError(kernel: nat -> Outcome, from: nat, buf: seq<Byte>, m: nat)
    ensures Run(kernel, from, buf, m).status.Failed?
            <==> exists k: nat :: k < m && Run(kernel, from, buf, k).status.Running? && kernel(from + k).HardError?
  {
    if m > 0 {
      RunFailsOnlyOnHardError(kernel, from, buf, m - 1);
      var t := Run(kernel, from, buf, m - 1);
      if t.status.Running? && kernel(from + (m - 1)).HardError? {
        assert Run(kernel, from, buf, m).status.Failed?;
      }
    }
  }

  /** Every turn that leaves the loop running was either interrupted or made progress. */
  lemma {:induction false} RunningTurnsAreBounded(kernel: nat -> Outcome, from: nat, buf: seq<Byte>, m: nat)
    requires forall i: nat :: kernel(i).Accepts? ==> kernel(i).most > 0
    requires Run(kernel, from, buf, m).status.Running?
    ensures m <= |Run(kernel, from, buf, m).sent| + Interrupts(kernel, from, m)
  {
    if m > 0 {
      RunningTurnsAreBounded(kernel, from, buf, m - 1);
      RunKeepsOrder(kernel, from, buf, m);
    }
  }

  /** When each accepted call takes something and at most `budget` calls are interrupted,
      the loop is over after |buf| + budget + 1 calls. */
  lemma RunSettles(kernel: nat -> Outcome, from: nat, buf: seq<Byte>, budget: nat, m: nat)
    requires forall i: nat :: kernel(i).Accepts? ==> kernel(i).most > 0
    requires Interrupts(kernel, from, m) <= budget
    requires m > |buf| + budget
    ensures !Run(kernel, from, buf, m).status.Running?
  {
    if Run(kernel, from, buf, m).status.Running? {
      RunningTurnsAreBounded(kernel, from, buf, m);
      RunKeepsOrder(kernel, from, buf, m);
    }
  }

  /** What write(2) takes of len bytes. */
  function Taken(answer: Outcome, len: nat): (n: nat)
    ensures n <= len
  {
    if !answer.Accepts? then 0 else if answer.most < len then answer.most else len
  }

  /** The loop test and the break after a call that left len bytes. */
  function StatusAfter(answer: Outcome, len: nat): Status {
    if answer.HardError? then Failed else if len == 0 then Completed else Running
  }

  lemma RunOneMoreTurn(kernel: nat -> Outcome, from: nat, buf: seq<Byte>, m: nat)
    requires Run(kernel, from, buf, m).status.Running?
    ensures Run(kernel, from, buf, m + 1) == Turn(Run(kernel, from, buf, m), kernel(from + m))
  {
    assert from + (m + 1) - 1 == from + m;
  }

  /** The condition under which systemWrite returns: progress, and finitely many interrupts. */
  ghost predicate Fair(kernel: nat -> Outcome, budget: nat) {
    && (forall i: nat :: kernel(i).Accepts? ==> kernel(i).most > 0)
    && (forall from: nat, m: nat :: Interrupts(kernel, from, m) <= budget)
  }

  lemma FairRunSettles(kernel: nat -> Outcome, from: nat, buf: seq<Byte>, budget: nat, m: nat)
    requires Fair(kernel, budget)
    requires Run(kernel, from, buf, m).status.Running?
    ensures m <= |buf| + budget
  {
    if m > |buf| + budget { RunSettles(kernel, from, buf, budget, m); }
  }

  /** No hard error among the first n answers. */
  ghost predicate Clean(kernel: nat -> Outcome, n: nat) {
    forall k: nat :: k < n ==> !kernel(k).HardError?
  }

  lemma CleanRunSendsAll(kernel: nat -> Outcome, from: nat, buf: seq<Byte>, m: nat)
    requires !Run(kernel, from, buf, m).status.Running?
    ensures Clean(kernel, from + m) ==> Run(kernel, from, buf, m).sent == buf
  {
    RunKeepsOrder(kernel, from, buf, m);
    RunFailsOnlyOnHardError(kernel, from, buf, m);
  }

  /** s is t with some bytes left out: what remains is in order and not repeated. */
  ghost predicate Subsequence(s: seq<Byte>, t: seq<Byte>) {
    if s == [] then true
    else if t == [] then false
    else
      || Subsequence(s, t[..|t| - 1])
      || (s[|s| - 1] == t[|t| - 1] && Subsequence(s[..|s| - 1], t[..|t| - 1]))
  }

  /** Two subsequences in a row; of the second whole, the first bytes may be kept and the others left out. */
  lemma {:induction false} SubsequenceAppend(s: seq<Byte>, t: seq<Byte>, kept: seq<Byte>, skipped: seq<Byte>)
    requires Subsequence(s, t)
    ensures Subsequence(s + kept, t + (kept + skipped))
    decreases |kept| + |skipped|
  {
    var whole := t + (kept + skipped);
    if skipped != [] {
      var front := skipped[..|skipped| - 1];
      SubsequenceAppend(s, t, kept, front);
      assert whole[..|whole| - 1] == t + (kept + front);
    } else if kept != [] {
      var front := kept[..|kept| - 1];
      SubsequenceAppend(s, t, front, []);
      assert front + [] == front && kept + skipped == kept;
      assert whole[..|whole| - 1] == t + front && (s + kept)[..|s + kept| - 1] == s + front;
    } else {
      assert s + kept == s && whole == t;
    }
  }

  /** `written` is `requested` up to position `sound`, and from there on `requested` with some bytes left out. */
  ghost predicate Sound(written: seq<Byte>, requested: seq<Byte>, sound: nat) {
    && sound <= |written| && sound <= |requested|
    && written[..sound] == requested[..sound]
    && Subsequence(written[sound..], requested[sound..])
  }

  /** One more buffer, of which `sent` is written. */
  lemma SoundWithNext(written: seq<Byte>, requested: seq<Byte>, sound: nat, sent: seq<Byte>, rest: seq<Byte>)
    requires Sound(written, requested, sound)
    ensures Sound(written + sent, requested + (sent + rest), sound)
    ensures sound == |written| == |requested| ==> Sound(written + sent, requested + (sent + rest), |written + sent|)
  {
    hide Subsequence;
    SubsequenceAppend(written[sound..], requested[sound..], sent, rest);
    assert (written + sent)[sound..] == written[sound..] + sent;
    assert (requested + (sent + rest))[sound..] == requested[sound..] + (sent + rest);
    assert (written + sent)[..sound] == written[..sound];
    assert (requested + (sent + rest))[..sound] == requested[..sound];
    if sound == |written| == |requested| {
      assert written == requested;
      var all := |written + sent|;
      assert (requested + (sent + rest))[..all] == written + sent;
      NothingIsSubsequence((requested + (sent + rest))[all..]);
      assert (written + sent)[all..] == [];
    }
  }

  lemma NothingIsSubsequence(t: seq<Byte>)
    ensures Subsequence([], t)
  {}

  /** One call of systemWrite: its buffer, the number of the first write(2) it made, and how many it made. */
  datatype Request = Request(buf: seq<Byte>, from: nat, made: nat)

  /** The loop ran until it was over, and no longer. */
  ghost predicate IsSettled(kernel: nat -> Outcome, r: Request) {
    && r.made > 0
    && Run(kernel, r.from, r.buf, r.made - 1).status.Running?
    && !Run(kernel, r.from, r.buf, r.made).status.Running?
  }

  /** Calls made by all requests together. */
  function End(trace: seq<Request>): nat {
    if trace == [] then 0 else trace[|trace| - 1].from + trace[|trace| - 1].made
  }

  /** Requests one after the other, each of them settled. */
  ghost predicate IsTrace(kernel: nat -> Outcome, trace: seq<Request>) {
    trace == []
    || (var front, last := trace[..|trace| - 1], trace[|trace| - 1];
        IsTrace(kernel, front) && last.from == End(front) && IsSettled(kernel, last))
  }

  function Asked(trace: seq<Request>): seq<Byte> {
    if trace == [] then [] else Asked(trace[..|trace| - 1]) + trace[|trace| - 1].buf
  }

  function Sent(kernel: nat -> Outcome, trace: seq<Request>): seq<Byte> {
    if trace == [] then []
    else
      var last := trace[|trace| - 1];
      Sent(kernel, trace[..|trace| - 1]) + Run(kernel, last.from, last.buf, last.made).sent
  }

  /** The bytes sent by the requests that were begun before the first hard error. */
  ghost function SoundLength(kernel: nat -> Outcome, trace: seq<Request>): nat {
    if trace == [] then 0
    else if Clean(kernel, trace[|trace| - 1].from) then |Sent(kernel, trace)|
    else SoundLength(kernel, trace[..|trace| - 1])
  }

  /** What was sent is what was asked for up to the end of the first request that met a hard error,
      and from there on what was asked for with some bytes left out. */
  lemma {:induction false} TraceIsSound(kernel: nat -> Outcome, trace: seq<Request>)
    requires IsTrace(kernel, trace)
    ensures Sound(Sent(kernel, trace), Asked(trace), SoundLength(kernel, trace))
    ensures Clean(kernel, End(trace)) ==> SoundLength(kernel, trace) == |Sent(kernel, trace)| == |Asked(trace)|
    ensures Clean(kernel, End(trace)) ==> Sent(kernel, trace) == Asked(trace)
  {
    hide Run, Subsequence;
    if trace == [] {
      NothingIsSubsequence([]);
    } else {
      var front, last := trace[..|trace| - 1], trace[|trace| - 1];
      var t := Run(kernel, last.from, last.buf, last.made);
      TraceIsSound(kernel, front);
      RunKeepsOrder(kernel, last.from, last.buf, last.made);
      CleanRunSendsAll(kernel, last.from, last.buf, last.made);
      SoundWithNext(Sent(kernel, front), Asked(front), SoundLength(kernel, front), t.sent, t.rest);
    }
  }

  lemma OneMoreRequest(kernel: nat -> Outcome, front: seq<Request>, last: Request)
    requires IsTrace(kernel, front) && last.from == End(front) && IsSettled(kernel, last)
    ensures var trace := front + [last];
            && IsTrace(kernel, trace) && End(trace) == last.from + last.made
            && Asked(trace) == Asked(front) + last.buf
            && Sent(kernel, trace) == Sent(kernel, front) + Run(kernel, last.from, last.buf, last.made).sent
  {
    assert (front + [last])[..|front|] == front;
  }

  /** The do-while loop of systemWrite: partial writes and EINTR are retried,
      any other error abandons the rest of the buffer. p stands for the pointer and the length left. */
  method Retry(kernel: nat -> Outcome, ghost budget: nat, from: nat, buf: seq<Byte>)
      returns (sent: seq<Byte>, made: nat)
    requires Fair(kernel, budget)
    ensures IsSettled(kernel, Request(buf, from, made))
    ensures sent == Run(kernel, from, buf, made).sent
  {
    var p, status := buf, Running;
    sent, made := [], 0;
    while status.Running?
      invariant Run(kernel, from, buf, made) == Transfer(sent, p, status)
      invariant status.Running? || made > 0
      invariant made > 0 ==> Run(kernel, from, buf, made - 1).status.Running?
      decreases |buf| + budget + 1 - made
    {
      FairRunSettles(kernel, from, buf, budget, made);
      RunOneMoreTurn(kernel, from, buf, made);
      var answer := kernel(from + made);
      var n := Taken(answer, |p|);
      sent := sent + p[..n];
      p := p[n..];
      status := StatusAfter(answer, |p|);
      made := made + 1;
    }
  }

  /** An open file. `requested` is everything systemWrite was asked to write. */
  class Descriptor {
    const kernel: nat -> Outcome
    ghost const budget: nat
    var calls: nat
    var written: seq<Byte>
    ghost var requested: seq<Byte>
    ghost var trace: seq<Request> // all requests so far

    ghost predicate Valid()
      reads this
    {
      && Fair(kernel, budget)
      && IsTrace(kernel, trace)
      && calls == End(trace) && written == Sent(kernel, trace) && requested == Asked(trace)
    }

    constructor (kernel: nat -> Outcome, ghost budget: nat)
      requires Fair(kernel, budget)
      ensures Valid()
      ensures this.kernel == kernel && this.budget == budget
      ensures calls == 0 && written == [] && requested == [] && trace == []
    {
      this.kernel := kernel;
      this.budget := budget;
      calls := 0;
      written := [];
      requested := [];
      trace := [];
    }

    /** Hands a buffer to the file. */
    method SystemWrite(buf: seq<Byte>)
      requires Valid()
      modifies this
      ensures Valid()
      ensures requested == old(requested) + buf
      ensures calls > old(calls)
      ensures var t := Run(kernel, old(calls), buf, calls - old(calls));
              !t.status.Running? && written == old(written) + t.sent
      ensures trace == old(trace) + [Request(buf, old(calls), calls - old(calls))]
    {
      hide Run;
      var sent, made := Retry(kernel, budget, calls, buf);
      OneMoreRequest(kernel, trace, Request(buf, calls, made));
      trace := trace + [Request(buf, calls, made)];
      calls := calls + made;
      written := written + sent;
      requested := requested + buf;
    }
  }
}
