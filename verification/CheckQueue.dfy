/**
 The check queue shared by one master and any number of workers.

 `Shared` holds the fields guarded by the mutex, and the functions on it are the pieces of a
 critical section of `Loop`. `Queue` is the class whose methods carry those pieces out in place.
 `System` adds one phase per thread and a history of the current round; its steps are whole
 critical sections and single check executions, interleaved in any order.
 */
module CheckQueue {
  import opened Numbers

  /** A queued verification: an identity, and what its operator() returns. */
  datatype Check = Check(id: nat, passes: bool)

  const UINT_MAX_PLUS_1: nat := 0x1_0000_0000

  datatype Shared = Shared(
    queue: seq<Check>,
    nIdle: int,
    nTotal: int,
    fAllOk: bool,
    nTodo: nat,
    fQuit: bool)

  // ----- pieces of a critical section -----

  function AddChecks(sh: Shared, checks: seq<Check>): Shared {
    sh.(queue := sh.queue + checks, nTodo := (sh.nTodo + |checks|) % UINT_MAX_PLUS_1)
  }

  /** Bookkeeping for a finished batch, done at the start of the next critical section. */
  function CleanUp(sh: Shared, fMaster: bool, nNow: nat, fOk: bool): Shared {
    var todo := if sh.nTodo >= nNow then sh.nTodo - nNow else sh.nTodo;
    var done := sh.(fAllOk := sh.fAllOk && fOk, nTodo := todo);
    var cleared := if todo == 0 && !fMaster then done.(queue := []) else done;
    if cleared.fQuit && !fMaster then
      cleared.(nTodo := (todo - |cleared.queue|) % UINT_MAX_PLUS_1, queue := [])
    else
      cleared
  }

  /** How many checks the next batch takes. */
  function BatchSize(sh: Shared, nBatchSize: nat): nat
    requires 0 <= sh.nTotal + sh.nIdle
  {
    var share := (|sh.queue| % UINT_MAX_PLUS_1) / (sh.nTotal + sh.nIdle + 1);
    var capped := if nBatchSize < share then nBatchSize else share;
    if capped < 1 then 1 else capped
  }

  function Reversed(s: seq<Check>): seq<Check> {
    if s == [] then [] else [s[|s| - 1]] + Reversed(s[..|s| - 1])
  }

  /** What a thread does at the head of the inner loop. */
  datatype Outcome = Return(verdict: bool) | Wait | Work(batch: seq<Check>)

  /** The head of the inner loop: return the verdict, go idle, or pop a batch off the back. */
  function Head(sh: Shared, fMaster: bool, nBatchSize: nat): (Shared, Outcome)
    requires 0 <= sh.nTotal + sh.nIdle
  {
    if sh.queue == [] then
      if fMaster && sh.nTodo == 0 then
        (sh.(nTotal := sh.nTotal - 1, fAllOk := true, fQuit := false), Return(sh.fAllOk))
      else
        (sh.(nIdle := sh.nIdle + 1), Wait)
    else
      BatchFits(sh, nBatchSize);
      var keep := |sh.queue| - BatchSize(sh, nBatchSize);
      (sh.(queue := sh.queue[..keep]), Work(Reversed(sh.queue[keep..])))
  }

  lemma BatchFits(sh: Shared, nBatchSize: nat)
    requires 0 <= sh.nTotal + sh.nIdle
    requires sh.queue != []
    ensures 1 <= BatchSize(sh, nBatchSize) <= |sh.queue|
  {
    ShareFits(|sh.queue| % UINT_MAX_PLUS_1, sh.nTotal + sh.nIdle + 1);
  }

  lemma ShareFits(q: nat, d: nat)
    requires d > 0
    ensures 0 <= q / d <= q
  {
    var k := q / d;
    assert k * d <= q;
    MulMono(1, d, k);
  }

  predicate IsIdle(sh: Shared) {
    sh.nTotal == sh.nIdle && sh.nTodo == 0 && sh.fAllOk
  }

  lemma ReversedPops(s: seq<Check>)
    requires s != []
    ensures Reversed(s) == [s[|s| - 1]] + Reversed(s[..|s| - 1])
  {
  }

  lemma ReversedNothing()
    ensures Reversed([]) == []
  {
  }

  lemma {:induction false} ReversedKeeps(s: seq<Check>)
    ensures multiset(Reversed(s)) == multiset(s)
    ensures |Reversed(s)| == |s|
  {
    if s != [] {
      ReversedKeeps(s[..|s| - 1]);
      assert s == s[..|s| - 1] + [s[|s| - 1]];
    }
  }

  // ----- the class -----

  class Queue {
    var queue: seq<Check>
    var nIdle: int
    var nTotal: int
    var fAllOk: bool
    var nTodo: nat
    var fQuit: bool
    const nBatchSize: nat

    function State(): Shared
      reads this
    {
      Shared(queue, nIdle, nTotal, fAllOk, nTodo, fQuit)
    }

    constructor (nBatchSizeIn: nat)
      ensures State() == Shared([], 0, 0, true, 0, false)
      ensures nBatchSize == nBatchSizeIn
    {
      queue, nIdle, nTotal, fAllOk, nTodo, fQuit := [], 0, 0, true, 0, false;
      nBatchSize := nBatchSizeIn;
    }

    method Add(vChecks: seq<Check>)
      modifies this
      ensures State() == AddChecks(old(State()), vChecks)
    {
      for i := 0 to |vChecks|
        invariant State() == old(State()).(queue := old(queue) + vChecks[..i])
      {
        queue := queue + [vChecks[i]];
        assert vChecks[..i + 1] == vChecks[..i] + [vChecks[i]];
      }
      assert vChecks[..|vChecks|] == vChecks;
      nTodo := (nTodo + |vChecks|) % UINT_MAX_PLUS_1;
    }

    method FinishBatch(fMaster: bool, nNow: nat, fOk: bool)
      modifies this
      ensures State() == CleanUp(old(State()), fMaster, nNow, fOk)
    {
      fAllOk := fAllOk && fOk;
      if nTodo >= nNow {
        nTodo := nTodo - nNow;
      }
      if nTodo == 0 && !fMaster {
        queue := [];
      }
      if fQuit && !fMaster {
        nTodo := (nTodo - |queue|) % UINT_MAX_PLUS_1;
        queue := [];
      }
    }

    /** The head of the inner loop, up to the wait, the return or the end of the critical section. */
    method AtHead(fMaster: bool) returns (outcome: Outcome)
      requires 0 <= nTotal + nIdle
      modifies this
      ensures (State(), outcome) == Head(old(State()), fMaster, nBatchSize)
    {
      if queue == [] {
        if fMaster && nTodo == 0 {
          nTotal := nTotal - 1;
          outcome := Return(fAllOk);
          fAllOk := true;
          fQuit := false;
          return;
        }
        nIdle := nIdle + 1;
        return Wait;
      }
      var nNow := BatchSize(State(), nBatchSize);
      BatchFits(State(), nBatchSize);
      var vChecks := PopBatch(nNow);
      outcome := Work(vChecks);
    }

    /** Moves the last `nNow` checks of the queue into a batch, last one first. */
    method PopBatch(nNow: nat) returns (vChecks: seq<Check>)
      requires nNow <= |queue|
      modifies this`queue
      ensures queue == old(queue)[..|old(queue)| - nNow]
      ensures vChecks == Reversed(old(queue)[|old(queue)| - nNow..])
    {
      hide Reversed;
      ReversedNothing();
      vChecks := [];
      ghost var was := queue;
      ghost var keep := |queue| - nNow;
      for i := 0 to nNow
        invariant queue == was[..|was| - i]
        invariant vChecks + Reversed(was[keep..|was| - i]) == Reversed(was[keep..])
      {
        ReversedPops(was[keep..|was| - i]);
        assert was[keep..|was| - i][..nNow - i - 1] == was[keep..|was| - i - 1];
        vChecks := vChecks + [queue[|queue| - 1]];
        queue := queue[..|queue| - 1];
      }
      assert was[keep..|was| - nNow] == [];
    }

    /** The batch, run outside the lock: a check runs only while all before it passed. */
    method RunBatch(vChecks: seq<Check>, fAllOkSeen: bool) returns (fOk: bool, ghost ran: nat)
      ensures fOk == (fAllOkSeen && forall c | c in vChecks :: c.passes)
      ensures ran <= |vChecks| && (fOk ==> ran == |vChecks|) && (!fAllOkSeen ==> ran == 0)
      ensures fAllOkSeen && !fOk ==>
                ran > 0 && !vChecks[ran - 1].passes && forall c | c in vChecks[..ran - 1] :: c.passes
    {
      fOk, ran := fAllOkSeen, 0;
      for i := 0 to |vChecks|
        invariant fOk == (fAllOkSeen && forall c | c in vChecks[..i] :: c.passes)
        invariant ran <= i && (fOk ==> ran == i) && (!fAllOkSeen ==> ran == 0)
        invariant fAllOkSeen && !fOk ==>
                    ran > 0 && !vChecks[ran - 1].passes && forall c | c in vChecks[..ran - 1] :: c.passes
      {
        assert vChecks[..i + 1] == vChecks[..i] + [vChecks[i]];
        if fOk {
          fOk, ran := vChecks[i].passes, ran + 1;
        }
      }
      assert vChecks[..|vChecks|] == vChecks;
    }
  }

  // ----- the transition system -----

  /** `nNow` is the size of the batch being run, `rest` the part of it not reached yet. */
  datatype Phase = Outside | Parked | Running(rest: seq<Check>, nNow: nat, fOk: bool)

  /** What happened to the checks of one round, that is, between two returns of Wait. */
  datatype Round = Round(
    added: multiset<Check>,
    ran: multiset<Check>,
    skipped: multiset<Check>,
    dropped: multiset<Check>,
    quit: bool)

  const EMPTY_ROUND := Round(multiset{}, multiset{}, multiset{}, multiset{}, false)

  /** Thread 0 is the master. `finished` lists every return of Wait with the round it closed. */
  datatype System = System(
    sh: Shared,
    threads: seq<Phase>,
    round: Round,
    finished: seq<(Round, bool)>)

  /** `Section(t)` is the next whole critical section of thread `t`, `Execute(t)` its next check. */
  datatype Action =
    | Add(checks: seq<Check>)
    | Quit(flag: bool)
    | Section(t: nat)
    | Execute(t: nat)

  predicate IsMaster(t: nat) { t == 0 }

  function Init(workers: nat): System {
    System(Shared([], 0, 0, true, 0, false), seq(workers + 1, _ => Outside), EMPTY_ROUND, [])
  }

  /** Checks not yet accounted for: queued, or in some thread's batch. */
  function Outstanding(s: System): nat { |s.sh.queue| + Sum(InFlight, s.threads) }

  /** `Add` is limited to what a 32-bit counter can hold; AddCountsExactly says why. */
  predicate Enabled(s: System, a: Action) {
    match a
    case Add(checks) => Outstanding(s) + |checks| < UINT_MAX_PLUS_1
    case Quit(_) => true
    case Section(t) => t < |s.threads| && (s.threads[t].Running? ==> s.threads[t].rest == [])
    case Execute(t) => t < |s.threads| && s.threads[t].Running? && s.threads[t].rest != []
  }

  /** Thread `t`, holding the lock, reaches the head of the inner loop. */
  function AtHead(s: System, t: nat, nBatchSize: nat): System
    requires t < |s.threads| && 0 <= s.sh.nTotal + s.sh.nIdle
  {
    var (sh, outcome) := Head(s.sh, IsMaster(t), nBatchSize);
    match outcome
    case Return(verdict) =>
      System(sh, s.threads[t := Outside], EMPTY_ROUND, s.finished + [(s.round, verdict)])
    case Wait =>
      System(sh, s.threads[t := Parked], s.round, s.finished)
    case Work(batch) =>
      System(sh, s.threads[t := Running(batch, |batch|, sh.fAllOk)], s.round, s.finished)
  }

  /** What thread `t` does under the lock before it reaches the head of the inner loop. */
  function BeforeHead(s: System, t: nat): Shared
    requires t < |s.threads|
  {
    match s.threads[t]
    case Outside => s.sh.(nTotal := s.sh.nTotal + 1)
    case Parked => s.sh.(nIdle := s.sh.nIdle - 1)
    case Running(_, nNow, fOk) => CleanUp(s.sh, IsMaster(t), nNow, fOk)
  }

  /** Thread `t` inside the loop, with no batch and nothing to wait for; its phase reads Outside. */
  function InLoopState(s: System, t: nat): System
    requires t < |s.threads|
  {
    var sh := BeforeHead(s, t);
    var dropped := multiset(s.sh.queue) - multiset(sh.queue);
    System(sh, s.threads[t := Outside], s.round.(dropped := s.round.dropped + dropped), s.finished)
  }

  function ExecuteNext(s: System, t: nat): System
    requires Enabled(s, Execute(t))
  {
    var p := s.threads[t];
    var c := p.rest[0];
    var r := s.round;
    System(
      s.sh,
      s.threads[t := Running(p.rest[1..], p.nNow, p.fOk && c.passes)],
      if p.fOk then r.(ran := r.ran + multiset{c}) else r.(skipped := r.skipped + multiset{c}),
      s.finished)
  }

  predicate CanStep(s: System, a: Action) {
    && Enabled(s, a)
    && (a.Section? ==> 0 <= BeforeHead(s, a.t).nTotal + BeforeHead(s, a.t).nIdle)
  }

  function Next(s: System, a: Action, nBatchSize: nat): System
    requires CanStep(s, a)
  {
    match a
    case Add(checks) =>
      System(AddChecks(s.sh, checks), s.threads,
             s.round.(added := s.round.added + multiset(checks)), s.finished)
    case Quit(flag) =>
      System(s.sh.(fQuit := flag), s.threads, s.round.(quit := s.round.quit || flag), s.finished)
    case Execute(t) =>
      ExecuteNext(s, t)
    case Section(t) =>
      AtHead(InLoopState(s, t), t, nBatchSize)
  }

  // ----- sums over the threads -----

  function Sum(f: Phase -> nat, ts: seq<Phase>): nat {
    if ts == [] then 0 else f(ts[0]) + Sum(f, ts[1..])
  }

  function InFlight(p: Phase): nat { if p.Running? then p.nNow else 0 }
  function Inside(p: Phase): nat { if p.Outside? then 0 else 1 }
  function Idle(p: Phase): nat { if p.Parked? then 1 else 0 }

  function Rest(p: Phase): multiset<Check> {
    if p.Running? then multiset(p.rest) else multiset{}
  }

  function Pending(ts: seq<Phase>): multiset<Check> {
    if ts == [] then multiset{} else Rest(ts[0]) + Pending(ts[1..])
  }

  lemma {:induction false} SumUpdate(f: Phase -> nat, ts: seq<Phase>, t: nat, p: Phase)
    requires t < |ts|
    ensures Sum(f, ts[t := p]) == Sum(f, ts) - f(ts[t]) + f(p)
  {
    if t == 0 {
      assert ts[t := p][1..] == ts[1..];
    } else {
      SumUpdate(f, ts[1..], t - 1, p);
      assert ts[t := p][1..] == ts[1..][t - 1 := p];
    }
  }

  lemma {:induction false} SumAtLeast(f: Phase -> nat, ts: seq<Phase>, t: nat)
    requires t < |ts|
    ensures f(ts[t]) <= Sum(f, ts)
  {
    if t > 0 { SumAtLeast(f, ts[1..], t - 1); }
  }

  lemma {:induction false} SumLeq(f: Phase -> nat, g: Phase -> nat, ts: seq<Phase>)
    requires forall t | 0 <= t < |ts| :: f(ts[t]) <= g(ts[t])
    ensures Sum(f, ts) <= Sum(g, ts)
  {
    if ts != [] {
      assert forall t | 0 <= t < |ts[1..]| :: ts[1..][t] == ts[t + 1];
      SumLeq(f, g, ts[1..]);
    }
  }

  lemma {:induction false} PendingUpdate(ts: seq<Phase>, t: nat, p: Phase)
    requires t < |ts|
    ensures Pending(ts[t := p]) + Rest(ts[t]) == Pending(ts) + Rest(p)
  {
    if t == 0 {
      assert ts[t := p][1..] == ts[1..];
    } else {
      PendingUpdate(ts[1..], t - 1, p);
      assert ts[t := p][1..] == ts[1..][t - 1 := p];
      Regroup(Rest(ts[0]), Pending(ts[1..][t - 1 := p]), Rest(ts[t]), Pending(ts[1..]), Rest(p));
    }
  }

  /** A thread with nothing left in its batch moves to phase `p`. */
  lemma PendingGrows(ts: seq<Phase>, t: nat, p: Phase)
    requires t < |ts| && Rest(ts[t]) == multiset{}
    ensures Pending(ts[t := p]) == Pending(ts) + Rest(p)
  {
    PendingUpdate(ts, t, p);
    assert Pending(ts[t := p]) + multiset{} == Pending(ts[t := p]);
  }

  lemma Regroup<T>(a: multiset<T>, b: multiset<T>, c: multiset<T>, d: multiset<T>, e: multiset<T>)
    requires b + c == d + e
    ensures (a + b) + c == (a + d) + e
  {
    assert (a + b) + c == a + (b + c);
    assert (a + d) + e == a + (d + e);
  }

  lemma Cancel<T>(a: multiset<T>, b: multiset<T>, c: multiset<T>, d: multiset<T>)
    requires a + (c + d) == b + d
    ensures b == a + c
  {
    forall x: T
      ensures b[x] == (a + c)[x]
    {
      assert (a + (c + d))[x] == (b + d)[x];
    }
  }

  lemma {:induction false} AllOutside(ts: seq<Phase>)
    requires forall t | 0 <= t < |ts| :: ts[t].Outside?
    ensures Sum(InFlight, ts) == Sum(Inside, ts) == Sum(Idle, ts) == 0
    ensures Pending(ts) == multiset{}
  {
    if ts != [] {
      assert forall t | 0 <= t < |ts[1..]| :: ts[1..][t] == ts[t + 1];
      AllOutside(ts[1..]);
    }
  }

  /** Nothing in flight: every thread is parked or outside, so all threads inside are idle. */
  lemma {:induction false} NothingInFlight(ts: seq<Phase>)
    requires Sum(InFlight, ts) == 0
    requires forall t | 0 <= t < |ts| && ts[t].Running? :: ts[t].nNow >= 1
    ensures forall t | 0 <= t < |ts| :: !ts[t].Running?
    ensures Sum(Inside, ts) == Sum(Idle, ts)
    ensures Pending(ts) == multiset{}
  {
    if ts != [] {
      assert forall t | 0 <= t < |ts[1..]| :: ts[1..][t] == ts[t + 1];
      NothingInFlight(ts[1..]);
      assert forall t | 1 <= t < |ts| :: ts[t] == ts[1..][t - 1];
    }
  }

  // ----- invariants -----

  predicate AnyFailed(ran: multiset<Check>) { exists c | c in ran :: !c.passes }

  predicate SomeRunFailed(ts: seq<Phase>) {
    exists t | 0 <= t < |ts| :: ts[t].Running? && !ts[t].fOk
  }

  /** The counters agree with the threads and the queue. */
  ghost predicate Counted(s: System) {
    && |s.threads| >= 1
    && (forall t | 0 <= t < |s.threads| && s.threads[t].Running? ::
          |s.threads[t].rest| <= s.threads[t].nNow && 1 <= s.threads[t].nNow)
    && s.sh.nIdle == Sum(Idle, s.threads)
    && s.sh.nTotal == Sum(Inside, s.threads)
    && s.sh.nTodo == Outstanding(s) < UINT_MAX_PLUS_1
    && s.sh.nTodo <= |s.round.added|
  }

  ghost predicate Balanced(added: multiset<Check>, held: multiset<Check>, r: Round) {
    forall c: Check :: added[c] == held[c] + r.ran[c] + r.skipped[c] + r.dropped[c]
  }

  /** Checks still held: queued, or in some thread's batch. */
  function Held(s: System): multiset<Check> { multiset(s.sh.queue) + Pending(s.threads) }

  /** No check is lost or duplicated: each is queued, in a batch, run, skipped or dropped. */
  ghost predicate Conserved(s: System) { Balanced(s.round.added, Held(s), s.round) }

  /** The failure flags tell exactly what has failed so far; checks are skipped only after a failure. */
  ghost predicate Flagged(s: System) {
    var r := s.round;
    && (AnyFailed(r.ran) <==> !s.sh.fAllOk || SomeRunFailed(s.threads))
    && (r.skipped != multiset{} ==> AnyFailed(r.ran))
    && (s.sh.fQuit ==> r.quit)
    && (!r.quit ==> r.dropped == multiset{})
  }

  /** What a return of Wait with `verdict` means for the round it closes. */
  predicate Judged(r: Round, verdict: bool) {
    && r.ran + r.skipped + r.dropped == r.added
    && (verdict <==> forall c | c in r.ran :: c.passes)
    && (r.skipped != multiset{} ==> !verdict)
    && (!r.quit ==> r.dropped == multiset{})
  }

  predicate AllJudged(s: System) { forall f | f in s.finished :: Judged(f.0, f.1) }

  ghost predicate Inv(s: System) {
    Counted(s) && Conserved(s) && Flagged(s) && AllJudged(s)
  }

  // ----- every step keeps the invariant -----

  lemma StepPossible(s: System, a: Action)
    requires Counted(s) && Enabled(s, a)
    ensures CanStep(s, a)
  {
    if a.Section? && s.threads[a.t].Parked? { SumAtLeast(Idle, s.threads, a.t); }
  }

  lemma PhaseUpdate(ts: seq<Phase>, t: nat, p: Phase)
    requires t < |ts|
    ensures Sum(InFlight, ts[t := p]) == Sum(InFlight, ts) - InFlight(ts[t]) + InFlight(p)
    ensures Sum(Inside, ts[t := p]) == Sum(Inside, ts) - Inside(ts[t]) + Inside(p)
    ensures Sum(Idle, ts[t := p]) == Sum(Idle, ts) - Idle(ts[t]) + Idle(p)
  {
    SumUpdate(InFlight, ts, t, p);
    SumUpdate(Inside, ts, t, p);
    SumUpdate(Idle, ts, t, p);
  }

  lemma RunFailedUpdate(ts: seq<Phase>, t: nat, p: Phase)
    requires t < |ts|
    ensures SomeRunFailed(ts) ==> SomeRunFailed(ts[t := p]) || (ts[t].Running? && !ts[t].fOk)
    ensures p.Running? && !p.fOk ==> SomeRunFailed(ts[t := p])
    ensures SomeRunFailed(ts[t := p]) ==> SomeRunFailed(ts) || (p.Running? && !p.fOk)
  {
    if SomeRunFailed(ts) {
      var u :| 0 <= u < |ts| && ts[u].Running? && !ts[u].fOk;
      assert u != t ==> ts[t := p][u] == ts[u];
    }
    if p.Running? && !p.fOk {
      assert ts[t := p][t] == p;
    }
    if SomeRunFailed(ts[t := p]) {
      var u :| 0 <= u < |ts| && ts[t := p][u].Running? && !ts[t := p][u].fOk;
      assert u != t ==> ts[t := p][u] == ts[u];
    }
  }

  /** Thread `t` holds the lock and is counted in nTotal, though its phase reads Outside. */
  ghost predicate CountedInLoop(m: System, t: nat) {
    && t < |m.threads| && m.threads[t].Outside?
    && Counted(m.(sh := m.sh.(nTotal := m.sh.nTotal - 1)))
  }

  lemma InLoopCounted(s: System, t: nat)
    requires Counted(s) && Enabled(s, Section(t))
    ensures CountedInLoop(InLoopState(s, t), t)
  {
    PhaseUpdate(s.threads, t, Outside);
    SumAtLeast(InFlight, s.threads, t);
    if s.threads[t].Running? {
      CleanUpCounts(s.sh, IsMaster(t), s.threads[t].nNow, s.threads[t].fOk);
    }
  }

  /** Finishing a batch takes it off nTodo, and what Quit drops leaves nTodo and queue together. */
  lemma CleanUpCounts(sh: Shared, fMaster: bool, nNow: nat, fOk: bool)
    requires nNow + |sh.queue| <= sh.nTodo < UINT_MAX_PLUS_1
    ensures var done := CleanUp(sh, fMaster, nNow, fOk);
            && done.nTodo - |done.queue| == sh.nTodo - nNow - |sh.queue|
            && done.nTodo <= sh.nTodo
            && done.nTotal == sh.nTotal && done.nIdle == sh.nIdle
  {
  }

  lemma InLoopConserved(s: System, t: nat)
    requires Counted(s) && Conserved(s) && Enabled(s, Section(t))
    ensures Conserved(InLoopState(s, t))
  {
    PendingGrows(s.threads, t, Outside);
    var m := InLoopState(s, t);
    var q := multiset(s.sh.queue);
    if m.sh.queue == s.sh.queue {
      assert q - q == multiset{};
      assert m.round == s.round;
    } else {
      QueueDropped(s, t);
      DropBalanced(q, Pending(s.threads), s.round);
    }
  }

  lemma QueueDropped(s: System, t: nat)
    requires t < |s.threads| && BeforeHead(s, t).queue != s.sh.queue
    ensures BeforeHead(s, t).queue == []
    ensures InLoopState(s, t).round == s.round.(dropped := s.round.dropped + multiset(s.sh.queue))
  {
  }

  lemma DropBalanced(q: multiset<Check>, p: multiset<Check>, r: Round)
    requires Balanced(r.added, q + p, r)
    ensures Balanced(r.added, multiset{} + p, r.(dropped := r.dropped + q))
  {
  }

  /** Folding a batch's own result into fAllOk loses no failure and invents none. */
  lemma InLoopFlagged(s: System, t: nat)
    requires Counted(s) && Flagged(s) && Enabled(s, Section(t))
    ensures Flagged(InLoopState(s, t))
  {
    RunFailedUpdate(s.threads, t, Outside);
    SumAtLeast(InFlight, s.threads, t);
    if s.threads[t].Running? && !s.threads[t].fOk {
      assert SomeRunFailed(s.threads);
    }
    var m := InLoopState(s, t);
    if !m.round.quit {
      assert m.sh.queue == s.sh.queue;
    }
  }

  lemma ReturnKeepsInv(m: System, t: nat, nBatchSize: nat)
    requires CountedInLoop(m, t) && Conserved(m) && Flagged(m) && AllJudged(m)
    requires Head(m.sh, IsMaster(t), nBatchSize).1.Return?
    ensures Inv(AtHead(m, t, nBatchSize))
    ensures IsIdle(AtHead(m, t, nBatchSize).sh)
    ensures forall u | 0 <= u < |m.threads| :: !m.threads[u].Running?
  {
    assert m.threads[t := Outside] == m.threads;
    NothingInFlight(m.threads);
    assert !SomeRunFailed(m.threads);
    assert m.round.ran + m.round.skipped + m.round.dropped == m.round.added;
    assert Judged(m.round, m.sh.fAllOk);
  }

  lemma WaitKeepsInv(m: System, t: nat, nBatchSize: nat)
    requires CountedInLoop(m, t) && Conserved(m) && Flagged(m) && AllJudged(m)
    requires Head(m.sh, IsMaster(t), nBatchSize).1.Wait?
    ensures Inv(AtHead(m, t, nBatchSize))
  {
    var s := System(m.sh.(nIdle := m.sh.nIdle + 1), m.threads[t := Parked], m.round, m.finished);
    assert AtHead(m, t, nBatchSize) == s;
    assert Counted(s) by { PhaseUpdate(m.threads, t, Parked); }
    assert Held(s) == Held(m) by { PendingGrows(m.threads, t, Parked); }
    assert Flagged(s) by { RunFailedUpdate(m.threads, t, Parked); }
  }

  lemma WorkKeepsCounts(m: System, t: nat, nBatchSize: nat, batch: seq<Check>)
    requires CountedInLoop(m, t)
    requires Head(m.sh, IsMaster(t), nBatchSize).1 == Work(batch)
    ensures Counted(AtHead(m, t, nBatchSize))
  {
    PhaseUpdate(m.threads, t, Running(batch, |batch|, m.sh.fAllOk));
    BatchShrinksQueue(m.sh, IsMaster(t), nBatchSize, batch);
  }

  lemma PopSplits(queue: seq<Check>, keep: nat)
    requires keep <= |queue|
    ensures multiset(queue) == multiset(queue[..keep]) + multiset(Reversed(queue[keep..]))
  {
    ReversedKeeps(queue[keep..]);
    assert queue == queue[..keep] + queue[keep..];
  }

  lemma WorkConserves(m: System, t: nat, nBatchSize: nat, batch: seq<Check>)
    requires CountedInLoop(m, t) && Conserved(m)
    requires Head(m.sh, IsMaster(t), nBatchSize).1 == Work(batch)
    ensures Conserved(AtHead(m, t, nBatchSize))
  {
    PendingGrows(m.threads, t, Running(batch, |batch|, m.sh.fAllOk));
    BatchFits(m.sh, nBatchSize);
    var keep := |m.sh.queue| - BatchSize(m.sh, nBatchSize);
    PopSplits(m.sh.queue, keep);
    Shift(multiset(m.sh.queue[..keep]), multiset(batch), Pending(m.threads));
    assert Held(AtHead(m, t, nBatchSize)) == Held(m);
  }

  lemma Shift<T>(a: multiset<T>, b: multiset<T>, c: multiset<T>)
    ensures (a + b) + c == a + (c + b)
  {
  }

  lemma WorkKeepsInv(m: System, t: nat, nBatchSize: nat, batch: seq<Check>)
    requires CountedInLoop(m, t) && Conserved(m) && Flagged(m) && AllJudged(m)
    requires Head(m.sh, IsMaster(t), nBatchSize).1 == Work(batch)
    ensures Inv(AtHead(m, t, nBatchSize))
  {
    WorkKeepsCounts(m, t, nBatchSize, batch);
    WorkConserves(m, t, nBatchSize, batch);
    RunFailedUpdate(m.threads, t, Running(batch, |batch|, m.sh.fAllOk));
  }

  lemma SectionKeepsInv(s: System, t: nat, nBatchSize: nat)
    requires Inv(s) && CanStep(s, Section(t))
    ensures Inv(Next(s, Section(t), nBatchSize))
  {
    InLoopCounted(s, t);
    InLoopConserved(s, t);
    InLoopFlagged(s, t);
    var m := InLoopState(s, t);
    match Head(m.sh, IsMaster(t), nBatchSize).1
    case Return(_) => ReturnKeepsInv(m, t, nBatchSize);
    case Wait => WaitKeepsInv(m, t, nBatchSize);
    case Work(batch) => WorkKeepsInv(m, t, nBatchSize, batch);
  }

  lemma ExecuteKeepsCounts(s: System, t: nat)
    requires Counted(s) && Enabled(s, Execute(t))
    ensures Counted(ExecuteNext(s, t))
  {
    var p := s.threads[t];
    PhaseUpdate(s.threads, t, Running(p.rest[1..], p.nNow, p.fOk && p.rest[0].passes));
  }

  lemma ExecuteConserves(s: System, t: nat)
    requires Conserved(s) && Enabled(s, Execute(t))
    ensures Conserved(ExecuteNext(s, t))
  {
    var p := s.threads[t];
    var c := p.rest[0];
    var q := Running(p.rest[1..], p.nNow, p.fOk && c.passes);
    PendingDrop(s.threads, t, q);
    hide Pending, Balanced;
    MoveBalanced(multiset(s.sh.queue), Pending(s.threads[t := q]), c, s.round);
  }

  /** A thread that takes a check off its batch takes it off what is pending. */
  lemma PendingDrop(ts: seq<Phase>, t: nat, q: Phase)
    requires t < |ts| && ts[t].Running? && ts[t].rest != [] && q.Running? && q.rest == ts[t].rest[1..]
    ensures Pending(ts) == Pending(ts[t := q]) + multiset{ts[t].rest[0]}
  {
    PendingUpdate(ts, t, q);
    var c := ts[t].rest[0];
    assert ts[t].rest == [c] + q.rest;
    hide Pending;
    Cancel(Pending(ts[t := q]), Pending(ts), multiset{c}, Rest(q));
  }

  lemma MoveBalanced(q: multiset<Check>, p: multiset<Check>, c: Check, r: Round)
    requires Balanced(r.added, q + (p + multiset{c}), r)
    ensures Balanced(r.added, q + p, r.(ran := r.ran + multiset{c}))
    ensures Balanced(r.added, q + p, r.(skipped := r.skipped + multiset{c}))
  {
  }

  lemma ExecuteFlags(s: System, t: nat)
    requires Flagged(s) && Enabled(s, Execute(t))
    ensures Flagged(ExecuteNext(s, t))
  {
    var p := s.threads[t];
    var c := p.rest[0];
    var s' := ExecuteNext(s, t);
    RunFailedUpdate(s.threads, t, s'.threads[t]);
    if p.fOk {
      assert s'.round.ran == s.round.ran + multiset{c};
      assert c in s'.round.ran;
      assert forall d | d in s'.round.ran :: d in s.round.ran || d == c;
      assert AnyFailed(s'.round.ran) <==> AnyFailed(s.round.ran) || !c.passes;
    } else {
      assert SomeRunFailed(s.threads);
    }
  }

  lemma StepKeepsInv(s: System, a: Action, nBatchSize: nat)
    requires Inv(s) && Enabled(s, a)
    ensures CanStep(s, a) && Inv(Next(s, a, nBatchSize))
  {
    StepPossible(s, a);
    match a
    case Add(checks) =>
    case Quit(flag) =>
    case Section(t) => SectionKeepsInv(s, t, nBatchSize);
    case Execute(t) =>
      ExecuteKeepsCounts(s, t);
      ExecuteConserves(s, t);
      ExecuteFlags(s, t);
  }

  // ----- whole runs -----

  /** `ss` are the states passed when the actions `acts` happen one after the other. */
  ghost predicate IsPath(ss: seq<System>, acts: seq<Action>, nBatchSize: nat) {
    && |ss| == |acts| + 1
    && forall i | 0 <= i < |acts| ::
         CanStep(ss[i], acts[i]) && ss[i + 1] == Next(ss[i], acts[i], nBatchSize)
  }

  ghost predicate IsRun(ss: seq<System>, acts: seq<Action>, workers: nat, nBatchSize: nat) {
    IsPath(ss, acts, nBatchSize) && ss[0] == Init(workers)
  }

  lemma {:induction false} PathKeepsInv(ss: seq<System>, acts: seq<Action>, nBatchSize: nat, i: nat)
    requires IsPath(ss, acts, nBatchSize) && Inv(ss[0]) && i < |ss|
    ensures Inv(ss[i])
  {
    if i > 0 {
      PathKeepsInv(ss, acts, nBatchSize, i - 1);
      StepKeepsInv(ss[i - 1], acts[i - 1], nBatchSize);
    }
  }

  lemma InitInv(workers: nat)
    ensures Inv(Init(workers))
  {
    AllOutside(Init(workers).threads);
  }

  lemma RunKeepsInv(ss: seq<System>, acts: seq<Action>, workers: nat, nBatchSize: nat, i: nat)
    requires IsRun(ss, acts, workers, nBatchSize) && i < |ss|
    ensures Inv(ss[i])
  {
    InitInv(workers);
    PathKeepsInv(ss, acts, nBatchSize, i);
  }

  /** The nTodo guard always holds, no subtraction wraps, and nTodo is exactly what is outstanding. */
  lemma RunCountsExactly(ss: seq<System>, acts: seq<Action>, workers: nat, nBatchSize: nat, i: nat, t: nat)
    requires IsRun(ss, acts, workers, nBatchSize) && i < |ss|
    requires Enabled(ss[i], Section(t))
    ensures ss[i].sh.nTodo == Outstanding(ss[i])
    ensures var p := ss[i].threads[t];
            p.Running? ==>
              && p.nNow <= ss[i].sh.nTodo
              && |ss[i].sh.queue| <= ss[i].sh.nTodo - p.nNow
              && (ss[i].sh.nTodo - p.nNow == 0 ==> ss[i].sh.queue == [])
  {
    RunKeepsInv(ss, acts, workers, nBatchSize, i);
    SumAtLeast(InFlight, ss[i].threads, t);
  }

  /** Without Quit, Wait answers true exactly when every check of the round passes. */
  lemma RunVerdicts(ss: seq<System>, acts: seq<Action>, workers: nat, nBatchSize: nat, i: nat, r: Round, verdict: bool)
    requires IsRun(ss, acts, workers, nBatchSize) && i < |ss|
    requires (r, verdict) in ss[i].finished
    ensures r.ran <= r.added
    ensures verdict <==> forall c | c in r.ran :: c.passes
    ensures !r.quit ==> (verdict <==> forall c | c in r.added :: c.passes)
    ensures !r.quit && verdict ==> r.ran == r.added
    ensures !verdict ==> exists c | c in r.ran :: !c.passes
    ensures r.skipped != multiset{} ==> exists c | c in r.ran :: !c.passes
  {
    RunKeepsInv(ss, acts, workers, nBatchSize, i);
    var f := (r, verdict);
    assert f in ss[i].finished && Judged(f.0, f.1);
    assert forall c | c in r.ran :: c in r.added;
    if !r.quit && verdict {
      assert r.ran == r.added;
    }
  }

  predicate NobodyRunning(ts: seq<Phase>) { forall u | 0 <= u < |ts| :: !ts[u].Running? }

  /** The only step that makes Wait return is a critical section of the master with nothing left. */
  lemma ReturningStep(s: System, a: Action, nBatchSize: nat)
    requires Inv(s) && CanStep(s, a)
    requires Next(s, a, nBatchSize).finished != s.finished
    ensures a == Section(0)
    ensures Next(s, a, nBatchSize).finished == s.finished + [(InLoopState(s, 0).round, InLoopState(s, 0).sh.fAllOk)]
    ensures IsIdle(Next(s, a, nBatchSize).sh)
    ensures NobodyRunning(Next(s, a, nBatchSize).threads)
    ensures Next(s, a, nBatchSize).round == EMPTY_ROUND
  {
    InLoopCounted(s, a.t);
    InLoopConserved(s, a.t);
    InLoopFlagged(s, a.t);
    ReturningHead(InLoopState(s, a.t), a.t, nBatchSize);
  }

  lemma ReturningHead(m: System, t: nat, nBatchSize: nat)
    requires CountedInLoop(m, t) && Conserved(m) && Flagged(m) && AllJudged(m)
    requires AtHead(m, t, nBatchSize).finished != m.finished
    ensures t == 0
    ensures AtHead(m, t, nBatchSize).finished == m.finished + [(m.round, m.sh.fAllOk)]
    ensures IsIdle(AtHead(m, t, nBatchSize).sh)
    ensures NobodyRunning(AtHead(m, t, nBatchSize).threads)
    ensures AtHead(m, t, nBatchSize).round == EMPTY_ROUND
  {
    ReturnKeepsInv(m, t, nBatchSize);
    assert m.threads[t := Outside] == m.threads;
  }

  /** When Wait returns, no thread has a batch, so the queue is idle. */
  lemma WaitReturnsIdle(ss: seq<System>, acts: seq<Action>, workers: nat, nBatchSize: nat, i: nat)
    requires IsRun(ss, acts, workers, nBatchSize) && i < |acts|
    requires ss[i + 1].finished != ss[i].finished
    ensures acts[i] == Section(0)
    ensures IsIdle(ss[i + 1].sh) && NobodyRunning(ss[i + 1].threads)
  {
    RunKeepsInv(ss, acts, workers, nBatchSize, i);
    ReturningStep(ss[i], acts[i], nBatchSize);
  }

  /** A controller made when nothing was added since the last Wait finds the queue idle. */
  lemma ControllerFindsIdle(ss: seq<System>, acts: seq<Action>, workers: nat, nBatchSize: nat, i: nat)
    requires IsRun(ss, acts, workers, nBatchSize) && i < |ss|
    requires ss[i].round.added == multiset{}
    ensures IsIdle(ss[i].sh)
  {
    RunKeepsInv(ss, acts, workers, nBatchSize, i);
    var s := ss[i];
    NothingInFlight(s.threads);
    assert forall c | c in s.round.ran :: s.round.added[c] > 0;
  }

  /** The 32-bit counter is exact after an Add precisely when the outstanding checks fit in it. */
  lemma AddCountsExactly(s: System, checks: seq<Check>)
    requires Inv(s)
    ensures AddChecks(s.sh, checks).nTodo == Outstanding(s) + |checks| <==> Enabled(s, Add(checks))
    ensures Enabled(s, Add(checks)) && checks != [] ==> !IsIdle(AddChecks(s.sh, checks))
  {
  }

  function AddedBy(acts: seq<Action>): multiset<Check> {
    if acts == [] then multiset{}
    else
      var a := acts[|acts| - 1];
      AddedBy(acts[..|acts| - 1]) + if a.Add? then multiset(a.checks) else multiset{}
  }

  function AddedIn(finished: seq<(Round, bool)>): multiset<Check> {
    if finished == [] then multiset{}
    else AddedIn(finished[..|finished| - 1]) + finished[|finished| - 1].0.added
  }

  /** The rounds of a run split the checks it added: none is in two rounds, none is in no round. */
  lemma {:induction false} RoundsSplitAdds(ss: seq<System>, acts: seq<Action>, workers: nat, nBatchSize: nat, i: nat)
    requires IsRun(ss, acts, workers, nBatchSize) && i < |ss|
    ensures AddedBy(acts[..i]) == AddedIn(ss[i].finished) + ss[i].round.added
  {
    if i > 0 {
      RoundsSplitAdds(ss, acts, workers, nBatchSize, i - 1);
      RunKeepsInv(ss, acts, workers, nBatchSize, i - 1);
      assert acts[..i][..i - 1] == acts[..i - 1];
      StepSplitsAdds(ss[i - 1], acts[i - 1], nBatchSize);
    }
  }

  lemma StepSplitsAdds(s: System, a: Action, nBatchSize: nat)
    requires Inv(s) && CanStep(s, a)
    ensures var s' := Next(s, a, nBatchSize);
            var more := if a.Add? then multiset(a.checks) else multiset{};
            AddedIn(s'.finished) + s'.round.added == (AddedIn(s.finished) + s.round.added) + more
  {
    var s' := Next(s, a, nBatchSize);
    if s'.finished != s.finished {
      ReturningStep(s, a, nBatchSize);
      assert s'.finished[..|s'.finished| - 1] == s.finished;
      assert s'.round.added == multiset{};
    } else {
      SameRoundAdds(s, a, nBatchSize);
    }
  }

  lemma SameRoundAdds(s: System, a: Action, nBatchSize: nat)
    requires CanStep(s, a) && Next(s, a, nBatchSize).finished == s.finished
    ensures Next(s, a, nBatchSize).round.added == s.round.added + if a.Add? then multiset(a.checks) else multiset{}
  {
    if a.Section? {
      assert InLoopState(s, a.t).round.added == s.round.added;
    }
  }

  // ----- progress -----

  function Load(p: Phase): nat { if p.Running? then |p.rest| + 1 else 0 }

  function WorkLeft(s: System): nat { 3 * |s.sh.queue| + Sum(Load, s.threads) }

  /** A thread with a batch, or any thread while checks are queued, brings the work down. */
  lemma WorkGoesDown(s: System, a: Action, nBatchSize: nat)
    requires Inv(s) && CanStep(s, a) && (a.Section? || a.Execute?)
    ensures WorkLeft(Next(s, a, nBatchSize)) <= WorkLeft(s)
    ensures s.threads[a.t].Running? || s.sh.queue != [] ==>
              WorkLeft(Next(s, a, nBatchSize)) < WorkLeft(s)
  {
    var s' := Next(s, a, nBatchSize);
    if a.Execute? {
      SumUpdate(Load, s.threads, a.t, s'.threads[a.t]);
    } else {
      SumUpdate(Load, s.threads, a.t, Outside);
      HeadWork(InLoopState(s, a.t), a.t, nBatchSize);
    }
  }

  lemma HeadWork(m: System, t: nat, nBatchSize: nat)
    requires t < |m.threads| && m.threads[t].Outside? && 0 <= m.sh.nTotal + m.sh.nIdle
    ensures WorkLeft(AtHead(m, t, nBatchSize)) <= WorkLeft(m)
    ensures m.sh.queue != [] ==> WorkLeft(AtHead(m, t, nBatchSize)) < WorkLeft(m)
  {
    var (sh, outcome) := Head(m.sh, IsMaster(t), nBatchSize);
    match outcome
    case Return(_) => SumUpdate(Load, m.threads, t, Outside);
    case Wait => SumUpdate(Load, m.threads, t, Parked);
    case Work(batch) =>
      SumUpdate(Load, m.threads, t, Running(batch, |batch|, sh.fAllOk));
      BatchShrinksQueue(m.sh, IsMaster(t), nBatchSize, batch);
  }

  lemma BatchShrinksQueue(sh: Shared, fMaster: bool, nBatchSize: nat, batch: seq<Check>)
    requires 0 <= sh.nTotal + sh.nIdle
    requires Head(sh, fMaster, nBatchSize).1 == Work(batch)
    ensures |batch| >= 1
    ensures |Head(sh, fMaster, nBatchSize).0.queue| + |batch| == |sh.queue|
  {
    BatchFits(sh, nBatchSize);
    ReversedKeeps(sh.queue[|sh.queue| - BatchSize(sh, nBatchSize)..]);
  }

  lemma {:induction false} NobodyBusy(ts: seq<Phase>)
    requires forall t | 0 <= t < |ts| :: !ts[t].Running?
    ensures Sum(Load, ts) == Sum(InFlight, ts) == 0
  {
    if ts != [] {
      assert forall t | 0 <= t < |ts[1..]| :: ts[1..][t] == ts[t + 1];
      NobodyBusy(ts[1..]);
    }
  }

  /** From every reachable state Wait can still return, within the work that is left. */
  lemma {:induction false} WaitCanReturn(s: System, nBatchSize: nat) returns (ss: seq<System>, acts: seq<Action>)
    requires Inv(s)
    ensures IsPath(ss, acts, nBatchSize) && ss[0] == s
    ensures |acts| <= WorkLeft(s) + 1
    ensures forall a | a in acts :: a.Section? || a.Execute?
    ensures |ss[|acts|].finished| == |s.finished| + 1
    decreases WorkLeft(s)
  {
    var a := UsefulStep(s, nBatchSize);
    var s' := Next(s, a, nBatchSize);
    StepKeepsInv(s, a, nBatchSize);
    if s'.finished != s.finished {
      ReturningStep(s, a, nBatchSize);
      ss, acts := [s, s'], [a];
    } else {
      var ss', acts' := WaitCanReturn(s', nBatchSize);
      PathPrepend(s, a, ss', acts', nBatchSize);
      ss, acts := [s] + ss', [a] + acts';
    }
  }

  lemma PathPrepend(s: System, a: Action, ss: seq<System>, acts: seq<Action>, nBatchSize: nat)
    requires IsPath(ss, acts, nBatchSize)
    requires CanStep(s, a) && ss[0] == Next(s, a, nBatchSize)
    ensures IsPath([s] + ss, [a] + acts, nBatchSize)
    ensures ([s] + ss)[|[a] + acts|] == ss[|acts|]
  {
    var ss', acts' := [s] + ss, [a] + acts;
    forall i | 0 <= i < |acts'|
      ensures CanStep(ss'[i], acts'[i]) && ss'[i + 1] == Next(ss'[i], acts'[i], nBatchSize)
    {
      if i > 0 { assert ss'[i] == ss[i - 1] && acts'[i] == acts[i - 1]; }
    }
  }

  /** Somebody can always bring the work down, and the master returns once there is none. */
  lemma UsefulStep(s: System, nBatchSize: nat) returns (a: Action)
    requires Inv(s)
    ensures CanStep(s, a) && (a.Section? || a.Execute?)
    ensures Next(s, a, nBatchSize).finished != s.finished || WorkLeft(Next(s, a, nBatchSize)) < WorkLeft(s)
  {
    if t :| 0 <= t < |s.threads| && s.threads[t].Running? {
      a := if s.threads[t].rest == [] then Section(t) else Execute(t);
    } else {
      a := Section(0);
      NobodyBusy(s.threads);
    }
    StepPossible(s, a);
    WorkGoesDown(s, a, nBatchSize);
    if !s.threads[a.t].Running? && s.sh.queue == [] {
      assert |Next(s, a, nBatchSize).finished| == |s.finished| + 1;
    }
  }

  /** A step of a thread that has a batch, or of any thread while checks are queued. */
  predicate IsUseful(s: System, a: Action)
    requires Enabled(s, a)
  {
    (a.Section? || a.Execute?) && (s.threads[a.t].Running? || s.sh.queue != [])
  }

  /** The useful ones among the first `n` steps of a path. */
  function UsefulSteps(ss: seq<System>, acts: seq<Action>, nBatchSize: nat, n: nat): nat
    requires IsPath(ss, acts, nBatchSize) && n <= |acts|
  {
    if n == 0 then 0
    else UsefulSteps(ss, acts, nBatchSize, n - 1) + if IsUseful(ss[n - 1], acts[n - 1]) then 1 else 0
  }

  /** On no path, however scheduled, are there more useful steps than work, until more is added. */
  lemma {:induction false} UsefulStepsBounded(ss: seq<System>, acts: seq<Action>, nBatchSize: nat, n: nat)
    requires IsPath(ss, acts, nBatchSize) && Inv(ss[0]) && n <= |acts|
    requires forall i | 0 <= i < n :: acts[i].Section? || acts[i].Execute?
    ensures UsefulSteps(ss, acts, nBatchSize, n) + WorkLeft(ss[n]) <= WorkLeft(ss[0])
  {
    hide Inv, WorkLeft, Next;
    if n > 0 {
      UsefulStepsBounded(ss, acts, nBatchSize, n - 1);
      PathKeepsInv(ss, acts, nBatchSize, n - 1);
      WorkGoesDown(ss[n - 1], acts[n - 1], nBatchSize);
    }
  }

  /** Once no step is useful any more, Wait returns at the master's next section. */
  lemma NothingUsefulLeft(s: System, nBatchSize: nat)
    requires Inv(s) && forall a: Action | Enabled(s, a) :: !IsUseful(s, a)
    ensures CanStep(s, Section(0)) && |Next(s, Section(0), nBatchSize).finished| == |s.finished| + 1
  {
    forall t | 0 <= t < |s.threads| ensures !s.threads[t].Running? && s.sh.queue == [] {
      var a := if s.threads[t].Running? && s.threads[t].rest != [] then Execute(t) else Section(t);
      assert Enabled(s, a) ==> !IsUseful(s, a);
    }
    NobodyBusy(s.threads);
    StepPossible(s, Section(0));
  }
}
