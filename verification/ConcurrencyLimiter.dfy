/**
 ConcurrencyLimiter of src/utils/rateLimit.ts in every interleaving. A release gives up its slot at once
 and resolves the first waiter, but that waiter takes the slot only when its continuation runs; other
 calls may come in between.
 */
module ConcurrencyLimiter {
  import opened Options

  /** Waiters are numbered as they queue. The last three fields are history. */
  datatype State = State(
    inflight: int,
    queue: seq<nat>,
    woken: set<nat>,
    arrivals: nat,
    wakes: seq<nat>,
    aborted: set<nat>)

  const IDLE := State(0, [], {}, 0, [], {})

  /** Resume is the continuation of a resolved waiter; Abort is its signal firing. */
  datatype Action = Acquire(aborted: bool) | Resume(id: nat) | Abort(id: nat) | Release

  datatype Ticket = Rejected | Granted | Waiting(id: nat)

  predicate Enabled(s: State, a: Action) {
    match a
    case Resume(id) => id in s.woken
    case Abort(id) => id < s.arrivals
    case _ => true
  }

  function IndexOf(q: seq<nat>, id: nat): (i: nat)
    ensures i <= |q| && (i < |q| <==> id in q) && (i < |q| ==> q[i] == id)
  {
    if q == [] || q[0] == id then 0 else 1 + IndexOf(q[1..], id)
  }

  function Step(max: int, s: State, a: Action): State {
    match a
    case Acquire(aborted) =>
      if aborted then s
      else if s.inflight < max then s.(inflight := s.inflight + 1)
      else s.(queue := s.queue + [s.arrivals], arrivals := s.arrivals + 1)
    case Resume(id) => s.(inflight := s.inflight + 1, woken := s.woken - {id})
    case Abort(id) =>
      var i := IndexOf(s.queue, id);
      if i < |s.queue| then s.(queue := s.queue[..i] + s.queue[i + 1..], aborted := s.aborted + {id}) else s
    case Release =>
      if s.queue == [] then s.(inflight := s.inflight - 1)
      else
        var next := s.queue[0];
        s.(inflight := s.inflight - 1, queue := s.queue[1..], woken := s.woken + {next}, wakes := s.wakes + [next])
  }

  // ---------------------------------------------------------------- the class

  class Limiter {
    const maxConcurrent: int
    var inflight: int
    var queue: seq<nat>
    var arrivals: nat
    ghost var woken: set<nat>
    ghost var wakes: seq<nat>
    ghost var aborted: set<nat>

    ghost function Now(): State
      reads this
    {
      State(inflight, queue, woken, arrivals, wakes, aborted)
    }

    ghost predicate Valid()
      reads this
    {
      Inv(maxConcurrent, Now())
    }

    constructor (maxConcurrent: int)
      ensures Valid() && Now() == IDLE && this.maxConcurrent == maxConcurrent
    {
      this.maxConcurrent := maxConcurrent;
      inflight, queue, arrivals := 0, [], 0;
      woken, wakes, aborted := {}, [], {};
    }

    /** Up to the wait. */
    method Acquire(signalAborted: bool) returns (ticket: Ticket)
      requires Valid()
      modifies this
      ensures Valid() && Now() == Step(maxConcurrent, old(Now()), Action.Acquire(signalAborted))
      ensures ticket == if signalAborted then Rejected
                        else if old(inflight) < maxConcurrent then Granted else Waiting(old(arrivals))
    {
      StepKeeps(maxConcurrent, Now(), Action.Acquire(signalAborted));
      if signalAborted {
        return Rejected;
      }
      if inflight < maxConcurrent {
        inflight := inflight + 1;
        return Granted;
      }
      ticket := Waiting(arrivals);
      queue, arrivals := queue + [arrivals], arrivals + 1;
    }

    /** After the wait. */
    method Resume(id: nat)
      requires Valid() && Enabled(Now(), Action.Resume(id))
      modifies this
      ensures Valid() && Now() == Step(maxConcurrent, old(Now()), Action.Resume(id))
    {
      StepKeeps(maxConcurrent, Now(), Action.Resume(id));
      inflight := inflight + 1;
      woken := woken - {id};
    }

    /** The abort listener of a waiter; once woken it is detached and the waiter is no longer queued. */
    method OnAbort(id: nat) returns (rejected: bool)
      requires Valid() && Enabled(Now(), Action.Abort(id))
      modifies this
      ensures Valid() && Now() == Step(maxConcurrent, old(Now()), Action.Abort(id))
      ensures rejected <==> id in old(queue)
    {
      StepKeeps(maxConcurrent, Now(), Action.Abort(id));
      var index := IndexOf(queue, id);
      rejected := index < |queue|;
      if rejected {
        queue := queue[..index] + queue[index + 1..];
        aborted := aborted + {id};
      }
    }

    method Release() returns (woke: Option<nat>)
      requires Valid()
      modifies this
      ensures Valid() && Now() == Step(maxConcurrent, old(Now()), Action.Release)
      ensures woke == if old(queue) == [] then None else Some(old(queue)[0])
    {
      StepKeeps(maxConcurrent, Now(), Action.Release);
      inflight := inflight - 1;
      woke := None;
      if queue != [] {
        woke := Some(queue[0]);
        woken, wakes := woken + {queue[0]}, wakes + [queue[0]];
        queue := queue[1..];
      }
    }
  }

  // ---------------------------------------------------------------- every interleaving

  predicate Increasing(s: seq<nat>) {
    forall i, j | 0 <= i < j < |s| :: s[i] < s[j]
  }

  /** Slots taken, or promised to a waiter that has not yet resumed. */
  function Committed(s: State): int {
    s.inflight + |s.woken|
  }

  /** In order of arrival, all that came and were not aborted. */
  ghost predicate Fair(all: seq<nat>, arrivals: nat, aborted: set<nat>) {
    && Increasing(all)
    && (forall id: nat :: id in all <==> id < arrivals && id !in aborted)
    && (forall id | id in aborted :: id < arrivals)
  }

  /**
   While anyone is queued every slot is committed. Waiters were woken in the order they came, each once;
   those woken and those queued are exactly those that came and were not aborted.
   */
  ghost predicate Inv(max: int, s: State) {
    && (s.queue != [] ==> Committed(s) >= max)
    && Fair(s.wakes + s.queue, s.arrivals, s.aborted)
    && (forall id | id in s.woken :: id in s.wakes)
  }

  lemma AbortedLeaves(all: seq<nat>, n: nat, arrivals: nat, aborted: set<nat>)
    requires Fair(all, arrivals, aborted) && n < |all|
    ensures Fair(all[..n] + all[n + 1..], arrivals, aborted + {all[n]})
  {
    var rest := all[..n] + all[n + 1..];
    assert all[n] in all;
    forall id: nat
      ensures id in rest <==> id in all && id != all[n]
    {
      assert all == all[..n] + [all[n]] + all[n + 1..];
      assert all[n] !in all[..n] && all[n] !in all[n + 1..];
    }
  }

  lemma ArrivalJoins(all: seq<nat>, arrivals: nat, aborted: set<nat>)
    requires Fair(all, arrivals, aborted)
    ensures Fair(all + [arrivals], arrivals + 1, aborted)
  {
    var more := all + [arrivals];
    assert forall i | 0 <= i < |all| :: more[i] == all[i] && all[i] in all;
    forall id: nat
      ensures id in more <==> id in all || id == arrivals
    {
      assert more[|all|] == arrivals;
    }
  }

  lemma AcquireKeeps(max: int, s: State)
    requires Inv(max, s)
    ensures Inv(max, Step(max, s, Acquire(false)))
  {
    assert s.wakes + (s.queue + [s.arrivals]) == (s.wakes + s.queue) + [s.arrivals];
    ArrivalJoins(s.wakes + s.queue, s.arrivals, s.aborted);
  }

  lemma ResumeKeeps(max: int, s: State, id: nat)
    requires Inv(max, s) && id in s.woken
    ensures Inv(max, Step(max, s, Resume(id)))
  {
    assert (s.woken - {id}) + {id} == s.woken;
  }

  lemma CutBehind(a: seq<nat>, b: seq<nat>, i: nat)
    requires i < |b|
    ensures var all, n := a + b, |a| + i;
            all[n] == b[i] && all[..n] + all[n + 1..] == a + (b[..i] + b[i + 1..])
  {
    var all, n := a + b, |a| + i;
    assert all[..n] == a + b[..i];
    assert all[n + 1..] == b[i + 1..];
  }

  lemma AbortFair(wakes: seq<nat>, queue: seq<nat>, i: nat, arrivals: nat, aborted: set<nat>)
    requires i < |queue| && Fair(wakes + queue, arrivals, aborted)
    ensures Fair(wakes + (queue[..i] + queue[i + 1..]), arrivals, aborted + {queue[i]})
  {
    CutBehind(wakes, queue, i);
    AbortedLeaves(wakes + queue, |wakes| + i, arrivals, aborted);
  }

  lemma AbortKeeps(max: int, s: State, id: nat)
    requires Inv(max, s)
    ensures Inv(max, Step(max, s, Abort(id)))
  {
    var i := IndexOf(s.queue, id);
    if i < |s.queue| {
      AbortFair(s.wakes, s.queue, i, s.arrivals, s.aborted);
    }
  }

  lemma ReleaseKeeps(max: int, s: State)
    requires Inv(max, s)
    ensures Inv(max, Step(max, s, Release))
  {
    if s.queue != [] {
      assert (s.wakes + [s.queue[0]]) + s.queue[1..] == s.wakes + s.queue;
      HeadNotWoken(s);
    }
  }

  lemma StepKeeps(max: int, s: State, a: Action)
    requires Inv(max, s) && Enabled(s, a)
    ensures Inv(max, Step(max, s, a))
  {
    match a {
      case Acquire(_) => AcquireKeeps(max, s);
      case Resume(id) => ResumeKeeps(max, s, id);
      case Abort(id) => AbortKeeps(max, s, id);
      case Release => ReleaseKeeps(max, s);
    }
  }

  lemma HeadNotWoken(s: State)
    requires s.queue != [] && Increasing(s.wakes + s.queue) && forall id | id in s.woken :: id in s.wakes
    ensures s.queue[0] !in s.woken
  {
    var all := s.wakes + s.queue;
    assert all[|s.wakes|] == s.queue[0];
    assert forall i | 0 <= i < |s.wakes| :: all[i] == s.wakes[i] && all[i] < all[|s.wakes|];
  }

  predicate Runnable(max: int, s: State, run: seq<Action>)
    decreases |run|
  {
    run == [] || (Enabled(s, run[0]) && Runnable(max, Step(max, s, run[0]), run[1..]))
  }

  function Final(max: int, s: State, run: seq<Action>): State
    decreases |run|
  {
    if run == [] then s else Final(max, Step(max, s, run[0]), run[1..])
  }

  lemma {:induction false} RunKeeps(max: int, s: State, run: seq<Action>)
    requires Inv(max, s) && Runnable(max, s, run)
    ensures Inv(max, Final(max, s, run))
    decreases |run|
  {
    if run != [] {
      StepKeeps(max, s, run[0]);
      RunKeeps(max, Step(max, s, run[0]), run[1..]);
    }
  }

  /** Whatever the schedule: no slot idles while anyone waits, waking is first come first served, and an
      aborted waiter is never woken. */
  lemma EveryRunIsFair(max: int, run: seq<Action>)
    requires Runnable(max, IDLE, run)
    ensures var s := Final(max, IDLE, run);
            && (s.queue != [] ==> Committed(s) >= max)
            && Increasing(s.wakes + s.queue)
            && (forall id: nat | id in s.aborted :: id !in s.wakes && id !in s.queue)
            && (forall id: nat | id < s.arrivals && id !in s.aborted :: id in s.wakes || id in s.queue)
  {
    RunKeeps(max, IDLE, run);
    var s := Final(max, IDLE, run);
    assert forall id: nat :: id in s.wakes + s.queue <==> (id in s.wakes || id in s.queue);
  }

  // ---------------------------------------------------------------- how far past the limit

  /** A slot granted although every slot is taken or promised to a waiter that has not yet resumed. */
  predicate Barges(max: int, s: State, a: Action) {
    a == Acquire(false) && s.inflight < max && Committed(s) >= max
  }

  function BargeCount(max: int, s: State, run: seq<Action>): nat
    decreases |run|
  {
    if run == [] then 0
    else (if Barges(max, s, run[0]) then 1 else 0) + BargeCount(max, Step(max, s, run[0]), run[1..])
  }

  /** Only a grant commits a slot more. */
  lemma StepCommits(max: int, s: State, a: Action)
    requires Inv(max, s) && Enabled(s, a)
    ensures Committed(Step(max, s, a)) <= Committed(s) + if a == Acquire(false) && s.inflight < max then 1 else 0
    ensures Barges(max, s, a) ==> Committed(Step(max, s, a)) == Committed(s) + 1 > max
  {
    if a == Release && s.queue != [] {
      HeadNotWoken(s);
    }
  }

  /** From any moment within the limit, the excess is at most the number of acquires that barged in since. */
  lemma {:induction false} OvershootIsBarging(max: int, s: State, run: seq<Action>, excess: nat)
    requires Inv(max, s) && Runnable(max, s, run) && Committed(s) <= max + excess
    ensures Committed(Final(max, s, run)) <= max + excess + BargeCount(max, s, run)
    decreases |run|
  {
    if run != [] {
      StepKeeps(max, s, run[0]);
      StepCommits(max, s, run[0]);
      OvershootIsBarging(max, Step(max, s, run[0]), run[1..], excess + if Barges(max, s, run[0]) then 1 else 0);
    }
  }

  /** At no moment of the run are more slots committed than there are. */
  predicate Within(max: int, s: State, run: seq<Action>) {
    forall i | 0 <= i <= |run| :: Committed(Final(max, s, run[..i])) <= max
  }

  lemma WithinNext(max: int, s: State, run: seq<Action>)
    requires run != []
    ensures Within(max, s, run) <==> Committed(s) <= max && Within(max, Step(max, s, run[0]), run[1..])
  {
    assert Final(max, s, run[..0]) == s;
    forall i | 0 < i <= |run|
      ensures Final(max, s, run[..i]) == Final(max, Step(max, s, run[0]), run[1..][..i - 1])
    {
      assert run[..i][1..] == run[1..][..i - 1];
    }
    assert Within(max, s, run) ==> forall i | 0 <= i <= |run[1..]| ::
        Final(max, Step(max, s, run[0]), run[1..][..i]) == Final(max, s, run[..i + 1]);
  }

  /** The limit on committed slots holds throughout a run exactly when nobody barges in during it. */
  lemma {:induction false} WithinMeansNoBarging(max: int, s: State, run: seq<Action>)
    requires Inv(max, s) && Runnable(max, s, run) && Committed(s) <= max
    ensures Within(max, s, run) <==> BargeCount(max, s, run) == 0
    decreases |run|
  {
    if run == [] {
      assert run[..0] == [];
    } else {
      WithinNext(max, s, run);
      StepKeeps(max, s, run[0]);
      StepCommits(max, s, run[0]);
      if Barges(max, s, run[0]) {
        assert run[1..][..0] == [];
        assert Final(max, Step(max, s, run[0]), run[1..][..0]) == Step(max, s, run[0]);
      } else {
        WithinMeansNoBarging(max, Step(max, s, run[0]), run[1..]);
      }
    }
  }

  predicate OnlyResumes(run: seq<Action>) {
    forall i | 0 <= i < |run| :: run[i].Resume?
  }

  ghost predicate Arrives(max: int, s: State, run: seq<Action>) {
    OnlyResumes(run) && Runnable(max, s, run) && Final(max, s, run).inflight == Committed(s)
  }

  /** What is committed is taken as soon as the waiters already woken resume. */
  lemma {:induction false} PromisesAreKept(max: int, s: State)
    ensures exists run :: Arrives(max, s, run)
    decreases |s.woken|
  {
    if s.woken == {} {
      assert Arrives(max, s, []);
    } else {
      var id :| id in s.woken;
      var next := Step(max, s, Resume(id));
      assert (s.woken - {id}) + {id} == s.woken;
      PromisesAreKept(max, next);
      var rest :| Arrives(max, next, rest);
      assert ([Resume(id)] + rest)[1..] == rest;
      assert Arrives(max, s, [Resume(id)] + rest);
    }
  }

  /** At some moment of the run, waiters already woken could by resuming bring inflight over the limit. */
  ghost predicate Overrun(max: int, run: seq<Action>, i: nat, resumes: seq<Action>) {
    && i <= |run| && Arrives(max, Final(max, IDLE, run[..i]), resumes)
    && Final(max, Final(max, IDLE, run[..i]), resumes).inflight > max
  }

  /**
   The limit, exactly: the waiters woken by some moment of a run can bring inflight over the limit if and only if
   someone barges in during the run.
   */
  lemma LimitBreaksByBarging(max: nat, run: seq<Action>)
    requires Runnable(max, IDLE, run)
    ensures (exists i, resumes :: Overrun(max, run, i, resumes)) <==> BargeCount(max, IDLE, run) > 0
    ensures BargeCount(max, IDLE, run) == 0 ==> forall i | 0 <= i <= |run| :: Final(max, IDLE, run[..i]).inflight <= max
  {
    WithinMeansNoBarging(max, IDLE, run);
    if BargeCount(max, IDLE, run) > 0 {
      var i :| 0 <= i <= |run| && Committed(Final(max, IDLE, run[..i])) > max;
      PromisesAreKept(max, Final(max, IDLE, run[..i]));
      var resumes :| Arrives(max, Final(max, IDLE, run[..i]), resumes);
      assert Overrun(max, run, i, resumes);
    } else {
      forall i | 0 <= i <= |run| ensures Final(max, IDLE, run[..i]).inflight <= max {
        assert Committed(Final(max, IDLE, run[..i])) <= max;
      }
    }
  }

  /** One acquire in the gap and two callers hold a limit of one. */
  lemma BargingBreaksTheLimit()
    ensures var run := [Acquire(false), Acquire(false), Release, Acquire(false), Resume(0)];
            Runnable(1, IDLE, run) && Final(1, IDLE, run).inflight == 2
  {
    var s1 := Step(1, IDLE, Acquire(false));
    var s2 := Step(1, s1, Acquire(false));
    var s3 := Step(1, s2, Release);
    var s4 := Step(1, s3, Acquire(false));
    var s5 := Step(1, s4, Resume(0));
    var run := [Acquire(false), Acquire(false), Release, Acquire(false), Resume(0)];
    assert run[1..] == [Acquire(false), Release, Acquire(false), Resume(0)];
    assert run[1..][1..] == [Release, Acquire(false), Resume(0)];
    assert run[1..][1..][1..] == [Acquire(false), Resume(0)];
    assert run[1..][1..][1..][1..] == [Resume(0)];
    assert run[1..][1..][1..][1..][1..] == [];
    assert s2.queue == [0] && s3.woken == {0} && s5.inflight == 2;
    assert Final(1, s4, [Resume(0)]) == s5 && Runnable(1, s4, [Resume(0)]);
    assert Final(1, s3, run[1..][1..][1..]) == s5 && Runnable(1, s3, run[1..][1..][1..]);
    assert Final(1, s2, run[1..][1..]) == s5 && Runnable(1, s2, run[1..][1..]);
    assert Final(1, s1, run[1..]) == s5 && Runnable(1, s1, run[1..]);
  }

  // ---------------------------------------------------------------- where the slots are

  /** The slots a run hands out: to callers that need not wait, and to waiters that resume. */
  function HandedOut(max: int, s: State, run: seq<Action>): nat
    decreases |run|
  {
    if run == [] then 0
    else
      (if (run[0] == Acquire(false) && s.inflight < max) || run[0].Resume? then 1 else 0)
      + HandedOut(max, Step(max, s, run[0]), run[1..])
  }

  function GivenBack(run: seq<Action>): nat {
    if run == [] then 0 else (if run[0].Release? then 1 else 0) + GivenBack(run[1..])
  }

  /** inflight counts exactly the slots handed out and not given back. */
  lemma {:induction false} SlotsAreConserved(max: int, s: State, run: seq<Action>)
    ensures Final(max, s, run).inflight == s.inflight + HandedOut(max, s, run) - GivenBack(run)
    decreases |run|
  {
    if run != [] {
      SlotsAreConserved(max, Step(max, s, run[0]), run[1..]);
    }
  }
}
