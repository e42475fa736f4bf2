/**
 src/utils/transition-log.ts: a bounded log of incidents, least recently observed first. A repeat of the
 same state within the reminder window is counted and kept quiet.
 */
module TransitionLog {
  import opened Options

  datatype Entry = Entry(state: string, emittedAt: int, suppressedCount: nat)

  type Entries = map<string, Entry>

  datatype Limits = Limits(reminderMs: int, maxEntries: int)

  datatype Event = Observe(key: string, state: string, at: int) | Clear(key: string)

  function Max(a: int, b: int): int {
    if a >= b then a else b
  }

  function LimitsOf(reminderMs: Option<int>, maxEntries: Option<int>): Limits {
    Limits(Max(300000, if reminderMs.Some? then reminderMs.value else 300000),
           Max(1, if maxEntries.Some? then maxEntries.value else 256))
  }

  // ---------------------------------------------------------------- the unbounded log

  predicate Suppresses(limits: Limits, m: Entries, e: Event) {
    && e.Observe? && e.key in m && m[e.key].state == e.state
    && 0 <= e.at - m[e.key].emittedAt < limits.reminderMs
  }

  function Held(m: Entries, key: string): nat {
    if key in m then m[key].suppressedCount else 0
  }

  /** What a call reports: nothing, or how many repeats were kept quiet. */
  function Report(limits: Limits, m: Entries, e: Event): Option<nat> {
    if Suppresses(limits, m, e) || (e.Clear? && e.key !in m) then None else Some(Held(m, e.key))
  }

  /** The log that never forgets. */
  function Next(limits: Limits, m: Entries, e: Event): Entries {
    if e.Clear? then m - {e.key}
    else if Suppresses(limits, m, e) then m[e.key := m[e.key].(suppressedCount := m[e.key].suppressedCount + 1)]
    else m[e.key := Entry(e.state, e.at, 0)]
  }

  // ---------------------------------------------------------------- the bounded log

  /** A map that remembers the order in which its keys were last set. */
  datatype Log = Log(entries: Entries, order: seq<string>)

  function Without(s: seq<string>, key: string): (r: seq<string>)
    ensures forall k :: k in r <==> k in s && k != key
    ensures |r| <= |s| && (key !in s ==> r == s)
  {
    if s == [] then [] else if s[0] == key then Without(s[1..], key) else [s[0]] + Without(s[1..], key)
  }

  function Evicted(limits: Limits, log: Log, e: Event): Option<string> {
    var rest := Without(log.order, e.key);
    if e.Observe? && !Suppresses(limits, log.entries, e) && |rest| >= limits.maxEntries && rest != [] then Some(rest[0])
    else None
  }

  function Bounded(limits: Limits, log: Log, e: Event): Log {
    var rest := Without(log.order, e.key);
    var evicted := Evicted(limits, log, e);
    if e.Clear? then Log(Next(limits, log.entries, e), rest)
    else if evicted.Some? then Log(Next(limits, log.entries, e) - {evicted.value}, rest[1..] + [e.key])
    else Log(Next(limits, log.entries, e), rest + [e.key])
  }

  predicate Distinct(s: seq<string>) {
    s == [] || (s[0] !in s[1..] && Distinct(s[1..]))
  }

  ghost predicate Sound(limits: Limits, log: Log) {
    && limits.maxEntries >= 1
    && Distinct(log.order)
    && (forall k :: k in log.entries <==> k in log.order)
    && |log.order| <= limits.maxEntries
  }

  /** Deleting the key first and setting it last, in each branch of an observation. */
  lemma ObserveCases(limits: Limits, log: Log, e: Event)
    requires Sound(limits, log) && e.Observe?
    ensures var rest, m := Without(log.order, e.key), log.entries - {e.key};
            Bounded(limits, log, e)
            == if Suppresses(limits, log.entries, e) then
                 Log(m[e.key := log.entries[e.key].(suppressedCount := log.entries[e.key].suppressedCount + 1)], rest + [e.key])
               else if |rest| >= limits.maxEntries then
                 Log((m - {rest[0]})[e.key := Entry(e.state, e.at, 0)], rest[1..] + [e.key])
               else Log(m[e.key := Entry(e.state, e.at, 0)], rest + [e.key])
  {
    var rest := Without(log.order, e.key);
    assert rest != [] ==> rest[0] in rest && rest[0] != e.key;
  }

  class Incidents {
    const limits: Limits
    var entries: Entries
    var order: seq<string>

    function Contents(): Log
      reads this
    {
      Log(entries, order)
    }

    ghost predicate Valid()
      reads this
    {
      Sound(limits, Contents())
    }

    constructor (reminderMs: Option<int>, maxEntries: Option<int>)
      ensures Valid() && Contents() == Log(map[], []) && limits == LimitsOf(reminderMs, maxEntries)
    {
      limits := LimitsOf(reminderMs, maxEntries);
      entries, order := map[], [];
    }

    method Observe(key: string, state: string, at: int) returns (report: Option<nat>)
      requires Valid()
      modifies this
      ensures Valid()
      ensures report == Report(limits, old(entries), Event.Observe(key, state, at))
      ensures Contents() == Bounded(limits, old(Contents()), Event.Observe(key, state, at))
    {
      ghost var before, e := Contents(), Event.Observe(key, state, at);
      BoundedIsSound(limits, before, e);
      ObserveCases(limits, before, e);
      var previous := if key in entries then Some(entries[key]) else None;
      entries, order := entries - {key}, Without(order, key);
      if previous.Some? && previous.value.state == state && at >= previous.value.emittedAt
         && at - previous.value.emittedAt < limits.reminderMs {
        var repeated := previous.value.(suppressedCount := previous.value.suppressedCount + 1);
        entries, order := entries[key := repeated], order + [key];
        return None;
      }
      if |order| >= limits.maxEntries {
        entries, order := entries - {order[0]}, order[1..];
      }
      entries, order := entries[key := Entry(state, at, 0)], order + [key];
      report := Some(if previous.Some? then previous.value.suppressedCount else 0);
    }

    method Clear(key: string) returns (report: Option<nat>)
      requires Valid()
      modifies this
      ensures Valid()
      ensures report == Report(limits, old(entries), Event.Clear(key))
      ensures Contents() == Bounded(limits, old(Contents()), Event.Clear(key))
    {
      BoundedIsSound(limits, Contents(), Event.Clear(key));
      var previous := if key in entries then Some(entries[key]) else None;
      entries, order := entries - {key}, Without(order, key);
      report := if previous.None? then None else Some(previous.value.suppressedCount);
    }
  }

  lemma {:induction false} WithoutKeeps(s: seq<string>, key: string)
    requires Distinct(s)
    ensures Distinct(Without(s, key)) && |Without(s, key)| == |s| - (if key in s then 1 else 0)
  {
    if s != [] {
      WithoutKeeps(s[1..], key);
      var rest := Without(s[1..], key);
      assert s[0] != key ==> Without(s, key)[1..] == rest;
    }
  }

  lemma {:induction false} DistinctAppend(s: seq<string>, key: string)
    requires Distinct(s) && key !in s
    ensures Distinct(s + [key])
  {
    if s == [] {
      assert (s + [key])[1..] == [];
    } else {
      DistinctAppend(s[1..], key);
      assert (s + [key])[1..] == s[1..] + [key];
    }
  }

  /** Never more than maxEntries keys, each once in the order. */
  lemma BoundedIsSound(limits: Limits, log: Log, e: Event)
    requires Sound(limits, log)
    ensures Sound(limits, Bounded(limits, log, e))
    ensures Evicted(limits, log, e).Some? ==>
              e.key !in log.entries && |log.order| == limits.maxEntries && Without(log.order, e.key) == log.order
  {
    var rest := Without(log.order, e.key);
    WithoutKeeps(log.order, e.key);
    DistinctAppend(rest, e.key);
    if Evicted(limits, log, e).Some? {
      DistinctAppend(rest[1..], e.key);
      assert forall k :: k in rest <==> k == rest[0] || k in rest[1..];
    }
  }

  // ---------------------------------------------------------------- runs

  function Run(limits: Limits, events: seq<Event>): (log: Log) {
    if events == [] then Log(map[], []) else Bounded(limits, Run(limits, Front(events)), Last(events))
  }

  function Unbounded(limits: Limits, events: seq<Event>): Entries {
    if events == [] then map[] else Next(limits, Unbounded(limits, Front(events)), Last(events))
  }

  function Front(events: seq<Event>): seq<Event>
    requires events != []
  {
    events[..|events| - 1]
  }

  function Last(events: seq<Event>): Event
    requires events != []
  {
    events[|events| - 1]
  }

  /** The other keys observed since k last was. */
  function Since(events: seq<Event>, k: string): set<string> {
    if events == [] then {}
    else if Last(events).Clear? then Since(Front(events), k)
    else if Last(events).key == k then {}
    else Since(Front(events), k) + {Last(events).key}
  }

  /** A key later in the order was observed since any key before it. */
  predicate ByRecency(events: seq<Event>, order: seq<string>) {
    order == [] || ((forall k | k in order[1..] :: k in Since(events, order[0])) && ByRecency(events, order[1..]))
  }

  lemma {:induction false} WithoutByRecency(events: seq<Event>, order: seq<string>, key: string)
    requires ByRecency(events, order)
    ensures ByRecency(events, Without(order, key))
  {
    if order != [] {
      WithoutByRecency(events, order[1..], key);
      assert order[0] != key ==> Without(order, key)[1..] == Without(order[1..], key);
    }
  }

  /** Observing a key puts it after all others, and disturbs no order among them. */
  lemma {:induction false} ObservedLast(events: seq<Event>, order: seq<string>, e: Event)
    requires ByRecency(events, order) && e.Observe? && e.key !in order
    ensures ByRecency(events + [e], order + [e.key])
  {
    assert Front(events + [e]) == events;
    if order == [] {
      assert (order + [e.key])[1..] == [];
    } else {
      ObservedLast(events, order[1..], e);
      assert (order + [e.key])[1..] == order[1..] + [e.key];
    }
  }

  lemma {:induction false} ClearedKeeps(events: seq<Event>, order: seq<string>, e: Event)
    requires ByRecency(events, order) && e.Clear?
    ensures ByRecency(events + [e], order)
  {
    assert Front(events + [e]) == events;
    if order != [] {
      ClearedKeeps(events, order[1..], e);
    }
  }

  /** In every run the log is bounded and ordered by recency. */
  lemma {:induction false} RunIsOrdered(limits: Limits, events: seq<Event>)
    requires limits.maxEntries >= 1
    ensures Sound(limits, Run(limits, events)) && ByRecency(events, Run(limits, events).order)
    decreases |events|
  {
    if events != [] {
      var front, e := Front(events), Last(events);
      var log := Run(limits, front);
      RunIsOrdered(limits, front);
      BoundedIsSound(limits, log, e);
      var rest := Without(log.order, e.key);
      WithoutByRecency(front, log.order, e.key);
      assert events == front + [e];
      if e.Clear? {
        ClearedKeeps(front, rest, e);
      } else {
        ObservedLast(front, if Evicted(limits, log, e).Some? then rest[1..] else rest, e);
      }
    }
  }

  /** Only a new key at a full log evicts, and what goes was observed before everything that stays. */
  lemma EvictsLeastRecent(limits: Limits, events: seq<Event>, e: Event)
    requires limits.maxEntries >= 1 && Evicted(limits, Run(limits, events), e).Some?
    ensures var log, gone := Run(limits, events), Evicted(limits, Run(limits, events), e).value;
            && e.key !in log.entries && |log.order| == limits.maxEntries && gone in log.entries
            && forall k | k in log.entries && k != gone :: k in Since(events, gone)
  {
    var log := Run(limits, events);
    RunIsOrdered(limits, events);
    BoundedIsSound(limits, log, e);
    assert forall k | k in log.order :: k == log.order[0] || k in log.order[1..];
  }

  // ---------------------------------------------------------------- nothing lost but by eviction

  datatype Totals = Totals(suppressed: nat, reported: nat, lost: nat)

  /** Repeats kept quiet, repeats reported, and repeats forgotten by eviction. */
  function Tally(limits: Limits, events: seq<Event>): Totals {
    if events == [] then Totals(0, 0, 0)
    else
      var before, log, e := Tally(limits, Front(events)), Run(limits, Front(events)), Last(events);
      var report, evicted := Report(limits, log.entries, e), Evicted(limits, log, e);
      Totals(before.suppressed + (if Suppresses(limits, log.entries, e) then 1 else 0),
             before.reported + (if report.Some? then report.value else 0),
             before.lost + (if evicted.Some? then Held(log.entries, evicted.value) else 0))
  }

  function Sum(m: Entries, order: seq<string>): nat {
    if order == [] then 0 else Held(m, order[0]) + Sum(m, order[1..])
  }

  lemma {:induction false} SumWithout(m: Entries, order: seq<string>, key: string)
    requires Distinct(order)
    ensures Sum(m, order) == Sum(m, Without(order, key)) + (if key in order then Held(m, key) else 0)
  {
    if order != [] {
      SumWithout(m, order[1..], key);
    }
  }

  lemma {:induction false} SumAgrees(m: Entries, n: Entries, order: seq<string>)
    requires forall k | k in order :: Held(m, k) == Held(n, k)
    ensures Sum(m, order) == Sum(n, order)
  {
    if order != [] {
      SumAgrees(m, n, order[1..]);
    }
  }

  lemma {:induction false} SumAppend(m: Entries, order: seq<string>, key: string)
    ensures Sum(m, order + [key]) == Sum(m, order) + Held(m, key)
  {
    if order != [] {
      SumAppend(m, order[1..], key);
      assert (order + [key])[1..] == order[1..] + [key];
    }
  }

  lemma StepConserves(limits: Limits, log: Log, e: Event)
    requires Sound(limits, log)
    ensures var after, report, evicted := Bounded(limits, log, e), Report(limits, log.entries, e), Evicted(limits, log, e);
            Sum(log.entries, log.order) + (if Suppresses(limits, log.entries, e) then 1 else 0)
            == Sum(after.entries, after.order) + (if report.Some? then report.value else 0)
               + (if evicted.Some? then Held(log.entries, evicted.value) else 0)
  {
    var after, evicted := Bounded(limits, log, e), Evicted(limits, log, e);
    var rest := Without(log.order, e.key);
    var kept := if evicted.Some? then rest[1..] else rest;
    WithoutKeeps(log.order, e.key);
    SumWithout(log.entries, log.order, e.key);
    SumAgrees(log.entries, after.entries, kept);
    SumAppend(after.entries, kept, e.key);
  }

  /** Every repeat kept quiet is reported later, still held, or was evicted. */
  lemma {:induction false} CountsAreConserved(limits: Limits, events: seq<Event>)
    requires limits.maxEntries >= 1
    ensures var log, totals := Run(limits, events), Tally(limits, events);
            totals.suppressed == totals.reported + totals.lost + Sum(log.entries, log.order)
    decreases |events|
  {
    if events != [] {
      CountsAreConserved(limits, Front(events));
      RunIsOrdered(limits, Front(events));
      StepConserves(limits, Run(limits, Front(events)), Last(events));
    }
  }

  // ---------------------------------------------------------------- when the bound does not show

  /** Each key that comes back was last observed fewer than maxEntries distinct other keys ago. */
  predicate Roomy(limits: Limits, events: seq<Event>) {
    events == []
    || (Roomy(limits, Front(events))
        && (Last(events).key in Unbounded(limits, Front(events)) ==>
              |Since(Front(events), Last(events).key)| < limits.maxEntries))
  }

  /** The bounded log agrees where it remembers, and forgets only after maxEntries other keys. */
  ghost predicate Shadows(limits: Limits, events: seq<Event>) {
    var m, log := Unbounded(limits, events), Run(limits, events);
    && (forall k | k in log.entries :: k in m && m[k] == log.entries[k])
    && (forall k | k in m && k !in log.entries :: |Since(events, k)| >= limits.maxEntries)
  }

  lemma {:induction false} DistinctCount(s: seq<string>)
    requires Distinct(s)
    ensures |set k | k in s| == |s|
  {
    if s != [] {
      DistinctCount(s[1..]);
      assert (set k | k in s) == (set k | k in s[1..]) + {s[0]};
    }
  }

  lemma Smaller(a: set<string>, b: set<string>)
    requires a <= b
    ensures |a| <= |b|
  {
    assert b == a + (b - a);
  }

  /** What is evicted has maxEntries keys after it: the rest of the order, and the new key. */
  lemma EvictedIsFar(limits: Limits, events: seq<Event>)
    requires limits.maxEntries >= 1 && events != []
    requires Evicted(limits, Run(limits, Front(events)), Last(events)).Some?
    ensures |Since(events, Evicted(limits, Run(limits, Front(events)), Last(events)).value)| >= limits.maxEntries
  {
    var log, e := Run(limits, Front(events)), Last(events);
    EvictsLeastRecent(limits, Front(events), e);
    RunIsOrdered(limits, Front(events));
    var gone := log.order[0];
    NewerCount(log.order, e.key);
    forall k | k in log.order[1..] + [e.key]
      ensures k in Since(events, gone)
    {
      assert Since(events, gone) == Since(Front(events), gone) + {e.key};
      assert k in log.order[1..] || k == e.key;
    }
    Smaller((set k | k in log.order[1..] + [e.key]), Since(events, gone));
  }

  lemma NewerCount(order: seq<string>, key: string)
    requires order != [] && Distinct(order) && key !in order
    ensures |set k | k in order[1..] + [key]| == |order|
  {
    DistinctAppend(order[1..], key);
    DistinctCount(order[1..] + [key]);
  }

  lemma ShadowsStep(limits: Limits, events: seq<Event>)
    requires limits.maxEntries >= 1 && Roomy(limits, events) && events != [] && Shadows(limits, Front(events))
    ensures Shadows(limits, events)
  {
    var front, e := Front(events), Last(events);
    var m, log := Unbounded(limits, front), Run(limits, front);
    assert e.key in m ==> e.key in log.entries;
    assert Report(limits, m, e) == Report(limits, log.entries, e);
    assert Suppresses(limits, m, e) == Suppresses(limits, log.entries, e);
    if Evicted(limits, log, e).Some? {
      EvictedIsFar(limits, events);
    }
    forall k | k in Unbounded(limits, events) && k !in Run(limits, events).entries
      ensures |Since(events, k)| >= limits.maxEntries
    {
      Smaller(Since(front, k), Since(events, k));
    }
  }

  lemma {:induction false} RoomyShadows(limits: Limits, events: seq<Event>)
    requires limits.maxEntries >= 1 && Roomy(limits, events)
    ensures Shadows(limits, events)
    decreases |events|
  {
    if events != [] {
      RoomyShadows(limits, Front(events));
      ShadowsStep(limits, events);
    }
  }

  /** While every key comes back before maxEntries others, the bounded log answers as one that never forgets. */
  lemma RoomyRunsMatch(limits: Limits, events: seq<Event>, e: Event)
    requires limits.maxEntries >= 1 && Roomy(limits, events + [e])
    ensures Report(limits, Run(limits, events).entries, e) == Report(limits, Unbounded(limits, events), e)
  {
    assert Front(events + [e]) == events;
    RoomyShadows(limits, events);
  }

  // ---------------------------------------------------------------- what is kept quiet

  /** Repeats of one incident in one state. */
  function Repeats(key: string, state: string, times: seq<int>): seq<Event> {
    seq(|times|, i requires 0 <= i < |times| => Observe(key, state, times[i]))
  }

  /** Events all observed one after the other on the unbounded log. */
  function After(limits: Limits, m: Entries, events: seq<Event>): Entries
    decreases |events|
  {
    if events == [] then m else After(limits, Next(limits, m, events[0]), events[1..])
  }

  lemma {:induction false} QuietRepeats(limits: Limits, m: Entries, key: string, state: string, start: int, held: nat,
                                        times: seq<int>)
    requires key in m && m[key] == Entry(state, start, held)
    requires forall i | 0 <= i < |times| :: start <= times[i] < start + limits.reminderMs
    ensures var after := After(limits, m, Repeats(key, state, times));
            key in after && after[key] == Entry(state, start, held + |times|)
    ensures forall i | 0 <= i < |times| ::
              Report(limits, After(limits, m, Repeats(key, state, times[..i])), Observe(key, state, times[i])) == None
    decreases |times|
  {
    if times != [] {
      var next := Next(limits, m, Observe(key, state, times[0]));
      assert Repeats(key, state, times)[1..] == Repeats(key, state, times[1..]);
      QuietRepeats(limits, next, key, state, start, held + 1, times[1..]);
      forall i | 0 <= i < |times|
        ensures Report(limits, After(limits, m, Repeats(key, state, times[..i])), Observe(key, state, times[i])) == None
      {
        if i > 0 {
          assert times[..i][1..] == times[1..][..i - 1];
          assert Repeats(key, state, times[..i])[1..] == Repeats(key, state, times[1..][..i - 1]);
        } else {
          assert Repeats(key, state, times[..0]) == [];
        }
      }
    }
  }

  /**
   A reported incident and any number of repeats in the same state: within the reminder window counted from the
   report every repeat is silent, and the window is not prolonged by them. The next observation in another state, at
   or past the window's end, or before its start, is reported with the count of the silent ones, and so is its end.
   */
  lemma BurstIsReportedOnce(limits: Limits, m: Entries, key: string, state: string, start: int, times: seq<int>,
                            later: string, at: int)
    requires !Suppresses(limits, m, Observe(key, state, start))
    requires forall i | 0 <= i < |times| :: start <= times[i] < start + limits.reminderMs
    ensures var reported := Next(limits, m, Observe(key, state, start));
            var after := After(limits, reported, Repeats(key, state, times));
            && Report(limits, m, Observe(key, state, start)).Some?
            && (forall i | 0 <= i < |times| ::
                  Report(limits, After(limits, reported, Repeats(key, state, times[..i])),
                         Observe(key, state, times[i])) == None)
            && Report(limits, after, Observe(key, later, at))
               == (if later == state && start <= at < start + limits.reminderMs then None else Some(|times|))
            && Report(limits, after, Clear(key)) == Some(|times|)
  {
    QuietRepeats(limits, Next(limits, m, Observe(key, state, start)), key, state, start, 0, times);
  }

  /** A key seen for the first time, or for the first time since it was cleared, is always reported, as new. */
  lemma NewIsReported(limits: Limits, m: Entries, key: string, state: string, at: int)
    ensures Report(limits, m - {key}, Observe(key, state, at)) == Some(0)
    ensures Report(limits, m - {key}, Clear(key)) == None
    ensures Next(limits, m, Clear(key)) == m - {key}
  {
  }

  /** The limits are never below five minutes and one entry; five minutes and 256 entries are the defaults. */
  lemma LimitsHaveFloors(reminderMs: Option<int>, maxEntries: Option<int>)
    ensures var limits := LimitsOf(reminderMs, maxEntries);
            && limits.reminderMs >= 5 * 60 * 1000 && limits.maxEntries >= 1
            && (reminderMs.Some? && reminderMs.value >= 300000 ==> limits.reminderMs == reminderMs.value)
            && (maxEntries.Some? && maxEntries.value >= 1 ==> limits.maxEntries == maxEntries.value)
            && (reminderMs.None? ==> limits.reminderMs == 300000) && (maxEntries.None? ==> limits.maxEntries == 256)
  {
  }
}
