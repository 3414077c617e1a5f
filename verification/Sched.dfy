/**
  kernel/sched.c, kernel/fork.c and kernel/exit.c: goodness, the selection and recalculation loop of
  schedule, and the arithmetic of time slices.
*/
module Sched {
  import opened Basics

  datatype Policy = Other | Fifo | Rr

  /** The fields of a task_struct that the scheduler looks at; `mm` is 0 for a kernel thread. */
  datatype Task = Task(policy: Policy, yielding: bool, counter: int, nice: int, rtPriority: nat, mm: int, cpu: int)

  /** Where the scheduler runs: the processor, the address space in use, and HZ. */
  datatype Cpu = Cpu(id: int, mm: int, hz: nat)

  const PROC_CHANGE_PENALTY: int := 15

  function TickScale(hz: nat, x: int): int {
    if hz < 200 then x / 4 else if hz < 400 then x / 2 else if hz < 800 then x else if hz < 1600 then x * 2 else x * 4
  }

  function NiceToTicks(hz: nat, nice: int): int {
    TickScale(hz, 20 - nice) + 1
  }

  function MaxCounter(hz: nat): int {
    20 * hz / 100
  }

  function Goodness(p: Task, c: Cpu): int {
    if p.yielding then -1
    else if p.policy == Other then
      if p.counter == 0 then 0
      else p.counter + (if p.cpu == c.id then PROC_CHANGE_PENALTY else 0) +
           (if p.mm == c.mm || p.mm == 0 then 1 else 0) + (20 - p.nice)
    else 1000 + p.rtPriority
  }

  /** No counter is ever above this. */
  function Bound(hz: nat): int {
    if 2 * NiceToTicks(hz, -20) >= MaxCounter(hz) then 2 * NiceToTicks(hz, -20) else MaxCounter(hz)
  }

  predicate Proper(p: Task, hz: nat) {
    0 <= p.counter <= Bound(hz) && -20 <= p.nice <= 19
  }

  ghost predicate AllProper(tasks: seq<Task>, hz: nat) {
    forall i :: 0 <= i < |tasks| ==> Proper(tasks[i], hz)
  }

  // ---------------------------------------------------------------------------
  // Counters
  // ---------------------------------------------------------------------------

  /** One line of the recalculation loop. */
  function Recalculated(p: Task, hz: nat): Task {
    p.(counter := p.counter / 2 + NiceToTicks(hz, p.nice))
  }

  lemma TicksInRange(hz: nat, nice: int)
    requires -20 <= nice <= 19
    ensures 1 <= NiceToTicks(hz, nice) <= NiceToTicks(hz, -20)
  {
  }

  lemma RecalculatedProper(p: Task, hz: nat)
    requires Proper(p, hz)
    ensures Proper(Recalculated(p, hz), hz) && Recalculated(p, hz).counter >= 1
  {
    TicksInRange(hz, p.nice);
  }

  /** Theorem: the slice of a task that is not nice is between 25 and 60 milliseconds exactly for an HZ from 100 to 3240. */
  lemma SliceLength(hz: nat)
    ensures 25 * hz <= 1000 * NiceToTicks(hz, 0) <= 60 * hz <==> 100 <= hz <= 3240
  {
  }

  /** A reaped child's slice can bring its parent's to a fifth of a second and no further. */
  lemma MaxIsFifth(hz: nat)
    ensures 5 * MaxCounter(hz) <= hz < 5 * (MaxCounter(hz) + 1)
  {
  }

  /** Being nicer never gives a longer slice. */
  lemma NicerIsShorter(hz: nat, nice: int, nice': int)
    requires nice <= nice'
    ensures NiceToTicks(hz, nice) >= NiceToTicks(hz, nice')
  {
  }

  /** Theorem: a task that does not run falls half as short, after each recalculation, of one tick less than two slices;
      it never passes it. */
  lemma IdleApproaches(p: Task, hz: nat)
    requires Proper(p, hz) && p.counter < 2 * NiceToTicks(hz, p.nice)
    ensures var most := 2 * NiceToTicks(hz, p.nice) - 1;
      most - Recalculated(p, hz).counter == (most - p.counter) / 2 && Recalculated(p, hz).counter <= most
  {
  }

  function Sum(tasks: seq<Task>): int {
    if tasks == [] then 0 else tasks[0].counter + Sum(tasks[1..])
  }

  lemma {:induction false} SumUpdate(tasks: seq<Task>, i: nat, p: Task)
    requires i < |tasks|
    ensures Sum(tasks[i := p]) == Sum(tasks) - tasks[i].counter + p.counter
  {
    if i == 0 {
    } else {
      assert tasks[i := p][1..] == tasks[1..][i - 1 := p];
      SumUpdate(tasks[1..], i - 1, p);
    }
  }

  lemma {:induction false} SumAppend(a: seq<Task>, b: seq<Task>)
    ensures Sum(a + b) == Sum(a) + Sum(b)
  {
    if a == [] {
      assert a + b == b;
    } else {
      assert (a + b)[1..] == a[1..] + b;
      SumAppend(a[1..], b);
    }
  }

  datatype Event =
    | Fork(i: nat)
    | Reap(parent: nat, child: nat)
    | Tick(i: nat)
    | Refill(i: nat)
    | Recalculate
    | SetNice(i: nat, nice: int)

  ghost predicate Enabled(tasks: seq<Task>, e: Event) {
    match e
    case Fork(i) => i < |tasks|
    case Reap(p, c) => p < |tasks| && c < |tasks| && p != c
    case Tick(i) => i < |tasks|
    case Refill(i) => i < |tasks| && tasks[i].counter == 0
    case Recalculate => true
    case SetNice(i, nice) => i < |tasks| && -20 <= nice <= 19
  }

  function RecalculateAll(tasks: seq<Task>, hz: nat): (r: seq<Task>)
    ensures |r| == |tasks| && forall i :: 0 <= i < |r| ==> r[i] == Recalculated(tasks[i], hz)
  {
    seq(|tasks|, i requires 0 <= i < |tasks| => Recalculated(tasks[i], hz))
  }

  function Reaped(tasks: seq<Task>, p: nat, c: nat, counter: int): seq<Task>
    requires p < |tasks| && c < |tasks|
  {
    RemoveAt(tasks[p := tasks[p].(counter := counter)], c)
  }

  /** The counter split of do_fork, the recovery in release_task, the timer, the refill of a round-robin
      task, the recalculation, and a change of nice. */
  ghost function Next(tasks: seq<Task>, e: Event, hz: nat): seq<Task>
    requires Enabled(tasks, e)
  {
    match e
    case Fork(i) =>
      var c := tasks[i].counter;
      tasks[i := tasks[i].(counter := c / 2)] + [tasks[i].(counter := (c + 1) / 2)]
    case Reap(p, c) =>
      var sum := tasks[p].counter + tasks[c].counter;
      Reaped(tasks, p, c, if sum >= MaxCounter(hz) then MaxCounter(hz) else sum)
    case Tick(i) => tasks[i := tasks[i].(counter := if tasks[i].counter > 0 then tasks[i].counter - 1 else 0)]
    case Refill(i) => tasks[i := tasks[i].(counter := NiceToTicks(hz, tasks[i].nice))]
    case Recalculate => RecalculateAll(tasks, hz)
    case SetNice(i, nice) => tasks[i := tasks[i].(nice := nice)]
  }

  lemma NextProper(tasks: seq<Task>, e: Event, hz: nat)
    requires AllProper(tasks, hz) && Enabled(tasks, e)
    ensures AllProper(Next(tasks, e, hz), hz)
  {
    match e
    case Fork(i) =>
    case Reap(p, c) =>
    case Tick(i) =>
    case Refill(i) => TicksInRange(hz, tasks[i].nice); TicksInRange(hz, -20);
    case Recalculate =>
      forall i | 0 <= i < |tasks| ensures Proper(Recalculated(tasks[i], hz), hz) { RecalculatedProper(tasks[i], hz); }
    case SetNice(i, nice) =>
  }

  /** Nothing but a change of nice changes what makes a task's slice. */
  lemma NextNice(tasks: seq<Task>, e: Event, hz: nat, i: nat)
    requires Enabled(tasks, e) && !e.Reap? && i < |tasks|
    ensures |Next(tasks, e, hz)| >= |tasks| && var p := Next(tasks, e, hz)[i];
      p == tasks[i].(counter := p.counter, nice := if e.SetNice? && e.i == i then e.nice else tasks[i].nice)
  {
  }

  lemma SumRemove(tasks: seq<Task>, i: nat)
    requires i < |tasks|
    ensures Sum(RemoveAt(tasks, i)) == Sum(tasks) - tasks[i].counter
  {
    SumAppend(tasks[..i], tasks[i + 1..]);
    SumAppend(tasks[..i], [tasks[i]] + tasks[i + 1..]);
    assert tasks == tasks[..i] + ([tasks[i]] + tasks[i + 1..]);
  }

  /** Theorem: a fork shares the time slice without making or losing any, and to within a tick evenly. */
  lemma ForkShares(tasks: seq<Task>, i: nat, hz: nat)
    requires i < |tasks|
    ensures var t := Next(tasks, Fork(i), hz);
      Sum(t) == Sum(tasks) && |t| == |tasks| + 1 && 0 <= t[|tasks|].counter - t[i].counter <= 1
  {
    var c := tasks[i].counter;
    var child := tasks[i].(counter := (c + 1) / 2);
    assert Sum([child]) == child.counter;
    hide Sum;
    SumUpdate(tasks, i, tasks[i].(counter := c / 2));
    SumAppend(tasks[i := tasks[i].(counter := c / 2)], [child]);
  }

  lemma ReapIs(tasks: seq<Task>, p: nat, c: nat, hz: nat)
    requires p < |tasks| && c < |tasks| && p != c
    ensures Next(tasks, Reap(p, c), hz) == Reaped(tasks, p, c, Min(MaxCounter(hz), tasks[p].counter + tasks[c].counter))
  {
    hide Reaped;
  }

  /** Theorem: reaping a child loses only what is over the maximum. */
  lemma ReapReturns(tasks: seq<Task>, p: nat, c: nat, hz: nat)
    requires p < |tasks| && c < |tasks| && p != c
    ensures Sum(tasks) - Sum(Next(tasks, Reap(p, c), hz)) ==
            Max(0, tasks[p].counter + tasks[c].counter - MaxCounter(hz))
  {
    hide Sum, Next, RemoveAt, MaxCounter;
    ReapIs(tasks, p, c, hz);
    var q := tasks[p].(counter := Min(MaxCounter(hz), tasks[p].counter + tasks[c].counter));
    SumUpdate(tasks, p, q);
    SumRemove(tasks[p := q], c);
  }

  /** Theorem: the timer takes one tick of a task that has any. */
  lemma TickTakes(tasks: seq<Task>, i: nat, hz: nat)
    requires AllProper(tasks, hz) && i < |tasks|
    ensures Sum(tasks) - Sum(Next(tasks, Tick(i), hz)) == Min(1, tasks[i].counter)
  {
    SumUpdate(tasks, i, tasks[i].(counter := if tasks[i].counter > 0 then tasks[i].counter - 1 else 0));
  }

  ghost predicate Behaviour(ts: seq<seq<Task>>, es: seq<Event>, hz: nat) {
    && |ts| == |es| + 1 && AllProper(ts[0], hz)
    && forall i :: 0 <= i < |es| ==> Enabled(ts[i], es[i]) && ts[i + 1] == Next(ts[i], es[i], hz)
  }

  /** Theorem: over every run of forks, exits, ticks, refills, recalculations and changes of nice, every
      counter stays between 0 and the bound. */
  lemma {:induction false} RunProper(ts: seq<seq<Task>>, es: seq<Event>, hz: nat, n: nat)
    requires Behaviour(ts, es, hz) && n <= |es|
    ensures AllProper(ts[n], hz)
  {
    if n == 0 {
    } else {
      RunProper(ts, es, hz, n - 1);
      NextProper(ts[n - 1], es[n - 1], hz);
    }
  }

  // ---------------------------------------------------------------------------
  // Selection
  // ---------------------------------------------------------------------------

  /** The tasks that schedule compares, in its order: prev if it is still running, then the run queue. */
  ghost predicate IsBest(tasks: seq<Task>, order: seq<nat>, c: Cpu, k: int) {
    && 0 <= k < |order|
    && (forall i :: 0 <= i < |order| ==> order[i] < |tasks|)
    && (forall i :: 0 <= i < |order| ==> Goodness(tasks[order[i]], c) <= Goodness(tasks[order[k]], c))
    && (forall i :: 0 <= i < k ==> Goodness(tasks[order[i]], c) < Goodness(tasks[order[k]], c))
  }

  lemma GoodnessRange(p: Task, c: Cpu)
    requires Proper(p, c.hz)
    ensures Goodness(p, c) >= -1
    ensures Goodness(p, c) == 0 <==> !p.yielding && p.policy == Other && p.counter == 0
    ensures p.yielding || p.policy == Other ==> Goodness(p, c) <= Bound(c.hz) + PROC_CHANGE_PENALTY + 1 + 40
  {
  }

  predicate Realtime(p: Task) {
    p.policy != Other && !p.yielding
  }

  /** What an ordinary task that has some of its slice left is chosen for. */
  function Merit(p: Task, c: Cpu): int {
    p.counter - p.nice + (if p.cpu == c.id then PROC_CHANGE_PENALTY else 0) + (if p.mm in {0, c.mm} then 1 else 0)
  }

  /** p is to run rather than q: a task that yields comes last; a realtime task comes before an ordinary one, and by
      priority among its like; an ordinary task comes by merit, and last once its slice is used up. */
  predicate Prefers(p: Task, q: Task, c: Cpu) {
    !p.yielding &&
    (|| q.yielding
     || (Realtime(p) && (!Realtime(q) || p.rtPriority > q.rtPriority))
     || (!Realtime(p) && !Realtime(q) && p.counter > 0 && (q.counter == 0 || Merit(p, c) > Merit(q, c))))
  }

  /** Theorem: goodness ranks tasks just so. */
  lemma PrefersExactly(p: Task, q: Task, c: Cpu)
    requires Proper(p, c.hz) && Proper(q, c.hz) && (Outranked(c.hz) || (Realtime(p) <==> Realtime(q)))
    ensures Goodness(p, c) > Goodness(q, c) <==> Prefers(p, q, c)
  {
    GoodnessRange(p, c);
    GoodnessRange(q, c);
    hide Bound;
  }

  /** Theorem: at equal other fields, more counter or less nice never loses. */
  lemma MoreNeverLoses(p: Task, q: Task, c: Cpu)
    requires Proper(p, c.hz) && Proper(q, c.hz) && q == p.(counter := q.counter, nice := q.nice)
    requires p.counter >= q.counter && p.nice <= q.nice
    ensures Goodness(p, c) >= Goodness(q, c) && !Prefers(q, p, c)
  {
  }

  /** No ordinary task can reach the goodness of a realtime one. */
  predicate Outranked(hz: nat) {
    Bound(hz) + PROC_CHANGE_PENALTY + 1 + 40 < 1000
  }

  lemma OutrankedUpTo4000(hz: nat)
    requires hz <= 4000
    ensures Outranked(hz)
  {
  }

  /** Theorem: if a realtime task that does not yield can be scheduled, the best task is a realtime task of
      the highest priority. */
  lemma RealtimeFirst(tasks: seq<Task>, order: seq<nat>, c: Cpu, k: int, j: int)
    requires AllProper(tasks, c.hz) && Outranked(c.hz) && IsBest(tasks, order, c, k)
    requires 0 <= j < |order| && tasks[order[j]].policy != Other && !tasks[order[j]].yielding
    ensures var best := tasks[order[k]];
            best.policy != Other && !best.yielding && best.rtPriority >= tasks[order[j]].rtPriority
  {
    GoodnessRange(tasks[order[k]], c);
  }

  /** A run leads from one set of tasks to another. */
  ghost predicate Leads(from: seq<Task>, tasks: seq<Task>, hz: nat) {
    exists ts, es :: Behaviour(ts, es, hz) && ts[0] == from && ts[|es|] == tasks
  }

  lemma LeadsOn(from: seq<Task>, tasks: seq<Task>, e: Event, hz: nat)
    requires Leads(from, tasks, hz) && Enabled(tasks, e)
    ensures Leads(from, Next(tasks, e, hz), hz)
  {
    var ts, es :| Behaviour(ts, es, hz) && ts[0] == from && ts[|es|] == tasks;
    var ts', es' := ts + [Next(tasks, e, hz)], es + [e];
    assert Behaviour(ts', es', hz) && ts'[0] == from && ts'[|es'|] == Next(tasks, e, hz);
  }

  function Copies(p: Task, n: nat): seq<Task> {
    seq(n, _ => p)
  }

  lemma {:induction false} ForkMany(p: Task, q: Task, n: nat, hz: nat)
    requires Proper(p, hz) && Proper(q, hz) && p.counter == 0
    ensures Leads([p, q], [p, q] + Copies(p, n), hz)
  {
    if n == 0 {
      var none: seq<Event> := [];
      assert Behaviour([[p, q]], none, hz) && [[p, q]][|none|] == [p, q] + Copies(p, 0);
    } else {
      ForkMany(p, q, n - 1, hz);
      var tasks := [p, q] + Copies(p, n - 1);
      assert Next(tasks, Fork(0), hz) == [p, q] + Copies(p, n);
      LeadsOn([p, q], tasks, Fork(0), hz);
    }
  }

  lemma ReapOne(p: Task, q: Task, child: Task, n: nat, hz: nat)
    ensures Enabled([p, q] + Copies(child, n + 1), Reap(0, 2))
    ensures Next([p, q] + Copies(child, n + 1), Reap(0, 2), hz) ==
            [p.(counter := Min(MaxCounter(hz), p.counter + child.counter)), q] + Copies(child, n)
  {
    var tasks := [p, q] + Copies(child, n + 1);
    var p' := p.(counter := Min(MaxCounter(hz), p.counter + child.counter));
    var t := tasks[0 := p'];
    assert t[..2] == [p', q] && t[3..] == Copies(child, n);
    hide MaxCounter;
    assert Next(tasks, Reap(0, 2), hz) == t[..2] + t[3..];
  }

  lemma {:induction false} ReapMany(from: seq<Task>, p: Task, q: Task, child: Task, n: nat, hz: nat)
    requires Leads(from, [p, q] + Copies(child, n), hz) && child.counter == 161 && 0 <= p.counter <= MaxCounter(hz)
    ensures Leads(from, [p.(counter := Min(MaxCounter(hz), p.counter + 161 * n)), q], hz)
    decreases n
  {
    hide Leads, MaxCounter, Next;
    if n == 0 {
      assert [p, q] + Copies(child, n) == [p, q];
    } else {
      ReapOne(p, q, child, n - 1, hz);
      LeadsOn(from, [p, q] + Copies(child, n), Reap(0, 2), hz);
      ReapMany(from, p.(counter := Min(MaxCounter(hz), p.counter + 161)), q, child, n - 1, hz);
    }
  }

  /** Where the clock is too fast for that, a process that forks, gets a new slice along with its children and reaps
      them all comes before a realtime task. */
  lemma FastClockMisranks(c: Cpu, rt: Task)
    requires !Outranked(c.hz) && Realtime(rt) && Proper(rt, c.hz) && rt.rtPriority == 0
    ensures var p := Task(Other, false, 0, -20, 0, c.mm, c.id);
            exists tasks :: Leads([p, rt], tasks, c.hz) && |tasks| == 2 && IsBest(tasks, [0, 1], c, 0)
  {
    var p, n := Task(Other, false, 0, -20, 0, c.mm, c.id), MaxCounter(c.hz);
    var child, rt' := p.(counter := 161), Recalculated(rt, c.hz);
    assert Recalculated(p, c.hz) == child && Bound(c.hz) == n;
    ForkMany(p, rt, n, c.hz);
    var tasks := [p, rt] + Copies(p, n);
    assert RecalculateAll(tasks, c.hz) == [child, rt'] + Copies(child, n);
    LeadsOn([p, rt], tasks, Recalculate, c.hz);
    ReapMany([p, rt], child, rt', child, n, c.hz);
    var full := p.(counter := n);
    assert Leads([p, rt], [full, rt'], c.hz) && IsBest([full, rt'], [0, 1], c, 0);
  }

  /** Theorem: right after a recalculation the best task does not ask for another one. */
  lemma NoSecondRecalculation(tasks: seq<Task>, order: seq<nat>, c: Cpu, k: int)
    requires AllProper(tasks, c.hz) && IsBest(RecalculateAll(tasks, c.hz), order, c, k)
    ensures Goodness(RecalculateAll(tasks, c.hz)[order[k]], c) != 0
  {
    var p := tasks[order[k]];
    RecalculatedProper(p, c.hz);
    GoodnessRange(Recalculated(p, c.hz), c);
  }

  /** The candidates in the order of comparison; `prev` is None when it is the idle task or not running. */
  function Order(prev: Option<nat>, queue: seq<nat>, allowed: set<nat>): seq<nat> {
    (if prev.Some? then [prev.value] else []) + Filter(queue, allowed)
  }

  function Filter(queue: seq<nat>, allowed: set<nat>): (r: seq<nat>)
    ensures forall x :: x in r <==> x in queue && x in allowed
  {
    if queue == [] then [] else (if queue[0] in allowed then [queue[0]] else []) + Filter(queue[1..], allowed)
  }

  lemma {:induction false} FilterSnoc(queue: seq<nat>, x: nat, allowed: set<nat>)
    ensures Filter(queue + [x], allowed) == Filter(queue, allowed) + (if x in allowed then [x] else [])
  {
    if queue == [] {
      assert queue + [x] == [x];
    } else {
      var head := if queue[0] in allowed then [queue[0]] else [];
      var tail := if x in allowed then [x] else [];
      assert (queue + [x])[1..] == queue[1..] + [x];
      FilterSnoc(queue[1..], x, allowed);
      assert head + (Filter(queue[1..], allowed) + tail) == head + Filter(queue[1..], allowed) + tail;
    }
  }

  lemma FilterNext(queue: seq<nat>, i: nat, allowed: set<nat>, head: seq<nat>)
    requires i < |queue|
    ensures head + Filter(queue[..i + 1], allowed) ==
            if queue[i] in allowed then head + Filter(queue[..i], allowed) + [queue[i]] else head + Filter(queue[..i], allowed)
  {
    assert queue[..i + 1] == queue[..i] + [queue[i]];
    FilterSnoc(queue[..i], queue[i], allowed);
  }

  /** Candidate k is the one to run: no other is preferred to it, and it is to every one before it. */
  ghost predicate Chosen(tasks: seq<Task>, order: seq<nat>, c: Cpu, k: nat) {
    && k < |order| && order[k] < |tasks|
    && forall i :: 0 <= i < |order| && order[i] < |tasks| &&
                   (Outranked(c.hz) || (Realtime(tasks[order[i]]) <==> Realtime(tasks[order[k]]))) ==>
         !Prefers(tasks[order[i]], tasks[order[k]], c) && (i < k ==> Prefers(tasks[order[k]], tasks[order[i]], c))
  }

  lemma BestIsChosen(tasks: seq<Task>, order: seq<nat>, c: Cpu, k: nat)
    requires AllProper(tasks, c.hz) && IsBest(tasks, order, c, k)
    ensures Chosen(tasks, order, c, k)
  {
    hide Goodness, Prefers, Outranked;
    forall i | 0 <= i < |order| && order[i] < |tasks| &&
               (Outranked(c.hz) || (Realtime(tasks[order[i]]) <==> Realtime(tasks[order[k]])))
      ensures !Prefers(tasks[order[i]], tasks[order[k]], c) && (i < k ==> Prefers(tasks[order[k]], tasks[order[i]], c))
    {
      PrefersExactly(tasks[order[i]], tasks[order[k]], c);
      PrefersExactly(tasks[order[k]], tasks[order[i]], c);
    }
  }

  /** The task that ran last stays unless the new one is preferred to it. */
  predicate PrevOrBetter(tasks: seq<Task>, prev: nat, next: nat, c: Cpu) {
    && prev < |tasks| && next < |tasks|
    && (Outranked(c.hz) || (Realtime(tasks[prev]) <==> Realtime(tasks[next])) ==>
          next == prev || Prefers(tasks[next], tasks[prev], c))
  }

  /** Everybody who could run has used up the slice or yields, and not all yield. */
  ghost predicate AllSpent(tasks: seq<Task>, order: seq<nat>) {
    && (forall x :: x in order && x < |tasks| ==> tasks[x].yielding || (tasks[x].policy == Other && tasks[x].counter == 0))
    && (exists x :: x in order && x < |tasks| && !tasks[x].yielding)
  }

  lemma SpentExactly(tasks: seq<Task>, order: seq<nat>, c: Cpu, floor: int, next: Option<nat>, best: int)
    requires AllProper(tasks, c.hz) && floor < -1 && Selected(tasks, order, c, floor, next, best)
    ensures best == 0 <==> AllSpent(tasks, order)
  {
    if next.Some? {
      var k :| IsBest(tasks, order, c, k) && next.value == order[k] && best == Goodness(tasks[order[k]], c);
      forall x | x in order && x < |tasks|
        ensures Goodness(tasks[x], c) <= best
        ensures Goodness(tasks[x], c) <= 0 <==> tasks[x].yielding || (tasks[x].policy == Other && tasks[x].counter == 0)
        ensures Goodness(tasks[x], c) < 0 <==> tasks[x].yielding
      {
        var j :| 0 <= j < |order| && order[j] == x;
        assert Goodness(tasks[order[j]], c) <= Goodness(tasks[order[k]], c);
      }
      assert order[k] in order;
      hide Goodness;
    }
  }

  /** What the selection loop has found among the candidates seen so far. */
  ghost predicate Selected(tasks: seq<Task>, order: seq<nat>, c: Cpu, floor: int, next: Option<nat>, best: int) {
    && (forall i :: 0 <= i < |order| ==> order[i] < |tasks|)
    && (next.None? ==> order == [] && best == floor)
    && (next.Some? ==> exists k :: IsBest(tasks, order, c, k) && next.value == order[k] && best == Goodness(tasks[order[k]], c))
  }

  lemma Extend(tasks: seq<Task>, order: seq<nat>, c: Cpu, floor: int, next: Option<nat>, best: int, x: nat)
    requires Selected(tasks, order, c, floor, next, best) && x < |tasks| && floor < Goodness(tasks[x], c)
    ensures var w := Goodness(tasks[x], c);
            Selected(tasks, order + [x], c, floor, if w > best then Some(x) else next, if w > best then w else best)
  {
    var o, w := order + [x], Goodness(tasks[x], c);
    if w > best {
      if next.Some? {
        var k :| IsBest(tasks, order, c, k) && next.value == order[k] && best == Goodness(tasks[order[k]], c);
      }
      assert IsBest(tasks, o, c, |order|);
    } else {
      var k :| IsBest(tasks, order, c, k) && next.value == order[k] && best == Goodness(tasks[order[k]], c);
      assert o[k] == order[k];
      assert IsBest(tasks, o, c, k);
    }
  }

  lemma {:induction false} DelMembers(s: seq<nat>, x: nat)
    ensures forall y :: y in Del(s, x) ==> y in s
  {
    if s == [] {
    } else {
      DelMembers(s[1..], x);
    }
  }

  class Scheduler {
    var tasks: seq<Task>
    var queue: seq<nat>

    ghost predicate Valid(hz: nat)
      reads this
    {
      AllProper(tasks, hz) && forall x :: x in queue ==> x < |tasks|
    }

    /** still_running and the list_for_each over the run queue. */
    method Select(prev: Option<nat>, allowed: set<nat>, c: Cpu, floor: int) returns (next: Option<nat>, best: int)
      requires Valid(c.hz) && (prev.Some? ==> prev.value < |tasks|) && floor < -1
      ensures Selected(tasks, Order(prev, queue, allowed), c, floor, next, best)
    {
      next, best := None, floor;
      assert Selected(tasks, [], c, floor, next, best) && Filter([], allowed) == [];
      hide Selected, Filter, Goodness, Bound;
      if prev.Some? {
        GoodnessRange(tasks[prev.value], c);
        Extend(tasks, [], c, floor, next, best, prev.value);
        next, best := prev, Goodness(tasks[prev.value], c);
      }
      ghost var seen := if prev.Some? then [prev.value] else [];
      ghost var head := seen;
      assert [] + seen == seen && head + [] == head && queue[..0] == [];
      var i := 0;
      while i < |queue|
        invariant 0 <= i <= |queue|
        invariant Selected(tasks, seen, c, floor, next, best)
        invariant seen == head + Filter(queue[..i], allowed)
      {
        var p := queue[i];
        assert p in queue;
        FilterNext(queue, i, allowed, head);
        if p in allowed {
          var weight := Goodness(tasks[p], c);
          GoodnessRange(tasks[p], c);
          Extend(tasks, seen, c, floor, next, best, p);
          if weight > best { next, best := Some(p), weight; }
          seen := seen + [p];
        }
        i := i + 1;
      }
      assert queue[..i] == queue;
    }

    /** The part of schedule before the selection: an exhausted round-robin task gets a new slice and goes
        to the end of the queue, and a task that no longer runs leaves the queue. */
    method Prepare(prev: nat, running: bool, hz: nat)
      requires Valid(hz) && prev < |tasks|
      modifies this
      ensures Valid(hz)
      ensures var p := old(tasks)[prev];
              var spent := p.policy == Rr && !p.yielding && p.counter == 0;
              && tasks == (if spent then Next(old(tasks), Refill(prev), hz) else old(tasks))
              && tasks == old(tasks)[prev := p.(counter := if spent then NiceToTicks(hz, p.nice) else p.counter)]
              && queue == if !running then Del(if spent then Del(old(queue), prev) + [prev] else old(queue), prev)
                          else if spent then Del(old(queue), prev) + [prev] else old(queue)
    {
      var p := tasks[prev];
      if p.policy == Rr && !p.yielding {
        if p.counter == 0 {
          NextProper(tasks, Refill(prev), hz);
          tasks := tasks[prev := p.(counter := NiceToTicks(hz, p.nice))];
          DelMembers(queue, prev);
          queue := Del(queue, prev) + [prev];
        }
      }
      if !running {
        DelMembers(queue, prev);
        queue := Del(queue, prev);
      }
    }

    /** The recalculation loop over all tasks. */
    method RecalculateCounters(hz: nat)
      requires Valid(hz)
      modifies this`tasks
      ensures tasks == RecalculateAll(old(tasks), hz) && Valid(hz)
    {
      var i := 0;
      ghost var t := tasks;
      while i < |tasks|
        invariant 0 <= i <= |tasks| == |t|
        invariant forall k :: 0 <= k < i ==> tasks[k] == Recalculated(t[k], hz)
        invariant forall k :: i <= k < |t| ==> tasks[k] == t[k]
      {
        tasks := tasks[i := tasks[i].(counter := tasks[i].counter / 2 + NiceToTicks(hz, tasks[i].nice))];
        i := i + 1;
      }
      NextProper(t, Recalculate, hz);
    }

    /** The scheduler proper. It recalculates at most once, and picks a task of maximal goodness, prev
        before the others on a tie and then the first in the queue; `floor` is the goodness of the idle
        task, which is negative. */
    method Pick(prev: Option<nat>, allowed: set<nat>, c: Cpu, floor: int)
      returns (next: Option<nat>, ghost recalculations: nat)
      requires Valid(c.hz) && (prev.Some? ==> prev.value < |tasks|) && floor < -1
      modifies this`tasks
      ensures Valid(c.hz) && recalculations <= 1
      ensures tasks == if recalculations == 0 then old(tasks) else RecalculateAll(old(tasks), c.hz)
      ensures next.None? <==> Order(prev, queue, allowed) == []
      ensures recalculations == 1 <==> AllSpent(old(tasks), Order(prev, queue, allowed))
      ensures next.Some? ==> exists k: nat :: Chosen(tasks, Order(prev, queue, allowed), c, k) &&
                                              next.value == Order(prev, queue, allowed)[k]
      ensures prev.Some? ==> next.Some? && PrevOrBetter(tasks, prev.value, next.value, c)
      ensures Outranked(c.hz) ==>
                forall x :: x in Order(prev, queue, allowed) && x < |tasks| && Realtime(tasks[x]) ==>
                  && next.Some? && next.value < |tasks| && Realtime(tasks[next.value])
                  && tasks[next.value].rtPriority >= tasks[x].rtPriority
    {
      recalculations := 0;
      var order := Order(prev, queue, allowed);
      ghost var was := tasks;
      while true
        invariant Valid(c.hz) && recalculations <= 1 && order == Order(prev, queue, allowed) && |tasks| == |was|
        invariant tasks == if recalculations == 0 then was else RecalculateAll(was, c.hz)
        invariant recalculations == 1 ==> AllSpent(was, order)
        decreases 1 - recalculations
      {
        var best;
        next, best := Select(prev, allowed, c, floor);
        SpentExactly(tasks, order, c, floor, next, best);
        if best != 0 {
          PickRealtime(tasks, order, c, floor, next, best);
          PickChosen(tasks, order, c, floor, next, best);
          return;
        }
        assert recalculations == 0 by { AtMostOnce(was, tasks, order, c, floor, next, recalculations); }
        RecalculateCounters(c.hz);
        recalculations := recalculations + 1;
      }
    }
  }

  lemma PickRealtime(tasks: seq<Task>, order: seq<nat>, c: Cpu, floor: int, next: Option<nat>, best: int)
    requires AllProper(tasks, c.hz) && Selected(tasks, order, c, floor, next, best)
    ensures Outranked(c.hz) ==> forall x :: x in order && x < |tasks| && Realtime(tasks[x]) ==>
              && next.Some? && next.value < |tasks| && Realtime(tasks[next.value])
              && tasks[next.value].rtPriority >= tasks[x].rtPriority
  {
    if Outranked(c.hz) && next.Some? {
      var k :| IsBest(tasks, order, c, k) && next.value == order[k];
      forall x | x in order && x < |tasks| && Realtime(tasks[x])
        ensures Realtime(tasks[order[k]]) && tasks[order[k]].rtPriority >= tasks[x].rtPriority
      {
        var j :| 0 <= j < |order| && order[j] == x;
        RealtimeFirst(tasks, order, c, k, j);
      }
    }
  }

  lemma PickChosen(tasks: seq<Task>, order: seq<nat>, c: Cpu, floor: int, next: Option<nat>, best: int)
    requires AllProper(tasks, c.hz) && Selected(tasks, order, c, floor, next, best)
    ensures next.Some? ==> exists k: nat :: Chosen(tasks, order, c, k) && next.value == order[k]
    ensures order != [] ==> next.Some? && PrevOrBetter(tasks, order[0], next.value, c)
  {
    if next.Some? {
      var k :| IsBest(tasks, order, c, k) && next.value == order[k];
      BestIsChosen(tasks, order, c, k);
      assert order[0] < |tasks| && order[k] < |tasks|;
      hide Prefers, Outranked, IsBest, Goodness;
    }
  }

  lemma AtMostOnce(was: seq<Task>, tasks: seq<Task>, order: seq<nat>, c: Cpu, floor: int, next: Option<nat>, n: nat)
    requires AllProper(was, c.hz) && floor < -1 && Selected(tasks, order, c, floor, next, 0)
    requires n <= 1 && tasks == if n == 0 then was else RecalculateAll(was, c.hz)
    ensures n == 0
  {
    var k :| IsBest(tasks, order, c, k) && next.value == order[k] && 0 == Goodness(tasks[order[k]], c);
    if n == 1 { NoSecondRecalculation(was, order, c, k); }
  }
}
