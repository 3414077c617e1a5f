/**
  ipc/sem.c: who is woken by a step, and when a wakeup is lost, over every run of a semaphore set.
*/
module SemWakeups {
  import opened Basics
  import opened SemVectors
  import opened SemSets
  import opened SemRuns
  import opened SemAnswers

  // ---------------------------------------------------------------------------
  // Who is served
  // ---------------------------------------------------------------------------

  ghost predicate Stuck(vals: seq<int>, q: Sleeper)
    requires Valid(q.call.sops, |vals|)
  {
    Try(vals, q.call.sops, 0) == Block
  }

  /** The call is told to try again if it would lower a semaphore, and has its answer otherwise. */
  ghost predicate Served(s: Set, call: Call, o: Outcome) {
    if o == Applied && Decreases(call.sops) then Sleeper(call, true) in s.pending
    else !Sleeps(s, call.id) && call.id in s.woken && s.woken[call.id] == CodeOf(o)
  }

  /** A pass does not touch a call that is not on the queue. */
  lemma {:induction false} UpdateOthers(s: Set, kept: seq<Sleeper>, todo: seq<Sleeper>, id: nat)
    requires AllValid(todo, |s.vals|)
    requires forall k :: 0 <= k < |kept| ==> kept[k].call.id != id
    requires forall k :: 0 <= k < |todo| ==> todo[k].call.id != id
    ensures var r := Update(s, kept, todo);
      !Sleeps(r, id) && (id in r.woken <==> id in s.woken) && (id in s.woken ==> r.woken[id] == s.woken[id])
    decreases |todo|
  {
    if todo == [] {
    } else {
      var q := todo[0];
      if q.retry || Attempt(s, q.call) == Block {
        UpdateOthers(s, kept + [q], todo[1..], id);
      } else if Attempt(s, q.call) == Applied {
        if !Decreases(q.call.sops) {
          UpdateOthers(Apply(s, q.call).(woken := s.woken[q.call.id := Zero]), kept, todo[1..], id);
        }
      } else {
        UpdateOthers(s.(woken := s.woken[q.call.id := Errno(Attempt(s, q.call))]), kept, todo[1..], id);
      }
    }
  }

  /** A pass serves the first sleeper that can go on and has not been told yet. */
  lemma {:induction false} UpdateServes(s: Set, kept: seq<Sleeper>, todo: seq<Sleeper>, k: nat)
    requires AllValid(todo, |s.vals|) && DistinctCalls(kept + todo)
    requires k < |todo| && !todo[k].retry && !Stuck(s.vals, todo[k])
    requires forall j :: 0 <= j < k ==> todo[j].retry || Stuck(s.vals, todo[j])
    ensures Served(Update(s, kept, todo), todo[k].call, Try(s.vals, todo[k].call.sops, 0))
    decreases |todo|
  {
    var q, id := todo[0], todo[k].call.id;
    if k > 0 {
      assert kept + [q] + todo[1..] == kept + todo;
      UpdateServes(s, kept + [q], todo[1..], k - 1);
    } else {
      var all := kept + todo;
      assert forall j :: 0 <= j < |kept| ==> all[j] == kept[j];
      assert forall j :: 0 <= j < |todo| ==> all[|kept| + j] == todo[j];
      if Attempt(s, q.call) != Applied {
        UpdateOthers(s.(woken := s.woken[id := Errno(Attempt(s, q.call))]), kept, todo[1..], id);
      } else if !Decreases(q.call.sops) {
        UpdateOthers(Apply(s, q.call).(woken := s.woken[id := Zero]), kept, todo[1..], id);
      } else {
        assert (kept + [q.(retry := true)] + todo[1..])[|kept|] == Sleeper(q.call, true);
      }
    }
  }

  /** The values and the queue that a step leaves which changes semaphores, before anybody is woken. */
  ghost predicate Leaves(s: Set, e: Event, vals: seq<int>, queue: seq<Sleeper>)
    requires Enabled(s, e)
  {
    && |vals| == |s.vals|
    && match e
       case Semop(call) =>
         && Try(s.vals, call.sops, 0) == Applied && (exists j :: 0 <= j < |call.sops| && call.sops[j].op != 0)
         && vals == After(s.vals, call.sops) && queue == s.pending
       case Runs(id) =>
         exists k :: 0 <= k < |s.pending| && s.pending[k].call.id == id && s.pending[k].retry &&
                     Retried(s.vals, s.pending[k].call.sops, vals) && queue == s.pending[..k] + s.pending[k + 1..]
       case SetVal(i, v) => vals == s.vals[i := v] && queue == s.pending
       case SetAll(vs) => vals == vs && queue == s.pending
       case Exit(pid) =>
         queue == s.pending && forall i :: 0 <= i < |vals| ==> vals[i] == Max(0, s.vals[i] + Adj(s.undo, pid, i))
       case _ => false
  }

  ghost predicate Retried(vals: seq<int>, sops: seq<Sop>, vals': seq<int>)
    requires Valid(sops, |vals|)
  {
    Try(vals, sops, 0) == Applied && (exists j :: 0 <= j < |sops| && sops[j].op != 0) && vals' == After(vals, sops)
  }

  lemma LookupIs(q: seq<Sleeper>, k: nat)
    requires DistinctCalls(q) && k < |q|
    ensures Lookup(q, q[k].call.id) == k
  {
    var j := Lookup(q, q[k].call.id);
    assert q[j].call.id == q[k].call.id;
  }

  lemma RetryThenPass(s: Set, k: nat) returns (t: Set)
    requires AllValid(s.pending, |s.vals|) && DistinctCalls(s.pending)
    requires k < |s.pending| && s.pending[k].retry && s.pending[k].call.id !in s.woken
    requires Try(s.vals, s.pending[k].call.sops, 0) == Applied
    requires exists j :: 0 <= j < |s.pending[k].call.sops| && s.pending[k].call.sops[j].op != 0
    ensures t.vals == After(s.vals, s.pending[k].call.sops) && t.pending == s.pending[..k] + s.pending[k + 1..]
    ensures AllValid(t.pending, |t.vals|) && Resume(s, s.pending[k].call.id) == UpdateQueue(t)
  {
    var id, queue := s.pending[k].call.id, s.pending[..k] + s.pending[k + 1..];
    LookupIs(s.pending, k);
    WithoutAt(s.pending, id);
    WithoutValid(s.pending, id, |s.vals|);
    hide Without, Lookup, Try, After, Update;
    t := Apply(s.(pending := queue), s.pending[k].call).(results := s.results[id := Zero]);
  }

  /** A step that changes semaphores is followed by a pass over the queue. */
  lemma LeavesThenPass(s: Set, e: Event, vals: seq<int>, queue: seq<Sleeper>) returns (t: Set)
    requires Enabled(s, e) && DistinctCalls(s.pending) && Leaves(s, e, vals, queue)
    requires e.Runs? ==> e.id !in s.woken
    ensures t.vals == vals && t.pending == queue && AllValid(queue, |vals|) && Next(s, e) == UpdateQueue(t)
  {
    match e
    case Semop(call) =>
      var u := WithLedger(s, call);
      t := Apply(u, call).(results := s.results[call.id := Zero]);
    case Runs(id) =>
      var k :| 0 <= k < |s.pending| && s.pending[k].call.id == id && s.pending[k].retry &&
               Retried(s.vals, s.pending[k].call.sops, vals) && queue == s.pending[..k] + s.pending[k + 1..];
      t := RetryThenPass(s, k);
    case SetVal(i, v) =>
      t := s.(vals := s.vals[i := v], undo := ZeroAt(s.undo, i), log := s.log + [SetOne(i, v)]);
    case SetAll(vs) =>
      t := s.(vals := vs, undo := ZeroAll(s.undo), log := s.log + [SetEvery(vs)]);
    case Exit(pid) =>
      t := s.(vals := Adjusted(s.vals, s.undo, pid), undo := Dropped(s.undo, pid), log := s.log + [Exited(pid)]);
      assert t.vals == vals;
  }

  /** Theorem: after a step that changes semaphores, the first sleeper that can go on with the values it leaves and has
      not been told yet has its answer, or has been told to try again. */
  lemma NextServes(s: Set, e: Event, vals: seq<int>, queue: seq<Sleeper>, k: nat)
    requires Inv(s) && Enabled(s, e) && Leaves(s, e, vals, queue) && AllValid(queue, |vals|)
    requires k < |queue| && !queue[k].retry && !Stuck(vals, queue[k])
    requires forall j :: 0 <= j < k ==> queue[j].retry || Stuck(vals, queue[j])
    ensures Served(Next(s, e), queue[k].call, Try(vals, queue[k].call.sops, 0))
  {
    SleepersNotWoken(s);
    hide Sane, Conserves, Waiting, Tally;
    var t := LeavesThenPass(s, e, vals, queue);
    QueueDistinct(s, e, vals, queue);
    hide Next, Leaves, Enabled;
    assert [] + queue == queue;
    UpdateServes(t, [], queue, k);
  }

  lemma SleepersNotWoken(s: Set)
    requires Accounted(s, s.pending)
    ensures forall j :: 0 <= j < |s.pending| ==> s.pending[j].call.id !in s.woken
  {
    hide Tally, Times;
    forall j | 0 <= j < |s.pending| ensures s.pending[j].call.id !in s.woken {
      assert Waiting(s.log, s.woken, s.results, s.pending[j].call.id);
    }
  }

  lemma QueueDistinct(s: Set, e: Event, vals: seq<int>, queue: seq<Sleeper>)
    requires Enabled(s, e) && DistinctCalls(s.pending) && Leaves(s, e, vals, queue)
    ensures DistinctCalls(queue)
  {
    hide DistinctCalls, Retried, After, Adj;
    if e.Runs? {
      var k :| 0 <= k < |s.pending| && s.pending[k].call.id == e.id && s.pending[k].retry &&
               Retried(s.vals, s.pending[k].call.sops, vals) && queue == s.pending[..k] + s.pending[k + 1..];
      LessDistinct(s.pending, k);
    }
  }

  lemma LessDistinct(q: seq<Sleeper>, k: nat)
    requires DistinctCalls(q) && k < |q|
    ensures DistinctCalls(q[..k] + q[k + 1..])
  {
    var q' := q[..k] + q[k + 1..];
    assert forall j :: 0 <= j < |q'| ==> q'[j] == q[if j < k then j else j + 1];
  }

  // ---------------------------------------------------------------------------
  // No wakeup is lost
  // ---------------------------------------------------------------------------

  /** Whenever a sleeper could go on, some sleeper that can go on has been told to. */
  ghost predicate Attended(s: Set) {
    AllValid(s.pending, |s.vals|) && (
    || (exists k :: 0 <= k < |s.pending| && s.pending[k].retry && !Stuck(s.vals, s.pending[k]))
    || (forall k :: 0 <= k < |s.pending| && !s.pending[k].retry ==> Stuck(s.vals, s.pending[k])))
  }

  /** The vector lowers a semaphore or changes none. */
  predicate Tame(sops: seq<Sop>) {
    Decreases(sops) || !Alters(sops)
  }

  function OneAt(n: nat, a: nat, y: int): (r: seq<int>)
    requires a < n
    ensures |r| == n
  {
    Zeros(n)[a := y]
  }

  /** The vector only raises; it goes through when all semaphores are zero, and sleeps when one of them is not. */
  ghost predicate Risky(sops: seq<Sop>, n: nat)
    requires Valid(sops, n)
  {
    && !Tame(sops) && Try(Zeros(n), sops, 0) == Applied
    && exists a: nat :: a < n && Try(OneAt(n, a, 1), sops, 0) == Block
  }

  lemma {:induction false} RaisingSum(sops: seq<Sop>, j: nat, i: nat)
    requires !Decreases(sops) && j <= |sops|
    ensures Sum(sops[..j], i) >= 0
  {
    if j == 0 {
    } else {
      RaisingSum(sops, j - 1, i);
      SumStep(sops, j - 1, i);
    }
  }

  /** A vector that only raises and goes through on some values goes through on zeros. */
  lemma RaisesFromZero(vals: seq<int>, sops: seq<Sop>)
    requires Valid(sops, |vals|) && NonNegative(vals) && !Decreases(sops) && Try(vals, sops, 0) == Applied
    ensures Try(Zeros(|vals|), sops, 0) == Applied
  {
    AppliedExactly(vals, sops, 0);
    forall k | 0 <= k < |sops| ensures Passes(Zeros(|vals|), sops, k) {
      assert Passes(vals, sops, k) && sops[k].op >= 0;
      RaisingSum(sops, k, sops[k].num);
    }
    AppliedExactly(Zeros(|vals|), sops, 0);
  }

  /** If it sleeps on some values, it does whenever a certain semaphore is the only one that is not zero. */
  lemma SleepsOnOne(u: seq<int>, sops: seq<Sop>) returns (a: nat)
    requires Valid(sops, |u|) && NonNegative(u) && !Decreases(sops)
    requires Try(u, sops, 0) == Block && Try(Zeros(|u|), sops, 0) == Applied
    ensures a < |u| && forall y :: y > 0 ==> Try(OneAt(|u|, a, y), sops, 0) == Block
  {
    var k := FirstFailing(u, sops, 0);
    StopsAt(u, sops, 0, k);
    AppliedExactly(Zeros(|u|), sops, 0);
    a := sops[k].num;
    var zeros := Zeros(|u|);
    PassedStaysIn(u, sops, k, a);
    assert Passes(zeros, sops, k) && sops[k].op >= 0 && sops[k].op == 0;
    forall y | y > 0 ensures Try(OneAt(|u|, a, y), sops, 0) == Block {
      var one := OneAt(|u|, a, y);
      forall i | 0 <= i < k ensures Passes(one, sops, i) {
        assert Passes(u, sops, i) && Passes(zeros, sops, i) && sops[i].op >= 0;
        if sops[i].num == a {
          RaisingSum(sops, i, a);
          NoneBetween(sops, i, k, a);
        }
      }
      StopsAt(one, sops, 0, k);
    }
  }

  /** Before an operation that finds zero on top of zero nothing was raised. */
  lemma {:induction false} NoneBetween(sops: seq<Sop>, i: nat, k: nat, a: nat)
    requires !Decreases(sops) && i < k <= |sops| && sops[i].num == a && Sum(sops[..k], a) == 0
    ensures Sum(sops[..i], a) == 0 && sops[i].op == 0
    decreases k
  {
    SumStep(sops, k - 1, a);
    RaisingSum(sops, k - 1, a);
    assert sops[k - 1].op >= 0;
    if i < k - 1 { NoneBetween(sops, i, k - 1, a); }
  }

  ghost predicate Harmless(sops: seq<Sop>, n: nat) {
    Slept(sops, n) && !Risky(sops, n)
  }

  /** A sleeper's vector that goes through lowers a semaphore or changes none, unless it is risky. */
  lemma TameOrRisky(vals: seq<int>, sops: seq<Sop>)
    requires Slept(sops, |vals|) && NonNegative(vals) && Try(vals, sops, 0) == Applied
    ensures Tame(sops) || Risky(sops, |vals|)
  {
    if !Decreases(sops) {
      var u: seq<int> :| |u| == |vals| && NonNegative(u) && Try(u, sops, 0) == Block;
      RaisesFromZero(vals, sops);
      var a := SleepsOnOne(u, sops);
      assert Try(OneAt(|vals|, a, 1), sops, 0) == Block;
    }
  }

  lemma {:induction false} UnalteredSum(sops: seq<Sop>, i: nat)
    requires !Alters(sops)
    ensures Sum(sops, i) == 0
  {
    if sops == [] {
    } else {
      UnalteredSum(sops[..|sops| - 1], i);
    }
  }

  lemma Unaltered(vals: seq<int>, sops: seq<Sop>)
    requires !Alters(sops)
    ensures After(vals, sops) == vals
  {
    forall i: nat | i < |vals| ensures After(vals, sops)[i] == vals[i] { UnalteredSum(sops, i); }
  }

  lemma {:induction false} UpdateAttends(s: Set, kept: seq<Sleeper>, todo: seq<Sleeper>)
    requires AllValid(kept, |s.vals|) && AllValid(todo, |s.vals|)
    requires forall k :: 0 <= k < |kept| ==> kept[k].retry || Stuck(s.vals, kept[k])
    requires NonNegative(s.vals) && forall k :: 0 <= k < |todo| ==> Harmless(todo[k].call.sops, |s.vals|)
    ensures Attended(Update(s, kept, todo))
    decreases |todo|
  {
    if todo == [] {
    } else {
      var q := todo[0];
      if q.retry || Attempt(s, q.call) == Block {
        UpdateAttends(s, kept + [q], todo[1..]);
      } else if Attempt(s, q.call) == Applied {
        if Decreases(q.call.sops) {
          var p := kept + [q.(retry := true)] + todo[1..];
          assert p[|kept|] == q.(retry := true);
        } else {
          TameOrRisky(s.vals, q.call.sops);
          Unaltered(s.vals, q.call.sops);
          UpdateAttends(Apply(s, q.call).(woken := s.woken[q.call.id := Zero]), kept, todo[1..]);
        }
      } else {
        UpdateAttends(s.(woken := s.woken[q.call.id := Errno(Attempt(s, q.call))]), kept, todo[1..]);
      }
    }
  }

  /** No vector that is used is risky. */
  ghost predicate NoneRisky(es: seq<Event>, n: nat) {
    forall i :: 0 <= i < |es| && es[i].Semop? && Valid(es[i].call.sops, n) ==> !Risky(es[i].call.sops, n)
  }

  lemma QueuedHarmless(q: seq<Sleeper>, es: seq<Event>, n: nat)
    requires Queued(q, es, n) && NoneRisky(es, n)
    ensures AllHarmless(q, n)
  {
    forall k | 0 <= k < |q| ensures Harmless(q[k].call.sops, n) {
      var i :| 0 <= i < |es| && es[i] == Semop(q[k].call);
      assert Slept(q[k].call.sops, n);
    }
  }

  ghost predicate AllHarmless(q: seq<Sleeper>, n: nat) {
    forall k :: 0 <= k < |q| ==> Harmless(q[k].call.sops, n)
  }

  lemma PassAttends(t: Set)
    requires AllValid(t.pending, |t.vals|) && NonNegative(t.vals) && AllHarmless(t.pending, |t.vals|)
    ensures Attended(UpdateQueue(t))
  {
    UpdateAttends(t, [], t.pending);
  }

  lemma ReturnAttends(s: Set, call: Call, code: Code)
    requires AllValid(s.pending, |s.vals|) && NonNegative(s.vals) && AllHarmless(s.pending, |s.vals|)
    requires Alters(call.sops) || Attended(s)
    ensures Attended(Return(s, call, code))
  {
    var t := s.(results := s.results[call.id := code]);
    if Alters(call.sops) { PassAttends(t); }
  }

  lemma BeginAttends(s: Set, call: Call)
    requires Enabled(s, Semop(call)) && Attended(s) && NonNegative(s.vals) && AllHarmless(s.pending, |s.vals|)
    ensures Attended(Begin(s, call))
  {
    var t := WithLedger(s, call);
    if Attempt(t, call) == Applied { AppliedNonNegative(s.vals, call.sops); }
    hide NonNegative, Harmless;
    if !Alters(call.sops) { Unaltered(s.vals, call.sops); }
    match Attempt(t, call)
    case Block => JoinedAttends(s, Begin(s, call), call);
    case Applied => ReturnAttends(Apply(t, call), call, Zero);
    case error => ReturnAttends(t, call, Errno(error));
  }

  lemma JoinedAttends(s: Set, r: Set, call: Call)
    requires Attended(s) && Valid(call.sops, |s.vals|) && Try(s.vals, call.sops, 0) == Block
    requires r.vals == s.vals
    requires r.pending == s.pending + [Sleeper(call, false)] || r.pending == [Sleeper(call, false)] + s.pending
    ensures Attended(r)
  {
    var d := if r.pending == s.pending + [Sleeper(call, false)] then 0 else 1;
    assert forall k :: 0 <= k < |s.pending| ==> r.pending[k + d] == s.pending[k];
    forall k | 0 <= k < |r.pending| ensures r.pending[k] == Sleeper(call, false) || r.pending[k] in s.pending {
      if d == 0 { } else { assert k > 0 ==> r.pending[k] == s.pending[k - 1]; }
    }
  }

  /** A sleeper that has not been told leaves. */
  lemma LeftAttends(s: Set, k: nat, r: Set)
    requires Attended(s) && k < |s.pending| && !s.pending[k].retry
    requires r.vals == s.vals && r.pending == s.pending[..k] + s.pending[k + 1..]
    ensures Attended(r)
  {
    hide Stuck;
    forall j | 0 <= j < |r.pending| ensures r.pending[j] == s.pending[if j < k then j else j + 1] { }
    forall j | 0 <= j < |s.pending| && j != k ensures r.pending[if j < k then j else j - 1] == s.pending[j] { }
  }

  /** A sleeper that has been told finds that it cannot go on. */
  lemma BackAttends(s: Set, k: nat, r: Set)
    requires Attended(s) && k < |s.pending| && Stuck(s.vals, s.pending[k])
    requires r.vals == s.vals && r.pending == s.pending[k := s.pending[k].(retry := false)]
    ensures Attended(r)
  {
    assert Stuck(s.vals, r.pending[k]);
    hide Stuck;
    forall j | 0 <= j < |s.pending| && j != k ensures r.pending[j] == s.pending[j] { }
  }

  lemma LessHarmless(q: seq<Sleeper>, k: nat, n: nat)
    requires AllHarmless(q, n) && k < |q|
    ensures AllHarmless(q[..k] + q[k + 1..], n)
  {
    hide Harmless;
    var q' := q[..k] + q[k + 1..];
    assert forall j :: 0 <= j < |q'| ==> q'[j] == q[if j < k then j else j + 1];
  }

  lemma LoweringAlters(sops: seq<Sop>)
    ensures Decreases(sops) ==> Alters(sops)
  {
    if Decreases(sops) { var j :| 0 <= j < |sops| && sops[j].op < 0; }
  }

  lemma ResumeAttends(s: Set, id: nat)
    requires Enabled(s, Runs(id)) && Attended(s) && NonNegative(s.vals) && AllHarmless(s.pending, |s.vals|)
    requires forall k :: 0 <= k < |s.pending| && s.pending[k].retry ==> Decreases(s.pending[k].call.sops)
    ensures Attended(Resume(s, id))
  {
    if id !in s.woken {
      var k, t := ResumeAt(s, id);
      var q := s.pending[k];
      LessHarmless(s.pending, k, |s.vals|);
      LoweringAlters(q.call.sops);
      hide Resume, Return, Harmless, Decreases, Alters, Attended;
      if !q.retry {
        LeftAttends(s, k, t);
        ReturnAttends(t, q.call, Intr);
      } else if Attempt(s, q.call) == Block {
        BackAttends(s, k, Resume(s, id));
      } else if Attempt(s, q.call) == Applied {
        AppliedNonNegative(s.vals, q.call.sops);
        ReturnAttends(Apply(t, q.call), q.call, Zero);
      } else {
        ReturnAttends(t, q.call, Errno(Attempt(s, q.call)));
      }
    }
  }

  lemma NextAttends(s: Set, e: Event)
    requires Enabled(s, e) && Attended(s) && NonNegative(s.vals) && AllHarmless(s.pending, |s.vals|)
    requires forall k :: 0 <= k < |s.pending| && s.pending[k].retry ==> Decreases(s.pending[k].call.sops)
    ensures Attended(Next(s, e))
  {
    hide Harmless;
    match e
    case Semop(call) => BeginAttends(s, call);
    case Runs(id) => ResumeAttends(s, id);
    case Remove =>
    case SetVal(i, v) =>
      PassAttends(s.(vals := s.vals[i := v], undo := ZeroAt(s.undo, i), log := s.log + [SetOne(i, v)]));
    case SetAll(vs) =>
      PassAttends(s.(vals := vs, undo := ZeroAll(s.undo), log := s.log + [SetEvery(vs)]));
    case Exit(pid) =>
      PassAttends(s.(vals := Adjusted(s.vals, s.undo, pid), undo := Dropped(s.undo, pid), log := s.log + [Exited(pid)]));
    case Slot(taken) =>
  }

  lemma StepAttends(s: Set, e: Event, es: seq<Event>, n: nat)
    requires Inv(s) && Enabled(s, e) && Kept(s, s.pending, es) && Attended(s) && |s.vals| == n && NoneRisky(es, n)
    ensures Attended(Next(s, e)) && |Next(s, e).vals| == n
  {
    QueuedHarmless(s.pending, es, n);
    Lengths(s, e);
    hide Attended, Harmless, Next, Accounted, Conserves, Replays, Ledgers, AllAnswered, InOrder, Slept;
    if s.live { NextAttends(s, e); } else { DeadAttends(s, e); }
  }

  lemma NewAttends(ss: seq<Set>, es: seq<Event>)
    requires Behaviour(ss, es)
    ensures |ss| == |es| + 1 && Attended(ss[0])
  {
    hide Next, Enabled;
  }

  /** Theorem: in every run in which no risky vector is used, no wakeup is lost: whenever some sleeper could go on, a
      sleeper that can has been told to try again. */
  lemma {:induction false} NoneLost(ss: seq<Set>, es: seq<Event>, m: nat, n: nat)
    requires Behaviour(ss, es) && m <= |es| && |ss[0].vals| == n && NoneRisky(es, n)
    ensures Attended(ss[m]) && |ss[m].vals| == n
  {
    hide Behaviour, Attended, Next, Enabled, Inv, Kept;
    if m == 0 {
      NewAttends(ss, es);
    } else {
      NoneLost(ss, es, m - 1, n);
      RunKept(ss, es, m - 1);
      RunInv(ss, es, m - 1);
      Stepped(ss, es, m - 1);
      assert NoneRisky(es[..m - 1], n);
      StepAttends(ss[m - 1], es[m - 1], es[..m - 1], n);
    }
  }

  lemma {:induction false} UpdateLength(s: Set, kept: seq<Sleeper>, todo: seq<Sleeper>)
    requires AllValid(todo, |s.vals|)
    ensures |Update(s, kept, todo).vals| == |s.vals|
    decreases |todo|
  {
    if todo == [] {
    } else {
      var q := todo[0];
      if q.retry || Attempt(s, q.call) == Block {
        UpdateLength(s, kept + [q], todo[1..]);
      } else if Attempt(s, q.call) == Applied {
        if !Decreases(q.call.sops) {
          UpdateLength(Apply(s, q.call).(woken := s.woken[q.call.id := Zero]), kept, todo[1..]);
        }
      } else {
        UpdateLength(s.(woken := s.woken[q.call.id := Errno(Attempt(s, q.call))]), kept, todo[1..]);
      }
    }
  }

  lemma PassLength(t: Set)
    requires AllValid(t.pending, |t.vals|)
    ensures |UpdateQueue(t).vals| == |t.vals|
  {
    UpdateLength(t, [], t.pending);
  }

  lemma ReturnLength(s: Set, call: Call, code: Code)
    requires AllValid(s.pending, |s.vals|)
    ensures |Return(s, call, code).vals| == |s.vals|
  {
    PassLength(s.(results := s.results[call.id := code]));
  }

  lemma Lengths(s: Set, e: Event)
    requires Enabled(s, e)
    ensures |Next(s, e).vals| == |s.vals|
  {
    match e
    case Semop(call) =>
      var t := WithLedger(s, call);
      ReturnLength(Apply(t, call), call, Zero);
      ReturnLength(t, call, Errno(Attempt(t, call)));
    case Runs(id) =>
      if id !in s.woken {
        var call := s.pending[Lookup(s.pending, id)].call;
        var t := s.(pending := Without(s.pending, id));
        WithoutValid(s.pending, id, |s.vals|);
        ReturnLength(t, call, Intr);
        ReturnLength(t, call, Errno(Attempt(s, call)));
        ReturnLength(Apply(t, call), call, Zero);
      }
    case SetVal(i, v) =>
      PassLength(s.(vals := s.vals[i := v], undo := ZeroAt(s.undo, i), log := s.log + [SetOne(i, v)]));
    case SetAll(vs) =>
      PassLength(s.(vals := vs, undo := ZeroAll(s.undo), log := s.log + [SetEvery(vs)]));
    case Exit(pid) =>
      PassLength(s.(vals := Adjusted(s.vals, s.undo, pid), undo := Dropped(s.undo, pid), log := s.log + [Exited(pid)]));
    case _ =>
  }

  lemma DeadAttends(s: Set, e: Event)
    requires Enabled(s, e) && !s.live && s.pending == []
    ensures Attended(Next(s, e))
  {
  }

  // ---------------------------------------------------------------------------
  // Every risky vector loses a wakeup in some run
  // ---------------------------------------------------------------------------

  lemma {:induction false} RaisedSum(sops: seq<Sop>, k: nat, j: nat)
    requires !Decreases(sops) && k < j <= |sops| && sops[k].op > 0
    ensures Sum(sops[..j], sops[k].num) > 0
    decreases j
  {
    SumStep(sops, j - 1, sops[k].num);
    RaisingSum(sops, j - 1, sops[k].num);
    if k < j - 1 { RaisedSum(sops, k, j - 1); }
  }

  /** The vector goes through only where the semaphore is exactly x. */
  function Exactly(b: nat, x: int): seq<Sop> {
    [Sop(b, -x, false, false), Sop(b, 0, false, false)]
  }

  lemma ExactlyAnswers(vals: seq<int>, b: nat, x: int)
    requires b < |vals| && 0 < x && vals[b] - x <= SEMVMX
    ensures Valid(Exactly(b, x), |vals|) && Try(vals, Exactly(b, x), 0) == if vals[b] == x then Applied else Block
    ensures Decreases(Exactly(b, x)) && Alters(Exactly(b, x))
  {
    var sops := Exactly(b, x);
    assert sops[..0] == [] && sops[..1] == [sops[0]] && sops[..1][..0] == [];
    assert Sum(sops[..1], b) == -x;
    assert sops[0].op < 0;
    assert Found(vals, sops, 0) == vals[b] && Found(vals, sops, 1) == vals[b] - x;
    AppliedExactly(vals, sops, 0);
    if vals[b] < x { StopsAt(vals, sops, 0, 0); } else if vals[b] > x { StopsAt(vals, sops, 0, 1); }
  }

  lemma SetsAll(s: Set, vs: seq<int>)
    requires s.live && s.pending == [] && |vs| == |s.vals| && forall i :: 0 <= i < |vs| ==> 0 <= vs[i] <= SEMVMX
    ensures Enabled(s, SetAll(vs)) && var t := Next(s, SetAll(vs));
      t.live && t.pending == [] && t.vals == vs && t.woken == s.woken && t.results == s.results
  {
  }

  lemma GoesToSleep(s: Set, call: Call)
    requires s.live && AllValid(s.pending, |s.vals|) && Fresh(s, call.id) && call.sops != [] && Valid(call.sops, |s.vals|)
    requires Try(s.vals, call.sops, 0) == Block && Alters(call.sops)
    ensures Enabled(s, Semop(call)) && var t := Next(s, Semop(call));
      t.live && t.pending == s.pending + [Sleeper(call, false)] && t.vals == s.vals && t.woken == s.woken && t.results == s.results
  {
    LedgerOnly(s, call);
    hide Try, WithLedger;
  }

  /** One sleeper stuck, one completed that only raises. */
  lemma PassesOver(s: Set, first: Sleeper, second: Sleeper, vs: seq<int>)
    requires s.live && s.pending == [first, second] && !first.retry && !second.retry
    requires Valid(first.call.sops, |s.vals|) && Valid(second.call.sops, |s.vals|)
    requires |vs| == |s.vals| && forall i :: 0 <= i < |vs| ==> 0 <= vs[i] <= SEMVMX
    requires Try(vs, first.call.sops, 0) == Block && Try(vs, second.call.sops, 0) == Applied && !Decreases(second.call.sops)
    ensures Enabled(s, SetAll(vs)) && var t := Next(s, SetAll(vs));
      t.pending == [first] && t.vals == After(vs, second.call.sops)
  {
    var u := s.(vals := vs, undo := ZeroAll(s.undo), log := s.log + [SetEvery(vs)]);
    hide Try, After, ZeroAll;
    assert [first, second][1..] == [second] && [] + [first] == [first];
    assert Next(s, SetAll(vs)) == Update(u, [], [first, second]) == Update(u, [first], [second]);
    var w := Apply(u, second.call).(woken := u.woken[second.call.id := Zero]);
    assert Update(u, [first], [second]) == Update(w, [first], []);
  }

  /** The calls use this vector and tame ones. */
  ghost predicate OnlyUses(es: seq<Event>, sops: seq<Sop>) {
    forall i :: 0 <= i < |es| && es[i].Semop? ==> es[i].call.sops == sops || Tame(es[i].call.sops)
  }

  /** A sleeper wants exactly the values that the risky vector leaves. The risky one sleeps behind it; when the
      semaphores are set to zero the pass finds the first stuck, completes the second and does not come back. */
  lemma RiskyLoses(sops: seq<Sop>, n: nat) returns (ss: seq<Set>, es: seq<Event>)
    requires Valid(sops, n) && sops != [] && Risky(sops, n)
    ensures Behaviour(ss, es) && |ss[0].vals| == n && OnlyUses(es, sops)
    ensures var s := ss[|es|]; AllValid(s.pending, |s.vals|) && !Attended(s)
  {
    var u, first := Loser(sops, n);
    var second := Call(1, 1, sops);
    es := [SetAll(u), Semop(first), Semop(second), SetAll(Zeros(n))];
    hide Try, After, Decreases, Alters;
    ss := LosingRun(n, u, first, second);
    hide Behaviour;
    assert !Stuck(ss[4].vals, ss[4].pending[0]);
  }

  /** The call that is left asleep, and values on which it and the risky one sleep. */
  lemma Loser(sops: seq<Sop>, n: nat) returns (u: seq<int>, first: Call)
    requires Valid(sops, n) && Risky(sops, n)
    ensures |u| == n && (forall i :: 0 <= i < n ==> 0 <= u[i] <= SEMVMX) && Try(u, sops, 0) == Block
    ensures first.id == 0 && first.sops != [] && Valid(first.sops, n) && Decreases(first.sops) && Alters(first.sops)
    ensures Try(u, first.sops, 0) == Block && Try(Zeros(n), first.sops, 0) == Block
    ensures Try(After(Zeros(n), sops), first.sops, 0) == Applied
  {
    var a0: nat :| a0 < n && Try(OneAt(n, a0, 1), sops, 0) == Block;
    var a := SleepsOnOne(OneAt(n, a0, 1), sops);
    var b, x := RaisesOne(sops);
    hide Try, Sum;
    u := OneAt(n, a, if x == 1 then 2 else 1);
    first := Call(0, 0, Exactly(b, x));
    ExactlyAnswers(u, b, x);
    ExactlyAnswers(Zeros(n), b, x);
    ExactlyAnswers(After(Zeros(n), sops), b, x);
  }

  lemma RaisesOne(sops: seq<Sop>) returns (b: nat, x: int)
    requires !Tame(sops)
    ensures (exists j :: 0 <= j < |sops| && sops[j].num == b) && x == Sum(sops, b) > 0
  {
    var j :| 0 <= j < |sops| && sops[j].op != 0;
    assert sops[j].op > 0 && sops[..|sops|] == sops;
    RaisedSum(sops, j, |sops|);
    b := sops[j].num;
    x := Sum(sops, b);
  }

  lemma LosingRun(n: nat, u: seq<int>, first: Call, second: Call) returns (ss: seq<Set>)
    requires |u| == n && (forall i :: 0 <= i < n ==> 0 <= u[i] <= SEMVMX) && first.id != second.id
    requires first.sops != [] && Valid(first.sops, n) && second.sops != [] && Valid(second.sops, n)
    requires Alters(first.sops) && Alters(second.sops) && !Decreases(second.sops)
    requires Try(u, first.sops, 0) == Block && Try(Zeros(n), first.sops, 0) == Block
    requires Try(u, second.sops, 0) == Block && Try(Zeros(n), second.sops, 0) == Applied
    ensures Behaviour(ss, [SetAll(u), Semop(first), Semop(second), SetAll(Zeros(n))]) && |ss[0].vals| == n
    ensures ss[4].pending == [Sleeper(first, false)] && ss[4].vals == After(Zeros(n), second.sops)
  {
    hide Try, After, Next, Alters, Decreases;
    SetsAll(New(n), u);
    var s1 := Next(New(n), SetAll(u));
    GoesToSleep(s1, first);
    var s2 := Next(s1, Semop(first));
    GoesToSleep(s2, second);
    var s3 := Next(s2, Semop(second));
    PassesOver(s3, Sleeper(first, false), Sleeper(second, false), Zeros(n));
    var s4 := Next(s3, SetAll(Zeros(n)));
    ss := [New(n), s1, s2, s3, s4];
    hide Enabled;
  }

  ghost predicate Safe(sops: seq<Sop>, n: nat) {
    forall ss: seq<Set>, es, m :: Behaviour(ss, es) && |ss[0].vals| == n && OnlyUses(es, sops) && 0 <= m <= |es| ==> Attended(ss[m])
  }

  /** Theorem: a vector may be used beside any tame ones without a wakeup being lost if and only if it is not risky. */
  lemma SafeExactly(sops: seq<Sop>, n: nat)
    requires Valid(sops, n) && sops != []
    ensures Safe(sops, n) <==> !Risky(sops, n)
  {
    if Risky(sops, n) {
      var ss, es := RiskyLoses(sops, n);
      hide Risky, Attended;
      assert !Attended(ss[|es|]);
    } else {
      forall ss: seq<Set>, es, m | Behaviour(ss, es) && |ss[0].vals| == n && OnlyUses(es, sops) && 0 <= m <= |es|
        ensures Attended(ss[m])
      {
        assert NoneRisky(es, n);
        NoneLost(ss, es, m, n);
      }
    }
  }

  /** Such a vector: wait for zero, then raise. */
  lemma WaitThenRaise()
    ensures Risky([Sop(0, 0, false, false), Sop(0, 1, false, false)], 1)
  {
    var sops := [Sop(0, 0, false, false), Sop(0, 1, false, false)];
    assert sops[1].op != 0;
    assert sops[..0] == [] && sops[..1] == [sops[0]] && sops[..1][..0] == [];
    assert Sum(sops[..1], 0) == 0;
    assert Found(Zeros(1), sops, 0) == 0 && Found(Zeros(1), sops, 1) == 0;
    AppliedExactly(Zeros(1), sops, 0);
    assert !Passes(OneAt(1, 0, 1), sops, 0);
    StopsAt(OneAt(1, 0, 1), sops, 0, 0);
  }
}
