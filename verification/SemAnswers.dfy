/**
  ipc/sem.c: what calls are answered and in what order they wait, over every run of a semaphore set.
*/
module SemAnswers {
  import opened Basics
  import opened SemVectors
  import opened SemSets
  import opened SemRuns

  // ---------------------------------------------------------------------------
  // The order of the queue and the answers
  // ---------------------------------------------------------------------------

  /** The vector has made a call sleep. */
  ghost predicate Slept(sops: seq<Sop>, n: nat) {
    Valid(sops, n) && exists u: seq<int> :: |u| == n && NonNegative(u) && Try(u, sops, 0) == Block
  }

  /** Some operation of the vector may make the call sleep. */
  predicate Waits(sops: seq<Sop>) {
    exists j :: 0 <= j < |sops| && !sops[j].nowait && sops[j].op <= 0
  }

  lemma SleptWaits(sops: seq<Sop>, n: nat)
    requires Slept(sops, n)
    ensures Waits(sops)
  {
    var vals: seq<int> :| |vals| == n && NonNegative(vals) && Try(vals, sops, 0) == Block;
    var k := FirstFailing(vals, sops, 0);
    StopsAt(vals, sops, 0, k);
    PassedStaysIn(vals, sops, k, sops[k].num);
  }

  ghost predicate ArrivedBefore(es: seq<Event>, c: Call, d: Call) {
    exists a, b :: 0 <= a < b < |es| && es[a] == Semop(c) && es[b] == Semop(d)
  }

  /** Calls that only wait for zero stand before the others, the last to come first; the others in the order they
      came. */
  ghost predicate InOrder(es: seq<Event>, c: Call, d: Call) {
    if Alters(c.sops) then Alters(d.sops) && ArrivedBefore(es, c, d)
    else Alters(d.sops) || ArrivedBefore(es, d, c)
  }

  ghost predicate Queued(q: seq<Sleeper>, es: seq<Event>, n: nat) {
    && (forall k :: 0 <= k < |q| ==> Semop(q[k].call) in es && Slept(q[k].call.sops, n))
    && (forall k :: 0 <= k < |q| && q[k].retry ==> Decreases(q[k].call.sops))
    && (forall i, j :: 0 <= i < j < |q| ==> InOrder(es, q[i].call, q[j].call))
  }

  /** What an answer says about the call and the events so far. */
  ghost predicate Deserved(es: seq<Event>, call: Call, code: Code) {
    match code
    case Zero => true
    case Errno(o) =>
      || (o == Again && exists j :: 0 <= j < |call.sops| && call.sops[j].nowait)
      || (o == Range && exists j :: 0 <= j < |call.sops| && call.sops[j].op != 0)
    case Intr => Runs(call.id) in es && Waits(call.sops)
    case Idrm => Remove in es
    case Bug => Remove in es
  }

  ghost predicate Answered(es: seq<Event>, id: nat, code: Code) {
    exists call :: Semop(call) in es && call.id == id && Deserved(es, call, code)
  }

  ghost predicate AllAnswered(es: seq<Event>, answers: map<nat, Code>) {
    forall id :: id in answers ==> Answered(es, id, answers[id])
  }

  ghost predicate Kept(s: Set, q: seq<Sleeper>, es: seq<Event>) {
    Queued(q, es, |s.vals|) && AllAnswered(es, s.woken) && AllAnswered(es, s.results)
  }

  lemma ArrivedMore(es: seq<Event>, e: Event, c: Call, d: Call)
    requires ArrivedBefore(es, c, d)
    ensures ArrivedBefore(es + [e], c, d)
  {
    var a, b :| 0 <= a < b < |es| && es[a] == Semop(c) && es[b] == Semop(d);
    assert (es + [e])[a] == Semop(c) && (es + [e])[b] == Semop(d);
  }

  lemma QueuedMore(q: seq<Sleeper>, es: seq<Event>, e: Event, n: nat)
    requires Queued(q, es, n)
    ensures Queued(q, es + [e], n)
  {
    forall i, j | 0 <= i < j < |q| ensures InOrder(es + [e], q[i].call, q[j].call) {
      assert InOrder(es, q[i].call, q[j].call);
      if ArrivedBefore(es, q[i].call, q[j].call) { ArrivedMore(es, e, q[i].call, q[j].call); }
      if ArrivedBefore(es, q[j].call, q[i].call) { ArrivedMore(es, e, q[j].call, q[i].call); }
    }
  }

  lemma AnsweredMore(es: seq<Event>, e: Event, answers: map<nat, Code>)
    requires AllAnswered(es, answers)
    ensures AllAnswered(es + [e], answers)
  {
    forall id | id in answers ensures Answered(es + [e], id, answers[id]) {
      assert Answered(es, id, answers[id]);
      var call :| Semop(call) in es && call.id == id && Deserved(es, call, answers[id]);
      assert Semop(call) in es + [e] && Deserved(es + [e], call, answers[id]);
    }
  }

  lemma KeptMore(s: Set, es: seq<Event>, e: Event)
    requires Kept(s, s.pending, es)
    ensures Kept(s, s.pending, es + [e])
  {
    QueuedMore(s.pending, es, e, |s.vals|);
    AnsweredMore(es, e, s.woken);
    AnsweredMore(es, e, s.results);
  }

  lemma QueuedLess(q: seq<Sleeper>, k: nat, es: seq<Event>, n: nat)
    requires Queued(q, es, n) && k < |q|
    ensures Queued(q[..k] + q[k + 1..], es, n)
  {
    var q' := q[..k] + q[k + 1..];
    assert forall j :: 0 <= j < |q'| ==> q'[j] == q[if j < k then j else j + 1];
    hide InOrder, Slept, Decreases;
  }

  lemma AnswerMade(es: seq<Event>, answers: map<nat, Code>, call: Call, code: Code)
    requires AllAnswered(es, answers) && Semop(call) in es && Deserved(es, call, code)
    ensures AllAnswered(es, answers[call.id := code])
  {
    assert Answered(es, call.id, code);
    hide Deserved;
  }

  lemma ErrorDeserved(vals: seq<int>, es: seq<Event>, call: Call)
    requires Valid(call.sops, |vals|)
    ensures var o := Try(vals, call.sops, 0); o == Block || Deserved(es, call, CodeOf(o))
  {
    if Try(vals, call.sops, 0) != Applied {
      var k := FirstFailing(vals, call.sops, 0);
      StopsAt(vals, call.sops, 0, k);
    }
  }

  lemma {:induction false} UpdateKept(s: Set, kept: seq<Sleeper>, todo: seq<Sleeper>, es: seq<Event>)
    requires AllValid(todo, |s.vals|) && Kept(s, kept + todo, es)
    ensures Kept(Update(s, kept, todo), Update(s, kept, todo).pending, es)
    decreases |todo|
  {
    hide Queued, AllAnswered, Deserved;
    var all := kept + todo;
    if todo == [] {
      assert all == kept;
    } else {
      var q := todo[0];
      assert kept + [q] + todo[1..] == all && all[|kept|] == q;
      if q.retry || Attempt(s, q.call) == Block {
        UpdateKept(s, kept + [q], todo[1..], es);
      } else {
        ErrorDeserved(s.vals, es, q.call);
        QueuedLess(all, |kept|, es, |s.vals|);
        assert all[..|kept|] + all[|kept| + 1..] == kept + todo[1..];
        assert Semop(q.call) in es by { QueuedMember(all, |kept|, es, |s.vals|); }
        AnswerMade(es, s.woken, q.call, CodeOf(Attempt(s, q.call)));
        if Attempt(s, q.call) == Applied && Decreases(q.call.sops) {
          assert kept + [q.(retry := true)] + todo[1..] == all[|kept| := q.(retry := true)];
          QueuedMark(all, |kept|, true, es, |s.vals|);
        } else if Attempt(s, q.call) == Applied {
          UpdateKept(Apply(s, q.call).(woken := s.woken[q.call.id := Zero]), kept, todo[1..], es);
        } else {
          UpdateKept(s.(woken := s.woken[q.call.id := Errno(Attempt(s, q.call))]), kept, todo[1..], es);
        }
      }
    }
  }

  lemma QueuedMember(q: seq<Sleeper>, k: nat, es: seq<Event>, n: nat)
    requires Queued(q, es, n) && k < |q|
    ensures Semop(q[k].call) in es && Slept(q[k].call.sops, n) && (q[k].retry ==> Decreases(q[k].call.sops))
  {
  }

  lemma QueuedMark(q: seq<Sleeper>, k: nat, retry: bool, es: seq<Event>, n: nat)
    requires Queued(q, es, n) && k < |q| && (retry ==> Decreases(q[k].call.sops))
    ensures Queued(q[k := q[k].(retry := retry)], es, n)
  {
    var q' := q[k := q[k].(retry := retry)];
    assert forall j :: 0 <= j < |q| ==> q'[j].call == q[j].call;
    hide InOrder, Slept;
  }

  lemma ReturnKept(s: Set, call: Call, code: Code, es: seq<Event>)
    requires AllValid(s.pending, |s.vals|) && Kept(s, s.pending, es)
    requires Semop(call) in es && Deserved(es, call, code)
    ensures Kept(Return(s, call, code), Return(s, call, code).pending, es)
  {
    hide Queued, AllAnswered, Deserved;
    AnswerMade(es, s.results, call, code);
    var t := s.(results := s.results[call.id := code]);
    assert [] + t.pending == t.pending;
    if Alters(call.sops) { UpdateKept(t, [], t.pending, es); }
  }

  /** A new sleeper takes its place. */
  lemma Joins(q: seq<Sleeper>, call: Call, es: seq<Event>, n: nat)
    requires Queued(q, es, n) && Slept(call.sops, n)
    ensures Alters(call.sops) ==> Queued(q + [Sleeper(call, false)], es + [Semop(call)], n)
    ensures !Alters(call.sops) ==> Queued([Sleeper(call, false)] + q, es + [Semop(call)], n)
  {
    QueuedMore(q, es, Semop(call), n);
    var es' := es + [Semop(call)];
    forall k | 0 <= k < |q| ensures ArrivedBefore(es', q[k].call, call) {
      var a :| 0 <= a < |es| && es[a] == Semop(q[k].call);
      assert es'[a] == Semop(q[k].call) && es'[|es|] == Semop(call);
    }
    assert es'[|es|] == Semop(call);
    hide ArrivedBefore, Alters, Slept;
  }

  lemma BeginKept(s: Set, call: Call, es: seq<Event>)
    requires Enabled(s, Semop(call)) && Kept(s, s.pending, es) && NonNegative(s.vals)
    ensures Kept(Begin(s, call), Begin(s, call).pending, es + [Semop(call)])
  {
    var t := WithLedger(s, call);
    var es' := es + [Semop(call)];
    assert es'[|es|] == Semop(call);
    KeptMore(s, es, Semop(call));
    hide Queued, AllAnswered, Deserved;
    ErrorDeserved(s.vals, es', call);
    match Attempt(t, call)
    case Block => Joins(s.pending, call, es, |s.vals|);
    case Applied => ReturnKept(Apply(t, call), call, Zero, es');
    case error => ReturnKept(t, call, Errno(error), es');
  }

  lemma ResumeKept(s: Set, id: nat, es: seq<Event>)
    requires Enabled(s, Runs(id)) && Kept(s, s.pending, es) && (s.live || Remove in es)
    ensures Kept(Resume(s, id), Resume(s, id).pending, es + [Runs(id)])
  {
    var es' := es + [Runs(id)];
    assert es'[|es|] == Runs(id);
    KeptMore(s, es, Runs(id));
    if id in s.woken {
      CollectKept(s, id, if s.live || s.reused || s.woken[id] == Idrm then s.woken[id] else Bug, es');
    } else {
      hide Kept;
      LeftKept(s, id, es');
    }
  }

  lemma LeftFacts(s: Set, k: nat, es: seq<Event>)
    requires AllValid(s.pending, |s.vals|) && k < |s.pending| && Kept(s, s.pending, es)
    requires Runs(s.pending[k].call.id) in es
    ensures var q := s.pending[k];
      && Kept(s, s.pending[..k] + s.pending[k + 1..], es) && Kept(s, s.pending[k := q.(retry := false)], es)
      && Semop(q.call) in es && Deserved(es, q.call, Intr)
      && (Attempt(s, q.call) != Block ==> Deserved(es, q.call, CodeOf(Attempt(s, q.call))))
  {
    hide AllAnswered, Queued, Waits, Slept, Decreases, Try;
    QueuedMember(s.pending, k, es, |s.vals|);
    QueuedLess(s.pending, k, es, |s.vals|);
    QueuedMark(s.pending, k, false, es, |s.vals|);
    SleptWaits(s.pending[k].call.sops, |s.vals|);
    assert Deserved(es, s.pending[k].call, Intr);
    hide Deserved;
    ErrorDeserved(s.vals, es, s.pending[k].call);
  }

  /** What a sleeper does that is still on the queue, in its own place there. */
  lemma ResumeAt(s: Set, id: nat) returns (k: nat, t: Set)
    requires AllValid(s.pending, |s.vals|) && Sleeps(s, id) && id !in s.woken
    ensures k < |s.pending| && s.pending[k].call.id == id
    ensures t == s.(pending := s.pending[..k] + s.pending[k + 1..]) && AllValid(t.pending, |t.vals|)
    ensures var q := s.pending[k];
      Resume(s, id) ==
      if !q.retry then Return(t, q.call, Intr)
      else match Attempt(s, q.call)
           case Block => s.(pending := s.pending[k := q.(retry := false)])
           case Applied => Return(Apply(t, q.call), q.call, Zero)
           case error => Return(t, q.call, Errno(error))
  {
    k, t := Lookup(s.pending, id), s.(pending := Without(s.pending, id));
    WithoutValid(s.pending, id, |s.vals|);
    WithoutAt(s.pending, id);
    hide Without, Lookup, Try, Return, Apply;
  }

  /** The sleeper is still on the queue. */
  lemma LeftKept(s: Set, id: nat, es: seq<Event>)
    requires Enabled(s, Runs(id)) && id !in s.woken && Kept(s, s.pending, es) && Runs(id) in es
    ensures Kept(Resume(s, id), Resume(s, id).pending, es)
  {
    var k, t := ResumeAt(s, id);
    LeftFacts(s, k, es);
    hide Queued, AllAnswered, Deserved, Return, Resume;
    var q := s.pending[k];
    if !q.retry {
      ReturnKept(t, q.call, Intr, es);
    } else {
      match Attempt(s, q.call)
      case Block =>
      case Applied => ReturnKept(Apply(t, q.call), q.call, Zero, es);
      case error => ReturnKept(t, q.call, Errno(error), es);
    }
  }

  lemma CollectKept(s: Set, id: nat, code: Code, es: seq<Event>)
    requires Kept(s, s.pending, es) && id in s.woken && (code == s.woken[id] || (code == Bug && Remove in es))
    ensures AllAnswered(es, s.woken - {id}) && AllAnswered(es, s.results[id := code])
  {
    assert Answered(es, id, s.woken[id]);
    var call :| Semop(call) in es && call.id == id && Deserved(es, call, s.woken[id]);
    assert Deserved(es, call, code);
    AnswerMade(es, s.results, call, code);
  }

  lemma RemoveKept(s: Set, es: seq<Event>)
    requires Enabled(s, Remove) && Kept(s, s.pending, es)
    ensures Kept(Next(s, Remove), [], es + [Remove])
  {
    var es' := es + [Remove];
    assert es'[|es|] == Remove;
    KeptMore(s, es, Remove);
    var t := Next(s, Remove);
    forall id | id in t.woken ensures Answered(es', id, t.woken[id]) {
      KilledOnly(s.pending, s.woken, id);
      if Sleeps(s, id) {
        var k :| 0 <= k < |s.pending| && s.pending[k].call.id == id;
        assert Semop(s.pending[k].call) in es' && Deserved(es', s.pending[k].call, Idrm);
      } else {
        assert Answered(es', id, s.woken[id]);
      }
    }
  }

  lemma NextKept(s: Set, e: Event, es: seq<Event>)
    requires Inv(s) && Enabled(s, e) && Kept(s, s.pending, es) && (s.live || Remove in es)
    ensures Kept(Next(s, e), Next(s, e).pending, es + [e])
  {
    KeptMore(s, es, e);
    hide Kept, Conserves, Accounted, Replays, Ledgers;
    match e
    case Semop(call) => BeginKept(s, call, es);
    case Runs(id) => ResumeKept(s, id, es);
    case Remove => RemoveKept(s, es);
    case SetVal(i, v) =>
      PassKept(s, s.(vals := s.vals[i := v], undo := ZeroAt(s.undo, i), log := s.log + [SetOne(i, v)]), es + [e]);
    case SetAll(vs) =>
      PassKept(s, s.(vals := vs, undo := ZeroAll(s.undo), log := s.log + [SetEvery(vs)]), es + [e]);
    case Exit(pid) =>
      PassKept(s, s.(vals := Adjusted(s.vals, s.undo, pid), undo := Dropped(s.undo, pid), log := s.log + [Exited(pid)]),
               es + [e]);
    case Slot(taken) => SameKept(s, Next(s, e), es + [e]);
  }

  lemma SameKept(s: Set, t: Set, es: seq<Event>)
    requires Kept(s, s.pending, es) && t.pending == s.pending && t.woken == s.woken && t.results == s.results
    requires |t.vals| == |s.vals|
    ensures Kept(t, t.pending, es)
  {
  }

  lemma PassKept(s: Set, t: Set, es: seq<Event>)
    requires Kept(s, s.pending, es) && t.pending == s.pending && t.woken == s.woken && t.results == s.results
    requires AllValid(t.pending, |t.vals|) && |t.vals| == |s.vals|
    ensures Kept(UpdateQueue(t), UpdateQueue(t).pending, es)
  {
    SameKept(s, t, es);
    hide Kept;
    assert [] + t.pending == t.pending;
    UpdateKept(t, [], t.pending, es);
  }

  // ---------------------------------------------------------------------------
  // Whole runs
  // ---------------------------------------------------------------------------

  /** Theorem: in every state of every run the queue is in order, every sleeper has an operation that may wait, and every
      answer given is one its call and the events before it deserve. */
  lemma {:induction false} RunKept(ss: seq<Set>, es: seq<Event>, m: nat)
    requires Behaviour(ss, es) && m <= |es|
    ensures Kept(ss[m], ss[m].pending, es[..m]) && (ss[m].live || Remove in es[..m])
  {
    hide Behaviour, Inv, Next, Enabled, Kept;
    if m == 0 {
      NewKept(ss, es);
    } else {
      RunKept(ss, es, m - 1);
      RunInv(ss, es, m - 1);
      Stepped(ss, es, m - 1);
      NextInv(ss[m - 1], es[m - 1]);
      NextKept(ss[m - 1], es[m - 1], es[..m - 1]);
      assert es[..m - 1] + [es[m - 1]] == es[..m];
      assert es[m - 1] == Remove ==> Remove in es[..m];
    }
  }

  lemma NewKept(ss: seq<Set>, es: seq<Event>)
    requires Behaviour(ss, es)
    ensures Kept(ss[0], ss[0].pending, es[..0]) && ss[0].live && |ss| == |es| + 1
  {
    hide Next, Enabled;
  }

  lemma Stepped(ss: seq<Set>, es: seq<Event>, m: nat)
    requires Behaviour(ss, es) && m < |es|
    ensures |ss| == |es| + 1 && Enabled(ss[m], es[m]) && ss[m + 1] == Next(ss[m], es[m])
  {
  }

  // ---------------------------------------------------------------------------
  // Nobody is forgotten
  // ---------------------------------------------------------------------------

  ghost predicate OnQueue(q: seq<Sleeper>, id: nat) {
    exists k :: 0 <= k < |q| && q[k].call.id == id
  }

  /** The call sleeps, has an answer waiting, or has returned. */
  ghost predicate Present(s: Set, id: nat) {
    OnQueue(s.pending, id) || id in s.woken || id in s.results
  }

  function Marks(q: seq<Sleeper>): nat {
    if q == [] then 0 else (if q[0].retry then 1 else 0) + Marks(q[1..])
  }

  lemma {:induction false} MarksAppend(a: seq<Sleeper>, b: seq<Sleeper>)
    ensures Marks(a + b) == Marks(a) + Marks(b)
  {
    if a == [] {
      assert a + b == b;
    } else {
      assert (a + b)[1..] == a[1..] + b;
      MarksAppend(a[1..], b);
    }
  }

  lemma MarksAround(a: seq<Sleeper>, q: Sleeper, b: seq<Sleeper>)
    ensures Marks(a + [q] + b) == Marks(a) + (if q.retry then 1 else 0) + Marks(b) && Marks(a + b) == Marks(a) + Marks(b)
  {
    MarksAppend(a, b);
    MarksAppend(a, [q]);
    MarksAppend(a + [q], b);
  }

  /** A pass forgets nobody, leaves alone who has been told before, and tells at most one more. */
  lemma {:induction false} UpdatePresent(s: Set, kept: seq<Sleeper>, todo: seq<Sleeper>, q: Sleeper, id: nat)
    requires AllValid(todo, |s.vals|)
    ensures var r := Update(s, kept, todo);
      && (OnQueue(kept + todo, id) || id in s.woken ==> OnQueue(r.pending, id) || id in r.woken)
      && (q.retry && q in kept + todo ==> q in r.pending)
      && Marks(r.pending) <= Marks(kept + todo) + 1 && r.results == s.results
    decreases |todo|
  {
    var all := kept + todo;
    if todo == [] {
      assert all == kept;
    } else {
      var p := todo[0];
      assert kept + [p] + todo[1..] == all;
      MarksAround(kept, p, todo[1..]);
      OnQueueSplit(kept, p, todo[1..], id);
      if p.retry || Attempt(s, p.call) == Block {
        UpdatePresent(s, kept + [p], todo[1..], q, id);
      } else if Attempt(s, p.call) == Applied {
        if Decreases(p.call.sops) {
          MarksAround(kept, p.(retry := true), todo[1..]);
          OnQueueSplit(kept, p.(retry := true), todo[1..], id);
        } else {
          UpdatePresent(Apply(s, p.call).(woken := s.woken[p.call.id := Zero]), kept, todo[1..], q, id);
        }
      } else {
        UpdatePresent(s.(woken := s.woken[p.call.id := Errno(Attempt(s, p.call))]), kept, todo[1..], q, id);
      }
    }
  }

  lemma OnQueueSplit(a: seq<Sleeper>, p: Sleeper, b: seq<Sleeper>, id: nat)
    ensures OnQueue(a + [p] + b, id) <==> p.call.id == id || OnQueue(a + b, id)
  {
    var w, ab := a + [p] + b, a + b;
    assert forall k :: 0 <= k < |ab| ==> ab[k] == w[if k < |a| then k else k + 1];
    assert w[|a|] == p;
    if OnQueue(w, id) && p.call.id != id {
      var k :| 0 <= k < |w| && w[k].call.id == id;
      assert ab[if k < |a| then k else k - 1] == w[k];
    }
    if OnQueue(ab, id) {
      var k :| 0 <= k < |ab| && ab[k].call.id == id;
      assert w[if k < |a| then k else k + 1].call.id == id;
    }
  }

  lemma PassPresent(t: Set, q: Sleeper, id: nat)
    requires AllValid(t.pending, |t.vals|)
    ensures Present(t, id) ==> Present(UpdateQueue(t), id)
    ensures q.retry && q in t.pending ==> q in UpdateQueue(t).pending
    ensures Marks(UpdateQueue(t).pending) <= Marks(t.pending) + 1
  {
    assert [] + t.pending == t.pending;
    UpdatePresent(t, [], t.pending, q, id);
  }

  lemma ReturnPresent(s: Set, call: Call, code: Code, q: Sleeper, id: nat)
    requires AllValid(s.pending, |s.vals|)
    ensures var r := Return(s, call, code);
      && (Present(s, id) || id == call.id ==> Present(r, id))
      && (q.retry && q in s.pending ==> q in r.pending) && Marks(r.pending) <= Marks(s.pending) + 1
  {
    PassPresent(s.(results := s.results[call.id := code]), q, id);
  }

  lemma BeginPresent(s: Set, call: Call, q: Sleeper, id: nat)
    requires Enabled(s, Semop(call))
    ensures var r := Begin(s, call);
      && (Present(s, id) || id == call.id ==> Present(r, id))
      && (q.retry && q in s.pending ==> q in r.pending) && Marks(r.pending) <= Marks(s.pending) + 1
  {
    var t := WithLedger(s, call);
    LedgerOnly(s, call);
    JoinPresent(s.pending, call, id);
    hide WithLedger, OnQueue, Marks, Return, Try, Charge, After;
    match Attempt(t, call)
    case Block =>
    case Applied => ReturnPresent(Apply(t, call), call, Zero, q, id);
    case error => ReturnPresent(t, call, Errno(error), q, id);
  }

  lemma JoinPresent(queue: seq<Sleeper>, call: Call, id: nat)
    ensures var p := Sleeper(call, false);
      && Marks(queue + [p]) == Marks(queue) == Marks([p] + queue)
      && (OnQueue(queue, id) || id == call.id ==> OnQueue(queue + [p], id) && OnQueue([p] + queue, id))
  {
    var p := Sleeper(call, false);
    MarksAround(queue, p, []);
    MarksAround([], p, queue);
    OnQueueSplit(queue, p, [], id);
    OnQueueSplit([], p, queue, id);
    assert queue + [p] + [] == queue + [p] && [] + [p] + queue == [p] + queue;
    assert queue + [] == queue && [] + queue == queue;
  }

  lemma ResumePresent(s: Set, id: nat, q: Sleeper, x: nat)
    requires Enabled(s, Runs(id))
    ensures var r := Resume(s, id);
      && (Present(s, x) ==> Present(r, x))
      && (q.retry && q.call.id != id && q in s.pending ==> q in r.pending) && Marks(r.pending) <= Marks(s.pending) + 1
  {
    if id in s.woken {
    } else {
      var k, t := ResumeAt(s, id);
      var p, a, b := s.pending[k], s.pending[..k], s.pending[k + 1..];
      assert s.pending == a + [p] + b && s.pending[k := p.(retry := false)] == a + [p.(retry := false)] + b;
      MarksAround(a, p, b);
      MarksAround(a, p.(retry := false), b);
      OnQueueSplit(a, p, b, x);
      OnQueueSplit(a, p.(retry := false), b, x);
      hide Resume, Return, OnQueue, Marks;
      if !p.retry {
        ReturnPresent(t, p.call, Intr, q, x);
      } else {
        match Attempt(s, p.call)
        case Block =>
        case Applied => ReturnPresent(Apply(t, p.call), p.call, Zero, q, x);
        case error => ReturnPresent(t, p.call, Errno(error), q, x);
      }
    }
  }

  /** Theorem: a call that has been made is never forgotten; one that has been told to try again stays on the queue until
      it runs or the set is removed; and no step tells more than one. */
  lemma NextPresent(s: Set, e: Event, q: Sleeper, id: nat)
    requires Enabled(s, e)
    ensures var r := Next(s, e);
      && (Present(s, id) || (e.Semop? && e.call.id == id) ==> Present(r, id))
      && (q.retry && q in s.pending && !e.Remove? && e != Runs(q.call.id) ==> q in r.pending)
      && Marks(r.pending) <= Marks(s.pending) + 1
  {
    hide Marks;
    match e
    case Semop(call) => BeginPresent(s, call, q, id);
    case Runs(x) => ResumePresent(s, x, q, id);
    case Remove =>
      KilledOnly(s.pending, s.woken, id);
      MarksNone();
    case SetVal(i, v) =>
      PassPresent(s.(vals := s.vals[i := v], undo := ZeroAt(s.undo, i), log := s.log + [SetOne(i, v)]), q, id);
    case SetAll(vs) =>
      PassPresent(s.(vals := vs, undo := ZeroAll(s.undo), log := s.log + [SetEvery(vs)]), q, id);
    case Exit(pid) =>
      PassPresent(s.(vals := Adjusted(s.vals, s.undo, pid), undo := Dropped(s.undo, pid), log := s.log + [Exited(pid)]), q, id);
    case Slot(taken) =>
  }

  lemma MarksNone()
    ensures Marks([]) == 0
  {
  }
}
