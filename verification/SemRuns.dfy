/**
  ipc/sem.c: what holds over every run of a semaphore set.
*/
module SemRuns {
  import opened Basics
  import opened SemVectors
  import opened SemSets

  // ---------------------------------------------------------------------------
  // Conservation
  // ---------------------------------------------------------------------------

  /** The part of a vector made without SEM_UNDO. */
  ghost function Plain(sops: seq<Sop>, i: nat): int {
    if sops == [] then 0
    else Plain(sops[..|sops| - 1], i) +
         (if sops[|sops| - 1].num == i && !sops[|sops| - 1].undo then sops[|sops| - 1].op else 0)
  }

  lemma {:induction false} PlainAndUndo(sops: seq<Sop>, i: nat)
    ensures Sum(sops, i) == Plain(sops, i) + UndoSum(sops, i)
  {
    if sops == [] {
    } else {
      PlainAndUndo(sops[..|sops| - 1], i);
    }
  }

  /** The sum of entry i of all live ledgers. */
  ghost function AdjSum(undo: seq<Undo>, i: nat): int {
    if undo == [] then 0
    else (if i < |undo[0].adj| then undo[0].adj[i] else 0) + AdjSum(undo[1..], i)
  }

  /** What a semaphore and all promises to undo amount to together. */
  ghost function Total(s: Set, i: nat): int
    requires i < |s.vals|
  {
    s.vals[i] + AdjSum(s.undo, i)
  }

  /** The total as the history accounts for it: operations without SEM_UNDO, settings, and what the
      clamp at process exit adds. */
  ghost function Budget(log: seq<Entry>, i: nat): int {
    if log == [] then 0
    else
      var past := log[..|log| - 1];
      match log[|log| - 1]
      case Done(call) => Budget(past, i) + Plain(call.sops, i)
      case SetOne(j, v) => if j == i then v else Budget(past, i)
      case SetEvery(vs) => if i < |vs| then vs[i] else 0
      case Exited(pid) =>
        var v := ReplayVal(past, i) + ReplayAdj(past, pid, i);
        Budget(past, i) + (if v < 0 then -v else 0)
  }

  /** No entry of a ledger ever left the range of a short. */
  ghost predicate Fits(log: seq<Entry>, i: nat) {
    log == [] ||
    var past := log[..|log| - 1];
    Fits(past, i) &&
    (log[|log| - 1].Done? ==>
       IsShort(ReplayAdj(past, log[|log| - 1].call.pid, i) - UndoSum(log[|log| - 1].call.sops, i)))
  }

  ghost predicate Conserves(s: Set) {
    forall i: nat :: i < |s.vals| ==>
      (Total(s, i) - Budget(s.log, i)) % 65536 == 0 && (Fits(s.log, i) ==> Total(s, i) == Budget(s.log, i))
  }

  lemma ShortIsCongruent(x: int)
    ensures (Short(x) - x) % 65536 == 0
  {
    assert Short(x) - x == -65536 * ((x + 32768) / 65536);
  }

  lemma {:induction false} ChargeSum(undo: seq<Undo>, pid: int, sops: seq<Sop>, i: nat, n: nat)
    requires Ledgers(undo, n) && i < n
    ensures AdjSum(Charge(undo, pid, sops), i) - AdjSum(undo, i) ==
            if HasLedger(undo, pid) then Short(Adj(undo, pid, i) - UndoSum(sops, i)) - Adj(undo, pid, i) else 0
  {
    if undo == [] {
    } else {
      HasLedgerTail(undo, pid);
      assert Charge(undo, pid, sops)[1..] == Charge(undo[1..], pid, sops);
      ChargeSum(undo[1..], pid, sops, i, n);
      if undo[0].pid == pid {
        assert !HasLedger(undo[1..], pid);
      }
    }
  }

  /** Theorem: one applied vector changes the total by its plain operations exactly when the
      ledger entry stays a short; it always does modulo 65536. */
  lemma ApplyTotal(s: Set, call: Call, i: nat)
    requires Ledgers(s.undo, |s.vals|) && i < |s.vals| && (UsesUndo(call.sops) ==> HasLedger(s.undo, call.pid))
    ensures Total(Apply(s, call), i) == Total(s, i) + Plain(call.sops, i) <==>
            IsShort(Adj(s.undo, call.pid, i) - UndoSum(call.sops, i))
    ensures (Total(Apply(s, call), i) - Total(s, i) - Plain(call.sops, i)) % 65536 == 0
  {
    PlainAndUndo(call.sops, i);
    ChargeSum(s.undo, call.pid, call.sops, i, |s.vals|);
    LedgerFound(s.undo, call.pid, |s.vals|);
    if !UsesUndo(call.sops) { NoUndoNoSum(call.sops, i); }
    ShortIsCongruent(Adj(s.undo, call.pid, i) - UndoSum(call.sops, i));
  }

  lemma ApplyConserves(s: Set, call: Call)
    requires Conserves(s) && Replays(s) && Ledgers(s.undo, |s.vals|)
    requires UsesUndo(call.sops) ==> HasLedger(s.undo, call.pid)
    ensures Conserves(Apply(s, call))
  {
    var t := Apply(s, call);
    ReplayStep(s.log, Done(call));
    forall i: nat | i < |s.vals|
      ensures (Total(t, i) - Budget(t.log, i)) % 65536 == 0 && (Fits(t.log, i) ==> Total(t, i) == Budget(t.log, i))
    {
      ApplyTotal(s, call, i);
      assert Adj(s.undo, call.pid, i) == ReplayAdj(s.log, call.pid, i);
      assert (Total(s, i) - Budget(s.log, i)) % 65536 == 0;
      Add65536(Total(s, i) - Budget(s.log, i), Total(t, i) - Total(s, i) - Plain(call.sops, i));
    }
  }

  lemma Add65536(x: int, y: int)
    requires x % 65536 == 0 && y % 65536 == 0
    ensures (x + y) % 65536 == 0
  {
  }

  lemma {:induction false} UpdateConserves(s: Set, kept: seq<Sleeper>, todo: seq<Sleeper>)
    requires AllValid(todo, |s.vals|) && Sane(s, kept + todo) && Conserves(s)
    ensures Conserves(Update(s, kept, todo))
    decreases |todo|
  {
    hide NonNegative, Ledgers, Replays, UsesUndo, HasLedger, Budget, Fits;
    if todo != [] {
      var q := todo[0];
      var all := kept + todo;
      assert (kept + [q]) + todo[1..] == all;
      assert all[|kept|] == q;
      assert Ready(kept + todo[1..], s.undo, |s.vals|) by {
        assert forall k :: 0 <= k < |kept + todo[1..]| ==>
                 (kept + todo[1..])[k] == all[if k < |kept| then k else k + 1];
      }
      if q.retry || Attempt(s, q.call) == Block {
        UpdateConserves(s, kept + [q], todo[1..]);
      } else if Attempt(s, q.call) == Applied {
        if !Decreases(q.call.sops) {
          var t := Apply(s, q.call).(woken := s.woken[q.call.id := Zero]);
          ApplySane(s, kept + todo[1..], q.call);
          ApplyConserves(s, q.call);
          SaneWith(Apply(s, q.call), kept + todo[1..], t);
          SameTotals(Apply(s, q.call), t);
          UpdateConserves(t, kept, todo[1..]);
        } else {
          SameTotals(s, Update(s, kept, todo));
        }
      } else {
        var t := s.(woken := s.woken[q.call.id := Errno(Attempt(s, q.call))]);
        SaneWith(s, kept + todo[1..], t);
        SameTotals(s, t);
        UpdateConserves(t, kept, todo[1..]);
      }
    } else {
      SameTotals(s, Update(s, kept, todo));
    }
  }

  lemma SameTotals(s: Set, t: Set)
    requires Conserves(s) && t.vals == s.vals && t.undo == s.undo && t.log == s.log
    ensures Conserves(t)
  {
    forall i: nat | i < |t.vals|
      ensures (Total(t, i) - Budget(t.log, i)) % 65536 == 0 && (Fits(t.log, i) ==> Total(t, i) == Budget(t.log, i))
    {
      assert Total(t, i) == Total(s, i);
    }
  }

  lemma ReturnConserves(s: Set, call: Call, code: Code)
    requires AllValid(s.pending, |s.vals|) && Sane(s, s.pending) && Conserves(s)
    ensures Conserves(Return(s, call, code))
  {
    hide NonNegative, Ledgers, Replays, Budget, Fits;
    var t := s.(results := s.results[call.id := code]);
    SaneWith(s, s.pending, t);
    SameTotals(s, t);
    assert [] + t.pending == t.pending;
    if Alters(call.sops) { UpdateConserves(t, [], t.pending); }
  }

  lemma FinishConserves(s: Set, call: Call, outcome: Outcome)
    requires AllValid(s.pending, |s.vals|) && Sane(s, s.pending) && Conserves(s)
    requires Valid(call.sops, |s.vals|) && (UsesUndo(call.sops) ==> HasLedger(s.undo, call.pid))
    requires outcome == Attempt(s, call)
    ensures outcome == Applied ==> Conserves(Return(Apply(s, call), call, Zero))
    ensures outcome != Applied ==> Conserves(Return(s, call, Errno(outcome)))
  {
    hide NonNegative, Ledgers, Replays, Budget, Fits, UsesUndo, HasLedger, Conserves;
    if outcome == Applied {
      ApplySane(s, s.pending, call);
      ApplyConserves(s, call);
      ReturnConserves(Apply(s, call), call, Zero);
    } else {
      ReturnConserves(s, call, Errno(outcome));
    }
  }

  lemma BeginConserves(s: Set, call: Call)
    requires Enabled(s, Semop(call)) && Sane(s, s.pending) && Conserves(s)
    ensures Conserves(Begin(s, call))
  {
    WithLedgerSane(s, call);
    var t := WithLedger(s, call);
    assert Conserves(t) by {
      forall i: nat | i < |s.vals| ensures Total(t, i) == Total(s, i) {
        if t != s { assert t.undo[1..] == s.undo; }
      }
    }
    hide NonNegative, Ledgers, Replays, Budget, Fits, UsesUndo, HasLedger, Conserves;
    if Attempt(t, call) == Block { SameTotals(t, Begin(s, call)); } else { FinishConserves(t, call, Attempt(t, call)); }
  }

  lemma ResumeConserves(s: Set, id: nat)
    requires Enabled(s, Runs(id)) && Sane(s, s.pending) && Conserves(s)
    ensures Conserves(Resume(s, id))
  {
    hide NonNegative, Ledgers, Replays, Budget, Fits, UsesUndo, HasLedger, Conserves;
    if id in s.woken {
      SameTotals(s, Resume(s, id));
    } else {
      var q := s.pending[Lookup(s.pending, id)];
      var t := s.(pending := Without(s.pending, id));
      WithoutValid(s.pending, id, |s.vals|);
      WithoutReady(s.pending, id, s.undo, |s.vals|);
      SaneWith(s, t.pending, t);
      SameTotals(s, t);
      if !q.retry {
        ReturnConserves(t, q.call, Intr);
      } else if Attempt(s, q.call) == Block {
        SameTotals(s, Resume(s, id));
      } else {
        FinishConserves(t, q.call, Attempt(t, q.call));
      }
    }
  }

  lemma {:induction false} ZeroAtSum(undo: seq<Undo>, i: nat, k: nat)
    ensures AdjSum(ZeroAt(undo, i), k) == if k == i then 0 else AdjSum(undo, k)
  {
    if undo == [] {
    } else {
      assert ZeroAt(undo, i)[1..] == ZeroAt(undo[1..], i);
      ZeroAtSum(undo[1..], i, k);
    }
  }

  lemma {:induction false} ZeroAllSum(undo: seq<Undo>, k: nat)
    ensures AdjSum(ZeroAll(undo), k) == 0
  {
    if undo == [] {
    } else {
      assert ZeroAll(undo)[1..] == ZeroAll(undo[1..]);
      ZeroAllSum(undo[1..], k);
    }
  }

  lemma {:induction false} DroppedSum(undo: seq<Undo>, pid: int, i: nat, n: nat)
    requires Ledgers(undo, n)
    ensures AdjSum(Dropped(undo, pid), i) == AdjSum(undo, i) - Adj(undo, pid, i)
  {
    if undo == [] {
    } else {
      DroppedSum(undo[1..], pid, i, n);
      if undo[0].pid != pid { assert Dropped(undo, pid)[1..] == Dropped(undo[1..], pid); }
    }
  }

  /** SETVAL and SETALL make the total the value set. */
  lemma SetConserves(s: Set, t: Set, i: nat, v: int)
    requires Conserves(s) && i < |s.vals|
    requires t.vals == s.vals[i := v] && t.undo == ZeroAt(s.undo, i) && t.log == s.log + [SetOne(i, v)]
    ensures Total(t, i) == v && Conserves(t)
  {
    ReplayStep(s.log, SetOne(i, v));
    forall k: nat | k < |s.vals| ensures Total(t, k) == if k == i then v else Total(s, k) { ZeroAtSum(s.undo, i, k); }
  }

  lemma SetAllConserves(s: Set, t: Set, vs: seq<int>)
    requires |vs| == |s.vals|
    requires t.vals == vs && t.undo == ZeroAll(s.undo) && t.log == s.log + [SetEvery(vs)]
    ensures Conserves(t) && forall i: nat :: i < |vs| ==> Total(t, i) == vs[i]
  {
    ReplayStep(s.log, SetEvery(vs));
    forall k: nat | k < |vs| ensures Total(t, k) == vs[k] { ZeroAllSum(s.undo, k); }
  }

  /** sem_exit keeps the total exactly when the adjustment does not take the semaphore below zero. */
  lemma ExitTotal(s: Set, t: Set, pid: int, i: nat)
    requires Ledgers(s.undo, |s.vals|) && i < |s.vals|
    requires t.vals == Adjusted(s.vals, s.undo, pid) && t.undo == Dropped(s.undo, pid)
    ensures Total(t, i) == Total(s, i) <==> s.vals[i] + Adj(s.undo, pid, i) >= 0
    ensures Total(t, i) >= Total(s, i)
  {
    DroppedSum(s.undo, pid, i, |s.vals|);
  }

  lemma ExitConserves(s: Set, t: Set, pid: int)
    requires Sane(s, s.pending) && Conserves(s)
    requires t.vals == Adjusted(s.vals, s.undo, pid) && t.undo == Dropped(s.undo, pid) && t.log == s.log + [Exited(pid)]
    ensures Conserves(t)
  {
    ReplayStep(s.log, Exited(pid));
    forall i: nat | i < |s.vals|
      ensures Total(t, i) - Total(s, i) == Budget(t.log, i) - Budget(s.log, i)
    {
      DroppedSum(s.undo, pid, i, |s.vals|);
      assert Adj(s.undo, pid, i) == ReplayAdj(s.log, pid, i);
    }
    forall i: nat | i < |t.vals|
      ensures (Total(t, i) - Budget(t.log, i)) % 65536 == 0 && (Fits(t.log, i) ==> Total(t, i) == Budget(t.log, i))
    {
      assert Total(t, i) - Budget(t.log, i) == Total(s, i) - Budget(s.log, i);
    }
  }

  // ---------------------------------------------------------------------------
  // Whole runs
  // ---------------------------------------------------------------------------

  /** newary. */
  function New(n: nat): Set {
    Set(Zeros(n), [], [], map[], true, map[], [], false)
  }

  ghost predicate Inv(s: Set) {
    && Accounted(s, s.pending)
    && (s.live ==> Sane(s, s.pending) && Conserves(s) && forall id :: id in s.woken ==> s.woken[id] != Idrm)
    && (!s.live ==> s.pending == [])
  }

  lemma AfterSetting(s: Set, t: Set)
    requires t.pending == s.pending && AllValid(t.pending, |t.vals|) && Sane(t, t.pending) && Conserves(t)
    ensures Sane(UpdateQueue(t), UpdateQueue(t).pending) && Conserves(UpdateQueue(t)) && UpdateQueue(t).live == t.live
  {
    assert [] + t.pending == t.pending;
    UpdateSane(t, [], t.pending);
    UpdateConserves(t, [], t.pending);
  }

  lemma NextSane(s: Set, e: Event)
    requires Enabled(s, e) && s.live && !e.Remove? && Sane(s, s.pending) && Conserves(s)
    ensures Next(s, e).live && Sane(Next(s, e), Next(s, e).pending) && Conserves(Next(s, e))
  {
    hide Sane, Conserves;
    match e
    case Semop(call) => BeginSane(s, call); BeginConserves(s, call);
    case Runs(id) => ResumeSane(s, id); ResumeConserves(s, id);
    case SetVal(i, v) =>
      var t := s.(vals := s.vals[i := v], undo := ZeroAt(s.undo, i), log := s.log + [SetOne(i, v)]);
      SetValSane(s, i, v);
      SetConserves(s, t, i, v);
      AfterSetting(s, t);
    case SetAll(vs) =>
      var t := s.(vals := vs, undo := ZeroAll(s.undo), log := s.log + [SetEvery(vs)]);
      SetAllSane(s, vs);
      SetAllConserves(s, t, vs);
      AfterSetting(s, t);
    case Exit(pid) =>
      var t := s.(vals := Adjusted(s.vals, s.undo, pid), undo := Dropped(s.undo, pid), log := s.log + [Exited(pid)]);
      ExitSane(s, pid);
      ExitConserves(s, t, pid);
      AfterSetting(s, t);
  }

  /** update_queue never takes a sleeper off with -EIDRM and leaves the others' status alone. */
  lemma {:induction false} UpdateWoken(s: Set, kept: seq<Sleeper>, todo: seq<Sleeper>)
    requires AllValid(todo, |s.vals|)
    ensures forall id :: id in Update(s, kept, todo).woken && Update(s, kept, todo).woken[id] == Idrm ==>
                         id in s.woken && s.woken[id] == Idrm
    decreases |todo|
  {
    if todo == [] {
    } else {
      var q := todo[0];
      if q.retry || Attempt(s, q.call) == Block {
        UpdateWoken(s, kept + [q], todo[1..]);
      } else if Attempt(s, q.call) == Applied {
        if !Decreases(q.call.sops) { UpdateWoken(Apply(s, q.call).(woken := s.woken[q.call.id := Zero]), kept, todo[1..]); }
      } else {
        UpdateWoken(s.(woken := s.woken[q.call.id := Errno(Attempt(s, q.call))]), kept, todo[1..]);
      }
    }
  }

  ghost predicate NoIdrm(s: Set) {
    forall id :: id in s.woken ==> s.woken[id] != Idrm
  }

  lemma ReturnNoIdrm(s: Set, call: Call, code: Code)
    requires AllValid(s.pending, |s.vals|) && NoIdrm(s)
    ensures NoIdrm(Return(s, call, code))
  {
    var t := s.(results := s.results[call.id := code]);
    if Alters(call.sops) { UpdateWoken(t, [], t.pending); }
  }

  lemma NextNoIdrm(s: Set, e: Event)
    requires Enabled(s, e) && s.live && !e.Remove? && NoIdrm(s)
    ensures NoIdrm(Next(s, e))
  {
    match e
    case Semop(call) =>
      var t := WithLedger(s, call);
      if Attempt(t, call) == Applied { ReturnNoIdrm(Apply(t, call), call, Zero); }
      else if Attempt(t, call) != Block { ReturnNoIdrm(t, call, Errno(Attempt(t, call))); }
    case Runs(id) =>
      if id !in s.woken {
        var q := s.pending[Lookup(s.pending, id)];
        var t := s.(pending := Without(s.pending, id));
        WithoutValid(s.pending, id, |s.vals|);
        if !q.retry { ReturnNoIdrm(t, q.call, Intr); }
        else if Attempt(s, q.call) == Applied { ReturnNoIdrm(Apply(t, q.call), q.call, Zero); }
        else if Attempt(s, q.call) != Block { ReturnNoIdrm(t, q.call, Errno(Attempt(s, q.call))); }
      }
    case SetVal(i, v) =>
      UpdateWoken(s.(vals := s.vals[i := v], undo := ZeroAt(s.undo, i), log := s.log + [SetOne(i, v)]), [], s.pending);
    case SetAll(vs) =>
      UpdateWoken(s.(vals := vs, undo := ZeroAll(s.undo), log := s.log + [SetEvery(vs)]), [], s.pending);
    case Exit(pid) =>
      UpdateWoken(s.(vals := Adjusted(s.vals, s.undo, pid), undo := Dropped(s.undo, pid), log := s.log + [Exited(pid)]),
                  [], s.pending);
  }

  lemma NextInv(s: Set, e: Event)
    requires Inv(s) && Enabled(s, e)
    ensures Inv(Next(s, e)) && (Next(s, e).live <==> s.live && !e.Remove?)
  {
    NextAccounted(s, e);
    hide Accounted, Sane, Conserves;
    if s.live && !e.Remove? {
      NextSane(s, e);
      NextNoIdrm(s, e);
    }
  }

  ghost predicate Behaviour(ss: seq<Set>, es: seq<Event>) {
    && |ss| == |es| + 1 && (exists n: nat :: ss[0] == New(n))
    && forall m :: 0 <= m < |es| ==> Enabled(ss[m], es[m]) && ss[m + 1] == Next(ss[m], es[m])
  }

  lemma NewInv(n: nat)
    ensures Inv(New(n))
  {
    var s := New(n);
    forall i: nat | i < n ensures Total(s, i) == Budget(s.log, i) == 0 { }
  }

  lemma {:induction false} RunInv(ss: seq<Set>, es: seq<Event>, m: nat)
    requires Behaviour(ss, es) && m <= |es|
    ensures Inv(ss[m])
  {
    hide Inv, Next, Enabled;
    if m == 0 {
      var n: nat :| ss[0] == New(n);
      NewInv(n);
    } else {
      RunInv(ss, es, m - 1);
      NextInv(ss[m - 1], es[m - 1]);
    }
  }

  /** Theorem: over every run, a call that returned 0 has had its vector applied exactly once, and
      one that returned an error, never. */
  lemma ExactlyOnce(ss: seq<Set>, es: seq<Event>, m: nat, id: nat)
    requires Behaviour(ss, es) && m <= |es| && id in ss[m].results && ss[m].results[id] != Bug
    ensures Times(ss[m].log, id) == if ss[m].results[id] == Zero then 1 else 0
  {
    RunInv(ss, es, m);
    assert Tally(ss[m].log, ss[m].woken, ss[m].results, id);
  }

  /** Theorem: while the set lives its semaphores and ledgers are exactly what applying the finished
      vectors one after the other makes them, no semaphore is negative, and the total of a
      semaphore and all promises to undo it is what the history accounts for: modulo 65536 in
      every run, and exactly in a run whose ledger entries stay shorts. */
  lemma RunReplays(ss: seq<Set>, es: seq<Event>, m: nat, i: nat, p: int)
    requires Behaviour(ss, es) && m <= |es| && ss[m].live && i < |ss[m].vals|
    ensures ss[m].vals[i] == ReplayVal(ss[m].log, i) >= 0
    ensures Adj(ss[m].undo, p, i) == ReplayAdj(ss[m].log, p, i)
    ensures (Total(ss[m], i) - Budget(ss[m].log, i)) % 65536 == 0
    ensures Fits(ss[m].log, i) ==> Total(ss[m], i) == Budget(ss[m].log, i)
  {
    RunInv(ss, es, m);
  }

  // ---------------------------------------------------------------------------
  // The BUG() in sys_semop
  // ---------------------------------------------------------------------------

  /** The set was removed when the call had been completed by update_queue but had not run yet. */
  ghost predicate Raced(ss: seq<Set>, es: seq<Event>, m: nat, id: nat)
    requires m <= |es| < |ss|
  {
    exists r :: 0 <= r < m && es[r].Remove? && id in ss[r].woken
  }

  lemma WokenOffQueue(s: Set, id: nat)
    requires Accounted(s, s.pending) && id in s.woken
    ensures forall k :: 0 <= k < |s.pending| ==> s.pending[k].call.id != id
  {
    forall k | 0 <= k < |s.pending| ensures s.pending[k].call.id != id {
      assert Waiting(s.log, s.woken, s.results, s.pending[k].call.id);
    }
  }

  lemma {:induction false} RacedStatus(ss: seq<Set>, es: seq<Event>, m: nat, id: nat)
    requires Behaviour(ss, es) && m <= |es|
    ensures ss[m].live ==> !Raced(ss, es, m, id)
    ensures !ss[m].live && id in ss[m].woken ==> (ss[m].woken[id] != Idrm <==> Raced(ss, es, m, id))
  {
    if m == 0 {
    } else {
      RacedStatus(ss, es, m - 1, id);
      RunInv(ss, es, m - 1);
      NextInv(ss[m - 1], es[m - 1]);
      var s := ss[m - 1];
      assert Raced(ss, es, m, id) <==> Raced(ss, es, m - 1, id) || (es[m - 1].Remove? && id in s.woken);
      hide Raced;
      if es[m - 1].Remove? {
        RemoveStatus(s, id);
      } else if !s.live {
        DeadStep(s, es[m - 1]);
      }
    }
  }

  /** Removal marks the sleepers on the queue and nobody else. */
  lemma RemoveStatus(s: Set, id: nat)
    requires Inv(s) && Enabled(s, Remove)
    ensures id in Next(s, Remove).woken ==> (Next(s, Remove).woken[id] != Idrm <==> id in s.woken)
  {
    KilledOnly(s.pending, s.woken, id);
    if id in s.woken {
      WokenOffQueue(s, id);
      assert s.live && s.woken[id] != Idrm;
    }
    assert Next(s, Remove).woken == Killed(s.pending, s.woken);
    hide Inv, Killed;
  }

  /** Once the set is gone all that happens is that woken sleepers run and other sets come and go in its slot. */
  lemma DeadStep(s: Set, e: Event)
    requires Inv(s) && !s.live && Enabled(s, e)
    ensures e.Slot? || (e.Runs? && e.id in s.woken)
    ensures Next(s, e).woken == if e.Slot? then s.woken else s.woken - {e.id}
  {
  }

  /** What the events say about the slot: whether another set has it. */
  ghost function SlotTaken(es: seq<Event>): bool {
    if es == [] then false
    else if es[|es| - 1].Slot? then es[|es| - 1].taken else SlotTaken(es[..|es| - 1])
  }

  lemma {:induction false} UpdateSlot(s: Set, kept: seq<Sleeper>, todo: seq<Sleeper>)
    requires AllValid(todo, |s.vals|)
    ensures Update(s, kept, todo).reused == s.reused
    decreases |todo|
  {
    if todo == [] {
    } else {
      var q := todo[0];
      if q.retry || Attempt(s, q.call) == Block {
        UpdateSlot(s, kept + [q], todo[1..]);
      } else if Attempt(s, q.call) == Applied {
        if !Decreases(q.call.sops) { UpdateSlot(Apply(s, q.call).(woken := s.woken[q.call.id := Zero]), kept, todo[1..]); }
      } else {
        UpdateSlot(s.(woken := s.woken[q.call.id := Errno(Attempt(s, q.call))]), kept, todo[1..]);
      }
    }
  }

  lemma ReturnSlot(s: Set, call: Call, code: Code)
    requires AllValid(s.pending, |s.vals|)
    ensures Return(s, call, code).reused == s.reused
  {
    UpdateSlot(s.(results := s.results[call.id := code]), [], s.pending);
  }

  lemma NextSlot(s: Set, e: Event)
    requires Enabled(s, e)
    ensures Next(s, e).reused == if e.Slot? then e.taken else s.reused
  {
    match e
    case Semop(call) =>
      var t := WithLedger(s, call);
      ReturnSlot(Apply(t, call), call, Zero);
      ReturnSlot(t, call, Errno(Attempt(t, call)));
    case Runs(id) =>
      if id !in s.woken {
        var call := s.pending[Lookup(s.pending, id)].call;
        var t := s.(pending := Without(s.pending, id));
        WithoutValid(s.pending, id, |s.vals|);
        ReturnSlot(t, call, Intr);
        ReturnSlot(t, call, Errno(Attempt(s, call)));
        ReturnSlot(Apply(t, call), call, Zero);
      }
    case SetVal(i, v) =>
      UpdateSlot(s.(vals := s.vals[i := v], undo := ZeroAt(s.undo, i), log := s.log + [SetOne(i, v)]), [], s.pending);
    case SetAll(vs) =>
      UpdateSlot(s.(vals := vs, undo := ZeroAll(s.undo), log := s.log + [SetEvery(vs)]), [], s.pending);
    case Exit(pid) =>
      UpdateSlot(s.(vals := Adjusted(s.vals, s.undo, pid), undo := Dropped(s.undo, pid), log := s.log + [Exited(pid)]),
                 [], s.pending);
    case _ =>
  }

  lemma {:induction false} RunSlot(ss: seq<Set>, es: seq<Event>, m: nat)
    requires Behaviour(ss, es) && m <= |es|
    ensures ss[m].reused == SlotTaken(es[..m])
  {
    if m == 0 {
    } else {
      RunSlot(ss, es, m - 1);
      NextSlot(ss[m - 1], es[m - 1]);
      assert es[..m][..m - 1] == es[..m - 1];
    }
  }

  /** Theorem: a call that runs again hits the BUG() exactly when the set was removed between its
      completion by update_queue and its running, and no other set has its slot then. */
  lemma BugExactly(ss: seq<Set>, es: seq<Event>, m: nat, id: nat)
    requires Behaviour(ss, es) && m < |es| && es[m] == Runs(id)
    requires id in ss[m].woken
    ensures ss[m + 1].results[id] == Bug <==> Raced(ss, es, m, id) && !SlotTaken(es[..m])
  {
    RunSlot(ss, es, m);
    RacedStatus(ss, es, m, id);
    RunInv(ss, es, m);
    hide Raced;
    assert ss[m + 1] == Next(ss[m], es[m]);
    CollectStatus(ss[m], id);
  }

  lemma CollectStatus(s: Set, id: nat)
    requires Inv(s) && Enabled(s, Runs(id)) && id in s.woken
    ensures id in Next(s, Runs(id)).results
    ensures Next(s, Runs(id)).results[id] == Bug <==> !s.live && !s.reused && s.woken[id] != Idrm
  {
    assert Tally(s.log, s.woken, s.results, id);
  }

  lemma SingleOp(v: int, sop: Sop)
    requires sop.num == 0 && !sop.nowait && 0 <= v && v + sop.op <= SEMVMX
    ensures Valid([sop], 1) && After([v], [sop]) == [v + sop.op]
    ensures Try([v], [sop], 0) == if (sop.op == 0 && v != 0) || v + sop.op < 0 then Block else Applied
  {
    assert [sop][..0] == [];
    assert Found([v], [sop], 0) == v;
    assert Sum([sop], 0) == sop.op;
    AppliedExactly([v], [sop], 0);
  }

  // ---------------------------------------------------------------------------
  // A run in which a ledger entry leaves the range of a short
  // ---------------------------------------------------------------------------

  const UP := Sop(0, 32767, false, true)
  const DOWN := Sop(0, -32767, false, false)

  /** One operation that goes through at once on a set of one semaphore with nobody asleep. */
  lemma SingleStep(s: Set, v: int, call: Call, sop: Sop)
    requires s.live && s.pending == [] && s.vals == [v] && 0 <= v && call.sops == [sop] && Fresh(s, call.id)
    requires sop.num == 0 && !sop.nowait && sop.op != 0 && 0 <= v + sop.op <= SEMVMX
    ensures Enabled(s, Semop(call))
    ensures var t := WithLedger(s, call);
      Next(s, Semop(call)) ==
      t.(vals := [v + sop.op], undo := Charge(t.undo, call.pid, call.sops), log := s.log + [Done(call)],
         results := s.results[call.id := Zero])
  {
    SingleOp(v, sop);
    hide Try, After, Charge, WithLedger;
    assert sop == call.sops[0];
    assert Alters(call.sops);
    var t := WithLedger(s, call);
    assert t.vals == s.vals && t.pending == [] && t.log == s.log && t.results == s.results && t.live by { LedgerOnly(s, call); }
  }

  lemma LedgerOnly(s: Set, call: Call)
    ensures WithLedger(s, call) == s.(undo := WithLedger(s, call).undo)
  {
  }

  lemma SingleSums(sop: Sop)
    requires sop.num == 0
    ensures UndoSum([sop], 0) == (if sop.undo then sop.op else 0) && Plain([sop], 0) == (if sop.undo then 0 else sop.op)
  {
    assert [sop][..0] == [];
  }

  const FIRST := Call(0, 10, [UP])
  const BACK := Call(1, 11, [DOWN])
  const AGAIN := Call(2, 10, [UP])

  const AFTER_FIRST := Set([32767], [Undo(10, [-32767])], [], map[], true, map[0 := Zero], [Done(FIRST)], false)
  const AFTER_BACK := AFTER_FIRST.(vals := [0], results := map[0 := Zero, 1 := Zero], log := [Done(FIRST), Done(BACK)])
  const AFTER_AGAIN := Set([32767], [Undo(10, [2])], [], map[], true, map[0 := Zero, 1 := Zero, 2 := Zero],
                           [Done(FIRST), Done(BACK), Done(AGAIN)], false)

  lemma FirstStep()
    ensures Enabled(New(1), Semop(FIRST)) && Next(New(1), Semop(FIRST)) == AFTER_FIRST
  {
    assert New(1).vals == [0] && FIRST.sops[0].undo;
    SingleStep(New(1), 0, FIRST, UP);
    SingleSums(UP);
    assert Ledger(Zeros(1), [UP]) == [-32767];
    hide Next;
  }

  lemma BackStep()
    ensures Enabled(AFTER_FIRST, Semop(BACK)) && Next(AFTER_FIRST, Semop(BACK)) == AFTER_BACK
  {
    SingleStep(AFTER_FIRST, 32767, BACK, DOWN);
    hide Next;
  }

  lemma AgainStep()
    ensures Enabled(AFTER_BACK, Semop(AGAIN)) && Next(AFTER_BACK, Semop(AGAIN)) == AFTER_AGAIN
  {
    assert AFTER_BACK.undo[0].pid == 10;
    SingleStep(AFTER_BACK, 0, AGAIN, UP);
    SingleSums(UP);
    assert Ledger([-32767], [UP]) == [2];
    hide Next;
  }

  /** Process 10 raises the semaphore by 32767 with SEM_UNDO, process 11 lowers it again without, and process 10 raises
      it once more: its entry is 2 and not -65534, and semaphore and entry together are 65536 too many. */
  lemma LedgerWraps() returns (ss: seq<Set>, es: seq<Event>)
    ensures Behaviour(ss, es) && |es| == 3 && ss[3].live && |ss[3].vals| == 1
    ensures Adj(ss[3].undo, 10, 0) == 2 && ss[3].vals[0] == 32767
    ensures Budget(ss[3].log, 0) == -32767 && Total(ss[3], 0) == Budget(ss[3].log, 0) + 65536
  {
    FirstStep();
    BackStep();
    AgainStep();
    BudgetSteps(FIRST, BACK, AGAIN);
    hide Next, Enabled;
    es := [Semop(FIRST), Semop(BACK), Semop(AGAIN)];
    ss := [New(1), AFTER_FIRST, AFTER_BACK, AFTER_AGAIN];
  }

  lemma BudgetSteps(a: Call, b: Call, c: Call)
    requires a.sops == [UP] == c.sops && b.sops == [DOWN]
    ensures Budget([Done(a), Done(b), Done(c)], 0) == -32767
  {
    SingleSums(UP);
    SingleSums(DOWN);
    var log := [Done(a), Done(b), Done(c)];
    assert log[..2] == [Done(a), Done(b)] && log[..2][..1] == [Done(a)] && [Done(a)][..0] == [];
    assert Budget(log[..2], 0) == Budget([Done(a)], 0) - 32767;
  }

  // ---------------------------------------------------------------------------
  // A run that reaches the BUG()
  // ---------------------------------------------------------------------------

  // One process waits for zero, another brings the semaphore to zero and so
  // completes the wait, the set is removed, and only then does the first process run.
  const RAISE := Call(0, 10, [Sop(0, 1, false, false)])
  const AWAIT_ZERO := Call(1, 11, [Sop(0, 0, false, false)])
  const LOWER := Call(2, 12, [Sop(0, -1, false, false)])

  const RAISED := Set([1], [], [], map[], true, map[0 := Zero], [Done(RAISE)], false)
  const AWAITING := RAISED.(pending := [Sleeper(AWAIT_ZERO, false)])
  const LOWERED := Set([0], [], [Sleeper(AWAIT_ZERO, false)], map[], true, map[0 := Zero, 2 := Zero],
                       [Done(RAISE), Done(LOWER)], false)
  const COMPLETED := LOWERED.(pending := [], woken := map[1 := Zero],
                              log := [Done(RAISE), Done(LOWER), Done(AWAIT_ZERO)])

  lemma RaiseStep()
    ensures Enabled(New(1), Semop(RAISE)) && Next(New(1), Semop(RAISE)) == RAISED
  {
    SingleOp(0, RAISE.sops[0]);
    hide Try, After;
    assert New(1).vals == [0] && RAISE.sops[0].op != 0;
    assert Next(New(1), Semop(RAISE)) == RAISED;
  }

  lemma AwaitStep()
    ensures Enabled(RAISED, Semop(AWAIT_ZERO)) && Next(RAISED, Semop(AWAIT_ZERO)) == AWAITING
  {
    SingleOp(1, AWAIT_ZERO.sops[0]);
    hide Try, After;
    assert Next(RAISED, Semop(AWAIT_ZERO)) == AWAITING;
  }

  lemma LowerStep()
    ensures Enabled(AWAITING, Semop(LOWER)) && Next(AWAITING, Semop(LOWER)) == COMPLETED
  {
    SingleOp(1, LOWER.sops[0]);
    SingleOp(0, AWAIT_ZERO.sops[0]);
    hide Try, After;
    assert LOWER.sops[0].op != 0;
    assert Apply(AWAITING, LOWER).(results := map[0 := Zero, 2 := Zero]) == LOWERED;
    assert Next(AWAITING, Semop(LOWER)) == Update(LOWERED, [], [Sleeper(AWAIT_ZERO, false)]);
    assert Apply(LOWERED, AWAIT_ZERO).log == COMPLETED.log;
    assert Update(LOWERED, [], [Sleeper(AWAIT_ZERO, false)]) ==
           Update(COMPLETED.(pending := LOWERED.pending), [], []);
  }

  lemma BugReachable() returns (ss: seq<Set>, es: seq<Event>)
    ensures Behaviour(ss, es) && 1 in ss[|es|].results && ss[|es|].results[1] == Bug
  {
    RaiseStep();
    AwaitStep();
    LowerStep();
    es := [Semop(RAISE), Semop(AWAIT_ZERO), Semop(LOWER), Remove, Runs(1)];
    var s4 := Next(COMPLETED, Remove);
    var s5 := Next(s4, Runs(1));
    hide Begin;
    ss := [New(1), RAISED, AWAITING, COMPLETED, s4, s5];
  }
}
