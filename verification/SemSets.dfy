/**
  ipc/sem.c: runs of semop calls on one semaphore set, with sleepers that are completed by others,
  retry, are interrupted or are killed by removal, and the undo ledgers of the processes.
*/
module SemSets {
  import opened Basics
  import opened SemVectors

  /** One semop call; `id` tells calls apart. */
  datatype Call = Call(id: nat, pid: int, sops: seq<Sop>)

  /** What a call returns. Bug is the BUG() after the set has gone. */
  datatype Code = Zero | Errno(error: Outcome) | Intr | Idrm | Bug

  /** A struct sem_queue on sem_pending; its status is 1 (`retry`) or -EINTR. */
  datatype Sleeper = Sleeper(call: Call, retry: bool)

  datatype Undo = Undo(pid: int, adj: seq<int>)

  /** The history of everything that changed a semaphore. */
  datatype Entry =
    | Done(call: Call)
    | SetOne(i: nat, v: int)
    | SetEvery(vs: seq<int>)
    | Exited(pid: int)

  /** `woken` holds the status of sleepers that were taken off the queue and have not run yet;
      `results` what finished calls returned; `reused` says that the set is gone and another has its slot. */
  datatype Set = Set(vals: seq<int>, undo: seq<Undo>, pending: seq<Sleeper>, woken: map<nat, Code>,
                     live: bool, results: map<nat, Code>, log: seq<Entry>, reused: bool)

  predicate Decreases(sops: seq<Sop>) {
    exists j :: 0 <= j < |sops| && sops[j].op < 0
  }

  predicate Alters(sops: seq<Sop>) {
    exists j :: 0 <= j < |sops| && sops[j].op != 0
  }

  predicate UsesUndo(sops: seq<Sop>) {
    exists j :: 0 <= j < |sops| && sops[j].undo
  }

  predicate HasLedger(undo: seq<Undo>, pid: int) {
    exists j :: 0 <= j < |undo| && undo[j].pid == pid
  }

  /** alloc_undo, when the call needs a ledger the process does not have. */
  function WithLedger(s: Set, call: Call): Set {
    if UsesUndo(call.sops) && !HasLedger(s.undo, call.pid)
    then s.(undo := [Undo(call.pid, Zeros(|s.vals|))] + s.undo) else s
  }

  ghost function Charge(undo: seq<Undo>, pid: int, sops: seq<Sop>): (r: seq<Undo>)
    ensures |r| == |undo|
  {
    if undo == [] then []
    else (if undo[0].pid == pid then [Undo(pid, Ledger(undo[0].adj, sops))] else [undo[0]]) +
         Charge(undo[1..], pid, sops)
  }

  /** A vector applied for good. */
  ghost function Apply(s: Set, call: Call): Set {
    s.(vals := After(s.vals, call.sops), undo := Charge(s.undo, call.pid, call.sops), log := s.log + [Done(call)])
  }

  ghost function Attempt(s: Set, call: Call): Outcome
    requires Valid(call.sops, |s.vals|)
  {
    Try(s.vals, call.sops, 0)
  }

  ghost predicate AllValid(q: seq<Sleeper>, n: nat) {
    forall k :: 0 <= k < |q| ==> Valid(q[k].call.sops, n)
  }

  /** update_queue from `todo` on; `kept` are the sleepers it has passed. */
  ghost function Update(s: Set, kept: seq<Sleeper>, todo: seq<Sleeper>): Set
    requires AllValid(todo, |s.vals|)
    decreases |todo|
  {
    if todo == [] then s.(pending := kept)
    else
      var q := todo[0];
      if q.retry then Update(s, kept + [q], todo[1..])
      else match Attempt(s, q.call)
        case Block => Update(s, kept + [q], todo[1..])
        case Applied =>
          if Decreases(q.call.sops) then s.(pending := kept + [q.(retry := true)] + todo[1..])
          else Update(Apply(s, q.call).(woken := s.woken[q.call.id := Zero]), kept, todo[1..])
        case error => Update(s.(woken := s.woken[q.call.id := Errno(error)]), kept, todo[1..])
  }

  ghost function UpdateQueue(s: Set): Set
    requires AllValid(s.pending, |s.vals|)
  {
    Update(s, [], s.pending)
  }

  function Without(q: seq<Sleeper>, id: nat): seq<Sleeper> {
    if q == [] then [] else if q[0].call.id == id then q[1..] else [q[0]] + Without(q[1..], id)
  }

  function Lookup(q: seq<Sleeper>, id: nat): (k: nat)
    requires exists k :: 0 <= k < |q| && q[k].call.id == id
    ensures k < |q| && q[k].call.id == id
  {
    if q[0].call.id == id then 0 else 1 + Lookup(q[1..], id)
  }

  predicate Sleeps(s: Set, id: nat) {
    exists k :: 0 <= k < |s.pending| && s.pending[k].call.id == id
  }

  /** The label update: in sys_semop, and the return with `code`. */
  ghost function Return(s: Set, call: Call, code: Code): Set
    requires AllValid(s.pending, |s.vals|)
  {
    var t := s.(results := s.results[call.id := code]);
    if Alters(call.sops) then UpdateQueue(t) else t
  }

  function CodeOf(o: Outcome): Code {
    if o == Applied then Zero else Errno(o)
  }

  // ---------------------------------------------------------------------------
  // Steps
  // ---------------------------------------------------------------------------

  datatype Event =
    | Semop(call: Call)
    | Runs(id: nat)
    | Remove
    | SetVal(i: nat, v: int)
    | SetAll(vs: seq<int>)
    | Exit(pid: int)
    | Slot(taken: bool)

  predicate Fresh(s: Set, id: nat) {
    !Sleeps(s, id) && id !in s.woken && id !in s.results
  }

  ghost predicate Enabled(s: Set, e: Event) {
    && AllValid(s.pending, |s.vals|)
    && match e
       case Semop(call) => s.live && Fresh(s, call.id) && call.sops != [] && Valid(call.sops, |s.vals|)
       case Runs(id) => Sleeps(s, id) || id in s.woken
       case Remove => s.live
       case SetVal(i, v) => s.live && i < |s.vals| && 0 <= v <= SEMVMX
       case SetAll(vs) => s.live && |vs| == |s.vals| && forall i :: 0 <= i < |vs| ==> 0 <= vs[i] <= SEMVMX
       case Exit(pid) => s.live && HasLedger(s.undo, pid) &&
                         forall k :: 0 <= k < |s.pending| ==> s.pending[k].call.pid != pid
       case Slot(taken) => !s.live
  }

  /** The first attempt of sys_semop. */
  ghost function Begin(s: Set, call: Call): Set
    requires AllValid(s.pending, |s.vals|) && Valid(call.sops, |s.vals|)
  {
    var t := WithLedger(s, call);
    match Attempt(t, call)
    case Block =>
      if Alters(call.sops) then t.(pending := t.pending + [Sleeper(call, false)])
      else t.(pending := [Sleeper(call, false)] + t.pending)
    case Applied => Return(Apply(t, call), call, Zero)
    case error => Return(t, call, Errno(error))
  }

  /** A sleeper gets the processor and the lock back. */
  ghost function Resume(s: Set, id: nat): Set
    requires AllValid(s.pending, |s.vals|) && (Sleeps(s, id) || id in s.woken)
  {
    if id in s.woken then
      var code := if s.live || s.reused || s.woken[id] == Idrm then s.woken[id] else Bug;
      s.(woken := s.woken - {id}, results := s.results[id := code])
    else
      var k := Lookup(s.pending, id);
      var q := s.pending[k];
      var t := s.(pending := Without(s.pending, id));
      WithoutValid(s.pending, id, |s.vals|);
      if !q.retry then Return(t, q.call, Intr)
      else match Attempt(s, q.call)
        case Block => s.(pending := s.pending[k := q.(retry := false)])
        case Applied => Return(Apply(t, q.call), q.call, Zero)
        case error => Return(t, q.call, Errno(error))
  }

  lemma {:induction false} WithoutValid(q: seq<Sleeper>, id: nat, n: nat)
    requires AllValid(q, n)
    ensures AllValid(Without(q, id), n)
  {
    if q == [] {
    } else {
      WithoutValid(q[1..], id, n);
    }
  }

  /** freeary: the sleepers on the queue are marked and woken. */
  function Killed(q: seq<Sleeper>, woken: map<nat, Code>): map<nat, Code> {
    if q == [] then woken else Killed(q[1..], woken[q[0].call.id := Idrm])
  }

  function ZeroAt(undo: seq<Undo>, i: nat): (r: seq<Undo>)
    ensures |r| == |undo|
  {
    seq(|undo|, j requires 0 <= j < |undo| =>
      if i < |undo[j].adj| then Undo(undo[j].pid, undo[j].adj[i := 0]) else undo[j])
  }

  function ZeroAll(undo: seq<Undo>): (r: seq<Undo>)
    ensures |r| == |undo|
  {
    seq(|undo|, j requires 0 <= j < |undo| => Undo(undo[j].pid, Zeros(|undo[j].adj|)))
  }

  function LedgerOf(undo: seq<Undo>, pid: int): seq<int> {
    if undo == [] then [] else if undo[0].pid == pid then undo[0].adj else LedgerOf(undo[1..], pid)
  }

  function Dropped(undo: seq<Undo>, pid: int): seq<Undo> {
    if undo == [] then [] else if undo[0].pid == pid then undo[1..] else [undo[0]] + Dropped(undo[1..], pid)
  }

  function Adj(undo: seq<Undo>, pid: int, i: nat): int {
    var l := LedgerOf(undo, pid);
    if i < |l| then l[i] else 0
  }

  /** The adjustments of sem_exit, clamped at zero. */
  function Adjusted(vals: seq<int>, undo: seq<Undo>, pid: int): (r: seq<int>)
    ensures |r| == |vals|
  {
    seq(|vals|, i requires 0 <= i < |vals| =>
      if vals[i] + Adj(undo, pid, i) < 0 then 0 else vals[i] + Adj(undo, pid, i))
  }

  ghost function Next(s: Set, e: Event): Set
    requires Enabled(s, e)
  {
    match e
    case Semop(call) => Begin(s, call)
    case Runs(id) => Resume(s, id)
    case Remove => s.(live := false, pending := [], undo := [], woken := Killed(s.pending, s.woken))
    case SetVal(i, v) =>
      UpdateQueue(s.(vals := s.vals[i := v], undo := ZeroAt(s.undo, i), log := s.log + [SetOne(i, v)]))
    case SetAll(vs) =>
      UpdateQueue(s.(vals := vs, undo := ZeroAll(s.undo), log := s.log + [SetEvery(vs)]))
    case Exit(pid) =>
      UpdateQueue(s.(vals := Adjusted(s.vals, s.undo, pid), undo := Dropped(s.undo, pid), log := s.log + [Exited(pid)]))
    case Slot(taken) => s.(reused := taken)
  }

  // ---------------------------------------------------------------------------
  // Accounting: how often the vector of each call has been applied
  // ---------------------------------------------------------------------------

  ghost function Times(log: seq<Entry>, id: nat): nat {
    if log == [] then 0
    else Times(log[..|log| - 1], id) + (if log[|log| - 1].Done? && log[|log| - 1].call.id == id then 1 else 0)
  }

  /** A sleeper's vector has not been applied and it has no answer. */
  ghost predicate Waiting(log: seq<Entry>, woken: map<nat, Code>, results: map<nat, Code>, id: nat) {
    Times(log, id) == 0 && id !in woken && id !in results
  }

  /** A call taken off the queue or finished has been applied once if its status is 0 and never if it is an
      error; nothing else has been applied. */
  ghost predicate Tally(log: seq<Entry>, woken: map<nat, Code>, results: map<nat, Code>, id: nat) {
    && (id in woken ==> id !in results && (woken[id].Zero? || woken[id].Errno? || woken[id].Idrm?)
                        && Times(log, id) == (if woken[id] == Zero then 1 else 0))
    && (id in results ==> Times(log, id) <= 1 && (results[id] == Zero ==> Times(log, id) == 1)
                          && (results[id] != Zero && results[id] != Bug ==> Times(log, id) == 0))
    && (Times(log, id) > 0 ==> id in woken || id in results)
  }

  ghost predicate DistinctCalls(q: seq<Sleeper>) {
    forall k, m :: 0 <= k < m < |q| ==> q[k].call.id != q[m].call.id
  }

  /** The books are right, with the queue `q`. */
  ghost predicate Accounted(s: Set, q: seq<Sleeper>) {
    && (forall k :: 0 <= k < |q| ==> Waiting(s.log, s.woken, s.results, q[k].call.id))
    && DistinctCalls(q)
    && (forall id: nat :: Tally(s.log, s.woken, s.results, id))
  }

  lemma TimesStep(log: seq<Entry>, e: Entry, id: nat)
    ensures Times(log + [e], id) == Times(log, id) + (if e.Done? && e.call.id == id then 1 else 0)
  {
    assert (log + [e])[..|log|] == log;
  }

  /** `t` differs from `s` by the end of the call: its vector applied (`code` 0) or not, and its answer. */
  ghost predicate Ends(s: Set, call: Call, code: Code, t: Set) {
    && (code.Zero? || code.Errno? || code.Intr?)
    && t.log == (if code == Zero then s.log + [Done(call)] else s.log)
    && ((t.woken == s.woken[call.id := code] && t.results == s.results && !code.Intr?)
        || (t.woken == s.woken && t.results == s.results[call.id := code]))
  }

  lemma TallyEnds(s: Set, call: Call, code: Code, t: Set, id: nat)
    requires Ends(s, call, code, t) && Waiting(s.log, s.woken, s.results, call.id)
    requires Tally(s.log, s.woken, s.results, id)
    ensures Tally(t.log, t.woken, t.results, id)
    ensures id != call.id && Waiting(s.log, s.woken, s.results, id) ==> Waiting(t.log, t.woken, t.results, id)
  {
    TimesStep(s.log, Done(call), id);
    hide Times;
  }

  /** The k-th sleeper leaves the queue. */
  lemma LeavesQueue(s: Set, q: seq<Sleeper>, k: nat, code: Code, t: Set)
    requires Accounted(s, q) && k < |q| && Ends(s, q[k].call, code, t)
    ensures Accounted(t, q[..k] + q[k + 1..])
  {
    hide Waiting, Tally, Ends;
    forall id: nat
      ensures Tally(t.log, t.woken, t.results, id)
      ensures id != q[k].call.id && Waiting(s.log, s.woken, s.results, id) ==> Waiting(t.log, t.woken, t.results, id)
    {
      TallyEnds(s, q[k].call, code, t, id);
    }
    var q' := q[..k] + q[k + 1..];
    forall j | 0 <= j < |q'| ensures q'[j] == q[if j < k then j else j + 1] && q'[j].call.id != q[k].call.id { }
  }

  /** A sleeper is told to retry, or has to wait on. */
  lemma Marked(s: Set, q: seq<Sleeper>, k: nat, retry: bool, t: Set)
    requires Accounted(s, q) && k < |q| && t.pending == q[k := q[k].(retry := retry)]
    requires t.log == s.log && t.woken == s.woken && t.results == s.results
    ensures Accounted(t, t.pending)
  {
    hide Waiting, Tally;
  }

  lemma {:induction false} UpdateAccounted(s: Set, kept: seq<Sleeper>, todo: seq<Sleeper>)
    requires AllValid(todo, |s.vals|) && Accounted(s, kept + todo)
    ensures Accounted(Update(s, kept, todo), Update(s, kept, todo).pending)
    decreases |todo|
  {
    hide Waiting, Tally;
    if todo == [] {
      assert kept + todo == kept;
    } else {
      var q := todo[0];
      var all := kept + todo;
      assert (kept + [q]) + todo[1..] == all;
      assert all[|kept|] == q && all[..|kept|] + all[|kept| + 1..] == kept + todo[1..];
      if q.retry {
        UpdateAccounted(s, kept + [q], todo[1..]);
      } else {
        match Attempt(s, q.call)
        case Block => UpdateAccounted(s, kept + [q], todo[1..]);
        case Applied =>
          if !Decreases(q.call.sops) {
            var t := Apply(s, q.call).(woken := s.woken[q.call.id := Zero]);
            LeavesQueue(s, all, |kept|, Zero, t);
            UpdateAccounted(t, kept, todo[1..]);
          } else {
            assert kept + [q.(retry := true)] + todo[1..] == all[|kept| := q.(retry := true)];
            Marked(s, all, |kept|, true, Update(s, kept, todo));
          }
        case error =>
          var t := s.(woken := s.woken[q.call.id := Errno(error)]);
          LeavesQueue(s, all, |kept|, Errno(error), t);
          UpdateAccounted(t, kept, todo[1..]);
      }
    }
  }

  lemma FinishCall(s: Set, q: seq<Sleeper>, k: nat, code: Code, u: Set)
    requires Accounted(s, q) && k < |q| && (code.Zero? || code.Errno? || code.Intr?)
    requires u.woken == s.woken && u.results == s.results && u.pending == q[..k] + q[k + 1..]
    requires u.log == if code == Zero then s.log + [Done(q[k].call)] else s.log
    requires AllValid(u.pending, |u.vals|)
    ensures Accounted(Return(u, q[k].call, code), Return(u, q[k].call, code).pending)
  {
    var t := u.(results := u.results[q[k].call.id := code]);
    LeavesQueue(s, q, k, code, t);
    assert [] + t.pending == t.pending;
    if Alters(q[k].call.sops) { UpdateAccounted(t, [], t.pending); }
  }

  lemma {:induction false} WithoutAt(q: seq<Sleeper>, id: nat)
    requires exists k :: 0 <= k < |q| && q[k].call.id == id
    ensures Without(q, id) == q[..Lookup(q, id)] + q[Lookup(q, id) + 1..]
  {
    if q[0].call.id != id {
      WithoutAt(q[1..], id);
      var k := Lookup(q[1..], id);
      assert q[..k + 1] == [q[0]] + q[1..][..k];
    }
  }

  lemma JoinsQueue(s: Set, call: Call)
    requires Fresh(s, call.id) && Accounted(s, s.pending)
    ensures Accounted(s, s.pending + [Sleeper(call, false)])
    ensures Accounted(s, [Sleeper(call, false)] + s.pending)
  {
    assert Tally(s.log, s.woken, s.results, call.id);
    assert Waiting(s.log, s.woken, s.results, call.id);
    hide Waiting, Tally;
    assert forall k :: 0 <= k < |s.pending| ==> s.pending[k].call.id != call.id;
  }

  lemma SameAccount(s: Set, t: Set)
    requires Accounted(s, t.pending) && t.log == s.log && t.woken == s.woken && t.results == s.results
    ensures Accounted(t, t.pending)
  {
  }

  lemma BeginAccounted(s: Set, call: Call)
    requires Enabled(s, Semop(call)) && Accounted(s, s.pending)
    ensures Accounted(Begin(s, call), Begin(s, call).pending)
  {
    var t := WithLedger(s, call);
    JoinsQueue(s, call);
    var q := t.pending + [Sleeper(call, false)];
    assert Accounted(t, q) && Accounted(t, [Sleeper(call, false)] + t.pending);
    hide Accounted, Times;
    assert q[..|t.pending|] + q[|t.pending| + 1..] == t.pending;
    match Attempt(t, call)
    case Block => SameAccount(t, Begin(s, call));
    case Applied => FinishCall(t, q, |t.pending|, Zero, Apply(t, call));
    case error => FinishCall(t, q, |t.pending|, Errno(error), t);
  }

  /** A sleeper off the queue picks up its status. */
  lemma CollectAccounted(s: Set, id: nat, code: Code, t: Set)
    requires Accounted(s, s.pending) && id in s.woken && (code == s.woken[id] || code == Bug)
    requires t.log == s.log && t.woken == s.woken - {id} && t.results == s.results[id := code] && t.pending == s.pending
    ensures Accounted(t, t.pending)
  {
    forall x: nat
      ensures Tally(t.log, t.woken, t.results, x)
      ensures Waiting(s.log, s.woken, s.results, x) ==> Waiting(t.log, t.woken, t.results, x)
    {
      assert Tally(s.log, s.woken, s.results, x);
      hide Times;
    }
    hide Waiting, Tally;
  }

  lemma ResumeAccounted(s: Set, id: nat)
    requires Enabled(s, Runs(id)) && Accounted(s, s.pending)
    ensures Accounted(Resume(s, id), Resume(s, id).pending)
  {
    if id in s.woken {
      CollectAccounted(s, id, if s.live || s.reused || s.woken[id] == Idrm then s.woken[id] else Bug, Resume(s, id));
    } else {
      var k := Lookup(s.pending, id);
      var q := s.pending[k];
      var t := s.(pending := Without(s.pending, id));
      WithoutValid(s.pending, id, |s.vals|);
      WithoutAt(s.pending, id);
      hide Waiting, Tally, Without, Lookup;
      if !q.retry {
        FinishCall(s, s.pending, k, Intr, t);
      } else {
        match Attempt(s, q.call)
        case Block => Marked(s, s.pending, k, false, Resume(s, id));
        case Applied => FinishCall(s, s.pending, k, Zero, Apply(t, q.call));
        case error => FinishCall(s, s.pending, k, Errno(error), t);
      }
    }
  }

  lemma {:induction false} KilledOnly(q: seq<Sleeper>, woken: map<nat, Code>, id: nat)
    ensures var r := Killed(q, woken);
            if exists k :: 0 <= k < |q| && q[k].call.id == id then id in r && r[id] == Idrm
            else (id in r <==> id in woken) && (id in woken ==> r[id] == woken[id])
  {
    if q == [] {
    } else {
      KilledOnly(q[1..], woken[q[0].call.id := Idrm], id);
      assert forall k :: 1 <= k < |q| ==> q[k] == q[1..][k - 1];
    }
  }

  lemma RemoveAccounted(s: Set)
    requires Enabled(s, Remove) && Accounted(s, s.pending)
    ensures Accounted(Next(s, Remove), [])
  {
    var t := Next(s, Remove);
    forall id: nat ensures Tally(t.log, t.woken, t.results, id) {
      KilledOnly(s.pending, s.woken, id);
      assert Tally(s.log, s.woken, s.results, id);
      hide Times, Killed;
    }
  }

  lemma NextAccounted(s: Set, e: Event)
    requires Enabled(s, e) && Accounted(s, s.pending)
    ensures Accounted(Next(s, e), Next(s, e).pending)
  {
    match e
    case Semop(call) => BeginAccounted(s, call);
    case Runs(id) => ResumeAccounted(s, id);
    case Remove => RemoveAccounted(s);
    case SetVal(i, v) =>
      QuietEntry(s, SetOne(i, v), s.(vals := s.vals[i := v], undo := ZeroAt(s.undo, i), log := s.log + [SetOne(i, v)]));
    case SetAll(vs) =>
      QuietEntry(s, SetEvery(vs), s.(vals := vs, undo := ZeroAll(s.undo), log := s.log + [SetEvery(vs)]));
    case Exit(pid) =>
      QuietEntry(s, Exited(pid), s.(vals := Adjusted(s.vals, s.undo, pid), undo := Dropped(s.undo, pid),
                                    log := s.log + [Exited(pid)]));
    case Slot(taken) => SameAccount(s, Next(s, e));
  }

  /** A change of the semaphores that is not a vector. */
  lemma QuietEntry(s: Set, e: Entry, t: Set)
    requires Accounted(s, s.pending) && !e.Done? && t.log == s.log + [e]
    requires t.pending == s.pending && t.woken == s.woken && t.results == s.results
    requires AllValid(t.pending, |t.vals|)
    ensures Accounted(UpdateQueue(t), UpdateQueue(t).pending)
  {
    forall id: nat
      ensures Tally(t.log, t.woken, t.results, id)
      ensures Waiting(s.log, s.woken, s.results, id) ==> Waiting(t.log, t.woken, t.results, id)
    {
      TimesStep(s.log, e, id);
      assert Tally(s.log, s.woken, s.results, id);
      hide Times;
    }
    hide Waiting, Tally;
    assert [] + t.pending == t.pending;
    UpdateAccounted(t, [], t.pending);
  }

  // ---------------------------------------------------------------------------
  // The semaphores and the ledgers are what the history says
  // ---------------------------------------------------------------------------

  /** Semaphore i after the history: finished vectors, settings and exits, one after the other. */
  ghost function ReplayVal(log: seq<Entry>, i: nat): int {
    if log == [] then 0
    else
      var past := log[..|log| - 1];
      match log[|log| - 1]
      case Done(call) => ReplayVal(past, i) + Sum(call.sops, i)
      case SetOne(j, v) => if j == i then v else ReplayVal(past, i)
      case SetEvery(vs) => if i < |vs| then vs[i] else 0
      case Exited(pid) =>
        var v := ReplayVal(past, i) + ReplayAdj(past, pid, i);
        if v < 0 then 0 else v
  }

  /** Entry i of the ledger of a process after the history. */
  ghost function ReplayAdj(log: seq<Entry>, p: int, i: nat): int {
    if log == [] then 0
    else
      var past := log[..|log| - 1];
      match log[|log| - 1]
      case Done(call) => if call.pid == p then Short(ReplayAdj(past, p, i) - UndoSum(call.sops, i)) else ReplayAdj(past, p, i)
      case SetOne(j, v) => if j == i then 0 else ReplayAdj(past, p, i)
      case SetEvery(vs) => 0
      case Exited(pid) => if pid == p then 0 else ReplayAdj(past, p, i)
  }

  ghost predicate Replays(s: Set) {
    && (forall i :: 0 <= i < |s.vals| ==> s.vals[i] == ReplayVal(s.log, i))
    && (forall p, i: nat :: i < |s.vals| ==> Adj(s.undo, p, i) == ReplayAdj(s.log, p, i))
  }

  ghost predicate Ledgers(undo: seq<Undo>, n: nat) {
    && (forall j :: 0 <= j < |undo| ==> |undo[j].adj| == n && forall i :: 0 <= i < n ==> IsShort(undo[j].adj[i]))
    && (forall j, k :: 0 <= j < k < |undo| ==> undo[j].pid != undo[k].pid)
  }

  ghost predicate NonNegative(vals: seq<int>) {
    forall i :: 0 <= i < |vals| ==> vals[i] >= 0
  }

  /** Every sleeper's operations are in range and its ledger is there if it needs one. */
  ghost predicate Ready(q: seq<Sleeper>, undo: seq<Undo>, n: nat) {
    forall k :: 0 <= k < |q| ==> Valid(q[k].call.sops, n) && (UsesUndo(q[k].call.sops) ==> HasLedger(undo, q[k].call.pid))
  }

  ghost predicate Sane(s: Set, q: seq<Sleeper>) {
    NonNegative(s.vals) && Ledgers(s.undo, |s.vals|) && Ready(q, s.undo, |s.vals|) && Replays(s)
  }

  lemma {:induction false} PassedStaysIn(vals: seq<int>, sops: seq<Sop>, j: nat, i: nat)
    requires Valid(sops, |vals|) && NonNegative(vals) && j <= |sops| && i < |vals|
    requires forall k :: 0 <= k < j ==> Passes(vals, sops, k)
    ensures vals[i] + Sum(sops[..j], i) >= 0
  {
    if j == 0 {
    } else {
      PassedStaysIn(vals, sops, j - 1, i);
      SumStep(sops, j - 1, i);
      assert Passes(vals, sops, j - 1);
    }
  }

  lemma AppliedNonNegative(vals: seq<int>, sops: seq<Sop>)
    requires Valid(sops, |vals|) && NonNegative(vals) && Try(vals, sops, 0) == Applied
    ensures NonNegative(After(vals, sops))
  {
    AppliedExactly(vals, sops, 0);
    assert sops[..|sops|] == sops;
    forall i | 0 <= i < |vals| ensures vals[i] + Sum(sops, i) >= 0 { PassedStaysIn(vals, sops, |sops|, i); }
  }

  lemma {:induction false} NoUndoNoSum(sops: seq<Sop>, i: nat)
    requires !UsesUndo(sops)
    ensures UndoSum(sops, i) == 0
  {
    if sops == [] {
    } else {
      NoUndoNoSum(sops[..|sops| - 1], i);
    }
  }

  lemma {:induction false} ChargeIs(undo: seq<Undo>, pid: int, sops: seq<Sop>, p: int)
    ensures LedgerOf(Charge(undo, pid, sops), p) ==
            if p == pid && HasLedger(undo, pid) then Ledger(LedgerOf(undo, pid), sops) else LedgerOf(undo, p)
    ensures HasLedger(Charge(undo, pid, sops), p) <==> HasLedger(undo, p)
  {
    if undo == [] {
    } else {
      ChargeIs(undo[1..], pid, sops, p);
      var c := Charge(undo, pid, sops);
      assert c[1..] == Charge(undo[1..], pid, sops);
      HasLedgerTail(undo, p);
      HasLedgerTail(undo, pid);
      HasLedgerTail(c, p);
    }
  }

  lemma HasLedgerTail(undo: seq<Undo>, p: int)
    requires undo != []
    ensures HasLedger(undo, p) <==> undo[0].pid == p || HasLedger(undo[1..], p)
  {
    if HasLedger(undo, p) && undo[0].pid != p {
      var j :| 0 <= j < |undo| && undo[j].pid == p;
      assert undo[1..][j - 1].pid == p;
    }
    if HasLedger(undo[1..], p) {
      var j :| 0 <= j < |undo[1..]| && undo[1..][j].pid == p;
      assert undo[j + 1].pid == p;
    }
  }

  lemma {:induction false} ChargeLedgers(undo: seq<Undo>, pid: int, sops: seq<Sop>, n: nat)
    requires Ledgers(undo, n)
    ensures Ledgers(Charge(undo, pid, sops), n)
    ensures forall j :: 0 <= j < |undo| ==> Charge(undo, pid, sops)[j].pid == undo[j].pid
  {
    if undo == [] {
    } else {
      ChargeLedgers(undo[1..], pid, sops, n);
      var r, rest := Charge(undo, pid, sops), Charge(undo[1..], pid, sops);
      assert r[1..] == rest;
      assert forall j :: 0 < j < |r| ==> r[j] == rest[j - 1] && r[j].pid == undo[1..][j - 1].pid;
      hide Charge;
    }
  }

  lemma {:induction false} LedgerFound(undo: seq<Undo>, p: int, n: nat)
    requires Ledgers(undo, n)
    ensures if HasLedger(undo, p) then |LedgerOf(undo, p)| == n else LedgerOf(undo, p) == []
    ensures forall i :: 0 <= i < |LedgerOf(undo, p)| ==> IsShort(LedgerOf(undo, p)[i])
  {
    if undo == [] {
    } else {
      HasLedgerTail(undo, p);
      LedgerFound(undo[1..], p, n);
    }
  }

  lemma ReplayStep(log: seq<Entry>, e: Entry)
    ensures (log + [e])[..|log|] == log && (log + [e])[|log|] == e
  {
  }

  lemma ChargeAdj(undo: seq<Undo>, pid: int, sops: seq<Sop>, p: int, i: nat, n: nat)
    requires Ledgers(undo, n) && i < n && (UsesUndo(sops) ==> HasLedger(undo, pid))
    ensures Adj(Charge(undo, pid, sops), p, i) ==
            if p == pid then Short(Adj(undo, p, i) - UndoSum(sops, i)) else Adj(undo, p, i)
  {
    ChargeIs(undo, pid, sops, p);
    LedgerFound(undo, p, n);
    if !UsesUndo(sops) { NoUndoNoSum(sops, i); }
    hide Charge, LedgerOf, HasLedger, UsesUndo, Ledgers, UndoSum;
  }

  lemma ApplyReplays(s: Set, call: Call)
    requires Replays(s) && Ledgers(s.undo, |s.vals|) && (UsesUndo(call.sops) ==> HasLedger(s.undo, call.pid))
    ensures Replays(Apply(s, call))
  {
    var t := Apply(s, call);
    ReplayStep(s.log, Done(call));
    hide Ledgers, UsesUndo, HasLedger, Adj, Charge;
    forall p, i: nat | i < |s.vals| ensures Adj(t.undo, p, i) == ReplayAdj(t.log, p, i) {
      ChargeAdj(s.undo, call.pid, call.sops, p, i, |s.vals|);
    }
  }

  lemma ApplySane(s: Set, q: seq<Sleeper>, call: Call)
    requires Sane(s, q) && Valid(call.sops, |s.vals|) && (UsesUndo(call.sops) ==> HasLedger(s.undo, call.pid))
    requires Attempt(s, call) == Applied
    ensures Sane(Apply(s, call), q)
  {
    AppliedNonNegative(s.vals, call.sops);
    ChargeLedgers(s.undo, call.pid, call.sops, |s.vals|);
    ApplyReplays(s, call);
    forall k | 0 <= k < |q| ensures HasLedger(s.undo, q[k].call.pid) ==> HasLedger(Apply(s, call).undo, q[k].call.pid) {
      ChargeIs(s.undo, call.pid, call.sops, q[k].call.pid);
    }
  }

  lemma {:induction false} UpdateSane(s: Set, kept: seq<Sleeper>, todo: seq<Sleeper>)
    requires AllValid(todo, |s.vals|) && Sane(s, kept + todo)
    ensures Sane(Update(s, kept, todo), Update(s, kept, todo).pending)
    ensures |Update(s, kept, todo).vals| == |s.vals| && Update(s, kept, todo).live == s.live
    decreases |todo|
  {
    hide NonNegative, Ledgers, Replays;
    if todo == [] {
      assert kept + todo == kept;
      SaneWith(s, kept, Update(s, kept, todo));
    } else {
      var q := todo[0];
      var all := kept + todo;
      assert (kept + [q]) + todo[1..] == all;
      assert all[|kept|] == q;
      assert Ready(kept + todo[1..], s.undo, |s.vals|) by {
        assert forall k :: 0 <= k < |kept + todo[1..]| ==>
                 (kept + todo[1..])[k] == all[if k < |kept| then k else k + 1];
      }
      if q.retry || Attempt(s, q.call) == Block {
        UpdateSane(s, kept + [q], todo[1..]);
      } else if Attempt(s, q.call) == Applied {
        if Decreases(q.call.sops) {
          assert kept + [q.(retry := true)] + todo[1..] == all[|kept| := q.(retry := true)];
          SaneWith(s, kept + [q.(retry := true)] + todo[1..], Update(s, kept, todo));
        } else {
          var t := Apply(s, q.call).(woken := s.woken[q.call.id := Zero]);
          ApplySane(s, kept + todo[1..], q.call);
          SaneWith(Apply(s, q.call), kept + todo[1..], t);
          UpdateSane(t, kept, todo[1..]);
        }
      } else {
        var t := s.(woken := s.woken[q.call.id := Errno(Attempt(s, q.call))]);
        SaneWith(s, kept + todo[1..], t);
        UpdateSane(t, kept, todo[1..]);
      }
    }
  }

  lemma SaneWith(s: Set, q: seq<Sleeper>, t: Set)
    requires Sane(s, q) && t.vals == s.vals && t.undo == s.undo && t.log == s.log
    ensures Sane(t, q)
  {
  }

  lemma ReturnSane(s: Set, call: Call, code: Code)
    requires AllValid(s.pending, |s.vals|) && Sane(s, s.pending)
    ensures Sane(Return(s, call, code), Return(s, call, code).pending)
    ensures Return(s, call, code).live == s.live
  {
    hide NonNegative, Ledgers, Replays;
    var t := s.(results := s.results[call.id := code]);
    SaneWith(s, s.pending, t);
    assert [] + t.pending == t.pending;
    if Alters(call.sops) { UpdateSane(t, [], t.pending); }
  }

  lemma WithLedgerSane(s: Set, call: Call)
    requires Sane(s, s.pending)
    ensures Sane(WithLedger(s, call), s.pending)
    ensures UsesUndo(call.sops) ==> HasLedger(WithLedger(s, call).undo, call.pid)
  {
    var t := WithLedger(s, call);
    if t != s {
      assert t.undo[1..] == s.undo;
      forall p ensures HasLedger(t.undo, p) <==> p == call.pid || HasLedger(s.undo, p) { HasLedgerTail(t.undo, p); }
      LedgerFound(s.undo, call.pid, |s.vals|);
      forall p, i: nat | i < |s.vals| ensures Adj(t.undo, p, i) == ReplayAdj(t.log, p, i) {
        assert Adj(s.undo, p, i) == ReplayAdj(s.log, p, i);
      }
      assert forall j :: 0 <= j < |s.undo| ==> s.undo[j].pid != call.pid;
    }
  }

  lemma BeginSane(s: Set, call: Call)
    requires Enabled(s, Semop(call)) && Sane(s, s.pending)
    ensures Sane(Begin(s, call), Begin(s, call).pending) && Begin(s, call).live == s.live
  {
    WithLedgerSane(s, call);
    var t := WithLedger(s, call);
    hide NonNegative, Ledgers, Replays, UsesUndo, HasLedger;
    match Attempt(t, call)
    case Block =>
      assert Ready(t.pending + [Sleeper(call, false)], t.undo, |t.vals|);
      assert Ready([Sleeper(call, false)] + t.pending, t.undo, |t.vals|);
      SaneWith(t.(pending := Begin(s, call).pending), Begin(s, call).pending, Begin(s, call));
    case Applied =>
      ApplySane(t, t.pending, call);
      ReturnSane(Apply(t, call), call, Zero);
    case error => ReturnSane(t, call, Errno(error));
  }

  lemma {:induction false} WithoutReady(q: seq<Sleeper>, id: nat, undo: seq<Undo>, n: nat)
    requires Ready(q, undo, n)
    ensures Ready(Without(q, id), undo, n)
  {
    hide UsesUndo, HasLedger;
    if q == [] {
    } else {
      WithoutReady(q[1..], id, undo, n);
    }
  }

  lemma RetrySane(s: Set, id: nat)
    requires Enabled(s, Runs(id)) && Sane(s, s.pending) && id !in s.woken && s.pending[Lookup(s.pending, id)].retry
    ensures Sane(Resume(s, id), Resume(s, id).pending) && Resume(s, id).live == s.live
  {
    var k := Lookup(s.pending, id);
    var q := s.pending[k];
    var t := s.(pending := Without(s.pending, id));
    WithoutValid(s.pending, id, |s.vals|);
    WithoutReady(s.pending, id, s.undo, |s.vals|);
    assert Ready(s.pending[k := q.(retry := false)], s.undo, |s.vals|);
    hide NonNegative, Ledgers, Replays, UsesUndo, HasLedger, Lookup;
    SaneWith(s, t.pending, t);
    match Attempt(s, q.call)
    case Block => SaneWith(s, Resume(s, id).pending, Resume(s, id));
    case Applied =>
      ApplySane(t, t.pending, q.call);
      ReturnSane(Apply(t, q.call), q.call, Zero);
    case error => ReturnSane(t, q.call, Errno(error));
  }

  lemma ResumeSane(s: Set, id: nat)
    requires Enabled(s, Runs(id)) && Sane(s, s.pending)
    ensures Sane(Resume(s, id), Resume(s, id).pending) && Resume(s, id).live == s.live
  {
    hide NonNegative, Ledgers, Replays, UsesUndo, HasLedger;
    if id in s.woken {
      SaneWith(s, s.pending, Resume(s, id));
    } else if s.pending[Lookup(s.pending, id)].retry {
      RetrySane(s, id);
    } else {
      var t := s.(pending := Without(s.pending, id));
      WithoutValid(s.pending, id, |s.vals|);
      WithoutReady(s.pending, id, s.undo, |s.vals|);
      SaneWith(s, t.pending, t);
      ReturnSane(t, s.pending[Lookup(s.pending, id)].call, Intr);
    }
  }

  lemma {:induction false} LedgerMapped(undo: seq<Undo>, undo': seq<Undo>, p: int)
    requires |undo'| == |undo| && forall j :: 0 <= j < |undo| ==> undo'[j].pid == undo[j].pid
    ensures HasLedger(undo, p) <==> HasLedger(undo', p)
    ensures HasLedger(undo, p) ==>
              exists j :: 0 <= j < |undo| && LedgerOf(undo, p) == undo[j].adj && LedgerOf(undo', p) == undo'[j].adj
    ensures !HasLedger(undo, p) ==> LedgerOf(undo', p) == LedgerOf(undo, p) == []
  {
    if undo == [] {
    } else {
      HasLedgerTail(undo, p);
      HasLedgerTail(undo', p);
      LedgerMapped(undo[1..], undo'[1..], p);
      if undo[0].pid != p && HasLedger(undo, p) {
        var j :| 0 <= j < |undo[1..]| && LedgerOf(undo[1..], p) == undo[1..][j].adj
                 && LedgerOf(undo'[1..], p) == undo'[1..][j].adj;
        assert undo[j + 1] == undo[1..][j] && undo'[j + 1] == undo'[1..][j];
      }
    }
  }

  lemma SetValSane(s: Set, i: nat, v: int)
    requires Enabled(s, SetVal(i, v)) && Sane(s, s.pending)
    ensures Sane(s.(vals := s.vals[i := v], undo := ZeroAt(s.undo, i), log := s.log + [SetOne(i, v)]), s.pending)
  {
    var t := s.(vals := s.vals[i := v], undo := ZeroAt(s.undo, i), log := s.log + [SetOne(i, v)]);
    ReplayStep(s.log, SetOne(i, v));
    forall p, k: nat | k < |s.vals| ensures Adj(t.undo, p, k) == ReplayAdj(t.log, p, k) {
      assert Adj(s.undo, p, k) == ReplayAdj(s.log, p, k);
      LedgerMapped(s.undo, t.undo, p);
      LedgerFound(s.undo, p, |s.vals|);
    }
    forall p ensures HasLedger(s.undo, p) <==> HasLedger(t.undo, p) { LedgerMapped(s.undo, t.undo, p); }
  }

  lemma SetAllSane(s: Set, vs: seq<int>)
    requires Enabled(s, SetAll(vs)) && Sane(s, s.pending)
    ensures Sane(s.(vals := vs, undo := ZeroAll(s.undo), log := s.log + [SetEvery(vs)]), s.pending)
  {
    var t := s.(vals := vs, undo := ZeroAll(s.undo), log := s.log + [SetEvery(vs)]);
    ReplayStep(s.log, SetEvery(vs));
    forall p, k: nat | k < |s.vals| ensures Adj(t.undo, p, k) == ReplayAdj(t.log, p, k) {
      LedgerMapped(s.undo, t.undo, p);
      LedgerFound(s.undo, p, |s.vals|);
    }
    forall p ensures HasLedger(s.undo, p) <==> HasLedger(t.undo, p) { LedgerMapped(s.undo, t.undo, p); }
  }

  lemma {:induction false} DroppedIs(undo: seq<Undo>, pid: int, p: int, n: nat)
    requires Ledgers(undo, n)
    ensures Ledgers(Dropped(undo, pid), n)
    ensures HasLedger(Dropped(undo, pid), p) <==> p != pid && HasLedger(undo, p)
    ensures LedgerOf(Dropped(undo, pid), p) == if p == pid then [] else LedgerOf(undo, p)
  {
    DroppedLedgers(undo, pid, n);
    if undo == [] {
    } else {
      HasLedgerTail(undo, p);
      assert Ledgers(undo[1..], n);
      DroppedIs(undo[1..], pid, p, n);
      if undo[0].pid == pid {
        LedgerFound(undo[1..], pid, n);
        assert forall j :: 0 <= j < |undo[1..]| ==> undo[1..][j] == undo[j + 1] && undo[j + 1].pid != pid;
      } else {
        var d := Dropped(undo, pid);
        assert d[1..] == Dropped(undo[1..], pid);
        HasLedgerTail(d, p);
      }
    }
  }

  lemma {:induction false} DroppedLedgers(undo: seq<Undo>, pid: int, n: nat)
    requires Ledgers(undo, n)
    ensures Ledgers(Dropped(undo, pid), n) && forall u :: u in Dropped(undo, pid) ==> u in undo
  {
    if undo == [] {
    } else {
      DroppedLedgers(undo[1..], pid, n);
      var d := Dropped(undo, pid);
      if undo[0].pid == pid {
        assert d == undo[1..];
      } else {
        assert d[1..] == Dropped(undo[1..], pid);
        forall j | 1 <= j < |d| ensures d[j].pid != d[0].pid { assert d[j] in undo[1..]; }
      }
    }
  }

  lemma ExitSane(s: Set, pid: int)
    requires Enabled(s, Exit(pid)) && Sane(s, s.pending)
    ensures Sane(s.(vals := Adjusted(s.vals, s.undo, pid), undo := Dropped(s.undo, pid), log := s.log + [Exited(pid)]), s.pending)
  {
    var t := s.(vals := Adjusted(s.vals, s.undo, pid), undo := Dropped(s.undo, pid), log := s.log + [Exited(pid)]);
    ReplayStep(s.log, Exited(pid));
    forall p, k: nat | k < |s.vals| ensures Adj(t.undo, p, k) == ReplayAdj(t.log, p, k) {
      assert Adj(s.undo, p, k) == ReplayAdj(s.log, p, k);
      DroppedIs(s.undo, pid, p, |s.vals|);
    }
    forall i | 0 <= i < |s.vals| ensures t.vals[i] == ReplayVal(t.log, i) {
      assert Adj(s.undo, pid, i) == ReplayAdj(s.log, pid, i);
    }
    forall k | 0 <= k < |s.pending| ensures HasLedger(t.undo, s.pending[k].call.pid) <==> HasLedger(s.undo, s.pending[k].call.pid) {
      DroppedIs(s.undo, pid, s.pending[k].call.pid, |s.vals|);
    }
    DroppedIs(s.undo, pid, pid, |s.vals|);
  }
}
