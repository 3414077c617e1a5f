/**
  kernel/fork.c: get_pid with its cache of the next id known to be in use.
*/
module Pids {
  import opened Basics

  const PID_MAX: int := 0x8000

  /** First id handed out after a wrap; the ones below are left to the daemons started at boot. */
  const RESTART: int := 300

  datatype Task = Task(pid: int, pgrp: int, session: int)

  predicate Uses(p: Task, id: int) {
    p.pid == id || p.pgrp == id || p.session == id
  }

  ghost predicate InUse(tasks: seq<Task>, id: int) {
    exists i :: 0 <= i < |tasks| && Uses(tasks[i], id)
  }

  /** No id in use lies strictly between the last id handed out and next_safe. */
  ghost predicate NoneBetween(tasks: seq<Task>, last: int, safe: int) {
    forall id :: last < id < safe ==> !InUse(tasks, id)
  }

  /** The id tried after x. */
  function Succ(x: int): int {
    if x + 1 >= PID_MAX then RESTART else x + 1
  }

  ghost function Iter(x: int, n: nat): int {
    if n == 0 then x else Succ(Iter(x, n - 1))
  }

  /** `next` is the first id after `last`, in the order of Succ, that nobody uses. */
  ghost predicate FirstFree(tasks: seq<Task>, last: int, next: int) {
    exists n: nat :: n > 0 && next == Iter(last, n) && !InUse(tasks, next) &&
                     forall k: nat :: 0 < k < n ==> InUse(tasks, Iter(last, k))
  }

  /** Every id tried so far, up to and including the n-th, apart from the last one, is in use. */
  ghost predicate TriedUpTo(tasks: seq<Task>, last: int, n: nat) {
    forall k: nat :: 0 < k < n ==> InUse(tasks, Iter(last, k))
  }

  /** How far the search is from the free id f. */
  ghost function Distance(last: int, f: int): int {
    if last <= f then f - last else PID_MAX - last + f - RESTART + 1
  }

  /** There is only one first free id. */
  lemma FirstFreeUnique(tasks: seq<Task>, last: int, a: int, b: int)
    requires FirstFree(tasks, last, a) && FirstFree(tasks, last, b)
    ensures a == b
  {
    var n: nat :| n > 0 && a == Iter(last, n) && !InUse(tasks, a) &&
                  forall k: nat :: 0 < k < n ==> InUse(tasks, Iter(last, k));
    var m: nat :| m > 0 && b == Iter(last, m) && !InUse(tasks, b) &&
                  forall k: nat :: 0 < k < m ==> InUse(tasks, Iter(last, k));
    assert n == m;
  }

  /** The ids get_pid can come to from `last`. */
  predicate Ahead(last: int, f: int) {
    last < f < PID_MAX || RESTART <= f < PID_MAX
  }

  lemma {:induction false} IterAhead(last: int, n: nat)
    requires 0 <= last < PID_MAX && n > 0
    ensures Ahead(last, Iter(last, n))
  {
    if n == 1 {
      assert Iter(last, 1) == Succ(Iter(last, 0));
    } else {
      IterAhead(last, n - 1);
    }
  }

  /** There is a first free id only if some id ahead is free; otherwise the scan of get_pid goes round forever. */
  lemma FullHasNoFirst(tasks: seq<Task>, last: int, next: int)
    requires 0 <= last < PID_MAX && FirstFree(tasks, last, next)
    ensures exists f :: Ahead(last, f) && !InUse(tasks, f)
  {
    var n: nat :| n > 0 && next == Iter(last, n);
    IterAhead(last, n);
  }

  /** `safe` is the least id above `last` that is in use, or PID_MAX if there is none. */
  ghost predicate NextUsed(tasks: seq<Task>, last: int, safe: int) {
    last < safe <= PID_MAX && NoneBetween(tasks, last, safe) && (safe == PID_MAX || InUse(tasks, safe))
  }

  /** What get_pid leaves in last_pid and next_safe. Below next_safe it does not look at the tasks. */
  ghost predicate Handed(tasks: seq<Task>, last: int, safe: int, pid: int, safe': int) {
    if last + 1 < safe then pid == last + 1 && safe' == safe
    else FirstFree(tasks, last, pid) && NextUsed(tasks, pid, safe')
  }

  class PidAllocator {
    var lastPid: int
    var nextSafe: int

    ghost predicate Valid()
      reads this
    {
      0 <= lastPid < PID_MAX && nextSafe <= PID_MAX
    }

    constructor ()
      ensures Valid() && lastPid == 0 && nextSafe == PID_MAX
    {
      lastPid, nextSafe := 0, PID_MAX;
    }

    /** One pass of for_each_task: narrow next_safe, or stop at a task that uses last_pid. */
    method Scan(tasks: seq<Task>) returns (taken: bool)
      requires lastPid < nextSafe <= PID_MAX && (nextSafe == PID_MAX || InUse(tasks, nextSafe))
      modifies this`nextSafe
      ensures taken <==> InUse(tasks, lastPid)
      ensures lastPid < nextSafe <= PID_MAX && (nextSafe == PID_MAX || InUse(tasks, nextSafe))
      ensures !taken ==> NextUsed(tasks, lastPid, nextSafe)
    {
      var i := 0;
      while i < |tasks|
        invariant 0 <= i <= |tasks| && lastPid < nextSafe <= PID_MAX
        invariant nextSafe == PID_MAX || InUse(tasks, nextSafe)
        invariant forall k :: 0 <= k < i ==> !Uses(tasks[k], lastPid)
        invariant forall k, id :: 0 <= k < i && lastPid < id < nextSafe ==> !Uses(tasks[k], id)
      {
        var p := tasks[i];
        if p.pid == lastPid || p.pgrp == lastPid || p.session == lastPid { return true; }
        assert Uses(p, p.pid) && Uses(p, p.pgrp) && Uses(p, p.session);
        if p.pid > lastPid && nextSafe > p.pid { nextSafe := p.pid; }
        if p.pgrp > lastPid && nextSafe > p.pgrp { nextSafe := p.pgrp; }
        if p.session > lastPid && nextSafe > p.session { nextSafe := p.session; }
        i := i + 1;
      }
      taken := false;
    }

    /** get_pid with nothing between its unlock and its reading of last_pid. */
    method GetPid(tasks: seq<Task>, ghost f: int) returns (pid: int)
      requires Valid() && Ahead(lastPid, f) && !InUse(tasks, f)
      modifies this
      ensures Valid() && pid == lastPid
      ensures NoneBetween(tasks, old(lastPid), old(nextSafe)) ==>
                FirstFree(tasks, old(lastPid), pid) && NoneBetween(tasks, pid, nextSafe)
    {
      Advance(tasks, f);
      pid := lastPid;
    }

    /** get_pid without CLONE_PID, as far as it holds lastpid_lock. With no id in use between last_pid and next_safe,
        both the path without a scan and the scan move last_pid to the first id after it that no task uses as pid,
        pgrp or session. */
    method Advance(tasks: seq<Task>, ghost f: int)
      requires Valid() && Ahead(lastPid, f) && !InUse(tasks, f)
      modifies this
      ensures Valid() && Handed(tasks, old(lastPid), old(nextSafe), lastPid, nextSafe)
      ensures NoneBetween(tasks, old(lastPid), old(nextSafe)) ==>
                FirstFree(tasks, old(lastPid), lastPid) && NoneBetween(tasks, lastPid, nextSafe)
    {
      ghost var n := 1;
      ghost var was := lastPid;
      assert Iter(was, 1) == Succ(Iter(was, 0));
      lastPid := lastPid + 1;
      if lastPid >= PID_MAX {
        lastPid := RESTART;
      } else if lastPid < nextSafe {
        return;
      }
      nextSafe := PID_MAX;
      while true
        invariant n > 0 && lastPid == Iter(was, n) && TriedUpTo(tasks, was, n)
        invariant 0 <= lastPid < PID_MAX && lastPid < nextSafe <= PID_MAX
        invariant nextSafe == PID_MAX || InUse(tasks, nextSafe)
        invariant lastPid <= f || RESTART <= f
        decreases Distance(lastPid, f)
      {
        var taken := Scan(tasks);
        if !taken { return; }
        assert Iter(was, n + 1) == Succ(lastPid);
        lastPid := lastPid + 1;
        if lastPid >= nextSafe {
          if lastPid >= PID_MAX { lastPid := RESTART; }
          nextSafe := PID_MAX;
        }
        n := n + 1;
      }
    }
  }

  // ---------------------------------------------------------------------------
  // Whole runs
  // ---------------------------------------------------------------------------

  datatype Stage = Copied | Claimed | Answered

  /** A process in do_fork between its copy of the parent and SET_LINKS: the child is on no list yet. Its pid is 0 until
      get_pid; then it is the id last_pid was moved to, until get_pid has dropped its lock and read its answer. */
  datatype Fork = Fork(child: Task, parent: int, stage: Stage)

  datatype State = State(tasks: seq<Task>, forks: seq<Fork>, last: int, safe: int)

  /** The first process, which is on no list. */
  const BOOT := Task(0, 0, 0)

  datatype Event =
    | Copy(parent: Task)
    | Claim(k: nat, pid: int, safe: int)
    | Answer(k: nat)
    | Link(k: nat)
    | Abort(k: nat)
    | Exit(i: nat)
    | SetPgrp(i: nat, pgrp: int)
    | SetSid(i: nat)

  predicate Forking(forks: seq<Fork>, pid: int) {
    exists k :: 0 <= k < |forks| && forks[k].parent == pid
  }

  function Given(f: Fork, pid: int, stage: Stage): Fork {
    f.(child := f.child.(pid := pid), stage := stage)
  }

  /** A child copies its parent, which runs do_fork and so neither exits nor starts a session meanwhile; the parent's
      group may be changed by others. get_pid is two steps: it moves last_pid under the lock, and answers what last_pid
      is some time later. A fork may fail before or after it. A group set later is one that exists. */
  ghost predicate Step(s: State, e: Event, s': State) {
    match e
    case Copy(parent) =>
      && (parent in s.tasks || parent == BOOT) && !Forking(s.forks, parent.pid)
      && s' == s.(forks := s.forks + [Fork(parent.(pid := 0), parent.pid, Copied)])
    case Claim(k, pid, safe) =>
      && k < |s.forks| && s.forks[k].stage == Copied && Handed(s.tasks, s.last, s.safe, pid, safe)
      && s' == State(s.tasks, s.forks[k := Given(s.forks[k], pid, Claimed)], pid, safe)
    case Answer(k) =>
      && k < |s.forks| && s.forks[k].stage == Claimed
      && s' == s.(forks := s.forks[k := Given(s.forks[k], s.last, Answered)])
    case Link(k) =>
      && k < |s.forks| && s.forks[k].stage == Answered
      && s' == s.(tasks := s.tasks + [s.forks[k].child], forks := RemoveAt(s.forks, k))
    case Abort(k) =>
      k < |s.forks| && s.forks[k].stage != Claimed && s' == s.(forks := RemoveAt(s.forks, k))
    case Exit(i) =>
      i < |s.tasks| && !Forking(s.forks, s.tasks[i].pid) && s' == s.(tasks := RemoveAt(s.tasks, i))
    case SetPgrp(i, g) =>
      i < |s.tasks| && InUse(s.tasks, g) && s' == s.(tasks := s.tasks[i := s.tasks[i].(pgrp := g)])
    case SetSid(i) =>
      && i < |s.tasks| && !Forking(s.forks, s.tasks[i].pid)
      && s' == s.(tasks := s.tasks[i := s.tasks[i].(pgrp := s.tasks[i].pid, session := s.tasks[i].pid)])
  }

  ghost predicate ForkUses(forks: seq<Fork>, id: int) {
    exists k :: 0 <= k < |forks| && Uses(forks[k].child, id)
  }

  /** A process, on the list or not yet, uses the id. */
  ghost predicate Taken(s: State, id: int) {
    InUse(s.tasks, id) || ForkUses(s.forks, id)
  }

  /** A process other than the k-th child uses the id. */
  ghost predicate OthersUse(s: State, k: nat, id: int) {
    InUse(s.tasks, id) || exists l :: 0 <= l < |s.forks| && l != k && Uses(s.forks[l].child, id)
  }

  ghost predicate PidsDistinct(tasks: seq<Task>) {
    forall i, j :: 0 <= i < j < |tasks| ==> tasks[i].pid != tasks[j].pid
  }

  /** The pid of the k-th child is nobody else's. */
  ghost predicate Own(s: State, k: nat)
    requires k < |s.forks|
  {
    s.last > 0 && s.forks[k].child.pid > 0 && !OthersUse(s, k, s.forks[k].child.pid)
  }

  /** No id of any process lies between last_pid and next_safe, no two processes on the list share a pid, and the pid
      of a child that is not on it but has one is nobody else's pid, group or session. */
  ghost predicate Inv(s: State) {
    && 0 <= s.last < PID_MAX && s.safe <= PID_MAX
    && (forall id :: s.last < id < s.safe ==> !Taken(s, id)) && PidsDistinct(s.tasks)
    && (forall k :: 0 <= k < |s.forks| ==> if s.forks[k].stage == Copied then s.forks[k].child.pid == 0 else Own(s, k))
  }

  /** The ids that the get_pid of the k-th child claims, the one it moves last_pid to and those up to next_safe, include
      one of a child that is not on the list; last_pid itself may be a group of its own child. */
  ghost predicate Passes(s: State, k: nat, pid: int, safe: int) {
    (exists id :: pid < id < safe && ForkUses(s.forks, id)) ||
    (exists l :: 0 <= l < |s.forks| && l != k && Uses(s.forks[l].child, pid))
  }

  /** Another get_pid has moved last_pid on since, and the id it is at now belongs to someone. */
  ghost predicate Overtaken(s: State, k: nat)
    requires k < |s.forks|
  {
    s.last != s.forks[k].child.pid && OthersUse(s, k, s.last)
  }

  ghost predicate Unsafe(s: State, e: Event) {
    (e.Claim? && Passes(s, e.k, e.pid, e.safe)) || (e.Answer? && e.k < |s.forks| && Overtaken(s, e.k))
  }

  lemma UsedBy(tasks: seq<Task>, p: Task, id: int)
    ensures p in tasks && Uses(p, id) ==> InUse(tasks, id)
  {
  }

  lemma RemovedIs<T>(s: seq<T>, k: nat, i: nat)
    requires k < |s| && i < |s| - 1
    ensures RemoveAt(s, k)[i] == s[if i < k then i else i + 1]
  {
  }

  /** Apart from a linked child's, an id in use on the list afterwards was in use there before. */
  lemma ListedAfter(s: State, e: Event, s': State, id: int)
    requires Step(s, e, s') && InUse(s'.tasks, id)
    ensures InUse(s.tasks, id) || (e.Link? && Uses(s.forks[e.k].child, id))
  {
    var i :| 0 <= i < |s'.tasks| && Uses(s'.tasks[i], id);
    match e
    case Link(k) => assert i < |s.tasks| ==> Uses(s.tasks[i], id);
    case Exit(j) => RemovedIs(s.tasks, j, i);
    case SetPgrp(j, g) => assert id != g ==> Uses(s.tasks[i], id);
    case SetSid(j) => assert Uses(s.tasks[i], id);
    case _ =>
  }

  /** Where a child that is left was before. */
  function Was(e: Event, k: nat): nat {
    if (e.Link? || e.Abort?) && k >= e.k then k + 1 else k
  }

  /** Not a step of get_pid, nor the start of a fork. */
  predicate Later(e: Event) {
    !e.Copy? && !e.Claim? && !e.Answer?
  }

  lemma ForkWas(s: State, e: Event, s': State, k: nat)
    requires Step(s, e, s') && Later(e) && k < |s'.forks|
    ensures Was(e, k) < |s.forks| && s'.forks[k] == s.forks[Was(e, k)]
  {
    if e.Link? || e.Abort? { RemovedIs(s.forks, e.k, k); }
  }

  /** Steps other than those of get_pid keep the invariant. */
  lemma QuietInv(s: State, e: Event, s': State)
    requires Inv(s) && Step(s, e, s') && !e.Claim? && !e.Answer?
    ensures Inv(s')
  {
    if e.Copy? {
      CopyInv(s, e, s');
    } else {
      forall k: nat | k < |s'.forks| && s'.forks[k].stage != Copied ensures Own(s', k) { LaterOwn(s, e, s', k); }
      forall id | s'.last < id < s'.safe ensures !Taken(s', id) { LaterTaken(s, e, s', id); }
      LaterDistinct(s, e, s');
      hide Taken, Own, PidsDistinct;
    }
  }

  /** The ids a child copies are in use on the list, or 0. */
  lemma CopyInv(s: State, e: Event, s': State)
    requires Inv(s) && e.Copy? && Step(s, e, s')
    ensures Inv(s')
  {
    var n, child := |s.forks|, e.parent.(pid := 0);
    UsedBy(s.tasks, e.parent, e.parent.pgrp);
    UsedBy(s.tasks, e.parent, e.parent.session);
    assert forall id :: Uses(child, id) ==> id == 0 || InUse(s.tasks, id);
    assert s'.forks[n].child == child && s'.forks[..n] == s.forks;
    forall id | s.last < id < s.safe ensures !Taken(s', id) { assert !Taken(s, id); }
    forall k: nat | k < n && s.forks[k].stage != Copied ensures Own(s', k) {
      assert s'.forks[k] == s.forks[k] && Own(s, k);
    }
    hide Taken, Own, Uses;
  }

  lemma LaterTaken(s: State, e: Event, s': State, id: int)
    requires Step(s, e, s') && Later(e)
    ensures Taken(s', id) ==> Taken(s, id)
  {
    if InUse(s'.tasks, id) { ListedAfter(s, e, s', id); }
    if ForkUses(s'.forks, id) {
      var k :| 0 <= k < |s'.forks| && Uses(s'.forks[k].child, id);
      ForkWas(s, e, s', k);
    }
  }

  lemma LaterOwn(s: State, e: Event, s': State, k: nat)
    requires Inv(s) && Step(s, e, s') && Later(e) && k < |s'.forks| && s'.forks[k].stage != Copied
    ensures Own(s', k)
  {
    ForkWas(s, e, s', k);
    var id := s'.forks[k].child.pid;
    assert Own(s, Was(e, k));
    if InUse(s'.tasks, id) { ListedAfter(s, e, s', id); }
    forall l | 0 <= l < |s'.forks| && l != k ensures !Uses(s'.forks[l].child, id) { ForkWas(s, e, s', l); }
  }

  lemma LaterDistinct(s: State, e: Event, s': State)
    requires Inv(s) && Step(s, e, s') && Later(e)
    ensures PidsDistinct(s'.tasks)
  {
    match e
    case Link(k) =>
      var pid := s.forks[k].child.pid;
      assert Own(s, k);
      forall i | 0 <= i < |s.tasks| ensures s.tasks[i].pid != pid { UsedBy(s.tasks, s.tasks[i], pid); }
    case Exit(j) => forall i: nat | i < |s'.tasks| { RemovedIs(s.tasks, j, i); }
    case _ =>
  }

  /** What last_pid is moved to nobody on the list uses, nor anything up to the new next_safe. */
  lemma HandedFree(s: State, pid: int, safe: int)
    requires Inv(s) && Handed(s.tasks, s.last, s.safe, pid, safe)
    ensures 0 < pid < PID_MAX && pid < safe <= PID_MAX && !InUse(s.tasks, pid) && NoneBetween(s.tasks, pid, safe)
  {
    if s.last + 1 < s.safe {
      forall id | pid <= id < safe ensures !InUse(s.tasks, id) { assert !Taken(s, id); }
    } else {
      var n: nat :| n > 0 && pid == Iter(s.last, n);
      IterAhead(s.last, n);
    }
  }

  /** Theorem: the locked part of get_pid keeps the invariant, so that the id it claims is nobody else's, if and only if
      it does not pass over an id of a process that is just being forked. */
  lemma ClaimExactly(s: State, e: Event, s': State)
    requires Inv(s) && e.Claim? && Step(s, e, s')
    ensures Inv(s') <==> !Passes(s, e.k, e.pid, e.safe)
  {
    HandedFree(s, e.pid, e.safe);
    if !Passes(s, e.k, e.pid, e.safe) {
      ClaimKeeps(s, e, s');
    } else if l :| 0 <= l < |s.forks| && l != e.k && Uses(s.forks[l].child, e.pid) {
      assert s'.forks[l] == s.forks[l] && OthersUse(s', e.k, e.pid);
      assert !Own(s', e.k);
    } else {
      var id :| e.pid < id < e.safe && ForkUses(s.forks, id);
      var l :| 0 <= l < |s.forks| && Uses(s.forks[l].child, id);
      assert Uses(s'.forks[l].child, id) && Taken(s', id);
    }
  }

  lemma ClaimKeeps(s: State, e: Event, s': State)
    requires Inv(s) && e.Claim? && Step(s, e, s') && !Passes(s, e.k, e.pid, e.safe)
    ensures Inv(s')
  {
    HandedFree(s, e.pid, e.safe);
    var child := s'.forks[e.k].child;
    forall id | e.pid < id < e.safe ensures !Taken(s', id) {
      assert !ForkUses(s.forks, id) && !InUse(s.tasks, id);
      forall l | 0 <= l < |s.forks| ensures !Uses(s'.forks[l].child, id) {
        assert !Uses(s.forks[l].child, id);
      }
    }
    forall k: nat | k < |s.forks| && s'.forks[k].stage != Copied ensures Own(s', k) {
      if k != e.k { ClaimOwn(s, e, s', k); }
    }
    hide Taken, Own, Passes, Handed;
  }

  lemma ClaimOwn(s: State, e: Event, s': State, k: nat)
    requires Inv(s) && e.Claim? && Step(s, e, s') && !Passes(s, e.k, e.pid, e.safe) && 0 < e.pid
    requires k < |s.forks| && k != e.k && s.forks[k].stage != Copied
    ensures Own(s', k)
  {
    var pid := s.forks[k].child.pid;
    assert Own(s, k) && Uses(s.forks[k].child, pid) && pid != e.pid;
    forall l | 0 <= l < |s.forks| && l != k ensures !Uses(s'.forks[l].child, pid) {
      assert !Uses(s.forks[l].child, pid);
    }
  }

  /** Theorem: the answer of get_pid keeps the invariant, so that the pid of the child is nobody else's, if and only if
      it was not overtaken: no other get_pid has moved last_pid since, or nobody else uses the id it is at now. */
  lemma AnswerExactly(s: State, e: Event, s': State)
    requires Inv(s) && e.Answer? && Step(s, e, s')
    ensures Inv(s') <==> !Overtaken(s, e.k)
  {
    var k, last := e.k, s.last;
    assert Own(s, k) && s'.forks[k].child.pid == last;
    forall l | 0 <= l < |s.forks| && l != k ensures s'.forks[l] == s.forks[l] { }
    assert OthersUse(s', k, last) <==> OthersUse(s, k, last);
    if Overtaken(s, k) { assert !Own(s', k); } else { AnswerKeeps(s, k, s'); }
  }

  lemma AnswerKeeps(s: State, k: nat, s': State)
    requires Inv(s) && Step(s, Answer(k), s') && !OthersUse(s, k, s.last) && !OthersUse(s', k, s.last)
    ensures Inv(s')
  {
    assert Own(s, k);
    forall id | s.last < id < s.safe ensures !Taken(s', id) {
      assert !Taken(s, id);
      forall l | 0 <= l < |s.forks| ensures !Uses(s'.forks[l].child, id) {
        assert !Uses(s.forks[l].child, id);
      }
    }
    forall l: nat | l < |s.forks| && l != k && s.forks[l].stage != Copied ensures Own(s', l) {
      var pid := s.forks[l].child.pid;
      assert Own(s, l) && Uses(s.forks[l].child, pid) && pid != s.last;
      forall m | 0 <= m < |s.forks| && m != l ensures !Uses(s'.forks[m].child, pid) {
        assert !Uses(s.forks[m].child, pid);
      }
    }
    hide Taken, Own;
  }

  ghost predicate Behaviour(ss: seq<State>, es: seq<Event>) {
    && |ss| == |es| + 1 && ss[0] == State([], [], 0, PID_MAX)
    && forall i :: 0 <= i < |es| ==> Step(ss[i], es[i], ss[i + 1])
  }

  ghost predicate Sound(ss: seq<State>, n: nat)
    requires n < |ss|
  {
    forall i :: 0 <= i <= n ==> Inv(ss[i])
  }

  /** Theorem: over every run of forks that link later or fail, of exits and of changes of group or session, all is
      well up to some point if and only if no get_pid before it passed over an id of a process being forked and none
      was overtaken between dropping its lock and reading its answer. */
  lemma {:induction false} RunExactly(ss: seq<State>, es: seq<Event>, n: nat)
    requires Behaviour(ss, es) && n <= |es|
    ensures Sound(ss, n) <==> forall i :: 0 <= i < n ==> !Unsafe(ss[i], es[i])
  {
    if n == 0 {
    } else {
      RunExactly(ss, es, n - 1);
      assert Sound(ss, n) <==> Sound(ss, n - 1) && Inv(ss[n]);
      if Sound(ss, n - 1) {
        assert Step(ss[n - 1], es[n - 1], ss[n - 1 + 1]) && Inv(ss[n - 1]);
        UnsafeExactly(ss[n - 1], es[n - 1], ss[n]);
        hide Step, Inv, Unsafe;
      }
    }
  }

  lemma UnsafeExactly(s: State, e: Event, s': State)
    requires Inv(s) && Step(s, e, s')
    ensures Inv(s') <==> !Unsafe(s, e)
  {
    hide Inv, Passes, Overtaken;
    if e.Claim? {
      ClaimExactly(s, e, s');
    } else if e.Answer? {
      AnswerExactly(s, e, s');
    } else {
      QuietInv(s, e, s');
    }
  }

  /** A group or session that a get_pid to `pid` cannot pass over. */
  ghost predicate Settled(s: State, id: int, pid: int) {
    id == 0 || InUse(s.tasks, id) || id <= s.last < pid
  }

  /** No other get_pid starts while one has not answered, last_pid does not wrap while a child with a pid is not on the
      list, and the group and session of each child are still those of a process on the list or, without a wrap, lie
      behind. */
  ghost predicate Calm(s: State, e: Event) {
    e.Claim? ==> forall l :: 0 <= l < |s.forks| ==>
      && s.forks[l].stage != Claimed && (s.forks[l].stage == Answered ==> e.pid > s.last)
      && Settled(s, s.forks[l].child.pgrp, e.pid) && Settled(s, s.forks[l].child.session, e.pid)
  }

  /** The pids of all children not on the list lie behind, and an id not answered yet is the last. */
  ghost predicate Behind(s: State) {
    forall k :: 0 <= k < |s.forks| && s.forks[k].stage != Copied ==>
      s.forks[k].child.pid <= s.last && (s.forks[k].stage == Claimed ==> s.forks[k].child.pid == s.last)
  }

  lemma BehindStep(s: State, e: Event, s': State)
    requires Behind(s) && Step(s, e, s') && Calm(s, e)
    ensures Behind(s')
  {
    if Later(e) {
      forall k: nat | k < |s'.forks| { ForkWas(s, e, s', k); }
    }
  }

  lemma CalmIsSafe(s: State, e: Event, s': State)
    requires Inv(s) && Behind(s) && Step(s, e, s') && Calm(s, e)
    ensures !Unsafe(s, e)
  {
    if e.Claim? {
      HandedFree(s, e.pid, e.safe);
      forall l, id | 0 <= l < |s.forks| && e.pid <= id < e.safe ensures !Uses(s.forks[l].child, id) {
        assert !InUse(s.tasks, id);
      }
    }
  }

  /** Theorem: all is well over every run in which last_pid does not wrap while a fork is under way and no two get_pids
      overlap. */
  lemma {:induction false} RunCalm(ss: seq<State>, es: seq<Event>, n: nat)
    requires Behaviour(ss, es) && n <= |es| && forall i :: 0 <= i < n ==> Calm(ss[i], es[i])
    ensures Sound(ss, n) && Behind(ss[n])
  {
    if n == 0 {
    } else {
      RunCalm(ss, es, n - 1);
      RunExactly(ss, es, n - 1);
      var s, e := ss[n - 1], es[n - 1];
      assert Step(s, e, ss[n - 1 + 1]) && Calm(s, e) && Inv(s);
      BehindStep(s, e, ss[n]);
      CalmIsSafe(s, e, ss[n]);
    }
    hide Inv, Behaviour, Unsafe, Step;
    RunExactly(ss, es, n);
  }

  // ---------------------------------------------------------------------------
  // Runs that hand out one id twice
  // ---------------------------------------------------------------------------

  ghost predicate Reachable(s: State) {
    exists ss, es :: Behaviour(ss, es) && ss[|es|] == s
  }

  lemma Extend(s: State, e: Event, s': State)
    requires Reachable(s) && Step(s, e, s')
    ensures Reachable(s')
  {
    var ss, es :| Behaviour(ss, es) && ss[|es|] == s;
    var ss', es' := ss + [s'], es + [e];
    forall i | 0 <= i < |es'| ensures Step(ss'[i], es'[i], ss'[i + 1]) {
      assert i < |es| ==> Step(ss[i], es[i], ss[i + 1]);
    }
    assert Behaviour(ss', es') && ss'[|es'|] == s';
  }

  /** A fork up to the end of its get_pid with nothing in between. */
  lemma WholeGetPid(s: State, parent: Task, pid: int, safe: int)
    requires Reachable(s) && (parent in s.tasks || parent == BOOT) && !Forking(s.forks, parent.pid)
    requires Handed(s.tasks, s.last, s.safe, pid, safe)
    ensures Reachable(State(s.tasks, s.forks + [Fork(parent.(pid := pid), parent.pid, Answered)], pid, safe))
  {
    var n, f := |s.forks|, Fork(parent.(pid := pid), parent.pid, Claimed);
    ClaimReachable(s, parent, pid, safe);
    var t := State(s.tasks, s.forks + [f], pid, safe);
    var u := t.(forks := s.forks + [f.(stage := Answered)]);
    assert t.forks[n := Given(f, pid, Answered)] == u.forks;
    Extend(t, Answer(n), u);
  }

  lemma ClaimReachable(s: State, parent: Task, pid: int, safe: int)
    requires Reachable(s) && (parent in s.tasks || parent == BOOT) && !Forking(s.forks, parent.pid)
    requires Handed(s.tasks, s.last, s.safe, pid, safe)
    ensures Reachable(State(s.tasks, s.forks + [Fork(parent.(pid := pid), parent.pid, Claimed)], pid, safe))
  {
    var n, f := |s.forks|, Fork(parent.(pid := 0), parent.pid, Copied);
    var t := s.(forks := s.forks + [f]);
    Extend(s, Copy(parent), t);
    var u := State(s.tasks, s.forks + [Given(f, pid, Claimed)], pid, safe);
    assert t.forks[n := Given(f, pid, Claimed)] == u.forks;
    Extend(t, Claim(n, pid, safe), u);
  }

  /** A fork that fails uses up an id. */
  lemma FailedFork(s: State, pid: int)
    requires Reachable(s) && !Forking(s.forks, 0) && Handed(s.tasks, s.last, s.safe, pid, PID_MAX)
    ensures Reachable(s.(last := pid, safe := PID_MAX))
  {
    WholeGetPid(s, BOOT, pid, PID_MAX);
    var t := State(s.tasks, s.forks + [Fork(Task(pid, 0, 0), 0, Answered)], pid, PID_MAX);
    assert RemoveAt(t.forks, |s.forks|) == s.forks;
    Extend(t, Abort(|s.forks|), s.(last := pid, safe := PID_MAX));
  }

  /** Forks that fail use up one id after the other. */
  lemma {:induction false} Churn(s: State, last: int)
    requires Reachable(s) && s.safe == PID_MAX && 0 <= s.last <= last < PID_MAX && !Forking(s.forks, 0)
    ensures Reachable(s.(last := last))
    decreases last - s.last
  {
    if s.last == last {
      assert s.(last := last) == s;
    } else {
      FailedFork(s, s.last + 1);
      Churn(s.(last := s.last + 1), last);
    }
  }

  /** Only process 1 is on the list. */
  const ALONE := State([Task(1, 0, 0)], [], 1, PID_MAX)

  lemma AloneReachable()
    ensures Reachable(ALONE)
  {
    var init := State([], [], 0, PID_MAX);
    var none: seq<Event> := [];
    assert Behaviour([init], none) && [init][|none|] == init;
    WholeGetPid(init, BOOT, 1, PID_MAX);
    var f := Fork(Task(1, 0, 0), 0, Answered);
    assert init.forks + [f] == [f] && RemoveAt([f], 0) == [] && [] + [f.child] == ALONE.tasks;
    Extend(State([], [f], 1, PID_MAX), Link(0), ALONE);
  }

  /** One process is in do_fork with id 500. */
  const SLOW := State([Task(1, 0, 0)], [Fork(Task(500, 0, 0), 1, Answered)], 500, PID_MAX)

  lemma SlowReachable()
    ensures Reachable(SLOW)
  {
    AloneReachable();
    Churn(ALONE, 499);
    WholeGetPid(ALONE.(last := 499), Task(1, 0, 0), 500, PID_MAX);
    assert ALONE.forks + SLOW.forks == SLOW.forks;
  }

  /** Forks of another process use up all ids. The next one wraps, sees no task with an id above 300 and so passes
      over 500. */
  lemma WrapPasses()
    ensures var s := SLOW.(last := PID_MAX - 1);
            && Reachable(s) && Inv(s)
            && Handed(s.tasks, s.last, s.safe, RESTART, PID_MAX) && Passes(s, 1, RESTART, PID_MAX)
    ensures Reachable(SLOW.(last := RESTART))
  {
    SlowReachable();
    Churn(SLOW, PID_MAX - 1);
    var s := SLOW.(last := PID_MAX - 1);
    assert Iter(PID_MAX - 1, 1) == Succ(Iter(PID_MAX - 1, 0)) == RESTART;
    assert FirstFree(s.tasks, PID_MAX - 1, RESTART);
    FailedFork(s, RESTART);
    assert Uses(s.forks[0].child, 500) && ForkUses(s.forks, 500);
  }

  /** Two forks with the same pid, both answered. */
  lemma BothLink(s: State, pid: int, p: int, q: int)
    requires Reachable(s) && s.tasks == [Task(1, 0, 0)]
    requires s.forks == [Fork(Task(pid, 0, 0), p, Answered), Fork(Task(pid, 0, 0), q, Answered)]
    ensures Reachable(State([Task(1, 0, 0), Task(pid, 0, 0), Task(pid, 0, 0)], [], s.last, s.safe))
  {
    var t := s.(tasks := [Task(1, 0, 0), Task(pid, 0, 0)], forks := [s.forks[1]]);
    assert RemoveAt(s.forks, 0) == t.forks && s.tasks + [s.forks[0].child] == t.tasks;
    Extend(s, Link(0), t);
    var u := State([Task(1, 0, 0), Task(pid, 0, 0), Task(pid, 0, 0)], [], s.last, s.safe);
    assert RemoveAt(t.forks, 0) == [] && t.tasks + [t.forks[0].child] == u.tasks;
    Extend(t, Link(0), u);
  }

  /** When last_pid comes to 499 again, 500 is handed out a second time without a look at the tasks, and both link. */
  lemma SamePidTwice()
    ensures Reachable(State([Task(1, 0, 0), Task(500, 0, 0), Task(500, 0, 0)], [], 500, PID_MAX))
  {
    WrapPasses();
    Churn(SLOW.(last := RESTART), 499);
    WholeGetPid(SLOW.(last := 499), BOOT, 500, PID_MAX);
    var f := Fork(Task(500, 0, 0), 0, Answered);
    assert SLOW.forks + [f] == [SLOW.forks[0], f];
    BothLink(State(SLOW.tasks, [SLOW.forks[0], f], 500, PID_MAX), 500, 1, 0);
  }

  /** Two get_pids have moved last_pid, to 2 and to 3, and none has answered. */
  const OVERLAP :=
    State([Task(1, 0, 0)], [Fork(Task(2, 0, 0), 0, Claimed), Fork(Task(3, 0, 0), 1, Claimed)], 3, PID_MAX)

  lemma OverlapReachable()
    ensures Reachable(OVERLAP) && Inv(OVERLAP) && Overtaken(OVERLAP, 0)
  {
    AloneReachable();
    var s := ALONE.(forks := [OVERLAP.forks[0]], last := 2);
    assert ALONE.forks + s.forks == s.forks;
    ClaimReachable(ALONE, BOOT, 2, PID_MAX);
    assert s.forks + [OVERLAP.forks[1]] == OVERLAP.forks;
    ClaimReachable(s, Task(1, 0, 0), 3, PID_MAX);
    assert Uses(OVERLAP.forks[1].child, 3);
  }

  /** If the second fork answers first and then fails, the first answers an id that was not its own but is nobody's
      else, and all is well. */
  lemma OvertakenByFailure()
    ensures var s := OVERLAP.(forks := [Fork(Task(3, 0, 0), 0, Answered)]); Reachable(s) && Inv(s)
  {
    OverlapReachable();
    var f, g := OVERLAP.forks[0], Fork(Task(3, 0, 0), 1, Answered);
    assert OVERLAP.forks[1 := g] == [f, g] && RemoveAt([f, g], 1) == [f];
    Extend(OVERLAP, Answer(1), OVERLAP.(forks := [f, g]));
    Extend(OVERLAP.(forks := [f, g]), Abort(1), OVERLAP.(forks := [f]));
    var f' := Fork(Task(3, 0, 0), 0, Answered);
    assert [f][0 := f'] == [f'];
    Extend(OVERLAP.(forks := [f]), Answer(0), OVERLAP.(forks := [f']));
  }

  /** Both then answer 3, with no wrap and nothing passed over, and both link. */
  lemma SamePidAtOnce()
    ensures Reachable(State([Task(1, 0, 0), Task(3, 0, 0), Task(3, 0, 0)], [], 3, PID_MAX))
  {
    OverlapReachable();
    var f, g := Fork(Task(3, 0, 0), 0, Answered), Fork(Task(3, 0, 0), 1, Answered);
    var s := OVERLAP.(forks := [f, OVERLAP.forks[1]]);
    assert OVERLAP.forks[0 := f] == s.forks;
    Extend(OVERLAP, Answer(0), s);
    assert s.forks[1 := g] == [f, g];
    Extend(s, Answer(1), s.(forks := [f, g]));
    BothLink(s.(forks := [f, g]), 3, 0, 1);
  }
}
