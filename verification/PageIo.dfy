/**
  fs/buffer.c: reading or writing one page through its buffers, with completions arriving in any order and at
  any time after submission, each of them in three separately interleaved steps.
*/
module PageIo {

  /** How far the I/O on a buffer is: not part of it, locked but not submitted, submitted, past
      mark_buffer_uptodate in end_buffer_io_async, past unlock_buffer. */
  datatype Stage = Out | Waiting | InFlight | Marked(ok: bool) | Released(ok: bool)

  /** `async` says that b_end_io is end_buffer_io_async. */
  datatype Buffer = Buffer(mapped: bool, uptodate: bool, locked: bool, async: bool, stage: Stage)

  /** What end_buffer_io_async takes for a buffer still in I/O. */
  predicate Busy(b: Buffer) { b.async && b.locked }

  predicate Active(b: Buffer) { b.stage.Waiting? || b.stage.InFlight? || b.stage.Marked? }

  predicate Failed(b: Buffer) { (b.stage.Marked? || b.stage.Released?) && !b.stage.ok }

  /** Locked by someone else under a label left from an earlier page I/O: ll_rw_block locks a buffer before it
      writes its own label. */
  predicate Stale(b: Buffer) { b.locked && b.async && !Active(b) }

  /** `arr` lists the buffers to submit; the first `locked` of them are locked, the first `submitted` submitted.
      `pending` completions found the page done and have yet to say so; `lost` says that the last one did not. `error`
      is PageError, `broken` what it was at the start, `marked` whether a completion marked the page up to date. */
  datatype State = State(bufs: seq<Buffer>, arr: seq<nat>, locked: nat, submitted: nat,
                         pending: nat, unlocks: nat, lost: bool, broken: bool, error: bool, marked: bool)

  /** The last three are anyone else at work on a buffer that is not part of the I/O, or no longer. */
  datatype Event =
    | Lock
    | Submit
    | Mark(i: nat, ok: bool)
    | Release(i: nat)
    | Finish
    | OtherLock(i: nat)
    | OtherLabel(i: nat)
    | OtherUnlock(i: nat)

  predicate NoneBusy(bufs: seq<Buffer>, i: nat) {
    forall j :: 0 <= j < |bufs| && j != i ==> !Busy(bufs[j])
  }

  /** All buffers of the I/O but this one are released. */
  predicate IsLast(s: State, i: nat) {
    forall k :: 0 <= k < |s.arr| ==> s.arr[k] == i || (s.arr[k] < |s.bufs| && s.bufs[s.arr[k]].stage.Released?)
  }

  predicate Shape(s: State) {
    && s.submitted <= s.locked <= |s.arr| && s.arr != []
    && (forall k :: 0 <= k < |s.arr| ==> s.arr[k] < |s.bufs|)
    && (forall k, l :: 0 <= k < l < |s.arr| ==> s.arr[k] != s.arr[l])
  }

  /** What can happen if buffers may be submitted as soon as they are locked. */
  predicate Possible(s: State, e: Event) {
    Shape(s) &&
    match e
    case Lock => s.locked < |s.arr| && !s.bufs[s.arr[s.locked]].locked
    case Submit => s.submitted < s.locked
    case Mark(i, _) => i < |s.bufs| && s.bufs[i].stage.InFlight?
    case Release(i) => i < |s.bufs| && s.bufs[i].stage.Marked?
    case Finish => s.pending > 0
    case OtherLock(i) => i < |s.bufs| && !Active(s.bufs[i]) && !s.bufs[i].locked
    case OtherLabel(i) => i < |s.bufs| && !Active(s.bufs[i]) && s.bufs[i].locked
    case OtherUnlock(i) => i < |s.bufs| && !Active(s.bufs[i]) && s.bufs[i].locked
  }

  /** The source locks all of them first. */
  predicate Enabled(s: State, e: Event) {
    Possible(s, e) && (e.Submit? ==> s.locked == |s.arr|)
  }

  function ToLocked(b: Buffer): Buffer { b.(locked := true, async := true, stage := Waiting) }

  function ToMarked(b: Buffer, ok: bool): Buffer { b.(uptodate := ok, stage := Marked(ok)) }

  function ToReleased(b: Buffer): Buffer
    requires b.stage.Marked?
  {
    b.(locked := false, stage := Released(b.stage.ok))
  }

  function Next(s: State, e: Event): State
    requires Possible(s, e)
  {
    match e
    case Lock => var i := s.arr[s.locked]; s.(bufs := s.bufs[i := ToLocked(s.bufs[i])], locked := s.locked + 1)
    case Submit =>
      var i := s.arr[s.submitted];
      s.(bufs := s.bufs[i := s.bufs[i].(stage := InFlight)], submitted := s.submitted + 1)
    case Mark(i, ok) => s.(bufs := s.bufs[i := ToMarked(s.bufs[i], ok)], error := s.error || !ok)
    case Release(i) =>
      s.(bufs := s.bufs[i := ToReleased(s.bufs[i])],
         pending := if NoneBusy(s.bufs, i) then s.pending + 1 else s.pending,
         lost := s.lost || (IsLast(s, i) && !NoneBusy(s.bufs, i)))
    case Finish => s.(pending := s.pending - 1, unlocks := s.unlocks + 1, marked := s.marked || !s.error)
    case OtherLock(i) => s.(bufs := s.bufs[i := s.bufs[i].(locked := true)])
    case OtherLabel(i) => s.(bufs := s.bufs[i := s.bufs[i].(async := false)])
    case OtherUnlock(i) => s.(bufs := s.bufs[i := s.bufs[i].(locked := false)])
  }

  predicate StagedAt(stage: Stage, k: nat, locked: nat, submitted: nat) {
    if k >= locked then stage.Out?
    else if k >= submitted then stage.Waiting?
    else !stage.Out? && !stage.Waiting?
  }

  /** Each listed buffer is where the two loops of the submitter say, and no other takes part. */
  ghost predicate Staged(s: State)
    requires Shape(s)
  {
    && (forall k :: 0 <= k < |s.arr| ==> StagedAt(s.bufs[s.arr[k]].stage, k, s.locked, s.submitted))
    && (forall i :: 0 <= i < |s.bufs| && !s.bufs[i].stage.Out? ==> i in s.arr)
    && (s.submitted > 0 ==> s.locked == |s.arr|)
  }

  ghost predicate AllReleased(s: State) {
    forall k :: 0 <= k < |s.arr| ==> s.arr[k] < |s.bufs| && s.bufs[s.arr[k]].stage.Released?
  }

  ghost predicate AnyFailed(s: State) {
    exists i :: 0 <= i < |s.bufs| && Failed(s.bufs[i])
  }

  ghost predicate Inv(s: State) {
    && Shape(s) && Staged(s)
    && (forall i :: 0 <= i < |s.bufs| && Active(s.bufs[i]) ==> Busy(s.bufs[i]))
    && s.pending + s.unlocks == (if AllReleased(s) && !s.lost then 1 else 0)
    && (s.lost ==> AllReleased(s))
    && s.error == (s.broken || AnyFailed(s))
    && (s.marked ==> s.unlocks > 0 && !s.error)
    && (s.unlocks > 0 && !s.error ==> s.marked)
  }

  /** A completion that finds nobody else busy is the last; the last finds somebody busy only if someone else holds
      a buffer of the page under a stale label. */
  lemma LastRelease(s: State, i: nat)
    requires Inv(s) && Enabled(s, Release(i))
    ensures !AllReleased(s) && (AllReleased(Next(s, Release(i))) <==> IsLast(s, i))
    ensures NoneBusy(s.bufs, i) <==> IsLast(s, i) && forall j :: 0 <= j < |s.bufs| && j != i ==> !Stale(s.bufs[j])
  {
    var t := Next(s, Release(i));
    assert i in s.arr;
    var k :| 0 <= k < |s.arr| && s.arr[k] == i;
    NotAllReleased(s, k);
    assert s.submitted > 0;
    if NoneBusy(s.bufs, i) {
      forall l | 0 <= l < |s.arr| && l != k ensures s.bufs[s.arr[l]].stage.Released? {
        assert !Busy(s.bufs[s.arr[l]]) && StagedAt(s.bufs[s.arr[l]].stage, l, s.locked, s.submitted);
      }
    }
    if IsLast(s, i) {
      forall j | 0 <= j < |s.bufs| && j != i ensures !Active(s.bufs[j]) {
        assert Active(s.bufs[j]) ==> j in s.arr;
      }
    }
  }

  lemma FailedBy(s: State, t: State, i: nat)
    requires |s.bufs| == |t.bufs| && i < |s.bufs|
    requires forall j :: 0 <= j < |s.bufs| && j != i ==> t.bufs[j] == s.bufs[j]
    requires !Failed(s.bufs[i]) || Failed(t.bufs[i])
    ensures AnyFailed(t) <==> AnyFailed(s) || Failed(t.bufs[i])
  {
    if AnyFailed(s) {
      var j :| 0 <= j < |s.bufs| && Failed(s.bufs[j]);
      assert Failed(t.bufs[j]);
    }
    if AnyFailed(t) {
      var j :| 0 <= j < |s.bufs| && Failed(t.bufs[j]);
      assert j != i ==> Failed(s.bufs[j]);
    }
  }

  lemma NotAllReleased(s: State, k: nat)
    requires k < |s.arr| && s.arr[k] < |s.bufs| && !s.bufs[s.arr[k]].stage.Released?
    ensures !AllReleased(s)
  {
  }

  /** The buffer an event changes. */
  function Target(s: State, e: Event): nat
    requires Enabled(s, e) && !e.Finish?
  {
    match e
    case Lock => s.arr[s.locked]
    case Submit => s.arr[s.submitted]
    case Mark(i, _) => i
    case Release(i) => i
    case OtherLock(i) => i
    case OtherLabel(i) => i
    case OtherUnlock(i) => i
  }

  /** An event changes at most its target. */
  lemma NextElsewhere(s: State, e: Event)
    requires Enabled(s, e)
    ensures Shape(Next(s, e)) && Next(s, e).arr == s.arr && |Next(s, e).bufs| == |s.bufs|
    ensures forall i :: 0 <= i < |s.bufs| && (e.Finish? || i != Target(s, e)) ==> Next(s, e).bufs[i] == s.bufs[i]
  {
  }

  lemma NextStaged(s: State, e: Event)
    requires Shape(s) && Staged(s) && Enabled(s, e)
    ensures Shape(Next(s, e)) && Staged(Next(s, e))
  {
    NextElsewhere(s, e);
    var t := Next(s, e);
    forall k | 0 <= k < |s.arr| ensures StagedAt(t.bufs[s.arr[k]].stage, k, t.locked, t.submitted) {
      assert StagedAt(s.bufs[s.arr[k]].stage, k, s.locked, s.submitted);
    }
  }

  lemma NextBusy(s: State, e: Event)
    requires Inv(s) && Enabled(s, e)
    ensures forall i :: 0 <= i < |s.bufs| && Active(Next(s, e).bufs[i]) ==> Busy(Next(s, e).bufs[i])
  {
  }

  lemma NextReleased(s: State, e: Event)
    requires Inv(s) && Enabled(s, e) && !e.Release?
    ensures AllReleased(Next(s, e)) <==> AllReleased(s)
  {
    NextElsewhere(s, e);
    var t := Next(s, e);
    forall k | 0 <= k < |s.arr| ensures t.bufs[s.arr[k]].stage.Released? <==> s.bufs[s.arr[k]].stage.Released? {
      assert StagedAt(s.bufs[s.arr[k]].stage, k, s.locked, s.submitted);
    }
  }

  lemma NextInv(s: State, e: Event)
    requires Inv(s) && Enabled(s, e)
    ensures Inv(Next(s, e))
  {
    NextStaged(s, e);
    NextBusy(s, e);
    if e.Release? { LastRelease(s, e.i); } else { NextReleased(s, e); }
    var t := Next(s, e);
    if e.Finish? {
      assert AnyFailed(t) <==> AnyFailed(s);
    } else {
      FailedBy(s, t, Target(s, e));
    }
  }

  /** The I/O starts; others may hold buffers of the page, under any label. */
  predicate Initial(s: State) {
    && Shape(s) && s.locked == s.submitted == s.pending == s.unlocks == 0
    && s.error == s.broken && !s.marked && !s.lost
    && (forall i :: 0 <= i < |s.bufs| ==> s.bufs[i].stage.Out?)
  }

  ghost predicate Behaviour(ss: seq<State>, es: seq<Event>) {
    && |ss| == |es| + 1 && Initial(ss[0])
    && forall i :: 0 <= i < |es| ==> Enabled(ss[i], es[i]) && ss[i + 1] == Next(ss[i], es[i])
  }

  lemma {:induction false} RunInv(ss: seq<State>, es: seq<Event>, n: nat)
    requires Behaviour(ss, es) && n <= |es|
    ensures Inv(ss[n])
  {
    if n > 0 {
      RunInv(ss, es, n - 1);
      hide Inv, Next;
      NextInv(ss[n - 1], es[n - 1]);
    } else {
      NotAllReleased(ss[0], 0);
    }
  }

  /** Theorem: at every point of every run the page has been unlocked at most once, and if it has, every buffer
      of the I/O is unlocked by it and completed; it is then marked up to date just if there was no error before and
      none of them failed. */
  lemma UnlockedOnce(ss: seq<State>, es: seq<Event>, n: nat)
    requires Behaviour(ss, es) && n <= |es|
    ensures ss[n].unlocks <= 1
    ensures ss[n].unlocks == 1 ==> AllReleased(ss[n]) && forall i :: 0 <= i < |ss[n].bufs| ==> !Active(ss[n].bufs[i])
    ensures ss[n].marked <==> ss[n].unlocks == 1 && !ss[n].broken && !AnyFailed(ss[n])
  {
    RunInv(ss, es, n);
    var s := ss[n];
    if s.unlocks == 1 {
      forall i | 0 <= i < |s.bufs| ensures !Active(s.bufs[i]) {
        assert Active(s.bufs[i]) ==> i in s.arr;
      }
    }
  }

  /** When the last buffer of the I/O was released, someone else held another one under a stale label. */
  ghost predicate Overlooked(ss: seq<State>, es: seq<Event>, n: nat)
    requires n <= |es| < |ss|
  {
    exists m :: 0 <= m < n && OverlooksAt(ss[m], es[m])
  }

  ghost predicate OverlooksAt(s: State, e: Event) {
    e.Release? && IsLast(s, e.i) && exists j :: 0 <= j < |s.bufs| && j != e.i && Stale(s.bufs[j])
  }

  lemma {:induction false} LostIs(ss: seq<State>, es: seq<Event>, n: nat)
    requires Behaviour(ss, es) && n <= |es|
    ensures ss[n].lost <==> Overlooked(ss, es, n)
  {
    if n == 0 {
      assert !Overlooked(ss, es, 0);
    } else {
      LostIs(ss, es, n - 1);
      RunInv(ss, es, n - 1);
      StepOf(ss, es, n - 1);
      OverlookedStep(ss, es, n - 1);
      hide Next, Inv, Enabled, OverlooksAt, Overlooked, Behaviour;
      LostStep(ss[n - 1], es[n - 1]);
    }
  }

  lemma StepOf(ss: seq<State>, es: seq<Event>, m: nat)
    requires Behaviour(ss, es) && m < |es|
    ensures Enabled(ss[m], es[m]) && ss[m + 1] == Next(ss[m], es[m])
  {
  }

  lemma OverlookedStep(ss: seq<State>, es: seq<Event>, m: nat)
    requires m < |es| < |ss|
    ensures Overlooked(ss, es, m + 1) <==> Overlooked(ss, es, m) || OverlooksAt(ss[m], es[m])
  {
    hide OverlooksAt;
  }

  lemma LostStep(s: State, e: Event)
    requires Inv(s) && Enabled(s, e)
    ensures Next(s, e).lost <==> s.lost || OverlooksAt(s, e)
  {
    if e.Release? { LastRelease(s, e.i); }
    hide Inv, IsLast, NoneBusy, Stale;
  }

  /** Theorem: a run in which the submitter has finished, no buffer is active and no completion is under way has
      unlocked the page, if and only if the last completion was not misled by a stale label. */
  lemma UnlockedExactly(ss: seq<State>, es: seq<Event>, n: nat)
    requires Behaviour(ss, es) && n <= |es|
    requires ss[n].submitted == |ss[n].arr| && ss[n].pending == 0
    requires forall i :: 0 <= i < |ss[n].bufs| ==> !Active(ss[n].bufs[i])
    ensures ss[n].unlocks == 1 <==> !Overlooked(ss, es, n)
  {
    RunInv(ss, es, n);
    LostIs(ss, es, n);
    var s := ss[n];
    forall k | 0 <= k < |s.arr| ensures s.bufs[s.arr[k]].stage.Released? {
      assert !Active(s.bufs[s.arr[k]]) && StagedAt(s.bufs[s.arr[k]].stage, k, s.locked, s.submitted);
    }
  }

  const IDLE := Buffer(true, false, false, false, Out)

  function Start(bufs: seq<Buffer>, arr: seq<nat>): State {
    State(bufs, arr, 0, 0, 0, 0, false, false, false, false)
  }

  /** Buffer i is locked, submitted and read on its own. */
  lemma ReadOne(s: State, i: nat) returns (s1: State, s2: State, s3: State)
    requires Shape(s) && s.submitted == s.locked < |s.arr| && s.arr[s.locked] == i && s.bufs[i] == IDLE
    ensures Possible(s, Lock) && s1 == Next(s, Lock) && s1.locked == s.locked + 1 && s1.arr == s.arr
    ensures Possible(s1, Submit) && s2 == Next(s1, Submit)
    ensures Possible(s2, Mark(i, true)) && s3 == Next(s2, Mark(i, true))
    ensures s3 == s.(bufs := s.bufs[i := Buffer(true, true, true, true, Marked(true))],
                     locked := s.locked + 1, submitted := s.submitted + 1) && Shape(s3)
  {
    s1 := Next(s, Lock);
    s2 := Next(s1, Submit);
    s3 := Next(s2, Mark(i, true));
  }

  /** Buffer i is released with nobody else busy, and the page is unlocked. */
  lemma EndOne(s: State, i: nat) returns (s1: State, s2: State)
    requires Shape(s) && i < |s.bufs| && s.bufs[i].stage == Marked(true) && NoneBusy(s.bufs, i) && s.pending == 0
    ensures Possible(s, Release(i)) && s1 == Next(s, Release(i)) && Possible(s1, Finish) && s2 == Next(s1, Finish)
    ensures s2 == s.(bufs := s.bufs[i := ToReleased(s.bufs[i])], unlocks := s.unlocks + 1, marked := s.marked || !s.error)
    ensures Shape(s2)
  {
    s1 := Next(s, Release(i));
    s2 := Next(s1, Finish);
  }

  /** A page of two buffers of which one is read. Someone locks the other, which still carries the label of an earlier
      page I/O, and the completion comes before the new label: the page stays locked for good. */
  lemma StaleLabelLosesUnlock() returns (ss: seq<State>, es: seq<Event>)
    ensures Behaviour(ss, es) && es == [Lock, Submit, Mark(0, true), OtherLock(1), Release(0), OtherLabel(1), OtherUnlock(1)]
    ensures var s := ss[|es|];
      && s.submitted == |s.arr| && s.pending == 0 && s.unlocks == 0 && forall i :: 0 <= i < |s.bufs| ==> !Active(s.bufs[i])
  {
    var s0 := Start([IDLE, IDLE.(async := true, uptodate := true)], [0]);
    assert Initial(s0) && Shape(s0);
    hide Next, Possible, Shape, Initial;
    var s1, s2, s3 := ReadOne(s0, 0);
    assert s3.bufs[1] == s0.bufs[1];
    var s4, s5, s6, s7 := OtherMisleads(s3);
    es := [Lock, Submit, Mark(0, true), OtherLock(1), Release(0), OtherLabel(1), OtherUnlock(1)];
    ss := [s0, s1, s2, s3, s4, s5, s6, s7];
  }

  lemma OtherMisleads(s: State) returns (s1: State, s2: State, s3: State, s4: State)
    requires Shape(s) && |s.bufs| == 2 && s.arr == [0] && s.bufs[0].stage == Marked(true)
    requires s.bufs[1] == Buffer(true, true, false, true, Out)
    ensures Enabled(s, OtherLock(1)) && s1 == Next(s, OtherLock(1))
    ensures Enabled(s1, Release(0)) && s2 == Next(s1, Release(0))
    ensures Enabled(s2, OtherLabel(1)) && s3 == Next(s2, OtherLabel(1))
    ensures Enabled(s3, OtherUnlock(1)) && s4 == Next(s3, OtherUnlock(1))
    ensures s4.submitted == s.submitted && s4.arr == s.arr && s4.pending == s.pending && s4.unlocks == s.unlocks
    ensures |s4.bufs| == 2 && !Active(s4.bufs[0]) && !Active(s4.bufs[1])
  {
    s1 := Next(s, OtherLock(1));
    s2 := ReleaseOverlooked(s1);
    s3, s4 := OtherEnds(s2);
    hide NoneBusy, IsLast;
  }

  lemma ReleaseOverlooked(s: State) returns (t: State)
    requires Shape(s) && |s.bufs| == 2 && s.arr == [0] && s.bufs[0].stage == Marked(true)
    requires s.bufs[1] == Buffer(true, true, true, true, Out)
    ensures Enabled(s, Release(0)) && t == Next(s, Release(0)) && Shape(t)
    ensures t == s.(bufs := [ToReleased(s.bufs[0]), s.bufs[1]], lost := t.lost)
  {
    t := Next(s, Release(0));
    assert Busy(s.bufs[1]);
  }

  lemma OtherEnds(s: State) returns (s1: State, s2: State)
    requires Shape(s) && |s.bufs| == 2 && s.bufs[0].stage == Released(true) && s.bufs[1] == Buffer(true, true, true, true, Out)
    ensures Enabled(s, OtherLabel(1)) && s1 == Next(s, OtherLabel(1))
    ensures Enabled(s1, OtherUnlock(1)) && s2 == Next(s1, OtherUnlock(1))
    ensures s2 == s.(bufs := [s.bufs[0], Buffer(true, true, false, false, Out)])
  {
    s1 := Next(s, OtherLabel(1));
    s2 := Next(s1, OtherUnlock(1));
    hide NoneBusy, IsLast;
  }

  /** A run of the order in which buffers are submitted as soon as they are locked. */
  ghost predicate EagerRun(ss: seq<State>, es: seq<Event>) {
    && |ss| == |es| + 1
    && forall i :: 0 <= i < |es| ==> Possible(ss[i], es[i]) && ss[i + 1] == Next(ss[i], es[i])
  }

  lemma JoinRuns(ss: seq<State>, es: seq<Event>, ss': seq<State>, es': seq<Event>)
    requires EagerRun(ss, es) && EagerRun(ss', es') && ss'[0] == ss[|es|]
    ensures EagerRun(ss + ss'[1..], es + es')
  {
    hide Possible, Next;
    var all, events := ss + ss'[1..], es + es';
    forall i | 0 <= i < |events| ensures Possible(all[i], events[i]) && all[i + 1] == Next(all[i], events[i]) {
      if i >= |es| {
        var j := i - |es|;
        assert all[i] == ss'[j] && all[i + 1] == ss'[j + 1] && events[i] == es'[j];
      }
    }
  }

  lemma EagerTurn(s: State, i: nat) returns (ss: seq<State>, es: seq<Event>)
    requires Shape(s) && s.submitted == s.locked < |s.arr| && s.arr[s.locked] == i && s.bufs[i] == IDLE
    requires NoneBusy(s.bufs, i) && s.pending == 0
    ensures EagerRun(ss, es) && |es| == 5 && ss[0] == s
    ensures ss[5].bufs == s.bufs[i := Buffer(true, true, false, true, Released(true))] && Shape(ss[5])
    ensures ss[5].locked == ss[5].submitted == s.locked + 1 && ss[5].arr == s.arr
    ensures ss[5].unlocks == s.unlocks + 1 && ss[5].pending == 0
  {
    var s1, s2, s3 := ReadOne(s, i);
    var s4, s5 := EndOne(s3, i);
    es := [Lock, Submit, Mark(i, true), Release(i), Finish];
    ss := [s, s1, s2, s3, s4, s5];
    hide Next, Possible;
  }

  /** Why all buffers are locked before any is submitted: with two buffers and the first submitted at once, its
      completion unlocks the page with the second still to come, and the second's unlocks it again. */
  lemma EagerSubmitUnlocksTwice() returns (ss: seq<State>, es: seq<Event>)
    ensures EagerRun(ss, es) && |es| == 10 && Initial(ss[0])
    ensures ss[5].unlocks == 1 && ss[5].submitted == 1 && |ss[5].arr| == 2 && ss[10].unlocks == 2
  {
    ss, es := EagerTurn(Start([IDLE, IDLE], [0, 1]), 0);
    hide EagerRun;
    var ss', es' := EagerTurn(ss[5], 1);
    JoinRuns(ss, es, ss', es');
    ss, es := ss + ss'[1..], es + es';
  }

  // ---------------------------------------------------------------------------
  // Choosing the buffers to read
  // ---------------------------------------------------------------------------

  /** What get_block did for a buffer. */
  datatype Found = Error | Hole | Block(uptodate: bool)

  /** The buffer would be read but its block could not be looked up. */
  predicate Skipped(b: Buffer, inFile: bool, f: Found) {
    !b.uptodate && !b.mapped && inFile && f.Error?
  }

  /** What the loop makes of all buffers; `arr` lists those to read. */
  predicate Picked(before: seq<Buffer>, after: seq<Buffer>, arr: seq<nat>, found: seq<Found>, inFile: nat) {
    && |before| == |after| == |found|
    && forall i :: 0 <= i < |before| ==> PickedOne(before[i], after[i], i in arr, found[i], i < inFile)
  }

  /** One buffer: it is read if it is mapped, or found, and not up to date; a hole and what lies beyond the end of the
      file read as zeros. */
  predicate PickedOne(b: Buffer, b': Buffer, pick: bool, f: Found, inFile: bool) {
    if b.uptodate || Skipped(b, inFile, f) then !pick && b' == b
    else if !b.mapped && !(inFile && f.Block?) then !pick && b' == b.(uptodate := true)
    else if b.mapped then pick && b' == b
    else pick == !f.uptodate && b' == b.(mapped := true, uptodate := f.uptodate)
  }

  /** A buffer outside the I/O keeps its flag; one past its completion has the completion's. */
  ghost predicate Tracks(s: State, start: State) {
    && |s.bufs| == |start.bufs| && s.arr == start.arr
    && forall i :: 0 <= i < |s.bufs| ==> TracksAt(s.bufs[i], start.bufs[i])
  }

  predicate TracksAt(b: Buffer, start: Buffer) {
    b.uptodate == match b.stage { case Marked(ok) => ok case Released(ok) => ok case _ => start.uptodate }
  }

  lemma NextTracks(s: State, e: Event, start: State)
    requires Inv(s) && Tracks(s, start) && Enabled(s, e)
    ensures Tracks(Next(s, e), start)
  {
    NextElsewhere(s, e);
    if !e.Finish? {
      var i := Target(s, e);
      assert TracksAt(s.bufs[i], start.bufs[i]);
      assert e.Lock? ==> StagedAt(s.bufs[i].stage, s.locked, s.locked, s.submitted);
      assert e.Submit? ==> StagedAt(s.bufs[i].stage, s.submitted, s.locked, s.submitted);
      assert TracksAt(Next(s, e).bufs[i], start.bufs[i]);
    }
  }

  lemma {:induction false} RunTracks(ss: seq<State>, es: seq<Event>, n: nat)
    requires Behaviour(ss, es) && n <= |es|
    ensures Tracks(ss[n], ss[0])
  {
    if n == 0 {
    } else {
      RunTracks(ss, es, n - 1);
      RunInv(ss, es, n - 1);
      hide Tracks, Inv, Next;
      NextTracks(ss[n - 1], es[n - 1], ss[0]);
    }
  }

  /** Theorem: a page read whose completion marks it up to date has every buffer up to date if and only if no
      buffer was skipped because its block could not be looked up. */
  lemma MarkedExactly(before: seq<Buffer>, found: seq<Found>, inFile: nat, ss: seq<State>, es: seq<Event>, n: nat)
    requires Behaviour(ss, es) && n <= |es| && ss[n].marked
    requires Picked(before, ss[0].bufs, ss[0].arr, found, inFile)
    ensures (forall i :: 0 <= i < |ss[n].bufs| ==> ss[n].bufs[i].uptodate) <==>
            (forall i :: 0 <= i < |ss[0].bufs| ==> !Skipped(before[i], i < inFile, found[i]))
  {
    UnlockedOnce(ss, es, n);
    RunTracks(ss, es, n);
    RunInv(ss, es, n);
    var s := ss[n];
    forall i | 0 <= i < |s.bufs| ensures s.bufs[i].uptodate <==> !Skipped(before[i], i < inFile, found[i]) {
      assert PickedOne(before[i], ss[0].bufs[i], i in s.arr, found[i], i < inFile);
      if i in s.arr {
        var k :| 0 <= k < |s.arr| && s.arr[k] == i;
        assert s.bufs[i].stage.Released? && !Failed(s.bufs[i]);
      } else {
        assert s.bufs[i].stage.Out?;
      }
    }
  }

  /** A page of two buffers. The block of the first could not be looked up, the second is read, and the page is marked
      up to date with the first buffer not. */
  lemma MarkedWithGap() returns (before: seq<Buffer>, found: seq<Found>, ss: seq<State>, es: seq<Event>)
    ensures Behaviour(ss, es) && |es| == 5 && Picked(before, ss[0].bufs, ss[0].arr, found, 2)
    ensures ss[5].marked && |ss[5].bufs| == 2 && !ss[5].bufs[0].uptodate
  {
    before, found := [IDLE.(mapped := false), IDLE], [Error, Hole];
    var s0 := Start(before, [1]);
    es := [Lock, Submit, Mark(1, true), Release(1), Finish];
    var s1, s2, s3 := ReadOne(s0, 1);
    var s4, s5 := EndOne(s3, 1);
    ss := [s0, s1, s2, s3, s4, s5];
    assert 0 !in s0.arr && 1 in s0.arr;
    hide Next, Possible;
  }

  /** The same when there is nothing to read and the page is marked at once. */
  lemma NothingToRead(before: seq<Buffer>, after: seq<Buffer>, found: seq<Found>, inFile: nat)
    requires Picked(before, after, [], found, inFile)
    ensures (forall i :: 0 <= i < |after| ==> after[i].uptodate) <==>
            (forall i :: 0 <= i < |before| ==> !Skipped(before[i], i < inFile, found[i]))
  {
    forall i | 0 <= i < |after| ensures after[i].uptodate <==> !Skipped(before[i], i < inFile, found[i]) {
      assert PickedOne(before[i], after[i], false, found[i], i < inFile);
    }
  }

  // ---------------------------------------------------------------------------
  // The page in place
  // ---------------------------------------------------------------------------

  class Page {
    /** The ring through b_this_page, from page->buffers on. */
    const bufs: array<Buffer>
    var error: bool
    var marked: bool
    var unlocks: nat

    constructor (bs: seq<Buffer>)
      ensures fresh(bufs) && bufs[..] == bs && !error && !marked && unlocks == 0
    {
      bufs := new Buffer[|bs|](i requires 0 <= i < |bs| => bs[i]);
      error, marked, unlocks := false, false, 0;
    }

    /** Stage 2 of either submitter. */
    method LockBuffers(arr: seq<nat>)
      requires forall k :: 0 <= k < |arr| ==> arr[k] < bufs.Length
      modifies bufs
      ensures forall i :: 0 <= i < bufs.Length ==>
                bufs[i] == if i in arr then ToLocked(old(bufs[i])) else old(bufs[i])
    {
      var k := 0;
      while k < |arr|
        invariant 0 <= k <= |arr|
        invariant forall i :: 0 <= i < bufs.Length ==>
                    bufs[i] == if i in arr[..k] then ToLocked(old(bufs[i])) else old(bufs[i])
      {
        bufs[arr[k]] := ToLocked(bufs[arr[k]]);
        k := k + 1;
      }
    }

    /** end_buffer_io_async from end to end, with nothing in between. */
    method EndBufferIoAsync(i: nat, ok: bool)
      requires i < bufs.Length && bufs[i].stage.InFlight?
      modifies this, bufs
      ensures bufs[..] == old(bufs[..])[i := ToReleased(ToMarked(old(bufs[i]), ok))]
      ensures error == (old(error) || !ok)
      ensures if NoneBusy(old(bufs[..]), i) then unlocks == old(unlocks) + 1 && marked == (old(marked) || !error)
              else unlocks == old(unlocks) && marked == old(marked)
    {
      bufs[i] := ToMarked(bufs[i], ok);
      if !ok { error := true; }
      ghost var before := bufs[..];
      var done := ReleaseBuffer(i);
      assert forall j :: 0 <= j < |before| && j != i ==> before[j] == old(bufs[..])[j];
      if done {
        if !error { marked := true; }
        unlocks := unlocks + 1;
      }
    }

    /** end_buffer_io_async under page_uptodate_lock: unlocks the buffer and walks the rest of the ring. */
    method ReleaseBuffer(i: nat) returns (done: bool)
      requires i < bufs.Length && bufs[i].stage.Marked?
      modifies bufs
      ensures bufs[..] == old(bufs[..])[i := ToReleased(old(bufs[i]))]
      ensures done <==> NoneBusy(old(bufs[..]), i)
    {
      done := OthersIdle(i);
      bufs[i] := ToReleased(bufs[i]);
    }

    /** The walk over the rest of the ring, which does not look at the buffer it starts from. */
    method OthersIdle(i: nat) returns (idle: bool)
      requires i < bufs.Length
      ensures idle <==> NoneBusy(bufs[..], i)
    {
      var j := Following(i);
      ghost var seen: nat := 1;
      while j != i
        invariant 1 <= seen <= bufs.Length && 0 <= j < bufs.Length
        invariant j == if i + seen < bufs.Length then i + seen else i + seen - bufs.Length
        invariant forall x :: i < x < bufs.Length && x < i + seen ==> !Busy(bufs[x])
        invariant forall x :: 0 <= x < i && x < i + seen - bufs.Length ==> !Busy(bufs[x])
        decreases bufs.Length - seen
      {
        if Busy(bufs[j]) {
          assert Busy(bufs[..][j]);
          return false;
        }
        j, seen := Following(j), seen + 1;
      }
      idle := true;
    }

    /** b_this_page. */
    function Following(i: nat): nat
      requires i < bufs.Length
    {
      if i + 1 == bufs.Length then 0 else i + 1
    }

    /** The loop of block_read_full_page that picks the buffers to read, with `found[i]` what get_block does for
        buffer i and `inFile` the blocks below the end of the file. */
    method PickBuffers(found: seq<Found>, inFile: nat) returns (arr: seq<nat>)
      requires |found| == bufs.Length
      modifies bufs
      ensures forall k :: 0 <= k < |arr| ==> arr[k] < bufs.Length
      ensures forall k, l :: 0 <= k < l < |arr| ==> arr[k] < arr[l]
      ensures Picked(old(bufs[..]), bufs[..], arr, found, inFile)
    {
      arr := [];
      var i := 0;
      while i < bufs.Length
        invariant 0 <= i <= bufs.Length
        invariant forall k :: 0 <= k < |arr| ==> arr[k] < i
        invariant forall k, l :: 0 <= k < l < |arr| ==> arr[k] < arr[l]
        invariant forall x :: i <= x < bufs.Length ==> bufs[x] == old(bufs[x])
        invariant forall x :: 0 <= x < i ==> PickedOne(old(bufs[x]), bufs[x], x in arr, found[x], x < inFile)
      {
        var pick := PickOne(i, found[i], i < inFile);
        if pick { arr := arr + [i]; }
        i := i + 1;
      }
    }

    method PickOne(i: nat, f: Found, inFile: bool) returns (pick: bool)
      requires i < bufs.Length
      modifies bufs
      ensures forall x :: 0 <= x < bufs.Length && x != i ==> bufs[x] == old(bufs[x])
      ensures PickedOne(old(bufs[i]), bufs[i], pick, f, inFile)
    {
      if bufs[i].uptodate { return false; }
      if !bufs[i].mapped {
        if inFile {
          match f {
            case Error => return false;
            case Hole =>
            case Block(uptodate) => bufs[i] := bufs[i].(mapped := true, uptodate := uptodate);
          }
        }
        if !bufs[i].mapped {
          bufs[i] := bufs[i].(uptodate := true);
          return false;
        }
        if bufs[i].uptodate { return false; }
      }
      return true;
    }
  }
}
