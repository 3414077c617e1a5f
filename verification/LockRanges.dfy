/**
  fs/locks.c: what posix_lock_file does to a list in canonical form, that is grouped by owner,
  each group sorted and disjoint, with adjacent locks of one kind merged.
*/
module LockRanges {
  import opened Basics
  import opened RecordLocks

  /** `a` ends before `b` starts, and leaves a gap when both are of one kind. */
  predicate Before(a: Lock, b: Lock) {
    a.end < b.start && (a.kind == b.kind ==> a.end + 1 < b.start)
  }

  predicate Legal(l: Lock) {
    ValidRange(l) && l.kind != Unlock
  }

  ghost predicate Sorted(own: seq<Lock>) {
    && (forall i :: 0 <= i < |own| ==> Legal(own[i]))
    && (forall i, j :: 0 <= i < j < |own| ==> Before(own[i], own[j]))
  }

  ghost predicate AllOf(own: seq<Lock>, o: Owner) {
    forall i :: 0 <= i < |own| ==> own[i].owner == o
  }

  ghost predicate NoneOf(list: seq<Lock>, o: Owner) {
    forall i :: 0 <= i < |list| ==> list[i].owner != o
  }

  /** Wraps at OFFSET_MAX: the request runs to the end of the file and an own lock of its kind
      touches or overlaps it. */
  ghost predicate Hazard(list: seq<Lock>, req: Lock) {
    && req.end == OFFSET_MAX && req.kind != Unlock
    && exists i :: 0 <= i < |list| && list[i].owner == req.owner && list[i].kind == req.kind
                   && list[i].end >= req.start - 1
  }

  // ---------------------------------------------------------------------------
  // The pass over one sorted group
  // ---------------------------------------------------------------------------

  /** own[k] lies before the caller's range. */
  predicate Ahead(l: Lock, caller: Lock) {
    l.end < caller.start && (l.kind == caller.kind ==> l.end + 1 < caller.start)
  }

  /** own[k] lies after the caller's range. */
  predicate Behind(l: Lock, caller: Lock) {
    l.start > caller.end && (l.kind == caller.kind ==> l.start > caller.end + 1)
  }

  /** The list and the pointers when own[..i] is kept, own[i..j] absorbed by the caller, and own[j..] to come. */
  ghost predicate Placed(s: Scan, own: seq<Lock>, rest: seq<Lock>, req: Lock, i: nat, j: nat) {
    && i <= j <= |own|
    && s.todo == own[j..] + rest
    && s.done == own[..i] + (if s.added && req.kind != Unlock then [s.caller] else [])
    && s.at == (if s.added && req.kind != Unlock then i else -1)
    && s.caller.kind == req.kind && s.caller.owner == req.owner
    && (!s.added ==> i == j)
    && (s.added && req.kind != Unlock ==> i < j)
    && (s.left >= 0 && req.kind == Unlock ==> s.added)
    && !s.right
  }

  /** The caller's range then: it covers the request and what it absorbed, and no byte beyond those; what was
      kept lies before it, except that the lock to trim on the left may reach into it. */
  ghost predicate Spans(c: Lock, left: int, own: seq<Lock>, req: Lock, i: nat, j: nat)
    requires i <= j <= |own|
  {
    && ValidRange(c) && c.start <= req.start && req.end <= c.end
    && (i == j || req.kind == Unlock ==> c.start == req.start && c.end == req.end)
    && (forall k :: i <= k < j ==> c.start <= own[k].start && own[k].end <= c.end)
    && (forall b :: Covers(c, b) && !Covers(req, b) ==> Held(own[i..j], req.owner, req.kind, b))
    && (left == -1 ||
        (0 <= left == i - 1 && own[left].kind != req.kind && own[left].start < c.start <= own[left].end <= c.end))
    && (forall k :: 0 <= k < i && k != left ==> Ahead(own[k], c))
    && (c.end == OFFSET_MAX ==>
          forall k :: j <= k < |own| && own[k].kind == req.kind ==> own[k].end < c.start - 1)
  }

  ghost predicate Window(s: Scan, own: seq<Lock>, rest: seq<Lock>, req: Lock, i: nat, j: nat) {
    Placed(s, own, rest, req, i, j) && Spans(s.caller, s.left, own, req, i, j)
  }

  /** A turn that adds the caller has absorbed a lock or found the one to trim on the left. */
  ghost predicate Running(s: Scan, own: seq<Lock>, rest: seq<Lock>, req: Lock, i: nat, j: nat) {
    && Window(s, own, rest, req, i, j)
    && (s.added ==> i < j || (s.left >= 0 && req.kind == Unlock))
  }

  /** The window at the end: nothing of own[j..] is left to absorb, except that own[j] may
      reach beyond the caller's end. */
  ghost predicate Closed(s: Scan, own: seq<Lock>, rest: seq<Lock>, req: Lock, i: nat, j: nat) {
    && Window(s.(right := false, left := if s.left == |s.done| then -1 else s.left), own, rest, req, i, j)
    && (s.right ==> j < |own| && own[j].kind != req.kind && own[j].start <= s.caller.end < own[j].end
                    && (s.left == |s.done| <==> own[j].start < s.caller.start))
    && (s.right && req.kind == Unlock ==> s.added)
    && (!s.right ==> s.left < |s.done|)
    && (!s.right && j < |own| ==> Behind(own[j], s.caller))
  }

  ghost predicate Group(own: seq<Lock>, req: Lock) {
    Sorted(own) && AllOf(own, req.owner) && ValidRange(req)
  }

  lemma SortedAt(own: seq<Lock>, i: nat, j: nat)
    requires Sorted(own) && i <= j < |own|
    ensures Legal(own[i]) && Legal(own[j]) && (i < j ==> Before(own[i], own[j]))
  {
  }

  lemma PassWindow(s: Scan, own: seq<Lock>, rest: seq<Lock>, req: Lock, i: nat, j: nat)
    requires Group(own, req) && WellFormed(s) && Running(s, own, rest, req, i, j) && j < |own|
    requires own[j].end < s.caller.start && (own[j].kind == req.kind ==> own[j].end < s.caller.start - 1)
    ensures Running(Pass(s), own, rest, req, i + 1, j + 1)
  {
    assert s.todo[0] == own[j];
    assert forall k :: 0 <= k < j ==> Before(own[k], own[j]);
    SortedAt(own, i, j);
    assert i == j;
    assert own[..i] + [own[j]] == own[..i + 1];
    assert own[i..j] == [] == own[i + 1..j + 1];
  }

  lemma HeldGrows(own: seq<Lock>, i: nat, j: nat, o: Owner, k: Kind, b: int)
    requires i <= j < |own|
    ensures Held(own[i..j], o, k, b) ==> Held(own[i..j + 1], o, k, b)
    ensures own[j].owner == o && own[j].kind == k && Covers(own[j], b) ==> Held(own[i..j + 1], o, k, b)
  {
    assert own[i..j + 1] == own[i..j] + [own[j]] + [];
    HeldSplit(own[i..j], [own[j]], [], o, k, b);
    if own[j].owner == o && own[j].kind == k && Covers(own[j], b) { assert Held([own[j]], o, k, b); }
  }

  lemma MergeSpans(c: Lock, c': Lock, left: int, own: seq<Lock>, req: Lock, i: nat, j: nat)
    requires Group(own, req) && i <= j < |own| && Spans(c, left, own, req, i, j)
    requires own[j].kind == req.kind == c.kind && c.start - 1 <= own[j].end && own[j].start <= c.end + 1
    requires c'.kind == c.kind && c'.start == Min(own[j].start, c.start) && c'.end == Max(own[j].end, c.end)
    ensures Spans(c', left, own, req, i, j + 1)
  {
    var fl := own[j];
    forall k | j + 1 <= k < |own| ensures Before(fl, own[k]) && Legal(own[k]) { SortedAt(own, j, k); }
    forall k | 0 <= k < j ensures Before(own[k], fl) { SortedAt(own, k, j); }
    assert Legal(fl) && fl.owner == req.owner;
    hide Sorted, Held;
    forall b | Covers(c', b) && !Covers(req, b) ensures Held(own[i..j + 1], req.owner, req.kind, b) {
      HeldGrows(own, i, j, req.owner, req.kind, b);
    }
  }

  lemma MergeWindow(s: Scan, own: seq<Lock>, rest: seq<Lock>, req: Lock, i: nat, j: nat)
    requires Group(own, req) && WellFormed(s) && Running(s, own, rest, req, i, j) && j < |own|
    requires own[j].kind == req.kind && s.caller.start - 1 <= own[j].end && own[j].start <= s.caller.end + 1
    ensures Running(Merge(s), own, rest, req, i, j + 1)
  {
    assert s.todo[0] == own[j] && Legal(own[j]) && own[j].owner == req.owner;
    MergeSpans(s.caller, Merge(s).caller, s.left, own, req, i, j);
    hide Spans, Group;
  }

  lemma ReplaceWindow(s: Scan, own: seq<Lock>, rest: seq<Lock>, req: Lock, i: nat, j: nat)
    requires Group(own, req) && WellFormed(s) && Running(s, own, rest, req, i, j) && j < |own|
    requires own[j].kind != req.kind && s.caller.start <= own[j].start && own[j].end <= s.caller.end
    ensures Running(Replace(s.(added := s.added || req.kind == Unlock)), own, rest, req, i, j + 1)
  {
    var fl := own[j];
    assert s.todo[0] == fl;
    forall b | Covers(s.caller, b) && !Covers(req, b)
      ensures Held(own[i..j + 1], req.owner, req.kind, b)
    {
      HeldGrows(own, i, j, req.owner, req.kind, b);
    }
  }

  lemma LeftWindow(s: Scan, own: seq<Lock>, rest: seq<Lock>, req: Lock, i: nat, j: nat)
    requires Group(own, req) && WellFormed(s) && Running(s, own, rest, req, i, j) && j < |own|
    requires own[j].kind != req.kind && own[j].start < s.caller.start <= own[j].end <= s.caller.end
    ensures i == j && s.left == -1 && !s.added
    ensures Running(Pass(s.(added := s.added || req.kind == Unlock, left := |s.done|)), own, rest, req, i + 1, j + 1)
  {
    assert s.todo[0] == own[j];
    SortedAt(own, i, j);
    assert i == j;
    assert own[..i] + [own[j]] == own[..i + 1];
    assert own[i..j] == [] == own[i + 1..j + 1];
  }

  lemma TurnWindow(s: Scan, own: seq<Lock>, rest: seq<Lock>, req: Lock, i: nat, j: nat) returns (i': nat)
    requires Group(own, req) && WellFormed(s) && Running(s, own, rest, req, i, j) && j < |own|
    ensures Turn(s).1 ==> Running(Turn(s).0, own, rest, req, i', j + 1)
    ensures !Turn(s).1 ==> Closed(Turn(s).0, own, rest, req, i', j)
  {
    var fl := own[j];
    assert s.todo[0] == fl;
    i' := i;
    if s.caller.kind == fl.kind {
      if fl.end < s.caller.start - 1 { PassWindow(s, own, rest, req, i, j); i' := i + 1; }
      else if fl.start <= PlusOne(s.caller.end) { MergeWindow(s, own, rest, req, i, j); }
    } else if fl.end < s.caller.start {
      PassWindow(s, own, rest, req, i, j);
      i' := i + 1;
    } else if fl.start <= s.caller.end && fl.end <= s.caller.end {
      if fl.start >= s.caller.start { ReplaceWindow(s, own, rest, req, i, j); }
      else { LeftWindow(s, own, rest, req, i, j); i' := i + 1; }
    }
  }

  lemma WindowEnds(s: Scan, own: seq<Lock>, rest: seq<Lock>, req: Lock, i: nat)
    requires NoneOf(rest, req.owner) && WellFormed(s) && Running(s, own, rest, req, i, |own|)
    ensures Run(s) == s && Closed(s, own, rest, req, i, |own|)
  {
    assert s.(right := false, left := if s.left == |s.done| then -1 else s.left) == s;
  }

  lemma WindowFront(s: Scan, own: seq<Lock>, rest: seq<Lock>, req: Lock, i: nat, j: nat)
    requires AllOf(own, req.owner) && Running(s, own, rest, req, i, j) && j < |own|
    ensures s.todo != [] && s.todo[0].owner == s.caller.owner
  {
  }

  lemma {:induction false} RunWindow(s: Scan, own: seq<Lock>, rest: seq<Lock>, req: Lock, j: nat)
    requires Group(own, req) && NoneOf(rest, req.owner)
    requires j <= |own| && WellFormed(s) && exists i: nat :: Running(s, own, rest, req, i, j)
    ensures exists i: nat, j: nat :: Closed(Run(s), own, rest, req, i, j)
    decreases |own| - j
  {
    hide Running, Closed, Turn;
    var i: nat :| Running(s, own, rest, req, i, j);
    if j == |own| {
      WindowEnds(s, own, rest, req, i);
    } else {
      WindowFront(s, own, rest, req, i, j);
      var i' := TurnWindow(s, own, rest, req, i, j);
      if Turn(s).1 {
        assert Run(s) == Run(Turn(s).0);
        RunWindow(Turn(s).0, own, rest, req, j + 1);
      } else {
        assert Run(s) == Turn(s).0;
      }
    }
  }

  /** The group after the edit in three parts: before, of, and after the caller's range `c`. */
  ghost predicate Parts(own: seq<Lock>, req: Lock, c: Lock, a: seq<Lock>, m: seq<Lock>, z: seq<Lock>) {
    && AllOf(a, req.owner) && AllOf(m, req.owner) && AllOf(z, req.owner)
    && Sorted(a) && Sorted(z)
    && ValidRange(c) && c.kind == req.kind && c.start <= req.start && req.end <= c.end
    && (forall k :: 0 <= k < |a| ==> Ahead(a[k], c))
    && (forall k :: 0 <= k < |z| ==> Behind(z[k], c))
    && (if req.kind == Unlock then m == [] && c.start == req.start && c.end == req.end
        else |m| == 1 && m[0].kind == c.kind && m[0].start == c.start && m[0].end == c.end)
    && (forall b :: Covers(c, b) && !Covers(req, b) ==> Held(own, req.owner, req.kind, b))
    && (forall k, b :: !Covers(c, b) ==>
          (Held(a, req.owner, k, b) || Held(z, req.owner, k, b) <==> Held(own, req.owner, k, b)))
  }

  lemma PartsSorted(own: seq<Lock>, req: Lock, c: Lock, a: seq<Lock>, m: seq<Lock>, z: seq<Lock>)
    requires Parts(own, req, c, a, m, z)
    ensures Sorted(a + m + z)
  {
    forall i, j | 0 <= i < |a| && 0 <= j < |z| ensures Before(a[i], z[j]) {
      assert Ahead(a[i], c) && Behind(z[j], c);
    }
  }

  /** The owner's bytes after the edit. */
  ghost predicate Overwritten(before: seq<Lock>, after: seq<Lock>, req: Lock) {
    forall k, b {:trigger Held(after, req.owner, k, b)} :: k != Unlock ==>
      (Held(after, req.owner, k, b) <==>
         if Covers(req, b) then k == req.kind else Held(before, req.owner, k, b))
  }

  lemma OneKindPerByte(own: seq<Lock>, o: Owner, k: Kind, k': Kind, b: int)
    requires Sorted(own) && Held(own, o, k, b) && Held(own, o, k', b)
    ensures k == k'
  {
    var i :| 0 <= i < |own| && own[i].owner == o && own[i].kind == k && Covers(own[i], b);
    var j :| 0 <= j < |own| && own[j].owner == o && own[j].kind == k' && Covers(own[j], b);
    if i <= j { SortedAt(own, i, j); } else { SortedAt(own, j, i); }
  }

  lemma PartsOverwritten(own: seq<Lock>, req: Lock, c: Lock, a: seq<Lock>, m: seq<Lock>, z: seq<Lock>)
    requires Group(own, req) && Parts(own, req, c, a, m, z)
    ensures Overwritten(own, a + m + z, req)
  {
    var o := req.owner;
    forall k, b | k != Unlock
      ensures Held(a + m + z, o, k, b) <==> if Covers(req, b) then k == req.kind else Held(own, o, k, b)
    {
      HeldSplit(a, m, z, o, k, b);
      if Covers(c, b) {
        assert !Held(a, o, k, b) && !Held(z, o, k, b);
        assert Held(m, o, k, b) <==> k == req.kind by {
          if req.kind != Unlock { assert Covers(m[0], b) && m[0].owner == o; }
        }
        if !Covers(req, b) && Held(own, o, k, b) { OneKindPerByte(own, o, k, req.kind, b); }
      } else {
        assert !Held(m, o, k, b);
      }
    }
  }

  // The parts of the group in a closed window.

  ghost function KeptLeft(s: Scan, own: seq<Lock>, i: nat, j: nat, id2: nat): seq<Lock>
    requires i <= j <= |own| && (s.right ==> j < |own|)
  {
    if s.right && s.left == |s.done| then own[..i] + [own[j].(id := id2, end := s.caller.start - 1)]
    else if 0 <= s.left == i - 1 then own[..i][i - 1 := own[i - 1].(end := s.caller.start - 1)]
    else own[..i]
  }

  ghost function KeptRight(s: Scan, own: seq<Lock>, j: nat): seq<Lock>
    requires j <= |own| && (s.right ==> j < |own|)
  {
    if s.right then own[j..][0 := own[j].(start := s.caller.end + 1)] else own[j..]
  }

  lemma LeftPart(s: Scan, own: seq<Lock>, rest: seq<Lock>, req: Lock, i: nat, j: nat, id2: nat)
    requires Group(own, req) && Closed(s, own, rest, req, i, j)
    ensures Sorted(KeptLeft(s, own, i, j, id2)) && AllOf(KeptLeft(s, own, i, j, id2), req.owner)
    ensures forall k :: 0 <= k < |KeptLeft(s, own, i, j, id2)| ==> Ahead(KeptLeft(s, own, i, j, id2)[k], s.caller)
  {
    if j < |own| { SortedAt(own, i, j); }
  }

  lemma RightPart(s: Scan, own: seq<Lock>, rest: seq<Lock>, req: Lock, i: nat, j: nat)
    requires Group(own, req) && Closed(s, own, rest, req, i, j)
    ensures Sorted(KeptRight(s, own, j)) && AllOf(KeptRight(s, own, j), req.owner)
    ensures forall k :: 0 <= k < |KeptRight(s, own, j)| ==> Behind(KeptRight(s, own, j)[k], s.caller)
  {
    forall k | j < k < |own| ensures Before(own[j], own[k]) && Legal(own[k]) { SortedAt(own, j, k); }
    assert j < |own| ==> Legal(own[j]);
    hide Held, Spans;
    var z := KeptRight(s, own, j);
    assert forall k :: 0 < k < |z| ==> z[k] == own[j + k];
    assert z != [] ==> Behind(z[0], s.caller) && Legal(z[0]) && z[0].end == own[j].end && z[0].kind == own[j].kind;
  }

  lemma OutsideKept(s: Scan, own: seq<Lock>, rest: seq<Lock>, req: Lock, i: nat, j: nat, k: Kind, b: int, id2: nat)
    requires Group(own, req) && Closed(s, own, rest, req, i, j) && !Covers(s.caller, b)
    requires Held(own, req.owner, k, b)
    ensures Held(KeptLeft(s, own, i, j, id2), req.owner, k, b) || Held(KeptRight(s, own, j), req.owner, k, b)
  {
    var a, z := KeptLeft(s, own, i, j, id2), KeptRight(s, own, j);
    var x :| 0 <= x < |own| && own[x].owner == req.owner && own[x].kind == k && Covers(own[x], b);
    assert !(i <= x < j);
    if x < i {
      assert Covers(a[x], b) && a[x].owner == req.owner && a[x].kind == k;
    } else if b > s.caller.end {
      assert Covers(z[x - j], b) && z[x - j].owner == req.owner && z[x - j].kind == k;
    } else {
      SortedAt(own, j, x);
      assert x == j && s.right;
      assert Covers(a[i], b) && a[i].owner == req.owner && a[i].kind == k;
    }
  }

  lemma OutsideLeft(s: Scan, own: seq<Lock>, rest: seq<Lock>, req: Lock, i: nat, j: nat, k: Kind, b: int, id2: nat)
    requires Group(own, req) && Closed(s, own, rest, req, i, j)
    requires Held(KeptLeft(s, own, i, j, id2), req.owner, k, b)
    ensures Held(own, req.owner, k, b)
  {
    var a := KeptLeft(s, own, i, j, id2);
    var x :| 0 <= x < |a| && a[x].owner == req.owner && a[x].kind == k && Covers(a[x], b);
    var y := if x < i then x else j;
    assert Covers(own[y], b) && own[y].kind == k && own[y].owner == req.owner;
  }

  lemma OutsideRight(s: Scan, own: seq<Lock>, rest: seq<Lock>, req: Lock, i: nat, j: nat, k: Kind, b: int)
    requires Group(own, req) && Closed(s, own, rest, req, i, j)
    requires Held(KeptRight(s, own, j), req.owner, k, b)
    ensures Held(own, req.owner, k, b)
  {
    var z := KeptRight(s, own, j);
    var x :| 0 <= x < |z| && z[x].owner == req.owner && z[x].kind == k && Covers(z[x], b);
    assert Covers(own[j + x], b) && own[j + x].kind == k && own[j + x].owner == req.owner;
  }

  ghost function Middle(s: Scan, id: nat): seq<Lock> {
    if s.caller.kind == Unlock then [] else if s.added then [s.caller] else [s.caller.(id := id)]
  }

  lemma TrimmedDone(s: Scan, own: seq<Lock>, rest: seq<Lock>, req: Lock, i: nat, j: nat, id: nat, id2: nat)
    requires Ended(s) && Closed(s, own, rest, req, i, j) && s.left < |s.done|
    requires s.added || req.kind != Unlock
    ensures TrimLeft(s) + (if s.added then [] else [s.caller.(id := id)]) == KeptLeft(s, own, i, j, id2) + Middle(s, id)
  {
  }

  lemma SplitDone(s: Scan, own: seq<Lock>, rest: seq<Lock>, req: Lock, i: nat, j: nat)
    requires Group(own, req) && Closed(s, own, rest, req, i, j) && s.left == |s.done|
    ensures s.done == own[..i] && (s.added <==> req.kind == Unlock)
  {
    SortedAt(own, i, j);
  }

  lemma RightTodo(s: Scan, own: seq<Lock>, rest: seq<Lock>, req: Lock, i: nat, j: nat)
    requires Closed(s, own, rest, req, i, j)
    ensures if s.right then s.todo != [] && s.todo[0] == own[j] &&
                            [own[j].(start := s.caller.end + 1)] + s.todo[1..] == KeptRight(s, own, j) + rest
            else s.todo == KeptRight(s, own, j) + rest
  {
  }

  lemma FinishShape(s: Scan, own: seq<Lock>, rest: seq<Lock>, req: Lock, i: nat, j: nat, id: nat, id2: nat)
    requires Group(own, req) && Ended(s) && Closed(s, own, rest, req, i, j)
    ensures Finish(s, id, id2).list == KeptLeft(s, own, i, j, id2) + Middle(s, id) + (KeptRight(s, own, j) + rest)
  {
    ClosedFacts(s, own, rest, req, i, j);
    hide Closed, KeptRight, Group;
    RightTodo(s, own, rest, req, i, j);
    if s.left == |s.done| {
      SplitDone(s, own, rest, req, i, j);
      var split := s.todo[0].(id := id2, end := s.caller.start - 1);
      var inserted := if s.added then [] else [s.caller.(id := id)];
      assert KeptLeft(s, own, i, j, id2) == s.done + [split] && Middle(s, id) == inserted && TrimLeft(s) == s.done;
      hide KeptLeft, Middle, TrimLeft;
      Associate(s.done + [split] + inserted, [s.todo[0].(start := s.caller.end + 1)], s.todo[1..]);
    } else if s.added || req.kind != Unlock {
      hide KeptLeft, Middle, TrimLeft;
      TrimmedDone(s, own, rest, req, i, j, id, id2);
      if s.right {
        var inserted := if s.added then [] else [s.caller.(id := id)];
        Associate(TrimLeft(s) + inserted, [s.todo[0].(start := s.caller.end + 1)], s.todo[1..]);
        assert TrimLeft(s) + [] + inserted == TrimLeft(s) + inserted;
      }
    }
  }

  lemma Associate(a: seq<Lock>, b: seq<Lock>, c: seq<Lock>)
    ensures a + b + c == a + (b + c)
  {
  }

  lemma ClosedFacts(s: Scan, own: seq<Lock>, rest: seq<Lock>, req: Lock, i: nat, j: nat)
    requires Closed(s, own, rest, req, i, j)
    ensures i <= j <= |own| && (s.right ==> j < |own|)
    ensures s.caller.kind == req.kind && s.caller.owner == req.owner && ValidRange(s.caller)
    ensures s.caller.start <= req.start && req.end <= s.caller.end
    ensures req.kind == Unlock ==> s.caller.start == req.start && s.caller.end == req.end
    ensures req.kind == Unlock && !s.added ==> !s.right && s.left == -1 && s.done == own[..i]
    ensures forall b :: Covers(s.caller, b) && !Covers(req, b) ==> Held(own[i..j], req.owner, req.kind, b)
  {
  }

  lemma ClosedParts(s: Scan, own: seq<Lock>, rest: seq<Lock>, req: Lock, i: nat, j: nat, id: nat, id2: nat)
    requires Group(own, req) && Closed(s, own, rest, req, i, j)
    ensures i <= j <= |own| && (s.right ==> j < |own|)
    ensures Parts(own, req, s.caller, KeptLeft(s, own, i, j, id2), Middle(s, id), KeptRight(s, own, j))
  {
    ClosedFacts(s, own, rest, req, i, j);
    assert AllOf(Middle(s, id), req.owner);
    hide Closed, KeptLeft, KeptRight, Group, Held, Sorted, AllOf;
    LeftPart(s, own, rest, req, i, j, id2);
    RightPart(s, own, rest, req, i, j);
    forall k, b | !Covers(s.caller, b)
      ensures Held(KeptLeft(s, own, i, j, id2), req.owner, k, b) || Held(KeptRight(s, own, j), req.owner, k, b)
              <==> Held(own, req.owner, k, b)
    {
      if Held(own, req.owner, k, b) { OutsideKept(s, own, rest, req, i, j, k, b, id2); }
      if Held(KeptLeft(s, own, i, j, id2), req.owner, k, b) { OutsideLeft(s, own, rest, req, i, j, k, b, id2); }
      if Held(KeptRight(s, own, j), req.owner, k, b) { OutsideRight(s, own, rest, req, i, j, k, b); }
    }
    forall b | Covers(s.caller, b) && !Covers(req, b) ensures Held(own, req.owner, req.kind, b) {
      HeldWithin(own, i, j, req.owner, req.kind, b);
    }
  }

  lemma HeldWithin(own: seq<Lock>, i: nat, j: nat, o: Owner, k: Kind, b: int)
    requires i <= j <= |own| && Held(own[i..j], o, k, b)
    ensures Held(own, o, k, b)
  {
    var x :| 0 <= x < |own[i..j]| && own[i..j][x].owner == o && own[i..j][x].kind == k && Covers(own[i..j][x], b);
    assert own[i + x] == own[i..j][x];
  }

  lemma BeginRunning(own: seq<Lock>, rest: seq<Lock>, req: Lock)
    requires Group(own, req) && !Hazard(own, req)
    ensures Running(Begin(own + rest, req), own, rest, req, 0, 0)
  {
    assert own[0..] == own && own[0..0] == [];
  }

  lemma EditedParts(own: seq<Lock>, rest: seq<Lock>, req: Lock, id: nat, id2: nat)
    returns (c: Lock, a: seq<Lock>, m: seq<Lock>, z: seq<Lock>)
    requires Group(own, req) && NoneOf(rest, req.owner) && NoUnlock(own + rest) && !Hazard(own, req)
    ensures Finish(Run(Begin(own + rest, req)), id, id2).list == a + m + z + rest
    ensures Parts(own, req, c, a, m, z)
  {
    hide Closed, Group, Sorted, Running, KeptLeft, Middle, KeptRight, Finish, Hazard, Parts;
    var s := Begin(own + rest, req);
    BeginRunning(own, rest, req);
    RunWindow(s, own, rest, req, 0);
    var r := Run(s);
    var i: nat, j: nat :| Closed(r, own, rest, req, i, j);
    ClosedParts(r, own, rest, req, i, j, id, id2);
    FinishShape(r, own, rest, req, i, j, id, id2);
    c, a, m, z := r.caller, KeptLeft(r, own, i, j, id2), Middle(r, id), KeptRight(r, own, j);
    assert a + m + z + rest == a + m + (z + rest);
  }

  /** One sorted group: the pass leaves it sorted and overwrites exactly the requested bytes. */
  lemma GroupEdited(own: seq<Lock>, rest: seq<Lock>, req: Lock, id: nat, id2: nat) returns (own': seq<Lock>)
    requires Group(own, req) && NoneOf(rest, req.owner) && NoUnlock(own + rest) && !Hazard(own, req)
    ensures Finish(Run(Begin(own + rest, req)), id, id2).list == own' + rest
    ensures Sorted(own') && AllOf(own', req.owner) && Overwritten(own, own', req)
  {
    hide Hazard, Finish, Run, Begin, Sorted, Overwritten;
    var c, a, m, z := EditedParts(own, rest, req, id, id2);
    PartsSorted(own, req, c, a, m, z);
    PartsOverwritten(own, req, c, a, m, z);
    own' := a + m + z;
  }

  // ---------------------------------------------------------------------------
  // The whole list
  // ---------------------------------------------------------------------------

  /** Grouped by owner, each group sorted, disjoint and merged. */
  ghost predicate Canonical(list: seq<Lock>) {
    && (forall i :: 0 <= i < |list| ==> Legal(list[i]))
    && (forall i, j :: 0 <= i < j < |list| && list[i].owner == list[j].owner ==> Before(list[i], list[j]))
    && (forall i, j, k :: 0 <= i < j < k < |list| && list[i].owner == list[k].owner ==>
                          list[j].owner == list[i].owner)
  }

  /** The first lock from `n` on with another owner. */
  ghost function GroupEnd(list: seq<Lock>, o: Owner, n: nat): (e: nat)
    requires n <= |list|
    ensures n <= e <= |list| && (e < |list| ==> list[e].owner != o)
    ensures forall k :: n <= k < e ==> list[k].owner == o
    decreases |list| - n
  {
    if n == |list| || list[n].owner != o then n else GroupEnd(list, o, n + 1)
  }

  lemma GroupApart(list: seq<Lock>, o: Owner, n: nat, e: nat)
    requires Canonical(list) && n == SkipOthers(list, o) && e == GroupEnd(list, o, n)
    ensures NoneOf(list[..n], o) && NoneOf(list[e..], o) && Sorted(list[n..e]) && AllOf(list[n..e], o) && (n == e ==> e == |list|)
    ensures forall i, k :: 0 <= i < n && e <= k < |list| ==> list[i].owner != list[k].owner
  {
    assert n < e ==> list[n].owner == o;
  }

  lemma Regroup(list: seq<Lock>, n: nat, e: nat, own': seq<Lock>, o: Owner)
    requires Canonical(list) && n <= e <= |list| && NoneOf(list[..n], o) && NoneOf(list[e..], o)
    requires forall i, k :: 0 <= i < n && e <= k < |list| ==> list[i].owner != list[k].owner
    requires Sorted(own') && AllOf(own', o)
    ensures Canonical(list[..n] + own' + list[e..])
  {
    var l' := list[..n] + own' + list[e..];
    var d := e - n - |own'|;
    assert forall i :: 0 <= i < n ==> l'[i] == list[i] && l'[i].owner != o;
    assert forall i :: n <= i < n + |own'| ==> l'[i] == own'[i - n];
    assert forall i :: n + |own'| <= i < |l'| ==> l'[i] == list[i + d] && l'[i] == list[e..][i + d - e];
  }

  lemma HazardInGroup(list: seq<Lock>, n: nat, e: nat, req: Lock)
    requires n <= e <= |list| && Hazard(list[n..e], req)
    ensures Hazard(list, req)
  {
    var own := list[n..e];
    var i :| 0 <= i < |own| && own[i].owner == req.owner && own[i].kind == req.kind && own[i].end >= req.start - 1;
    assert list[n + i] == own[i];
  }

  lemma OverwrittenAround(pre: seq<Lock>, own: seq<Lock>, own': seq<Lock>, rest: seq<Lock>, req: Lock)
    requires NoneOf(pre, req.owner) && NoneOf(rest, req.owner) && Overwritten(own, own', req)
    ensures Overwritten(pre + own + rest, pre + own' + rest, req)
  {
    forall k, b | k != Unlock
      ensures Held(pre + own' + rest, req.owner, k, b) <==>
              if Covers(req, b) then k == req.kind else Held(pre + own + rest, req.owner, k, b)
    {
      HeldSplit(pre, own', rest, req.owner, k, b);
      HeldSplit(pre, own, rest, req.owner, k, b);
    }
  }

  lemma NoUnlockFrom(list: seq<Lock>, n: nat)
    requires NoUnlock(list) && n <= |list|
    ensures NoUnlock(list[n..])
  {
  }

  lemma SplicedGroup(list: seq<Lock>, req: Lock, n: nat, e: nat, own': seq<Lock>)
    requires Canonical(list) && n <= e <= |list| && NoneOf(list[..n], req.owner) && NoneOf(list[e..], req.owner)
    requires forall i, k :: 0 <= i < n && e <= k < |list| ==> list[i].owner != list[k].owner
    requires Sorted(own') && AllOf(own', req.owner) && Overwritten(list[n..e], own', req)
    ensures Canonical(list[..n] + (own' + list[e..]))
    ensures Overwritten(list, list[..n] + (own' + list[e..]), req)
  {
    hide Canonical, Overwritten, Sorted;
    Regroup(list, n, e, own', req.owner);
    OverwrittenAround(list[..n], list[n..e], own', list[e..], req);
    assert list == list[..n] + list[n..e] + list[e..];
    assert list[..n] + own' + list[e..] == list[..n] + (own' + list[e..]);
  }

  /** Theorem: on a canonical list, and unless the request is the hazard above, posix_lock_file
      overwrites exactly the requested bytes of the owner and keeps the list canonical. */
  lemma SetLockCanonical(list: seq<Lock>, req: Lock, id: nat, id2: nat)
    requires Canonical(list) && NoUnlock(list) && ValidRange(req) && !Hazard(list, req)
    ensures Canonical(SetLock(list, req, id, id2).list)
    ensures Overwritten(list, SetLock(list, req, id, id2).list, req)
  {
    var o := req.owner;
    var n := SkipOthers(list, o);
    var e := GroupEnd(list, o, n);
    GroupApart(list, o, n, e);
    hide Canonical, Hazard, Finish, Run, Overwritten, Sorted, NoUnlock, SkipOthers, GroupEnd, AllOf, NoneOf;
    NoUnlockFrom(list, n);
    assert list[n..] == list[n..e] + list[e..];
    if Hazard(list[n..e], req) { HazardInGroup(list, n, e, req); }
    var own' := GroupEdited(list[n..e], list[e..], req, id, id2);
    SplicedGroup(list, req, n, e, own');
  }

  // ---------------------------------------------------------------------------
  // The wrapped comparison: exactly when the list stops being canonical
  // ---------------------------------------------------------------------------

  /** The pass is on its way to todo[m], the first own lock of the request's kind that touches it. */
  ghost predicate Doomed(s: Scan, req: Lock, m: nat) {
    && WellFormed(s) && m < |s.todo|
    && (forall k :: 0 <= k <= m ==> s.todo[k].owner == req.owner && Legal(s.todo[k]))
    && s.todo[m].kind == req.kind && s.todo[m].end >= req.start - 1
    && (forall k :: 0 <= k < m && s.todo[k].kind == req.kind ==> s.todo[k].end < req.start - 1)
    && s.caller.owner == req.owner && s.caller.kind == req.kind
    && s.caller.start == req.start && s.caller.end == OFFSET_MAX
    && (s.added ==> 0 <= s.at < |s.done| && s.done[s.at] == s.caller)
    && (0 <= s.left ==> s.done[s.left].kind != req.kind)
  }

  lemma {:induction false} DoomedRun(s: Scan, req: Lock, m: nat)
    requires Doomed(s, req, m) && ValidRange(req) && req.end == OFFSET_MAX && req.kind != Unlock
    ensures Doomed(Run(s), req, 0) && !Run(s).right
    decreases m
  {
    if m == 0 {
    } else {
      assert s.todo[0].owner == s.caller.owner && Legal(s.todo[0]);
      assert Turn(s).1;
      assert forall k :: 0 <= k < m ==> s.todo[1..][k] == s.todo[k + 1];
      DoomedRun(Turn(s).0, req, m - 1);
    }
  }

  /** Two locks of one owner in the wrong order. */
  ghost predicate Misplaced(list: seq<Lock>) {
    exists x, y :: 0 <= x < y < |list| && list[x].owner == list[y].owner && !Before(list[x], list[y])
  }

  lemma DoomedFinish(s: Scan, req: Lock, id: nat, id2: nat)
    requires Doomed(s, req, 0) && !s.right && req.kind != Unlock
    ensures Misplaced(Finish(s, id, id2).list)
  {
    var l := Finish(s, id, id2).list;
    var x := if s.added then s.at else |s.done|;
    var y := |l| - |s.todo|;
    assert l[x].end == OFFSET_MAX && l[y] == s.todo[0];
    assert !Before(l[x], l[y]);
  }

  lemma FirstTouching(own: seq<Lock>, req: Lock) returns (m: nat)
    requires Hazard(own, req)
    ensures m < |own| && own[m].owner == req.owner && own[m].kind == req.kind && own[m].end >= req.start - 1
    ensures forall k :: 0 <= k < m && own[k].owner == req.owner && own[k].kind == req.kind ==>
                        own[k].end < req.start - 1
  {
    m := 0;
    while !(own[m].owner == req.owner && own[m].kind == req.kind && own[m].end >= req.start - 1)
      invariant 0 <= m < |own|
      invariant exists i :: m <= i < |own| && own[i].owner == req.owner && own[i].kind == req.kind
                            && own[i].end >= req.start - 1
      invariant forall k :: 0 <= k < m && own[k].owner == req.owner && own[k].kind == req.kind ==>
                            own[k].end < req.start - 1
      decreases |own| - m
    {
      m := m + 1;
    }
  }

  lemma SameGroup(list: seq<Lock>, n: nat, m: nat)
    requires Canonical(list) && n <= m < |list| && list[n].owner == list[m].owner
    ensures forall k :: n <= k <= m ==> list[k].owner == list[n].owner && Legal(list[k])
  {
  }

  lemma CanonicalFrom(list: seq<Lock>, n: nat)
    requires Canonical(list) && n <= |list|
    ensures Canonical(list[n..])
  {
  }

  lemma HazardFrom(list: seq<Lock>, req: Lock, n: nat)
    requires Hazard(list, req) && n == SkipOthers(list, req.owner)
    ensures Hazard(list[n..], req) && list[n..][0].owner == req.owner
  {
    var i :| 0 <= i < |list| && list[i].owner == req.owner && list[i].kind == req.kind
             && list[i].end >= req.start - 1;
    assert list[n..][i - n] == list[i];
  }

  lemma MisplacedAfter(pre: seq<Lock>, tail: seq<Lock>)
    requires Misplaced(tail)
    ensures !Canonical(pre + tail)
  {
    var x, y :| 0 <= x < y < |tail| && tail[x].owner == tail[y].owner && !Before(tail[x], tail[y]);
    assert (pre + tail)[|pre| + x] == tail[x] && (pre + tail)[|pre| + y] == tail[y];
  }

  lemma HazardMisplaces(list: seq<Lock>, req: Lock, id: nat, id2: nat)
    requires Canonical(list) && NoUnlock(list) && ValidRange(req) && Hazard(list, req)
    ensures !Canonical(SetLock(list, req, id, id2).list)
  {
    var n := SkipOthers(list, req.owner);
    HazardFrom(list, req, n);
    CanonicalFrom(list, n);
    NoUnlockFrom(list, n);
    hide Canonical, SkipOthers, Finish, Misplaced;
    var base := list[n..];
    var m := FirstTouching(base, req);
    SameGroup(base, 0, m);
    var s := Begin(base, req);
    DoomedRun(s, req, m);
    DoomedFinish(Run(s), req, id, id2);
    MisplacedAfter(list[..n], Finish(Run(s), id, id2).list);
  }

  /** Theorem: the list stays canonical exactly when the request is not the hazard. */
  lemma CanonicalExactly(list: seq<Lock>, req: Lock, id: nat, id2: nat)
    requires Canonical(list) && NoUnlock(list) && ValidRange(req)
    ensures Canonical(SetLock(list, req, id, id2).list) <==> !Hazard(list, req)
  {
    if Hazard(list, req) { HazardMisplaces(list, req, id, id2); } else { SetLockCanonical(list, req, id, id2); }
  }

  /** A concrete hazard: with a read lock on [0, 5] and a write lock on [10, 20], asking for a
      read lock from byte 3 to the end of the file leaves byte 12 under both kinds. */
  lemma HazardWitness()
    ensures var o := Owner(1, 1);
            var list := [Lock(0, o, Read, 0, 5), Lock(1, o, Write, 10, 20)];
            var after := SetLock(list, Lock(9, o, Read, 3, OFFSET_MAX), 2, 3).list;
            Canonical(list) && Held(after, o, Read, 12) && Held(after, o, Write, 12)
  {
    var o := Owner(1, 1);
    var list := [Lock(0, o, Read, 0, 5), Lock(1, o, Write, 10, 20)];
    var req := Lock(9, o, Read, 3, OFFSET_MAX);
    assert SkipOthers(list, o) == 0 && list[0..] == list;
    assert Run(Begin(list, req)) == Begin(list, req);
    var after := SetLock(list, req, 2, 3).list;
    assert after[0].kind == Read && after[0].start == 3 && after[2] == list[1];
    assert Covers(after[0], 12) && Covers(after[2], 12);
  }
}
