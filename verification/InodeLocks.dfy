/**
  fs/locks.c: the lock list of an inode, edited in place as posix_lock_file does.
*/
module InodeLocks {
  import opened Basics
  import opened RecordLocks
  import opened LockRanges

  /** `l` is the first lock of the list that satisfies the test. */
  ghost predicate FirstSuch(list: seq<Lock>, test: Lock -> bool, l: Option<Lock>) {
    match l
    case None => forall i :: 0 <= i < |list| ==> !test(list[i])
    case Some(c) => exists i :: 0 <= i < |list| && list[i] == c && test(c) && forall k :: 0 <= k < i ==> !test(list[k])
  }

  class Inode {
    /** i_flock; only the POSIX locks. */
    var flock: seq<Lock>

    constructor ()
      ensures flock == []
    {
      flock := [];
    }

    /** The search of posix_lock_file for the first lock that blocks the caller. */
    method FindBlocker(caller: Lock) returns (fl: Option<Lock>)
      ensures FirstSuch(flock, sys => Conflict(caller, sys), fl)
      ensures fl.None? <==> Clear(flock, caller)
    {
      var i := 0;
      while i < |flock|
        invariant 0 <= i <= |flock|
        invariant forall k :: 0 <= k < i ==> !Conflict(caller, flock[k])
      {
        if Conflict(caller, flock[i]) { return Some(flock[i]); }
        i := i + 1;
      }
      fl := None;
    }

    /** posix_test_lock; it passes the two locks to posix_locks_conflict the other way round. */
    method TestLock(fl: Lock) returns (cfl: Option<Lock>)
      requires NoUnlock(flock)
      ensures FirstSuch(flock, sys => Conflict(sys, fl), cfl)
      ensures fl.kind != Unlock ==> FirstSuch(flock, sys => Conflict(fl, sys), cfl) && (cfl.None? <==> Clear(flock, fl))
    {
      var i := 0;
      while i < |flock|
        invariant 0 <= i <= |flock|
        invariant forall k :: 0 <= k < i ==> !Conflict(flock[k], fl)
      {
        if Conflict(flock[i], fl) { return Some(flock[i]); }
        i := i + 1;
      }
      cfl := None;
    }

    /** Where the group of `o` starts in the list, or the end of the list. */
    method SkipOtherOwners(o: Owner) returns (before: nat)
      ensures before == SkipOthers(flock, o)
    {
      before := 0;
      while before < |flock| && flock[before].owner != o
        invariant 0 <= before <= |flock|
        invariant SkipOthers(flock, o) == before + SkipOthers(flock[before..], o)
      {
        assert flock[before..][1..] == flock[before + 1..];
        before := before + 1;
      }
    }

    /** The second while loop, over the locks of the owner. The pointer `before` splits the rest of
        the list into `done` and `todo`; `at` and `left` are indices of `done` for the pointers
        `caller` and `left`, -1 when null, and |done| stands for *before. */
    static method PassGroup(rest: seq<Lock>, req: Lock)
      returns (done: seq<Lock>, todo: seq<Lock>, caller: Lock, at: int, added: bool, left: int,
               right: bool, woken: set<nat>)
      requires NoUnlock(rest)
      ensures Scan(done, todo, caller, at, added, left, right, woken) == Run(Begin(rest, req))
    {
      done, todo := [], rest;
      var caller', at' := req, -1;
      added, left, right, woken := false, -1, false, {};
      ghost var whole := Run(Begin(rest, req));
      while todo != [] && todo[0].owner == caller'.owner
        invariant WellFormed(Scan(done, todo, caller', at', added, left, right, woken))
        invariant Run(Scan(done, todo, caller', at', added, left, right, woken)) == whole
        decreases |todo|
      {
        ghost var s := Scan(done, todo, caller', at', added, left, right, woken);
        var fl := todo[0];
        if caller'.kind == fl.kind {
          if fl.end < caller'.start - 1 {
            done, todo := done + [fl], todo[1..];
            continue;
          }
          if fl.start > PlusOne(caller'.end) { break; }
          if fl.start > caller'.start { fl := fl.(start := caller'.start); } else { caller' := caller'.(start := fl.start); }
          if fl.end < caller'.end { fl := fl.(end := caller'.end); } else { caller' := caller'.(end := fl.end); }
          if added {
            done := done[at' := caller'];
            todo, woken := todo[1..], woken + {fl.id};
            continue;
          }
          caller', at', added := fl, |done|, true;
        } else {
          if fl.end < caller'.start {
            done, todo := done + [fl], todo[1..];
            continue;
          }
          if fl.start > caller'.end { break; }
          if caller'.kind == Unlock { added := true; }
          if fl.start < caller'.start { left := |done|; }
          if fl.end > caller'.end { right := true; break; }
          if fl.start >= caller'.start {
            woken := woken + {fl.id};
            if added {
              todo := todo[1..];
              continue;
            }
            fl := fl.(start := caller'.start, end := caller'.end, kind := caller'.kind);
            caller', at', added := fl, |done|, true;
          }
        }
        done, todo := done + [fl], todo[1..];
      }
      caller, at := caller', at';
    }

    /** After the loops: insert the new lock, split or trim `right`, trim `left`. */
    static method Complete(ghost at: int, done: seq<Lock>, todo: seq<Lock>, caller: Lock, added: bool, left: int,
                           right: bool, woken: set<nat>, id: nat, id2: nat)
      returns (list: seq<Lock>, woken': set<nat>)
      requires Ended(Scan(done, todo, caller, at, added, left, right, woken))
      ensures Edit(list, woken') == Finish(Scan(done, todo, caller, at, added, left, right, woken), id, id2)
    {
      woken' := woken;
      var before, after := done, todo;
      if !added && caller.kind == Unlock { return before + after, woken'; }
      var inserted := if added then [] else [caller.(id := id)];
      var split := [];
      if right {
        if left == |done| {
          split := [todo[0].(id := id2, end := caller.start - 1)];
        }
        after := [todo[0].(start := caller.end + 1)] + todo[1..];
        woken' := woken' + {todo[0].id};
      }
      if 0 <= left < |done| {
        before := done[left := done[left].(end := caller.start - 1)];
        woken' := woken' + {done[left].id};
      } else if left == |done| {
        woken' := woken' + {id2};
      }
      list := before + split + inserted + after;
      if right {
        var rt := [todo[0].(start := caller.end + 1)];
        assert list == before + split + inserted + rt + todo[1..];
      }
    }

    /** posix_lock_file after the search for conflicts. */
    method SetPosixLock(req: Lock, id: nat, id2: nat) returns (woken: set<nat>)
      requires NoUnlock(flock)
      modifies this
      ensures Edit(flock, woken) == SetLock(old(flock), req, id, id2)
      ensures SoundEdit(old(flock), req, Edit(flock, woken))
      ensures Canonical(old(flock)) && ValidRange(req) ==> (Canonical(flock) <==> !Hazard(old(flock), req))
      ensures Canonical(old(flock)) && ValidRange(req) && !Hazard(old(flock), req) ==>
                Overwritten(old(flock), flock, req)
    {
      hide Run, Finish, SoundEdit, Canonical, Hazard, Overwritten;
      var before := SkipOtherOwners(req.owner);
      var done, todo, caller, at, added, left, right, woken0 := PassGroup(flock[before..], req);
      var list, woken1 := Complete(at, done, todo, caller, added, left, right, woken0, id, id2);
      flock, woken := flock[..before] + list, woken1;
      SetLockSound(old(flock), req, id, id2);
      if Canonical(old(flock)) && ValidRange(req) {
        CanonicalExactly(old(flock), req, id, id2);
        if !Hazard(old(flock), req) { SetLockCanonical(old(flock), req, id, id2); }
      }
    }
  }
}
