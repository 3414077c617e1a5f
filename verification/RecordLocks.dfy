/**
  fs/locks.c: the list of POSIX record locks of one inode, and the single pass of
  posix_lock_file that merges, replaces, trims and splits the locks of one owner.
*/
module RecordLocks {
  import opened Basics

  const OFFSET_MAX: int := 0x7fff_ffff_ffff_ffff
  const OFFSET_MIN: int := -0x8000_0000_0000_0000

  /** The pair compared by locks_same_owner. */
  datatype Owner = Owner(files: int, pid: int)

  datatype Kind = Read | Write | Unlock

  /** A struct file_lock; `id` is the identity of the structure. */
  datatype Lock = Lock(id: nat, owner: Owner, kind: Kind, start: int, end: int)

  /** `end + 1` as computed in a signed 64-bit loff_t. */
  function PlusOne(x: int): int {
    if x == OFFSET_MAX then OFFSET_MIN else x + 1
  }

  predicate Overlap(a: Lock, b: Lock) {
    a.end >= b.start && b.end >= a.start
  }

  /** locks_conflict: `caller` against a lock of the list. */
  predicate KindsConflict(caller: Lock, sys: Lock) {
    match caller.kind
    case Read => sys.kind == Write
    case Write => true
    case Unlock => false
  }

  /** posix_locks_conflict. */
  predicate Conflict(caller: Lock, sys: Lock) {
    caller.owner != sys.owner && Overlap(caller, sys) && KindsConflict(caller, sys)
  }

  predicate ValidRange(l: Lock) {
    0 <= l.start <= l.end <= OFFSET_MAX
  }

  predicate Covers(l: Lock, b: int) {
    l.start <= b <= l.end
  }

  /** Some lock of the list gives `o` a lock of kind `k` on byte `b`. */
  ghost predicate Held(list: seq<Lock>, o: Owner, k: Kind, b: int) {
    exists i :: 0 <= i < |list| && list[i].owner == o && list[i].kind == k && Covers(list[i], b)
  }

  // ---------------------------------------------------------------------------
  // The pass of posix_lock_file over the locks of the caller's owner
  // ---------------------------------------------------------------------------

  /** The variables of the pass. `done` holds the owner's locks before *before, `todo` the
      list from *before on. `at` is the index in `done` of the lock `caller` points to once
      it has been added (else -1); `left` is the index of the lock `left` points to (else -1;
      |done| stands for *before itself), and `right` says that `right` points to *before. */
  datatype Scan = Scan(done: seq<Lock>, todo: seq<Lock>, caller: Lock, at: int, added: bool,
                       left: int, right: bool, woken: set<nat>)

  ghost predicate WellFormed(s: Scan) {
    && (s.added && s.caller.kind != Unlock ==> 0 <= s.at < |s.done|)
    && -1 <= s.left < |s.done|
    && !s.right
    && (forall l :: l in s.todo ==> l.kind != Unlock)
  }

  function Pass(s: Scan): Scan
    requires s.todo != []
  {
    s.(done := s.done + [s.todo[0]], todo := s.todo[1..])
  }

  /** locks_delete_lock(before, 0). */
  function Delete(s: Scan): Scan
    requires s.todo != []
  {
    s.(todo := s.todo[1..], woken := s.woken + {s.todo[0].id})
  }

  /** Same kind, adjacent or overlapping. */
  function Merge(s: Scan): Scan
    requires WellFormed(s) && s.todo != [] && s.todo[0].kind == s.caller.kind
  {
    var fl := s.todo[0];
    var lo, hi := Min(fl.start, s.caller.start), Max(fl.end, s.caller.end);
    if s.added then
      var c := s.caller.(start := lo, end := hi);
      Delete(s.(done := s.done[s.at := c], caller := c))
    else
      var c := fl.(start := lo, end := hi);
      s.(done := s.done + [c], todo := s.todo[1..], caller := c, at := |s.done|, added := true)
  }

  /** Another kind, completely covered by the caller. */
  function Replace(s: Scan): Scan
    requires s.todo != []
  {
    if s.added then Delete(s)
    else
      var c := s.todo[0].(start := s.caller.start, end := s.caller.end, kind := s.caller.kind);
      s.(done := s.done + [c], todo := s.todo[1..], caller := c, at := |s.done|, added := true,
         woken := s.woken + {c.id})
  }

  /** Another kind, overlapping. The Boolean says whether the pass goes on. */
  function Displace(s: Scan): (Scan, bool)
    requires s.todo != []
  {
    var fl := s.todo[0];
    var t := s.(added := s.added || s.caller.kind == Unlock,
                left := if fl.start < s.caller.start then |s.done| else s.left);
    if fl.end > t.caller.end then (t.(right := true), false)
    else if fl.start >= t.caller.start then (Replace(t), true)
    else (Pass(t), true)
  }

  /** One turn of the second while loop. */
  function Turn(s: Scan): (r: (Scan, bool))
    requires WellFormed(s) && s.todo != []
    ensures r.1 ==> WellFormed(r.0) && r.0.todo == s.todo[1..]
    ensures !r.1 ==> Ended(r.0) && r.0.todo == s.todo
  {
    var fl := s.todo[0];
    if s.caller.kind == fl.kind then
      if fl.end < s.caller.start - 1 then (Pass(s), true)
      else if fl.start > PlusOne(s.caller.end) then (s, false)
      else (Merge(s), true)
    else
      if fl.end < s.caller.start then (Pass(s), true)
      else if fl.start > s.caller.end then (s, false)
      else Displace(s)
  }

  ghost predicate Ended(s: Scan) {
    && -1 <= s.left <= |s.done|
    && (s.left == |s.done| ==> s.right)
    && (s.right ==> s.todo != [] && Overlap(s.todo[0], s.caller))
  }

  /** The whole second while loop. */
  function Run(s: Scan): (r: Scan)
    requires WellFormed(s)
    ensures Ended(r)
    decreases |s.todo|
  {
    if s.todo == [] || s.todo[0].owner != s.caller.owner then s
    else
      var (t, more) := Turn(s);
      if more then Run(t) else t
  }

  /** The new list and the identities of the locks whose block lists were emptied. */
  datatype Edit = Edit(list: seq<Lock>, woken: set<nat>)

  /** Cuts the lock `left` points to back to the part before the caller. */
  function TrimLeft(s: Scan): seq<Lock> {
    if 0 <= s.left < |s.done|
    then s.done[s.left := s.done[s.left].(end := s.caller.start - 1)]
    else s.done
  }

  function LeftWoken(s: Scan, id2: nat): set<nat> {
    if 0 <= s.left < |s.done| then {s.done[s.left].id} else if s.left == |s.done| then {id2} else {}
  }

  /** What follows the pass: insert the new lock, split or trim `right`, trim `left`.
      `id` and `id2` are the two structures allocated in advance. */
  function Finish(s: Scan, id: nat, id2: nat): Edit
    requires Ended(s)
  {
    if !s.added && s.caller.kind == Unlock then Edit(s.done + s.todo, s.woken)
    else
      var inserted := if s.added then [] else [s.caller.(id := id)];
      if s.right then
        var right := s.todo[0].(start := s.caller.end + 1);
        var split := if s.left == |s.done| then [s.todo[0].(id := id2, end := s.caller.start - 1)] else [];
        Edit(TrimLeft(s) + split + inserted + [right] + s.todo[1..], s.woken + {right.id} + LeftWoken(s, id2))
      else
        Edit(TrimLeft(s) + inserted + s.todo, s.woken + LeftWoken(s, id2))
  }

  /** How many locks the first while loop skips. */
  function SkipOthers(list: seq<Lock>, o: Owner): (n: nat)
    ensures n <= |list|
    ensures n < |list| ==> list[n].owner == o
    ensures forall k :: 0 <= k < n ==> list[k].owner != o
  {
    if list == [] || list[0].owner == o then 0 else 1 + SkipOthers(list[1..], o)
  }

  ghost predicate NoUnlock(list: seq<Lock>) {
    forall l :: l in list ==> l.kind != Unlock
  }

  function Begin(todo: seq<Lock>, req: Lock): (s: Scan) {
    Scan([], todo, req, -1, false, -1, false, {})
  }

  /** posix_lock_file from the first while loop on. */
  function SetLock(list: seq<Lock>, req: Lock, id: nat, id2: nat): Edit
    requires NoUnlock(list)
  {
    var n := SkipOthers(list, req.owner);
    var e := Finish(Run(Begin(list[n..], req)), id, id2);
    Edit(list[..n] + e.list, e.woken)
  }

  // ---------------------------------------------------------------------------
  // What holds of every list: nothing is granted that was not asked for or held,
  // and a lock whose waiters stay asleep still stands, at least as wide as before
  // ---------------------------------------------------------------------------

  ghost predicate Justified(p: Lock, base: seq<Lock>, req: Lock) {
    && p.owner == req.owner
    && forall b :: Covers(p, b) ==>
         Held(base, req.owner, p.kind, b) || (p.kind == req.kind && Covers(req, b))
  }

  /** `p` is the same structure as `q`, of the same kind, and covers all of it. */
  predicate Extends(p: Lock, q: Lock) {
    p.id == q.id && p.owner == q.owner && p.kind == q.kind && p.start <= q.start && q.end <= p.end
  }

  ghost predicate Survives(q: Lock, list: seq<Lock>, woken: set<nat>) {
    q.id in woken || exists i :: 0 <= i < |list| && Extends(list[i], q)
  }

  /** The pass has turned base[..c] into `done`. */
  ghost predicate Grounded(s: Scan, base: seq<Lock>, req: Lock, c: nat) {
    && c <= |base| && s.todo == base[c..]
    && s.caller.kind == req.kind && Justified(s.caller, base, req)
    && (s.added && req.kind != Unlock ==> 0 <= s.at < |s.done| && s.done[s.at] == s.caller)
    && (0 <= s.left < |s.done| ==> s.done[s.left].kind != req.kind && s.done[s.left].end >= s.caller.start)
    && (forall k :: 0 <= k < |s.done| ==> Justified(s.done[k], base, req))
    && (forall k :: 0 <= k < c ==> base[k].owner == req.owner && Survives(base[k], s.done, s.woken))
  }

  /** Survival carries over to a list in which every lock keeps standing. */
  lemma SurvivesIn(q: Lock, list: seq<Lock>, woken: set<nat>, list': seq<Lock>, woken': set<nat>)
    requires Survives(q, list, woken) && woken <= woken'
    requires forall i :: 0 <= i < |list| ==> Survives(list[i], list', woken')
    ensures Survives(q, list', woken')
  {
    if q.id !in woken' {
      var i :| 0 <= i < |list| && Extends(list[i], q);
      assert Survives(list[i], list', woken');
      var j :| 0 <= j < |list'| && Extends(list'[j], list[i]);
      assert Extends(list'[j], q);
    }
  }

  /** A lock keeps standing at its own index. */
  lemma StandsAt(list: seq<Lock>, i: nat, q: Lock, woken: set<nat>)
    requires i < |list| && Extends(list[i], q)
    ensures Survives(q, list, woken)
  {
  }

  lemma TurnGrounded(s: Scan, base: seq<Lock>, req: Lock, c: nat)
    requires WellFormed(s) && Grounded(s, base, req, c)
    requires s.todo != [] && s.todo[0].owner == req.owner
    ensures Grounded(Turn(s).0, base, req, if Turn(s).1 then c + 1 else c)
  {
    var (t, more) := Turn(s);
    var fl := s.todo[0];
    assert fl == base[c];
    assert Justified(fl, base, req);
    if more { TurnSurvives(s, base, c); }
    hide Survives;
  }

  lemma TurnSurvives(s: Scan, base: seq<Lock>, c: nat)
    requires WellFormed(s) && s.todo != [] && Turn(s).1
    requires s.added && s.caller.kind != Unlock ==> s.done[s.at] == s.caller
    requires c < |base| && s.todo[0] == base[c] && forall k :: 0 <= k < c ==> Survives(base[k], s.done, s.woken)
    ensures forall k :: 0 <= k <= c ==> Survives(base[k], Turn(s).0.done, Turn(s).0.woken)
  {
    var t, fl := Turn(s).0, s.todo[0];
    forall i | 0 <= i < |s.done| ensures Survives(s.done[i], t.done, t.woken) {
      StandsAt(t.done, i, s.done[i], t.woken);
    }
    if fl.id !in t.woken { StandsAt(t.done, |s.done|, fl, t.woken); }
    assert s.woken <= t.woken && Survives(fl, t.done, t.woken);
    hide Survives, Turn;
    forall k | 0 <= k < c ensures Survives(base[k], t.done, t.woken) {
      SurvivesIn(base[k], s.done, s.woken, t.done, t.woken);
    }
  }

  lemma {:induction false} RunGrounded(s: Scan, base: seq<Lock>, req: Lock, c: nat) returns (c': nat)
    requires WellFormed(s) && Grounded(s, base, req, c)
    ensures Grounded(Run(s), base, req, c') && c <= c'
    ensures Run(s).right ==> Run(s).todo[0].owner == req.owner
    decreases |s.todo|
  {
    c' := c;
    if s.todo != [] && s.todo[0].owner == s.caller.owner {
      TurnGrounded(s, base, req, c);
      var (t, more) := Turn(s);
      if more { c' := RunGrounded(t, base, req, c + 1); }
    }
  }

  /** The part of an edit that concerns the caller's owner: `e.list` is `mid` followed by base[c..]. */
  ghost predicate Sound(e: Edit, base: seq<Lock>, req: Lock, mid: seq<Lock>, c: nat) {
    && c <= |base| && e.list == mid + base[c..]
    && (forall k :: 0 <= k < |mid| ==> Justified(mid[k], base, req))
    && (forall k :: 0 <= k < c ==> base[k].owner == req.owner && Survives(base[k], mid, e.woken))
  }

  lemma FinishSound(s: Scan, base: seq<Lock>, req: Lock, c: nat, id: nat, id2: nat)
    returns (mid: seq<Lock>, c': nat)
    requires Ended(s) && Grounded(s, base, req, c)
    requires s.right ==> s.todo[0].owner == req.owner
    ensures Sound(Finish(s, id, id2), base, req, mid, c')
  {
    var e := Finish(s, id, id2);
    if !s.added && s.caller.kind == Unlock {
      return s.done, c;
    }
    var inserted := if s.added then [] else [s.caller.(id := id)];
    c' := c;
    mid := TrimLeft(s) + inserted;
    if s.right {
      var fl := s.todo[0];
      var split := if s.left == |s.done| then [fl.(id := id2, end := s.caller.start - 1)] else [];
      c' := c + 1;
      mid := TrimLeft(s) + split + inserted + [fl.(start := s.caller.end + 1)];
    }
    assert Justified(s.caller.(id := id), base, req);
    forall i | 0 <= i < |s.done| ensures Survives(s.done[i], mid, e.woken) {
      if i != s.left { StandsAt(mid, i, s.done[i], e.woken); }
    }
    forall k | 0 <= k < c ensures Survives(base[k], mid, e.woken) {
      SurvivesIn(base[k], s.done, s.woken, mid, e.woken);
    }
  }

  /** Every lock of the result is one the owner of the request asked for or already held, or
      an untouched lock of the list; every lock of the list still stands or its waiters were woken. */
  ghost predicate SoundEdit(list: seq<Lock>, req: Lock, e: Edit) {
    && (forall i :: 0 <= i < |e.list| ==>
          e.list[i] in list || Justified(e.list[i], list, req))
    && (forall i :: 0 <= i < |list| ==> Survives(list[i], e.list, e.woken))
    && (forall o, k, b | o != req.owner :: Held(e.list, o, k, b) <==> Held(list, o, k, b))
  }

  lemma HeldSplit(a: seq<Lock>, m: seq<Lock>, z: seq<Lock>, o: Owner, k: Kind, b: int)
    ensures Held(a + m + z, o, k, b) <==> Held(a, o, k, b) || Held(m, o, k, b) || Held(z, o, k, b)
  {
    var l := a + m + z;
    if Held(a, o, k, b) {
      var i :| 0 <= i < |a| && a[i].owner == o && a[i].kind == k && Covers(a[i], b);
      assert l[i] == a[i];
    }
    if Held(m, o, k, b) {
      var i :| 0 <= i < |m| && m[i].owner == o && m[i].kind == k && Covers(m[i], b);
      assert l[|a| + i] == m[i];
    }
    if Held(z, o, k, b) {
      var i :| 0 <= i < |z| && z[i].owner == o && z[i].kind == k && Covers(z[i], b);
      assert l[|a| + |m| + i] == z[i];
    }
  }

  /** Replacing list[n..][..c] by `mid` is sound for the list when it is for list[n..]. */
  lemma SpliceSound(list: seq<Lock>, n: nat, req: Lock, e: Edit, mid: seq<Lock>, c: nat)
    requires n <= |list| && Sound(e, list[n..], req, mid, c)
    ensures SoundEdit(list, req, Edit(list[..n] + e.list, e.woken))
  {
    var base := list[n..];
    var l' := list[..n] + mid + base[c..];
    assert list[..n] + e.list == l';
    SpliceOthers(list, n, mid, c, req.owner);
    forall i | 0 <= i < |l'| ensures l'[i] in list || Justified(l'[i], list, req) {
      if n <= i < n + |mid| {
        assert l'[i] == mid[i - n];
        JustifiedIn(mid[i - n], list, n, req);
      } else {
        assert l'[i] == list[if i < n then i else i - |mid| + c];
      }
    }
    SpliceSurvives(list, n, mid, c, e.woken);
  }

  lemma JustifiedIn(p: Lock, list: seq<Lock>, n: nat, req: Lock)
    requires n <= |list| && Justified(p, list[n..], req)
    ensures Justified(p, list, req)
  {
    forall b | Covers(p, b) && Held(list[n..], req.owner, p.kind, b) ensures Held(list, req.owner, p.kind, b) {
      HeldSplit(list[..n], list[n..], [], req.owner, p.kind, b);
      assert list == list[..n] + list[n..] + [];
    }
  }

  lemma SpliceOthers(list: seq<Lock>, n: nat, mid: seq<Lock>, c: nat, o: Owner)
    requires n + c <= |list| && (forall k :: 0 <= k < |mid| ==> mid[k].owner == o)
    requires forall k :: n <= k < n + c ==> list[k].owner == o
    ensures var l' := list[..n] + mid + list[n..][c..];
      forall o', k, b | o' != o :: Held(l', o', k, b) <==> Held(list, o', k, b)
  {
    var base := list[n..];
    assert list == list[..n] + base[..c] + base[c..];
    assert forall k :: 0 <= k < c ==> base[..c][k] == list[n + k];
    forall o', k, b | o' != o ensures Held(list[..n] + mid + base[c..], o', k, b) <==> Held(list, o', k, b) {
      HeldSplit(list[..n], mid, base[c..], o', k, b);
      HeldSplit(list[..n], base[..c], base[c..], o', k, b);
    }
  }

  lemma SpliceSurvives(list: seq<Lock>, n: nat, mid: seq<Lock>, c: nat, woken: set<nat>)
    requires n + c <= |list| && forall k :: 0 <= k < c ==> Survives(list[n..][k], mid, woken)
    ensures forall i :: 0 <= i < |list| ==> Survives(list[i], list[..n] + mid + list[n..][c..], woken)
  {
    var l' := list[..n] + mid + list[n..][c..];
    forall k | 0 <= k < |mid| ensures Survives(mid[k], l', woken) { StandsAt(l', n + k, mid[k], woken); }
    forall i | 0 <= i < |list| ensures Survives(list[i], l', woken) {
      if n <= i < n + c {
        assert list[i] == list[n..][i - n];
        SurvivesIn(list[i], mid, woken, l', woken);
      } else {
        var j := if i < n then i else i - c + |mid|;
        assert l'[j] == list[i];
        StandsAt(l', j, list[i], woken);
      }
    }
  }

  /** Theorem, for every list whatever its state. */
  lemma SetLockSound(list: seq<Lock>, req: Lock, id: nat, id2: nat)
    requires NoUnlock(list)
    ensures SoundEdit(list, req, SetLock(list, req, id, id2))
  {
    var n := SkipOthers(list, req.owner);
    var s := Begin(list[n..], req);
    var c := RunGrounded(s, list[n..], req, 0);
    var mid, c' := FinishSound(Run(s), list[n..], req, c, id, id2);
    SpliceSound(list, n, req, Finish(Run(s), id, id2), mid, c');
  }

  // ---------------------------------------------------------------------------
  // Whose waiters are woken
  // ---------------------------------------------------------------------------

  /** The structure is a lock of `o` in the list. */
  ghost predicate Has(list: seq<Lock>, o: Owner, id: nat) {
    exists i :: 0 <= i < |list| && list[i].id == id && list[i].owner == o
  }

  /** The pass has only used structures of the caller's owner. */
  ghost predicate OwnOnly(s: Scan, base: seq<Lock>, o: Owner, c: nat) {
    && s.caller.owner == o && c <= |base| && s.todo == base[c..]
    && (forall id :: id in s.woken ==> Has(base, o, id))
    && (forall k :: 0 <= k < |s.done| ==> Has(base, o, s.done[k].id))
    && (s.added && s.caller.kind != Unlock ==> Has(base, o, s.caller.id))
  }

  lemma TurnOwnOnly(s: Scan, base: seq<Lock>, o: Owner, c: nat)
    requires WellFormed(s) && OwnOnly(s, base, o, c) && s.todo != [] && s.todo[0].owner == o
    ensures OwnOnly(Turn(s).0, base, o, if Turn(s).1 then c + 1 else c) && Has(base, o, s.todo[0].id)
  {
    assert s.todo[0] == base[c];
    assert Has(base, o, s.todo[0].id);
    hide Has;
  }

  lemma {:induction false} RunOwnOnly(s: Scan, base: seq<Lock>, o: Owner, c: nat) returns (c': nat)
    requires WellFormed(s) && OwnOnly(s, base, o, c)
    ensures OwnOnly(Run(s), base, o, c') && (Run(s).right ==> Has(base, o, Run(s).todo[0].id))
    decreases |s.todo|
  {
    c' := c;
    if s.todo != [] && s.todo[0].owner == s.caller.owner {
      TurnOwnOnly(s, base, o, c);
      var (t, more) := Turn(s);
      if more { c' := RunOwnOnly(t, base, o, c + 1); }
    }
  }

  /** Theorem: a request wakes only those who wait for a lock of its own owner; `id2` is new and has no waiters. */
  lemma WakesOwnOnly(list: seq<Lock>, req: Lock, id: nat, id2: nat, x: nat)
    requires NoUnlock(list) && x in SetLock(list, req, id, id2).woken && x != id2
    ensures Has(list, req.owner, x)
  {
    var n := SkipOthers(list, req.owner);
    var base := list[n..];
    var c := RunOwnOnly(Begin(base, req), base, req.owner, 0);
    var s := Run(Begin(base, req));
    hide Run, SkipOthers;
    assert Has(base, req.owner, x);
    var i :| 0 <= i < |base| && base[i].id == x && base[i].owner == req.owner;
    assert list[n + i] == base[i];
  }

  // ---------------------------------------------------------------------------
  // When a request is refused
  // ---------------------------------------------------------------------------

  /** No byte is held by two owners of which one has a write lock. */
  ghost predicate Exclusive(list: seq<Lock>) {
    forall o, p, k, k', b :: o != p && Held(list, o, k, b) && Held(list, p, k', b) ==> k != Write
  }

  /** No lock of the list stops the request. */
  ghost predicate Clear(list: seq<Lock>, req: Lock) {
    forall i :: 0 <= i < |list| ==> !Conflict(req, list[i])
  }

  lemma HeldOrAsked(list: seq<Lock>, req: Lock, ed: Edit, o: Owner, k: Kind, b: int)
    requires SoundEdit(list, req, ed) && Held(ed.list, o, k, b)
    ensures Held(list, o, k, b) || (o == req.owner && k == req.kind && Covers(req, b))
  {
    var i :| 0 <= i < |ed.list| && ed.list[i].owner == o && ed.list[i].kind == k && Covers(ed.list[i], b);
    if ed.list[i] in list {
      var j :| 0 <= j < |list| && list[j] == ed.list[i];
      assert Held(list, o, k, b);
    }
  }

  lemma GrantExclusive(list: seq<Lock>, req: Lock, ed: Edit)
    requires NoUnlock(ed.list) && Exclusive(list) && Clear(list, req) && SoundEdit(list, req, ed)
    ensures Exclusive(ed.list)
  {
    forall o, p, k, k', b | o != p && Held(ed.list, o, k, b) && Held(ed.list, p, k', b) ensures k != Write {
      HeldOrAsked(list, req, ed, o, k, b);
      HeldOrAsked(list, req, ed, p, k', b);
      if !Held(list, o, k, b) {
        var i :| 0 <= i < |list| && list[i].owner == p && list[i].kind == k' && Covers(list[i], b);
        assert !Conflict(req, list[i]);
      } else if !Held(list, p, k', b) {
        var i :| 0 <= i < |list| && list[i].owner == o && list[i].kind == k && Covers(list[i], b);
        var j :| 0 <= j < |ed.list| && ed.list[j].owner == p && ed.list[j].kind == k' && Covers(ed.list[j], b);
        assert !Conflict(req, list[i]) && ed.list[j] in ed.list;
      }
    }
  }

  /** The pass has not lost any of the request. */
  ghost predicate Whole(s: Scan, req: Lock) {
    && s.caller.owner == req.owner && s.caller.kind == req.kind
    && s.caller.start <= req.start && req.end <= s.caller.end
    && (s.added ==> 0 <= s.at < |s.done| && s.done[s.at] == s.caller && s.left != s.at)
  }

  lemma TurnWhole(s: Scan, req: Lock)
    requires WellFormed(s) && s.todo != [] && s.todo[0].owner == req.owner && Whole(s, req) && req.kind != Unlock
    ensures Whole(Turn(s).0, req)
  {
  }

  lemma {:induction false} RunWhole(s: Scan, req: Lock)
    requires WellFormed(s) && Whole(s, req) && req.kind != Unlock
    ensures Whole(Run(s), req)
    decreases |s.todo|
  {
    if s.todo == [] || s.todo[0].owner != s.caller.owner {
    } else {
      TurnWhole(s, req);
      var (t, more) := Turn(s);
      if more { RunWhole(t, req); }
    }
  }

  /** Whatever the state of the list, the owner has what it asked for afterwards. */
  lemma SetLockGrants(list: seq<Lock>, req: Lock, id: nat, id2: nat, b: int)
    requires NoUnlock(list) && req.kind != Unlock && Covers(req, b)
    ensures Held(SetLock(list, req, id, id2).list, req.owner, req.kind, b)
  {
    var n := SkipOthers(list, req.owner);
    RunWhole(Begin(list[n..], req), req);
    var s := Run(Begin(list[n..], req));
    hide Run, SkipOthers;
    var mid := if s.added then TrimLeft(s) else [s.caller.(id := id)];
    var i := if s.added then s.at else 0;
    assert mid[i].owner == req.owner && mid[i].kind == req.kind && Covers(mid[i], b);
    assert Held(mid, req.owner, req.kind, b);
    HeldInFinish(s, id, id2, mid, req, b);
    HeldSplit(list[..n], Finish(s, id, id2).list, [], req.owner, req.kind, b);
    assert list[..n] + Finish(s, id, id2).list + [] == list[..n] + Finish(s, id, id2).list;
  }

  /** The pass ends with `mid` somewhere in the list. */
  lemma HeldInFinish(s: Scan, id: nat, id2: nat, mid: seq<Lock>, req: Lock, b: int)
    requires Ended(s) && s.caller.kind != Unlock && Held(mid, req.owner, req.kind, b)
    requires mid == if s.added then TrimLeft(s) else [s.caller.(id := id)]
    ensures Held(Finish(s, id, id2).list, req.owner, req.kind, b)
  {
    var a := if s.added then [] else TrimLeft(s);
    var split := if s.right && s.left == |s.done| then [s.todo[0].(id := id2, end := s.caller.start - 1)] else [];
    var z := if s.right then [s.todo[0].(start := s.caller.end + 1)] + s.todo[1..] else s.todo;
    if s.added {
      HeldSplit([], mid, split + z, req.owner, req.kind, b);
      assert [] + mid + (split + z) == Finish(s, id, id2).list;
    } else {
      HeldSplit(a + split, mid, z, req.owner, req.kind, b);
      assert (a + split) + mid + z == Finish(s, id, id2).list;
    }
  }

  /** Theorem: a request is refused exactly when granting it would put some byte under two owners, one of them a
      writer. */
  lemma RefusedExactly(list: seq<Lock>, req: Lock, id: nat, id2: nat)
    requires NoUnlock(list) && Exclusive(list) && ValidRange(req)
    requires forall i :: 0 <= i < |list| ==> ValidRange(list[i])
    ensures Clear(list, req) <==> Exclusive(SetLock(list, req, id, id2).list)
  {
    var ed := SetLock(list, req, id, id2);
    SetLockSound(list, req, id, id2);
    if Clear(list, req) {
      SetLockNoUnlock(list, req, id, id2);
      GrantExclusive(list, req, ed);
    } else {
      var i :| 0 <= i < |list| && Conflict(req, list[i]);
      assert list[i] in list;
      var b := Max(req.start, list[i].start);
      SetLockGrants(list, req, id, id2, b);
      assert Held(list, list[i].owner, list[i].kind, b) && Held(ed.list, list[i].owner, list[i].kind, b);
      hide SetLock, SoundEdit;
    }
  }

  ghost predicate DistinctIds(list: seq<Lock>) {
    forall i, j :: 0 <= i < j < |list| ==> list[i].id != list[j].id
  }

  /** How many locks of the list are the structure `x`. */
  ghost function Count(list: seq<Lock>, x: nat): nat {
    if list == [] then 0 else (if list[0].id == x then 1 else 0) + Count(list[1..], x)
  }

  lemma {:induction false} CountAppend(a: seq<Lock>, b: seq<Lock>, x: nat)
    ensures Count(a + b, x) == Count(a, x) + Count(b, x)
  {
    if a == [] {
      assert a + b == b;
    } else {
      assert (a + b)[1..] == a[1..] + b;
      CountAppend(a[1..], b, x);
    }
  }

  lemma {:induction false} CountUpdate(a: seq<Lock>, i: nat, l: Lock, x: nat)
    requires i < |a| && l.id == a[i].id
    ensures Count(a[i := l], x) == Count(a, x)
  {
    if i == 0 {
    } else {
      assert a[i := l][1..] == a[1..][i - 1 := l];
      CountUpdate(a[1..], i - 1, l, x);
    }
  }

  lemma {:induction false} CountAt(a: seq<Lock>, i: nat)
    requires i < |a|
    ensures Count(a, a[i].id) >= 1
  {
    if i == 0 {
    } else {
      CountAt(a[1..], i - 1);
    }
  }

  lemma {:induction false} DistinctMeansSingle(a: seq<Lock>)
    ensures DistinctIds(a) <==> forall x :: Count(a, x) <= 1
  {
    if a == [] {
    } else {
      DistinctMeansSingle(a[1..]);
      if DistinctIds(a) {
        forall x ensures Count(a, x) <= 1 {
          if Count(a[1..], x) > 0 { var i := CountWitness(a[1..], x); assert a[1 + i].id == x; }
        }
      } else if DistinctIds(a[1..]) {
        var j :| 0 < j < |a| && a[0].id == a[j].id;
        CountAt(a[1..], j - 1);
        assert Count(a, a[0].id) > 1;
      } else {
        var x :| Count(a[1..], x) > 1;
        assert Count(a, x) > 1;
      }
    }
  }

  lemma {:induction false} CountWitness(a: seq<Lock>, x: nat) returns (i: nat)
    requires Count(a, x) > 0
    ensures i < |a| && a[i].id == x
  {
    if a[0].id == x { i := 0; } else { i := CountWitness(a[1..], x); i := i + 1; }
  }

  lemma {:induction false} RunCount(s: Scan, x: nat)
    requires WellFormed(s)
    requires s.added && s.caller.kind != Unlock ==> s.done[s.at].id == s.caller.id
    ensures Count(Run(s).done, x) + Count(Run(s).todo, x) <= Count(s.done, x) + Count(s.todo, x)
    decreases |s.todo|
  {
    if s.todo != [] && s.todo[0].owner == s.caller.owner {
      TurnCount(s, x);
      hide Count, Turn;
      if Turn(s).1 { RunCount(Turn(s).0, x); }
    }
  }

  lemma TurnCount(s: Scan, x: nat)
    requires WellFormed(s) && s.todo != []
    requires s.added && s.caller.kind != Unlock ==> s.done[s.at].id == s.caller.id
    ensures var t := Turn(s).0;
      && (t.added && t.caller.kind != Unlock && Turn(s).1 ==> t.done[t.at].id == t.caller.id)
      && Count(t.done, x) + Count(t.todo, x) <= Count(s.done, x) + Count(s.todo, x)
  {
    var t := Turn(s).0;
    if |t.done| > |s.done| {
      CountAppend(s.done, [t.done[|s.done|]], x);
    } else if t.done != s.done {
      CountUpdate(s.done, s.at, t.caller, x);
    }
  }

  lemma FinishCount(s: Scan, id: nat, id2: nat, x: nat)
    requires Ended(s)
    ensures Count(Finish(s, id, id2).list, x) <=
            Count(s.done, x) + Count(s.todo, x) + (if x == id then 1 else 0) + (if x == id2 then 1 else 0)
  {
    if 0 <= s.left < |s.done| { CountUpdate(s.done, s.left, TrimLeft(s)[s.left], x); }
    var d := TrimLeft(s);
    var inserted := if s.added then [] else [s.caller.(id := id)];
    if !s.added && s.caller.kind == Unlock {
      CountAppend(s.done, s.todo, x);
    } else if s.right {
      var right := s.todo[0].(start := s.caller.end + 1);
      var split := if s.left == |s.done| then [s.todo[0].(id := id2, end := s.caller.start - 1)] else [];
      CountAppend(d, split, x);
      CountAppend(d + split, inserted, x);
      CountAppend(d + split + inserted, [right], x);
      CountAppend(d + split + inserted + [right], s.todo[1..], x);
    } else {
      CountAppend(d, inserted, x);
      CountAppend(d + inserted, s.todo, x);
    }
  }

  /** The edit uses the structures of the list and the two allocated in advance, each at most
      as often as before: no structure is linked into the list twice. */
  lemma SetLockIds(list: seq<Lock>, req: Lock, id: nat, id2: nat, x: nat)
    requires NoUnlock(list)
    ensures Count(SetLock(list, req, id, id2).list, x) <=
            Count(list, x) + (if x == id then 1 else 0) + (if x == id2 then 1 else 0)
  {
    var n := SkipOthers(list, req.owner);
    var s := Begin(list[n..], req);
    RunCount(s, x);
    FinishCount(Run(s), id, id2, x);
    assert list == list[..n] + list[n..];
    CountAppend(list[..n], list[n..], x);
    CountAppend(list[..n], Finish(Run(s), id, id2).list, x);
  }

  lemma {:induction false} RunNoUnlock(s: Scan)
    requires WellFormed(s) && NoUnlock(s.done)
    ensures NoUnlock(Run(s).done) && NoUnlock(Run(s).todo) && Run(s).caller.kind == s.caller.kind
    decreases |s.todo|
  {
    if s.todo != [] && s.todo[0].owner == s.caller.owner {
      assert s.todo[0] in s.todo;
      var (t, more) := Turn(s);
      if more { RunNoUnlock(t); }
    }
  }

  lemma SetLockNoUnlock(list: seq<Lock>, req: Lock, id: nat, id2: nat)
    requires NoUnlock(list)
    ensures NoUnlock(SetLock(list, req, id, id2).list)
  {
    var n := SkipOthers(list, req.owner);
    var s := Begin(list[n..], req);
    RunNoUnlock(s);
    var r := Run(s);
    hide Run, SkipOthers;
    FinishNoUnlock(r, id, id2);
    hide Finish;
    var e := Finish(r, id, id2).list;
    forall l | l in list[..n] + e ensures l.kind != Unlock {
      assert l in list[..n] || l in e;
    }
  }

  lemma FinishNoUnlock(s: Scan, id: nat, id2: nat)
    requires Ended(s) && NoUnlock(s.done) && NoUnlock(s.todo)
    ensures NoUnlock(Finish(s, id, id2).list)
  {
    assert s.todo != [] ==> s.todo[0] in s.todo;
    assert 0 <= s.left < |s.done| ==> s.done[s.left] in s.done;
    assert NoUnlock(TrimLeft(s)) && NoUnlock(if s.todo == [] then [] else s.todo[1..]);
  }
}
