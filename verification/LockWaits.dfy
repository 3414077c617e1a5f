/**
  fs/locks.c: runs of lock, unlock, block, wake and close steps over all inodes, the list of
  blocked requests, and the deadlock check that chases it.
*/
module LockWaits {
  import opened Basics
  import opened RecordLocks
  import opened LockRanges

  /** A request on blocked_list: fl_next points to the lock `blocker` of the inode. */
  datatype Waiter = Waiter(req: Lock, inode: int, blocker: nat)

  /** Every inode's lock list, blocked_list, and the first identity not yet allocated. */
  datatype World = World(files: map<int, seq<Lock>>, blocked: seq<Waiter>, nextId: nat)

  const INITIAL := World(map[], [], 0)

  function Locks(w: World, inode: int): seq<Lock> {
    if inode in w.files then w.files[inode] else []
  }

  function Find(list: seq<Lock>, id: nat): Option<Lock> {
    if list == [] then None else if list[0].id == id then Some(list[0]) else Find(list[1..], id)
  }

  function OwnerOf(l: Option<Lock>): Option<Owner> {
    match l case None => None case Some(lock) => Some(lock.owner)
  }

  /** The owner of the lock that the first request of `o` in the list waits for. */
  function NextIn(w: World, blocked: seq<Waiter>, o: Owner): Option<Owner> {
    if blocked == [] then None
    else if blocked[0].req.owner == o then OwnerOf(Find(Locks(w, blocked[0].inode), blocked[0].blocker))
    else NextIn(w, blocked[1..], o)
  }

  function Next(w: World, o: Owner): Option<Owner> {
    NextIn(w, w.blocked, o)
  }

  ghost predicate Blocked(w: World, o: Owner) {
    exists i :: 0 <= i < |w.blocked| && w.blocked[i].req.owner == o
  }

  /** `n` hops along the wait-for graph. */
  ghost function Chase(w: World, o: Owner, n: nat): Option<Owner>
    decreases n
  {
    if n == 0 then Some(o)
    else match Next(w, o) case None => None case Some(p) => Chase(w, p, n - 1)
  }

  ghost predicate Reaches(w: World, o: Owner, p: Owner) {
    exists n: nat :: Chase(w, o, n) == Some(p)
  }

  ghost predicate Cyclic(w: World) {
    exists o: Owner, n: nat :: n > 0 && Chase(w, o, n) == Some(o)
  }

  // ---------------------------------------------------------------------------
  // Steps
  // ---------------------------------------------------------------------------

  datatype Event =
    | Grant(inode: int, req: Lock)
    | Sleep(inode: int, req: Lock)
    | Wake(owner: Owner)
    | Close(inode: int, files: int)

  /** locks_wake_up_blocks(_, 0) for the locks `woken` of the inode. */
  function Unblock(blocked: seq<Waiter>, inode: int, woken: set<nat>): seq<Waiter> {
    if blocked == [] then []
    else if blocked[0].inode == inode && blocked[0].blocker in woken then Unblock(blocked[1..], inode, woken)
    else [blocked[0]] + Unblock(blocked[1..], inode, woken)
  }

  /** locks_delete_block of the request of `o`. */
  function Remove(blocked: seq<Waiter>, o: Owner): seq<Waiter> {
    if blocked == [] then []
    else if blocked[0].req.owner == o then blocked[1..]
    else [blocked[0]] + Remove(blocked[1..], o)
  }

  /** locks_remove_posix: every lock whose owner has this files structure. */
  function Without(list: seq<Lock>, files: int): seq<Lock> {
    if list == [] then []
    else if list[0].owner.files == files then Without(list[1..], files)
    else [list[0]] + Without(list[1..], files)
  }

  function Dropped(list: seq<Lock>, files: int): set<nat> {
    set i | 0 <= i < |list| && list[i].owner.files == files :: list[i].id
  }

  ghost predicate Step(w: World, e: Event, w': World) {
    match e
    case Grant(inode, req) =>
      && ValidRange(req) && !Blocked(w, req.owner) && Clear(Locks(w, inode), req) && NoUnlock(Locks(w, inode))
      && var ed := SetLock(Locks(w, inode), req, w.nextId, w.nextId + 1);
         w' == World(w.files[inode := ed.list], Unblock(w.blocked, inode, ed.woken), w.nextId + 2)
    case Sleep(inode, req) =>
      && ValidRange(req) && !Blocked(w, req.owner)
      && exists i :: 0 <= i < |Locks(w, inode)| && Blocks(w, inode, req, i)
                     && !Reaches(w, Locks(w, inode)[i].owner, req.owner)
                     && w' == w.(blocked := [Waiter(req, inode, Locks(w, inode)[i].id)] + w.blocked)
    case Wake(o) =>
      w' == w.(blocked := Remove(w.blocked, o))
    case Close(inode, files) =>
      var list := Locks(w, inode);
      w' == w.(files := w.files[inode := Without(list, files)],
               blocked := Unblock(w.blocked, inode, Dropped(list, files)))
  }

  /** The i-th lock is the first that conflicts with the request. */
  ghost predicate Blocks(w: World, inode: int, req: Lock, i: int)
    requires 0 <= i < |Locks(w, inode)|
  {
    && Conflict(req, Locks(w, inode)[i])
    && forall k :: 0 <= k < i ==> !Conflict(req, Locks(w, inode)[k])
  }

  // ---------------------------------------------------------------------------
  // Invariants
  // ---------------------------------------------------------------------------

  /** No structure is linked twice, and none that is not yet allocated. */
  ghost predicate Named(w: World) {
    forall inode, x: nat :: Count(Locks(w, inode), x) <= 1 && (x >= w.nextId ==> Count(Locks(w, inode), x) == 0)
  }

  ghost predicate Fair(list: seq<Lock>) {
    NoUnlock(list) && Exclusive(list)
  }

  /** A sleeper still waits for a lock that is in its inode's list and still conflicts with it. */
  ghost predicate Justly(w: World, x: Waiter) {
    exists i :: 0 <= i < |Locks(w, x.inode)| && Locks(w, x.inode)[i].id == x.blocker
                && Conflict(x.req, Locks(w, x.inode)[i])
  }

  ghost predicate OncePerOwner(blocked: seq<Waiter>) {
    forall i, j :: 0 <= i < j < |blocked| ==> blocked[i].req.owner != blocked[j].req.owner
  }

  ghost predicate Ranked(w: World, rank: Owner -> nat) {
    forall o :: Next(w, o).Some? ==> rank(o) > rank(Next(w, o).value)
  }

  ghost predicate Inv(w: World) {
    && Named(w)
    && (forall inode :: Fair(Locks(w, inode)))
    && (forall i :: 0 <= i < |w.blocked| ==> Justly(w, w.blocked[i]))
    && OncePerOwner(w.blocked)
    && exists rank: Owner -> nat :: Ranked(w, rank)
  }

  // ---------------------------------------------------------------------------
  // The wait-for graph
  // ---------------------------------------------------------------------------

  lemma Hop(w: World, x: Owner, y: Owner, a: Owner)
    requires Next(w, x) == Some(y)
    ensures Reaches(w, x, a) <==> x == a || Reaches(w, y, a)
  {
    if x == a { assert Chase(w, x, 0) == Some(a); }
    if Reaches(w, y, a) {
      var n: nat :| Chase(w, y, n) == Some(a);
      assert Chase(w, x, n + 1) == Some(a);
    }
    if Reaches(w, x, a) && x != a {
      var n: nat :| Chase(w, x, n) == Some(a);
      assert Chase(w, y, n - 1) == Some(a);
    }
  }

  lemma {:induction false} RankFalls(w: World, rank: Owner -> nat, o: Owner, n: nat)
    requires Ranked(w, rank) && Chase(w, o, n).Some?
    ensures rank(Chase(w, o, n).value) + n <= rank(o)
    decreases n
  {
    if n == 0 {
    } else {
      RankFalls(w, rank, Next(w, o).value, n - 1);
    }
  }

  lemma RankedIsAcyclic(w: World, rank: Owner -> nat)
    requires Ranked(w, rank)
    ensures !Cyclic(w)
  {
    forall o: Owner, n: nat | n > 0 && Chase(w, o, n) == Some(o) ensures false {
      RankFalls(w, rank, o, n);
    }
  }

  /** w' is w with the edge from a to b added to the graph. */
  ghost predicate AddsEdge(w: World, w': World, a: Owner, b: Owner) {
    && Next(w, a) == None && Next(w', a) == Some(b)
    && forall o :: o != a ==> Next(w', o) == Next(w, o)
  }

  lemma EdgeKeepsRank(w: World, w': World, a: Owner, b: Owner, rank: Owner -> nat) returns (rank': Owner -> nat)
    requires AddsEdge(w, w', a, b) && Ranked(w, rank) && !Reaches(w, b, a)
    ensures Ranked(w', rank')
  {
    rank' := (o: Owner) => if Reaches(w, o, a) then rank(o) + rank(b) + 1 else rank(o);
    assert Chase(w, a, 0) == Some(a);
    forall o | Next(w', o).Some? ensures rank'(o) > rank'(Next(w', o).value) {
      if o != a { Hop(w, o, Next(w, o).value, a); }
    }
  }

  lemma {:induction false} ChaseKept(w: World, w': World, a: Owner, b: Owner, o: Owner, n: nat)
    requires AddsEdge(w, w', a, b) && Chase(w, o, n).Some?
    ensures Chase(w', o, n) == Chase(w, o, n)
    decreases n
  {
    if n == 0 {
    } else {
      assert o != a;
      ChaseKept(w, w', a, b, Next(w, o).value, n - 1);
    }
  }

  /** Theorem: blocking a on a lock of b closes a cycle exactly when b already waits for a,
      which is when posix_lock_file answers -EDEADLK. */
  lemma DeadlockExactly(w: World, w': World, a: Owner, b: Owner)
    requires Inv(w) && AddsEdge(w, w', a, b)
    ensures Cyclic(w') <==> Reaches(w, b, a)
  {
    var rank: Owner -> nat :| Ranked(w, rank);
    if Reaches(w, b, a) {
      var n: nat :| Chase(w, b, n) == Some(a);
      ChaseKept(w, w', a, b, b, n);
      assert Chase(w', a, n + 1) == Some(a);
    } else {
      var rank' := EdgeKeepsRank(w, w', a, b, rank);
      RankedIsAcyclic(w', rank');
    }
  }

  // ---------------------------------------------------------------------------
  // What each step keeps
  // ---------------------------------------------------------------------------

  lemma {:induction false} FindAt(list: seq<Lock>, i: nat)
    requires i < |list| && Count(list, list[i].id) <= 1
    ensures Find(list, list[i].id) == Some(list[i])
  {
    if i == 0 {
    } else {
      CountAt(list[1..], i - 1);
      FindAt(list[1..], i - 1);
    }
  }

  lemma {:induction false} NextAt(w: World, blocked: seq<Waiter>, i: nat)
    requires i < |blocked| && OncePerOwner(blocked)
    ensures NextIn(w, blocked, blocked[i].req.owner) == OwnerOf(Find(Locks(w, blocked[i].inode), blocked[i].blocker))
  {
    if i == 0 {
    } else {
      assert blocked[1..][i - 1] == blocked[i];
      NextAt(w, blocked[1..], i - 1);
    }
  }

  lemma {:induction false} NextNone(w: World, blocked: seq<Waiter>, o: Owner)
    requires forall i :: 0 <= i < |blocked| ==> blocked[i].req.owner != o
    ensures NextIn(w, blocked, o) == None
  {
    if blocked == [] {
    } else {
      NextNone(w, blocked[1..], o);
    }
  }

  /** `less` is a selection of `blocked`. */
  ghost predicate Selects(less: seq<Waiter>, blocked: seq<Waiter>) {
    && OncePerOwner(less)
    && forall x :: x in less ==> x in blocked
  }

  lemma {:induction false} UnblockSelects(blocked: seq<Waiter>, inode: int, woken: set<nat>)
    requires OncePerOwner(blocked)
    ensures Selects(Unblock(blocked, inode, woken), blocked)
    ensures forall x :: x in Unblock(blocked, inode, woken) ==> !(x.inode == inode && x.blocker in woken)
  {
    if blocked == [] {
    } else {
      var rest := Unblock(blocked[1..], inode, woken);
      UnblockSelects(blocked[1..], inode, woken);
      forall i | 0 <= i < |rest| ensures rest[i].req.owner != blocked[0].req.owner {
        assert rest[i] in blocked[1..];
      }
    }
  }

  lemma {:induction false} RemoveSelects(blocked: seq<Waiter>, o: Owner)
    requires OncePerOwner(blocked)
    ensures Selects(Remove(blocked, o), blocked)
    ensures forall x :: x in Remove(blocked, o) ==> x.req.owner != o
  {
    if blocked == [] {
    } else {
      var rest := Remove(blocked[1..], o);
      RemoveSelects(blocked[1..], o);
      forall i | 0 <= i < |rest| ensures rest[i].req.owner != blocked[0].req.owner {
        assert rest[i] in blocked[1..];
      }
      assert forall x :: x in blocked[1..] ==> x.req.owner != blocked[0].req.owner;
    }
  }

  /** The waiters of w' are some of those of w, and each still waits justly for the same owner. */
  ghost predicate Fewer(w: World, w': World) {
    && Selects(w'.blocked, w.blocked)
    && forall x :: x in w'.blocked ==>
         Justly(w', x) && OwnerOf(Find(Locks(w', x.inode), x.blocker)) == OwnerOf(Find(Locks(w, x.inode), x.blocker))
  }

  lemma FewerKeepsRank(w: World, w': World, rank: Owner -> nat)
    requires OncePerOwner(w.blocked) && Fewer(w, w') && Ranked(w, rank)
    ensures Ranked(w', rank)
  {
    forall o | Next(w', o).Some? ensures Next(w', o) == Next(w, o) {
      if i :| 0 <= i < |w'.blocked| && w'.blocked[i].req.owner == o {
        var x := w'.blocked[i];
        assert x in w'.blocked;
        var j :| 0 <= j < |w.blocked| && w.blocked[j] == x;
        NextAt(w', w'.blocked, i);
        NextAt(w, w.blocked, j);
      } else {
        NextNone(w', w'.blocked, o);
      }
    }
  }

  /** A lock that survives an edit keeps its waiters waiting justly, and for the same owner. */
  lemma StillJust(w: World, w': World, x: Waiter, woken: set<nat>)
    requires Named(w) && Named(w') && Justly(w, x)
    requires x.blocker !in woken
    requires forall i :: 0 <= i < |Locks(w, x.inode)| ==>
               Survives(Locks(w, x.inode)[i], Locks(w', x.inode), woken)
    ensures Justly(w', x)
    ensures OwnerOf(Find(Locks(w', x.inode), x.blocker)) == OwnerOf(Find(Locks(w, x.inode), x.blocker))
  {
    var list, list' := Locks(w, x.inode), Locks(w', x.inode);
    var i :| 0 <= i < |list| && list[i].id == x.blocker && Conflict(x.req, list[i]);
    assert Survives(list[i], list', woken);
    var j :| 0 <= j < |list'| && Extends(list'[j], list[i]);
    FindAt(list, i);
    FindAt(list', j);
  }

  lemma JustElsewhere(w: World, w': World, x: Waiter)
    requires Justly(w, x) && Locks(w', x.inode) == Locks(w, x.inode)
    ensures Justly(w', x)
  {
    var i :| 0 <= i < |Locks(w, x.inode)| && Locks(w, x.inode)[i].id == x.blocker
             && Conflict(x.req, Locks(w, x.inode)[i]);
    assert Locks(w', x.inode)[i].id == x.blocker;
  }

  lemma FairExcept(w: World, w': World, inode: int)
    requires Inv(w) && Fair(Locks(w', inode))
    requires forall i :: i != inode ==> Locks(w', i) == Locks(w, i)
    ensures forall i :: Fair(Locks(w', i))
  {
    forall i ensures Fair(Locks(w', i)) { if i != inode { assert Fair(Locks(w, i)); } }
  }

  lemma SameFiles(w: World, w': World)
    requires Inv(w) && w'.files == w.files && w'.nextId == w.nextId
    ensures Named(w') && forall i :: Fair(Locks(w', i))
  {
    forall i ensures Fair(Locks(w', i)) { assert Fair(Locks(w, i)); }
    forall i, x: nat
      ensures Count(Locks(w', i), x) <= 1 && (x >= w'.nextId ==> Count(Locks(w', i), x) == 0)
    {
      assert Count(Locks(w, i), x) <= 1;
    }
  }

  lemma GrantNamed(w: World, inode: int, req: Lock, w': World)
    requires Named(w) && Step(w, Grant(inode, req), w')
    ensures Named(w')
  {
    forall i, x: nat
      ensures Count(Locks(w', i), x) <= 1 && (x >= w'.nextId ==> Count(Locks(w', i), x) == 0)
    {
      if i == inode { SetLockIds(Locks(w, inode), req, w.nextId, w.nextId + 1, x); }
      assert Count(Locks(w, i), x) <= 1;
    }
  }

  /** A waiter that the edit of the inode's list did not wake. */
  lemma StillBlocked(w: World, w': World, inode: int, ed: Edit, x: Waiter)
    requires Named(w) && Named(w') && Justly(w, x) && w'.files == w.files[inode := ed.list]
    requires forall i :: 0 <= i < |Locks(w, inode)| ==> Survives(Locks(w, inode)[i], ed.list, ed.woken)
    requires !(x.inode == inode && x.blocker in ed.woken)
    ensures Justly(w', x)
    ensures OwnerOf(Find(Locks(w', x.inode), x.blocker)) == OwnerOf(Find(Locks(w, x.inode), x.blocker))
  {
    hide Named, Justly, Find, Survives;
    if x.inode == inode { StillJust(w, w', x, ed.woken); } else { JustElsewhere(w, w', x); }
  }

  lemma GrantFewer(w: World, inode: int, req: Lock, w': World)
    requires Inv(w) && Named(w') && Step(w, Grant(inode, req), w')
    ensures Fewer(w, w')
  {
    hide Named, Fair, Justly, Find, Survives, Ranked, Clear, NoUnlock, OncePerOwner, ValidRange, Blocked;
    var ed := SetLock(Locks(w, inode), req, w.nextId, w.nextId + 1);
    SetLockSound(Locks(w, inode), req, w.nextId, w.nextId + 1);
    hide SetLock;
    UnblockSelects(w.blocked, inode, ed.woken);
    hide Unblock;
    forall x | x in w'.blocked
      ensures Justly(w', x) && OwnerOf(Find(Locks(w', x.inode), x.blocker)) == OwnerOf(Find(Locks(w, x.inode), x.blocker))
    {
      assert x in w.blocked;
      StillBlocked(w, w', inode, ed, x);
    }
  }

  lemma GrantInv(w: World, inode: int, req: Lock, w': World)
    requires Inv(w) && Step(w, Grant(inode, req), w')
    ensures Inv(w')
  {
    var list := Locks(w, inode);
    hide SetLock, SoundEdit, Named, Exclusive, NoUnlock, Justly, Ranked, Clear, OncePerOwner, Unblock, Find;
    GrantNamed(w, inode, req, w');
    GrantFewer(w, inode, req, w');
    SetLockSound(list, req, w.nextId, w.nextId + 1);
    SetLockNoUnlock(list, req, w.nextId, w.nextId + 1);
    GrantExclusive(list, req, SetLock(list, req, w.nextId, w.nextId + 1));
    FairExcept(w, w', inode);
    var rank: Owner -> nat :| Ranked(w, rank);
    FewerKeepsRank(w, w', rank);
  }

  lemma SleepInv(w: World, inode: int, req: Lock, w': World)
    requires Inv(w) && Step(w, Sleep(inode, req), w')
    ensures Inv(w')
  {
    var list := Locks(w, inode);
    var i :| 0 <= i < |list| && Blocks(w, inode, req, i) && !Reaches(w, list[i].owner, req.owner)
             && w' == w.(blocked := [Waiter(req, inode, list[i].id)] + w.blocked);
    FindAt(list, i);
    NextNone(w, w.blocked, req.owner);
    assert w'.blocked[1..] == w.blocked;
    forall o | o != req.owner ensures Next(w', o) == Next(w, o) { NextFrame(w, w', w.blocked, o); }
    assert AddsEdge(w, w', req.owner, list[i].owner);
    var rank: Owner -> nat :| Ranked(w, rank);
    var rank' := EdgeKeepsRank(w, w', req.owner, list[i].owner, rank);
    forall k | 0 <= k < |w'.blocked| ensures Justly(w', w'.blocked[k]) {
      if k > 0 { JustElsewhere(w, w', w.blocked[k - 1]); }
    }
    SameFiles(w, w');
  }

  lemma {:induction false} NextFrame(w: World, w': World, blocked: seq<Waiter>, o: Owner)
    requires w'.files == w.files
    ensures NextIn(w', blocked, o) == NextIn(w, blocked, o)
  {
    if blocked == [] {
    } else {
      NextFrame(w, w', blocked[1..], o);
    }
  }

  lemma WakeInv(w: World, o: Owner, w': World)
    requires Inv(w) && Step(w, Wake(o), w')
    ensures Inv(w')
  {
    RemoveSelects(w.blocked, o);
    SameFiles(w, w');
    forall x | x in w'.blocked ensures Justly(w', x) { JustElsewhere(w, w', x); }
    var rank: Owner -> nat :| Ranked(w, rank);
    FewerKeepsRank(w, w', rank);
  }

  lemma {:induction false} WithoutSurvives(list: seq<Lock>, files: int, i: nat)
    requires i < |list|
    ensures list[i].owner.files == files || list[i] in Without(list, files)
  {
    if i == 0 {
    } else {
      WithoutSurvives(list[1..], files, i - 1);
    }
  }

  lemma {:induction false} WithoutCount(list: seq<Lock>, files: int, x: nat)
    ensures Count(Without(list, files), x) <= Count(list, x)
  {
    if list == [] {
    } else {
      WithoutCount(list[1..], files, x);
      if list[0].owner.files != files { assert Without(list, files)[1..] == Without(list[1..], files); }
    }
  }

  lemma {:induction false} WithoutMembers(list: seq<Lock>, files: int)
    ensures forall l :: l in Without(list, files) ==> l in list && l.owner.files != files
  {
    if list == [] {
    } else {
      WithoutMembers(list[1..], files);
    }
  }

  lemma CloseInv(w: World, inode: int, files: int, w': World)
    requires Inv(w) && Step(w, Close(inode, files), w')
    ensures Inv(w')
  {
    var list, list' := Locks(w, inode), Without(Locks(w, inode), files);
    var woken := Dropped(list, files);
    WithoutMembers(list, files);
    forall i, x: nat
      ensures Count(Locks(w', i), x) <= 1 && (x >= w'.nextId ==> Count(Locks(w', i), x) == 0)
    {
      if i == inode { WithoutCount(list, files, x); }
      assert Count(Locks(w, i), x) <= 1;
    }
    forall i | 0 <= i < |list| ensures Survives(list[i], list', woken) {
      WithoutSurvives(list, files, i);
      if list[i].owner.files != files {
        var j :| 0 <= j < |list'| && list'[j] == list[i];
        StandsAt(list', j, list[i], woken);
      }
    }
    UnblockSelects(w.blocked, inode, woken);
    forall x | x in w'.blocked
      ensures Justly(w', x) && OwnerOf(Find(Locks(w', x.inode), x.blocker)) == OwnerOf(Find(Locks(w, x.inode), x.blocker))
    {
      assert x in w.blocked && Justly(w, x);
      if x.inode == inode { StillJust(w, w', x, woken); } else { JustElsewhere(w, w', x); }
    }
    var rank: Owner -> nat :| Ranked(w, rank);
    FewerKeepsRank(w, w', rank);
    forall o, k, b | Held(list', o, k, b) ensures Held(list, o, k, b) { HeldSubset(list', list, o, k, b); }
    assert Fair(list');
    FairExcept(w, w', inode);
  }

  lemma HeldSubset(list': seq<Lock>, list: seq<Lock>, o: Owner, k: Kind, b: int)
    requires Held(list', o, k, b) && forall l :: l in list' ==> l in list
    ensures Held(list, o, k, b)
  {
    var i :| 0 <= i < |list'| && list'[i].owner == o && list'[i].kind == k && Covers(list'[i], b);
    assert list'[i] in list;
    var j :| 0 <= j < |list| && list[j] == list'[i];
  }

  // ---------------------------------------------------------------------------
  // Whole runs
  // ---------------------------------------------------------------------------

  ghost predicate Behaviour(ws: seq<World>, es: seq<Event>) {
    && |ws| == |es| + 1 && ws[0] == INITIAL
    && forall i :: 0 <= i < |es| ==> Step(ws[i], es[i], ws[i + 1])
  }

  lemma InitialInv()
    ensures Inv(INITIAL)
  {
    forall o ensures Next(INITIAL, o) == None { }
    assert Ranked(INITIAL, o => 0);
    assert forall i :: Locks(INITIAL, i) == [];
  }

  lemma StepInv(w: World, e: Event, w': World)
    requires Inv(w) && Step(w, e, w')
    ensures Inv(w')
  {
    match e
    case Grant(inode, req) => GrantInv(w, inode, req, w');
    case Sleep(inode, req) => SleepInv(w, inode, req, w');
    case Wake(o) => WakeInv(w, o, w');
    case Close(inode, files) => CloseInv(w, inode, files, w');
  }

  lemma {:induction false} RunInv(ws: seq<World>, es: seq<Event>, n: nat)
    requires Behaviour(ws, es) && n <= |es|
    ensures Inv(ws[n])
  {
    if n == 0 { InitialInv(); } else {
      RunInv(ws, es, n - 1);
      StepInv(ws[n - 1], es[n - 1], ws[n]);
    }
  }

  /** Theorem: in every state of every run the wait-for graph has no cycle, no byte is held by two
      owners of which one has a write lock, every sleeper waits for a lock that is still
      there and still conflicts with its request, and no structure is linked twice into a list. */
  lemma RunSafe(ws: seq<World>, es: seq<Event>, n: nat)
    requires Behaviour(ws, es) && n <= |es|
    ensures !Cyclic(ws[n])
    ensures forall inode :: Exclusive(Locks(ws[n], inode))
    ensures forall x :: x in ws[n].blocked ==> Justly(ws[n], x)
    ensures forall inode :: DistinctIds(Locks(ws[n], inode))
  {
    RunInv(ws, es, n);
    forall inode ensures DistinctIds(Locks(ws[n], inode)) { DistinctMeansSingle(Locks(ws[n], inode)); }
    var rank: Owner -> nat :| Ranked(ws[n], rank);
    RankedIsAcyclic(ws[n], rank);
    forall inode ensures Exclusive(Locks(ws[n], inode)) { assert Fair(Locks(ws[n], inode)); }
  }

  /** posix_locks_deadlock. On every reachable state it terminates, and it answers yes exactly when
      the blocker's owner already waits, directly or not, for the caller. */
  method PosixLocksDeadlock(w: World, caller: Owner, blocker: Owner) returns (deadlock: bool)
    requires Inv(w)
    ensures deadlock <==> Reaches(w, blocker, caller)
  {
    ghost var rank: Owner -> nat :| Ranked(w, rank);
    var o := blocker;
    while true
      invariant Reaches(w, blocker, caller) <==> Reaches(w, o, caller)
      decreases rank(o)
    {
      if o == caller {
        assert Chase(w, o, 0) == Some(caller);
        return true;
      }
      var i := 0;
      while i < |w.blocked| && w.blocked[i].req.owner != o
        invariant 0 <= i <= |w.blocked|
        invariant forall k :: 0 <= k < i ==> w.blocked[k].req.owner != o
      {
        i := i + 1;
      }
      if i == |w.blocked| {
        NextNone(w, w.blocked, o);
        assert forall n: nat :: n > 0 ==> Chase(w, o, n) == None;
        return false;
      }
      NextAt(w, w.blocked, i);
      WaiterFound(w, i);
      var fl := Find(Locks(w, w.blocked[i].inode), w.blocked[i].blocker);
      Hop(w, o, fl.value.owner, caller);
      o := fl.value.owner;
    }
  }

  lemma WaiterFound(w: World, i: nat)
    requires Inv(w) && i < |w.blocked|
    ensures Find(Locks(w, w.blocked[i].inode), w.blocked[i].blocker).Some?
  {
    var x := w.blocked[i];
    var j :| 0 <= j < |Locks(w, x.inode)| && Locks(w, x.inode)[j].id == x.blocker
             && Conflict(x.req, Locks(w, x.inode)[j]);
    FindAt(Locks(w, x.inode), j);
  }

  /** posix_test_lock and posix_lock_file disagree exactly on a request to unlock under a foreign
      write lock; fcntl_getlk lets no such request through. */
  lemma TestMatchesGrant(list: seq<Lock>, fl: Lock)
    requires NoUnlock(list)
    ensures (Clear(list, fl) <==> forall i :: 0 <= i < |list| ==> !Conflict(list[i], fl)) <==>
            (fl.kind == Unlock ==> forall i :: 0 <= i < |list| && list[i].owner != fl.owner && Overlap(list[i], fl) ==>
                                               list[i].kind != Write)
  {
    forall i | 0 <= i < |list| ensures list[i].kind != Unlock { assert list[i] in list; }
  }

  /** Such a request: nothing stops posix_lock_file, but posix_test_lock would report the write lock. */
  lemma UnlockDiffers()
    ensures var list := [Lock(0, Owner(1, 1), Write, 0, 9)];
            var fl := Lock(1, Owner(2, 2), Unlock, 0, 9);
            NoUnlock(list) && Clear(list, fl) && Conflict(list[0], fl)
  {
  }

  // ---------------------------------------------------------------------------
  // The simple meaning: a map from (inode, owner, byte) to the kind last set there
  // ---------------------------------------------------------------------------

  /** What the events say about one byte of one owner, read from the last event back. */
  ghost function LastWord(es: seq<Event>, inode: int, o: Owner, b: int): Kind {
    if es == [] then Unlock
    else
      var e := es[|es| - 1];
      if e.Grant? && e.inode == inode && e.req.owner == o && Covers(e.req, b) then e.req.kind
      else if e.Close? && e.inode == inode && o.files == e.files then Unlock
      else LastWord(es[..|es| - 1], inode, o, b)
  }

  /** No request runs to the end of the file next to an own lock of its kind. */
  ghost predicate HazardFree(ws: seq<World>, es: seq<Event>) {
    && |ws| == |es| + 1
    && forall i :: 0 <= i < |es| && es[i].Grant? ==> !Hazard(Locks(ws[i], es[i].inode), es[i].req)
  }

  /** Where the locks that locks_remove_posix keeps stood in the list. */
  lemma {:induction false} Positions(list: seq<Lock>, files: int) returns (p: seq<nat>)
    ensures |p| == |Without(list, files)|
    ensures forall i :: 0 <= i < |p| ==> p[i] < |list| && list[p[i]] == Without(list, files)[i]
    ensures forall i, j :: 0 <= i < j < |p| ==> p[i] < p[j]
  {
    if list == [] { return []; }
    var q := Positions(list[1..], files);
    var kept := Without(list[1..], files);
    p := Shifted(q);
    forall i | 0 <= i < |q| ensures p[i] < |list| && list[p[i]] == kept[i] {
      assert list[p[i]] == list[1..][q[i]];
    }
    if list[0].owner.files != files {
      assert Without(list, files) == [list[0]] + kept;
      p := [0] + p;
    }
  }

  ghost function Shifted(q: seq<nat>): (p: seq<nat>)
    ensures |p| == |q| && forall i :: 0 <= i < |q| ==> p[i] == q[i] + 1
  {
    seq(|q|, i requires 0 <= i < |q| => q[i] + 1)
  }

  lemma WithoutCanonical(list: seq<Lock>, files: int)
    requires Canonical(list)
    ensures Canonical(Without(list, files))
  {
    var p := Positions(list, files);
    var l' := Without(list, files);
    forall i, j, k | 0 <= i < j < k < |l'| && l'[i].owner == l'[k].owner ensures l'[j].owner == l'[i].owner {
      assert list[p[i]] == l'[i] && list[p[j]] == l'[j] && list[p[k]] == l'[k] && p[i] < p[j] < p[k];
    }
    forall i, j | 0 <= i < j < |l'| && l'[i].owner == l'[j].owner ensures Before(l'[i], l'[j]) {
      assert list[p[i]] == l'[i] && list[p[j]] == l'[j] && p[i] < p[j];
    }
  }

  lemma HeldWithout(list: seq<Lock>, files: int, o: Owner, k: Kind, b: int)
    ensures Held(Without(list, files), o, k, b) <==> o.files != files && Held(list, o, k, b)
  {
    WithoutMembers(list, files);
    if Held(Without(list, files), o, k, b) { HeldSubset(Without(list, files), list, o, k, b); }
    if o.files != files && Held(list, o, k, b) {
      var i :| 0 <= i < |list| && list[i].owner == o && list[i].kind == k && Covers(list[i], b);
      WithoutSurvives(list, files, i);
      var j :| 0 <= j < |Without(list, files)| && Without(list, files)[j] == list[i];
    }
  }

  lemma StepMeaning(w: World, e: Event, w': World, inode: int, o: Owner, k: Kind, b: int)
    requires Inv(w) && Step(w, e, w') && k != Unlock && Canonical(Locks(w, inode))
    requires e.Grant? ==> !Hazard(Locks(w, e.inode), e.req)
    ensures Canonical(Locks(w', inode))
    ensures Held(Locks(w', inode), o, k, b) <==>
            if e.Grant? && e.inode == inode && e.req.owner == o && Covers(e.req, b) then k == e.req.kind
            else !(e.Close? && e.inode == inode && o.files == e.files) && Held(Locks(w, inode), o, k, b)
  {
    var list := Locks(w, inode);
    if e.Grant? && e.inode == inode {
      SetLockCanonical(list, e.req, w.nextId, w.nextId + 1);
      SetLockSound(list, e.req, w.nextId, w.nextId + 1);
    } else if e.Close? && e.inode == inode {
      WithoutCanonical(list, e.files);
      HeldWithout(list, e.files, o, k, b);
    } else {
      assert Locks(w', inode) == list;
    }
  }

  /** Theorem: after any run the lists are canonical and mean exactly the map that the events
      wrote, each granted request overwriting its own bytes and each close clearing its owner's. */
  lemma {:induction false} RunMeaning(ws: seq<World>, es: seq<Event>, n: nat, inode: int, o: Owner, k: Kind, b: int)
    requires Behaviour(ws, es) && HazardFree(ws, es) && n <= |es| && k != Unlock
    ensures Canonical(Locks(ws[n], inode))
    ensures Held(Locks(ws[n], inode), o, k, b) <==> LastWord(es[..n], inode, o, b) == k
  {
    if n == 0 {
    } else {
      RunMeaning(ws, es, n - 1, inode, o, k, b);
      RunInv(ws, es, n - 1);
      hide Canonical, Held, Inv, Step, Hazard;
      StepMeaning(ws[n - 1], es[n - 1], ws[n], inode, o, k, b);
      assert es[..n][..n - 1] == es[..n - 1];
    }
  }

  /** Locks of two owners that may share a byte. */
  predicate Compatible(k: Kind, k': Kind) {
    k == Unlock || k' == Unlock || (k == Read && k' == Read)
  }

  /** A request is let through exactly when no byte of it is held by another owner in a way that may not be shared. */
  lemma ClearMeans(list: seq<Lock>, req: Lock)
    requires NoUnlock(list) && ValidRange(req) && forall i :: 0 <= i < |list| ==> Legal(list[i])
    ensures Clear(list, req) <==>
            forall p, k, b :: p != req.owner && Covers(req, b) && Held(list, p, k, b) ==> Compatible(k, req.kind)
  {
    if Clear(list, req) {
      forall p, k, b | p != req.owner && Covers(req, b) && Held(list, p, k, b) ensures Compatible(k, req.kind) {
        var i :| 0 <= i < |list| && list[i].owner == p && list[i].kind == k && Covers(list[i], b);
        assert !Conflict(req, list[i]);
      }
    } else {
      var i :| 0 <= i < |list| && Conflict(req, list[i]);
      assert list[i] in list && Legal(list[i]);
      assert Held(list, list[i].owner, list[i].kind, Max(req.start, list[i].start));
    }
  }

  /** Theorem: after any run a request is let through exactly when no byte of it is left under a lock of another owner
      that may not be shared with it. */
  lemma RunRefuses(ws: seq<World>, es: seq<Event>, n: nat, inode: int, req: Lock)
    requires Behaviour(ws, es) && HazardFree(ws, es) && n <= |es| && ValidRange(req)
    ensures Clear(Locks(ws[n], inode), req) <==>
            forall p, b :: p != req.owner && Covers(req, b) ==> Compatible(LastWord(es[..n], inode, p, b), req.kind)
  {
    var list := Locks(ws[n], inode);
    RunInv(ws, es, n);
    assert NoUnlock(list) by { assert Fair(list); }
    forall p, k, b | k != Unlock ensures Held(list, p, k, b) <==> LastWord(es[..n], inode, p, b) == k {
      RunMeaning(ws, es, n, inode, p, k, b);
    }
    RunMeaning(ws, es, n, inode, req.owner, Read, 0);
    HeldKinds(list);
    hide Inv, Behaviour, HazardFree, LastWord, Held, Clear, NoUnlock;
    assert forall i :: 0 <= i < |list| ==> Legal(list[i]);
    hide Canonical;
    ClearMeans(list, req);
    if Clear(list, req) {
      forall p, b | p != req.owner && Covers(req, b) ensures Compatible(LastWord(es[..n], inode, p, b), req.kind) {
        var k := LastWord(es[..n], inode, p, b);
        assert k != Unlock ==> Held(list, p, k, b);
      }
    } else {
      var p, k, b :| p != req.owner && Covers(req, b) && Held(list, p, k, b) && !Compatible(k, req.kind);
      assert LastWord(es[..n], inode, p, b) == k;
    }
  }

  lemma HeldKinds(list: seq<Lock>)
    requires NoUnlock(list)
    ensures forall p, b :: !Held(list, p, Unlock, b)
  {
    forall p, b ensures !Held(list, p, Unlock, b) {
      forall i | 0 <= i < |list| ensures list[i].kind != Unlock { assert list[i] in list; }
    }
  }

  /** Theorem: whom each step leaves asleep. A grant wakes those whose blocker it edited, a close those whose blocker it
      dropped, and nobody else stops waiting but by leaving alone. */
  lemma StepWaiters(w: World, e: Event, w': World, x: Waiter)
    requires Inv(w) && Step(w, e, w')
    ensures x in w'.blocked <==>
      match e
      case Grant(inode, req) =>
        && x in w.blocked
        && !(x.inode == inode && x.blocker in SetLock(Locks(w, inode), req, w.nextId, w.nextId + 1).woken)
      case Sleep(inode, req) =>
        x in w.blocked || (w'.blocked != [] && x == w'.blocked[0] && x.req == req && x.inode == inode)
      case Wake(o) => x in w.blocked && x.req.owner != o
      case Close(inode, files) =>
        x in w.blocked &&
        !(x.inode == inode && exists i :: 0 <= i < |Locks(w, inode)| && Locks(w, inode)[i].id == x.blocker &&
                                           Locks(w, inode)[i].owner.files == files)
  {
    hide Inv;
    match e
    case Grant(inode, req) =>
      UnblockIs(w.blocked, inode, SetLock(Locks(w, inode), req, w.nextId, w.nextId + 1).woken, x);
      hide SetLock;
    case Sleep(inode, req) =>
    case Wake(o) =>
      assert OncePerOwner(w.blocked) by { OnceIn(w); }
      RemoveIs(w.blocked, o, x);
    case Close(inode, files) => UnblockIs(w.blocked, inode, Dropped(Locks(w, inode), files), x);
  }

  lemma OnceIn(w: World)
    requires Inv(w)
    ensures OncePerOwner(w.blocked)
  {
  }

  lemma {:induction false} UnblockIs(blocked: seq<Waiter>, inode: int, woken: set<nat>, x: Waiter)
    ensures x in Unblock(blocked, inode, woken) <==> x in blocked && !(x.inode == inode && x.blocker in woken)
  {
    if blocked == [] {
    } else {
      UnblockIs(blocked[1..], inode, woken, x);
    }
  }

  lemma {:induction false} RemoveIs(blocked: seq<Waiter>, o: Owner, x: Waiter)
    requires OncePerOwner(blocked)
    ensures x in Remove(blocked, o) <==> x in blocked && x.req.owner != o
  {
    if blocked == [] {
    } else {
      RemoveIs(blocked[1..], o, x);
      if blocked[0].req.owner == o {
        assert forall i :: 1 <= i < |blocked| ==> blocked[i].req.owner != o;
      }
    }
  }
}
