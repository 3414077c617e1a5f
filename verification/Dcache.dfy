/**
  fs/dcache.c and fs/namei.c: the dentry cache updated in place, and every run of its operations.
*/
module Dcache {
  import opened Basics
  import opened Dentries
  import opened DentryMoves

  /** A hashed dentry under `parent` with this name. */
  predicate Matches(d: map<nat, Dentry>, x: nat, parent: nat, name: Name) {
    x in d && d[x].hashed && d[x].parent == parent && d[x].name == name
  }

  class DentryCache {
    var d: map<nat, Dentry>
    var unused: seq<nat>
    var nrUnused: int
    var table: map<int, seq<nat>>
    const h: (nat, int) -> int

    ghost function View(): Cache
      reads this
    {
      Cache(d, unused, nrUnused, table, h)
    }

    constructor (h: (nat, int) -> int)
      ensures this.h == h && View() == Cache(map[], [], 0, map[], h)
    {
      this.h := h;
      d, unused, nrUnused, table := map[], [], 0, map[];
    }

    /** __dget_locked. */
    method DgetLocked(x: nat)
      requires x in d
      modifies this
      ensures View() == Get(old(View()), x)
    {
      d := d[x := d[x].(count := d[x].count + 1, refs := d[x].refs + 1)];
      if d[x].count == 1 {
        nrUnused := nrUnused - 1;
        unused := Del(unused, x);
      }
    }

    /** list_del_init(&dentry->d_hash). */
    method DDrop(x: nat)
      requires x in d
      modifies this
      ensures View() == Unhash(old(View()), x)
    {
      if d[x].hashed {
        var b := h(d[x].parent, d[x].name.hash);
        table := table[b := Del(if b in table then table[b] else [], x)];
        d := d[x := d[x].(hashed := false)];
      }
    }

    /** dput: one loop goes up the chain of parents that the put lets fall. */
    method Dput(x: nat, doomed: set<nat>)
      requires Wf(View()) && x in d && d[x].refs > 0
      modifies this
      ensures View() == Put(old(View()), x, doomed)
    {
      var dentry := x;
      ghost var whole := Put(View(), x, doomed);
      while true
        invariant Wf(View()) && dentry in d && d[dentry].refs > 0
        invariant Put(View(), dentry, doomed) == whole
        decreases |d|
      {
        ghost var s := View();
        var e := d[dentry].(count := d[dentry].count - 1, refs := d[dentry].refs - 1);
        if e.count > 0 {
          d := d[dentry := e];
          return;
        }
        // The source calls BUG() here for a dentry that is on the unused list.
        assert dentry !in unused;
        if e.hashed && dentry !in doomed {
          d := d[dentry := e];
          unused := [dentry] + unused;
          nrUnused := nrUnused + 1;
          return;
        }
        ReleaseWf(s, dentry);
        ReleaseFacts(s, dentry);
        var parent := d[dentry].parent;
        KillIt(dentry);
        if dentry == parent { return; }
        dentry := parent;
      }
    }

    /** The label kill_it of dput: unhash, unlink from the parent and free. */
    method KillIt(x: nat)
      requires x in d && d[x].parent in d
      modifies this
      ensures View() == Release(old(View()), x)
    {
      DDrop(x);
      var p := d[x].parent;
      if p != x { d := d[p := d[p].(refs := d[p].refs + 1, subs := Del(d[p].subs, x))]; }
      d := d - {x};
    }

    /** One turn of prune_dcache. */
    method PruneOldest(doomed: set<nat>)
      requires Wf(View()) && unused != []
      modifies this
      ensures View() == PruneOne(old(View()), doomed) && Wf(View()) && |d| < |old(d)|
    {
      ghost var s := View();
      var x := unused[|unused| - 1];
      UnusedFacts(s, x);
      GetWf(s, x);
      ReleaseWf(Get(s, x), x);
      ReleaseFacts(Get(s, x), x);
      PruneOneSafe(s, doomed, 0);
      hide Wf;
      var parent := d[x].parent;
      // The source calls BUG() here for a dentry in use.
      assert d[x].count == 0;
      DgetLocked(x);
      KillIt(x);
      if parent != x { Dput(parent, doomed); }
    }

    /** prune_dcache. */
    method PruneDcache(count: int, doomed: set<nat>)
      requires Wf(View())
      modifies this
      ensures View() == Prune(old(View()), count, doomed)
    {
      hide Wf;
      var n := count;
      ghost var whole := Prune(View(), count, doomed);
      while unused != []
        invariant Wf(View()) && Prune(View(), n, doomed) == whole
        decreases |d|
      {
        PruneOldest(doomed);
        n := n - 1;
        if n == 0 { return; }
      }
    }

    /** d_lookup. It looks at one bucket, and finds a dentry exactly when some hashed dentry anywhere
        has this parent and name. */
    method DLookup(parent: nat, name: Name) returns (r: Option<nat>)
      requires Wf(View())
      modifies this
      ensures r.None? ==> View() == old(View()) && forall x :: !Matches(old(d), x, parent, name)
      ensures r.Some? ==> Matches(old(d), r.value, parent, name) && View() == Get(old(View()), r.value)
      ensures r.Some? ==> var e := old(d)[r.value]; d == old(d)[r.value := e.(refs := e.refs + 1, count := e.count + 1)]
    {
      var b := h(parent, name.hash);
      var chain := if b in table then table[b] else [];
      ghost var s := View();
      assert chain == Bucket(s, b);
      var i := 0;
      while i < |chain|
        invariant 0 <= i <= |chain| && View() == s
        invariant forall k :: 0 <= k < i ==> !Matches(d, chain[k], parent, name)
      {
        var dentry := chain[i];
        assert dentry in Bucket(s, b);
        assert dentry in d && d[dentry].hashed;
        if d[dentry].name.hash == name.hash && d[dentry].parent == parent && d[dentry].name.text == name.text {
          DgetLocked(dentry);
          return Some(dentry);
        }
        i := i + 1;
      }
      ChainOf(s, b);
      assert forall x :: Matches(d, x, parent, name) ==> Home(s, x) == b && x in chain;
      r := None;
    }

    /** is_subdir: walks the parents up; it terminates because the tree is loop-free. */
    method IsSubdir(newDentry: nat, oldDentry: nat) returns (result: bool)
      requires Tree(d) && LoopFree(d) && newDentry in d
      ensures result <==> Below(d, newDentry, oldDentry)
    {
      ghost var rank: nat -> nat :| Ranked(d, rank);
      var x := newDentry;
      while x != oldDentry
        invariant x in d && (Below(d, newDentry, oldDentry) <==> Below(d, x, oldDentry))
        decreases rank(x)
      {
        assert Node(d, x);
        var parent := d[x].parent;
        if parent == x {
          BelowRoot(d, x, oldDentry);
          return false;
        }
        BelowStep(d, x, oldDentry);
        x := parent;
      }
      assert Up(d, x, 0) == oldDentry;
      result := true;
    }

    /** The part of vfs_rename_dir from the check for loops to d_move; `error` is what the filesystem's
        rename says. It fails for a target that is a directory still holding the source. */
    method RenameDir(a: nat, b: nat, garbled: string, error: bool) returns (ok: bool)
      requires Wf(View()) && a in d && b in d && a != b && d[a].parent != a && d[b].parent != b
      requires d[a].count > 0 && d[b].count > 0
      requires Below(d, a, b) ==> error
      modifies this
      ensures ok <==> !error && !Below(old(d), b, a)
      ensures View() == if ok then Move(old(View()), a, b, garbled) else old(View())
      ensures Wf(View())
    {
      ghost var s := View();
      var sub := IsSubdir(b, a);
      if sub || error { return false; }
      MoveWf(s, a, b, garbled);
      DMove(a, b, garbled);
      ok := true;
    }

    /** d_move, one list operation after the other. */
    method DMove(a: nat, b: nat, garbled: string)
      requires Tree(d) && a in d && b in d && a != b && d[a].parent != a && d[b].parent != b
      modifies this
      ensures View() == Move(old(View()), a, b, garbled)
    {
      var pa, pb := d[a].parent, d[b].parent;
      SwitchChains(a, b);
      SwitchPlaces(a, b, pa, pb, garbled);
    }

    /** The lists of children and the fields of the two dentries. */
    method SwitchPlaces(a: nat, b: nat, pa: nat, pb: nat, garbled: string)
      requires Tree(d) && a in d && b in d && a != b && pa == d[a].parent != a && pb == d[b].parent != b
      modifies this`d
      ensures d == map y | y in old(d) :: MovedDentry(old(d), a, b, garbled, y)
    {
      StepsAreMove(d, a, b, garbled);
      hide Tree, Unlinked, Linked, Switched, MovedDentry;
      d := Unlinked(d, pa, a);
      d := Unlinked(d, pb, b);
      d := Switched(d, a, b, garbled);
      d := Linked(d, pa, b);
      d := Linked(d, pb, a);
    }

    /** The hash chains: the dentry takes the target's place and the target leaves. */
    method SwitchChains(a: nat, b: nat)
      requires a in d && b in d
      modifies this`table
      ensures table == MovedTable(old(View()), a, b)
    {
      var e, f := d[a], d[b];
      var from, to := h(e.parent, e.name.hash), h(f.parent, f.name.hash);
      if e.hashed { table := table[from := Del(if from in table then table[from] else [], a)]; }
      if f.hashed { table := table[to := Swap(if to in table then table[to] else [], b, a)]; }
    }
  }

  /** list_del on the d_child of x. */
  function Unlinked(d: map<nat, Dentry>, p: nat, x: nat): (d': map<nat, Dentry>)
    requires p in d
    ensures d'.Keys == d.Keys
    ensures forall y :: y in d ==> d'[y] == d[y].(subs := if y == p then Del(d[y].subs, x) else d[y].subs)
  {
    d[p := d[p].(subs := Del(d[p].subs, x))]
  }

  /** list_add of x to the children of p. */
  function Linked(d: map<nat, Dentry>, p: nat, x: nat): (d': map<nat, Dentry>)
    requires p in d
    ensures d'.Keys == d.Keys
    ensures forall y :: y in d ==> d'[y] == d[y].(subs := if y == p then [x] + d[y].subs else d[y].subs)
  {
    d[p := d[p].(subs := [x] + d[p].subs)]
  }

  /** The fields of the two dentries change hands; of the target's name only the hash is kept right. */
  function Switched(d: map<nat, Dentry>, a: nat, b: nat, garbled: string): (d': map<nat, Dentry>)
    requires a in d && b in d && a != b
    ensures d'.Keys == d.Keys && forall y :: y in d && y != a && y != b ==> d'[y] == d[y]
    ensures d'[a] == d[a].(parent := d[b].parent, name := d[b].name, hashed := d[b].hashed)
    ensures d'[b] == d[b].(parent := d[a].parent, name := Name(d[a].name.hash, garbled), hashed := false)
  {
    d[a := d[a].(parent := d[b].parent, name := d[b].name, hashed := d[b].hashed)]
     [b := d[b].(parent := d[a].parent, name := Name(d[a].name.hash, garbled), hashed := false)]
  }

  /** What the five list operations of d_move make of one dentry. */
  lemma StepsAt(d: map<nat, Dentry>, a: nat, b: nat, garbled: string, y: nat)
    requires Tree(d) && a in d && b in d && a != b && d[a].parent != a && d[b].parent != b
    requires d[a].parent in d && d[b].parent in d && y in d
    ensures var u := Unlinked(Unlinked(d, d[a].parent, a), d[b].parent, b);
            Linked(Linked(Switched(u, a, b, garbled), d[a].parent, b), d[b].parent, a)[y] ==
            MovedDentry(d, a, b, garbled, y)
  {
    hide Unlinked, Linked, Switched, Tree, Del;
    SubsAfterMove(d, a, b, y);
    var pa, pb := d[a].parent, d[b].parent;
    var u1 := Unlinked(d, pa, a);
    var u2 := Unlinked(u1, pb, b);
    var v := Switched(u2, a, b, garbled);
    var w1 := Linked(v, pa, b);
    assert u2[y].subs == Del(Del(d[y].subs, a), b);
    assert v[y] == MovedDentry(d, a, b, garbled, y).(subs := u2[y].subs);
    assert w1[y].subs == if y == pa then [b] + u2[y].subs else u2[y].subs;
  }

  lemma StepsAreMove(d: map<nat, Dentry>, a: nat, b: nat, garbled: string)
    requires Tree(d) && a in d && b in d && a != b && d[a].parent != a && d[b].parent != b
    ensures d[a].parent in d && d[b].parent in d
    ensures var u := Unlinked(Unlinked(d, d[a].parent, a), d[b].parent, b);
            Linked(Linked(Switched(u, a, b, garbled), d[a].parent, b), d[b].parent, a) ==
            map y | y in d :: MovedDentry(d, a, b, garbled, y)
  {
    assert Node(d, a) && Node(d, b);
    hide Tree, Unlinked, Linked, Switched, MovedDentry;
    var u := Unlinked(Unlinked(d, d[a].parent, a), d[b].parent, b);
    var w := Linked(Linked(Switched(u, a, b, garbled), d[a].parent, b), d[b].parent, a);
    forall y | y in d ensures w[y] == MovedDentry(d, a, b, garbled, y) { StepsAt(d, a, b, garbled, y); }
    assert w.Keys == d.Keys;
    Tabulated(w, d, a, b, garbled);
  }

  lemma Tabulated(w: map<nat, Dentry>, d: map<nat, Dentry>, a: nat, b: nat, garbled: string)
    requires a in d && b in d && w.Keys == d.Keys && forall y :: y in d ==> w[y] == MovedDentry(d, a, b, garbled, y)
    ensures w == map y | y in d :: MovedDentry(d, a, b, garbled, y)
  {
    hide MovedDentry;
  }

  /** Each of the two is in its own parent's list only, so unlinking it there unlinks it everywhere. */
  lemma SubsAfterMove(d: map<nat, Dentry>, a: nat, b: nat, y: nat)
    requires Tree(d) && a in d && b in d && a != b && d[a].parent != a && d[b].parent != b && y in d
    ensures Del(Del(d[y].subs, a), b) ==
            var once := if y == d[a].parent then Del(d[y].subs, a) else d[y].subs;
            if y == d[b].parent then Del(once, b) else once
  {
    assert Node(d, y);
    assert a in d[y].subs <==> Child(d, a, y);
    assert b in d[y].subs <==> Child(d, b, y);
    DelKeeps(d[y].subs, a);
  }

  // ---------------------------------------------------------------------------
  // Whole runs
  // ---------------------------------------------------------------------------

  /** dput and prune_dcache drop dcache_lock before they go on to the parent, so each turn of theirs is an event:
      one turn of dput on a reference held from outside, which may be the one a turn before left on the parent,
      and one turn of prune_dcache. d_alloc takes its reference to the parent before it takes the lock, so it is a Dget
      of the parent and then a DAlloc. */
  datatype Event =
    | DAllocRoot(x: nat, name: Name)
    | DAlloc(x: nat, p: nat, name: Name)
    | Dget(x: nat)
    | DputTurn(x: nat, unwanted: bool)
    | PruneTurn
    | Drop(x: nat)
    | DRehash(x: nat)
    | Rename(a: nat, b: nat, garbled: string)

  /** What the callers of each operation must hold; a rename has passed is_subdir and the filesystem. */
  ghost predicate Enabled(s: Cache, e: Event) {
    match e
    case DAllocRoot(x, name) => x !in s.d
    case DAlloc(x, p, name) => x !in s.d && p in s.d && s.d[p].refs > 0
    case Dget(x) => x in s.d
    case DputTurn(x, unwanted) => x in s.d && s.d[x].refs > 0
    case PruneTurn => s.unused != []
    case Drop(x) => x in s.d && s.d[x].count > 0
    case DRehash(x) => x in s.d && !s.d[x].hashed
    case Rename(a, b, garbled) => Movable(s.d, a, b)
  }

  /** One turn of dput leaves a dentry that stays, or frees it and leaves a reference to its parent. */
  ghost function PutTurn(s: Cache, x: nat, unwanted: bool): Cache
    requires Wf(s) && x in s.d && s.d[x].refs > 0
  {
    if s.d[x].count > 1 || (s.d[x].hashed && !unwanted) then Decrement(s, x)
    else
      ReleaseWf(s, x);
      Release(s, x)
  }

  /** One turn of prune_dcache takes the oldest unused dentry and frees it the same way. */
  ghost function PruneTurnOf(s: Cache): Cache
    requires Wf(s) && s.unused != []
  {
    var x := s.unused[|s.unused| - 1];
    UnusedFacts(s, x);
    Release(Get(s, x), x)
  }

  ghost function Next(s: Cache, e: Event): Cache
    requires Wf(s) && Enabled(s, e)
  {
    match e
    case DAllocRoot(x, name) => AllocRoot(s, x, name)
    case DAlloc(x, p, name) => Alloc(s, x, p, name)
    case Dget(x) => Get(s, x)
    case DputTurn(x, unwanted) => PutTurn(s, x, unwanted)
    case PruneTurn => PruneTurnOf(s)
    case Drop(x) => Unhash(s, x)
    case DRehash(x) => Rehash(s, x)
    case Rename(a, b, garbled) => Move(s, a, b, garbled)
  }

  /** The whole of dput, and of a turn of prune_dcache, is one such turn and then dput of the parent. */
  lemma PutIsTurns(s: Cache, x: nat, doomed: set<nat>)
    requires Wf(s) && x in s.d && s.d[x].refs > 0
    ensures var t := PutTurn(s, x, x in doomed);
      if x in t.d || s.d[x].parent == x then Put(s, x, doomed) == t
      else s.d[x].parent in t.d && t.d[s.d[x].parent].refs > 0 && Wf(t) && Put(s, x, doomed) == Put(t, s.d[x].parent, doomed)
  {
    if s.d[x].count > 1 || (s.d[x].hashed && x !in doomed) {
      DecrementWf(s, x);
    } else {
      ReleaseWf(s, x);
      ReleaseFacts(s, x);
    }
    hide Wf, Release;
  }

  lemma PruneOneIsTurns(s: Cache, doomed: set<nat>)
    requires Wf(s) && s.unused != []
    ensures var t, p := PruneTurnOf(s), s.d[s.unused[|s.unused| - 1]].parent;
      if p in t.d then t.d[p].refs > 0 && Wf(t) && PruneOne(s, doomed) == Put(t, p, doomed) else PruneOne(s, doomed) == t
  {
    var x := s.unused[|s.unused| - 1];
    UnusedFacts(s, x);
    GetWf(s, x);
    ReleaseWf(Get(s, x), x);
    ReleaseFacts(Get(s, x), x);
    hide Wf, Release;
  }

  lemma PutTurnWf(s: Cache, x: nat, unwanted: bool)
    requires Wf(s) && x in s.d && s.d[x].refs > 0
    ensures Wf(PutTurn(s, x, unwanted))
  {
    if s.d[x].count > 1 || (s.d[x].hashed && !unwanted) { DecrementWf(s, x); } else { ReleaseWf(s, x); }
  }

  lemma PruneTurnWf(s: Cache)
    requires Wf(s) && s.unused != []
    ensures Wf(PruneTurnOf(s))
  {
    var x := s.unused[|s.unused| - 1];
    UnusedFacts(s, x);
    GetWf(s, x);
    hide Wf;
    ReleaseWf(Get(s, x), x);
  }

  lemma NextWf(s: Cache, e: Event)
    requires Wf(s) && Enabled(s, e)
    ensures Wf(Next(s, e))
  {
    hide Wf, PutTurn, PruneTurnOf;
    match e
    case DAllocRoot(x, name) => AllocRootWf(s, x, name);
    case DAlloc(x, p, name) => AllocWf(s, x, p, name);
    case Dget(x) => GetWf(s, x);
    case DputTurn(x, unwanted) => PutTurnWf(s, x, unwanted);
    case PruneTurn => PruneTurnWf(s);
    case Drop(x) => UnhashWf(s, x);
    case DRehash(x) => RehashWf(s, x);
    case Rename(a, b, garbled) => MoveWf(s, a, b, garbled);
  }

  /** A turn of dput changes no parent, and frees at most the dentry it is for, at its last reference. */
  lemma PutTurnFacts(s: Cache, x: nat, unwanted: bool, y: nat)
    requires Wf(s) && x in s.d && s.d[x].refs > 0 && y in s.d
    ensures var t := PutTurn(s, x, unwanted);
      if y in t.d then t.d[y].parent == s.d[y].parent else y == x && s.d[x].refs == 1 && s.d[x].subs == []
  {
    if !(s.d[x].count > 1 || (s.d[x].hashed && !unwanted)) {
      ReleaseWf(s, x);
      ReleaseFacts(s, x);
    }
    hide Release, Tree, Hashed, LoopFree, UnusedOk;
  }

  /** Nor does a turn of prune_dcache, and what it frees nobody holds. */
  lemma PruneTurnFacts(s: Cache, y: nat)
    requires Wf(s) && s.unused != [] && y in s.d
    ensures var t := PruneTurnOf(s);
      if y in t.d then t.d[y].parent == s.d[y].parent else s.d[y].refs == 0
  {
    var x := s.unused[|s.unused| - 1];
    UnusedFacts(s, x);
    ReleaseFacts(Get(s, x), x);
    hide Release, Wf;
  }

  /** Roots stay roots, and no other dentry becomes one. */
  lemma NextRoots(s: Cache, e: Event)
    requires Wf(s) && Enabled(s, e)
    ensures SameRoots(s.d, Next(s, e).d)
  {
    hide Wf, PutTurn, PruneTurnOf, Move;
    match e
    case DputTurn(x, unwanted) => forall y | y in s.d { PutTurnFacts(s, x, unwanted, y); }
    case PruneTurn => forall y | y in s.d { PruneTurnFacts(s, y); }
    case Rename(a, b, garbled) => MoveWf(s, a, b, garbled);
    case _ =>
  }

  /** Whoever holds a reference to a dentry keeps it: it is freed in a step only if that step puts its last one. */
  lemma HeldStays(s: Cache, e: Event, y: nat)
    requires Wf(s) && Enabled(s, e) && y in s.d && s.d[y].refs > 0 && y !in Next(s, e).d
    ensures e.DputTurn? && e.x == y && s.d[y].refs == 1 && s.d[y].subs == []
  {
    hide Wf, PutTurn, PruneTurnOf;
    match e
    case DputTurn(x, unwanted) => PutTurnFacts(s, x, unwanted, y);
    case PruneTurn => PruneTurnFacts(s, y);
    case _ =>
  }

  ghost predicate Step(s: Cache, e: Event, t: Cache) {
    Wf(s) ==> Enabled(s, e) && t == Next(s, e)
  }

  ghost predicate Behaviour(ss: seq<Cache>, es: seq<Event>) {
    && |ss| == |es| + 1
    && (exists h: (nat, int) -> int :: ss[0] == Cache(map[], [], 0, map[], h))
    && forall i :: 0 <= i < |es| ==> Step(ss[i], es[i], ss[i + 1])
  }

  /** Theorem: in every state of every run, with the turns of any number of dputs and prunings interleaved, every
      d_count is the outside references plus the children, the unused list holds exactly the dentries with count
      zero, nr_unused is its length, every hashed dentry is in its own bucket, and following the parents ends at
      a root; and no step makes or unmakes a root. */
  lemma {:induction false} RunWf(ss: seq<Cache>, es: seq<Event>, n: nat)
    requires Behaviour(ss, es) && n <= |es|
    ensures Wf(ss[n]) && (n < |es| ==> SameRoots(ss[n].d, ss[n + 1].d))
  {
    if n == 0 {
      var h: (nat, int) -> int :| ss[0] == Cache(map[], [], 0, map[], h);
      assert Ranked(ss[0].d, x => 0);
    } else {
      RunWf(ss, es, n - 1);
      hide Wf, Next;
      assert Step(ss[n - 1], es[n - 1], ss[(n - 1) + 1]);
      NextWf(ss[n - 1], es[n - 1]);
    }
    hide Wf, Next, SameRoots;
    if n < |es| {
      assert Step(ss[n], es[n], ss[n + 1]);
      NextRoots(ss[n], es[n]);
    }
  }
}
