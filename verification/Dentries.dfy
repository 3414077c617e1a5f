/**
  fs/dcache.c: the dentry tree with its reference counts, the list of unused dentries and the
  hash table.
*/
module Dentries {
  import opened Basics

  datatype Name = Name(hash: int, text: string)

  /** A struct dentry. `subs` is d_subdirs; `refs` counts the references held from outside the tree. */
  datatype Dentry = Dentry(parent: nat, name: Name, count: int, hashed: bool, refs: nat, subs: seq<nat>)

  /** All dentries by address, dentry_unused, nr_unused, and dentry_hashtable with its bucket function. */
  datatype Cache = Cache(d: map<nat, Dentry>, unused: seq<nat>, nrUnused: int,
                         table: map<int, seq<nat>>, h: (nat, int) -> int)

  // ---------------------------------------------------------------------------
  // Lists without repetition
  // ---------------------------------------------------------------------------

  ghost predicate NoDup(s: seq<nat>) {
    forall i, j :: 0 <= i < j < |s| ==> s[i] != s[j]
  }

  lemma {:induction false} DelKeeps(s: seq<nat>, x: nat)
    requires NoDup(s)
    ensures NoDup(Del(s, x))
    ensures forall y :: y in Del(s, x) <==> y in s && y != x
  {
    if s == [] {
    } else {
      DelKeeps(s[1..], x);
      if s[0] == x {
        assert forall y :: y in s[1..] ==> y != x;
      } else {
        assert forall y :: y in s <==> y == s[0] || y in s[1..];
        var r := Del(s[1..], x);
        assert s[0] !in r;
      }
    }
  }

  // ---------------------------------------------------------------------------
  // The invariant
  // ---------------------------------------------------------------------------

  function Bucket(s: Cache, b: int): seq<nat> {
    if b in s.table then s.table[b] else []
  }

  /** The bucket a dentry belongs to, by its own parent and hash. */
  function Home(s: Cache, x: nat): int
    requires x in s.d
  {
    s.h(s.d[x].parent, s.d[x].name.hash)
  }

  ghost predicate Child(d: map<nat, Dentry>, c: nat, p: nat) {
    c in d && d[c].parent == p && c != p
  }

  /** The parent of the dentry is there, and its d_subdirs lists exactly its children. */
  ghost predicate Node(d: map<nat, Dentry>, x: nat)
    requires x in d
  {
    && d[x].parent in d && NoDup(d[x].subs)
    && forall c {:trigger Child(d, c, x)} {:trigger c in d[x].subs} :: c in d[x].subs <==> Child(d, c, x)
  }

  ghost predicate Tree(d: map<nat, Dentry>) {
    forall x {:trigger Node(d, x)} :: x in d ==> Node(d, x)
  }

  /** d_count is the outside references plus the children. */
  ghost predicate Counted(d: map<nat, Dentry>) {
    forall x :: x in d ==> d[x].count == d[x].refs + |d[x].subs|
  }

  /** dentry_unused holds exactly the dentries with count zero, and those are hashed. */
  ghost predicate UnusedOk(d: map<nat, Dentry>, unused: seq<nat>, nrUnused: int) {
    && NoDup(unused) && nrUnused == |unused|
    && (forall x :: x in unused <==> x in d && d[x].count == 0)
    && (forall x :: x in d && d[x].count == 0 ==> d[x].hashed)
  }

  /** The hash table holds exactly the hashed dentries, each in its own bucket. */
  ghost predicate Hashed(s: Cache) {
    && (forall b :: NoDup(Bucket(s, b)))
    && (forall b, x :: x in Bucket(s, b) <==> x in s.d && s.d[x].hashed && Home(s, x) == b)
  }

  /** Following parents comes to a root: every dentry other than a root ranks above its parent. */
  ghost predicate Ranked(d: map<nat, Dentry>, rank: nat -> nat) {
    forall x {:trigger d[x]} :: x in d && d[x].parent != x ==> rank(x) > rank(d[x].parent)
  }

  ghost predicate LoopFree(d: map<nat, Dentry>) {
    exists rank: nat -> nat :: Ranked(d, rank)
  }

  ghost predicate Wf(s: Cache) {
    Tree(s.d) && Counted(s.d) && UnusedOk(s.d, s.unused, s.nrUnused) && Hashed(s) && LoopFree(s.d)
  }

  // ---------------------------------------------------------------------------
  // Operations
  // ---------------------------------------------------------------------------

  /** d_drop. */
  function Unhash(s: Cache, x: nat): Cache
    requires x in s.d
  {
    if s.d[x].hashed
    then s.(d := s.d[x := s.d[x].(hashed := false)], table := s.table[Home(s, x) := Del(Bucket(s, Home(s, x)), x)])
    else s
  }

  /** d_rehash. */
  function Rehash(s: Cache, x: nat): Cache
    requires x in s.d
  {
    s.(d := s.d[x := s.d[x].(hashed := true)], table := s.table[Home(s, x) := [x] + Bucket(s, Home(s, x))])
  }

  /** __dget_locked. */
  function Get(s: Cache, x: nat): Cache
    requires x in s.d
  {
    var e := s.d[x].(count := s.d[x].count + 1, refs := s.d[x].refs + 1);
    if e.count == 1 then s.(d := s.d[x := e], unused := Del(s.unused, x), nrUnused := s.nrUnused - 1)
    else s.(d := s.d[x := e])
  }

  /** The locked part of d_alloc under a parent, at the address `x`. The reference to the parent that d_alloc has taken
      before becomes that of the child. */
  function Alloc(s: Cache, x: nat, p: nat, name: Name): Cache
    requires p in s.d && s.d[p].refs > 0 && x !in s.d
  {
    var e := s.d[p];
    s.(d := s.d[p := e.(refs := e.refs - 1, subs := [x] + e.subs)][x := Dentry(p, name, 1, false, 1, [])])
  }

  /** d_alloc_root. */
  function AllocRoot(s: Cache, x: nat, name: Name): Cache
    requires x !in s.d
  {
    s.(d := s.d[x := Dentry(x, name, 1, false, 1, [])])
  }

  /** The dentry is gone; the reference its parent held for it now has to be put. */
  function Free(s: Cache, x: nat): Cache
    requires x in s.d && s.d[x].parent in s.d && !s.d[x].hashed
  {
    var p := s.d[x].parent;
    if p == x then s.(d := s.d - {x})
    else s.(d := s.d[p := s.d[p].(refs := s.d[p].refs + 1, subs := Del(s.d[p].subs, x))] - {x})
  }

  ghost predicate SameShape(d: map<nat, Dentry>, d': map<nat, Dentry>) {
    d'.Keys == d.Keys && forall x :: x in d ==> d'[x].parent == d[x].parent && d'[x].subs == d[x].subs
  }

  lemma ShapeKeeps(d: map<nat, Dentry>, d': map<nat, Dentry>)
    requires SameShape(d, d') && Tree(d) && LoopFree(d)
    ensures Tree(d') && LoopFree(d')
  {
    var rank: nat -> nat :| Ranked(d, rank);
    assert Ranked(d', rank);
    forall x | x in d' ensures Node(d', x) {
      assert Node(d, x);
      forall c ensures c in d'[x].subs <==> Child(d', c, x) { assert Child(d', c, x) == Child(d, c, x); }
    }
  }

  /** The table stays right when no dentry changes its key or its being hashed. */
  lemma HashKeeps(s: Cache, t: Cache)
    requires Hashed(s) && t.table == s.table && t.h == s.h && t.d.Keys == s.d.Keys
    requires forall x :: x in s.d ==> t.d[x].hashed == s.d[x].hashed && t.d[x].parent == s.d[x].parent
                                      && t.d[x].name == s.d[x].name
    ensures Hashed(t)
  {
    forall b ensures NoDup(Bucket(t, b)) { assert NoDup(Bucket(s, b)); }
    forall b, x ensures x in Bucket(t, b) <==> x in t.d && t.d[x].hashed && Home(t, x) == b {
      assert x in Bucket(s, b) <==> x in s.d && s.d[x].hashed && Home(s, x) == b;
    }
  }

  lemma UnhashHashed(s: Cache, x: nat)
    requires Hashed(s) && x in s.d && s.d[x].hashed
    ensures Hashed(Unhash(s, x))
  {
    var t := Unhash(s, x);
    var home := Home(s, x);
    DelKeeps(Bucket(s, home), x);
    forall b ensures NoDup(Bucket(t, b)) { assert NoDup(Bucket(s, b)); }
    forall b, y ensures y in Bucket(t, b) <==> y in t.d && t.d[y].hashed && Home(t, y) == b {
      assert y in Bucket(s, b) <==> y in s.d && s.d[y].hashed && Home(s, y) == b;
    }
  }

  lemma UnhashWf(s: Cache, x: nat)
    requires Wf(s) && x in s.d && s.d[x].count > 0
    ensures Wf(Unhash(s, x))
  {
    if s.d[x].hashed {
      ShapeKeeps(s.d, Unhash(s, x).d);
      UnhashHashed(s, x);
      hide Tree, LoopFree, Hashed;
    }
  }

  lemma RehashHashed(s: Cache, x: nat)
    requires Hashed(s) && x in s.d && !s.d[x].hashed
    ensures Hashed(Rehash(s, x))
  {
    var t := Rehash(s, x);
    forall b ensures NoDup(Bucket(t, b)) { assert NoDup(Bucket(s, b)); assert x !in Bucket(s, b); }
    forall b, y ensures y in Bucket(t, b) <==> y in t.d && t.d[y].hashed && Home(t, y) == b {
      assert y in Bucket(s, b) <==> y in s.d && s.d[y].hashed && Home(s, y) == b;
    }
  }

  lemma RehashWf(s: Cache, x: nat)
    requires Wf(s) && x in s.d && !s.d[x].hashed
    ensures Wf(Rehash(s, x))
  {
    ShapeKeeps(s.d, Rehash(s, x).d);
    RehashHashed(s, x);
    hide Tree, LoopFree, Hashed;
  }

  lemma GetWf(s: Cache, x: nat)
    requires Wf(s) && x in s.d
    ensures Wf(Get(s, x))
  {
    hide Tree, LoopFree, Hashed, Counted, UnusedOk;
    ShapeKeeps(s.d, Get(s, x).d);
    HashKeeps(s, Get(s, x));
    GetUnused(s, x);
  }

  lemma GetUnused(s: Cache, x: nat)
    requires Counted(s.d) && UnusedOk(s.d, s.unused, s.nrUnused) && x in s.d
    ensures Counted(Get(s, x).d) && UnusedOk(Get(s, x).d, Get(s, x).unused, Get(s, x).nrUnused)
  {
    DelKeeps(s.unused, x);
    hide NoDup, Del;
  }

  lemma AllocTree(s: Cache, x: nat, p: nat, name: Name)
    requires Tree(s.d) && p in s.d && s.d[p].refs > 0 && x !in s.d
    ensures Tree(Alloc(s, x, p, name).d)
  {
    var d, d' := s.d, Alloc(s, x, p, name).d;
    assert Node(d, p);
    assert x !in d[p].subs by { assert Child(d, x, p) == false; }
    forall y | y in d' ensures Node(d', y) {
      if y != x { assert Node(d, y); }
      forall c ensures c in d'[y].subs <==> Child(d', c, y) {
        if c == x {
          assert Child(d', x, y) <==> y == p;
          if y != x { assert Child(d, x, y) == false; }
        } else if y == x {
          if c in d { assert Node(d, c); }
          assert Child(d', c, y) == false;
        } else {
          assert Child(d', c, y) == Child(d, c, y);
        }
      }
    }
  }

  lemma AllocLoopFree(s: Cache, x: nat, p: nat, name: Name)
    requires Tree(s.d) && LoopFree(s.d) && p in s.d && s.d[p].refs > 0 && x !in s.d
    ensures LoopFree(Alloc(s, x, p, name).d)
  {
    var d, d' := s.d, Alloc(s, x, p, name).d;
    var rank: nat -> nat :| Ranked(d, rank);
    var rank' := (y: nat) => if y == x then rank(p) + 1 else rank(y);
    forall y | y in d' && d'[y].parent != y ensures rank'(y) > rank'(d'[y].parent) {
      if y != x { assert Node(d, y); }
    }
    assert Ranked(d', rank');
  }

  lemma AllocWf(s: Cache, x: nat, p: nat, name: Name)
    requires Wf(s) && p in s.d && s.d[p].refs > 0 && x !in s.d
    ensures Wf(Alloc(s, x, p, name))
  {
    hide Tree, LoopFree, NoDup;
    var t := Alloc(s, x, p, name);
    AllocTree(s, x, p, name);
    AllocLoopFree(s, x, p, name);
    AllocHashed(s, x, p, name);
    hide Hashed;
  }

  lemma AllocHashed(s: Cache, x: nat, p: nat, name: Name)
    requires Hashed(s) && p in s.d && s.d[p].refs > 0 && x !in s.d
    ensures Hashed(Alloc(s, x, p, name))
  {
    hide NoDup;
    var t := Alloc(s, x, p, name);
    forall b ensures NoDup(Bucket(t, b)) { assert NoDup(Bucket(s, b)); }
    forall b, y ensures y in Bucket(t, b) <==> y in t.d && t.d[y].hashed && Home(t, y) == b {
      assert y in Bucket(s, b) <==> y in s.d && s.d[y].hashed && Home(s, y) == b;
    }
  }

  lemma AllocRootWf(s: Cache, x: nat, name: Name)
    requires Wf(s) && x !in s.d
    ensures Wf(AllocRoot(s, x, name))
  {
    var t := AllocRoot(s, x, name);
    forall y | y in t.d ensures Node(t.d, y) {
      if y != x { assert Node(s.d, y); }
      forall c ensures c in t.d[y].subs <==> Child(t.d, c, y) {
        if c in s.d { assert Node(s.d, c); }
        assert y != x ==> Child(t.d, c, y) == Child(s.d, c, y);
        assert y == x ==> Child(t.d, c, y) == false;
      }
    }
    var rank: nat -> nat :| Ranked(s.d, rank);
    assert Ranked(t.d, rank);
    forall b ensures NoDup(Bucket(t, b)) { assert NoDup(Bucket(s, b)); }
    forall b, y ensures y in Bucket(t, b) <==> y in t.d && t.d[y].hashed && Home(t, y) == b {
      assert y in Bucket(s, b) <==> y in s.d && s.d[y].hashed && Home(s, y) == b;
    }
  }

  lemma FreeNode(s: Cache, x: nat, y: nat)
    requires Tree(s.d) && x in s.d && s.d[x].parent in s.d && s.d[x].subs == [] && !s.d[x].hashed
    requires y in s.d && y != x
    ensures y in Free(s, x).d && Free(s, x).d[y].parent == s.d[y].parent && Node(Free(s, x).d, y)
  {
    var d, d', p := s.d, Free(s, x).d, s.d[x].parent;
    assert Node(d, x) && Node(d, y);
    assert d[y].parent != x by { assert Child(d, y, x) == false; }
    DelKeeps(d[y].subs, x);
    forall c ensures c in d'[y].subs <==> Child(d', c, y) {
      assert c in d[y].subs <==> Child(d, c, y);
      assert c != x ==> Child(d', c, y) == Child(d, c, y);
      assert Child(d', x, y) == false;
      assert Child(d, x, y) <==> y == p;
    }
  }

  lemma FreeTree(s: Cache, x: nat)
    requires Tree(s.d) && LoopFree(s.d) && x in s.d && s.d[x].parent in s.d && s.d[x].subs == [] && !s.d[x].hashed
    ensures Tree(Free(s, x).d) && LoopFree(Free(s, x).d)
  {
    var d' := Free(s, x).d;
    var rank: nat -> nat :| Ranked(s.d, rank);
    hide Node;
    forall y | y in d' ensures Node(d', y) && d'[y].parent == s.d[y].parent { FreeNode(s, x, y); }
    assert Ranked(d', rank);
  }

  /** A dentry with a single reference from outside and no children is freed. */
  lemma FreeWf(s: Cache, x: nat)
    requires Wf(s) && x in s.d && s.d[x].parent in s.d && s.d[x].subs == [] && !s.d[x].hashed && s.d[x].count == 1
    ensures Wf(Free(s, x))
  {
    var t, p := Free(s, x), s.d[x].parent;
    FreeTree(s, x);
    if p != x { assert Node(s.d, p) && Child(s.d, x, p); }
    hide Tree, LoopFree, Node, Child, NoDup;
    FreeHashed(s, x);
    hide Hashed;
  }

  lemma FreeHashed(s: Cache, x: nat)
    requires Hashed(s) && x in s.d && s.d[x].parent in s.d && !s.d[x].hashed
    ensures Hashed(Free(s, x))
  {
    hide NoDup;
    var t := Free(s, x);
    forall b ensures NoDup(Bucket(t, b)) { assert NoDup(Bucket(s, b)); }
    forall b, y ensures y in Bucket(t, b) <==> y in t.d && t.d[y].hashed && Home(t, y) == b {
      assert y in Bucket(s, b) <==> y in s.d && s.d[y].hashed && Home(s, y) == b;
    }
  }

  // ---------------------------------------------------------------------------
  // dput
  // ---------------------------------------------------------------------------

  /** The label kill_it: unhash and free, which leaves a reference to the parent to be put. */
  function Release(s: Cache, x: nat): Cache
    requires x in s.d && s.d[x].parent in s.d
  {
    Free(Unhash(s, x), x)
  }

  lemma ReleaseFacts(s: Cache, x: nat)
    requires x in s.d && s.d[x].parent in s.d
    ensures Release(s, x).d.Keys == s.d.Keys - {x} && |Release(s, x).d| < |s.d|
    ensures var p := s.d[x].parent; p != x ==> p in Release(s, x).d && Release(s, x).d[p].refs == s.d[p].refs + 1
    ensures forall y :: y in Release(s, x).d && y != s.d[x].parent ==> Release(s, x).d[y] == s.d[y]
    ensures forall y :: y in Release(s, x).d ==>
      var e, e' := s.d[y], Release(s, x).d[y];
      e'.parent == e.parent && e'.count == e.count && e'.hashed == e.hashed && e'.name == e.name
  {
    hide Del, Home, Bucket;
    var t := Release(s, x);
    assert t.d.Keys == s.d.Keys - {x};
    SmallerMap(s.d, t.d, x);
  }

  lemma SmallerMap(d: map<nat, Dentry>, d': map<nat, Dentry>, x: nat)
    requires x in d && d'.Keys == d.Keys - {x}
    ensures |d'| < |d|
  {
    assert d.Keys == d'.Keys + {x};
    assert |d.Keys| == |d'.Keys| + 1;
  }

  lemma ReleaseWf(s: Cache, x: nat)
    requires Wf(s) && x in s.d && s.d[x].count == 1 && s.d[x].refs == 1
    ensures s.d[x].parent in s.d && Wf(Release(s, x)) && s.d[x].subs == []
  {
    assert Node(s.d, x);
    UnhashWf(s, x);
    var t := Unhash(s, x);
    assert t.d[x].subs == [] && t.d[x].count == 1 && t.d[x].parent == s.d[x].parent && !t.d[x].hashed && t.d.Keys == s.d.Keys;
    hide Wf, Unhash;
    FreeWf(t, x);
  }

  /** dput of a dentry that stays: it keeps other references, or it goes to the list of unused ones. */
  function Decrement(s: Cache, x: nat): Cache
    requires x in s.d && s.d[x].refs > 0
  {
    var e := s.d[x].(count := s.d[x].count - 1, refs := s.d[x].refs - 1);
    if e.count > 0 then s.(d := s.d[x := e])
    else s.(d := s.d[x := e], unused := [x] + s.unused, nrUnused := s.nrUnused + 1)
  }

  /** dput; d_delete of a dentry answers yes for those in `doomed`. */
  ghost function Put(s: Cache, x: nat, doomed: set<nat>): Cache
    requires Wf(s) && x in s.d && s.d[x].refs > 0
    decreases |s.d|
  {
    var e := s.d[x];
    if e.count > 1 || (e.hashed && x !in doomed) then Decrement(s, x)
    else
      ReleaseWf(s, x);
      ReleaseFacts(s, x);
      if e.parent == x then Release(s, x) else Put(Release(s, x), e.parent, doomed)
  }

  lemma DecrementWf(s: Cache, x: nat)
    requires Wf(s) && x in s.d && s.d[x].refs > 0 && (s.d[x].count > 1 || s.d[x].hashed)
    ensures Wf(Decrement(s, x))
  {
    hide Tree, LoopFree, Hashed, Counted, UnusedOk;
    ShapeKeeps(s.d, Decrement(s, x).d);
    HashKeeps(s, Decrement(s, x));
    DecrementUnused(s, x);
  }

  lemma DecrementUnused(s: Cache, x: nat)
    requires Counted(s.d) && UnusedOk(s.d, s.unused, s.nrUnused)
    requires x in s.d && s.d[x].refs > 0 && (s.d[x].count > 1 || s.d[x].hashed)
    ensures var t := Decrement(s, x); Counted(t.d) && UnusedOk(t.d, t.unused, t.nrUnused)
  {
    assert s.d[x].count >= 1 && x !in s.unused;
  }

  lemma {:induction false} PutWf(s: Cache, x: nat, doomed: set<nat>)
    requires Wf(s) && x in s.d && s.d[x].refs > 0
    ensures Wf(Put(s, x, doomed))
    decreases |s.d|
  {
    if s.d[x].count > 1 || (s.d[x].hashed && x !in doomed) {
      DecrementWf(s, x);
    } else {
      ReleaseWf(s, x);
      ReleaseFacts(s, x);
      if s.d[x].parent != x { PutWf(Release(s, x), s.d[x].parent, doomed); }
    }
  }

  /** The n-th dentry on the way from x to the root. */
  ghost function Up(d: map<nat, Dentry>, x: nat, n: nat): nat
    decreases n
  {
    if n == 0 || x !in d then x else Up(d, d[x].parent, n - 1)
  }

  /** Losing one reference leaves nothing that keeps this dentry. */
  predicate Falls(d: map<nat, Dentry>, doomed: set<nat>, y: nat) {
    y in d && d[y].count == 1 && (!d[y].hashed || y in doomed)
  }

  /** y is x or an ancestor, and it and everything from x up to it loses its last reference. */
  ghost predicate Dies(d: map<nat, Dentry>, doomed: set<nat>, x: nat, y: nat) {
    exists n: nat :: Up(d, x, n) == y && forall m: nat :: m <= n ==> Falls(d, doomed, Up(d, x, m))
  }

  lemma {:induction false} UpRank(d: map<nat, Dentry>, rank: nat -> nat, x: nat, n: nat)
    requires Ranked(d, rank)
    ensures rank(Up(d, x, n)) <= rank(x)
    decreases n
  {
    if n > 0 && x in d { UpRank(d, rank, d[x].parent, n - 1); }
  }

  lemma {:induction false} UpReleased(d: map<nat, Dentry>, d': map<nat, Dentry>, rank: nat -> nat, x: nat, p: nat, n: nat)
    requires Ranked(d, rank) && rank(p) < rank(x) && d'.Keys == d.Keys - {x}
    requires forall y :: y in d' ==> d'[y].parent == d[y].parent
    ensures Up(d', p, n) == Up(d, p, n) != x
    decreases n
  {
    if n > 0 && p in d {
      assert rank(d[p].parent) <= rank(p);
      UpReleased(d, d', rank, x, d[p].parent, n - 1);
    }
  }

  lemma DiesStep(s: Cache, x: nat, doomed: set<nat>, y: nat)
    requires Wf(s) && x in s.d && s.d[x].count == 1 && s.d[x].refs == 1 && (!s.d[x].hashed || x in doomed)
    requires s.d[x].parent != x && s.d[x].parent in s.d
    ensures Dies(s.d, doomed, x, y) <==> y == x || Dies(Release(s, x).d, doomed, s.d[x].parent, y)
  {
    var d, p := s.d, s.d[x].parent;
    ReleaseFacts(s, x);
    var d' := Release(s, x).d;
    var rank: nat -> nat :| Ranked(d, rank);
    forall m: nat ensures Up(d', p, m) == Up(d, p, m) == Up(d, x, m + 1) != x { UpReleased(d, d', rank, x, p, m); }
    assert forall m: nat :: Falls(d', doomed, Up(d', p, m)) == Falls(d, doomed, Up(d, x, m + 1));
    assert Up(d, x, 0) == x && Falls(d, doomed, x);
    if Dies(d, doomed, x, y) && y != x {
      var n: nat :| Up(d, x, n) == y && forall m: nat :: m <= n ==> Falls(d, doomed, Up(d, x, m));
      assert Up(d', p, n - 1) == y;
      assert forall m: nat :: m <= n - 1 ==> Falls(d', doomed, Up(d', p, m)) by {
        forall m: nat | m <= n - 1 ensures Falls(d', doomed, Up(d', p, m)) { assert Falls(d, doomed, Up(d, x, m + 1)); }
      }
    }
    if Dies(d', doomed, p, y) {
      var n: nat :| Up(d', p, n) == y && forall m: nat :: m <= n ==> Falls(d', doomed, Up(d', p, m));
      assert Up(d, x, n + 1) == y;
      forall m: nat | m <= n + 1 ensures Falls(d, doomed, Up(d, x, m)) {
        if m > 0 { assert Falls(d', doomed, Up(d', p, m - 1)); }
      }
    }
    if y == x { assert forall m: nat :: m <= 0 ==> Falls(d, doomed, Up(d, x, m)); }
  }

  /** Theorem: dput frees exactly the chain of dentries from x upwards that lose their last
      reference and are unhashed or unwanted, and takes one outside reference from x and from
      nobody else. */
  lemma {:induction false} PutExactly(s: Cache, x: nat, doomed: set<nat>, y: nat)
    requires Wf(s) && x in s.d && s.d[x].refs > 0 && y in s.d
    ensures y !in Put(s, x, doomed).d <==> Dies(s.d, doomed, x, y)
    ensures y in Put(s, x, doomed).d ==>
      var e, e' := s.d[y], Put(s, x, doomed).d[y];
      e'.refs == e.refs - (if y == x then 1 else 0) && e'.parent == e.parent && e'.hashed == e.hashed && e'.name == e.name
    decreases |s.d|
  {
    var e := s.d[x];
    if e.count > 1 || (e.hashed && x !in doomed) {
      assert !Falls(s.d, doomed, x) && Up(s.d, x, 0) == x;
    } else {
      ReleaseWf(s, x);
      ReleaseFacts(s, x);
      if e.parent == x {
        RootDies(s, x, doomed, y);
      } else {
        DiesStep(s, x, doomed, y);
        if y != x { PutExactly(Release(s, x), e.parent, doomed, y); } else { PutGone(Release(s, x), e.parent, doomed, x); }
      }
    }
  }

  lemma {:induction false} PutGone(s: Cache, x: nat, doomed: set<nat>, y: nat)
    requires Wf(s) && x in s.d && s.d[x].refs > 0 && y !in s.d
    ensures y !in Put(s, x, doomed).d
    decreases |s.d|
  {
    if s.d[x].count == 1 && (!s.d[x].hashed || x in doomed) {
      ReleaseWf(s, x);
      ReleaseFacts(s, x);
      if s.d[x].parent != x { PutGone(Release(s, x), s.d[x].parent, doomed, y); }
    }
  }

  lemma RootDies(s: Cache, x: nat, doomed: set<nat>, y: nat)
    requires x in s.d && s.d[x].parent == x && Falls(s.d, doomed, x)
    ensures Dies(s.d, doomed, x, y) <==> y == x
  {
    forall n: nat ensures Up(s.d, x, n) == x { UpRoot(s.d, x, n); }
    assert Up(s.d, x, 0) == x && forall m: nat :: m <= 0 ==> Falls(s.d, doomed, Up(s.d, x, m));
  }

  lemma {:induction false} UpRoot(d: map<nat, Dentry>, x: nat, n: nat)
    requires x in d && d[x].parent == x
    ensures Up(d, x, n) == x
    decreases n
  {
    if n == 0 {
    } else {
      UpRoot(d, x, n - 1);
    }
  }
}
