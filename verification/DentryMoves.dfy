/**
  fs/dcache.c and fs/namei.c: d_move, is_subdir and the check for loops around directory renames.
*/
module DentryMoves {
  import opened Basics
  import opened Dentries

  /** x lies below a, or is a. */
  ghost predicate Below(d: map<nat, Dentry>, x: nat, a: nat) {
    exists n: nat :: Up(d, x, n) == a
  }

  lemma BelowStep(d: map<nat, Dentry>, x: nat, a: nat)
    requires x in d && d[x].parent != x
    ensures Below(d, x, a) <==> x == a || Below(d, d[x].parent, a)
  {
    if x == a { assert Up(d, x, 0) == a; }
    if Below(d, d[x].parent, a) {
      var n: nat :| Up(d, d[x].parent, n) == a;
      assert Up(d, x, n + 1) == a;
    }
    if Below(d, x, a) && x != a {
      var n: nat :| Up(d, x, n) == a;
      assert Up(d, d[x].parent, n - 1) == a;
    }
  }

  lemma BelowRoot(d: map<nat, Dentry>, x: nat, a: nat)
    requires x in d && d[x].parent == x
    ensures Below(d, x, a) <==> x == a
  {
    forall n: nat ensures Up(d, x, n) == x { UpRoot(d, x, n); }
    assert Up(d, x, 0) == x;
  }

  lemma BelowRank(d: map<nat, Dentry>, rank: nat -> nat, x: nat, a: nat)
    requires Ranked(d, rank) && Below(d, x, a)
    ensures rank(a) <= rank(x)
  {
    var n: nat :| Up(d, x, n) == a;
    UpRank(d, rank, x, n);
  }

  /** The two parent lists after both dentries have been moved to the other's parent. */
  function MovedSubs(d: map<nat, Dentry>, a: nat, b: nat, y: nat): seq<nat>
    requires a in d && b in d && y in d
  {
    var rest := Del(Del(d[y].subs, a), b);
    var s := if y == d[a].parent then [b] + rest else rest;
    if y == d[b].parent then [a] + s else s
  }

  function MovedDentry(d: map<nat, Dentry>, a: nat, b: nat, garbled: string, y: nat): Dentry
    requires a in d && b in d && y in d
  {
    var e := d[y].(subs := MovedSubs(d, a, b, y));
    if y == a then e.(parent := d[b].parent, name := d[b].name, hashed := d[b].hashed)
    else if y == b then e.(parent := d[a].parent, name := Name(d[a].name.hash, garbled), hashed := false)
    else e
  }

  function Swap(s: seq<nat>, b: nat, a: nat): (r: seq<nat>)
    ensures |r| == |s|
    ensures forall i :: 0 <= i < |s| ==> r[i] == if s[i] == b then a else s[i]
  {
    seq(|s|, i requires 0 <= i < |s| => if s[i] == b then a else s[i])
  }

  /** The table after a has left its chain and taken b's place in b's chain. */
  function MovedTable(s: Cache, a: nat, b: nat): map<int, seq<nat>>
    requires a in s.d && b in s.d
  {
    var u := Unhash(s, a);
    if s.d[b].hashed then u.table[Home(s, b) := Swap(Bucket(u, Home(s, b)), b, a)] else u.table
  }

  /** d_move of `a` onto `b`. The text of b's name may be garbled. */
  function Move(s: Cache, a: nat, b: nat, garbled: string): Cache
    requires a in s.d && b in s.d
  {
    s.(d := map y | y in s.d :: MovedDentry(s.d, a, b, garbled, y), table := MovedTable(s, a, b))
  }

  ghost predicate Movable(d: map<nat, Dentry>, a: nat, b: nat) {
    && a in d && b in d && a != b && d[a].parent != a && d[b].parent != b
    && d[a].count > 0 && d[b].count > 0
    && !Below(d, b, a) && !Below(d, a, b)
  }

  lemma MovableParents(d: map<nat, Dentry>, a: nat, b: nat)
    requires Movable(d, a, b) && Tree(d)
    ensures d[a].parent in d && d[b].parent in d
    ensures d[a].parent != b && d[b].parent != a
  {
    assert Node(d, a) && Node(d, b);
    BelowStep(d, a, b);
    BelowStep(d, b, a);
    assert Up(d, b, 0) == b && Up(d, a, 0) == a;
    assert Below(d, b, b) && Below(d, a, a);
  }

  lemma MovedSubsIs(d: map<nat, Dentry>, a: nat, b: nat, y: nat)
    requires Tree(d) && Movable(d, a, b) && y in d
    ensures NoDup(MovedSubs(d, a, b, y)) && |MovedSubs(d, a, b, y)| == |d[y].subs|
    ensures forall c :: c in MovedSubs(d, a, b, y) <==>
              if c == a then y == d[b].parent else if c == b then y == d[a].parent else c in d[y].subs
  {
    MovableParents(d, a, b);
    assert Node(d, y);
    DelKeeps(d[y].subs, a);
    DelKeeps(Del(d[y].subs, a), b);
    assert a in d[y].subs <==> Child(d, a, y);
    assert b in d[y].subs <==> Child(d, b, y);
  }

  lemma MoveTree(s: Cache, a: nat, b: nat, garbled: string)
    requires Tree(s.d) && Movable(s.d, a, b)
    ensures Tree(Move(s, a, b, garbled).d)
  {
    var d, d' := s.d, Move(s, a, b, garbled).d;
    MovableParents(d, a, b);
    forall y | y in d' ensures Node(d', y) {
      assert Node(d, y);
      MovedSubsIs(d, a, b, y);
      forall c ensures c in d'[y].subs <==> Child(d', c, y) {
        assert c in d[y].subs <==> Child(d, c, y);
      }
    }
  }

  lemma MoveLoopFree(s: Cache, a: nat, b: nat, garbled: string)
    requires Tree(s.d) && LoopFree(s.d) && Movable(s.d, a, b)
    ensures LoopFree(Move(s, a, b, garbled).d)
  {
    assert a in s.d && b in s.d && a != b;
    hide Tree, LoopFree, Movable, MovedTable, MovedSubs;
    SwappedLoopFree(s.d, Move(s, a, b, garbled).d, a, b);
  }

  /** The ranks of the two moved subtrees are raised above the other's parent. */
  lemma SwappedLoopFree(d: map<nat, Dentry>, d': map<nat, Dentry>, a: nat, b: nat)
    requires LoopFree(d) && Movable(d, a, b) && d'.Keys == d.Keys
    requires d'[a].parent == d[b].parent && d'[b].parent == d[a].parent
    requires forall x :: x in d && x != a && x != b ==> d'[x].parent == d[x].parent
    ensures LoopFree(d')
  {
    var rank: nat -> nat :| Ranked(d, rank);
    var rank' := (x: nat) => Raised(d, rank, a, b, x);
    hide Raised, Below;
    forall x | x in d' && d'[x].parent != x ensures rank'(x) > rank'(d'[x].parent) {
      if x == a || x == b { RaisedEnds(d, rank, a, b); } else { RaisedFalls(d, rank, a, b, x); }
    }
    assert Ranked(d', rank');
  }

  /** What lies below a moved dentry ranks above the other's parent. */
  ghost function Raised(d: map<nat, Dentry>, rank: nat -> nat, a: nat, b: nat, x: nat): nat
    requires a in d && b in d
  {
    if Below(d, x, a) then rank(x) + rank(d[b].parent) + 1
    else if Below(d, x, b) then rank(x) + rank(d[a].parent) + 1 else rank(x)
  }

  lemma RaisedFalls(d: map<nat, Dentry>, rank: nat -> nat, a: nat, b: nat, x: nat)
    requires Ranked(d, rank) && a in d && b in d && x in d && x != a && x != b && d[x].parent != x
    ensures Raised(d, rank, a, b, x) > Raised(d, rank, a, b, d[x].parent)
  {
    BelowStep(d, x, a);
    BelowStep(d, x, b);
  }

  lemma RaisedEnds(d: map<nat, Dentry>, rank: nat -> nat, a: nat, b: nat)
    requires Ranked(d, rank) && Movable(d, a, b)
    ensures Raised(d, rank, a, b, a) > Raised(d, rank, a, b, d[b].parent)
    ensures Raised(d, rank, a, b, b) > Raised(d, rank, a, b, d[a].parent)
  {
    BelowStep(d, a, a);
    BelowStep(d, b, b);
    BelowStep(d, a, b);
    BelowStep(d, b, a);
    if Below(d, d[a].parent, a) { BelowRank(d, rank, d[a].parent, a); }
    if Below(d, d[b].parent, b) { BelowRank(d, rank, d[b].parent, b); }
  }

  lemma SwapIs(s: seq<nat>, b: nat, a: nat)
    requires NoDup(s) && a !in s
    ensures NoDup(Swap(s, b, a))
    ensures forall y :: y in Swap(s, b, a) <==> if y == a then b in s else y in s && y != b
  {
    var r := Swap(s, b, a);
    forall y | y in s && y != b ensures y in r {
      var i :| 0 <= i < |s| && s[i] == y;
      assert r[i] == y;
    }
    if b in s {
      var i :| 0 <= i < |s| && s[i] == b;
      assert r[i] == a;
    }
  }

  lemma MovedChain(s: Cache, a: nat, b: nat, garbled: string, k: int)
    requires Hashed(s) && a in s.d && b in s.d && a != b
    ensures var m := Move(s, a, b, garbled);
            NoDup(Bucket(m, k)) && forall y :: y in Bucket(m, k) <==> y in m.d && m.d[y].hashed && Home(m, y) == k
  {
    var m, u := Move(s, a, b, garbled), Unhash(s, a);
    if s.d[a].hashed { UnhashHashed(s, a); }
    assert Hashed(u) && NoDup(Bucket(u, k));
    hide Hashed, Unhash;
    ChainOf(u, k);
    assert a !in Bucket(u, k);
    SwapIs(Bucket(u, k), b, a);
    forall y ensures y in Bucket(m, k) <==> y in m.d && m.d[y].hashed && Home(m, y) == k {
      UnhashedOnly(s, a, y);
    }
  }

  lemma ChainOf(s: Cache, k: int)
    requires Hashed(s)
    ensures NoDup(Bucket(s, k)) && forall y :: y in Bucket(s, k) <==> y in s.d && s.d[y].hashed && Home(s, y) == k
  {
  }

  lemma UnhashedOnly(s: Cache, a: nat, y: nat)
    requires a in s.d
    ensures Unhash(s, a).d.Keys == s.d.Keys && Unhash(s, a).h == s.h && !Unhash(s, a).d[a].hashed
    ensures y in s.d && y != a ==> Unhash(s, a).d[y] == s.d[y]
  {
  }

  lemma MoveHashed(s: Cache, a: nat, b: nat, garbled: string)
    requires Hashed(s) && a in s.d && b in s.d && a != b
    ensures Hashed(Move(s, a, b, garbled))
  {
    var m := Move(s, a, b, garbled);
    assert forall y :: y in m.d ==> y in s.d;
    hide Move, Bucket;
    forall k ensures NoDup(Bucket(m, k)) { MovedChain(s, a, b, garbled, k); }
    forall k, y ensures y in Bucket(m, k) <==> y in m.d && m.d[y].hashed && Home(m, y) == k {
      MovedChain(s, a, b, garbled, k);
    }
  }

  lemma MoveCounted(s: Cache, a: nat, b: nat, garbled: string)
    requires Wf(s) && Movable(s.d, a, b)
    ensures Counted(Move(s, a, b, garbled).d)
    ensures UnusedOk(Move(s, a, b, garbled).d, s.unused, s.nrUnused)
  {
    hide Tree, LoopFree, Hashed, MovedSubs, Below, MovedTable, Counted, UnusedOk;
    var t := Move(s, a, b, garbled);
    forall y | y in s.d ensures |t.d[y].subs| == |s.d[y].subs| { MovedSubsIs(s.d, a, b, y); }
    SameCounts(s.d, t.d, s.unused, s.nrUnused);
  }

  lemma SameCounts(d: map<nat, Dentry>, d': map<nat, Dentry>, unused: seq<nat>, nrUnused: int)
    requires Counted(d) && UnusedOk(d, unused, nrUnused) && d'.Keys == d.Keys
    requires forall y :: y in d ==> d'[y].count == d[y].count && d'[y].refs == d[y].refs && |d'[y].subs| == |d[y].subs|
    requires forall y :: y in d && d[y].count == 0 ==> d'[y].hashed == d[y].hashed
    ensures Counted(d') && UnusedOk(d', unused, nrUnused)
  {
  }

  /** Whoever is a root, that is its own parent, is one in both or in neither. */
  ghost predicate SameRoots(d: map<nat, Dentry>, d': map<nat, Dentry>) {
    forall x :: x in d && x in d' ==> (d'[x].parent == x <==> d[x].parent == x)
  }

  /** Theorem: d_move keeps every count equal to the references and children, the unused list, the
      hash table and the tree with its roots; the moved dentry is hashed afterwards exactly when the target was. */
  lemma MoveWf(s: Cache, a: nat, b: nat, garbled: string)
    requires Wf(s) && Movable(s.d, a, b)
    ensures Wf(Move(s, a, b, garbled)) && SameRoots(s.d, Move(s, a, b, garbled).d)
    ensures var t := Move(s, a, b, garbled);
            && t.d[a].hashed == s.d[b].hashed && !t.d[b].hashed
            && t.d[a].parent == s.d[b].parent && t.d[b].parent == s.d[a].parent && t.d[a].name == s.d[b].name
            && forall y :: y in s.d ==> t.d[y].count == s.d[y].count && t.d[y].refs == s.d[y].refs
  {
    MovableParents(s.d, a, b);
    hide Tree, LoopFree, Hashed, Counted, UnusedOk, MovedTable, MovedSubs, Below;
    MoveTree(s, a, b, garbled);
    MoveLoopFree(s, a, b, garbled);
    MoveHashed(s, a, b, garbled);
    MoveCounted(s, a, b, garbled);
  }

  // ---------------------------------------------------------------------------
  // A rename into the source's own subtree, or onto its ancestor, makes a loop
  // ---------------------------------------------------------------------------

  /** x comes back to itself in one or more steps without being a root. */
  ghost predicate OnLoop(d: map<nat, Dentry>, x: nat) {
    exists n: nat :: n > 0 && Up(d, x, n) == x && x in d && d[x].parent != x
  }

  lemma LoopIsNotLoopFree(d: map<nat, Dentry>, x: nat)
    requires OnLoop(d, x)
    ensures !LoopFree(d)
  {
    var n: nat :| n > 0 && Up(d, x, n) == x && x in d && d[x].parent != x;
    forall rank: nat -> nat | Ranked(d, rank) ensures false { UpRank(d, rank, d[x].parent, n - 1); }
  }

  /** The first time the way from y up meets a or b. */
  lemma {:induction false} UpMoved(d: map<nat, Dentry>, d': map<nat, Dentry>, a: nat, b: nat, y: nat, n: nat)
    requires Up(d, y, n) == a && d'.Keys == d.Keys && (forall m: nat :: m < n ==> Up(d, y, m) != a && Up(d, y, m) != b)
    requires forall z :: z in d && z != a && z != b ==> d'[z].parent == d[z].parent
    ensures Up(d', y, n) == a
    decreases n
  {
    if n == 0 {
    } else {
      assert Up(d, y, 0) == y;
      if y in d {
        forall m: nat | m < n - 1 ensures Up(d, d[y].parent, m) != a && Up(d, d[y].parent, m) != b {
          assert Up(d, y, m + 1) == Up(d, d[y].parent, m);
        }
        UpMoved(d, d', a, b, d[y].parent, n - 1);
      }
    }
  }

  lemma {:induction false} FirstMeeting(d: map<nat, Dentry>, y: nat, a: nat, k: nat) returns (n: nat)
    requires Up(d, y, k) == a
    ensures Up(d, y, n) == a && forall m: nat :: m < n ==> Up(d, y, m) != a
    decreases k
  {
    if m: nat :| m < k && Up(d, y, m) == a { n := FirstMeeting(d, y, a, m); } else { n := k; }
  }

  /** b below a, with at least one dentry in between: the move closes a loop through a. */
  lemma MoveLoops(s: Cache, a: nat, b: nat, d': map<nat, Dentry>)
    requires Tree(s.d) && LoopFree(s.d) && a in s.d && b in s.d && a != b && s.d[b].parent != b && s.d[b].parent != a
    requires Below(s.d, b, a) && d'.Keys == s.d.Keys && d'[a].parent == s.d[b].parent
    requires forall z :: z in s.d && z != a && z != b ==> d'[z].parent == s.d[z].parent
    ensures !LoopFree(d')
  {
    var d, pb := s.d, s.d[b].parent;
    BelowStep(d, b, a);
    var rank: nat -> nat :| Ranked(d, rank);
    var k: nat :| Up(d, pb, k) == a;
    var n := FirstMeeting(d, pb, a, k);
    forall m: nat | m < n ensures Up(d, pb, m) != b { UpRank(d, rank, pb, m); }
    UpMoved(d, d', a, b, pb, n);
    assert Up(d', a, n + 1) == a;
    LoopIsNotLoopFree(d', a);
  }

  /** What d_move would do to the tree if it were let: a comes to lie on a loop of its own ancestors, or, when it
      is b's parent, becomes its own parent and so a root. */
  lemma MoveUproots(s: Cache, a: nat, b: nat, d': map<nat, Dentry>)
    requires Tree(s.d) && LoopFree(s.d) && a in s.d && b in s.d && a != b && s.d[a].parent != a && s.d[b].parent != b
    requires Below(s.d, b, a) && d'.Keys == s.d.Keys && d'[a].parent == s.d[b].parent
    requires forall z :: z in s.d && z != a && z != b ==> d'[z].parent == s.d[z].parent
    ensures if s.d[b].parent == a then d'[a].parent == a && !SameRoots(s.d, d') else !LoopFree(d')
  {
    hide LoopFree, Below;
    if s.d[b].parent != a { MoveLoops(s, a, b, d'); }
  }

  /** Theorem: a move keeps the tree loop-free and its roots the same exactly when neither dentry lies below the
      other, which is_subdir checks one way and the refusal to replace a directory in use the other. */
  lemma LoopFreeExactly(s: Cache, a: nat, b: nat, garbled: string)
    requires Wf(s) && a in s.d && b in s.d && a != b && s.d[a].count > 0 && s.d[b].count > 0
    requires s.d[a].parent != a && s.d[b].parent != b
    ensures var d' := Move(s, a, b, garbled).d;
            LoopFree(d') && SameRoots(s.d, d') <==> !Below(s.d, b, a) && !Below(s.d, a, b)
  {
    var d' := Move(s, a, b, garbled).d;
    if Below(s.d, b, a) {
      MoveUproots(s, a, b, d');
    } else if Below(s.d, a, b) {
      MoveUproots(s, b, a, d');
    } else {
      MoveWf(s, a, b, garbled);
    }
  }

  // ---------------------------------------------------------------------------
  // Pruning
  // ---------------------------------------------------------------------------

  /** One turn of prune_dcache: the oldest unused dentry leaves the list and is thrown away. */
  ghost function PruneOne(s: Cache, doomed: set<nat>): Cache
    requires Wf(s) && s.unused != []
  {
    var x := s.unused[|s.unused| - 1];
    UnusedFacts(s, x);
    GetWf(s, x);
    ReleaseWf(Get(s, x), x);
    ReleaseFacts(Get(s, x), x);
    var t := Release(Get(s, x), x);
    if s.d[x].parent == x then t else Put(t, s.d[x].parent, doomed)
  }

  lemma UnusedFacts(s: Cache, x: nat)
    requires Wf(s) && x in s.unused
    ensures x in s.d && s.d[x].count == 0 && s.d[x].refs == 0 && s.d[x].subs == [] && s.d[x].hashed
    ensures s.d[x].parent in s.d && Get(s, x).d[x].count == 1 && Get(s, x).d[x].refs == 1
  {
    assert Node(s.d, x);
  }

  lemma {:induction false} PutShrinks(s: Cache, x: nat, doomed: set<nat>)
    requires Wf(s) && x in s.d && s.d[x].refs > 0
    ensures |Put(s, x, doomed).d| <= |s.d|
    decreases |s.d|
  {
    if s.d[x].count == 1 && (!s.d[x].hashed || x in doomed) {
      ReleaseWf(s, x);
      ReleaseFacts(s, x);
      if s.d[x].parent != x { PutShrinks(Release(s, x), s.d[x].parent, doomed); }
    } else {
      assert Decrement(s, x).d.Keys == s.d.Keys;
      assert |Decrement(s, x).d.Keys| == |s.d.Keys|;
    }
  }

  /** A dentry with references from outside is still there, with the same references. */
  lemma PruneOneSafe(s: Cache, doomed: set<nat>, y: nat)
    requires Wf(s) && s.unused != []
    ensures Wf(PruneOne(s, doomed)) && |PruneOne(s, doomed).d| < |s.d|
    ensures y in s.d && s.d[y].refs > 0 ==> y in PruneOne(s, doomed).d && PruneOne(s, doomed).d[y].refs == s.d[y].refs
  {
    var x := s.unused[|s.unused| - 1];
    UnusedFacts(s, x);
    GetWf(s, x);
    var g := Get(s, x);
    ReleaseWf(g, x);
    ReleaseFacts(g, x);
    var t, p := Release(g, x), s.d[x].parent;
    assert g.d.Keys == s.d.Keys && |g.d.Keys| == |s.d.Keys|;
    hide Wf;
    if p != x {
      PutWf(t, p, doomed);
      PutShrinks(t, p, doomed);
      if y in s.d && s.d[y].refs > 0 {
        PutExactly(t, p, doomed, y);
        if Dies(t.d, doomed, p, y) { FallenRefs(t, p, doomed, y); }
      }
    }
  }

  /** A dentry that falls is referenced from outside at most by the reference being put. */
  lemma FallenRefs(s: Cache, x: nat, doomed: set<nat>, y: nat)
    requires Wf(s) && x in s.d && y in s.d && Dies(s.d, doomed, x, y)
    ensures s.d[y].refs <= if y == x then 1 else 0
  {
    var n: nat :| Up(s.d, x, n) == y && forall m: nat :: m <= n ==> Falls(s.d, doomed, Up(s.d, x, m));
    assert Falls(s.d, doomed, y);
    assert Node(s.d, y);
    if y != x {
      var k := FirstMeeting(s.d, x, y, n);
      UpChild(s.d, x, k);
      assert Child(s.d, Up(s.d, x, k - 1), y);
    }
  }

  lemma {:induction false} UpChild(d: map<nat, Dentry>, x: nat, n: nat)
    requires n > 0 && Up(d, x, n) != Up(d, x, n - 1)
    ensures Up(d, x, n - 1) in d && d[Up(d, x, n - 1)].parent == Up(d, x, n)
    decreases n
  {
    if n > 1 && x in d { UpChild(d, d[x].parent, n - 1); }
  }

  /** prune_dcache: at most `count` dentries, or all of them when count is not positive. */
  ghost function Prune(s: Cache, count: int, doomed: set<nat>): Cache
    requires Wf(s)
    decreases |s.d|
  {
    if s.unused == [] then s
    else
      PruneOneSafe(s, doomed, 0);
      var t := PruneOne(s, doomed);
      if count - 1 == 0 then t else Prune(t, count - 1, doomed)
  }

  /** Theorem: pruning keeps everything in order, frees no dentry that is referenced from outside,
      and with a count of zero leaves no unused dentry at all. */
  lemma {:induction false} PruneSafe(s: Cache, count: int, doomed: set<nat>, y: nat)
    requires Wf(s)
    ensures Wf(Prune(s, count, doomed))
    ensures y in s.d && s.d[y].refs > 0 ==>
              y in Prune(s, count, doomed).d && Prune(s, count, doomed).d[y].refs == s.d[y].refs
    ensures count <= 0 ==> Prune(s, count, doomed).unused == []
    decreases |s.d|
  {
    if s.unused == [] {
    } else {
      PruneOneSafe(s, doomed, y);
      hide Wf;
      if count - 1 != 0 { PruneSafe(PruneOne(s, doomed), count - 1, doomed, y); }
    }
  }

  ghost predicate EndsWith(a: seq<nat>, b: seq<nat>) {
    |b| <= |a| && a[|a| - |b|..] == b
  }

  /** One more is gone from the end: the step from u to t, and those from t to r. */
  lemma EndsWithLess(u: seq<nat>, t: seq<nat>, r: seq<nat>, count: nat)
    requires 1 <= count <= |u| && EndsWith(t, u[..|u| - 1])
    ensures |t| >= count - 1 && (EndsWith(r, t[..|t| - (count - 1)]) ==> EndsWith(r, u[..|u| - count]))
  {
    var d := |t| - (|u| - 1);
    assert forall i :: 0 <= i < |u| - 1 ==> t[d..][i] == u[i];
    if EndsWith(r, t[..|t| - (count - 1)]) {
      var m := |t| - (count - 1);
      assert forall i :: 0 <= i < m ==> r[|r| - m..][i] == t[i];
    }
  }

  lemma {:induction false} PutUnused(s: Cache, x: nat, doomed: set<nat>)
    requires Wf(s) && x in s.d && s.d[x].refs > 0
    ensures EndsWith(Put(s, x, doomed).unused, s.unused)
    decreases |s.d|
  {
    if s.d[x].count == 1 && (!s.d[x].hashed || x in doomed) {
      ReleaseWf(s, x);
      ReleaseFacts(s, x);
      assert Release(s, x).unused == s.unused;
      if s.d[x].parent != x { PutUnused(Release(s, x), s.d[x].parent, doomed); }
    }
  }

  /** One turn takes the oldest unused dentry off the list; what the put of its parent adds goes to the front. */
  lemma PruneOneUnused(s: Cache, doomed: set<nat>)
    requires Wf(s) && s.unused != []
    ensures EndsWith(PruneOne(s, doomed).unused, s.unused[..|s.unused| - 1])
  {
    var n := |s.unused| - 1;
    var x := s.unused[n];
    UnusedFacts(s, x);
    GetWf(s, x);
    var g := Get(s, x);
    ReleaseWf(g, x);
    ReleaseFacts(g, x);
    assert NoDup(s.unused);
    hide Wf;
    DelLast(s.unused);
    assert Release(g, x).unused == s.unused[..n];
    hide Release;
    if s.d[x].parent != x { PutUnused(Release(g, x), s.d[x].parent, doomed); }
  }

  lemma {:induction false} DelLast(s: seq<nat>)
    requires s != [] && NoDup(s)
    ensures Del(s, s[|s| - 1]) == s[..|s| - 1]
  {
    if |s| == 1 {
    } else {
      assert s[1..][|s| - 2] == s[|s| - 1];
      DelLast(s[1..]);
      assert s[..|s| - 1] == [s[0]] + s[1..][..|s| - 2];
    }
  }

  /** Theorem: with a count of n, n of the unused dentries go if there are so many, the ones that have been unused the
      longest, and the others stay in their order. */
  lemma {:induction false} PruneCounts(s: Cache, count: int, doomed: set<nat>)
    requires Wf(s) && 0 < count <= |s.unused|
    ensures EndsWith(Prune(s, count, doomed).unused, s.unused[..|s.unused| - count])
    ensures |Prune(s, count, doomed).d| + count <= |s.d|
    decreases |s.d|
  {
    PruneOneSafe(s, doomed, 0);
    PruneOneUnused(s, doomed);
    hide Wf, PruneOne, EndsWith;
    var t := PruneOne(s, doomed);
    EndsWithLess(s.unused, t.unused, Prune(s, count, doomed).unused, count);
    if count > 1 { PruneCounts(t, count - 1, doomed); }
  }
}
