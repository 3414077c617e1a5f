/**
  fs/dcache.c: what a run of cache operations amounts to, told from its events alone: who holds how many references,
  which dentries have gone, and under which parent and name each one can be found.
*/
module DentryRuns {
  import opened Basics
  import opened Dentries
  import opened DentryMoves
  import opened Dcache

  // ---------------------------------------------------------------------------
  // References
  // ---------------------------------------------------------------------------

  function Outside(d: map<nat, Dentry>, y: nat): nat {
    if y in d then d[y].refs else 0
  }

  /** A child of y was freed in the step; its reference to y is left to be put. */
  ghost predicate Bereft(d: map<nat, Dentry>, d': map<nat, Dentry>, y: nat) {
    exists x :: x in d && x !in d' && d[x].parent == y && x != y
  }

  /** The references to y taken in a step, less those put and those handed over to a new child. */
  ghost function Gain(s: Cache, e: Event, t: Cache, y: nat): int {
    (if Bereft(s.d, t.d, y) then 1 else 0) +
    match e
    case DAllocRoot(x, name) => if x == y then 1 else 0
    case DAlloc(x, p, name) => (if x == y then 1 else 0) - (if p == y then 1 else 0)
    case Dget(x) => if x == y then 1 else 0
    case DputTurn(x, unwanted) => if x == y then -1 else 0
    case _ => 0
  }

  lemma NoneFreed(d: map<nat, Dentry>, d': map<nat, Dentry>, y: nat)
    requires d.Keys <= d'.Keys
    ensures !Bereft(d, d', y)
  {
  }

  lemma OneFreed(s: Cache, x: nat, y: nat)
    requires x in s.d && s.d[x].parent in s.d
    ensures Bereft(s.d, Release(s, x).d, y) <==> y == s.d[x].parent && y != x
  {
    ReleaseFacts(s, x);
  }

  lemma NextRefs(s: Cache, e: Event, y: nat)
    requires Wf(s) && Enabled(s, e)
    ensures Outside(Next(s, e).d, y) == Outside(s.d, y) + Gain(s, e, Next(s, e), y)
  {
    match e
    case DputTurn(x, unwanted) => PutTurnRefs(s, x, unwanted, y);
    case PruneTurn => PruneTurnRefs(s, y);
    case _ => NoneFreed(s.d, Next(s, e).d, y);
  }

  predicate Stays(e: Dentry, unwanted: bool) {
    e.count > 1 || (e.hashed && !unwanted)
  }

  lemma PutTurnIs(s: Cache, x: nat, unwanted: bool)
    requires Wf(s) && x in s.d && s.d[x].refs > 0
    ensures if Stays(s.d[x], unwanted) then PutTurn(s, x, unwanted) == Decrement(s, x)
            else s.d[x].parent in s.d && s.d[x].refs == 1 && s.d[x].subs == [] && PutTurn(s, x, unwanted) == Release(s, x)
  {
    if !Stays(s.d[x], unwanted) {
      assert s.d[x].count == s.d[x].refs + |s.d[x].subs|;
      hide Wf, Release;
      ReleaseWf(s, x);
    }
  }

  lemma PutTurnRefs(s: Cache, x: nat, unwanted: bool, y: nat)
    requires Wf(s) && x in s.d && s.d[x].refs > 0
    ensures Outside(PutTurn(s, x, unwanted).d, y) ==
            Outside(s.d, y) + Gain(s, DputTurn(x, unwanted), PutTurn(s, x, unwanted), y)
  {
    hide Wf, Release, Bereft, PutTurn;
    PutTurnIs(s, x, unwanted);
    if Stays(s.d[x], unwanted) {
      NoneFreed(s.d, Decrement(s, x).d, y);
    } else {
      OneFreed(s, x, y);
      ReleaseFacts(s, x);
    }
  }

  /** The oldest unused dentry goes, and its parent, if it has one, is left with one reference more. */
  lemma PruneTurnIs(s: Cache) returns (x: nat)
    requires Wf(s) && s.unused != []
    ensures x == s.unused[|s.unused| - 1] && x in s.d && s.d[x].refs == 0 && s.d[x].parent in s.d
    ensures PruneTurnOf(s).d.Keys == s.d.Keys - {x}
    ensures forall y :: y in PruneTurnOf(s).d ==> BindingOf(PruneTurnOf(s).d[y]) == BindingOf(s.d[y])
    ensures forall y :: y in PruneTurnOf(s).d ==>
              PruneTurnOf(s).d[y].refs == s.d[y].refs + if y == s.d[x].parent then 1 else 0
  {
    x := s.unused[|s.unused| - 1];
    UnusedFacts(s, x);
    hide Wf, Release;
    ReleaseFacts(Get(s, x), x);
  }

  lemma PruneTurnRefs(s: Cache, y: nat)
    requires Wf(s) && s.unused != []
    ensures Outside(PruneTurnOf(s).d, y) == Outside(s.d, y) + Gain(s, PruneTurn, PruneTurnOf(s), y)
  {
    hide Wf, PruneTurnOf;
    var x := PruneTurnIs(s);
    assert Bereft(s.d, PruneTurnOf(s).d, y) <==> y == s.d[x].parent && y != x;
  }

  /** The same summed up over the first n steps of a run. */
  ghost function Balance(ss: seq<Cache>, es: seq<Event>, n: nat, y: nat): int
    requires n <= |es| < |ss|
  {
    if n == 0 then 0 else Balance(ss, es, n - 1, y) + Gain(ss[n - 1], es[n - 1], ss[n], y)
  }

  /** Theorem: over every run, the outside references of a dentry are those taken less those put; so one that has been
      taken more often than put is there. */
  lemma {:induction false} RunRefs(ss: seq<Cache>, es: seq<Event>, n: nat, y: nat)
    requires Behaviour(ss, es) && n <= |es|
    ensures Outside(ss[n].d, y) == Balance(ss, es, n, y) && (Balance(ss, es, n, y) > 0 ==> y in ss[n].d)
  {
    if n == 0 {
    } else {
      RunRefs(ss, es, n - 1, y);
      RunWf(ss, es, n - 1);
      assert Step(ss[n - 1], es[n - 1], ss[n - 1 + 1]);
      hide Wf, Next, Gain, Behaviour;
      NextRefs(ss[n - 1], es[n - 1], y);
    }
  }

  // ---------------------------------------------------------------------------
  // Coming and going
  // ---------------------------------------------------------------------------

  /** The step frees y: a dput of its last reference, with nothing below it, when nobody can or need find it again; or
      pruning of the oldest unused one. */
  ghost predicate Frees(s: Cache, e: Event, y: nat) {
    y in s.d &&
    match e
    case DputTurn(x, unwanted) => y == x && s.d[x].refs == 1 && s.d[x].subs == [] && (!s.d[x].hashed || unwanted)
    case PruneTurn => s.unused != [] && y == s.unused[|s.unused| - 1]
    case _ => false
  }

  /** The step makes y. */
  predicate Makes(e: Event, y: nat) {
    match e
    case DAllocRoot(x, name) => x == y
    case DAlloc(x, p, name) => x == y
    case _ => false
  }

  lemma CountIs(s: Cache, x: nat)
    requires Wf(s) && x in s.d
    ensures s.d[x].count == s.d[x].refs + |s.d[x].subs|
  {
    hide Tree, LoopFree, Hashed, UnusedOk;
  }

  /** Theorem: a dentry is there after a step exactly if the step makes it, or it was there and is not freed. */
  lemma NextLives(s: Cache, e: Event, y: nat)
    requires Wf(s) && Enabled(s, e)
    ensures y in Next(s, e).d <==> Makes(e, y) || (y in s.d && !Frees(s, e, y))
  {
    hide Wf, Release, PutTurn, PruneTurnOf;
    match e
    case DputTurn(x, unwanted) =>
      CountIs(s, x);
      PutTurnIs(s, x, unwanted);
      if !Stays(s.d[x], unwanted) { ReleaseFacts(s, x); }
    case PruneTurn => var x := PruneTurnIs(s);
    case _ =>
  }

  // ---------------------------------------------------------------------------
  // Names
  // ---------------------------------------------------------------------------

  datatype Binding = Binding(parent: nat, name: Name, hashed: bool)

  function BindingOf(e: Dentry): Binding {
    Binding(e.parent, e.name, e.hashed)
  }

  /** Where the events say that y is to be found. */
  ghost function Bind(es: seq<Event>, y: nat): Binding {
    if es == [] then Binding(y, Name(0, ""), false)
    else
      var past, now := es[..|es| - 1], Bind(es[..|es| - 1], y);
      match es[|es| - 1]
      case DAllocRoot(x, name) => if x == y then Binding(y, name, false) else now
      case DAlloc(x, p, name) => if x == y then Binding(p, name, false) else now
      case Drop(x) => if x == y then now.(hashed := false) else now
      case DRehash(x) => if x == y then now.(hashed := true) else now
      case Rename(a, b, garbled) =>
        if y == a then Bind(past, b)
        else if y == b then Binding(Bind(past, a).parent, Name(Bind(past, a).name.hash, garbled), false)
        else now
      case _ => now
  }

  /** A turn of dput or of prune_dcache renames nothing. */
  lemma TurnBinds(s: Cache, e: Event, y: nat)
    requires Wf(s) && Enabled(s, e) && (e.DputTurn? || e.PruneTurn?) && y in Next(s, e).d
    ensures y in s.d && BindingOf(Next(s, e).d[y]) == BindingOf(s.d[y])
  {
    hide Wf, Release, PutTurn, PruneTurnOf;
    if e.DputTurn? {
      PutTurnIs(s, e.x, e.unwanted);
      if !Stays(s.d[e.x], e.unwanted) { ReleaseFacts(s, e.x); }
    } else {
      var x := PruneTurnIs(s);
    }
  }

  lemma NextBinds(s: Cache, e: Event, es: seq<Event>, y: nat)
    requires Wf(s) && Enabled(s, e) && forall x :: x in s.d ==> BindingOf(s.d[x]) == Bind(es, x)
    requires y in Next(s, e).d
    ensures BindingOf(Next(s, e).d[y]) == Bind(es + [e], y)
  {
    assert (es + [e])[..|es|] == es;
    hide Wf, PutTurn, PruneTurnOf, MovedSubs, MovedTable;
    if e.DputTurn? || e.PruneTurn? { TurnBinds(s, e, y); }
  }

  /** Theorem: in every state of every run each dentry has the parent and name, and is hashed or not, as the events since
      it was made say; so d_lookup finds exactly what they have put under a name. */
  lemma {:induction false} RunBinds(ss: seq<Cache>, es: seq<Event>, n: nat)
    requires Behaviour(ss, es) && n <= |es|
    ensures forall y :: y in ss[n].d ==> BindingOf(ss[n].d[y]) == Bind(es[..n], y)
    ensures forall y, p, name :: Matches(ss[n].d, y, p, name) <==> y in ss[n].d && Bind(es[..n], y) == Binding(p, name, true)
  {
    if n == 0 {
    } else {
      RunBinds(ss, es, n - 1);
      RunWf(ss, es, n - 1);
      var s, e := ss[n - 1], es[n - 1];
      assert Step(s, e, ss[n - 1 + 1]);
      hide Wf, Next, Behaviour, Bind, Enabled;
      forall y | y in ss[n].d ensures BindingOf(ss[n].d[y]) == Bind(es[..n], y) {
        NextBinds(s, e, es[..n - 1], y);
        assert es[..n - 1] + [e] == es[..n];
      }
    }
  }

  // ---------------------------------------------------------------------------
  // The unused dentries, the longest unused last
  // ---------------------------------------------------------------------------

  /** When y was last put, counted in events. */
  ghost function LastPut(es: seq<Event>, y: nat): nat {
    if es == [] then 0
    else
      var e := es[|es| - 1];
      if e.DputTurn? && e.x == y then |es| else LastPut(es[..|es| - 1], y)
  }

  lemma {:induction false} LastPutBound(es: seq<Event>, y: nat)
    ensures LastPut(es, y) <= |es|
  {
    if es == [] {
    } else {
      LastPutBound(es[..|es| - 1], y);
    }
  }

  /** Each was put later than the next. */
  ghost predicate Latest(unused: seq<nat>, es: seq<Event>) {
    forall i, j :: 0 <= i < j < |unused| ==> LastPut(es, unused[i]) > LastPut(es, unused[j])
  }

  lemma {:induction false} DelLatest(unused: seq<nat>, x: nat, es: seq<Event>)
    requires Latest(unused, es)
    ensures Latest(Del(unused, x), es) && forall y :: y in Del(unused, x) ==> y in unused
  {
    if unused == [] {
    } else {
      DelLatest(unused[1..], x, es);
      if unused[0] != x {
        var r := Del(unused[1..], x);
        forall j | 0 <= j < |r| ensures LastPut(es, unused[0]) > LastPut(es, r[j]) {
          assert r[j] in unused[1..];
          var k :| 0 <= k < |unused[1..]| && unused[1..][k] == r[j];
          assert unused[k + 1] == r[j];
        }
      }
    }
  }

  /** Events other than a put of its own do not change when a dentry was put. */
  lemma LatestMore(unused: seq<nat>, es: seq<Event>, e: Event)
    requires Latest(unused, es) && (e.DputTurn? ==> e.x !in unused)
    ensures Latest(unused, es + [e])
  {
    assert (es + [e])[..|es|] == es;
    forall i | 0 <= i < |unused| ensures LastPut(es + [e], unused[i]) == LastPut(es, unused[i]) {
      assert unused[i] in unused;
    }
  }

  lemma NextLatest(s: Cache, e: Event, es: seq<Event>)
    requires Wf(s) && Enabled(s, e) && Latest(s.unused, es)
    ensures Latest(Next(s, e).unused, es + [e])
  {
    if e.DputTurn? { HeldNotUnused(s, e.x); }
    LatestMore(s.unused, es, e);
    match e
    case Dget(x) => DelLatest(s.unused, x, es + [e]);
    case DputTurn(x, unwanted) =>
      PutTurnIs(s, x, unwanted);
      hide Wf, PutTurn;
      assert (es + [e])[..|es|] == es;
      forall i | 0 <= i < |s.unused| ensures LastPut(es + [e], x) > LastPut(es + [e], s.unused[i]) {
        LastPutBound(es, s.unused[i]);
        assert s.unused[i] in s.unused;
      }
    case PruneTurn =>
      UnusedFacts(s, s.unused[|s.unused| - 1]);
      DelLatest(s.unused, s.unused[|s.unused| - 1], es + [e]);
    case _ =>
  }

  lemma HeldNotUnused(s: Cache, x: nat)
    requires Wf(s) && x in s.d && s.d[x].refs > 0
    ensures x !in s.unused
  {
    hide Tree, LoopFree, Hashed;
    CountIs(s, x);
  }

  /** Theorem: in every state of every run the list of unused dentries is in the order of their last put, so that
      prune_dcache frees the one that has been unused the longest. */
  lemma {:induction false} RunLatest(ss: seq<Cache>, es: seq<Event>, n: nat)
    requires Behaviour(ss, es) && n <= |es|
    ensures Latest(ss[n].unused, es[..n])
    ensures n < |es| && es[n].PruneTurn? ==> forall y :: y in ss[n].d && y !in ss[n + 1].d ==>
              y in ss[n].unused && forall z :: z in ss[n].unused ==> LastPut(es[..n], y) <= LastPut(es[..n], z)
  {
    hide Wf, Next, Enabled;
    if n == 0 {
    } else {
      RunLatest(ss, es, n - 1);
      RunWf(ss, es, n - 1);
      assert Step(ss[n - 1], es[n - 1], ss[n - 1 + 1]);
      NextLatest(ss[n - 1], es[n - 1], es[..n - 1]);
      assert es[..n - 1] + [es[n - 1]] == es[..n];
    }
    if n < |es| && es[n].PruneTurn? {
      RunWf(ss, es, n);
      assert Step(ss[n], es[n], ss[n + 1]);
      hide Behaviour, Latest, LastPut;
      OldestGoes(ss[n], es[..n]);
    }
  }

  lemma OldestGoes(s: Cache, es: seq<Event>)
    requires Wf(s) && Enabled(s, PruneTurn) && Latest(s.unused, es)
    ensures forall y :: y in s.d && y !in Next(s, PruneTurn).d ==>
              y in s.unused && forall z :: z in s.unused ==> LastPut(es, y) <= LastPut(es, z)
  {
    forall y | y in s.d && y !in Next(s, PruneTurn).d ensures y == s.unused[|s.unused| - 1] { NextLives(s, PruneTurn, y); }
  }
}
