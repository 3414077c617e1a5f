/**
  kernel/resource.c: the tree of I/O and memory resources.
*/
module Resources {
  import opened Basics

  /** A struct resource with its children in sibling order. */
  datatype Res = Res(id: nat, start: int, end: int, busy: bool, kids: seq<Res>)

  predicate Inside(s: int, e: int, r: Res) {
    r.start <= s && e <= r.end
  }

  predicate Overlaps(s: int, e: int, r: Res) {
    r.start <= e && s <= r.end
  }

  /** Children lie inside their parent, in order and apart; a busy region has none. */
  ghost predicate Wf(r: Res) {
    && r.start <= r.end
    && (r.busy ==> r.kids == [])
    && (forall i :: 0 <= i < |r.kids| ==> Wf(r.kids[i]) && Inside(r.kids[i].start, r.kids[i].end, r))
    && (forall i, j :: 0 <= i < j < |r.kids| ==> r.kids[i].end < r.kids[j].start)
  }

  // ---------------------------------------------------------------------------
  // One level
  // ---------------------------------------------------------------------------

  /** What __request_resource answers: the root itself, a child in the way, or the place taken. */
  datatype Answer = Outside | Conflict(i: nat) | Taken(i: nat)

  /** The walk along the siblings from the i-th on. */
  function Walk(kids: seq<Res>, s: int, e: int, i: nat): (a: Answer)
    requires i <= |kids|
    ensures a != Outside && i <= a.i <= |kids| && (a.Conflict? ==> a.i < |kids|)
    decreases |kids| - i
  {
    if i == |kids| || kids[i].start > e then Taken(i)
    else if kids[i].end < s then Walk(kids, s, e, i + 1)
    else Conflict(i)
  }

  function Request(r: Res, s: int, e: int): Answer {
    if e < s || s < r.start || e > r.end then Outside else Walk(r.kids, s, e, 0)
  }

  function Insert(kids: seq<Res>, i: nat, n: Res): seq<Res>
    requires i <= |kids|
  {
    kids[..i] + [n] + kids[i..]
  }

  /** The walk stops at the first child that overlaps the range, or finds the place where the range
      fits between its neighbours. */
  lemma {:induction false} WalkIs(r: Res, s: int, e: int, i: nat)
    requires Wf(r) && s <= e && i <= |r.kids| && (forall k :: 0 <= k < i ==> r.kids[k].end < s)
    ensures var a := Walk(r.kids, s, e, i);
      && (a.Taken? ==> (forall k :: 0 <= k < a.i ==> r.kids[k].end < s) &&
                       (forall k :: a.i <= k < |r.kids| ==> r.kids[k].start > e))
      && (a.Conflict? ==> Overlaps(s, e, r.kids[a.i]) && forall k :: 0 <= k < a.i ==> r.kids[k].end < s)
    decreases |r.kids| - i
  {
    if i < |r.kids| && r.kids[i].start <= e && r.kids[i].end < s { WalkIs(r, s, e, i + 1); }
  }

  lemma InsertWf(r: Res, i: nat, n: Res)
    requires Wf(r) && !r.busy && Wf(n) && Inside(n.start, n.end, r) && i <= |r.kids|
    requires forall k :: 0 <= k < i ==> r.kids[k].end < n.start
    requires forall k :: i <= k < |r.kids| ==> r.kids[k].start > n.end
    ensures Wf(r.(kids := Insert(r.kids, i, n)))
    ensures forall k :: 0 <= k < |r.kids| ==> !Overlaps(n.start, n.end, r.kids[k])
  {
    var r' := r.(kids := Insert(r.kids, i, n));
    forall k | 0 <= k < |r'.kids| ensures Wf(r'.kids[k]) && Inside(r'.kids[k].start, r'.kids[k].end, r) {
      if k != i { var m := if k < i then k else k - 1; assert r'.kids[k] == r.kids[m]; }
    }
    forall x, y | 0 <= x < y < |r'.kids| ensures r'.kids[x].end < r'.kids[y].start {
      InsertOrder(r.kids, i, n, x, y);
    }
  }

  lemma InsertOrder(kids: seq<Res>, i: nat, n: Res, x: nat, y: nat)
    requires i <= |kids| && x < y < |kids| + 1 && n.start <= n.end
    requires forall j, k :: 0 <= j < k < |kids| ==> kids[j].end < kids[k].start
    requires forall k :: 0 <= k < i ==> kids[k].end < n.start
    requires forall k :: i <= k < |kids| ==> kids[k].start > n.end
    ensures Insert(kids, i, n)[x].end < Insert(kids, i, n)[y].start
  {
  }

  /** Theorem: __request_resource links the new resource exactly when its range is proper, lies in the
      root and meets no child; and then the tree is still in order. */
  lemma RequestExactly(r: Res, n: Res)
    requires Wf(r) && !r.busy && Wf(n)
    ensures var a := Request(r, n.start, n.end);
      && (a.Taken? <==> Inside(n.start, n.end, r) &&
                        forall k :: 0 <= k < |r.kids| ==> !Overlaps(n.start, n.end, r.kids[k]))
      && (a.Taken? ==> Wf(r.(kids := Insert(r.kids, a.i, n))))
  {
    if Inside(n.start, n.end, r) {
      WalkIs(r, n.start, n.end, 0);
      var a := Walk(r.kids, n.start, n.end, 0);
      hide Walk, Wf;
      if a.Taken? { InsertWf(r, a.i, n); }
    }
  }

  /** __request_resource, as the loop over `**p`. */
  method RequestResource(r: Res, n: Res) returns (a: Answer, r': Res)
    ensures a == Request(r, n.start, n.end)
    ensures r' == if a.Taken? then r.(kids := Insert(r.kids, a.i, n)) else r
  {
    r' := r;
    if n.end < n.start { return Outside, r; }
    if n.start < r.start { return Outside, r; }
    if n.end > r.end { return Outside, r; }
    var p := 0;
    while true
      invariant 0 <= p <= |r.kids|
      invariant Walk(r.kids, n.start, n.end, 0) == Walk(r.kids, n.start, n.end, p)
      decreases |r.kids| - p
    {
      if p == |r.kids| || r.kids[p].start > n.end {
        return Taken(p), r.(kids := r.kids[..p] + [n] + r.kids[p..]);
      }
      p := p + 1;
      if r.kids[p - 1].end < n.start { continue; }
      return Conflict(p - 1), r;
    }
  }

  // ---------------------------------------------------------------------------
  // The whole tree
  // ---------------------------------------------------------------------------

  /** x is a node below r. */
  ghost predicate Below(x: Res, r: Res) {
    exists i :: 0 <= i < |r.kids| && (x == r.kids[i] || Below(x, r.kids[i]))
  }

  lemma {:induction false} BelowInside(x: Res, r: Res)
    requires Wf(r) && Below(x, r)
    ensures Wf(x) && Inside(x.start, x.end, r) && !r.busy
    decreases r
  {
    var i :| 0 <= i < |r.kids| && (x == r.kids[i] || Below(x, r.kids[i]));
    if x != r.kids[i] { BelowInside(x, r.kids[i]); }
  }

  /** Theorem: any two busy regions of the tree are the same region or have no byte in common. */
  lemma {:induction false} BusyDisjoint(r: Res, x: Res, y: Res)
    requires Wf(r) && Below(x, r) && Below(y, r) && x.busy && y.busy && x != y
    ensures x.end < y.start || y.end < x.start
    decreases r
  {
    var i :| 0 <= i < |r.kids| && (x == r.kids[i] || Below(x, r.kids[i]));
    var j :| 0 <= j < |r.kids| && (y == r.kids[j] || Below(y, r.kids[j]));
    if x != r.kids[i] { BelowInside(x, r.kids[i]); }
    if y != r.kids[j] { BelowInside(y, r.kids[j]); }
    if i == j { BusyDisjoint(r.kids[i], x, y); }
  }

  /** __request_region: descend through the resources in the way until the region fits. */
  function RequestRegion(r: Res, n: Res): Option<Res>
    decreases r
  {
    match Request(r, n.start, n.end)
    case Outside => None
    case Taken(i) => Some(r.(kids := Insert(r.kids, i, n)))
    case Conflict(i) =>
      if r.kids[i].busy then None
      else
        match RequestRegion(r.kids[i], n)
        case None => None
        case Some(k) => Some(r.(kids := r.kids[i := k]))
  }

  /** __release_region from the i-th child on; it never comes back from a child to its siblings. */
  function ReleaseFrom(r: Res, s: int, e: int, i: nat): Option<Res>
    requires i <= |r.kids|
    decreases r, |r.kids| - i
  {
    if i == |r.kids| then None
    else
      var k := r.kids[i];
      if Inside(s, e, k) then
        if !k.busy then
          match ReleaseFrom(k, s, e, 0)
          case None => None
          case Some(k') => Some(r.(kids := r.kids[i := k']))
        else if k.start != s || k.end != e then None
        else Some(r.(kids := r.kids[..i] + r.kids[i + 1..]))
      else ReleaseFrom(r, s, e, i + 1)
  }

  lemma {:induction false} RegionWf(r: Res, n: Res)
    requires Wf(r) && !r.busy && Wf(n) && RequestRegion(r, n).Some?
    ensures var r' := RequestRegion(r, n).value;
            Wf(r') && r'.start == r.start && r'.end == r.end && r'.busy == r.busy && r'.id == r.id
    decreases r
  {
    match Request(r, n.start, n.end)
    case Taken(i) => RequestExactly(r, n);
    case Conflict(i) => RegionWf(r.kids[i], n);
  }

  lemma {:induction false} SkipTo(r: Res, s: int, e: int, i: nat, j: nat)
    requires i <= j <= |r.kids| && forall k :: i <= k < j ==> !Inside(s, e, r.kids[k])
    ensures ReleaseFrom(r, s, e, i) == ReleaseFrom(r, s, e, j)
    decreases j - i
  {
    if i < j { SkipTo(r, s, e, i + 1, j); }
  }

  /** Theorem: releasing a region that was just granted gives back the very same tree. */
  lemma {:induction false} ReleaseUndoesRequest(r: Res, n: Res)
    requires Wf(r) && !r.busy && Wf(n) && n.busy && RequestRegion(r, n).Some?
    ensures ReleaseFrom(RequestRegion(r, n).value, n.start, n.end, 0) == Some(r)
    decreases r
  {
    WalkIs(r, n.start, n.end, 0);
    match Request(r, n.start, n.end)
    case Taken(i) => ReleaseInserted(r, n, i);
    case Conflict(i) =>
      var c := r.kids[i];
      RegionWf(c, n);
      RegionInside(c, n);
      ReleaseUndoesRequest(c, n);
      hide Wf, Walk;
      var c' := RequestRegion(c, n).value;
      assert c'.busy == c.busy && Inside(n.start, n.end, c');
      hide RequestRegion;
      ReleaseInChild(r, n, i, c');
  }

  lemma ReleaseInserted(r: Res, n: Res, i: nat)
    requires n.busy && n.start <= n.end && i <= |r.kids| && forall k :: 0 <= k < i ==> r.kids[k].end < n.start
    ensures ReleaseFrom(r.(kids := Insert(r.kids, i, n)), n.start, n.end, 0) == Some(r)
  {
    var r' := r.(kids := Insert(r.kids, i, n));
    assert forall k :: 0 <= k < i ==> r'.kids[k] == r.kids[k];
    SkipTo(r', n.start, n.end, 0, i);
    assert r'.kids[..i] + r'.kids[i + 1..] == r.kids;
  }

  lemma ReleaseInChild(r: Res, n: Res, i: nat, c': Res)
    requires i < |r.kids| && n.start <= n.end && forall k :: 0 <= k < i ==> r.kids[k].end < n.start
    requires !c'.busy && Inside(n.start, n.end, c') && ReleaseFrom(c', n.start, n.end, 0) == Some(r.kids[i])
    ensures ReleaseFrom(r.(kids := r.kids[i := c']), n.start, n.end, 0) == Some(r)
  {
    var r' := r.(kids := r.kids[i := c']);
    assert forall k :: 0 <= k < i ==> r'.kids[k] == r.kids[k];
    SkipTo(r', n.start, n.end, 0, i);
    assert r'.kids[i := r.kids[i]] == r.kids;
  }

  lemma RegionInside(r: Res, n: Res)
    requires RequestRegion(r, n).Some?
    ensures n.start <= n.end && Inside(n.start, n.end, r)
  {
  }

  /** A place between the children overlaps nothing below. */
  lemma TakenIsFree(r: Res, s: int, e: int, x: Res)
    requires Wf(r) && Request(r, s, e).Taken? && Below(x, r)
    ensures !Overlaps(s, e, x)
  {
    WalkIs(r, s, e, 0);
    var k :| 0 <= k < |r.kids| && (x == r.kids[k] || Below(x, r.kids[k]));
    if x != r.kids[k] { BelowInside(x, r.kids[k]); }
  }

  /** What a range inside one child overlaps is that child or below it. */
  lemma OnlyThere(r: Res, s: int, e: int, i: nat, x: Res)
    requires Wf(r) && s <= e && i < |r.kids| && Inside(s, e, r.kids[i]) && Below(x, r) && Overlaps(s, e, x)
    ensures x == r.kids[i] || Below(x, r.kids[i])
  {
    var k :| 0 <= k < |r.kids| && (x == r.kids[k] || Below(x, r.kids[k]));
    if x != r.kids[k] { BelowInside(x, r.kids[k]); }
    assert k == i;
  }

  /** Nothing in the way of the range but resources that contain it. */
  ghost predicate Open(r: Res, s: int, e: int) {
    forall x :: Below(x, r) && Overlaps(s, e, x) ==> !x.busy && Inside(s, e, x)
  }

  lemma OpenBelow(r: Res, s: int, e: int, i: nat)
    requires Wf(r) && s <= e && i < |r.kids| && Overlaps(s, e, r.kids[i])
    ensures Open(r, s, e) <==> !r.kids[i].busy && Inside(s, e, r.kids[i]) && Open(r.kids[i], s, e)
  {
    var c := r.kids[i];
    assert Below(c, r);
    forall x | Below(x, c) ensures Below(x, r) { }
    if !c.busy && Inside(s, e, c) && Open(c, s, e) {
      forall x | Below(x, r) && Overlaps(s, e, x) ensures !x.busy && Inside(s, e, x) { OnlyThere(r, s, e, i, x); }
    }
  }

  /** Theorem: a region is granted exactly when its range lies in the root, meets no busy region anywhere
      in the tree and does not cut any other resource. */
  lemma {:induction false} GrantedExactly(r: Res, n: Res)
    requires Wf(r) && !r.busy && Wf(n)
    ensures RequestRegion(r, n).Some? <==> Inside(n.start, n.end, r) && Open(r, n.start, n.end)
    decreases r
  {
    WalkIs(r, n.start, n.end, 0);
    match Request(r, n.start, n.end)
    case Outside =>
    case Taken(i) =>
      forall x | Below(x, r) ensures !Overlaps(n.start, n.end, x) { TakenIsFree(r, n.start, n.end, x); }
    case Conflict(i) =>
      OpenBelow(r, n.start, n.end, i);
      hide Open, Below, Walk;
      if !r.kids[i].busy { GrantedExactly(r.kids[i], n); }
  }

  /** x is a busy region of the tree. */
  ghost predicate Busy(x: Res, r: Res) {
    x.busy && Below(x, r)
  }

  /** What is below a node after one child has become another. */
  lemma BelowUpdated(r: Res, i: nat, k: Res, x: Res)
    requires i < |r.kids|
    ensures Below(x, r.(kids := r.kids[i := k])) <==>
            x == k || Below(x, k) || Elsewhere(r, i, x)
  {
    var r' := r.(kids := r.kids[i := k]);
    forall j | 0 <= j < |r.kids| && j != i ensures r'.kids[j] == r.kids[j] { }
    assert r'.kids[i] == k;
  }

  lemma BelowInserted(r: Res, i: nat, n: Res, x: Res)
    requires i <= |r.kids|
    ensures Below(x, r.(kids := Insert(r.kids, i, n))) <==> x == n || Below(x, n) || Below(x, r)
  {
    var r' := r.(kids := Insert(r.kids, i, n));
    assert r'.kids[i] == n;
    forall j | 0 <= j < |r.kids| ensures r'.kids[if j < i then j else j + 1] == r.kids[j] { }
    forall j | 0 <= j < |r'.kids| && j != i ensures r'.kids[j] == r.kids[if j < i then j else j - 1] { }
  }

  /** Theorem: granting a region makes exactly it busy and changes no other busy region. */
  lemma {:induction false} RegionAdds(r: Res, n: Res, x: Res)
    requires Wf(n) && n.busy && RequestRegion(r, n).Some?
    ensures Busy(x, RequestRegion(r, n).value) <==> x == n || Busy(x, r)
    decreases r
  {
    match Request(r, n.start, n.end)
    case Taken(i) =>
      BelowInserted(r, i, n, x);
      assert !Below(x, n);
    case Conflict(i) =>
      var c := r.kids[i];
      RegionAdds(c, n, x);
      var c' := RequestRegion(c, n).value;
      RegionNotBusy(c, n);
      BelowUpdated(r, i, c', x);
      BelowUpdated(r, i, c, x);
      assert r.kids[i := c] == r.kids;
      hide RequestRegion;
  }

  lemma RegionNotBusy(r: Res, n: Res)
    requires RequestRegion(r, n).Some?
    ensures RequestRegion(r, n).value.busy == r.busy
  {
  }

  predicate HasRange(x: Res, s: int, e: int) {
    x.start == s && x.end == e
  }

  /** x is or lies below another child than the i-th. */
  ghost predicate Elsewhere(r: Res, i: nat, x: Res) {
    exists j :: 0 <= j < |r.kids| && j != i && (x == r.kids[j] || Below(x, r.kids[j]))
  }

  lemma BelowRemoved(r: Res, i: nat, x: Res)
    requires i < |r.kids|
    ensures Below(x, r.(kids := r.kids[..i] + r.kids[i + 1..])) <==> Elsewhere(r, i, x)
    ensures Below(x, r) <==> x == r.kids[i] || Below(x, r.kids[i]) || Elsewhere(r, i, x)
  {
    var r' := r.(kids := r.kids[..i] + r.kids[i + 1..]);
    forall j | 0 <= j < |r'.kids| ensures r'.kids[j] == r.kids[if j < i then j else j + 1] { }
    forall j | 0 <= j < |r.kids| && j != i ensures r'.kids[if j < i then j else j - 1] == r.kids[j] { }
  }

  /** The busy regions other than the one with this range. */
  ghost predicate Less(r': Res, r: Res, s: int, e: int) {
    forall x :: Busy(x, r') <==> Busy(x, r) && !HasRange(x, s, e)
  }

  /** Theorem: a region can be released exactly if it is busy with that very range, and then it alone stops being so. */
  lemma {:induction false} ReleaseExactly(r: Res, s: int, e: int, i: nat)
    requires Wf(r) && i <= |r.kids| && forall k :: 0 <= k < i ==> !Inside(s, e, r.kids[k])
    ensures var o := ReleaseFrom(r, s, e, i);
      && (o.Some? <==> exists x :: Busy(x, r) && HasRange(x, s, e))
      && (o.Some? ==> o.value.busy == r.busy && Less(o.value, r, s, e))
    decreases r, |r.kids| - i
  {
    if i == |r.kids| {
      NoneInside(r, s, e);
    } else if !Inside(s, e, r.kids[i]) {
      ReleaseExactly(r, s, e, i + 1);
    } else {
      var k := r.kids[i];
      OnlyIn(r, s, e, i);
      if k.busy {
        ReleaseHere(r, s, e, i);
      } else {
        ReleaseExactly(k, s, e, 0);
        hide Wf, Below, Busy;
        var o := ReleaseFrom(k, s, e, 0);
        ReleaseBelow(r, s, e, i, if o.Some? then o.value else k);
      }
    }
  }

  /** A range with a busy region of its own lies inside the child that has it. */
  lemma NoneInside(r: Res, s: int, e: int)
    requires Wf(r) && forall k :: 0 <= k < |r.kids| ==> !Inside(s, e, r.kids[k])
    ensures forall x :: Busy(x, r) ==> !HasRange(x, s, e)
  {
    forall x | Busy(x, r) ensures !HasRange(x, s, e) {
      var k :| 0 <= k < |r.kids| && (x == r.kids[k] || Below(x, r.kids[k]));
      if x != r.kids[k] { BelowInside(x, r.kids[k]); }
    }
  }

  lemma OnlyIn(r: Res, s: int, e: int, i: nat)
    requires Wf(r) && i < |r.kids| && Inside(s, e, r.kids[i])
    ensures forall x :: Elsewhere(r, i, x) ==> !HasRange(x, s, e)
  {
    forall x | Elsewhere(r, i, x) ensures !HasRange(x, s, e) {
      var j :| 0 <= j < |r.kids| && j != i && (x == r.kids[j] || Below(x, r.kids[j]));
      if x != r.kids[j] { BelowInside(x, r.kids[j]); }
      assert Wf(r.kids[j]) && x.start <= x.end;
    }
  }

  lemma ReleaseHere(r: Res, s: int, e: int, i: nat)
    requires Wf(r) && i < |r.kids| && r.kids[i].busy && forall x :: Elsewhere(r, i, x) ==> !HasRange(x, s, e)
    ensures (exists x :: Busy(x, r) && HasRange(x, s, e)) <==> HasRange(r.kids[i], s, e)
    ensures HasRange(r.kids[i], s, e) ==> Less(r.(kids := r.kids[..i] + r.kids[i + 1..]), r, s, e)
  {
    var k, r' := r.kids[i], r.(kids := r.kids[..i] + r.kids[i + 1..]);
    assert k.kids == [] && forall x :: !Below(x, k);
    hide Wf, Elsewhere, Below;
    forall x ensures Below(x, r') <==> Elsewhere(r, i, x)
      ensures Below(x, r) <==> x == k || Elsewhere(r, i, x)
    {
      BelowRemoved(r, i, x);
    }
    assert Busy(k, r);
  }

  lemma ReleaseBelow(r: Res, s: int, e: int, i: nat, k: Res)
    requires i < |r.kids| && !r.kids[i].busy && !k.busy && forall x :: Elsewhere(r, i, x) ==> !HasRange(x, s, e)
    ensures (exists x :: Busy(x, r) && HasRange(x, s, e)) <==> (exists x :: Busy(x, r.kids[i]) && HasRange(x, s, e))
    ensures Less(k, r.kids[i], s, e) ==> Less(r.(kids := r.kids[i := k]), r, s, e)
  {
    hide Elsewhere, Below;
    forall x ensures Below(x, r) <==> x == r.kids[i] || Below(x, r.kids[i]) || Elsewhere(r, i, x)
      ensures Below(x, r.(kids := r.kids[i := k])) <==> x == k || Below(x, k) || Elsewhere(r, i, x)
    {
      BelowRemoved(r, i, x);
      BelowUpdated(r, i, k, x);
    }
    assert forall x :: Busy(x, r) <==> Busy(x, r.kids[i]) || (x.busy && Elsewhere(r, i, x));
    if Less(k, r.kids[i], s, e) {
      forall x ensures Busy(x, r.(kids := r.kids[i := k])) <==> Busy(x, r) && !HasRange(x, s, e) {
        assert Busy(x, k) <==> Busy(x, r.kids[i]) && !HasRange(x, s, e);
      }
    }
  }

  // ---------------------------------------------------------------------------
  // The loops that descend the tree
  // ---------------------------------------------------------------------------

  /** The way down from the root: each node passed and the child taken. */
  datatype Turn = Turn(node: Res, i: nat)

  ghost predicate IsPath(path: seq<Turn>) {
    forall k :: 0 <= k < |path| ==> path[k].i < |path[k].node.kids|
  }

  /** The root when the node at the end of the way has become `r`. */
  function Rebuild(path: seq<Turn>, r: Res): Res
    requires IsPath(path)
  {
    if path == [] then r
    else
      var t := path[|path| - 1];
      Rebuild(path[..|path| - 1], t.node.(kids := t.node.kids[t.i := r]))
  }

  function Lift(path: seq<Turn>, o: Option<Res>): Option<Res>
    requires IsPath(path)
  {
    match o case None => None case Some(r) => Some(Rebuild(path, r))
  }

  lemma LiftTurn(path: seq<Turn>, t: Turn, o: Option<Res>)
    requires IsPath(path) && t.i < |t.node.kids|
    ensures Lift(path + [t], o) ==
            Lift(path, match o case None => None case Some(k) => Some(t.node.(kids := t.node.kids[t.i := k])))
  {
    assert (path + [t])[..|path|] == path;
  }

  /** __request_region. */
  method RequestIoRegion(root: Res, n: Res) returns (o: Option<Res>)
    ensures o == RequestRegion(root, n)
  {
    var parent, path := root, [];
    while true
      invariant IsPath(path) && RequestRegion(root, n) == Lift(path, RequestRegion(parent, n))
      decreases parent
    {
      var conflict, changed := RequestResource(parent, n);
      match conflict
      case Taken(i) => return Some(Rebuild(path, changed));
      case Outside => return None;
      case Conflict(i) =>
        LiftTurn(path, Turn(parent, i), RequestRegion(parent.kids[i], n));
        path, parent := path + [Turn(parent, i)], parent.kids[i];
        if parent.busy { return None; }
    }
  }

  /** __release_region. */
  method ReleaseIoRegion(root: Res, s: int, e: int) returns (o: Option<Res>)
    ensures o == ReleaseFrom(root, s, e, 0)
  {
    var parent, path, p := root, [], 0;
    while p < |parent.kids|
      invariant IsPath(path) && 0 <= p <= |parent.kids|
      invariant ReleaseFrom(root, s, e, 0) == Lift(path, ReleaseFrom(parent, s, e, p))
      decreases parent, |parent.kids| - p
    {
      var res := parent.kids[p];
      if res.start <= s && res.end >= e {
        if !res.busy {
          LiftTurn(path, Turn(parent, p), ReleaseFrom(res, s, e, 0));
          path, parent, p := path + [Turn(parent, p)], res, 0;
          continue;
        }
        if res.start != s || res.end != e { return None; }
        return Some(Rebuild(path, parent.(kids := parent.kids[..p] + parent.kids[p + 1..])));
      }
      p := p + 1;
    }
    o := None;
  }

  /** The node reached from r by the child indices of `path`. */
  function At(r: Res, path: seq<nat>): Option<Res>
    decreases |path|
  {
    if path == [] then Some(r)
    else if path[0] < |r.kids| then At(r.kids[path[0]], path[1..]) else None
  }

  function PutAt(r: Res, path: seq<nat>, n: Res): Res
    requires At(r, path).Some?
    decreases |path|
  {
    if path == [] then n else r.(kids := r.kids[path[0] := PutAt(r.kids[path[0]], path[1..], n)])
  }

  /** Where the region ends up: the way down to the node that takes it and its place among the children. */
  function PlaceOf(r: Res, n: Res): (p: (seq<nat>, nat))
    requires RequestRegion(r, n).Some?
    decreases r
  {
    match Request(r, n.start, n.end)
    case Taken(i) => ([], i)
    case Conflict(i) => var (path, k) := PlaceOf(r.kids[i], n); ([i] + path, k)
  }

  /** release_resource: the child is unlinked from the node it hangs under. */
  function ReleaseAt(r: Res, path: seq<nat>, i: nat): Option<Res> {
    match At(r, path)
    case None => None
    case Some(node) =>
      if i < |node.kids| then Some(PutAt(r, path, node.(kids := node.kids[..i] + node.kids[i + 1..]))) else None
  }

  /** Unlinking the region that was just granted gives back the very same tree too. */
  lemma {:induction false} UnlinkUndoesRequest(r: Res, n: Res)
    requires RequestRegion(r, n).Some?
    ensures var (path, i) := PlaceOf(r, n); ReleaseAt(RequestRegion(r, n).value, path, i) == Some(r)
    decreases r
  {
    var r' := RequestRegion(r, n).value;
    match Request(r, n.start, n.end)
    case Taken(i) =>
      assert r'.kids[..i] + r'.kids[i + 1..] == r.kids;
    case Conflict(i) =>
      UnlinkUndoesRequest(r.kids[i], n);
      var (path, k) := PlaceOf(r.kids[i], n);
      assert ([i] + path)[1..] == path;
      assert r'.kids[i := r.kids[i]] == r.kids;
  }

  /** __check_region: the region is requested, and then unlinked in a second locked region. With nothing in between
      the tree is as before; anything in between is another step of a run. */
  method CheckRegion(root: Res, n: Res) returns (busy: bool, root': Res)
    ensures root' == root && (busy <==> RequestRegion(root, n).None?)
  {
    var o := RequestIoRegion(root, n);
    if o.None? { return true, root; }
    UnlinkUndoesRequest(root, n);
    var (path, i) := PlaceOf(root, n);
    var back := ReleaseAt(o.value, path, i);
    return false, back.value;
  }

  // ---------------------------------------------------------------------------
  // Allocation
  // ---------------------------------------------------------------------------

  /** One more than the largest unsigned long. */
  const WORD: int := 0x1_0000_0000

  /** (x + align - 1) & ~(align - 1) in an unsigned long, for a power of two. */
  function AlignUp(x: int, align: int): int
    requires align > 0
  {
    var y := (x + align - 1) % WORD;
    y - y % align
  }

  /** `adjust` is the start that the alignf of the caller makes of an aligned one; without alignf it is the same. */
  datatype Wish = Wish(size: int, min: int, max: int, align: int, adjust: int -> int)

  ghost predicate Sensible(w: Wish) {
    && 0 <= w.size < WORD && 0 <= w.min < WORD && 0 <= w.max < WORD && 0 < w.align < WORD
    && forall x :: 0 <= x < WORD ==> 0 <= w.adjust(x) < WORD
  }

  predicate InWord(r: Res) {
    0 <= r.start && r.end < WORD
  }

  /** Where the k-th gap between the children starts, pushed up to the wished minimum. */
  function GapStart(r: Res, w: Wish, k: nat): int
    requires k <= |r.kids|
  {
    var s := if k == 0 then r.start else (r.kids[k - 1].end + 1) % WORD;
    if s < w.min then w.min else s
  }

  /** Where it is taken to end; the first byte of the next child counts as free. */
  function GapEnd(r: Res, w: Wish, k: nat): int
    requires k <= |r.kids|
  {
    var e := if k < |r.kids| then r.kids[k].start else r.end;
    if e > w.max then w.max else e
  }

  /** Where a range in the k-th gap would start. */
  function SlotStart(r: Res, w: Wish, k: nat): int
    requires k <= |r.kids| && w.align > 0
  {
    w.adjust(AlignUp(GapStart(r, w, k), w.align))
  }

  predicate Fits(r: Res, w: Wish, k: nat)
    requires k <= |r.kids| && w.align > 0
  {
    var s := SlotStart(r, w, k);
    s < GapEnd(r, w, k) && (GapEnd(r, w, k) - s + 1) % WORD >= w.size
  }

  /** find_resource. */
  method FindResource(r: Res, w: Wish) returns (found: Option<(int, int)>, ghost k: nat)
    requires Sensible(w)
    ensures found.Some? ==> FirstFit(r, w, k)
    ensures found.Some? ==> found.value.0 == SlotStart(r, w, k)
    ensures found.Some? ==> found.value.1 == (found.value.0 + w.size - 1) % WORD
    ensures found.None? ==> forall j: nat :: j <= |r.kids| ==> !Fits(r, w, j)
  {
    hide AlignUp;
    var i := 0;
    var start := r.start;
    k := 0;
    while true
      invariant 0 <= i <= |r.kids| && (forall j: nat :: j < i ==> !Fits(r, w, j))
      invariant (if start < w.min then w.min else start) == GapStart(r, w, i)
      decreases |r.kids| - i
    {
      var end := if i < |r.kids| then r.kids[i].start else r.end;
      if start < w.min { start := w.min; }
      if end > w.max { end := w.max; }
      start := w.adjust(AlignUp(start, w.align));
      if start < end && (end - start + 1) % WORD >= w.size {
        k := i;
        return Some((start, (start + w.size - 1) % WORD)), k;
      }
      if i == |r.kids| { return None, k; }
      start := (r.kids[i].end + 1) % WORD;
      i := i + 1;
    }
  }

  ghost predicate FirstFit(r: Res, w: Wish, k: nat)
    requires w.align > 0
  {
    k <= |r.kids| && Fits(r, w, k) && forall j: nat :: j < k ==> !Fits(r, w, j)
  }

  /** The slot found in the k-th gap does not pass the second check. */
  ghost predicate Refused(r: Res, w: Wish, k: nat)
    requires w.align > 0 && k <= |r.kids|
  {
    var s := SlotStart(r, w, k);
    !Request(r, s, (s + w.size - 1) % WORD).Taken?
  }

  /** allocate_resource: find a slot, then check it again. It fails exactly if there is no slot or the
      first one does not pass. */
  method AllocateResource(r: Res, id: nat, w: Wish) returns (o: Option<Res>, at: Answer, ghost k: nat)
    requires Sensible(w) && Wf(r) && !r.busy && InWord(r)
    ensures o.Some? ==> k <= |r.kids| && at.Taken? && at.i <= |r.kids| && Granted(r, w, k, o.value, at.i)
    ensures o.Some? ==> FirstFit(r, w, k) && o.value.kids[at.i].start == SlotStart(r, w, k)
    ensures o.Some? ==> Wf(o.value) && o.value.kids[at.i].id == id
    ensures o.Some? && w.size == 0 ==> r.kids == [] && o.value.kids[0].start == 0 && o.value.kids[0].end == WORD - 1
    ensures o.None? ==> (forall j: nat :: j <= |r.kids| ==> !Fits(r, w, j)) || (FirstFit(r, w, k) && Refused(r, w, k))
  {
    hide Granted, Fits, SlotStart, Wf, Walk, GapStart, GapEnd, InWord, Sensible;
    var found;
    found, k := FindResource(r, w);
    if found.None? { return None, Outside, k; }
    var n := Res(id, found.value.0, found.value.1, false, []);
    var r';
    at, r' := RequestResource(r, n);
    if !at.Taken? { return None, at, k; }
    SlotGranted(r, w, k, n, at.i);
    o := Some(r');
  }

  /** The slot of the k-th gap, where it starts and ends. */
  ghost predicate IsSlot(r: Res, w: Wish, k: nat, n: Res)
    requires k <= |r.kids| && w.align > 0
  {
    Fits(r, w, k) && n.start == SlotStart(r, w, k) && n.end == (n.start + w.size - 1) % WORD
  }

  lemma SlotIs(r: Res, w: Wish, k: nat, n: Res)
    requires Sensible(w) && Wf(r) && InWord(r) && k <= |r.kids| && IsSlot(r, w, k, n)
    ensures AlignUp(GapStart(r, w, k), w.align) % w.align == 0
    ensures n.start == AlignUp(GapStart(r, w, k), w.align) ==>
              (w.min <= n.start <==> GapStart(r, w, k) + w.align - 1 < WORD || w.min == 0)
    ensures w.size >= 1 ==> n.end - n.start + 1 == w.size && n.end <= w.max
    ensures w.size == 0 && n.start <= n.end ==> n.start == 0 && n.end == WORD - 1
  {
    GapBounds(r, w, k);
    AlignUpIs(GapStart(r, w, k), w.align);
    hide Wf, AlignUp;
    SlotSize(n.start, GapEnd(r, w, k), w.size);
  }

  lemma GapBounds(r: Res, w: Wish, k: nat)
    requires Sensible(w) && Wf(r) && InWord(r) && k <= |r.kids|
    ensures w.min <= GapStart(r, w, k) && 0 <= GapStart(r, w, k) < WORD && GapEnd(r, w, k) < WORD && GapEnd(r, w, k) <= w.max
  {
  }

  lemma SlotGranted(r: Res, w: Wish, k: nat, n: Res, i: nat)
    requires Sensible(w) && Wf(r) && !r.busy && InWord(r) && k <= |r.kids| && IsSlot(r, w, k, n)
    requires n.kids == [] && !n.busy && Request(r, n.start, n.end) == Taken(i)
    ensures i <= |r.kids| && Insert(r.kids, i, n)[i] == n
    ensures Granted(r, w, k, r.(kids := Insert(r.kids, i, n)), i) && Wf(r.(kids := Insert(r.kids, i, n)))
    ensures w.size == 0 ==> r.kids == [] && n.start == 0 && n.end == WORD - 1
  {
    hide AlignUp, Fits, IsSlot, GapStart, GapEnd, SlotStart, Sensible;
    SlotIs(r, w, k, n);
    SlotTaken(r, n, i);
    hide Wf, Walk, Request;
    if w.size == 0 { WholeSpace(r, n); }
  }

  lemma SlotTaken(r: Res, n: Res, i: nat)
    requires Wf(r) && !r.busy && n.kids == [] && !n.busy && Request(r, n.start, n.end) == Taken(i)
    ensures i <= |r.kids| && Insert(r.kids, i, n)[i] == n && Wf(r.(kids := Insert(r.kids, i, n))) && n.start <= n.end
    ensures Inside(n.start, n.end, r) && forall j :: 0 <= j < |r.kids| ==> !Overlaps(n.start, n.end, r.kids[j])
  {
    assert Wf(n);
    RequestExactly(r, n);
    hide Wf, Walk;
  }

  lemma WholeSpace(r: Res, n: Res)
    requires Wf(r) && InWord(r) && n.start == 0 && n.end == WORD - 1
    requires forall j :: 0 <= j < |r.kids| ==> !Overlaps(n.start, n.end, r.kids[j])
    ensures r.kids == []
  {
    assert r.kids != [] ==> Overlaps(n.start, n.end, r.kids[0]);
  }

  /** What a caller gets from a successful allocation, from the k-th gap: a range in the root and apart from
      every sibling; for a positive size also of that size and not above the maximum. Unless alignf moved it, it is
      of the wished alignment, and respects the minimum exactly when aligning the gap did not wrap around. */
  ghost predicate Granted(r: Res, w: Wish, k: nat, r': Res, i: nat)
    requires k <= |r.kids| && i <= |r.kids| && w.align > 0
  {
    && |r'.kids| == |r.kids| + 1 && r' == r.(kids := r'.kids)
    && var n := r'.kids[i];
       && r'.kids == Insert(r.kids, i, n)
       && (w.size >= 1 ==> n.end - n.start + 1 == w.size && n.end <= w.max)
       && Inside(n.start, n.end, r) && (forall j :: 0 <= j < |r.kids| ==> !Overlaps(n.start, n.end, r.kids[j]))
       && (n.start == AlignUp(GapStart(r, w, k), w.align) ==>
             && n.start % w.align == 0
             && (w.min <= n.start <==> GapStart(r, w, k) + w.align - 1 < WORD || w.min == 0))
  }

  lemma SlotSize(s: int, e: int, size: int)
    requires 0 <= s < e < WORD && 0 <= size < WORD && (e - s + 1) % WORD >= size
    ensures size >= 1 ==> (s + size - 1) % WORD == s + size - 1 <= e
    ensures size == 0 ==> (s + size - 1) % WORD == if s == 0 then WORD - 1 else s - 1
  {
  }

  lemma AlignUpIs(x: int, align: int)
    requires 0 <= x < WORD && 0 < align < WORD
    ensures var s := AlignUp(x, align);
      s % align == 0 && (x + align - 1 < WORD ==> s >= x) && (x + align - 1 >= WORD ==> s == 0)
  {
    var y := (x + align - 1) % WORD;
    var q, r := y / align, y % align;
    assert y == align * q + r && 0 <= r < align;
    ModIs(y - r, align, q, 0);
    if x + align - 1 >= WORD {
      assert y == x + align - 1 - WORD;
      ModIs(y, align, 0, y);
    }
  }

  lemma ModIs(x: int, m: int, q: int, r: int)
    requires 0 <= r < m && x == m * q + r
    ensures x % m == r
  {
    var q', r' := x / m, x % m;
    assert x == m * q' + r' && 0 <= r' < m;
    assert m * (q - q') == r' - r && m * (q' - q) == r - r';
    if q > q' { Grows(m, q - q'); }
    else if q < q' { Grows(m, q' - q); }
  }

  lemma {:induction false} Grows(m: int, k: int)
    requires m > 0 && k >= 1
    ensures m * k >= m
  {
    if k > 1 { Grows(m, k - 1); }
  }

  /** Aligning can wrap: with nothing allocated, a wish for 16 bytes at or above 0xfffffff0 aligned to 0x1000 is
      granted at address 0. */
  lemma MinimumIgnored()
    ensures var r := Res(0, 0, WORD - 1, false, []);
            var w := Wish(0x10, 0xffff_fff0, WORD - 2, 0x1000, x => x);
            && Sensible(w) && FirstFit(r, w, 0) && AlignUp(GapStart(r, w, 0), w.align) == 0
            && Request(r, 0, (0 + w.size - 1) % WORD).Taken? && !Refused(r, w, 0)
  {
    assert (0xffff_fff0 + 0x1000 - 1) % WORD == 0xfef && 0xfef % 0x1000 == 0xfef;
  }

  /** The caller's alignf leaves starts alone. */
  ghost predicate Plain(w: Wish) {
    forall x :: w.adjust(x) == x
  }

  /** A range that meets the wish, lies in the root and touches no child. */
  ghost predicate Free(r: Res, w: Wish, x: int)
    requires w.align > 0
  {
    && x % w.align == 0 && w.min <= x && x + w.size - 1 <= w.max && Inside(x, x + w.size - 1, r)
    && forall k :: 0 <= k < |r.kids| ==> !Overlaps(x, x + w.size - 1, r.kids[k])
  }

  /** Two multiples are at least one step apart. */
  lemma MultipleBelow(a: int, x: int, m: int)
    requires a > 0 && x % a == 0 && m % a == 0 && x < m
    ensures x + a <= m
  {
    var q, n := x / a, m / a;
    assert x == a * q && m == a * n;
    if n <= q { MulMonotone(a, n, q); }
    MulMonotone(a, q + 1, n);
    assert a * (q + 1) == a * q + a;
  }

  lemma {:induction false} MulMonotone(a: int, m: int, n: int)
    requires a > 0
    ensures m <= n ==> a * m <= a * n
    decreases n - m
  {
    if m < n {
      MulMonotone(a, m, n - 1);
      assert a * n == a * (n - 1) + a;
    }
  }

  lemma AlignLeast(g: int, align: int, x: int)
    requires 0 <= g <= x < WORD && 0 < align < WORD && x % align == 0 && WORD % align == 0
    ensures g + align - 1 < WORD && g <= AlignUp(g, align) <= x
  {
    MultipleBelow(align, x, WORD);
    AlignUpIs(g, align);
    var z := AlignUp(g, align);
    assert z <= g + align - 1;
    if z > x { MultipleBelow(align, x, z); }
  }

  /** The gap that a range free in the root lies in. */
  lemma GapOf(r: Res, w: Wish, x: int) returns (k: nat)
    requires Sensible(w) && Wf(r) && !r.busy && InWord(r) && w.size >= 1 && Free(r, w, x) && x < w.max && x < r.end
    ensures k <= |r.kids| && 0 <= GapStart(r, w, k) <= x < GapEnd(r, w, k) < WORD && x + w.size - 1 <= GapEnd(r, w, k)
  {
    k := PlaceFor(r, Res(0, x, x + w.size - 1, false, []));
    GapBounds(r, w, k);
    hide Wf;
  }

  lemma PlaceFor(r: Res, n: Res) returns (k: nat)
    requires Wf(r) && !r.busy && n.start <= n.end && !n.busy && n.kids == [] && Inside(n.start, n.end, r)
    requires forall j :: 0 <= j < |r.kids| ==> !Overlaps(n.start, n.end, r.kids[j])
    ensures k <= |r.kids| && (k > 0 ==> r.kids[k - 1].end < n.start) && (k < |r.kids| ==> r.kids[k].start > n.end)
  {
    assert Wf(n);
    RequestExactly(r, n);
    WalkIs(r, n.start, n.end, 0);
    k := Walk(r.kids, n.start, n.end, 0).i;
    hide Walk, Wf;
  }

  lemma LengthOverflows(s: int, x: int, e: int, size: int)
    requires 0 <= s <= x < e < WORD && 1 <= size && x + size - 1 <= e
    ensures (e - s + 1) % WORD >= size <==> !(s == 0 && e == WORD - 1)
  {
  }

  /** Theorem: if there is room for the wish, not starting on the last byte, find_resource sees it in its gap, if and only
      if that gap is not the whole address space, whose length overflows. */
  lemma RoomIsSeen(r: Res, w: Wish, x: int) returns (k: nat)
    requires Sensible(w) && Plain(w) && Wf(r) && !r.busy && InWord(r) && WORD % w.align == 0
    requires w.size >= 1 && Free(r, w, x) && x < w.max && x < r.end
    ensures k <= |r.kids| && (Fits(r, w, k) <==> !(SlotStart(r, w, k) == 0 && GapEnd(r, w, k) == WORD - 1))
  {
    k := GapOf(r, w, x);
    hide AlignUp, Wf, GapStart, GapEnd;
    AlignLeast(GapStart(r, w, k), w.align, x);
    LengthOverflows(SlotStart(r, w, k), x, GapEnd(r, w, k), w.size);
  }

  lemma GapNeighbours(r: Res, w: Wish, k: nat)
    requires Wf(r) && InWord(r) && k <= |r.kids| && (k > 0 ==> r.kids[k - 1].end < WORD - 1)
    ensures GapStart(r, w, k) >= r.start && (k > 0 ==> GapStart(r, w, k) > r.kids[k - 1].end)
    ensures GapEnd(r, w, k) <= if k < |r.kids| then r.kids[k].start else r.end
  {
    assert k > 0 ==> Wf(r.kids[k - 1]);
  }

  /** The slot of a gap, in numbers. */
  lemma SlotIn(r: Res, w: Wish, k: nat)
    requires Sensible(w) && Plain(w) && Wf(r) && InWord(r) && w.size >= 1
    requires k <= |r.kids| && Fits(r, w, k) && GapStart(r, w, k) + w.align - 1 < WORD
    ensures GapStart(r, w, k) <= SlotStart(r, w, k) && SlotStart(r, w, k) + w.size - 1 <= GapEnd(r, w, k)
    ensures (SlotStart(r, w, k) + w.size - 1) % WORD == SlotStart(r, w, k) + w.size - 1
  {
    GapBounds(r, w, k);
    hide Wf, GapStart, GapEnd;
    AlignUpIs(GapStart(r, w, k), w.align);
    hide AlignUp;
    SlotSize(SlotStart(r, w, k), GapEnd(r, w, k), w.size);
  }

  /** Theorem: where neither aligning nor the end of the child before wraps, the slot of a gap that fits is refused exactly
      if its last byte is the first of the next child. */
  lemma RefusedExactly(r: Res, w: Wish, k: nat)
    requires Sensible(w) && Plain(w) && Wf(r) && !r.busy && InWord(r) && w.size >= 1
    requires k <= |r.kids| && Fits(r, w, k) && GapStart(r, w, k) + w.align - 1 < WORD
    requires k > 0 ==> r.kids[k - 1].end < WORD - 1
    ensures Refused(r, w, k) <==> k < |r.kids| && SlotStart(r, w, k) + w.size - 1 == r.kids[k].start
  {
    hide GapStart, GapEnd, SlotStart, Fits, AlignUp, Wf, InWord, Plain, Request;
    SlotIn(r, w, k);
    GapNeighbours(r, w, k);
    var s := SlotStart(r, w, k);
    BesideChild(r, k, Res(0, s, s + w.size - 1, false, []));
  }

  /** A range between a child and the first byte of the next. */
  lemma BesideChild(r: Res, k: nat, n: Res)
    requires Wf(r) && !r.busy && k <= |r.kids| && r.start <= n.start <= n.end && !n.busy && n.kids == []
    requires k > 0 ==> n.start > r.kids[k - 1].end
    requires n.end <= if k < |r.kids| then r.kids[k].start else r.end
    ensures Request(r, n.start, n.end).Taken? <==> !(k < |r.kids| && n.end == r.kids[k].start)
  {
    assert Wf(n);
    RequestExactly(r, n);
    assert k < |r.kids| ==> r.kids[k].start <= r.kids[k].end <= r.end;
    hide Walk, Wf;
    forall j | 0 <= j < |r.kids| && j != k ensures !Overlaps(n.start, n.end, r.kids[j]) {
      NeighboursApart(r, k, j, n);
    }
    assert k < |r.kids| ==> (Overlaps(n.start, n.end, r.kids[k]) <==> n.end == r.kids[k].start);
  }

  lemma NeighboursApart(r: Res, k: nat, j: nat, n: Res)
    requires Wf(r) && k <= |r.kids| && j < |r.kids| && j != k
    requires (k > 0 ==> n.start > r.kids[k - 1].end) && (k < |r.kids| ==> n.end <= r.kids[k].start)
    ensures !Overlaps(n.start, n.end, r.kids[j])
  {
    if j < k - 1 { assert r.kids[j].end < r.kids[k - 1].start && Wf(r.kids[k - 1]); }
    if j > k { assert r.kids[k].end < r.kids[j].start && Wf(r.kids[k]); }
  }

  /** With one child at [16, 20], a wish for 17 bytes is refused at [0, 16] although [21, 37] is free. */
  lemma RoomMissed()
    ensures var r := Res(0, 0, 100, false, [Res(1, 16, 20, false, [])]);
            var w := Wish(17, 0, 100, 1, x => x);
            Sensible(w) && FirstFit(r, w, 0) && Refused(r, w, 0) && Free(r, w, 21)
  {
    var r := Res(0, 0, 100, false, [Res(1, 16, 20, false, [])]);
    var w := Wish(17, 0, 100, 1, x => x);
    assert Request(r, 0, 16) == Conflict(0);
  }

  // ---------------------------------------------------------------------------
  // Whole runs
  // ---------------------------------------------------------------------------

  datatype Event =
    | RequestOne(path: seq<nat>, n: Res)
    | ReleaseOne(path: seq<nat>, i: nat)
    | RequestBusy(n: Res)
    | ReleaseBusy(start: int, end: int)

  /** A node keeps its own range and flag and stays in order. */
  ghost predicate Replaces(r: Res, r': Res) {
    Wf(r') && r'.start == r.start && r'.end == r.end && r'.busy == r.busy
  }

  /** request_resource and allocate_resource link one resource under a node that is not busy;
      release_resource unlinks one; the region calls work from the root. */
  ghost predicate Step(r: Res, e: Event, r': Res) {
    match e
    case RequestOne(path, n) =>
      At(r, path).Some? && var node := At(r, path).value;
      !node.busy && Wf(n) && Request(node, n.start, n.end).Taken? &&
      r' == PutAt(r, path, node.(kids := Insert(node.kids, Request(node, n.start, n.end).i, n)))
    case ReleaseOne(path, i) => ReleaseAt(r, path, i) == Some(r')
    case RequestBusy(n) => n.busy && Wf(n) && RequestRegion(r, n) == Some(r')
    case ReleaseBusy(s, e) => ReleaseFrom(r, s, e, 0) == Some(r')
  }

  lemma {:induction false} AtWf(r: Res, path: seq<nat>)
    requires Wf(r) && At(r, path).Some?
    ensures Wf(At(r, path).value)
    decreases |path|
  {
    if path == [] {
    } else {
      AtWf(r.kids[path[0]], path[1..]);
    }
  }

  lemma KidReplaced(r: Res, i: nat, k: Res)
    requires Wf(r) && i < |r.kids| && Replaces(r.kids[i], k)
    ensures Replaces(r, r.(kids := r.kids[i := k]))
  {
    var r' := r.(kids := r.kids[i := k]);
    forall j | 0 <= j < |r'.kids| ensures Wf(r'.kids[j]) && Inside(r'.kids[j].start, r'.kids[j].end, r) { assert Wf(r.kids[j]); }
  }

  lemma KidRemoved(r: Res, i: nat)
    requires Wf(r) && i < |r.kids|
    ensures Replaces(r, r.(kids := r.kids[..i] + r.kids[i + 1..]))
  {
    var r' := r.(kids := r.kids[..i] + r.kids[i + 1..]);
    forall j | 0 <= j < |r'.kids| ensures Wf(r'.kids[j]) && Inside(r'.kids[j].start, r'.kids[j].end, r) {
      assert r'.kids[j] == r.kids[if j < i then j else j + 1];
    }
  }

  lemma {:induction false} PutAtWf(r: Res, path: seq<nat>, n: Res)
    requires Wf(r) && At(r, path).Some? && Replaces(At(r, path).value, n)
    ensures Replaces(r, PutAt(r, path, n))
    decreases |path|
  {
    if path == [] {
    } else {
      PutAtWf(r.kids[path[0]], path[1..], n);
      KidReplaced(r, path[0], PutAt(r.kids[path[0]], path[1..], n));
    }
  }

  lemma {:induction false} ReleaseWf(r: Res, s: int, e: int, i: nat)
    requires Wf(r) && i <= |r.kids| && ReleaseFrom(r, s, e, i).Some?
    ensures Replaces(r, ReleaseFrom(r, s, e, i).value)
    decreases r, |r.kids| - i
  {
    var k := r.kids[i];
    if !Inside(s, e, k) {
      ReleaseWf(r, s, e, i + 1);
    } else if k.busy {
      KidRemoved(r, i);
    } else {
      ReleaseWf(k, s, e, 0);
      KidReplaced(r, i, ReleaseFrom(k, s, e, 0).value);
    }
  }

  lemma StepWf(r: Res, e: Event, r': Res)
    requires Wf(r) && !r.busy && Step(r, e, r')
    ensures Replaces(r, r')
  {
    match e
    case RequestOne(path, n) =>
      AtWf(r, path);
      var node := At(r, path).value;
      RequestExactly(node, n);
      PutAtWf(r, path, node.(kids := Insert(node.kids, Request(node, n.start, n.end).i, n)));
    case ReleaseOne(path, i) =>
      AtWf(r, path);
      KidRemoved(At(r, path).value, i);
      var node := At(r, path).value;
      PutAtWf(r, path, node.(kids := node.kids[..i] + node.kids[i + 1..]));
    case RequestBusy(n) => RegionWf(r, n);
    case ReleaseBusy(s, t) => ReleaseWf(r, s, t, 0);
  }

  ghost predicate Behaviour(rs: seq<Res>, es: seq<Event>) {
    && |rs| == |es| + 1 && rs[0].kids == [] && !rs[0].busy && rs[0].start <= rs[0].end
    && forall i :: 0 <= i < |es| ==> Step(rs[i], es[i], rs[i + 1])
  }

  /** Theorem: after every run of requests and releases the tree is nested, sorted and disjoint, and any
      two busy regions in it are apart. */
  lemma {:induction false} RunWf(rs: seq<Res>, es: seq<Event>, n: nat)
    requires Behaviour(rs, es) && n <= |es|
    ensures Wf(rs[n]) && !rs[n].busy
    ensures forall x, y :: Below(x, rs[n]) && Below(y, rs[n]) && x.busy && y.busy && x != y ==>
                           x.end < y.start || y.end < x.start
  {
    if n == 0 {
    } else {
      RunWf(rs, es, n - 1);
      StepWf(rs[n - 1], es[n - 1], rs[n]);
    }
    forall x, y | Below(x, rs[n]) && Below(y, rs[n]) && x.busy && y.busy && x != y
      ensures x.end < y.start || y.end < x.start
    {
      BusyDisjoint(rs[n], x, y);
    }
  }
}
