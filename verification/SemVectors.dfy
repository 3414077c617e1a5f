/**
  ipc/sem.c: vectors of semaphore operations, tried and rolled back in place.
*/
module SemVectors {

  const SEMVMX: int := 32767

  /** A struct sembuf; sem_op is a short. */
  datatype Sop = Sop(num: nat, op: int, nowait: bool, undo: bool)

  /** What a conversion to short leaves of an integer. */
  function Short(x: int): (r: int)
    ensures -32768 <= r <= 32767
    ensures IsShort(x) <==> r == x
  {
    (x + 32768) % 65536 - 32768
  }

  predicate IsShort(x: int) {
    -32768 <= x <= 32767
  }

  lemma ShortAdds(x: int, y: int)
    ensures Short(Short(x) + y) == Short(x + y)
  {
    var q := (x + 32768) / 65536;
    assert Short(x) == x - 65536 * q;
    assert (x + y + 32768 - 65536 * q) % 65536 == (x + y + 32768) % 65536;
  }

  ghost predicate Valid(sops: seq<Sop>, n: nat) {
    forall j :: 0 <= j < |sops| ==> sops[j].num < n
  }

  /** The net change of semaphore i by the whole vector. */
  ghost function Sum(sops: seq<Sop>, i: nat): int {
    if sops == [] then 0
    else Sum(sops[..|sops| - 1], i) + (if sops[|sops| - 1].num == i then sops[|sops| - 1].op else 0)
  }

  /** The part of it made with SEM_UNDO. */
  ghost function UndoSum(sops: seq<Sop>, i: nat): int {
    if sops == [] then 0
    else UndoSum(sops[..|sops| - 1], i) +
         (if sops[|sops| - 1].num == i && sops[|sops| - 1].undo then sops[|sops| - 1].op else 0)
  }

  lemma SumStep(sops: seq<Sop>, j: nat, i: nat)
    requires j < |sops|
    ensures Sum(sops[..j + 1], i) == Sum(sops[..j], i) + (if sops[j].num == i then sops[j].op else 0)
    ensures UndoSum(sops[..j + 1], i) ==
            UndoSum(sops[..j], i) + (if sops[j].num == i && sops[j].undo then sops[j].op else 0)
  {
    assert sops[..j + 1][..j] == sops[..j];
  }

  /** The semaphore of operation j as that operation finds it. */
  ghost function Found(vals: seq<int>, sops: seq<Sop>, j: nat): int
    requires Valid(sops, |vals|) && j < |sops|
  {
    vals[sops[j].num] + Sum(sops[..j], sops[j].num)
  }

  /** Operation j can go through: a wait for zero finds zero, anything else stays in range. */
  ghost predicate Passes(vals: seq<int>, sops: seq<Sop>, j: nat)
    requires Valid(sops, |vals|) && j < |sops|
  {
    if sops[j].op == 0 then Found(vals, sops, j) == 0
    else 0 <= Found(vals, sops, j) + sops[j].op <= SEMVMX
  }

  datatype Outcome = Applied | Block | Again | Range

  /** The answer of try_atomic_semop from operation j on. */
  ghost function Try(vals: seq<int>, sops: seq<Sop>, j: nat): Outcome
    requires Valid(sops, |vals|) && j <= |sops|
    decreases |sops| - j
  {
    if j == |sops| then Applied
    else if Passes(vals, sops, j) then Try(vals, sops, j + 1)
    else if sops[j].op != 0 && Found(vals, sops, j) + sops[j].op > SEMVMX then Range
    else if sops[j].nowait then Again else Block
  }

  /** The semaphores after the whole vector. */
  ghost function After(vals: seq<int>, sops: seq<Sop>): (r: seq<int>)
    ensures |r| == |vals|
  {
    seq(|vals|, i requires 0 <= i < |vals| => vals[i] + Sum(sops, i))
  }

  /** The undo ledger of the process after the whole vector. */
  ghost function Ledger(adj: seq<int>, sops: seq<Sop>): (r: seq<int>)
    ensures |r| == |adj|
  {
    seq(|adj|, i requires 0 <= i < |adj| => Short(adj[i] - UndoSum(sops, i)))
  }

  /** All operations pass, each seeing the ones before it. */
  lemma {:induction false} AppliedExactly(vals: seq<int>, sops: seq<Sop>, j: nat)
    requires Valid(sops, |vals|) && j <= |sops|
    ensures Try(vals, sops, j) == Applied <==> forall k :: j <= k < |sops| ==> Passes(vals, sops, k)
    decreases |sops| - j
  {
    if j < |sops| { AppliedExactly(vals, sops, j + 1); }
  }

  /** The first operation that does not pass decides: an overflow is an error, anything else is one if the operation
      is not to wait, and otherwise the call sleeps. */
  lemma {:induction false} StopsAt(vals: seq<int>, sops: seq<Sop>, j: nat, k: nat)
    requires Valid(sops, |vals|) && j <= k < |sops| && !Passes(vals, sops, k)
    requires forall i :: j <= i < k ==> Passes(vals, sops, i)
    ensures Try(vals, sops, j) == Range <==> sops[k].op != 0 && Found(vals, sops, k) + sops[k].op > SEMVMX
    ensures Try(vals, sops, j) == Block <==>
            !sops[k].nowait && (Found(vals, sops, k) + sops[k].op < 0 || (sops[k].op == 0 && Found(vals, sops, k) != 0))
    ensures Try(vals, sops, j) != Applied
    decreases k - j
  {
    if j == k {
    } else {
      assert Passes(vals, sops, j);
      StopsAt(vals, sops, j + 1, k);
    }
  }

  lemma {:induction false} FirstFailing(vals: seq<int>, sops: seq<Sop>, j: nat) returns (k: nat)
    requires Valid(sops, |vals|) && j <= |sops| && Try(vals, sops, j) != Applied
    ensures j <= k < |sops| && !Passes(vals, sops, k) && forall i :: j <= i < k ==> Passes(vals, sops, i)
    decreases |sops| - j
  {
    k := j;
    if Passes(vals, sops, j) { k := FirstFailing(vals, sops, j + 1); }
  }

  lemma Advance(v: seq<int>, a: seq<int>, sops: seq<Sop>, j: nat)
    requires j < |sops| && |a| == |v| && Valid(sops, |v|)
    ensures forall i: nat :: Sum(sops[..j + 1], i) == Sum(sops[..j], i) + (if sops[j].num == i then sops[j].op else 0)
    ensures forall i: nat :: UndoSum(sops[..j + 1], i) ==
              UndoSum(sops[..j], i) + (if sops[j].num == i && sops[j].undo then sops[j].op else 0)
    ensures var i := sops[j].num;
            && Short(Short(a[i] - UndoSum(sops[..j], i)) - sops[j].op) == Short(a[i] - UndoSum(sops[..j], i) - sops[j].op)
            && Short(Short(a[i] - UndoSum(sops[..j], i) - sops[j].op) + sops[j].op) == Short(a[i] - UndoSum(sops[..j], i))
  {
    forall i: nat
      ensures Sum(sops[..j + 1], i) == Sum(sops[..j], i) + (if sops[j].num == i then sops[j].op else 0)
      ensures UndoSum(sops[..j + 1], i) ==
              UndoSum(sops[..j], i) + (if sops[j].num == i && sops[j].undo then sops[j].op else 0)
    {
      SumStep(sops, j, i);
    }
    var i := sops[j].num;
    ShortAdds(a[i] - UndoSum(sops[..j], i), -sops[j].op);
    ShortAdds(a[i] - UndoSum(sops[..j], i) - sops[j].op, sops[j].op);
  }

  /** The arrays hold `v` and `a` with the first j operations applied. */
  ghost predicate Reached(semval: seq<int>, semadj: seq<int>, v: seq<int>, a: seq<int>, sops: seq<Sop>, j: nat)
    requires j <= |sops|
  {
    && |semval| == |v| == |semadj| == |a|
    && (forall i :: 0 <= i < |v| ==> semval[i] == v[i] + Sum(sops[..j], i))
    && (forall i :: 0 <= i < |a| ==> semadj[i] == Short(a[i] - UndoSum(sops[..j], i)))
  }

  /** The lines of the loop body that change the semaphore and the ledger. */
  method ApplyOp(semval: array<int>, semadj: array<int>, sops: seq<Sop>, j: nat, ghost v: seq<int>, ghost a: seq<int>)
    requires semval != semadj && j < |sops| && Valid(sops, semval.Length)
    requires Reached(semval[..], semadj[..], v, a, sops, j)
    modifies semval, semadj
    ensures Reached(semval[..], semadj[..], v, a, sops, j + 1)
    ensures semval[sops[j].num] == old(semval[sops[j].num]) + sops[j].op
  {
    var sop := sops[j];
    Advance(v, a, sops, j);
    semval[sop.num] := semval[sop.num] + sop.op;
    if sop.undo { semadj[sop.num] := Short(semadj[sop.num] - sop.op); }
  }

  /** The loop of try_atomic_semop; `j` operations have been applied when it stops. */
  method ApplyOps(semval: array<int>, semadj: array<int>, sops: seq<Sop>) returns (result: Outcome, j: nat)
    requires semval != semadj && semadj.Length == semval.Length && Valid(sops, semval.Length)
    requires forall i :: 0 <= i < semadj.Length ==> IsShort(semadj[i])
    modifies semval, semadj
    ensures result == Try(old(semval[..]), sops, 0) && j <= |sops|
    ensures Reached(semval[..], semadj[..], old(semval[..]), old(semadj[..]), sops, j)
    ensures result == Applied ==> j == |sops|
  {
    j := 0;
    ghost var v, a := semval[..], semadj[..];
    while j < |sops|
      invariant 0 <= j <= |sops|
      invariant Reached(semval[..], semadj[..], v, a, sops, j)
      invariant Try(v, sops, 0) == Try(v, sops, j)
    {
      var sop := sops[j];
      ghost var found := Found(v, sops, j);
      assert semval[sop.num] == found;
      if sop.op == 0 && semval[sop.num] != 0 {
        return if sop.nowait then Again else Block, j;
      }
      ApplyOp(semval, semadj, sops, j, v, a);
      j := j + 1;
      if semval[sop.num] < 0 {
        return if sop.nowait then Again else Block, j;
      }
      if semval[sop.num] > SEMVMX {
        return Range, j;
      }
    }
    result := Applied;
  }

  /** The loop at the label undo: from operation j - 1 back to the first. */
  method UndoOps(semval: array<int>, semadj: array<int>, sops: seq<Sop>, from: nat, ghost v: seq<int>, ghost a: seq<int>)
    requires semval != semadj && from <= |sops| && Valid(sops, semval.Length)
    requires forall i :: 0 <= i < |a| ==> IsShort(a[i])
    requires Reached(semval[..], semadj[..], v, a, sops, from)
    modifies semval, semadj
    ensures semval[..] == v && semadj[..] == a
  {
    var j := from;
    while j > 0
      invariant 0 <= j <= |sops|
      invariant Reached(semval[..], semadj[..], v, a, sops, j)
    {
      j := j - 1;
      var sop := sops[j];
      Advance(v, a, sops, j);
      semval[sop.num] := semval[sop.num] - sop.op;
      if sop.undo { semadj[sop.num] := Short(semadj[sop.num] + sop.op); }
    }
  }

  /** try_atomic_semop. Whatever it answers, unless the vector is applied for good every
      semaphore and every entry of the ledger is back at its old value. */
  method TryAtomicSemop(semval: array<int>, semadj: array<int>, sops: seq<Sop>, doUndo: bool)
    returns (result: Outcome)
    requires semval != semadj && semadj.Length == semval.Length && Valid(sops, semval.Length)
    requires forall i :: 0 <= i < semadj.Length ==> IsShort(semadj[i])
    modifies semval, semadj
    ensures result == Try(old(semval[..]), sops, 0)
    ensures result == Applied && !doUndo ==>
              semval[..] == After(old(semval[..]), sops) && semadj[..] == Ledger(old(semadj[..]), sops)
    ensures result != Applied || doUndo ==> semval[..] == old(semval[..]) && semadj[..] == old(semadj[..])
  {
    var j;
    result, j := ApplyOps(semval, semadj, sops);
    if result == Applied && !doUndo {
      assert sops[..j] == sops;
    } else {
      UndoOps(semval, semadj, sops, j, old(semval[..]), old(semadj[..]));
    }
  }
}
