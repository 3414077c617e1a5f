/**
  ipc/sem.c: a semaphore set updated in place by update_queue and sem_exit.
*/
module SemArrays {
  import opened Basics
  import opened SemVectors
  import opened SemSets

  lemma {:induction false} ChargeAt(undo: seq<Undo>, j: nat, sops: seq<Sop>, n: nat)
    requires Ledgers(undo, n) && j < |undo|
    ensures Charge(undo, undo[j].pid, sops) == undo[j := Undo(undo[j].pid, Ledger(undo[j].adj, sops))]
  {
    if j == 0 {
      ChargeNone(undo[1..], undo[0].pid, sops);
    } else {
      assert undo[1..][j - 1] == undo[j] && undo[0].pid != undo[j].pid;
      ChargeAt(undo[1..], j - 1, sops, n);
    }
  }

  lemma {:induction false} ChargeNone(undo: seq<Undo>, pid: int, sops: seq<Sop>)
    requires forall j :: 0 <= j < |undo| ==> undo[j].pid != pid
    ensures Charge(undo, pid, sops) == undo
  {
    if undo == [] {
    } else {
      ChargeNone(undo[1..], pid, sops);
    }
  }

  lemma {:induction false} UpdateIgnoresPending(s: Set, t: Set, kept: seq<Sleeper>, todo: seq<Sleeper>)
    requires AllValid(todo, |s.vals|) && t == s.(pending := t.pending)
    ensures Update(t, kept, todo) == Update(s, kept, todo)
    decreases |todo|
  {
    if todo == [] {
    } else {
      var q := todo[0];
      if q.retry || Attempt(s, q.call) == Block {
        UpdateIgnoresPending(s, t, kept + [q], todo[1..]);
      } else if Attempt(s, q.call) == Applied {
        if !Decreases(q.call.sops) {
          UpdateIgnoresPending(Apply(s, q.call).(woken := s.woken[q.call.id := Zero]),
                               Apply(t, q.call).(woken := t.woken[q.call.id := Zero]), kept, todo[1..]);
        }
      } else {
        var e := Errno(Attempt(s, q.call));
        UpdateIgnoresPending(s.(woken := s.woken[q.call.id := e]), t.(woken := t.woken[q.call.id := e]), kept, todo[1..]);
      }
    }
  }

  class SemArray {
    var vals: seq<int>
    var undo: seq<Undo>
    var pending: seq<Sleeper>
    var woken: map<nat, Code>
    var live: bool
    var results: map<nat, Code>
    var log: seq<Entry>

    ghost function View(): Set
      reads this
    {
      Set(vals, undo, pending, woken, live, results, log, false)
    }

    /** newary. */
    constructor (n: nat)
      ensures View() == Set(Zeros(n), [], [], map[], true, map[], [], false)
    {
      vals, undo, pending, woken, live, results, log := Zeros(n), [], [], map[], true, map[], [];
    }

    /** try_atomic_semop on the set and the ledger of the calling process. */
    method TryVector(call: Call, doUndo: bool) returns (o: Outcome)
      requires Valid(call.sops, |vals|) && Ledgers(undo, |vals|)
      requires UsesUndo(call.sops) ==> HasLedger(undo, call.pid)
      modifies this
      ensures o == Attempt(old(View()), call)
      ensures View() == if o == Applied && !doUndo then Apply(old(View()), call) else old(View())
    {
      var j := 0;
      while j < |undo| && undo[j].pid != call.pid
        invariant 0 <= j <= |undo|
        invariant forall k :: 0 <= k < j ==> undo[k].pid != call.pid
      {
        j := j + 1;
      }
      var v := vals;
      var a := if j < |undo| then undo[j].adj else Zeros(|vals|);
      var semval := new int[|v|](i requires 0 <= i < |v| => v[i]);
      var semadj := new int[|v|](i requires 0 <= i < |v| => a[i]);
      assert semval[..] == v && semadj[..] == a;
      hide Try, After, Ledger, Charge, UsesUndo;
      o := TryAtomicSemop(semval, semadj, call.sops, doUndo);
      if o == Applied && !doUndo {
        vals, log := semval[..], log + [Done(call)];
        if j < |undo| {
          ChargeAt(undo, j, call.sops, |v|);
          undo := undo[j := Undo(call.pid, semadj[..])];
        } else {
          ChargeNone(undo, call.pid, call.sops);
        }
      }
    }

    method AnyDecrease(sops: seq<Sop>) returns (b: bool)
      ensures b == Decreases(sops)
    {
      b := exists j :: 0 <= j < |sops| && sops[j].op < 0;
    }

    /** update_queue: sleepers are tried in the order of the queue; those that need no decrease are
        completed on the spot, the first that could decrease is told to retry and ends the pass. */
    method UpdatePending()
      requires Sane(View(), pending)
      modifies this
      ensures AllValid(old(pending), |old(vals)|) && View() == UpdateQueue(old(View()))
    {
      var k := 0;
      ghost var whole := UpdateQueue(View());
      assert pending[..0] == [] && pending[0..] == pending;
      while k < |pending|
        invariant 0 <= k <= |pending|
        invariant Sane(View(), pending)
        invariant Update(View(), pending[..k], pending[k..]) == whole
        decreases |pending| - k
      {
        var q := pending[k];
        ghost var s, kept, todo := View(), pending[..k], pending[k..];
        assert todo[0] == q && todo[1..] == pending[k + 1..] && kept + [q] == pending[..k + 1];
        if q.retry {
          k := k + 1;
          continue;
        }
        var alter := AnyDecrease(q.call.sops);
        var o := TryVector(q.call, alter);
        if o == Block {
          k := k + 1;
          continue;
        }
        if o == Applied && alter {
          pending := pending[k := q.(retry := true)];
          assert pending == kept + [q.(retry := true)] + todo[1..];
          return;
        }
        if o == Applied { ApplySane(s, pending, q.call); }
        hide Sane, Apply, Attempt;
        LeaveQueue(q, o, k, s);
      }
      assert pending[..k] == pending && pending[k..] == [];
    }

    /** The end of a turn of update_queue: the status is set and the sleeper leaves the queue. */
    method LeaveQueue(q: Sleeper, o: Outcome, k: nat, ghost s: Set)
      requires k < |pending| && pending[k] == q && !q.retry && o != Block
      requires Valid(q.call.sops, |s.vals|) && o == Attempt(s, q.call) && (o == Applied ==> !Decreases(q.call.sops))
      requires View() == if o == Applied then Apply(s, q.call) else s
      requires s.pending == pending && AllValid(pending, |s.vals|) && Sane(View(), pending)
      modifies this
      ensures pending == old(pending)[..k] + old(pending)[k + 1..]
      ensures Sane(View(), pending) && AllValid(pending, |vals|)
      ensures Update(View(), pending[..k], pending[k..]) == Update(s, old(pending)[..k], old(pending)[k..])
    {
      ghost var all := pending;
      woken := woken[q.call.id := CodeOf(o)];
      ghost var t := View();
      assert Update(s, all[..k], all[k..]) == Update(t, all[..k], all[k + 1..]) by {
        assert all[k..][0] == q && all[k..][1..] == all[k + 1..];
      }
      pending := pending[..k] + pending[k + 1..];
      assert pending[..k] == all[..k] && pending[k..] == all[k + 1..];
      UpdateIgnoresPending(t, View(), all[..k], all[k + 1..]);
      assert forall i :: 0 <= i < |pending| ==> pending[i] == all[if i < k then i else i + 1];
    }

    /** The adjustments of sem_exit, one semaphore after the other. */
    method AdjustOnExit(pid: int)
      modifies this`vals
      ensures vals == Adjusted(old(vals), undo, pid)
    {
      var i := 0;
      ghost var v := vals;
      while i < |vals|
        invariant 0 <= i <= |vals| == |v|
        invariant forall k :: 0 <= k < i ==> vals[k] == Adjusted(v, undo, pid)[k]
        invariant forall k :: i <= k < |v| ==> vals[k] == v[k]
      {
        var semval := vals[i] + Adj(undo, pid, i);
        vals := vals[i := if semval < 0 then 0 else semval];
        i := i + 1;
      }
    }
  }
}
