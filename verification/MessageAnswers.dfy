/**
  ipc/msg.c: who sleeps, who is answered with what, and in what order, over every run of a message queue.
*/
module MessageAnswers {
  import opened Basics
  import opened MessageQueues

  // ---------------------------------------------------------------------------
  // One call
  // ---------------------------------------------------------------------------

  /** Theorem: a receiver gets the message its request chooses, or is told that it is too big; only when no queued message
      is wanted does it sleep, or is told so if it will not wait. */
  lemma ReceiveMeans(q: Queue, req: Request, nowait: bool) returns (k: int)
    requires Inv(q) && Enabled(q, Receive(req, nowait))
    ensures var r, t := Asking(req), Next(q, Receive(req, nowait));
      && IsChoice(q.messages, r.mode, r.mtype, k)
      && (k >= 0 ==>
            if req.noError || q.messages[k].size <= req.size
            then t.delivered == q.delivered + [Handed(r, q.messages[k])] && t.messages == RemoveAt(q.messages, k) &&
                 (forall i :: 0 <= i < |t.senders| ==> t.senders[i].awake) && t.errors == q.errors
            else t == q.(errors := q.errors[req.id := TooBig]))
      && (k < 0 ==> t == if nowait then q.(errors := q.errors[req.id := NoMessage])
                         else q.(receivers := q.receivers + [r]))
  {
    k := Choice(q.messages, Asking(req).mode, Asking(req).mtype);
  }

  /** Theorem: a message is accepted exactly when the bytes and the messages queued leave room for it; otherwise the
      sender sleeps, or is told so if it will not wait. */
  lemma SendMeans(q: Queue, id: nat, m: Msg, nowait: bool)
    requires Inv(q) && Enabled(q, Send(id, m, nowait))
    ensures var t := Next(q, Send(id, m, nowait));
      if Bytes(q.messages) + m.size <= q.qbytes && |q.messages| + 1 <= q.qbytes
      then t.accepted == q.accepted + [m] && t.senders == q.senders && t.refused == q.refused
      else t == if nowait then q.(refused := q.refused[id := WouldBlock])
                else q.(senders := q.senders + [Sender(id, m, false)])
  {
  }

  /** Theorem: of the receivers asleep the first in line that wants the message and can hold it gets it; those before it
      that want it are told that it is too big, and nobody else is touched. */
  lemma {:induction false} OfferExactly(rs: seq<Receiver>, m: Msg, n: nat)
    requires n <= |rs| && (forall i :: 0 <= i < n ==> !Takes(rs[i], m)) && (n < |rs| ==> Takes(rs[n], m))
    ensures var o := Offer(rs, m);
      && o.taker == (if n < |rs| then Some(rs[n]) else None)
      && o.small == Those(rs[..n], m, true)
      && o.kept == Those(rs[..n], m, false) + (if n < |rs| then rs[n + 1..] else [])
  {
    if rs == [] {
      assert rs[..n] == [];
    } else if n > 0 {
      assert rs[1..][..n - 1] == rs[..n][1..];
      assert n < |rs| ==> rs[1..][n - 1] == rs[n] && rs[1..][n..] == rs[n + 1..];
      OfferExactly(rs[1..], m, n - 1);
    }
  }

  /** The receivers that want the message, or those that do not, in their order. */
  function Those(rs: seq<Receiver>, m: Msg, wanting: bool): seq<Receiver> {
    if rs == [] then []
    else (if Wants(rs[0], m) == wanting then [rs[0]] else []) + Those(rs[1..], m, wanting)
  }

  // ---------------------------------------------------------------------------
  // Answers over whole runs
  // ---------------------------------------------------------------------------

  ghost predicate Called(es: seq<Event>, r: Receiver, nowait: bool) {
    exists req :: Receive(req, nowait) in es && Asking(req) == r
  }

  /** What an error says about the msgrcv call and the events so far. */
  ghost predicate Earned(es: seq<Event>, accepted: seq<Msg>, r: Receiver, nowait: bool, error: Errno) {
    match error
    case NoMessage => nowait
    case TooBig => !r.noError && exists m :: m in accepted && Wants(r, m) && r.size < m.size
    case Interrupted => !nowait && exists e :: e in es && e.WaiterRuns? && e.signal
    case Denied => !nowait && exists e :: e in es && e.WaiterRuns? && e.denied
    case Removed => !nowait && Remove in es
    case WouldBlock => false
  }

  /** The same for a msgsnd call. */
  ghost predicate Refusal(es: seq<Event>, nowait: bool, error: Errno) {
    match error
    case WouldBlock => nowait
    case Interrupted => !nowait && exists e :: e in es && e.SenderRuns? && e.signal
    case Denied => !nowait && exists e :: e in es && e.SenderRuns? && e.denied
    case Removed => !nowait && Remove in es
    case _ => false
  }

  ghost predicate Failure(es: seq<Event>, accepted: seq<Msg>, id: nat, error: Errno) {
    exists r: Receiver, nowait :: r.id == id && Called(es, r, nowait) && Earned(es, accepted, r, nowait, error)
  }

  ghost predicate Refused(es: seq<Event>, id: nat, error: Errno) {
    exists m, nowait :: Send(id, m, nowait) in es && Refusal(es, nowait, error)
  }

  ghost predicate AllFail(es: seq<Event>, accepted: seq<Msg>, errors: map<nat, Errno>) {
    forall id :: id in errors ==> Failure(es, accepted, id, errors[id])
  }

  ghost predicate AllRefused(es: seq<Event>, refused: map<nat, Errno>) {
    forall id :: id in refused ==> Refused(es, id, refused[id])
  }

  /** Whoever sleeps said it would. */
  ghost predicate Asleep(es: seq<Event>, receivers: seq<Receiver>, senders: seq<Sender>) {
    && (forall i :: 0 <= i < |receivers| ==> Called(es, receivers[i], false))
    && (forall i :: 0 <= i < |senders| ==> Send(senders[i].id, senders[i].msg, false) in es)
  }

  ghost predicate Answers(q: Queue, es: seq<Event>) {
    && Asleep(es, q.receivers, q.senders) && AllFail(es, q.accepted, q.failed) && AllFail(es, q.accepted, q.errors)
    && AllRefused(es, q.refused) && (q.live || Remove in es)
  }

  /** More events and more messages accepted take nothing back. */
  lemma AnswersMore(q: Queue, es: seq<Event>, e: Event)
    requires Answers(q, es)
    ensures Answers(q, es + [e])
  {
    forall i | 0 <= i < |q.receivers| ensures Called(es + [e], q.receivers[i], false) {
      CalledMore(es, e, q.receivers[i], false);
    }
    FailMore(es, e, q.accepted, q.accepted, q.failed);
    FailMore(es, e, q.accepted, q.accepted, q.errors);
    forall id | id in q.refused ensures Refused(es + [e], id, q.refused[id]) {
      var m, nowait :| Send(id, m, nowait) in es && Refusal(es, nowait, q.refused[id]);
      assert forall x :: x in es ==> x in es + [e];
      assert Send(id, m, nowait) in es + [e] && Refusal(es + [e], nowait, q.refused[id]);
    }
    hide Called, Earned, Refusal;
  }

  lemma CalledMore(es: seq<Event>, e: Event, r: Receiver, nowait: bool)
    requires Called(es, r, nowait)
    ensures Called(es + [e], r, nowait)
  {
    var req :| Receive(req, nowait) in es && Asking(req) == r;
    assert Receive(req, nowait) in es + [e];
  }

  lemma FailMore(es: seq<Event>, e: Event, accepted: seq<Msg>, accepted': seq<Msg>, errors: map<nat, Errno>)
    requires AllFail(es, accepted, errors) && forall m :: m in accepted ==> m in accepted'
    ensures AllFail(es + [e], accepted', errors)
  {
    forall id | id in errors ensures Failure(es + [e], accepted', id, errors[id]) {
      assert Failure(es, accepted, id, errors[id]);
      var r: Receiver, nowait :| r.id == id && Called(es, r, nowait) && Earned(es, accepted, r, nowait, errors[id]);
      CalledMore(es, e, r, nowait);
      assert forall x :: x in es ==> x in es + [e];
      assert Earned(es + [e], accepted', r, nowait, errors[id]);
    }
  }

  lemma FailAccepted(es: seq<Event>, accepted: seq<Msg>, m: Msg, errors: map<nat, Errno>)
    requires AllFail(es, accepted, errors)
    ensures AllFail(es, accepted + [m], errors)
  {
    forall id | id in errors ensures Failure(es, accepted + [m], id, errors[id]) {
      assert Failure(es, accepted, id, errors[id]);
      var r: Receiver, nowait :| r.id == id && Called(es, r, nowait) && Earned(es, accepted, r, nowait, errors[id]);
      assert forall x :: x in accepted ==> x in accepted + [m];
      assert Earned(es, accepted + [m], r, nowait, errors[id]);
    }
  }

  lemma FailOne(es: seq<Event>, accepted: seq<Msg>, errors: map<nat, Errno>, r: Receiver, nowait: bool, error: Errno)
    requires AllFail(es, accepted, errors) && Called(es, r, nowait) && Earned(es, accepted, r, nowait, error)
    ensures AllFail(es, accepted, errors[r.id := error])
  {
    assert Failure(es, accepted, r.id, error);
    hide Failure;
  }

  lemma {:induction false} FailMany(es: seq<Event>, accepted: seq<Msg>, errors: map<nat, Errno>, rs: seq<Receiver>, error: Errno)
    requires AllFail(es, accepted, errors)
    requires forall r :: r in rs ==> Called(es, r, false) && Earned(es, accepted, r, false, error)
    ensures AllFail(es, accepted, FailAll(errors, rs, error))
    decreases |rs|
  {
    if rs == [] {
    } else {
      assert rs[0] in rs;
      FailOne(es, accepted, errors, rs[0], false, error);
      FailMany(es, accepted, errors[rs[0].id := error], rs[1..], error);
    }
  }

  lemma SendAnswers(q: Queue, m: Msg, es: seq<Event>)
    requires Answers(q, es)
    ensures Answers(SendNow(q, m), es)
  {
    var o, acc := Offer(q.receivers, m), q.accepted + [m];
    OfferSplits(q.receivers, m);
    FailAccepted(es, q.accepted, m, q.failed);
    FailAccepted(es, q.accepted, m, q.errors);
    forall r | r in o.small ensures Called(es, r, false) && Earned(es, acc, r, false, TooBig) {
      assert r in q.receivers && m in acc;
    }
    FailMany(es, acc, q.failed, o.small, TooBig);
    forall i | 0 <= i < |o.kept| ensures Called(es, o.kept[i], false) { assert o.kept[i] in q.receivers; }
    hide Called, AllFail, FailAll, Offer, AllRefused;
  }

  lemma TrySendAnswers(q: Queue, id: nat, m: Msg, nowait: bool, es: seq<Event>)
    requires Answers(q, es) && Send(id, m, nowait) in es
    ensures Answers(TrySend(q, id, m, nowait), es)
  {
    if !Full(q, m) { SendAnswers(q, m, es); } else { RefuseOne(es, q.refused, id, m, nowait, WouldBlock); }
    hide Called, AllFail, AllRefused, SendNow;
  }

  lemma RefuseOne(es: seq<Event>, refused: map<nat, Errno>, id: nat, m: Msg, nowait: bool, error: Errno)
    requires AllRefused(es, refused) && Send(id, m, nowait) in es
    ensures Refusal(es, nowait, error) ==> AllRefused(es, refused[id := error])
  {
    assert Refusal(es, nowait, error) ==> Refused(es, id, error);
    hide Refused;
  }

  lemma TryReceiveAnswers(q: Queue, r: Receiver, nowait: bool, es: seq<Event>)
    requires Answers(q, es) && Called(es, r, nowait) && forall m :: m in q.messages ==> m in q.accepted
    ensures Answers(TryReceive(q, r, nowait), es)
  {
    var k := Choice(q.messages, r.mode, r.mtype);
    var error := if k >= 0 then TooBig else NoMessage;
    if k >= 0 { assert q.messages[k] in q.messages && Wants(r, q.messages[k]); }
    if Earned(es, q.accepted, r, nowait, error) { FailOne(es, q.accepted, q.errors, r, nowait, error); }
    hide Called, AllFail, AllRefused, Choice;
  }

  lemma SenderAnswers(q: Queue, k: nat, signal: bool, denied: bool, reused: bool, es: seq<Event>)
    requires Answers(q, es) && k < |q.senders| && SenderRuns(k, signal, denied, reused) in es
    ensures Answers(Next(q, SenderRuns(k, signal, denied, reused)), es)
  {
    var s, t := q.senders[k], q.(senders := RemoveAt(q.senders, k));
    assert forall i :: 0 <= i < |t.senders| ==> t.senders[i] == q.senders[if i < k then i else i + 1];
    assert Answers(t, es);
    var e := SenderRuns(k, signal, denied, reused);
    assert e in es && (signal ==> Refusal(es, false, Interrupted)) && (denied ==> Refusal(es, false, Denied));
    assert !q.live ==> Refusal(es, false, Removed);
    RefuseOne(es, q.refused, s.id, s.msg, false, Interrupted);
    RefuseOne(es, q.refused, s.id, s.msg, false, Denied);
    RefuseOne(es, q.refused, s.id, s.msg, false, Removed);
    hide Called, AllFail, AllRefused, TrySend, Refusal;
    if q.live && !signal && !denied { TrySendAnswers(t, s.id, s.msg, false, es); }
  }

  lemma WaiterAnswers(q: Queue, k: nat, signal: bool, denied: bool, es: seq<Event>)
    requires Answers(q, es) && k < |q.receivers| && WaiterRuns(k, signal, denied) in es
    requires forall m :: m in q.messages ==> m in q.accepted
    ensures Answers(Next(q, WaiterRuns(k, signal, denied)), es)
  {
    var r, t := q.receivers[k], q.(receivers := RemoveAt(q.receivers, k));
    assert forall i :: 0 <= i < |t.receivers| ==> t.receivers[i] == q.receivers[if i < k then i else i + 1];
    assert Answers(t, es);
    var e := WaiterRuns(k, signal, denied);
    assert e in es && Called(es, r, false);
    hide Called, AllFail, AllRefused, TryReceive;
    if signal { FailOne(es, q.accepted, q.errors, r, false, Interrupted); }
    else if denied { FailOne(es, q.accepted, q.errors, r, false, Denied); }
    else { TryReceiveAnswers(t, r, false, es); }
  }

  lemma RemoveAnswers(q: Queue, es: seq<Event>)
    requires Answers(q, es) && q.live && Remove in es
    ensures Answers(Next(q, Remove), es)
  {
    forall r | r in q.receivers ensures Called(es, r, false) && Earned(es, q.accepted, r, false, Removed) { }
    FailMany(es, q.accepted, q.failed, q.receivers, Removed);
    AwakenSame(q.senders, es);
    hide Called, AllFail, AllRefused, FailAll;
  }

  lemma AwakenSame(ss: seq<Sender>, es: seq<Event>)
    ensures forall i :: 0 <= i < |ss| ==> Awaken(ss)[i].id == ss[i].id && Awaken(ss)[i].msg == ss[i].msg
  {
  }

  lemma CollectAnswers(q: Queue, id: nat, es: seq<Event>)
    requires Answers(q, es) && id in q.failed
    ensures Answers(Next(q, FailedRuns(id)), es)
  {
    assert Failure(es, q.accepted, id, q.failed[id]);
    hide Failure, Called, Refused;
  }

  lemma NextAnswers(q: Queue, e: Event, es: seq<Event>)
    requires Enabled(q, e) && Answers(q, es) && forall m :: m in q.messages ==> m in q.accepted
    ensures Answers(Next(q, e), es + [e])
  {
    var es' := es + [e];
    assert es'[|es|] == e;
    AnswersMore(q, es, e);
    hide Answers, TrySend, TryReceive;
    match e
    case Send(id, m, nowait) => TrySendAnswers(q, id, m, nowait, es');
    case SenderRuns(k, signal, denied, reused) => SenderAnswers(q, k, signal, denied, reused, es');
    case Receive(req, nowait) =>
      assert Called(es', Asking(req), nowait);
      TryReceiveAnswers(q, Asking(req), nowait, es');
    case HandedRuns(k) => SameAnswers(q, Next(q, e), es');
    case FailedRuns(id) => CollectAnswers(q, id, es');
    case WaiterRuns(k, signal, denied) => WaiterAnswers(q, k, signal, denied, es');
    case SetBytes(n) =>
      AwakenSame(q.senders, es');
      SameAnswers(q, Next(q, e), es');
    case Remove => RemoveAnswers(q, es');
  }

  lemma SameAnswers(q: Queue, t: Queue, es: seq<Event>)
    requires Answers(q, es) && t.receivers == q.receivers && t.failed == q.failed && t.errors == q.errors
    requires t.refused == q.refused && t.accepted == q.accepted && t.live == q.live && |t.senders| == |q.senders|
    requires forall i :: 0 <= i < |q.senders| ==> t.senders[i].id == q.senders[i].id && t.senders[i].msg == q.senders[i].msg
    ensures Answers(t, es)
  {
    hide Called, AllFail, AllRefused;
  }

  // ---------------------------------------------------------------------------
  // Order
  // ---------------------------------------------------------------------------

  /** Messages stand in the order in which they were accepted, and none is queued beyond the limit. */
  lemma NextOrder(q: Queue, e: Event)
    requires Enabled(q, e) && Subseq(q.messages, q.accepted)
    ensures Subseq(Next(q, e).messages, Next(q, e).accepted)
  {
    hide Subseq;
    match e
    case Send(id, m, nowait) => SubseqMore(q.messages, q.accepted, m);
    case SenderRuns(k, signal, denied, reused) => SubseqMore(q.messages, q.accepted, q.senders[k].msg);
    case Receive(req, nowait) => TakeOrder(q, Asking(req), nowait);
    case WaiterRuns(k, signal, denied) =>
      TakeOrder(q.(receivers := RemoveAt(q.receivers, k)), q.receivers[k], false);
    case Remove => NoneInOrder(q.accepted);
    case _ =>
  }

  lemma NoneInOrder(accepted: seq<Msg>)
    ensures Subseq([], accepted)
  {
    var p: seq<nat> := [];
    assert Picks(p, [], accepted);
  }

  lemma TakeOrder(q: Queue, r: Receiver, nowait: bool)
    requires Subseq(q.messages, q.accepted)
    ensures var t := TryReceive(q, r, nowait); Subseq(t.messages, t.accepted)
  {
    var k := Choice(q.messages, r.mode, r.mtype);
    if k >= 0 { SubseqLess(q.messages, q.accepted, k); }
  }

  /** No step lets a sleeping receiver pass another: those that stay asleep keep their order, and one that goes to sleep
      goes to the end. */
  lemma NextLine(q: Queue, e: Event) returns (stay: seq<Receiver>)
    requires Enabled(q, e)
    ensures Subseq(stay, q.receivers)
    ensures || Next(q, e).receivers == stay
            || (e.Receive? && Next(q, e).receivers == stay + [Asking(e.req)])
            || (e.WaiterRuns? && Next(q, e).receivers == stay + [q.receivers[e.k]])
  {
    SubseqSelf(q.receivers);
    hide Subseq;
    match e
    case Send(id, m, nowait) => stay := LineAfter(q, m, !Full(q, m));
    case SenderRuns(k, signal, denied, reused) =>
      var m := q.senders[k].msg;
      stay := LineAfter(q, m, q.live && !signal && !denied && !Full(q, m));
    case WaiterRuns(k, signal, denied) =>
      SubseqLess(q.receivers, q.receivers, k);
      stay := RemoveAt(q.receivers, k);
    case Remove =>
      stay := [];
      NoneInLine(q.receivers);
    case _ => stay := q.receivers;
  }

  lemma NoneInLine(rs: seq<Receiver>)
    ensures Subseq([], rs)
  {
    var p: seq<nat> := [];
    assert Picks(p, [], rs);
  }

  lemma LineAfter(q: Queue, m: Msg, sent: bool) returns (stay: seq<Receiver>)
    ensures Subseq(stay, q.receivers) && stay == if sent then Offer(q.receivers, m).kept else q.receivers
  {
    SubseqSelf(q.receivers);
    OfferInLine(q.receivers, m);
    stay := if sent then Offer(q.receivers, m).kept else q.receivers;
  }

  lemma {:induction false} OfferInLine(rs: seq<Receiver>, m: Msg)
    ensures Subseq(Offer(rs, m).kept, rs)
  {
    if rs == [] {
      SubseqSelf(rs);
    } else if !Wants(rs[0], m) {
      OfferInLine(rs[1..], m);
      SubseqCons(Offer(rs[1..], m).kept, rs[1..], rs[0], true);
      assert [rs[0]] + rs[1..] == rs;
    } else if Takes(rs[0], m) {
      SubseqSelf(rs[1..]);
      SubseqCons(rs[1..], rs[1..], rs[0], false);
      assert [rs[0]] + rs[1..] == rs;
    } else {
      OfferInLine(rs[1..], m);
      SubseqCons(Offer(rs[1..], m).kept, rs[1..], rs[0], false);
      assert [rs[0]] + rs[1..] == rs;
    }
  }

  /** Theorem: in every state of every run, whoever sleeps was called without IPC_NOWAIT, every error was earned, and the
      messages stand in the order in which they were accepted. */
  lemma {:induction false} RunAnswers(qs: seq<Queue>, es: seq<Event>, n: nat)
    requires Behaviour(qs, es) && n <= |es|
    ensures Answers(qs[n], es[..n]) && Subseq(qs[n].messages, qs[n].accepted)
  {
    hide Answers, Next, Enabled, Behaviour, Subseq;
    if n == 0 {
      NewAnswers(qs, es);
    } else {
      RunAnswers(qs, es, n - 1);
      Stepped(qs, es, n - 1);
      var q, e := qs[n - 1], es[n - 1];
      SubseqMembers(q.messages, q.accepted);
      NextAnswers(q, e, es[..n - 1]);
      NextOrder(q, e);
      assert es[..n - 1] + [e] == es[..n];
    }
  }

  lemma Stepped(qs: seq<Queue>, es: seq<Event>, n: nat)
    requires Behaviour(qs, es) && n < |es|
    ensures |qs| == |es| + 1 && Enabled(qs[n], es[n]) && qs[n + 1] == Next(qs[n], es[n])
  {
  }

  lemma NewAnswers(qs: seq<Queue>, es: seq<Event>)
    requires Behaviour(qs, es)
    ensures |qs| == |es| + 1 && Answers(qs[0], es[..0]) && Subseq(qs[0].messages, qs[0].accepted)
  {
    NoneInOrder([]);
    hide Next, Enabled;
  }

  lemma SubseqMembers(a: seq<Msg>, b: seq<Msg>)
    requires Subseq(a, b)
    ensures forall m :: m in a ==> m in b
  {
    var p: seq<nat> :| Picks(p, a, b);
    forall i | 0 <= i < |a| ensures a[i] in b { assert b[p[i]] == a[i]; }
  }
}
