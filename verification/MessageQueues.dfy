/**
  ipc/msg.c: one message queue, with hand-off to sleeping receivers that races with signals,
  IPC_SET and IPC_RMID.
*/
module MessageQueues {
  import opened Basics

  datatype Msg = Msg(id: nat, mtype: int, size: nat)

  datatype Mode = Any | Equal | NotEqual | LessEqual

  const LONG_MIN: int := -0x8000_0000

  type Long = x: int | LONG_MIN <= x < -LONG_MIN

  /** Minus x in 32 bits. */
  function Negated(x: Long): Long {
    if x == LONG_MIN then LONG_MIN else -x
  }

  /** convert_mode: the mode and the type to search for. */
  function ConvertMode(msgtyp: Long, except: bool): (Mode, int) {
    if msgtyp == 0 then (Any, 0)
    else if msgtyp < 0 then (LessEqual, Negated(msgtyp))
    else if except then (NotEqual, msgtyp) else (Equal, msgtyp)
  }

  /** testmsg. */
  predicate TestMsg(m: Msg, mtype: int, mode: Mode) {
    match mode
    case Any => true
    case LessEqual => m.mtype <= mtype
    case Equal => m.mtype == mtype
    case NotEqual => m.mtype != mtype
  }

  /** A msgrcv call as it is made. */
  datatype Request = Request(id: nat, msgtyp: Long, except: bool, size: nat, noError: bool)

  /** The same with its mode; without `noError` a message larger than `size` is an error. */
  datatype Receiver = Receiver(id: nat, mode: Mode, mtype: int, size: nat, noError: bool)

  function Asking(req: Request): Receiver {
    var (mode, mtype) := ConvertMode(req.msgtyp, req.except);
    Receiver(req.id, mode, mtype, req.size, req.noError)
  }

  /** What a call wants: any message; those of types up to and including the bound; of one type; or of any other. The
      largest bound of all is lost and nothing is wanted. */
  lemma AskingMeans(req: Request, m: Msg)
    requires m.mtype >= 1
    ensures Wants(Asking(req), m) <==>
            || req.msgtyp == 0
            || (LONG_MIN < req.msgtyp < 0 && m.mtype + req.msgtyp <= 0)
            || (req.msgtyp > 0 && (m.mtype == req.msgtyp <==> !req.except))
  {
  }

  predicate Wants(r: Receiver, m: Msg) {
    TestMsg(m, r.mtype, r.mode)
  }

  predicate Takes(r: Receiver, m: Msg) {
    Wants(r, m) && (r.noError || m.size <= r.size)
  }

  /** A sleeping msgsnd call; `awake` once wake_up_process has been called on it. */
  datatype Sender = Sender(id: nat, msg: Msg, awake: bool)

  datatype Errno = TooBig | Removed | Interrupted | WouldBlock | NoMessage | Denied

  /** A message in r_msg of a receiver that is off the list and has not run yet. */
  datatype Handed = Handed(r: Receiver, msg: Msg)

  /** `failed` are receivers off the list with an error in r_msg. `accepted`, `delivered` and
      `dropped` record the messages msgsnd took, msgrcv returned and freeque freed; `errors` and
      `refused` the msgrcv and msgsnd calls that returned an error. */
  datatype Queue = Queue(messages: seq<Msg>, cbytes: int, qnum: int, qbytes: int,
                         receivers: seq<Receiver>, handed: seq<Handed>, failed: map<nat, Errno>,
                         senders: seq<Sender>, live: bool,
                         accepted: seq<Msg>, delivered: seq<Handed>, dropped: seq<Msg>,
                         errors: map<nat, Errno>, refused: map<nat, Errno>)

  // ---------------------------------------------------------------------------
  // Finding a message
  // ---------------------------------------------------------------------------

  /** The message that msgrcv takes: the first wanted one or, when the request is for the least
      type, the first of the least type wanted. */
  ghost predicate IsChoice(messages: seq<Msg>, mode: Mode, mtype: int, k: int) {
    if k < 0 then forall i :: 0 <= i < |messages| ==> !TestMsg(messages[i], mtype, mode)
    else
      && k < |messages| && TestMsg(messages[k], mtype, mode)
      && (forall i :: 0 <= i < k ==> !TestMsg(messages[i], mtype, mode) ||
                                      (mode == LessEqual && messages[i].mtype > messages[k].mtype))
      && (mode == LessEqual ==> forall i :: 0 <= i < |messages| ==> messages[i].mtype >= messages[k].mtype)
  }

  lemma ChoiceUnique(messages: seq<Msg>, mode: Mode, mtype: int, k: int, k': int)
    requires IsChoice(messages, mode, mtype, k) && IsChoice(messages, mode, mtype, k')
    ensures (k < 0 <==> k' < 0) && (k >= 0 ==> k == k')
  {
  }

  /** The search loop of msgrcv. It narrows the type it looks for as it goes. */
  method FindMessage(messages: seq<Msg>, mode: Mode, mtype: int) returns (found: int)
    requires forall i :: 0 <= i < |messages| ==> messages[i].mtype >= 1
    ensures IsChoice(messages, mode, mtype, found)
  {
    found := -1;
    var msgtyp := mtype;
    var i := 0;
    while i < |messages|
      invariant 0 <= i <= |messages| && -1 <= found < i
      invariant found < 0 ==> msgtyp == mtype
      invariant found >= 0 ==> mode == LessEqual && msgtyp == messages[found].mtype - 1
      invariant IsChoice(messages[..i], mode, mtype, found)
    {
      var msg := messages[i];
      assert messages[..i + 1] == messages[..i] + [msg];
      if TestMsg(msg, msgtyp, mode) {
        found := i;
        if mode == LessEqual && msg.mtype != 1 {
          msgtyp := msg.mtype - 1;
        } else {
          break;
        }
      }
      i := i + 1;
    }
    assert found < 0 || mode == LessEqual ==> i == |messages| || messages[found].mtype == 1;
    if i == |messages| { assert messages[..i] == messages; }
  }

  ghost function Choice(messages: seq<Msg>, mode: Mode, mtype: int): (k: int)
    ensures -1 <= k < |messages| && IsChoice(messages, mode, mtype, k)
  {
    if messages == [] then -1
    else
      var n := |messages| - 1;
      var c := Choice(messages[..n], mode, mtype);
      if c < 0 then (if TestMsg(messages[n], mtype, mode) then n else -1)
      else if mode == LessEqual && messages[n].mtype < messages[c].mtype then n else c
  }

  // ---------------------------------------------------------------------------
  // Handing a message over
  // ---------------------------------------------------------------------------

  /** The receivers that stay on the list, those that wanted the message but are too small for it,
      and the one that takes it. */
  datatype Offered = Offered(kept: seq<Receiver>, small: seq<Receiver>, taker: Option<Receiver>)

  /** pipelined_send. */
  function Offer(rs: seq<Receiver>, m: Msg): Offered {
    if rs == [] then Offered([], [], None)
    else if !Wants(rs[0], m) then
      var o := Offer(rs[1..], m);
      o.(kept := [rs[0]] + o.kept)
    else if Takes(rs[0], m) then Offered(rs[1..], [], Some(rs[0]))
    else
      var o := Offer(rs[1..], m);
      o.(small := [rs[0]] + o.small)
  }

  /** An offer to the rest of a list, after `kept` and `small` of its start. */
  function After(kept: seq<Receiver>, small: seq<Receiver>, o: Offered): Offered {
    Offered(kept + o.kept, small + o.small, o.taker)
  }

  lemma OfferTurn(kept: seq<Receiver>, small: seq<Receiver>, rs: seq<Receiver>, m: Msg)
    requires rs != []
    ensures After(kept, small, Offer(rs, m)) ==
            if !Wants(rs[0], m) then After(kept + [rs[0]], small, Offer(rs[1..], m))
            else if Takes(rs[0], m) then Offered(kept + rs[1..], small, Some(rs[0]))
            else After(kept, small + [rs[0]], Offer(rs[1..], m))
  {
    var o := Offer(rs[1..], m);
    assert kept + ([rs[0]] + o.kept) == kept + [rs[0]] + o.kept;
    assert small + ([rs[0]] + o.small) == small + [rs[0]] + o.small;
    assert small + [] == small;
  }

  lemma OfferNone(kept: seq<Receiver>, small: seq<Receiver>, m: Msg)
    ensures After(kept, small, Offer([], m)) == Offered(kept, small, None)
    ensures forall rs :: After([], [], Offer(rs, m)) == Offer(rs, m)
  {
    forall rs ensures After([], [], Offer(rs, m)) == Offer(rs, m) {
      var o := Offer(rs, m);
      assert [] + o.kept == o.kept && [] + o.small == o.small;
    }
    assert kept + [] == kept && small + [] == small;
  }

  function FailAll(failed: map<nat, Errno>, rs: seq<Receiver>, e: Errno): map<nat, Errno>
    decreases |rs|
  {
    if rs == [] then failed else FailAll(failed[rs[0].id := e], rs[1..], e)
  }

  function SendNow(q: Queue, m: Msg): Queue {
    var o := Offer(q.receivers, m);
    var t := q.(receivers := o.kept, failed := FailAll(q.failed, o.small, TooBig), accepted := q.accepted + [m]);
    match o.taker
    case Some(r) => t.(handed := q.handed + [Handed(r, m)])
    case None => t.(messages := q.messages + [m], cbytes := q.cbytes + m.size, qnum := q.qnum + 1)
  }

  predicate Full(q: Queue, m: Msg) {
    m.size + q.cbytes > q.qbytes || 1 + q.qnum > q.qbytes
  }

  /** ss_wakeup. */
  function Awaken(ss: seq<Sender>): (r: seq<Sender>)
    ensures |r| == |ss| && forall i :: 0 <= i < |r| ==> r[i].awake && r[i].msg == ss[i].msg
  {
    seq(|ss|, i requires 0 <= i < |ss| => ss[i].(awake := true))
  }

  /** msgsnd with the queue locked. */
  function TrySend(q: Queue, id: nat, m: Msg, nowait: bool): Queue {
    if !Full(q, m) then SendNow(q, m)
    else if nowait then q.(refused := q.refused[id := WouldBlock])
    else q.(senders := q.senders + [Sender(id, m, false)])
  }

  /** msgrcv with the queue locked. */
  ghost function TryReceive(q: Queue, r: Receiver, nowait: bool): Queue {
    var k := Choice(q.messages, r.mode, r.mtype);
    if k >= 0 then
      var m := q.messages[k];
      if r.size < m.size && !r.noError then q.(errors := q.errors[r.id := TooBig])
      else q.(messages := RemoveAt(q.messages, k), qnum := q.qnum - 1, cbytes := q.cbytes - m.size,
              senders := Awaken(q.senders), delivered := q.delivered + [Handed(r, m)])
    else if nowait then q.(errors := q.errors[r.id := NoMessage])
    else q.(receivers := q.receivers + [r])
  }

  // ---------------------------------------------------------------------------
  // Steps
  // ---------------------------------------------------------------------------

  datatype Event =
    | Send(id: nat, msg: Msg, nowait: bool)
    | SenderRuns(k: nat, signal: bool, denied: bool, reused: bool)
    | Receive(req: Request, nowait: bool)
    | HandedRuns(k: nat)
    | FailedRuns(id: nat)
    | WaiterRuns(k: nat, signal: bool, denied: bool)
    | SetBytes(qbytes: int)
    | Remove

  ghost predicate Enabled(q: Queue, e: Event) {
    match e
    case Send(id, m, nowait) => q.live && m.mtype >= 1
    case SenderRuns(k, signal, denied, reused) => k < |q.senders|
    case Receive(req, nowait) => q.live && Places(q, req.id) == 0
    case HandedRuns(k) => k < |q.handed|
    case FailedRuns(id) => id in q.failed
    case WaiterRuns(k, signal, denied) => k < |q.receivers|
    case SetBytes(qbytes) => q.live
    case Remove => q.live
  }

  /** A sender that runs may find permission withdrawn by IPC_SET, or a new queue in the place of a removed one. */
  ghost function Next(q: Queue, e: Event): Queue
    requires Enabled(q, e)
  {
    match e
    case Send(id, m, nowait) => TrySend(q, id, m, nowait)
    case SenderRuns(k, signal, denied, reused) =>
      var s := q.senders[k];
      var t := q.(senders := RemoveAt(q.senders, k));
      if !q.live then t.(refused := q.refused[s.id := if reused && signal then Interrupted else Removed])
      else if signal then t.(refused := q.refused[s.id := Interrupted])
      else if denied then t.(refused := q.refused[s.id := Denied])
      else TrySend(t, s.id, s.msg, false)
    case Receive(req, nowait) => TryReceive(q, Asking(req), nowait)
    case HandedRuns(k) =>
      q.(handed := RemoveAt(q.handed, k), delivered := q.delivered + [q.handed[k]])
    case FailedRuns(id) =>
      q.(failed := q.failed - {id}, errors := q.errors[id := q.failed[id]])
    case WaiterRuns(k, signal, denied) =>
      var r := q.receivers[k];
      var t := q.(receivers := RemoveAt(q.receivers, k));
      if signal then t.(errors := q.errors[r.id := Interrupted])
      else if denied then t.(errors := q.errors[r.id := Denied])
      else TryReceive(t, r, false)
    case SetBytes(n) => q.(qbytes := n, senders := Awaken(q.senders))
    case Remove =>
      q.(live := false, receivers := [], failed := FailAll(q.failed, q.receivers, Removed),
         senders := Awaken(q.senders), dropped := q.messages, messages := [])
  }

  // ---------------------------------------------------------------------------
  // Where a receiver and a message are
  // ---------------------------------------------------------------------------

  ghost function Count<T>(s: seq<T>, f: T -> bool): nat {
    if s == [] then 0 else (if f(s[0]) then 1 else 0) + Count(s[1..], f)
  }

  ghost function Named(id: nat): Receiver -> bool { (r: Receiver) => r.id == id }
  ghost function To(id: nat): Handed -> bool { (h: Handed) => h.r.id == id }
  ghost function Is(m: Msg): Msg -> bool { (x: Msg) => x == m }
  ghost function Carries(m: Msg): Handed -> bool { (h: Handed) => h.msg == m }

  /** How often a msgrcv call is waiting, off the list with or without a message, or answered. */
  ghost function Places(q: Queue, id: nat): nat {
    Count(q.receivers, Named(id)) + Count(q.handed, To(id)) + Count(q.delivered, To(id)) +
    (if id in q.failed then 1 else 0) + (if id in q.errors then 1 else 0)
  }

  ghost function Bytes(ms: seq<Msg>): nat {
    if ms == [] then 0 else ms[0].size + Bytes(ms[1..])
  }

  /** Every accepted message is in exactly one place. */
  ghost predicate Kept(q: Queue) {
    forall m :: Count(q.accepted, Is(m)) ==
                Count(q.messages, Is(m)) + Count(q.dropped, Is(m)) +
                Count(q.handed, Carries(m)) + Count(q.delivered, Carries(m))
  }

  /** No receiver on the list wants a queued message. */
  ghost predicate NoMatch(q: Queue) {
    forall i, j :: 0 <= i < |q.receivers| && 0 <= j < |q.messages| ==> !Wants(q.receivers[i], q.messages[j])
  }

  /** A sleeping sender that nobody has woken could still not send. */
  ghost predicate SendersBlocked(q: Queue) {
    forall i :: 0 <= i < |q.senders| && !q.senders[i].awake ==> Full(q, q.senders[i].msg)
  }

  ghost predicate AllTake(hs: seq<Handed>) {
    forall i :: 0 <= i < |hs| ==> Takes(hs[i].r, hs[i].msg)
  }

  ghost predicate Inv(q: Queue) {
    && Kept(q) && NoMatch(q) && AllTake(q.handed) && AllTake(q.delivered)
    && (forall id :: Places(q, id) <= 1)
    && (q.live ==> q.cbytes == Bytes(q.messages) && q.qnum == |q.messages| && SendersBlocked(q) && q.dropped == [])
    && (!q.live ==> q.receivers == [] && q.messages == [] && forall i :: 0 <= i < |q.senders| ==> q.senders[i].awake)
    && (forall i :: 0 <= i < |q.messages| ==> q.messages[i].mtype >= 1)
    && (forall i :: 0 <= i < |q.senders| ==> q.senders[i].msg.mtype >= 1)
  }

  lemma {:induction false} CountAppend<T>(a: seq<T>, b: seq<T>, f: T -> bool)
    ensures Count(a + b, f) == Count(a, f) + Count(b, f)
  {
    if a == [] {
      assert a + b == b;
    } else {
      assert (a + b)[1..] == a[1..] + b;
      CountAppend(a[1..], b, f);
    }
  }

  lemma CountRemove<T>(s: seq<T>, k: nat, f: T -> bool)
    requires k < |s|
    ensures Count(s, f) == Count(RemoveAt(s, k), f) + (if f(s[k]) then 1 else 0)
  {
    SplitAt(s, k);
    CountCons(s[k], s[k + 1..], f);
    hide Count;
    CountAppend(s[..k], [s[k]] + s[k + 1..], f);
    CountAppend(s[..k], s[k + 1..], f);
  }

  lemma SplitAt<T>(s: seq<T>, k: nat)
    requires k < |s|
    ensures s == s[..k] + ([s[k]] + s[k + 1..])
  {
  }

  lemma CountCons<T>(x: T, s: seq<T>, f: T -> bool)
    ensures Count([x] + s, f) == Count(s, f) + (if f(x) then 1 else 0)
  {
    assert ([x] + s)[1..] == s;
  }

  lemma CountSnoc<T>(s: seq<T>, x: T, f: T -> bool)
    ensures Count(s + [x], f) == Count(s, f) + (if f(x) then 1 else 0)
  {
    CountAppend(s, [x], f);
  }

  lemma {:induction false} BytesAppend(a: seq<Msg>, b: seq<Msg>)
    ensures Bytes(a + b) == Bytes(a) + Bytes(b)
  {
    if a == [] {
      assert a + b == b;
    } else {
      assert (a + b)[1..] == a[1..] + b;
      BytesAppend(a[1..], b);
    }
  }

  lemma BytesRemove(s: seq<Msg>, k: nat)
    requires k < |s|
    ensures Bytes(s) == Bytes(RemoveAt(s, k)) + s[k].size
  {
    SplitAt(s, k);
    var tail := [s[k]] + s[k + 1..];
    assert tail[1..] == s[k + 1..] && Bytes(tail) == s[k].size + Bytes(s[k + 1..]);
    hide Bytes;
    BytesAppend(s[..k], tail);
    BytesAppend(s[..k], s[k + 1..]);
  }

  /** What pipelined_send does to the list of receivers. */
  lemma {:induction false} OfferSplits(rs: seq<Receiver>, m: Msg)
    ensures var o := Offer(rs, m);
      && (forall r :: r in o.kept ==> r in rs)
      && (forall r :: r in o.small ==> r in rs && Wants(r, m) && !Takes(r, m))
      && (o.taker.Some? ==> o.taker.value in rs && Takes(o.taker.value, m))
      && (o.taker.None? ==> forall r :: r in o.kept ==> !Wants(r, m))
  {
    if rs == [] {
    } else {
      OfferSplits(rs[1..], m);
    }
  }

  lemma {:induction false} OfferCounts(rs: seq<Receiver>, m: Msg, f: Receiver -> bool)
    ensures var o := Offer(rs, m);
      Count(rs, f) == Count(o.kept, f) + Count(o.small, f) + (if o.taker.Some? && f(o.taker.value) then 1 else 0)
  {
    if rs == [] {
    } else {
      OfferCounts(rs[1..], m, f);
      var o := Offer(rs[1..], m);
      assert ([rs[0]] + o.kept)[1..] == o.kept && ([rs[0]] + o.small)[1..] == o.small;
    }
  }

  lemma {:induction false} FailedKeys(failed: map<nat, Errno>, rs: seq<Receiver>, e: Errno, id: nat)
    ensures id in FailAll(failed, rs, e) <==> id in failed || Count(rs, Named(id)) > 0
    decreases |rs|
  {
    if rs == [] {
    } else {
      FailedKeys(failed[rs[0].id := e], rs[1..], e, id);
    }
  }

  // ---------------------------------------------------------------------------
  // What each step keeps
  // ---------------------------------------------------------------------------

  lemma SendPlaces(q: Queue, m: Msg, id: nat)
    requires Places(q, id) <= 1
    ensures Places(SendNow(q, m), id) == Places(q, id)
  {
    var o := Offer(q.receivers, m);
    OfferCounts(q.receivers, m, Named(id));
    FailedKeys(q.failed, o.small, TooBig, id);
    if o.taker.Some? { CountSnoc(q.handed, Handed(o.taker.value, m), To(id)); }
  }

  lemma SendKept(q: Queue, m: Msg)
    requires Kept(q)
    ensures Kept(SendNow(q, m))
  {
    var o := Offer(q.receivers, m);
    forall x ensures var t := SendNow(q, m);
      Count(t.accepted, Is(x)) == Count(t.messages, Is(x)) + Count(t.dropped, Is(x)) +
                                  Count(t.handed, Carries(x)) + Count(t.delivered, Carries(x))
    {
      CountSnoc(q.accepted, m, Is(x));
      CountSnoc(q.messages, m, Is(x));
      if o.taker.Some? { CountSnoc(q.handed, Handed(o.taker.value, m), Carries(x)); }
    }
  }

  lemma SendInv(q: Queue, m: Msg)
    requires Inv(q) && q.live && m.mtype >= 1
    ensures Inv(SendNow(q, m)) && SendNow(q, m).live
  {
    var t := SendNow(q, m);
    SendKept(q, m);
    OfferSplits(q.receivers, m);
    forall id ensures Places(t, id) <= 1 { SendPlaces(q, m, id); }
    BytesAppend(q.messages, [m]);
    forall i, j | 0 <= i < |t.receivers| && 0 <= j < |t.messages| ensures !Wants(t.receivers[i], t.messages[j]) {
      assert t.receivers[i] in t.receivers;
    }
  }

  lemma TrySendInv(q: Queue, id: nat, m: Msg, nowait: bool)
    requires Inv(q) && q.live && m.mtype >= 1
    ensures Inv(TrySend(q, id, m, nowait))
  {
    if !Full(q, m) { SendInv(q, m); } else {
      var t := TrySend(q, id, m, nowait);
      assert forall x :: Places(t, x) == Places(q, x);
    }
  }

  lemma TakePlaces(q: Queue, r: Receiver, nowait: bool, id: nat)
    requires Places(q, r.id) == 0
    ensures Places(TryReceive(q, r, nowait), id) == Places(q, id) + (if id == r.id then 1 else 0)
  {
    hide Choice, IsChoice, Count;
    var k := Choice(q.messages, r.mode, r.mtype);
    if k >= 0 { CountSnoc(q.delivered, Handed(r, q.messages[k]), To(id)); }
    CountSnoc(q.receivers, r, Named(id));
  }

  lemma TakeKept(q: Queue, r: Receiver, nowait: bool)
    requires Kept(q)
    ensures Kept(TryReceive(q, r, nowait))
  {
    hide Choice, IsChoice, Count;
    var k := Choice(q.messages, r.mode, r.mtype);
    var t := TryReceive(q, r, nowait);
    forall x ensures Count(t.accepted, Is(x)) == Count(t.messages, Is(x)) + Count(t.dropped, Is(x)) +
                                                 Count(t.handed, Carries(x)) + Count(t.delivered, Carries(x))
    {
      assert Count(q.accepted, Is(x)) == Count(q.messages, Is(x)) + Count(q.dropped, Is(x)) +
                                         Count(q.handed, Carries(x)) + Count(q.delivered, Carries(x));
      if k >= 0 {
        CountRemove(q.messages, k, Is(x));
        CountSnoc(q.delivered, Handed(r, q.messages[k]), Carries(x));
      }
    }
  }

  lemma TakeInv(q: Queue, r: Receiver, nowait: bool)
    requires Inv(q) && q.live && Places(q, r.id) == 0
    ensures Inv(TryReceive(q, r, nowait))
  {
    TakeCounters(q, r, nowait);
    hide Places, Kept, NoMatch, Bytes, TryReceive, AllTake, SendersBlocked;
    var t := TryReceive(q, r, nowait);
    TakeKept(q, r, nowait);
    forall id ensures Places(t, id) <= 1 { TakePlaces(q, r, nowait, id); }
    TakeNoMatch(q, r, nowait);
  }

  lemma TakeCounters(q: Queue, r: Receiver, nowait: bool)
    requires Inv(q) && q.live
    ensures var t := TryReceive(q, r, nowait);
      && t.live && t.cbytes == Bytes(t.messages) && t.qnum == |t.messages| && t.dropped == [] && SendersBlocked(t)
      && AllTake(t.handed) && AllTake(t.delivered)
      && (forall i :: 0 <= i < |t.messages| ==> t.messages[i].mtype >= 1)
      && (forall i :: 0 <= i < |t.senders| ==> t.senders[i].msg.mtype >= 1)
  {
    hide Count, Places, Kept, NoMatch;
    var k := Choice(q.messages, r.mode, r.mtype);
    hide Choice;
    var t := TryReceive(q, r, nowait);
    if k >= 0 {
      BytesRemove(q.messages, k);
      var m := q.messages[k];
      if r.noError || m.size <= r.size {
        assert Takes(r, m) && t.delivered == q.delivered + [Handed(r, m)];
        assert forall i :: 0 <= i < |t.messages| ==> t.messages[i] == q.messages[if i < k then i else i + 1];
      }
    }
    hide Bytes, RemoveAt, Wants;
  }

  lemma TakeNoMatch(q: Queue, r: Receiver, nowait: bool)
    requires NoMatch(q)
    ensures NoMatch(TryReceive(q, r, nowait))
  {
    hide Count;
    var k := Choice(q.messages, r.mode, r.mtype);
    hide Choice;
    if k >= 0 {
      var ms := RemoveAt(q.messages, k);
      assert forall j :: 0 <= j < |ms| ==> ms[j] == q.messages[if j < k then j else j + 1];
    }
  }

  /** The queue without its k-th sleeping receiver. */
  lemma LeaveInv(q: Queue, k: nat)
    requires Inv(q) && k < |q.receivers|
    ensures var t := q.(receivers := RemoveAt(q.receivers, k));
            Inv(t) && forall id :: Places(t, id) == Places(q, id) - (if id == q.receivers[k].id then 1 else 0)
  {
    var t := q.(receivers := RemoveAt(q.receivers, k));
    forall id ensures Places(t, id) == Places(q, id) - (if id == q.receivers[k].id then 1 else 0) {
      CountRemove(q.receivers, k, Named(id));
    }
    assert Kept(t);
    assert forall i :: 0 <= i < |t.receivers| ==> t.receivers[i] == q.receivers[if i < k then i else i + 1];
  }

  lemma FailInv(q: Queue, id: nat, e: Errno)
    requires Inv(q) && Places(q, id) == 0
    ensures Inv(q.(errors := q.errors[id := e]))
    ensures Places(q.(errors := q.errors[id := e]), id) == 1
  {
    var t := q.(errors := q.errors[id := e]);
    forall x ensures Places(t, x) == Places(q, x) + (if x == id then 1 else 0) { }
    assert Kept(t);
  }

  lemma HandedInv(q: Queue, k: nat)
    requires Inv(q) && k < |q.handed|
    ensures Inv(Next(q, HandedRuns(k))) && forall id :: Places(Next(q, HandedRuns(k)), id) == Places(q, id)
  {
    var t := Next(q, HandedRuns(k));
    forall id ensures Places(t, id) == Places(q, id) {
      CountRemove(q.handed, k, To(id));
      CountSnoc(q.delivered, q.handed[k], To(id));
    }
    forall x ensures Count(t.accepted, Is(x)) == Count(t.messages, Is(x)) + Count(t.dropped, Is(x)) +
                                                 Count(t.handed, Carries(x)) + Count(t.delivered, Carries(x))
    {
      assert Count(q.accepted, Is(x)) == Count(q.messages, Is(x)) + Count(q.dropped, Is(x)) +
                                         Count(q.handed, Carries(x)) + Count(q.delivered, Carries(x));
      CountRemove(q.handed, k, Carries(x));
      CountSnoc(q.delivered, q.handed[k], Carries(x));
    }
  }

  lemma RemoveInv(q: Queue)
    requires Inv(q) && q.live
    ensures Inv(Next(q, Remove)) && forall id :: Places(Next(q, Remove), id) == Places(q, id)
  {
    var t := Next(q, Remove);
    forall id ensures Places(t, id) == Places(q, id) {
      FailedKeys(q.failed, q.receivers, Removed, id);
      assert Places(q, id) <= 1;
    }
    forall x ensures Count(t.accepted, Is(x)) == Count(t.messages, Is(x)) + Count(t.dropped, Is(x)) +
                                                 Count(t.handed, Carries(x)) + Count(t.delivered, Carries(x))
    {
      assert Count(q.accepted, Is(x)) == Count(q.messages, Is(x)) + Count(q.dropped, Is(x)) +
                                         Count(q.handed, Carries(x)) + Count(q.delivered, Carries(x));
    }
  }

  /** A change that touches neither receivers nor messages. */
  lemma QuietInv(q: Queue, t: Queue)
    requires Inv(q) && t == q.(senders := t.senders, refused := t.refused, qbytes := t.qbytes)
    requires q.live ==> SendersBlocked(t)
    requires forall i :: 0 <= i < |t.senders| ==> t.senders[i].msg.mtype >= 1 && (!q.live ==> t.senders[i].awake)
    ensures Inv(t)
  {
    assert forall id :: Places(t, id) == Places(q, id);
    assert Kept(t);
  }

  lemma NextInv(q: Queue, e: Event)
    requires Inv(q) && Enabled(q, e)
    ensures Inv(Next(q, e))
  {
    hide Kept, Count;
    match e
    case Send(id, m, nowait) => TrySendInv(q, id, m, nowait);
    case SenderRuns(k, signal, denied, reused) =>
      var t := q.(senders := RemoveAt(q.senders, k));
      QuietInv(q, t);
      if q.live && !signal && !denied { TrySendInv(t, q.senders[k].id, q.senders[k].msg, false); }
      else { QuietInv(q, Next(q, e)); }
    case Receive(req, nowait) => TakeInv(q, Asking(req), nowait);
    case HandedRuns(k) => HandedInv(q, k);
    case FailedRuns(id) => FailedInv(q, id);
    case WaiterRuns(k, signal, denied) =>
      LeaveInv(q, k);
      var t := q.(receivers := RemoveAt(q.receivers, k));
      WaiterPlaced(q, k);
      if signal { FailInv(t, q.receivers[k].id, Interrupted); }
      else if denied { FailInv(t, q.receivers[k].id, Denied); }
      else { TakeInv(t, q.receivers[k], false); }
    case SetBytes(n) => QuietInv(q, Next(q, e));
    case Remove => RemoveInv(q);
  }

  lemma WaiterPlaced(q: Queue, k: nat)
    requires Inv(q) && k < |q.receivers|
    ensures Places(q, q.receivers[k].id) == 1
  {
    CountRemove(q.receivers, k, Named(q.receivers[k].id));
  }

  lemma FailedInv(q: Queue, id: nat)
    requires Inv(q) && id in q.failed
    ensures Inv(Next(q, FailedRuns(id))) && forall x :: Places(Next(q, FailedRuns(id)), x) == Places(q, x)
  {
    var t := Next(q, FailedRuns(id));
    forall x ensures Places(t, x) == Places(q, x) { assert Places(q, x) <= 1; }
    assert Kept(t);
  }

  // ---------------------------------------------------------------------------
  // Whole runs
  // ---------------------------------------------------------------------------

  /** newque. */
  function New(qbytes: int): Queue {
    Queue([], 0, 0, qbytes, [], [], map[], [], true, [], [], [], map[], map[])
  }

  ghost predicate Behaviour(qs: seq<Queue>, es: seq<Event>) {
    && |qs| == |es| + 1 && (exists n :: qs[0] == New(n))
    && forall i :: 0 <= i < |es| ==> Enabled(qs[i], es[i]) && qs[i + 1] == Next(qs[i], es[i])
  }

  lemma {:induction false} RunInv(qs: seq<Queue>, es: seq<Event>, n: nat)
    requires Behaviour(qs, es) && n <= |es|
    ensures Inv(qs[n])
  {
    if n > 0 {
      RunInv(qs, es, n - 1);
      hide Inv, Next, Enabled;
      NextInv(qs[n - 1], es[n - 1]);
    } else {
      assert forall m :: Count<Msg>([], Is(m)) == 0;
    }
  }

  /** Theorem: over every run, every message that msgsnd accepted is in exactly one place: queued, in
      the hands of one receiver that has not run yet, returned by one msgrcv, or freed with the
      queue; whoever has it asked for it and can hold it; no msgrcv call has two answers; no
      receiver that still waits wants a queued message; no sleeping sender that was not woken
      could send; and the counters of the queue are right. */
  lemma RunSafe(qs: seq<Queue>, es: seq<Event>, n: nat)
    requires Behaviour(qs, es) && n <= |es|
    ensures Kept(qs[n]) && AllTake(qs[n].handed) && AllTake(qs[n].delivered)
    ensures forall id :: Places(qs[n], id) <= 1
    ensures NoMatch(qs[n])
    ensures qs[n].live ==> SendersBlocked(qs[n]) && qs[n].cbytes == Bytes(qs[n].messages) && qs[n].qnum == |qs[n].messages|
  {
    RunInv(qs, es, n);
  }

  /** Theorem: a msgrcv call that has been made is never forgotten: it waits, or holds a message or an
      error, or has been answered, exactly once, in every later state. */
  lemma {:induction false} ReceiverKept(qs: seq<Queue>, es: seq<Event>, m: nat, n: nat, id: nat)
    requires Behaviour(qs, es) && m <= n <= |es| && Places(qs[m], id) == 1
    ensures Places(qs[n], id) == 1
    decreases n
  {
    hide Inv, Next, Enabled, Places;
    if m < n {
      ReceiverKept(qs, es, m, n - 1, id);
      RunInv(qs, es, n - 1);
      PlaceKept(qs[n - 1], es[n - 1], id);
    }
  }

  lemma PlaceKept(q: Queue, e: Event, id: nat)
    requires Inv(q) && Enabled(q, e) && Places(q, id) == 1
    ensures Places(Next(q, e), id) == 1
  {
    hide Kept, Count;
    match e
    case Send(x, m, nowait) => if !Full(q, m) { SendPlaces(q, m, id); }
    case SenderRuns(k, signal, denied, reused) =>
      var t := q.(senders := RemoveAt(q.senders, k));
      assert Places(t, id) == Places(q, id);
      if q.live && !signal && !denied && !Full(t, q.senders[k].msg) { SendPlaces(t, q.senders[k].msg, id); }
    case Receive(req, nowait) => TakePlaces(q, Asking(req), nowait, id);
    case HandedRuns(k) => HandedInv(q, k);
    case FailedRuns(x) => FailedInv(q, x);
    case WaiterRuns(k, signal, denied) =>
      LeaveInv(q, k);
      WaiterPlaced(q, k);
      var t := q.(receivers := RemoveAt(q.receivers, k));
      if !signal && !denied { TakePlaces(t, q.receivers[k], false, id); }
    case SetBytes(n) =>
    case Remove => RemoveInv(q);
  }

  // ---------------------------------------------------------------------------
  // The lists updated in place
  // ---------------------------------------------------------------------------

  class MsgQueue {
    var messages: seq<Msg>
    var cbytes: int
    var qnum: int
    var receivers: seq<Receiver>
    var handed: seq<Handed>
    var failed: map<nat, Errno>

    /** pipelined_send: walk the list of receivers, unlinking those that want the message. */
    method PipelinedSend(msg: Msg) returns (sent: bool)
      modifies this`receivers, this`handed, this`failed
      ensures var o := Offer(old(receivers), msg);
        && receivers == o.kept && failed == FailAll(old(failed), o.small, TooBig)
        && (sent <==> o.taker.Some?)
        && handed == old(handed) + (if sent then [Handed(o.taker.value, msg)] else [])
    {
      // `tmp` splits the list into `kept` and `todo`.
      var kept, todo := [], receivers;
      ghost var small := [];
      ghost var whole, errs := Offer(receivers, msg), failed;
      assert FailAll(errs, [], TooBig) == failed;
      OfferNone([], [], msg);
      hide FailAll, Offer, After;
      while todo != []
        invariant handed == old(handed) && whole == After(kept, small, Offer(todo, msg))
        invariant failed == FailAll(errs, small, TooBig)
        decreases |todo|
      {
        var msr := todo[0];
        OfferTurn(kept, small, todo, msg);
        if TestMsg(msg, msr.mtype, msr.mode) {
          todo := todo[1..];
          if !msr.noError && msr.size < msg.size {
            FailSnoc(errs, small, msr, TooBig);
            small := small + [msr];
            failed := failed[msr.id := TooBig];
          } else {
            handed := handed + [Handed(msr, msg)];
            receivers := kept + todo;
            return true;
          }
        } else {
          kept, todo := kept + [msr], todo[1..];
        }
      }
      OfferNone(kept, small, msg);
      receivers := kept;
      sent := false;
    }

    /** msgsnd once there is room. */
    method Deliver(msg: Msg)
      modifies this
      ensures var o := Offer(old(receivers), msg);
        && receivers == o.kept && failed == FailAll(old(failed), o.small, TooBig)
        && (o.taker.Some? ==> handed == old(handed) + [Handed(o.taker.value, msg)] &&
                              messages == old(messages) && cbytes == old(cbytes) && qnum == old(qnum))
        && (o.taker.None? ==> handed == old(handed) && messages == old(messages) + [msg] &&
                              cbytes == old(cbytes) + msg.size && qnum == old(qnum) + 1)
    {
      var sent := PipelinedSend(msg);
      if !sent {
        messages := messages + [msg];
        cbytes := cbytes + msg.size;
        qnum := qnum + 1;
      }
    }
  }

  lemma {:induction false} FailSnoc(failed: map<nat, Errno>, rs: seq<Receiver>, r: Receiver, e: Errno)
    ensures FailAll(failed, rs + [r], e) == FailAll(failed, rs, e)[r.id := e]
    decreases |rs|
  {
    if rs == [] {
    } else {
      assert (rs + [r])[1..] == rs[1..] + [r];
      FailSnoc(failed[rs[0].id := e], rs[1..], r, e);
    }
  }
}
