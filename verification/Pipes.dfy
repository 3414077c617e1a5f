/**
  fs/pipe.c: the ring of a pipe, and the byte stream through it for every interleaving of readers
  and writers.
*/
module Pipes {
  import opened Basics

  /** A write of at most this many bytes is atomic. */
  const PIPE_BUF: int := 4096

  /** x & (size - 1) for an x below twice the size, which is a power of two. */
  function Wrap(x: int, size: int): int {
    if x >= size then x - size else x
  }

  /** The bytes of a ring held in `b`, oldest first. */
  ghost function View(b: seq<int>, start: nat, len: nat): (s: seq<int>)
    requires start < |b| && len <= |b|
    ensures |s| == len
    ensures forall i :: 0 <= i < len ==> s[i] == b[Wrap(start + i, |b|)]
  {
    if start + len <= |b| then b[start..start + len] else b[start..] + b[..start + len - |b|]
  }

  lemma ViewDrop(b: seq<int>, start: nat, len: nat, n: nat)
    requires start < |b| && n <= len <= |b| && start + n <= |b|
    ensures b[start..start + n] == View(b, start, len)[..n]
    ensures View(b, Wrap(start + n, |b|), len - n) == View(b, start, len)[n..]
  {
    hide View;
    var v, v' := View(b, start, len), View(b, Wrap(start + n, |b|), len - n);
    forall k | 0 <= k < n ensures b[start..start + n][k] == v[k] { }
    forall k | 0 <= k < len - n ensures v'[k] == v[n + k] { }
  }

  lemma ViewAppend(b: seq<int>, b': seq<int>, start: nat, len: nat, end: nat, chunk: seq<int>)
    requires start < |b| == |b'| && len + |chunk| <= |b| && end == Wrap(start + len, |b|) && end + |chunk| <= |b|
    requires forall k :: 0 <= k < |b| ==> b'[k] == if end <= k < end + |chunk| then chunk[k - end] else b[k]
    ensures View(b', start, len + |chunk|) == View(b, start, len) + chunk
  {
    hide View;
    var v, v' := View(b, start, len), View(b', start, len + |chunk|);
    forall k | 0 <= k < |v'| ensures v'[k] == (v + chunk)[k] {
      assert v'[k] == b'[Wrap(start + k, |b|)];
    }
  }

  lemma Regroup(a: seq<int>, b: seq<int>, n: nat)
    requires n <= |b|
    ensures (a + b[..n]) + b[n..] == a + b
  {
  }

  lemma TakeMore(a: seq<int>, b: seq<int>, n: nat, k: nat)
    requires n + k <= |b|
    ensures (a + b[..n]) + b[n..n + k] == a + b[..n + k]
  {
  }

  class Ring {
    /** PIPE_BASE; its length is PIPE_SIZE. */
    const base: array<int>
    var start: nat
    var len: nat

    ghost predicate Valid()
      reads this
    {
      start < base.Length && len <= base.Length
    }

    /** The bytes in the ring, oldest first. */
    ghost function Contents(): (s: seq<int>)
      requires Valid()
      reads this, base
      ensures |s| == len
    {
      View(base[..], start, len)
    }

    constructor (size: nat)
      requires size > 0
      ensures Valid() && fresh(base) && base.Length == size && Contents() == []
    {
      base := new int[size];
      start, len := 0, 0;
    }

    /** The copying loop of pipe_read: as many bytes as there are and as asked for. After it either
        nothing more is wanted or the pipe is empty, so the BUG() that follows is not reached. */
    method Read(count: nat) returns (buf: seq<int>)
      requires Valid()
      modifies this
      ensures Valid() && |buf| == Min(count, old(len))
      ensures buf == old(Contents())[..|buf|] && Contents() == old(Contents())[|buf|..]
      ensures |buf| < count ==> len == 0
    {
      hide View;
      buf := [];
      var left := count;
      ghost var all := Contents();
      while left > 0 && len != 0
        invariant Valid() && |buf| + left == count && left >= 0
        invariant buf + Contents() == all && |buf| + len == |all|
        decreases left
      {
        var chars := base.Length - start;
        if chars > left { chars := left; }
        if chars > len { chars := len; }
        ghost var before, had, bytes := Contents(), buf, base[..];
        ViewDrop(bytes, start, len, chars);
        ghost var rest := View(bytes, Wrap(start + chars, |bytes|), len - chars);
        assert base[start..start + chars] == base[..][start..start + chars];
        buf := buf + base[start..start + chars];
        start := Wrap(start + chars, base.Length);
        len := len - chars;
        left := left - chars;
        assert base[..] == bytes && Contents() == rest;
        assert buf == had + before[..chars];
        Regroup(had, before, chars);
      }
      if len == 0 { start := 0; }
      assert all[..|buf|] == buf && all[|buf|..] == Contents();
    }

    /** The copying loop of pipe_write, up to the point where the ring is full or all is written. */
    method Write(buf: seq<int>) returns (written: nat)
      requires Valid()
      modifies this`len, base
      ensures Valid() && written == Min(|buf|, base.Length - old(len))
      ensures Contents() == old(Contents()) + buf[..written]
    {
      hide View;
      written := 0;
      ghost var all := Contents();
      while written < |buf| && len < base.Length
        invariant Valid() && written <= |buf| && len == |all| + written
        invariant Contents() == all + buf[..written]
        decreases |buf| - written
      {
        var end := Wrap(start + len, base.Length);
        var chars := base.Length - end;
        if chars > |buf| - written { chars := |buf| - written; }
        if chars > base.Length - len { chars := base.Length - len; }
        CopyIn(buf[written..written + chars], end);
        TakeMore(all, buf, written, chars);
        written := written + chars;
      }
    }

    /** One copy_from_user into the ring. */
    method CopyIn(chunk: seq<int>, end: nat)
      requires Valid() && end == Wrap(start + len, base.Length) && end + |chunk| <= base.Length
      requires |chunk| <= base.Length - len
      modifies this`len, base
      ensures Valid() && len == old(len) + |chunk| && Contents() == old(Contents()) + chunk
    {
      var i := 0;
      while i < |chunk|
        modifies base
        invariant 0 <= i <= |chunk|
        invariant forall k :: 0 <= k < base.Length ==>
                    base[k] == if end <= k < end + i then chunk[k - end] else old(base[k])
      {
        base[end + i] := chunk[i];
        i := i + 1;
      }
      ViewAppend(old(base[..]), base[..], start, len, end, chunk);
      len := len + |chunk|;
    }
  }

  // ---------------------------------------------------------------------------
  // Readers and writers
  // ---------------------------------------------------------------------------

  /** A write call in progress: the bytes already in the stream and those still to come. */
  datatype Writer = Writer(done: seq<int>, todo: seq<int>)

  /** What one writer put into the ring while it held the semaphore. */
  datatype Piece = Piece(writer: nat, bytes: seq<int>)

  /** `read` is everything readers got so far, `pieces` everything writers put in, in order. */
  datatype State = State(size: nat, ring: seq<int>, read: seq<int>, pieces: seq<Piece>, writers: map<nat, Writer>)

  function Stream(pieces: seq<Piece>): seq<int> {
    if pieces == [] then [] else Stream(pieces[..|pieces| - 1]) + pieces[|pieces| - 1].bytes
  }

  /** The bytes of the stream that come from one writer. */
  function From(pieces: seq<Piece>, w: nat): seq<int> {
    if pieces == [] then []
    else From(pieces[..|pieces| - 1], w) + (if pieces[|pieces| - 1].writer == w then pieces[|pieces| - 1].bytes else [])
  }

  datatype Event =
    | Begin(w: nat, data: seq<int>)
    | Copy(w: nat)
    | Take(count: nat)

  /** The space a writer waits for: all it needs before the first copy of an atomic write, else one byte. */
  function Needed(w: Writer): int {
    if w.done == [] && |w.todo| <= PIPE_BUF then |w.todo| else 1
  }

  predicate Enabled(s: State, e: Event) {
    match e
    case Begin(w, data) => w !in s.writers && data != []
    case Copy(w) => w in s.writers && s.writers[w].todo != [] && s.size - |s.ring| >= Needed(s.writers[w])
    case Take(count) => true
  }

  /** While it holds the semaphore a writer copies until it is done or the ring is full, a reader until it has
      enough or the ring is empty. A sleeping writer that gives up takes no further step. */
  function Next(s: State, e: Event): State
    requires Enabled(s, e)
  {
    match e
    case Begin(w, data) => s.(writers := s.writers[w := Writer([], data)])
    case Copy(w) =>
      var Writer(done, todo) := s.writers[w];
      var n := Min(|todo|, s.size - |s.ring|);
      s.(ring := s.ring + todo[..n],
         pieces := s.pieces + [Piece(w, todo[..n])],
         writers := s.writers[w := Writer(done + todo[..n], todo[n..])])
    case Take(count) =>
      var n := Min(count, |s.ring|);
      s.(ring := s.ring[n..], read := s.read + s.ring[..n])
  }

  /** Nothing is lost, duplicated or reordered, and the ring never overflows. */
  ghost predicate Faithful(s: State) {
    |s.ring| <= s.size && s.read + s.ring == Stream(s.pieces)
  }

  /** Every writer's bytes are in the stream as far as it got. */
  ghost predicate Ordered(s: State) {
    forall w :: From(s.pieces, w) == if w in s.writers then s.writers[w].done else []
  }

  /** A write of at most PIPE_BUF bytes is all in the stream, in one piece, or not at all. */
  ghost predicate Atomic(s: State) {
    && (forall w :: w in s.writers && |s.writers[w].done + s.writers[w].todo| <= PIPE_BUF ==>
                      s.writers[w].done == [] || s.writers[w].todo == [])
    && (forall p :: p in s.pieces ==>
          p.writer in s.writers && s.writers[p.writer].done != [] &&
          (|s.writers[p.writer].done + s.writers[p.writer].todo| <= PIPE_BUF ==> p.bytes == s.writers[p.writer].done))
  }

  lemma StreamSnoc(pieces: seq<Piece>, p: Piece, w: nat)
    ensures Stream(pieces + [p]) == Stream(pieces) + p.bytes
    ensures From(pieces + [p], w) == From(pieces, w) + (if p.writer == w then p.bytes else [])
  {
    assert (pieces + [p])[..|pieces|] == pieces;
  }

  lemma NextFaithful(s: State, e: Event)
    requires Faithful(s) && Enabled(s, e)
    ensures Faithful(Next(s, e))
  {
    if e.Copy? {
      var todo := s.writers[e.w].todo;
      StreamSnoc(s.pieces, Piece(e.w, todo[..Min(|todo|, s.size - |s.ring|)]), e.w);
    } else if e.Take? {
      Regroup(s.read, s.ring, Min(e.count, |s.ring|));
    }
  }

  lemma NextOrdered(s: State, e: Event)
    requires Ordered(s) && Enabled(s, e)
    ensures Ordered(Next(s, e))
  {
    if e.Copy? {
      var todo := s.writers[e.w].todo;
      forall x ensures From(Next(s, e).pieces, x) ==
                       if x in Next(s, e).writers then Next(s, e).writers[x].done else []
      {
        StreamSnoc(s.pieces, Piece(e.w, todo[..Min(|todo|, s.size - |s.ring|)]), x);
      }
    }
  }

  lemma NextAtomic(s: State, e: Event)
    requires Atomic(s) && Enabled(s, e)
    ensures Atomic(Next(s, e))
  {
    if e.Copy? {
      var Writer(done, todo) := s.writers[e.w];
      var n := Min(|todo|, s.size - |s.ring|);
      assert todo[..n] + todo[n..] == todo;
      assert |done + todo| <= PIPE_BUF ==> done == [] && n == |todo| && done + todo[..n] == todo[..n];
    }
  }

  ghost predicate Behaviour(ss: seq<State>, es: seq<Event>) {
    && |ss| == |es| + 1 && ss[0] == State(ss[0].size, [], [], [], map[])
    && forall i :: 0 <= i < |es| ==> Enabled(ss[i], es[i]) && ss[i + 1] == Next(ss[i], es[i])
  }

  lemma {:induction false} RunInv(ss: seq<State>, es: seq<Event>, n: nat)
    requires Behaviour(ss, es) && n <= |es|
    ensures Faithful(ss[n]) && Ordered(ss[n]) && Atomic(ss[n])
  {
    if n == 0 {
    } else {
      RunInv(ss, es, n - 1);
      hide Faithful, Ordered, Atomic, Next;
      NextFaithful(ss[n - 1], es[n - 1]);
      NextOrdered(ss[n - 1], es[n - 1]);
      NextAtomic(ss[n - 1], es[n - 1]);
    }
  }

  lemma {:induction false} StreamSplit(pieces: seq<Piece>, k: nat)
    requires k < |pieces|
    ensures exists rest :: Stream(pieces) == Stream(pieces[..k]) + pieces[k].bytes + rest
  {
    var n := |pieces| - 1;
    if k == n {
      assert Stream(pieces) == Stream(pieces[..k]) + pieces[k].bytes + [];
    } else {
      StreamSplit(pieces[..n], k);
      assert pieces[..n][..k] == pieces[..k];
      var rest :| Stream(pieces[..n]) == Stream(pieces[..k]) + pieces[k].bytes + rest;
      Regroup3(Stream(pieces[..k]), pieces[k].bytes, rest, pieces[n].bytes);
    }
  }

  lemma Regroup3(a: seq<int>, b: seq<int>, c: seq<int>, d: seq<int>)
    ensures a + b + c + d == a + b + (c + d)
  {
  }

  /** The writer's pieces are at least as long together as any two of them. */
  lemma {:induction false} FromAtLeast(pieces: seq<Piece>, w: nat, j: nat, k: nat)
    requires j < k < |pieces| && pieces[j].writer == w == pieces[k].writer
    ensures |From(pieces, w)| >= |pieces[j].bytes| + |pieces[k].bytes|
  {
    var n := |pieces| - 1;
    if k < n { FromAtLeast(pieces[..n], w, j, k); } else { FromHas(pieces[..n], w, j); }
  }

  lemma {:induction false} FromHas(pieces: seq<Piece>, w: nat, j: nat)
    requires j < |pieces| && pieces[j].writer == w
    ensures |From(pieces, w)| >= |pieces[j].bytes|
  {
    var n := |pieces| - 1;
    if j < n { FromHas(pieces[..n], w, j); }
  }

  lemma {:induction false} HasPiece(pieces: seq<Piece>, w: nat) returns (k: nat)
    requires From(pieces, w) != []
    ensures k < |pieces| && pieces[k].writer == w
  {
    var n := |pieces| - 1;
    if pieces[n].writer == w { k := n; } else { k := HasPiece(pieces[..n], w); }
  }

  /** The k-th piece is all that the writer put in, and nothing else in the stream is from it. */
  ghost predicate SolePiece(pieces: seq<Piece>, w: nat, k: nat, bytes: seq<int>) {
    && k < |pieces| && pieces[k] == Piece(w, bytes)
    && (forall j :: 0 <= j < |pieces| && j != k ==> pieces[j].writer != w)
    && exists rest :: Stream(pieces) == Stream(pieces[..k]) + bytes + rest
  }

  /** A small write that entered the stream at all is one piece of it. */
  lemma SmallIsOnePiece(s: State, w: nat) returns (k: nat)
    requires Ordered(s) && Atomic(s) && w in s.writers && s.writers[w].done != []
    requires |s.writers[w].done + s.writers[w].todo| <= PIPE_BUF
    ensures s.writers[w].todo == [] && SolePiece(s.pieces, w, k, s.writers[w].done)
  {
    var done := s.writers[w].done;
    assert From(s.pieces, w) == done;
    hide Ordered, From, Stream;
    k := HasPiece(s.pieces, w);
    forall j | 0 <= j < |s.pieces| && s.pieces[j].writer == w ensures s.pieces[j] == Piece(w, done) && j == k {
      assert s.pieces[j] in s.pieces && s.pieces[k] in s.pieces;
      if j < k { FromAtLeast(s.pieces, w, j, k); } else if k < j { FromAtLeast(s.pieces, w, k, j); }
    }
    StreamSplit(s.pieces, k);
  }

  /** Theorem: a copy stops only when the write is done or the ring is full, and moves at least a byte; a read stops only
      when it has all it asked for or the ring is empty. */
  lemma NoShortCopy(s: State, e: Event)
    requires Faithful(s) && Enabled(s, e)
    ensures var t := Next(s, e);
      && (e.Copy? ==> (t.writers[e.w].todo == [] || |t.ring| == t.size) && |t.writers[e.w].todo| < |s.writers[e.w].todo|)
      && (e.Take? ==> |t.read| - |s.read| == e.count || (t.ring == [] && |t.read| - |s.read| <= e.count))
  {
  }

  /** Theorem: a writer with bytes left can copy, or there is something to read. */
  lemma NeverStuck(s: State, w: nat)
    requires s.size >= PIPE_BUF && w in s.writers && s.writers[w].todo != []
    ensures Enabled(s, Copy(w)) || s.ring != []
  {
  }

  /** A writer waits only for what it needs: all of an atomic write, and a single byte of any other. */
  lemma WaitsOnly(s: State, w: nat)
    requires Faithful(s) && w in s.writers && s.writers[w].todo != [] && !Enabled(s, Copy(w))
    ensures if s.writers[w].done == [] && |s.writers[w].todo| <= PIPE_BUF then |s.ring| + |s.writers[w].todo| > s.size
            else |s.ring| == s.size
  {
  }

  /** What was read followed by what is in the ring is what the writers put in; the writer's bytes appear in
      order; and if it writes at most PIPE_BUF bytes and any are in the stream, all are, as one piece. */
  ghost predicate Delivered(s: State, w: nat)
    requires w in s.writers
  {
    && |s.ring| <= s.size && s.read + s.ring == Stream(s.pieces) && From(s.pieces, w) == s.writers[w].done
    && (s.writers[w].done != [] && |s.writers[w].done + s.writers[w].todo| <= PIPE_BUF ==>
          s.writers[w].todo == [] && exists k :: SolePiece(s.pieces, w, k, s.writers[w].done))
  }

  lemma DeliveredIf(s: State, w: nat)
    requires Faithful(s) && Ordered(s) && Atomic(s) && w in s.writers
    ensures Delivered(s, w)
  {
    assert From(s.pieces, w) == s.writers[w].done;
    hide Ordered, Atomic, Stream, From, SolePiece;
    if s.writers[w].done != [] && |s.writers[w].done + s.writers[w].todo| <= PIPE_BUF {
      var k := SmallIsOnePiece(s, w);
    }
  }

  /** What a writer has written and has still to write is what it was called with. */
  lemma {:induction false} RunWhole(ss: seq<State>, es: seq<Event>, n: nat, w: nat)
    requires Behaviour(ss, es) && n <= |es| && w in ss[n].writers
    ensures Begin(w, ss[n].writers[w].done + ss[n].writers[w].todo) in es[..n]
  {
    if n > 0 {
      var s, e := ss[n - 1], es[n - 1];
      assert Enabled(s, e) && ss[n] == Next(s, e) && es[..n] == es[..n - 1] + [e];
      if e.Begin? && e.w == w {
        assert [] + e.data == e.data;
      } else {
        RunWhole(ss, es, n - 1, w);
        if e.Copy? && e.w == w {
          var todo := s.writers[w].todo;
          Regroup(s.writers[w].done, todo, Min(|todo|, s.size - |s.ring|));
        }
      }
    }
  }

  /** Theorem: for every interleaving of readers and writers, at every point, for every writer. */
  lemma RunStream(ss: seq<State>, es: seq<Event>, n: nat, w: nat)
    requires Behaviour(ss, es) && n <= |es| && w in ss[n].writers
    ensures Delivered(ss[n], w) && Begin(w, ss[n].writers[w].done + ss[n].writers[w].todo) in es[..n]
  {
    RunInv(ss, es, n);
    RunWhole(ss, es, n, w);
    hide Delivered, Faithful, Ordered, Atomic, Behaviour;
    DeliveredIf(ss[n], w);
  }
}
