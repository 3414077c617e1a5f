/**
  kernel/printk.c: the ring of kernel messages, and reading it while it is being written.

  The ghost field `stream` is every character ever logged; position p of the stream lives in slot
  p % LOG_BUF_LEN until it is overwritten. Where the source drops console_lock around a copy to user
  space, the methods take what happens meanwhile as a parameter.
*/
module LogRing {
  import opened Basics

  const LOG_BUF_LEN: int := 16384
  const EINVAL: int := 22

  /** What others do to the log while the lock is dropped. */
  datatype Action =
    | Print(text: seq<char>)
    | Eat(count: nat)
    | Wipe

  lemma SlotsApart(p: nat, q: nat)
    requires p < q < p + LOG_BUF_LEN
    ensures p % LOG_BUF_LEN != q % LOG_BUF_LEN
  {
  }

  predicate NoEater(others: seq<seq<Action>>) {
    forall i :: 0 <= i < |others| ==> forall a :: a in others[i] ==> !a.Eat?
  }

  class Log {
    const buf: array<char>
    var start: nat
    var size: nat
    var logged: nat
    ghost var stream: seq<char>
    /** Where the stream was when the log was last cleared. */
    ghost var cleared: nat

    ghost predicate Valid()
      reads this, buf
    {
      && buf.Length == LOG_BUF_LEN && size <= LOG_BUF_LEN
      && start + size == |stream| && cleared + logged == |stream|
      && (forall p :: 0 <= p < |stream| <= p + LOG_BUF_LEN ==> buf[p % LOG_BUF_LEN] == stream[p])
    }

    /** Others only ever add to the stream, and never un-clear or un-read it. */
    twostate predicate Grew()
      reads this
    {
      && old(stream) <= stream && old(cleared) <= cleared && old(start) <= start
    }

    constructor ()
      ensures Valid() && stream == [] && cleared == 0
    {
      buf := new char[LOG_BUF_LEN];
      start, size, logged, stream, cleared := 0, 0, 0, [], 0;
    }

    /** One character of a message. */
    method Append(c: char)
      requires Valid()
      modifies this, buf
      ensures Valid() && stream == old(stream) + [c] && cleared == old(cleared)
      ensures start == if old(size) < LOG_BUF_LEN then old(start) else old(start) + 1
    {
      ghost var total := start + size;
      forall p: nat | p < total < p + LOG_BUF_LEN ensures p % LOG_BUF_LEN != total % LOG_BUF_LEN {
        SlotsApart(p, total);
      }
      buf[(start + size) % LOG_BUF_LEN] := c;
      if size < LOG_BUF_LEN {
        size := size + 1;
      } else {
        start := start + 1;
      }
      logged := logged + 1;
      stream := stream + [c];
    }

    method Printk(text: seq<char>)
      requires Valid()
      modifies this, buf
      ensures Valid() && Grew() && stream == old(stream) + text && cleared == old(cleared)
      ensures start == old(start) || size == LOG_BUF_LEN
      ensures old(size) == LOG_BUF_LEN ==> size == LOG_BUF_LEN
    {
      var i := 0;
      while i < |text|
        invariant 0 <= i <= |text| && Valid() && stream == old(stream) + text[..i] && cleared == old(cleared)
        invariant start == old(start) || (old(start) <= start && size == LOG_BUF_LEN)
        invariant old(size) == LOG_BUF_LEN ==> size == LOG_BUF_LEN
      {
        Append(text[i]);
        i := i + 1;
      }
      assert text[..i] == text;
    }

    method Interleave(acts: seq<Action>)
      requires Valid()
      modifies this, buf
      ensures Valid() && Grew() && (acts == [] ==> stream == old(stream))
      ensures (forall a :: a in acts ==> !a.Eat?) ==> start == old(start) || size == LOG_BUF_LEN
    {
      var i := 0;
      while i < |acts|
        invariant 0 <= i <= |acts| && Valid() && Grew() && (i == 0 ==> stream == old(stream))
        invariant (forall a :: a in acts ==> !a.Eat?) ==> start == old(start) || size == LOG_BUF_LEN
      {
        assert acts[i] in acts;
        match acts[i] {
          case Print(text) => Printk(text);
          case Eat(count) => var n := Min(count, size); start, size := start + n, size - n;
          case Wipe => Clear();
        }
        i := i + 1;
      }
    }

    /** do_syslog 5. */
    method Clear()
      requires Valid()
      modifies this
      ensures Valid() && stream == old(stream) && start == old(start) && cleared == |stream|
    {
      logged := 0;
      cleared := |stream|;
    }

    /** The copying loop of do_syslog 2, with `others[i]` happening while character i goes to user space. The
        characters handed over are stream characters at strictly increasing positions, and with no other reader
        about a position is skipped only because it was overwritten. */
    method Read(len: int, others: seq<seq<Action>>) returns (r: int, out: seq<char>, ghost at: seq<nat>)
      requires Valid()
      modifies this, buf
      ensures Valid() && Grew()
      ensures len < 0 ==> r == -EINVAL
      ensures |out| == |at| && (len >= 0 ==> r == |out| <= len)
      ensures forall k :: 0 <= k < |at| ==> old(start) <= at[k] < |stream| && out[k] == stream[at[k]]
      ensures forall k :: 0 < k < |at| ==> at[k - 1] < at[k]
      ensures NoEater(others) ==>
                forall p :: old(start) <= p < start ==> p in at || p + LOG_BUF_LEN < |stream|
      ensures others == [] ==> stream == old(stream) && start == old(start) + |out|
      ensures 0 <= r < len ==> start == |stream|
    {
      out, at := [], [];
      if len < 0 { return -EINVAL, out, at; }
      while size != 0 && |out| < len
        invariant Valid() && Grew() && |out| == |at| <= len
        invariant forall k :: 0 <= k < |at| ==> old(start) <= at[k] < start && out[k] == stream[at[k]]
        invariant forall k :: 0 < k < |at| ==> at[k - 1] < at[k]
        invariant NoEater(others) ==>
                    forall p :: old(start) <= p < start ==> p in at || p + LOG_BUF_LEN < |stream|
        invariant others == [] ==> stream == old(stream) && start == old(start) + |out|
        decreases len - |out|
      {
        out, at := out + [buf[start % LOG_BUF_LEN]], at + [start];
        start, size := start + 1, size - 1;
        if |out| - 1 < |others| { Interleave(others[|out| - 1]); }
      }
      r := |out|;
    }

    /** do_syslog 3 and 4, with `others[i]` happening while character i goes to user space. Whatever that is,
        the user gets the `r` characters of the stream before the position where the call found it; fewer than
        it could have only if the next one back had been overwritten. */
    method ReadAll(user: array<char>, len: int, clear: bool, others: seq<seq<Action>>) returns (r: int)
      requires Valid() && user != buf && len <= user.Length
      modifies this, buf, user
      ensures Valid() && Grew()
      ensures len < 0 ==> r == -EINVAL
      ensures len >= 0 ==>
        var end := |old(stream)|;
        var count := Min(Min(len, LOG_BUF_LEN), end - old(cleared));
        && 0 <= r <= count && user[..r] == old(stream)[end - r..end]
        && (r < count ==> end - 1 - r + LOG_BUF_LEN < |stream|)
        && (others == [] ==> r == count)
        && (forall k :: count <= k < user.Length ==> user[k] == old(user[k]))
        && (clear && len > 0 ==> cleared >= end)
    {
      if len < 0 { return -EINVAL; }
      if len == 0 { return 0; }
      var count := Min(Min(len, LOG_BUF_LEN), logged);
      if clear { Clear(); }
      var limit := start + size;
      r := CopyBack(user, count, limit, others);
      if r != count { ShiftDown(user, r, count - r); }
    }

    /** Copies the `count` characters before `limit` from the last to the first. */
    method CopyBack(user: array<char>, count: nat, limit: nat, others: seq<seq<Action>>) returns (i: nat)
      requires Valid() && user != buf && count <= user.Length && count <= limit == |stream| && count <= LOG_BUF_LEN
      modifies this, buf, user
      ensures Valid() && Grew() && i <= count
      ensures user[count - i..count] == old(stream)[limit - i..limit]
      ensures i < count ==> limit - 1 - i + LOG_BUF_LEN < |stream|
      ensures others == [] ==> i == count
      ensures forall k :: count <= k < user.Length ==> user[k] == old(user[k])
    {
      i := 0;
      while i < count
        invariant Valid() && Grew() && i <= count
        invariant forall k :: count - i <= k < count ==> user[k] == old(stream)[limit - count + k]
        invariant others == [] ==> stream == old(stream)
        invariant forall k :: count <= k < user.Length ==> user[k] == old(user[k])
      {
        var j := limit - 1 - i;
        if j + LOG_BUF_LEN < start + size { break; }
        var c := buf[j % LOG_BUF_LEN];
        user[count - 1 - i] := c;
        if i < |others| { Interleave(others[i]); }
        i := i + 1;
      }
    }

    /** Moves `n` characters from `offset` to the front. */
    static method ShiftDown(user: array<char>, n: nat, offset: nat)
      requires offset + n <= user.Length
      modifies user
      ensures user[..n] == old(user[offset..offset + n])
      ensures forall k :: offset + n <= k < user.Length ==> user[k] == old(user[k])
    {
      var i := 0;
      while i < n
        invariant 0 <= i <= n
        invariant forall k :: 0 <= k < i ==> user[k] == old(user[k + offset])
        invariant forall k :: i <= k < user.Length ==> user[k] == old(user[k])
      {
        user[i] := user[i + offset];
        i := i + 1;
      }
    }
  }
}
