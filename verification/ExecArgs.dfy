/**
  fs/exec.c and fs/binfmt_aout.c: packing argument strings into pages from the top down, dropping the first,
  and building the pointer tables of an a.out process from them.
*/
module ExecArgs {
  import opened Basics

  const PAGE_SIZE: int := 4096
  const MAX_ARG_PAGES: int := 32
  const TOP: int := PAGE_SIZE * MAX_ARG_PAGES - 4
  const EFAULT: int := 14
  const E2BIG: int := 7
  const ENOMEM: int := 12

  /** A pointer to a NUL-terminated string, or a null pointer. */
  datatype Arg = Null | Str(text: seq<int>)

  predicate Proper(args: seq<Arg>) {
    forall i :: 0 <= i < |args| ==> args[i].Str? ==> 0 !in args[i].text
  }

  predicate NoNull(args: seq<Arg>) {
    forall i :: 0 <= i < |args| ==> args[i].Str?
  }

  /** The strings one after the other, each with its NUL. */
  function Pack(args: seq<Arg>): seq<int> {
    if args == [] then [] else (if args[0].Str? then args[0].text + [0] else []) + Pack(args[1..])
  }

  lemma PackFrom(args: seq<Arg>, k: nat)
    requires k < |args|
    ensures Pack(args[k..]) == (if args[k].Str? then args[k].text + [0] else []) + Pack(args[k + 1..])
  {
    assert args[k..][1..] == args[k + 1..];
  }

  lemma PackNone(args: seq<Arg>)
    ensures Pack(args[..0]) == [] && Pack(args[|args|..]) == []
  {
  }

  lemma {:induction false} PackConcat(a: seq<Arg>, b: seq<Arg>)
    ensures Pack(a + b) == Pack(a) + Pack(b)
  {
    if a == [] {
      assert a + b == b;
    } else {
      PackConcat(a[1..], b);
      assert (a + b)[1..] == a[1..] + b;
    }
  }

  // ---------------------------------------------------------------------------
  // The pages
  // ---------------------------------------------------------------------------

  datatype Page = Missing | Page(bytes: seq<int>)

  predicate PagesOk(pages: seq<Page>) {
    && |pages| == MAX_ARG_PAGES
    && forall i :: 0 <= i < |pages| ==> pages[i].Page? ==> |pages[i].bytes| == PAGE_SIZE
  }

  predicate Present(pages: seq<Page>, x: nat) {
    PagesOk(pages) && x < PAGE_SIZE * MAX_ARG_PAGES && pages[x / PAGE_SIZE].Page?
  }

  function At(pages: seq<Page>, x: nat): int
    requires Present(pages, x)
  {
    pages[x / PAGE_SIZE].bytes[x % PAGE_SIZE]
  }

  /** One copy into a page, clearing the rest of it if it is new. */
  function PutChunk(page: Page, offset: nat, chunk: seq<int>): (r: Page)
    requires page.Page? ==> |page.bytes| == PAGE_SIZE
    requires offset + |chunk| <= PAGE_SIZE
    ensures r.Page? && |r.bytes| == PAGE_SIZE
  {
    var was := if page.Page? then page.bytes else Zeros(PAGE_SIZE);
    Page(was[..offset] + chunk + was[offset + |chunk|..])
  }

  /** A chunk lands at its positions and nowhere else. */
  lemma ChunkLands(pages: seq<Page>, pos: nat, chunk: seq<int>, x: nat)
    requires PagesOk(pages) && pos < PAGE_SIZE * MAX_ARG_PAGES && pos % PAGE_SIZE + |chunk| <= PAGE_SIZE
    requires pos <= x < pos + |chunk| || Present(pages, x)
    ensures var i := pos / PAGE_SIZE; var after := pages[i := PutChunk(pages[i], pos % PAGE_SIZE, chunk)];
            Present(after, x) && At(after, x) == if pos <= x < pos + |chunk| then chunk[x - pos] else At(pages, x)
  {
  }

  /** The bytes `s` are in the pages from position `lo` on. */
  ghost predicate Holds(pages: seq<Page>, lo: nat, s: seq<int>) {
    forall x :: lo <= x < lo + |s| ==> Present(pages, x) && At(pages, x) == s[x - lo]
  }

  /** Writing a chunk after `done` extends it and keeps what lies above. */
  lemma ChunkExtends(pages: seq<Page>, lo: nat, done: seq<int>, chunk: seq<int>, above: nat, rest: seq<int>)
    requires PagesOk(pages) && Holds(pages, lo, done) && Holds(pages, above, rest)
    requires lo + |done| + |chunk| <= above <= TOP && chunk != []
    requires (lo + |done|) % PAGE_SIZE + |chunk| <= PAGE_SIZE
    ensures var i := (lo + |done|) / PAGE_SIZE;
            var after := pages[i := PutChunk(pages[i], (lo + |done|) % PAGE_SIZE, chunk)];
            PagesOk(after) && Holds(after, lo, done + chunk) && Holds(after, above, rest)
  {
    var pos := lo + |done|;
    var after := pages[pos / PAGE_SIZE := PutChunk(pages[pos / PAGE_SIZE], pos % PAGE_SIZE, chunk)];
    forall x | lo <= x < lo + |done + chunk| || above <= x < above + |rest|
      ensures Present(after, x) && At(after, x) == if x < above then (done + chunk)[x - lo] else rest[x - above]
    {
      assert x < pos || x >= above ==> Present(pages, x);
      ChunkLands(pages, pos, chunk, x);
    }
  }

  /** No byte of a page that is below `p` is anything but zero. */
  ghost predicate Clean(pages: seq<Page>, p: nat) {
    forall x: nat :: x < p && Present(pages, x) ==> At(pages, x) == 0
  }

  lemma CleanLower(pages: seq<Page>, p: nat, q: nat)
    requires q <= p
    ensures Clean(pages, p) ==> Clean(pages, q)
  {
  }

  lemma ChunkClean(pages: seq<Page>, pos: nat, chunk: seq<int>, p: nat)
    requires PagesOk(pages) && Clean(pages, p) && p <= pos < PAGE_SIZE * MAX_ARG_PAGES && pos % PAGE_SIZE + |chunk| <= PAGE_SIZE
    ensures var i := pos / PAGE_SIZE; Clean(pages[i := PutChunk(pages[i], pos % PAGE_SIZE, chunk)], p)
  {
    var i := pos / PAGE_SIZE;
    var after := pages[i := PutChunk(pages[i], pos % PAGE_SIZE, chunk)];
    forall x: nat | x < p && Present(after, x) ensures At(after, x) == 0 {
      assert x / PAGE_SIZE != i ==> At(after, x) == At(pages, x);
      if x / PAGE_SIZE == i {
        assert x % PAGE_SIZE < pos % PAGE_SIZE;
        assert pages[i].Page? ==> Present(pages, x) && At(pages, x) == pages[i].bytes[x % PAGE_SIZE];
      }
    }
  }

  lemma NothingHeld(pages: seq<Page>, lo: nat)
    ensures Holds(pages, lo, [])
  {
  }

  lemma HoldsConcat(pages: seq<Page>, lo: nat, a: seq<int>, b: seq<int>)
    requires Holds(pages, lo, a) && Holds(pages, lo + |a|, b)
    ensures Holds(pages, lo, a + b)
  {
  }

  // ---------------------------------------------------------------------------
  // The copy
  // ---------------------------------------------------------------------------

  /** Where copying ends, or the error it stops with: the last string first, each with its NUL, downwards. */
  datatype Fate = Ends(p: nat) | Stops(error: int)

  function Outcome(args: seq<Arg>, p: nat): Fate {
    if args == [] then Ends(p)
    else
      var last := args[|args| - 1];
      if last.Null? || p == 0 then Stops(EFAULT)
      else if p < |last.text| + 1 then Stops(E2BIG)
      else Outcome(args[..|args| - 1], p - (|last.text| + 1))
  }

  /** Theorem: the strings go in exactly when there is room for all of them and none is missing. */
  lemma {:induction false} FitsExactly(args: seq<Arg>, p: nat)
    ensures Outcome(args, p).Ends? <==> NoNull(args) && |Pack(args)| <= p
    ensures Outcome(args, p).Ends? ==> Outcome(args, p).p == p - |Pack(args)|
  {
    if args == [] {
    } else {
      var n := |args| - 1;
      var last := args[n];
      PackConcat(args[..n], [last]);
      assert args == args[..n] + [last];
      assert NoNull(args) <==> NoNull(args[..n]) && last.Str?;
      if last.Str? && p >= |last.text| + 1 { FitsExactly(args[..n], p - (|last.text| + 1)); }
    }
  }

  /** Theorem: the last string that does not go in decides: one that is missing, or comes when there is no room at all, is
      a fault, and one that is too long is too big. */
  lemma {:induction false} StopsWith(args: seq<Arg>, k: nat, p: nat)
    requires k < |args| && NoNull(args[k + 1..]) && |Pack(args[k + 1..])| <= p
    requires var room := p - |Pack(args[k + 1..])|; args[k].Null? || |args[k].text| + 1 > room
    ensures var room := p - |Pack(args[k + 1..])|;
            Outcome(args, p) == Stops(if args[k].Null? || room == 0 then EFAULT else E2BIG)
    decreases |args|
  {
    var n := |args| - 1;
    if k < n {
      var last := args[n];
      var tail, rest := args[k + 1..], args[..n][k + 1..];
      assert tail == rest + [last] && tail[n - k - 1] == last;
      PackConcat(rest, [last]);
      assert Pack([last]) == last.text + [0];
      assert forall i :: 0 <= i < |rest| ==> rest[i] == tail[i];
      StopsWith(args[..n], k, p - (|last.text| + 1));
    } else {
      assert args[k + 1..] == [];
    }
  }

  lemma OutcomeAt(args: seq<Arg>, k: nat, p: nat)
    requires k < |args|
    ensures Outcome(args[..k + 1], p) ==
            if args[k].Null? || p == 0 then Stops(EFAULT)
            else if p < |args[k].text| + 1 then Stops(E2BIG)
            else Outcome(args[..k], p - (|args[k].text| + 1))
  {
    assert args[..k + 1][..k] == args[..k];
  }

  lemma OutcomeNone(args: seq<Arg>, p: nat)
    ensures Outcome(args[..0], p) == Ends(p)
  {
  }

  lemma Regroup(a: seq<int>, b: seq<int>, c: seq<int>)
    ensures a + (b + c) == (a + b) + c
  {
  }

  class Binprm {
    var page: seq<Page>
    var p: nat
    var argc: nat
    /** How many pages the allocator will still give out. */
    var free: nat

    /** What is in the pages from p up. */
    ghost var area: seq<int>

    ghost predicate Valid()
      reads this
    {
      PagesOk(page) && p <= TOP && |area| == TOP - p && Holds(page, p, area)
    }

    constructor (argc: nat, free: nat)
      ensures Valid() && p == TOP && this.argc == argc && Clean(page, p)
    {
      page := seq(MAX_ARG_PAGES, i => Missing);
      p := TOP;
      this.argc := argc;
      this.free := free;
      area := [];
    }

    /** The inner loop of copy_strings: a string and its NUL, page by page. */
    method CopyString(bytes: seq<int>) returns (error: int)
      requires Valid() && |bytes| <= p
      modifies this
      ensures argc == old(argc) && p == old(p) - |bytes|
      ensures error == 0 || (error == -ENOMEM && free == 0)
      ensures error == 0 ==> Valid() && area == bytes + old(area)
      ensures error == 0 && old(Clean(page, p)) ==> Clean(page, p)
    {
      hide Present, At, Holds, PutChunk, Clean;
      CleanLower(page, p, p - |bytes|);
      p := p - |bytes|;
      var pos, len := p, |bytes|;
      NothingHeld(page, p);
      while len > 0
        invariant PagesOk(page) && p == old(p) - |bytes| && argc == old(argc) && area == old(area)
        invariant 0 <= len <= |bytes| && pos == p + (|bytes| - len)
        invariant old(Clean(page, p)) ==> Clean(page, p)
        invariant Holds(page, p, bytes[..|bytes| - len]) && Holds(page, old(p), area)
      {
        var offset, i := pos % PAGE_SIZE, pos / PAGE_SIZE;
        if page[i].Missing? {
          if free == 0 { return -ENOMEM; }
          free := free - 1;
        }
        var n := Min(PAGE_SIZE - offset, len);
        var chunk := bytes[|bytes| - len..|bytes| - len + n];
        ChunkExtends(page, p, bytes[..|bytes| - len], chunk, old(p), area);
        if Clean(page, p) { ChunkClean(page, pos, chunk, p); }
        page := page[i := PutChunk(page[i], offset, chunk)];
        assert bytes[..|bytes| - len] + chunk == bytes[..|bytes| - len + n];
        pos, len := pos + n, len - n;
      }
      assert bytes[..|bytes|] == bytes;
      HoldsConcat(page, p, bytes, area);
      area := bytes + area;
      error := 0;
    }

    method CopyStrings(args: seq<Arg>) returns (error: int)
      requires Valid()
      modifies this
      ensures argc == old(argc)
      ensures error == -ENOMEM ==> free == 0
      ensures error != -ENOMEM ==>
                if Outcome(args, old(p)).Stops? then error == -Outcome(args, old(p)).error
                else error == 0 && p == Outcome(args, old(p)).p
      ensures error == 0 ==> Valid() && area == Pack(args) + old(area)
      ensures error == 0 && old(Clean(page, p)) ==> Clean(page, p)
    {
      hide Present, At, Holds, PagesOk, Pack, Outcome, Clean;
      var k := |args|;
      assert args[..k] == args;
      PackNone(args);
      while k > 0
        invariant 0 <= k <= |args| && Valid() && argc == old(argc)
        invariant Outcome(args[..k], p) == Outcome(args, old(p)) && (old(Clean(page, p)) ==> Clean(page, p))
        invariant area == Pack(args[k..]) + old(area)
      {
        k := k - 1;
        OutcomeAt(args, k, p);
        if args[k].Null? || p == 0 { return -EFAULT; }
        var bytes := args[k].text + [0];
        if p < |bytes| { return -E2BIG; }
        PackFrom(args, k);
        Regroup(bytes, Pack(args[k + 1..]), old(area));
        error := CopyString(bytes);
        if error != 0 { return; }
      }
      OutcomeNone(args, p);
      assert args[0..] == args;
      error := 0;
    }

    /** The memory of the new process from p on, once the pages are mapped there. */
    method Bytes() returns (mem: seq<int>)
      requires Valid()
      ensures mem == area
    {
      mem := [];
      while |mem| < TOP - p
        invariant |mem| <= |area| && mem == area[..|mem|]
      {
        assert Present(page, p + |mem|);
        mem := mem + [At(page, p + |mem|)];
      }
    }

    /** Walks over the first string, across page boundaries. */
    method RemoveArgZero(ghost args: seq<Arg>, ghost rest: seq<int>)
      requires Valid() && argc == |args| && Proper(args) && NoNull(args) && area == Pack(args) + rest
      modifies this
      ensures Valid() && page == old(page)
      ensures if args == [] then argc == 0 && p == old(p)
              else argc == |args| - 1 && area == Pack(args[1..]) + rest
    {
      if argc == 0 { return; }
      ghost var n := |args[0].text|;
      assert area[..n + 1] == args[0].text + [0];
      assert forall k :: 0 <= k <= n ==> (area[k] == 0 <==> k == n);
      SkipString(n);
      argc := argc - 1;
      assert area == Pack(args[1..]) + rest;
    }

    /** The loop of remove_arg_zero, which holds on to one page until it has left it. */
    method SkipString(ghost n: nat)
      requires Valid() && n < |area| && forall k :: 0 <= k <= n ==> (area[k] == 0 <==> k == n)
      modifies this`p, this`area
      ensures Valid() && area == old(area)[n + 1..]
    {
      ghost var from := p;
      var offset := p % PAGE_SIZE;
      assert Present(page, p);
      var cur := page[p / PAGE_SIZE].bytes;
      var c := 1;
      while c != 0
        invariant from <= p <= from + n + 1 && area == old(area)
        invariant c == 0 <==> p == from + n + 1
        invariant c != 0 ==> Present(page, p) && offset == p % PAGE_SIZE && cur == page[p / PAGE_SIZE].bytes
        decreases from + n + 1 - p
      {
        assert At(page, p) == area[p - from];
        c := cur[offset];
        p, offset := p + 1, offset + 1;
        if c != 0 {
          assert Present(page, p);
          if offset == PAGE_SIZE {
            offset := 0;
            cur := page[p / PAGE_SIZE].bytes;
          }
        }
      }
      area := area[n + 1..];
    }
  }

  /** The order of do_execve: the file name, then the environment, then the arguments, each below the last. */
  method CopyAll(b: Binprm, filename: seq<int>, argv: seq<Arg>, envp: seq<Arg>) returns (error: int)
    requires b.Valid() && b.p == TOP
    modifies b
    ensures b.argc == old(b.argc)
    ensures error == 0 ==>
              b.Valid() && b.area == Pack(argv) + Pack(envp) + (filename + [0]) && NoNull(argv) && NoNull(envp)
    ensures error == 0 && old(Clean(b.page, b.p)) ==> Clean(b.page, b.p)
    ensures error == 0 || error == -EFAULT || error == -E2BIG || (error == -ENOMEM && b.free == 0)
    ensures NoNull(argv) && NoNull(envp) && |Pack(argv)| + |Pack(envp)| + |filename| + 1 <= TOP ==>
              error == 0 || error == -ENOMEM
  {
    hide Present, At, Holds, PagesOk, Clean;
    assert Pack([Str(filename)]) == filename + [0];
    OutcomeErrors([Str(filename)], b.p);
    FitsExactly([Str(filename)], b.p);
    error := b.CopyStrings([Str(filename)]);
    if error != 0 { return; }
    OutcomeErrors(envp, b.p);
    FitsExactly(envp, b.p);
    error := b.CopyStrings(envp);
    if error != 0 { return; }
    OutcomeErrors(argv, b.p);
    FitsExactly(argv, b.p);
    error := b.CopyStrings(argv);
    assert error == 0 ==> b.area == Pack(argv) + Pack(envp) + (filename + [0]);
  }

  lemma {:induction false} OutcomeErrors(args: seq<Arg>, p: nat)
    ensures Outcome(args, p).Stops? ==> Outcome(args, p).error in {EFAULT, E2BIG}
  {
    if args == [] {
    } else {
      var last := args[|args| - 1];
      if last.Str? && p >= |last.text| + 1 { OutcomeErrors(args[..|args| - 1], p - (|last.text| + 1)); }
    }
  }

  // ---------------------------------------------------------------------------
  // The pointer tables
  // ---------------------------------------------------------------------------

  /** The string a process finds at an offset of its memory. */
  function CString(mem: seq<int>, off: nat): seq<int>
    decreases |mem| - off
  {
    if off < |mem| && mem[off] != 0 then [mem[off]] + CString(mem, off + 1) else []
  }

  lemma {:induction false} CStringIs(mem: seq<int>, off: nat, text: seq<int>)
    requires TextAt(mem, off, text) && 0 !in text
    ensures CString(mem, off) == text
    decreases |text|
  {
    if text == [] {
    } else {
      assert mem[off] == text[0];
      assert mem[off + 1..off + |text|] == text[1..];
      CStringIs(mem, off + 1, text[1..]);
    }
  }

  /** Where string k of the packed strings is. */
  lemma PackSplit(args: seq<Arg>, k: nat)
    requires k < |args| && args[k].Str?
    ensures Pack(args) == Pack(args[..k]) + args[k].text + [0] + Pack(args[k + 1..])
    ensures Pack(args[..k + 1]) == Pack(args[..k]) + args[k].text + [0]
  {
    PackConcat(args[..k], args[k..]);
    PackFrom(args, k);
    PackConcat(args[..k], [args[k]]);
    assert Pack([args[k]]) == args[k].text + [0];
    hide Pack;
    assert args[..k] + args[k..] == args;
    assert args[..k] + [args[k]] == args[..k + 1];
    Regroup(Pack(args[..k]), args[k].text, [0]);
    Regroup(Pack(args[..k]), args[k].text + [0], Pack(args[k + 1..]));
  }

  /** The strings `args` lie in memory from `off` on. */
  ghost predicate Lies(mem: seq<int>, off: nat, args: seq<Arg>) {
    Proper(args) && NoNull(args) && off + |Pack(args)| <= |mem| && mem[off..off + |Pack(args)|] == Pack(args)
  }

  lemma LiesAt(mem: seq<int>, off: nat, args: seq<Arg>, k: nat)
    requires Lies(mem, off, args) && k < |args|
    ensures args[k].Str? && 0 !in args[k].text
    ensures |Pack(args[..k + 1])| == |Pack(args[..k])| + |args[k].text| + 1
    ensures off + |Pack(args[..k + 1])| <= |mem|
    ensures TextAt(mem, off + |Pack(args[..k])|, args[k].text)
  {
    PackSplit(args, k);
    hide Pack;
    var a, t, rest := Pack(args[..k]), args[k].text, Pack(args[k + 1..]);
    Middle(a, t, rest);
    Within(mem, off, a + t + [0] + rest, |a|, |a| + |t|);
  }

  predicate TextAt(mem: seq<int>, off: nat, text: seq<int>) {
    off + |text| < |mem| && mem[off..off + |text|] == text && mem[off + |text|] == 0
  }

  lemma Middle(a: seq<int>, t: seq<int>, rest: seq<int>)
    ensures var p := a + t + [0] + rest; p[|a|..|a| + |t|] == t && p[|a| + |t|] == 0
  {
  }

  lemma Within(mem: seq<int>, off: nat, p: seq<int>, i: nat, j: nat)
    requires off + |p| <= |mem| && mem[off..off + |p|] == p && i <= j < |p|
    ensures mem[off + i..off + j] == p[i..j] && mem[off + j] == p[j]
  {
    forall x | 0 <= x < |p| ensures mem[off + x] == p[x] {
      assert p[x] == mem[off..off + |p|][x];
    }
  }

  /** The words at `at` name the strings in order and end in a null pointer; memory starts at address `base`. */
  ghost predicate Names(words: map<int, int>, at: int, base: int, mem: seq<int>, args: seq<Arg>) {
    && (forall k :: 0 <= k < |args| ==>
          at + 4 * k in words && words[at + 4 * k] >= base && args[k].Str? &&
          CString(mem, words[at + 4 * k] - base) == args[k].text)
    && at + 4 * |args| in words && words[at + 4 * |args|] == 0
  }

  /** One of the two loops: writes a pointer, then steps over the string it points to. */
  method FillTable(words0: map<int, int>, at: int, base: int, mem: seq<int>, off: nat, count: nat, ghost args: seq<Arg>)
    returns (words: map<int, int>, end: nat)
    requires |args| == count && Lies(mem, off, args)
    ensures Names(words, at, base, mem, args) && end == off + |Pack(args)|
    ensures forall a :: a in words0 && !(at <= a < at + 4 * (count + 1)) ==> a in words && words[a] == words0[a]
    ensures forall a :: a in words ==> a in words0 || at <= a <= at + 4 * count
  {
    hide Lies, Pack, CString;
    words, end := words0, off;
    var k := 0;
    PackNone(args);
    while k < count
      invariant 0 <= k <= count && end == off + |Pack(args[..k])|
      invariant forall j :: 0 <= j < k ==>
                  at + 4 * j in words && words[at + 4 * j] >= base && args[j].Str? &&
                  CString(mem, words[at + 4 * j] - base) == args[j].text
      invariant forall a :: a in words0 && !(at <= a < at + 4 * (count + 1)) ==> a in words && words[a] == words0[a]
      invariant forall a :: a in words ==> a in words0 || at <= a <= at + 4 * count
    {
      LiesAt(mem, off, args, k);
      CStringIs(mem, end, args[k].text);
      words := words[at + 4 * k := base + end];
      end := StepOver(mem, end, args[k].text);
      k := k + 1;
    }
    assert args[..k] == args;
    words := words[at + 4 * count := 0];
  }

  /** get_user up to and including the NUL. */
  method StepOver(mem: seq<int>, off: nat, ghost text: seq<int>) returns (end: nat)
    requires TextAt(mem, off, text) && 0 !in text
    ensures end == off + |text| + 1
  {
    end := off;
    assert forall x :: off <= x < off + |text| ==> mem[x] == text[x - off];
    while mem[end] != 0
      invariant off <= end <= off + |text|
      decreases off + |text| - end
    {
      end := end + 1;
    }
    end := end + 1;
  }

  /** The words from the stack pointer up are the count, the two tables' addresses and the tables, all of them
      below the strings. */
  ghost predicate Tables(words: map<int, int>, sp: int, base: int, mem: seq<int>, argv: seq<Arg>, envp: seq<Arg>) {
    && sp in words && sp + 4 in words && sp + 8 in words && words[sp] == |argv|
    && Names(words, words[sp + 4], base, mem, argv) && Names(words, words[sp + 8], base, mem, envp)
    && forall a :: a in words ==> sp <= a && a + 4 <= base
  }

  /** create_aout_tables as on the i386, for strings that lie in memory from address `base` on. */
  method CreateAoutTables(base: nat, mem: seq<int>, argc: nat, envc: nat, ghost argv: seq<Arg>, ghost envp: seq<Arg>)
    returns (sp: int, words: map<int, int>, argEnd: int, envEnd: int)
    requires |argv| == argc && |envp| == envc && Lies(mem, 0, argv + envp)
    ensures Tables(words, sp, base, mem, argv, envp)
    ensures argEnd == base + |Pack(argv)| && envEnd == argEnd + |Pack(envp)|
  {
    hide Lies, Pack, CString;
    LiesSplit(mem, argv, envp);
    sp := base / 4 * 4;
    sp := sp - 4 * (envc + 1);
    var ev := sp;
    sp := sp - 4 * (argc + 1);
    var av := sp;
    sp := sp - 12;
    words := map[sp + 8 := ev, sp + 4 := av, sp := argc];
    var mid, end: nat;
    words, mid := FillTable(words, av, base, mem, 0, argc, argv);
    argEnd := base + mid;
    ghost var first := words;
    words, end := FillTable(words, ev, base, mem, mid, envc, envp);
    envEnd := base + end;
    NamesKept(first, words, av, base, mem, argv);
  }

  lemma NamesKept(words: map<int, int>, words': map<int, int>, at: int, base: int, mem: seq<int>, args: seq<Arg>)
    requires Names(words, at, base, mem, args)
    requires forall a :: a in words && a < at + 4 * (|args| + 1) ==> a in words' && words'[a] == words[a]
    ensures Names(words', at, base, mem, args)
  {
  }

  lemma LiesSplit(mem: seq<int>, a: seq<Arg>, b: seq<Arg>)
    requires Lies(mem, 0, a + b)
    ensures Lies(mem, 0, a) && Lies(mem, |Pack(a)|, b)
  {
    PackConcat(a, b);
    var p := Pack(a + b);
    assert forall i :: 0 <= i < |a| ==> a[i] == (a + b)[i];
    assert forall i :: 0 <= i < |b| ==> b[i] == (a + b)[|a| + i];
    assert mem[..|p|] == Pack(a) + Pack(b);
    assert mem[..|Pack(a)|] == mem[..|p|][..|Pack(a)|];
    assert mem[|Pack(a)|..|p|] == mem[..|p|][|Pack(a)|..];
  }

  /** What CopyAll and RemoveArgZero leave in the pages is what CreateAoutTables asks for. */
  lemma PackedLies(area: seq<int>, argv: seq<Arg>, envp: seq<Arg>, rest: seq<int>)
    requires Proper(argv) && NoNull(argv) && Proper(envp) && NoNull(envp) && area == Pack(argv) + Pack(envp) + rest
    ensures Lies(area, 0, argv + envp)
  {
    PackConcat(argv, envp);
    assert area[..|Pack(argv + envp)|] == Pack(argv + envp);
  }

  /** The pointers before the first null one. */
  function Counted(args: seq<Arg>): (n: nat)
    ensures n <= |args| && NoNull(args[..n]) && (n < |args| ==> args[n].Null?)
  {
    if args == [] || args[0].Null? then 0 else 1 + Counted(args[1..])
  }

  lemma {:induction false} CountedOf(args: seq<Arg>, i: nat)
    requires i <= |args| && NoNull(args[..i])
    ensures Counted(args) >= i && (i == |args| || args[i].Null? ==> Counted(args) == i)
  {
    if i == 0 {
    } else {
      assert args[..i][0] == args[0] && args[1..][..i - 1] == args[..i][1..];
      CountedOf(args[1..], i - 1);
    }
  }

  /** The loop of count. */
  method Count(args: seq<Arg>, max: nat) returns (n: int)
    ensures n == if Counted(args) > max then -E2BIG else Counted(args)
  {
    n := 0;
    while n < |args| && args[n].Str?
      invariant 0 <= n <= |args| && n <= max && NoNull(args[..n])
    {
      n := n + 1;
      if n > max {
        CountedOf(args, n);
        return -E2BIG;
      }
    }
    CountedOf(args, n);
  }

  /** How many pointers execve takes, of either kind. */
  const MAX_STRINGS: int := TOP / 4

  /** execve of an a.out file from end to end: either an error, or tables that name exactly the strings given. */
  method ExecTables(b: Binprm, filename: seq<int>, argv: seq<Arg>, envp: seq<Arg>, stackBase: nat)
    returns (error: int, sp: int, words: map<int, int>)
    requires b.Valid() && b.p == TOP && Proper(argv) && Proper(envp)
    modifies b
    ensures var args, env := argv[..Counted(argv)], envp[..Counted(envp)];
            && (error == 0 ==> b.Valid() && b.argc == |args| && Tables(words, sp, stackBase + b.p, b.area, args, env))
            && (|args| > MAX_STRINGS || |env| > MAX_STRINGS ==> error == -E2BIG)
            && (error == 0 ==> |Pack(args)| + |Pack(env)| + |filename| + 1 <= TOP)
            && (error == 0 || error == -ENOMEM || |args| > MAX_STRINGS || |env| > MAX_STRINGS ||
                |Pack(args)| + |Pack(env)| + |filename| + 1 > TOP)
    ensures error == 0 || error == -EFAULT || error == -E2BIG || (error == -ENOMEM && b.free == 0)
    ensures error == 0 && old(Clean(b.page, b.p)) ==> Clean(b.page, b.p)
  {
    hide Tables, Lies, Pack, Holds, PagesOk, Clean;
    sp, words := 0, map[];
    var argc := Count(argv, MAX_STRINGS);
    if argc < 0 { return argc, sp, words; }
    b.argc := argc;
    var envc := Count(envp, MAX_STRINGS);
    if envc < 0 { return envc, sp, words; }
    error := CopyAll(b, filename, argv[..argc], envp[..envc]);
    if error == 0 {
      PackedLies(b.area, argv[..argc], envp[..envc], filename + [0]);
      var mem := b.Bytes();
      var argEnd, envEnd;
      sp, words, argEnd, envEnd :=
        CreateAoutTables(stackBase + b.p, mem, argc, envc, argv[..argc], envp[..envc]);
    }
  }
}
