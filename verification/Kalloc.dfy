/**
  The physical frame allocator of kernel/kalloc.c: a free list threaded through the first
  word of every free frame, refining a stack of frame numbers.
 */
module Kalloc {
  import opened Layout
  import opened Bytes

  /** A 4096-byte frame, as the 1024 words the kernel reads and writes. */
  type Frame = f: seq<Word> | |f| == 1024 witness seq(1024, _ => 0)

  /** All of physical memory, indexed by frame number. */
  type Memory = m: seq<Frame> | |m| == 0x10_0000 witness BlankMemory()

  function BlankMemory(): (m: seq<Frame>)
    ensures |m| == 0x10_0000
  {
    seq<Frame>(0x10_0000, _ => Filled(0))
  }

  function Filled(w: Word): (f: Frame) {
    seq(1024, _ => w)
  }

  /** memset(v, 1, PGSIZE), seen as words. */
  const JUNK: Word := 0x0101_0101

  /** Every byte of the frame behind its link is 1. */
  ghost predicate Junked(f: Frame) {
    forall i | 4 <= i < 4096 :: ByteAt(f, i) == 1
  }

  lemma JunkBytes(f: Frame)
    requires forall i | 1 <= i < ENTRIES :: f[i] == JUNK
    ensures Junked(f)
  {
    forall i | 4 <= i < 4096 ensures ByteAt(f, i) == 1 {
      JunkByte(i % 4);
    }
  }

  lemma JunkByte(k: nat)
    requires k < 4
    ensures ByteOf(JUNK, k) == 1
  {
    var w: nat, v: nat, u: nat := 0x0101_01, 0x0101, 1;
    assert JUNK / 256 == w && w / 256 == v && v / 256 == u;
    assert ByteOf(u, 0) == 1 && ByteOf(v, 1) == ByteOf(u, 0) && ByteOf(w, 2) == ByteOf(v, 1);
    assert ByteOf(JUNK, 3) == ByteOf(w, 2) && ByteOf(JUNK, 2) == ByteOf(w, 1) && ByteOf(JUNK, 1) == ByteOf(w, 0);
    assert ByteOf(w, 1) == ByteOf(v, 0);
  }

  /** Who a heap frame belongs to. */
  datatype Owner =
    | Free                          // on the free list
    | Held                          // handed out by kalloc, in the hands of its caller
    | Dir                           // a page directory
    | Table(dir: nat, slot: nat)    // the page table of one directory entry
    | Page(dir: nat, vpn: nat)      // the page a directory maps at a user page number

  /** Kernel address of a frame: P2V(f * PGSIZE). */
  function Ptr(f: nat): (v: Word)
    requires f < UPAGES
  {
    KERNBASE + f * PGSIZE
  }

  function PtrFrame(v: Word): (f: nat)
    requires v >= KERNBASE
    ensures f < UPAGES
  {
    (v - KERNBASE) / PGSIZE
  }

  ghost predicate Frames(s: seq<nat>) {
    forall i | 0 <= i < |s| :: s[i] < UPAGES
  }

  ghost predicate NoDup(s: seq<nat>) {
    forall i, j | 0 <= i < j < |s| :: s[i] != s[j]
  }

  /** The pointer stored in front of element i of the list s. */
  ghost function Link(s: seq<nat>, i: nat, sentinel: Word): (p: Word)
    requires Frames(s)
  {
    if i < |s| then Ptr(s[i]) else sentinel
  }

  /** head and the first words of the frames of s spell out s, ending at the sentinel. */
  ghost predicate Chain(mem: Memory, head: Word, sentinel: Word, s: seq<nat>) {
    && Frames(s)
    && head == Link(s, 0, sentinel)
    && forall i | 0 <= i < |s| :: mem[s[i]][0] == Link(s, i + 1, sentinel)
  }

  /** The free list holds each frame owned by Free exactly once, and nothing else. */
  ghost predicate FreeExactly(s: seq<nat>, owner: map<nat, Owner>) {
    && NoDup(s)
    && (forall i | 0 <= i < |s| :: s[i] in owner && owner[s[i]].Free?)
    && (forall f | f in owner && owner[f].Free? :: f in s)
  }

  ghost predicate InHeap(f: nat, start: Word, end: Word) {
    f < UPAGES && Ptr(f) >= start && f * PGSIZE < end
  }

  /** Word i of frame f. */
  ghost function Entry(mem: Memory, f: nat, i: nat): (w: Word) {
    if f < PAGES && i < ENTRIES then mem[f][i] else 0
  }

  /** Memory m' differs from m in frame f only. */
  ghost predicate OnlyFrame(m: Memory, m': Memory, f: nat) {
    forall g: nat | g < PAGES && g != f :: m'[g] == m[g]
  }

  /** Memory m' is m with word i of frame f set to w. */
  ghost predicate Poked(m: Memory, m': Memory, f: nat, i: nat, w: Word) {
    && f < PAGES && i < ENTRIES
    && (forall g: nat, k: nat :: Entry(m', g, k) == if g == f && k == i then w else Entry(m, g, k))
  }

  /** The two memories agree on every frame outside [lo, hi). */
  ghost predicate SameOutside(m: Memory, m': Memory, lo: nat, hi: nat) {
    forall f | 0 <= f < PAGES && (f < lo || hi <= f) :: m'[f] == m[f]
  }

  /** Pages [lo, hi) in the order freerange leaves them: the highest on top. */
  ghost function Descending(lo: nat, hi: nat): (s: seq<nat>)
    ensures |s| == (if lo < hi then hi - lo else 0)
    ensures forall i | 0 <= i < |s| :: s[i] == hi - 1 - i
  {
    if lo >= hi then [] else [hi - 1] + Descending(lo, hi - 1)
  }

  /** The first page at or above v, and the end of the last page at or below it, as frame numbers. */
  function FirstPage(v: Word): (f: nat) {
    if v < KERNBASE then 0 else (v - KERNBASE + PGSIZE - 1) / PGSIZE
  }
  function EndPage(v: Word): (f: nat) {
    if v < KERNBASE then 0 else (v - KERNBASE) / PGSIZE
  }

  /** The owners after frames [lo, hi) were put on the free list. */
  ghost function Donated(owner: map<nat, Owner>, lo: nat, hi: nat): (r: map<nat, Owner>)
    ensures forall f | f in r :: f in owner || lo <= f < hi
    ensures forall f | lo <= f < hi :: f in r && r[f].Free?
    ensures forall f | f in owner && !(lo <= f < hi) :: f in r && r[f] == owner[f]
  {
    if lo >= hi then owner else Donated(owner, lo, hi - 1)[hi - 1 := Free]
  }

  class Heap {
    /** The address of kmem.freelist, which ends the list (KMEM_SENTINEL). */
    const sentinel: Word
    var mem: Memory
    var freelist: Word
    var kheapStart: Word
    var kheapEnd: Word
    ghost var free: seq<nat>
    ghost var owner: map<nat, Owner>

    ghost predicate Valid()
      reads this
    {
      && KERNBASE <= sentinel < kheapStart
      && kheapStart > KERNBASE
      && (forall f | f in owner :: InHeap(f, kheapStart, kheapEnd))
      && FreeExactly(free, owner)
      && Chain(mem, freelist, sentinel, free)
    }

    /** The check at the head of kfree. */
    predicate Accepts(v: Word)
      reads this
    {
      !(v % PGSIZE != 0 || v < kheapStart || V2P(v) >= kheapEnd)
    }

    /**
      Gives the frame at v back. The caller must be its only user: a frame that is
      already free may not be freed again.
     */
    method Kfree(v: Word) returns (r: Status)
      requires Valid()
      requires Accepts(v) && PtrFrame(v) in owner ==> !owner[PtrFrame(v)].Free?
      modifies this`mem, this`freelist, this`free, this`owner
      ensures Valid()
      ensures !r.Fail?
      ensures r.Ok? <==> Accepts(v)
      ensures r.Panic? ==> mem == old(mem) && free == old(free) && owner == old(owner)
      ensures r.Ok? ==>
                && free == [PtrFrame(v)] + old(free)
                && owner == old(owner)[PtrFrame(v) := Free]
                && (forall g | 0 <= g < PAGES && g != PtrFrame(v) :: mem[g] == old(mem[g]))
                && Junked(mem[PtrFrame(v)])
    {
      hide Chain, FreeExactly, Junked;
      if v % PGSIZE != 0 || v < kheapStart || V2P(v) >= kheapEnd {
        return Panic("kfree");
      }
      var f := PtrFrame(v);
      assert Ptr(f) == v;
      mem := mem[f := Filled(JUNK)];
      mem := mem[f := mem[f][0 := freelist]];
      freelist := v;
      free := [f] + free;
      owner := owner[f := Free];
      JunkBytes(mem[f]);
      PushFree(old(free), old(owner), f);
      PushChain(old(mem), mem, old(freelist), old(free), sentinel, f);
      return Ok;
    }

    /** Takes the most recently freed frame, or returns 0 when none is left. */
    method Kalloc() returns (v: Word)
      requires Valid()
      modifies this`freelist, this`free, this`owner
      ensures Valid()
      ensures v == 0 <==> old(free) == []
      ensures v == 0 ==> free == [] && owner == old(owner) && freelist == old(freelist)
      ensures v != 0 ==>
                && v == Ptr(old(free)[0]) && PtrFrame(v) == old(free)[0]
                && free == old(free)[1..]
                && old(free)[0] in old(owner) && old(owner)[old(free)[0]].Free?
                && owner == old(owner)[old(free)[0] := Held]
                && old(free)[0] !in free
    {
      hide Chain, FreeExactly;
      HeadOf(mem, freelist, sentinel, free, owner, kheapStart, kheapEnd);
      var p := freelist;
      if p == sentinel {
        return 0;
      }
      var f := PtrFrame(p);
      freelist := mem[f][0];
      free := free[1..];
      owner := owner[f := Held];
      PopChain(mem, old(freelist), sentinel, old(free));
      PopFree(old(free), old(owner));
      return p;
    }

    /** A word written through a kernel pointer into a frame that is not free. */
    method Store(f: nat, i: nat, w: Word)
      requires Valid() && f < PAGES && i < ENTRIES
      requires f in owner ==> !owner[f].Free?
      modifies this`mem
      ensures Valid() && Poked(old(mem), mem, f, i, w)
      ensures OnlyFrame(old(mem), mem, f) && mem[f] == old(mem[f])[i := w]
    {
      mem := mem[f := mem[f][i := w]];
    }

    /** memset(v, 0, PGSIZE) on a frame that is not free. */
    method Clear(f: nat)
      requires Valid() && f < PAGES
      requires f in owner ==> !owner[f].Free?
      modifies this`mem
      ensures Valid() && OnlyFrame(old(mem), mem, f) && mem[f] == Filled(0)
    {
      mem := mem[f := Filled(0)];
    }

    /** Frees every page lying wholly inside [vstart, vend), in ascending order. */
    method Freerange(vstart: Word, vend: Word) returns (r: Status)
      requires Valid() && kheapStart <= vstart < 0xFFFF_F000
      requires vend < 0xFFFF_F000
      requires forall f | FirstPage(vstart) <= f < EndPage(vend) :: f !in owner
      modifies this`mem, this`freelist, this`free, this`owner
      ensures Valid()
      ensures !r.Fail?
      ensures r.Ok? <==> FirstPage(vstart) >= EndPage(vend) || (EndPage(vend) - 1) * PGSIZE < kheapEnd
      ensures r.Ok? ==>
                && free == Descending(FirstPage(vstart), EndPage(vend)) + old(free)
                && owner == Donated(old(owner), FirstPage(vstart), EndPage(vend))
      ensures SameOutside(old(mem), mem, FirstPage(vstart), EndPage(vend))
    {
      hide Chain, FreeExactly, Descending, Donated, FirstPage, EndPage, PtrFrame, PgRoundUp, SameOutside, Accepts,
        V2P;
      AlignUp(vstart);
      DonateNone(owner, free, FirstPage(vstart), FirstPage(vstart));
      DonateNone(owner, free, FirstPage(vstart), EndPage(vend));
      var p := PgRoundUp(vstart);
      ghost var lo: nat, hi: nat := FirstPage(vstart), EndPage(vend);
      ghost var k: nat := lo;
      PageInside(k, vend);
      SameOutsideStart(mem, lo, lo);
      SameOutsideStart(mem, lo, hi);
      while p + PGSIZE <= vend
        invariant Valid()
        invariant k < UPAGES && p == Ptr(k)
        invariant if lo < hi then lo <= k <= hi else k == lo
        invariant free == Descending(lo, k) + old(free)
        invariant owner == Donated(old(owner), lo, k)
        invariant SameOutside(old(mem), mem, lo, k)
        invariant p + PGSIZE <= vend <==> k < hi
        invariant PtrFrame(p) == k
        invariant lo < k ==> (k - 1) * PGSIZE < kheapEnd
        decreases vend - p
      {
        DonateStep(old(owner), old(free), lo, k);
        ghost var m := mem;
        AcceptsPage(k);
        r := Kfree(p);
        AcceptsPage(k);
        if r.Panic? {
          SameOutsideMore(old(mem), mem, lo, k, hi);
          return;
        }
        SameOutsideStep(old(mem), m, mem, lo, k);
        p := p + PGSIZE;
        k := k + 1;
        PageInside(k, vend);
      }
      SameOutsideMore(old(mem), mem, lo, k, hi);
      return Ok;
    }

    lemma AcceptsPage(k: nat)
      requires k < UPAGES && Ptr(k) >= kheapStart
      ensures Accepts(Ptr(k)) <==> k * PGSIZE < kheapEnd
    {
    }

    /** First phase: an empty list, then the pages the boot directory maps. */
    method Kinit1(vstart: Word, vend: Word) returns (r: Status)
      requires KERNBASE <= sentinel < vstart < 0xFFFF_F000 && vend < 0xFFFF_F000
      modifies this
      ensures Valid() && kheapStart == vstart && kheapEnd == old(kheapEnd)
      ensures !r.Fail?
      ensures r.Ok? <==> FirstPage(vstart) >= EndPage(vend) || (EndPage(vend) - 1) * PGSIZE < kheapEnd
      ensures r.Ok? ==>
                && free == Descending(FirstPage(vstart), EndPage(vend))
                && owner == Donated(map[], FirstPage(vstart), EndPage(vend))
    {
      hide Descending, Donated, FirstPage, EndPage, Chain, FreeExactly;
      EmptyChain(mem, sentinel);
      kheapStart := vstart;
      freelist := sentinel;
      free, owner := [], map[];
      r := Freerange(vstart, vend);
      assert Descending(FirstPage(vstart), EndPage(vend)) + [] == Descending(FirstPage(vstart), EndPage(vend));
    }

    /**
      Second phase: the rest of RAM. kheap_end becomes the *virtual* address vend while
      kfree compares a physical address with it, so from here on kfree rejects only
      unaligned addresses and addresses below the heap.
     */
    method Kinit2(vstart: Word, vend: Word) returns (r: Status)
      requires Valid() && kheapStart <= vstart < 0xFFFF_F000 && KERNBASE <= vend < 0xFFFF_F000
      requires forall f | FirstPage(vstart) <= f < EndPage(vend) :: f !in owner
      modifies this`mem, this`freelist, this`free, this`owner, this`kheapEnd
      ensures Valid() && r.Ok?
      ensures forall v: Word :: Accepts(v) <==> v % PGSIZE == 0 && v >= kheapStart
      ensures free == Descending(FirstPage(vstart), EndPage(vend)) + old(free)
      ensures owner == Donated(old(owner), FirstPage(vstart), EndPage(vend))
      ensures SameOutside(old(mem), mem, FirstPage(vstart), EndPage(vend))
    {
      hide Descending, Donated, Chain, FreeExactly;
      kheapEnd := vend;
      assert forall f | f in owner :: InHeap(f, kheapStart, kheapEnd);
      r := Freerange(vstart, vend);
    }

    /** p->next; the sentinel is the address of kmem.freelist, so its "next" is the list head. */
    function Next(p: Word): (q: Word)
      requires p >= KERNBASE
      reads this
    {
      if p == sentinel then freelist else mem[PtrFrame(p)][0]
    }

    /** The count dump_freelist prints: one less than the frames on a non-empty list. */
    method DumpFreelist() returns (nframes: nat)
      requires Valid()
      ensures nframes == if |free| == 0 then 0 else |free| - 1
    {
      hide Chain, FreeExactly;
      var p := freelist;
      nframes := 0;
      HeadOf(mem, freelist, sentinel, free, owner, kheapStart, kheapEnd);
      while Next(p) != sentinel
        invariant free == [] ==> p == sentinel && nframes == 0
        invariant free != [] ==> nframes < |free| && p == Ptr(free[nframes])
        invariant p >= KERNBASE
        decreases |free| - nframes
      {
        LinkAt(mem, freelist, sentinel, free, owner, kheapStart, kheapEnd, nframes);
        p := Next(p);
        nframes := nframes + 1;
      }
      if free != [] {
        LinkAt(mem, freelist, sentinel, free, owner, kheapStart, kheapEnd, nframes);
      }
    }
  }

  lemma EmptyChain(m: Memory, sentinel: Word)
    ensures Chain(m, sentinel, sentinel, []) && FreeExactly([], map[])
  {
  }

  lemma DonateNone(owner: map<nat, Owner>, free: seq<nat>, lo: nat, hi: nat)
    ensures lo >= hi ==> Donated(owner, lo, hi) == owner && Descending(lo, hi) + free == free
  {
  }

  lemma DonateStep(owner: map<nat, Owner>, free: seq<nat>, lo: nat, k: nat)
    requires lo <= k
    ensures Donated(owner, lo, k + 1) == Donated(owner, lo, k)[k := Free]
    ensures Descending(lo, k + 1) + free == [k] + (Descending(lo, k) + free)
  {
  }

  lemma SameOutsideStart(m: Memory, lo: nat, hi: nat)
    ensures SameOutside(m, m, lo, hi)
  {
  }

  lemma SameOutsideStep(m0: Memory, m: Memory, m': Memory, lo: nat, k: nat)
    requires lo <= k && SameOutside(m0, m, lo, k) && (forall g | 0 <= g < PAGES && g != k :: m'[g] == m[g])
    ensures SameOutside(m0, m', lo, k + 1)
  {
  }

  lemma SameOutsideMore(m0: Memory, m: Memory, lo: nat, k: nat, hi: nat)
    requires SameOutside(m0, m, lo, k) && (k <= lo || k <= hi)
    ensures SameOutside(m0, m, lo, hi)
  {
  }

  lemma PageInside(k: nat, v: Word)
    requires k < UPAGES && v < 0xFFFF_F000
    ensures Ptr(k) + PGSIZE <= v <==> k < EndPage(v)
    ensures k < EndPage(v) ==> k + 1 < UPAGES
    ensures PtrFrame(Ptr(k)) == k && V2P(Ptr(k)) == k * PGSIZE && Ptr(k) % PGSIZE == 0
  {
  }

  lemma AlignUp(v: Word)
    requires KERNBASE < v < 0xFFFF_F000
    ensures FirstPage(v) < UPAGES && v <= PgRoundUp(v)
    ensures PgRoundUp(v) == KERNBASE + FirstPage(v) * PGSIZE
  {
  }

  /** Following the link of element i leaves the list exactly at its last element. */
  lemma LinkAt(m: Memory, head: Word, sentinel: Word, s: seq<nat>, owner: map<nat, Owner>, start: Word, end: Word,
               i: nat)
    requires Chain(m, head, sentinel, s) && FreeExactly(s, owner) && i < |s|
    requires KERNBASE <= sentinel < start
    requires forall f | f in owner :: InHeap(f, start, end)
    ensures PtrFrame(Ptr(s[i])) == s[i] && Ptr(s[i]) != sentinel
    ensures m[s[i]][0] == Link(s, i + 1, sentinel)
    ensures m[s[i]][0] == sentinel <==> i == |s| - 1
  {
    assert InHeap(s[i], start, end);
    if i + 1 < |s| {
      assert InHeap(s[i + 1], start, end);
    }
  }

  /** The head pointer tells an empty list from a non-empty one. */
  lemma HeadOf(m: Memory, head: Word, sentinel: Word, s: seq<nat>, owner: map<nat, Owner>, start: Word, end: Word)
    requires Chain(m, head, sentinel, s) && FreeExactly(s, owner)
    requires KERNBASE <= sentinel < start
    requires forall f | f in owner :: InHeap(f, start, end)
    ensures Frames(s)
    ensures head == sentinel <==> s == []
    ensures s != [] ==>
              && s[0] < UPAGES && head == Ptr(s[0]) && PtrFrame(head) == s[0]
              && s[0] in owner && owner[s[0]].Free? && s[0] !in s[1..]
  {
    if s != [] {
      assert Link(s, 0, sentinel) == Ptr(s[0]);
      assert InHeap(s[0], start, end);
    }
  }

  lemma PushChain(m: Memory, m': Memory, head: Word, s: seq<nat>, sentinel: Word, f: nat)
    requires Chain(m, head, sentinel, s)
    requires f < UPAGES && f !in s
    requires m'[f][0] == head
    requires forall g | 0 <= g < PAGES && g != f :: m'[g] == m[g]
    ensures Chain(m', Ptr(f), sentinel, [f] + s)
  {
    var s' := [f] + s;
    assert Frames(s');
    forall i | 0 <= i < |s'| ensures m'[s'[i]][0] == Link(s', i + 1, sentinel) {
      if i > 0 {
        assert s'[i] == s[i - 1];
      }
    }
  }

  lemma PopChain(m: Memory, head: Word, sentinel: Word, s: seq<nat>)
    requires Chain(m, head, sentinel, s) && s != []
    ensures Chain(m, m[s[0]][0], sentinel, s[1..])
  {
    var s' := s[1..];
    forall i | 0 <= i < |s'| ensures s'[i] == s[i + 1] && s'[i] < UPAGES {
    }
    assert Frames(s');
    forall i: nat | i <= |s'| ensures Link(s', i, sentinel) == Link(s, i + 1, sentinel) {
    }
    forall i | 0 <= i < |s'| ensures m[s'[i]][0] == Link(s', i + 1, sentinel) {
      assert m[s[i + 1]][0] == Link(s, i + 2, sentinel);
    }
  }

  /** Memory after the stores of kfree on the frame of element i, which is on the list already. */
  ghost predicate FreedAgain(m: Memory, m': Memory, head: Word, sentinel: Word, s: seq<nat>, i: nat) {
    && Chain(m, head, sentinel, s) && i < |s| && m'[s[i]][0] == head
    && (forall g | 0 <= g < PAGES && g != s[i] :: m'[g] == m[g])
    && (forall k | 0 <= k <= i :: sentinel != Ptr(s[k]))
  }

  /**
    Why the frame given to kfree may not be on the list already: the stores would close a cycle,
    and no list at all, of whatever length, would end at the sentinel.
   */
  lemma DoubleFree(m: Memory, m': Memory, head: Word, sentinel: Word, s: seq<nat>, i: nat, s': seq<nat>)
    requires FreedAgain(m, m', head, sentinel, s, i)
    ensures !Chain(m', Ptr(s[i]), sentinel, s')
  {
    if Chain(m', Ptr(s[i]), sentinel, s') {
      var k := CycleAt(m, m', head, sentinel, s, i, s', |s'| - 1);
      k := CycleNext(m, m', head, sentinel, s, i, k);
      assert false;
    }
  }

  /** From each of the first i + 1 elements the link leads to one of them. */
  lemma CycleNext(m: Memory, m': Memory, head: Word, sentinel: Word, s: seq<nat>, i: nat, k: nat) returns (n: nat)
    requires FreedAgain(m, m', head, sentinel, s, i) && k <= i
    ensures n <= i && m'[s[k]][0] == Ptr(s[n]) != sentinel
  {
    assert m[s[k]][0] == Link(s, k + 1, sentinel);
    n := if s[k] == s[i] then 0 else k + 1;
  }

  lemma {:induction false} CycleAt(m: Memory, m': Memory, head: Word, sentinel: Word, s: seq<nat>, i: nat,
                                   s': seq<nat>, n: nat)
    returns (k: nat)
    requires i < |s| && s[i] < UPAGES && FreedAgain(m, m', head, sentinel, s, i)
    requires Chain(m', Ptr(s[i]), sentinel, s') && n < |s'|
    ensures k <= i && s'[n] == s[k]
  {
    hide Chain, FreedAgain;
    if n == 0 {
      ChainAt(m', Ptr(s[i]), sentinel, s', 0);
      k := i;
    } else {
      k := CycleAt(m, m', head, sentinel, s, i, s', n - 1);
      k := CycleNext(m, m', head, sentinel, s, i, k);
      ChainAt(m', Ptr(s[i]), sentinel, s', n - 1);
    }
  }

  lemma ChainAt(m: Memory, head: Word, sentinel: Word, s: seq<nat>, n: nat)
    requires Chain(m, head, sentinel, s) && n < |s|
    ensures s[0] < UPAGES && head == Ptr(s[0])
    ensures n + 1 < |s| ==> s[n] < UPAGES && s[n + 1] < UPAGES && m[s[n]][0] == Ptr(s[n + 1])
  {
    assert m[s[n]][0] == Link(s, n + 1, sentinel);
  }

  lemma PushFree(s: seq<nat>, owner: map<nat, Owner>, f: nat)
    requires FreeExactly(s, owner) && (f in owner ==> !owner[f].Free?)
    ensures f !in s && FreeExactly([f] + s, owner[f := Free])
  {
    var s' := [f] + s;
    forall g | g in owner[f := Free] && owner[f := Free][g].Free? ensures g in s' {
      assert g == f || g in s;
    }
  }

  lemma PopFree(s: seq<nat>, owner: map<nat, Owner>)
    requires FreeExactly(s, owner) && s != []
    ensures FreeExactly(s[1..], owner[s[0] := Held])
  {
    var s' := s[1..];
    forall f | f in owner && f != s[0] && owner[f].Free? ensures f in s' {
      var k :| 0 <= k < |s| && s[k] == f;
      assert s'[k - 1] == f;
    }
  }
}
