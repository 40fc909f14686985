/** Byte copying of kernel/lib/string.c. Memory is one array; pointers are indices into it. */
module StringLib {
  import opened Layout
  import opened Bytes

  /** Memory with count bytes from src copied to dst, as if through a buffer. */
  function Copied(m: seq<Byte>, dst: nat, src: nat, count: nat): (r: seq<Byte>)
    requires dst + count <= |m| && src + count <= |m|
    ensures |r| == |m|
    ensures forall k | 0 <= k < |m| :: r[k] == if dst <= k < dst + count then m[src + (k - dst)] else m[k]
  {
    m[..dst] + m[src..src + count] + m[dst + count..]
  }

  /** Memory with count bytes at dst set to c. */
  function Filled(m: seq<Byte>, dst: nat, c: Byte, count: nat): (r: seq<Byte>)
    requires dst + count <= |m|
    ensures |r| == |m|
    ensures forall k | 0 <= k < |m| :: r[k] == if dst <= k < dst + count then c else m[k]
  {
    m[..dst] + seq(count, _ => c) + m[dst + count..]
  }

  lemma FilledStart(m: seq<Byte>, at: nat, n: nat)
    requires at + n <= |m| && at < |m|
    ensures m[at := 0] == Filled(m, at, 0, 1)
    ensures n > 0 ==> Filled(m, at, 0, n)[at := 0] == Filled(m, at, 0, n)
  {
  }

  method Memset(m: array<Byte>, dst: nat, c: Byte, count: nat)
    requires dst + count <= m.Length
    modifies m
    ensures m[..] == Filled(old(m[..]), dst, c, count)
    ensures forall k | 0 <= k < m.Length :: m[k] == if dst <= k < dst + count then c else old(m[k])
  {
    var n, d := count, dst;
    while n > 0
      invariant d == dst + count - n && 0 <= n <= count
      invariant forall k | 0 <= k < m.Length :: m[k] == if dst <= k < d then c else old(m[k])
    {
      n := n - 1;
      m[d] := c;
      d := d + 1;
    }
  }

  /** The ascending copy. It is exact unless dst lies strictly inside the source. */
  method Memcpy(m: array<Byte>, dst: nat, src: nat, count: nat)
    requires dst + count <= m.Length && src + count <= m.Length && !(src < dst < src + count)
    modifies m
    ensures m[..] == Copied(old(m[..]), dst, src, count)
  {
    hide Copied;
    ghost var m0 := m[..];
    CopyNone(m0, dst, src);
    var n, d, s := count, dst, src;
    while n > 0
      invariant d == dst + count - n && s == src + count - n && 0 <= n <= count
      invariant m[..] == Copied(m0, dst, src, count - n)
    {
      CopyUp(m0, dst, src, count - n);
      n := n - 1;
      m[d] := m[s];
      d := d + 1;
      s := s + 1;
    }
  }

  lemma CopyNone(m: seq<Byte>, dst: nat, src: nat)
    requires dst <= |m| && src <= |m|
    ensures Copied(m, dst, src, 0) == m
  {
  }

  lemma CopyUp(m: seq<Byte>, dst: nat, src: nat, k: nat)
    requires dst + k < |m| && src + k < |m|
    ensures Copied(m, dst, src, k + 1) == Copied(m, dst, src, k)[dst + k := m[src + k]]
    ensures !(src < dst <= src + k) ==> Copied(m, dst, src, k)[src + k] == m[src + k]
  {
  }

  /** One more byte at the low end of a copy made from the top. */
  lemma CopyLower(m: seq<Byte>, dst: nat, src: nat, k: nat)
    requires dst + 1 + k <= |m| && src + 1 + k <= |m|
    ensures Copied(m, dst, src, k + 1) == Copied(m, dst + 1, src + 1, k)[dst := m[src]]
    ensures src <= dst ==> Copied(m, dst + 1, src + 1, k)[src] == m[src]
  {
  }

  /** The descending copy, over indices first + count - 1 down to first. */
  method CopyDown(m: array<Byte>, dst: nat, src: nat, count: nat, first: nat)
    requires src <= dst && dst + first + count <= m.Length
    modifies m
    ensures m[..] == Copied(old(m[..]), dst + first, src + first, count)
  {
    hide Copied;
    ghost var m0 := m[..];
    CopyNone(m0, dst + first + count, src + first + count);
    var n, d, s := count, dst + first + count - 1, src + first + count - 1;
    while n > 0
      invariant d == dst + first + n - 1 && s == src + first + n - 1 && 0 <= n <= count
      invariant m[..] == Copied(m0, dst + first + n, src + first + n, count - n)
    {
      CopyLower(m0, d, s, count - n);
      n := n - 1;
      m[d] := m[s];
      d := d - 1;
      s := s - 1;
    }
  }

  /** The unsigned test that sends memmove to the ascending copy. */
  predicate Ascends(dst: Word, src: Word, count: nat) {
    Wrap(dst - src) >= count
  }

  /** It sends every dst that is not inside [src, src + count) there. */
  lemma AscendsMeans(dst: Word, src: Word, count: nat)
    requires dst + count <= WORDS && src + count <= WORDS
    ensures Ascends(dst, src, count) <==> !(src <= dst < src + count)
  {
  }

  /** The bytes memmove touches exist: both regions, and one more behind each when the copy descends. */
  predicate MayMove(n: nat, dst: Word, src: Word, count: nat) {
    && dst + count <= n <= WORDS && src + count <= n
    && (!Ascends(dst, src, count) ==> dst + count < n && src + count < n)
  }

  /** What memmove does as written: the descending loop starts and ends one index too high. */
  function Moved(m: seq<Byte>, dst: Word, src: Word, count: nat): (r: seq<Byte>)
    requires MayMove(|m|, dst, src, count)
    ensures |r| == |m|
  {
    if Ascends(dst, src, count) then Copied(m, dst, src, count) else Copied(m, dst + 1, src + 1, count)
  }

  method Memmove(m: array<Byte>, dst: Word, src: Word, count: nat)
    requires MayMove(m.Length, dst, src, count)
    modifies m
    ensures m[..] == Moved(old(m[..]), dst, src, count)
  {
    AscendsMeans(dst, src, count);
    if Wrap(dst - src) >= count {
      Memcpy(m, dst, src, count);
    } else {
      CopyDown(m, dst, src, count, 1);
    }
  }

  /** With the index range count - 1 .. 0 the same loop is a copy through a buffer. */
  method CopyDownFromLast(m: array<Byte>, dst: nat, src: nat, count: nat)
    requires src <= dst && dst + count <= m.Length
    modifies m
    ensures m[..] == Copied(old(m[..]), dst, src, count)
  {
    CopyDown(m, dst, src, count, 0);
  }

  /**
    memmove copies as if through a buffer, whatever memory holds, exactly when dst is outside
    the source or equal to its start.
   */
  lemma MemmoveExact(n: nat, dst: Word, src: Word, count: nat)
    requires MayMove(n, dst, src, count)
    ensures (forall m: seq<Byte> | |m| == n :: Moved(m, dst, src, count) == Copied(m, dst, src, count))
            <==> Ascends(dst, src, count) || dst == src
  {
    if dst == src && !Ascends(dst, src, count) {
      forall m: seq<Byte> | |m| == n ensures Moved(m, dst, src, count) == Copied(m, dst, src, count) {
        CopySelf(m, dst, count);
        CopySelf(m, dst + 1, count);
      }
    } else if !Ascends(dst, src, count) {
      hide Copied;
      AscendsMeans(dst, src, count);
      MoveMisses(Probe(n, src), dst, src, count);
    }
  }

  lemma CopySelf(m: seq<Byte>, at: nat, count: nat)
    requires at + count <= |m|
    ensures Copied(m, at, at, count) == m
  {
  }

  /** Memory that is 1 at one place only. */
  function Probe(n: nat, at: nat): (m: seq<Byte>) {
    seq(n, i => if i == at then 1 else 0)
  }

  /** The first byte of the destination is never written. */
  lemma MoveMisses(m: seq<Byte>, dst: Word, src: Word, count: nat)
    requires MayMove(|m|, dst, src, count) && count > 0 && m[src] != m[dst]
    ensures !Ascends(dst, src, count) ==> Moved(m, dst, src, count)[dst] != Copied(m, dst, src, count)[dst]
  {
    assert Copied(m, dst, src, count)[dst] == m[src];
    if !Ascends(dst, src, count) {
      assert Copied(m, dst + 1, src + 1, count)[dst] == m[dst];
    }
  }

  /** The family that fails: dst inside the source and different bytes at the two starts, e.g. moving "ab" up by one. */
  lemma MemmoveFails()
    ensures Moved([97, 98, 0, 0], 1, 0, 2) == [97, 98, 98, 0] && Copied([97, 98, 0, 0], 1, 0, 2) == [97, 97, 98, 0]
  {
    var m: seq<Byte> := [97, 98, 0, 0];
    assert m[..1] == [97] && m[..2] == m[0..2] == [97, 98] && m[1..3] == [98, 0] && m[3..] == [0] && m[4..] == [];
  }

  /** char is signed. */
  function Signed(b: Byte): (c: int)
    ensures -128 <= c < 128 && (c - b) % 256 == 0
  {
    if b < 128 then b else b - 256
  }

  ghost predicate FirstDifference(a: seq<Byte>, b: seq<Byte>, count: nat, k: nat) {
    k < count && k < |a| && k < |b| && a[k] != b[k] && a[..k] == b[..k]
  }

  /** r compares the first count bytes: 0 for equal ones, else the signed difference at the first unequal byte. */
  ghost predicate Compares(a: seq<Byte>, b: seq<Byte>, count: nat, r: int)
    requires count <= |a| && count <= |b|
  {
    && (r == 0 <==> a[..count] == b[..count])
    && (r != 0 ==> exists k: nat :: FirstDifference(a, b, count, k) && r == Signed(a[k]) - Signed(b[k]))
  }

  method Memcmp(a: seq<Byte>, b: seq<Byte>, count: nat) returns (r: int)
    requires count <= |a| && count <= |b|
    ensures Compares(a, b, count, r)
  {
    var i := 0;
    while i < count
      invariant 0 <= i <= count && a[..i] == b[..i]
    {
      if a[i] != b[i] {
        assert FirstDifference(a, b, count, i);
        assert a[..count][i] != b[..count][i];
        return Signed(a[i]) - Signed(b[i]);
      }
      i := i + 1;
    }
    return 0;
  }

  /** The sign of memcmp is the documented unsigned one exactly when the two bytes are on the same side of 128. */
  lemma MemcmpSign(a: seq<Byte>, b: seq<Byte>, count: nat, r: int, k: nat)
    requires count <= |a| && count <= |b| && Compares(a, b, count, r) && FirstDifference(a, b, count, k)
    ensures r != 0 && ((r < 0 <==> a[k] < b[k]) <==> (a[k] < 128 <==> b[k] < 128))
  {
    assert a[..count][k] != b[..count][k];
    var j: nat :| FirstDifference(a, b, count, j) && r == Signed(a[j]) - Signed(b[j]);
    FirstMeans(a, b, count, j);
    FirstMeans(a, b, count, k);
  }

  lemma FirstMeans(a: seq<Byte>, b: seq<Byte>, count: nat, k: nat)
    requires FirstDifference(a, b, count, k)
    ensures forall j | 0 <= j < k :: a[j] == b[j]
  {
    forall j | 0 <= j < k ensures a[j] == b[j] {
      assert a[..k][j] == b[..k][j];
    }
  }

  /** Comparing 0x80 with 0x01 gives a negative result. */
  lemma MemcmpFails(r: int)
    requires Compares([0x80], [0x01], 1, r)
    ensures r < 0
  {
    var a: seq<Byte>, b: seq<Byte> := [0x80], [0x01];
    assert a[..0] == b[..0] && FirstDifference(a, b, 1, 0);
    MemcmpSign(a, b, 1, r, 0);
  }

  /** How many bytes of the string at src come before its nul, at most count. */
  ghost predicate IsLength(m: seq<Byte>, src: nat, count: nat, len: nat)
    requires src + count < |m|
  {
    len <= count && (forall a | src <= a < src + len :: m[a] != 0) && (len < count ==> m[src + len] == 0)
  }

  /** Length of the string at src, at most count. The byte at src + count is read as well. */
  method Strnlen(m: array<Byte>, src: nat, count: nat) returns (len: nat)
    requires src + count < m.Length
    ensures IsLength(m[..], src, count, len)
  {
    var c := count;
    len := 0;
    while m[src + len] != 0 && c > 0
      invariant 0 <= c <= count && len == count - c
      invariant forall a | src <= a < src + len :: m[a] != 0
      decreases c
    {
      len := len + 1;
      c := c - 1;
    }
  }

  /**
    Copies a string of at most count characters and always terminates it, so a full one takes
    count + 1 bytes; a shorter one is padded with nuls to count bytes.
   */
  method Strncpy(m: array<Byte>, dst: nat, src: nat, count: nat) returns (ghost len: nat)
    requires dst + count < m.Length && src + count < m.Length
    requires dst + count < src || src + count < dst
    modifies m
    ensures IsLength(old(m[..]), src, count, len)
    ensures m[..] == Copied(Filled(old(m[..]), dst + len, 0, if len == count then 1 else count - len), dst, src, len)
  {
    hide Filled, Copied;
    var size := Strnlen(m, src, count);
    len := size;
    ghost var m0 := m[..];
    if size != count {
      Memset(m, dst + size, 0, count - size);
    }
    FilledStart(m0, dst + size, count - size);
    ghost var m1 := m[..];
    m[dst + size] := 0;
    assert m[..] == m1[dst + size := 0];
    Memcpy(m, dst, src, size);
  }
}
