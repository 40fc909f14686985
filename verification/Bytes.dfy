/** Little-endian bytes of the words of a frame. */
module Bytes {
  import opened Layout

  type Byte = b: int | 0 <= b < 256

  /** Byte k of a word, the lowest first. */
  function ByteOf(w: nat, k: nat): (b: Byte) {
    if k == 0 then w % 256 else ByteOf(w / 256, k - 1)
  }

  function Pack(b0: Byte, b1: Byte, b2: Byte, b3: Byte): (w: Word)
    ensures ByteOf(w, 0) == b0 && ByteOf(w, 1) == b1 && ByteOf(w, 2) == b2 && ByteOf(w, 3) == b3
    ensures w == b0 + 0x100 * b1 + 0x1_0000 * b2 + 0x100_0000 * b3
  {
    var w2 := b2 + 256 * b3;
    var w1 := b1 + 256 * w2;
    var w0 := b0 + 256 * w1;
    assert w0 / 256 == w1 && w1 / 256 == w2 && w2 / 256 == b3;
    assert ByteOf(w2, 1) == b3 && ByteOf(w2, 0) == b2;
    assert ByteOf(w1, 2) == b3 && ByteOf(w1, 1) == b2 && ByteOf(w1, 0) == b1;
    w0
  }

  function SetByte(w: Word, k: nat, b: Byte): (r: Word) {
    Pack(if k == 0 then b else ByteOf(w, 0), if k == 1 then b else ByteOf(w, 1),
         if k == 2 then b else ByteOf(w, 2), if k == 3 then b else ByteOf(w, 3))
  }

  lemma SetByteOf(w: Word, k: nat, b: Byte, j: nat)
    requires k < 4 && j < 4
    ensures ByteOf(SetByte(w, k, b), j) == if j == k then b else ByteOf(w, j)
  {
    hide ByteOf;
    assert j == 0 || j == 1 || j == 2 || j == 3;
  }

  /** Byte i of a frame of 1024 words. */
  function ByteAt(f: seq<Word>, i: nat): (b: Byte)
    requires |f| == 1024 && i < PGSIZE
  {
    ByteOf(f[i / 4], i % 4)
  }

  /** Storing a byte changes that byte of the frame and no other. */
  lemma SetByteAt(f: seq<Word>, i: nat, b: Byte, j: nat)
    requires |f| == 1024 && i < PGSIZE && j < PGSIZE
    ensures ByteAt(f[i / 4 := SetByte(f[i / 4], i % 4, b)], j) == if j == i then b else ByteAt(f, j)
  {
    hide ByteOf, SetByte;
    SetByteOf(f[i / 4], i % 4, b, j % 4);
  }
}
