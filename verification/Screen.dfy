/**
  The text console of kernel/drivers/screen.c: a 25x80 window of character cells that scrolls,
  refining a terminal whose log of lines only ever grows.
 */
module Screen {
  import opened Layout
  import opened Bytes

  const MAX_ROWS := 25
  const MAX_COLS := 80
  /** A row of the screen: a character and an attribute byte for each column. */
  const ROW := 160
  const SIZE := 4000
  const NEWLINE: Byte := 10
  const WHITE_ON_BLACK: Byte := 7

  type Row = r: seq<Byte> | |r| == 160 witness seq(160, _ => 0)

  function Blank(): (r: Row) {
    seq(160, _ => 0)
  }

  /** Everything ever written, line by line, and where the next character goes. */
  datatype Log = Log(rows: seq<Row>, row: nat, col: nat)

  predicate ValidLog(l: Log) {
    |l.rows| >= MAX_ROWS && |l.rows| - MAX_ROWS <= l.row < |l.rows| && l.col < MAX_COLS
  }

  /** The start of the next line, which is added to the log if it is not there yet. */
  function NewLine(l: Log): (r: Log) {
    Log(if l.row + 1 < |l.rows| then l.rows else l.rows + [Blank()], l.row + 1, 0)
  }

  /** Writes one character: a newline ends the line, and so does the last column. */
  function Write(l: Log, ch: Byte, attr: Byte): (r: Log)
    requires ValidLog(l)
    ensures ValidLog(r)
  {
    if ch == NEWLINE then NewLine(l)
    else
      var line := l.rows[l.row][2 * l.col := ch][2 * l.col + 1 := if attr == 0 then WHITE_ON_BLACK else attr];
      var l' := l.(rows := l.rows[l.row := line]);
      if l.col + 1 < MAX_COLS then l'.(col := l.col + 1) else NewLine(l')
  }

  function WriteAll(l: Log, text: seq<Byte>, attr: Byte): (r: Log)
    requires ValidLog(l)
    ensures ValidLog(r)
  {
    if text == [] then l else Write(WriteAll(l, text[..|text| - 1], attr), text[|text| - 1], attr)
  }

  lemma WriteAllNone(l: Log, attr: Byte)
    requires ValidLog(l)
    ensures WriteAll(l, [], attr) == l
  {
  }

  lemma WriteAllNext(l: Log, text: seq<Byte>, i: nat, attr: Byte)
    requires ValidLog(l) && i < |text|
    ensures WriteAll(l, text[..i + 1], attr) == Write(WriteAll(l, text[..i], attr), text[i], attr)
  {
    assert text[..i + 1][..i] == text[..i];
  }

  /** The log, to be continued at (col, row) of the screen unless one of them is negative. */
  function MoveTo(l: Log, col: int, row: int): (r: Log)
    requires ValidLog(l) && (col >= 0 && row >= 0 ==> col < MAX_COLS && row < MAX_ROWS)
    ensures ValidLog(r) && r.rows == l.rows
  {
    if col >= 0 && row >= 0 then l.(row := |l.rows| - MAX_ROWS + row, col := col) else l
  }

  function ScreenOffset(col: int, row: int): (o: int) {
    (row * MAX_COLS + col) * 2
  }

  class Console {
    const vidmem: array<Byte>
    /** The cursor registers 14 and 15 of the screen controller. */
    var high: Byte
    var low: Byte

    constructor ()
      ensures vidmem.Length == SIZE && fresh(vidmem) && Cursor() == 0
    {
      vidmem := new Byte[SIZE](_ => 0);
      high, low := 0, 0;
    }

    function Cursor(): (o: nat)
      reads this
    {
      (high * 256 + low) * 2
    }

    /** The screen shows the last 25 lines of the log, with the cursor where the log goes on. */
    ghost predicate Shows(l: Log)
      reads this, vidmem
    {
      && ValidLog(l) && vidmem.Length == SIZE
      && Cursor() == (l.row - (|l.rows| - MAX_ROWS)) * ROW + 2 * l.col
      && ShowsRows(vidmem[..], l.rows)
    }

    method GetCursor() returns (offset: nat)
      ensures offset == Cursor() == 2 * (256 * high + low)
    {
      offset := high * 256;
      offset := offset + low;
      return offset * 2;
    }

    method SetCursor(offset: nat)
      requires offset < 2 * 0x1_0000
      modifies this
      ensures Cursor() == offset / 2 * 2 && high == offset / 2 / 256 && low == offset / 2 % 256
    {
      var o := offset / 2;
      high := o / 256;
      low := o % 256;
    }

    /** memcpy inside video memory, upwards byte by byte. */
    method CopyRow(dst: nat, src: nat)
      requires dst + ROW <= src && src + ROW <= vidmem.Length
      modifies vidmem
      ensures forall k | 0 <= k < vidmem.Length ::
                vidmem[k] == if dst <= k < dst + ROW then old(vidmem[k - dst + src]) else old(vidmem[k])
    {
      for i := 0 to ROW
        invariant forall k | 0 <= k < vidmem.Length ::
                    vidmem[k] == if dst <= k < dst + i then old(vidmem[k - dst + src]) else old(vidmem[k])
      {
        vidmem[dst + i] := vidmem[src + i];
      }
    }

    /** Moves every row up by one and blanks the last when the offset is past the screen. */
    method HandleScrolling(offset: nat) returns (r: nat)
      requires vidmem.Length == SIZE
      modifies vidmem
      ensures offset < SIZE ==> r == offset && vidmem[..] == old(vidmem[..])
      ensures offset >= SIZE ==> r == offset - ROW && vidmem[..] == Scrolled(old(vidmem[..]))
    {
      if offset < MAX_ROWS * MAX_COLS * 2 {
        return offset;
      }
      var i := 1;
      while i < MAX_ROWS
        invariant 1 <= i <= MAX_ROWS
        invariant forall k | 0 <= k < SIZE ::
                    vidmem[k] == if k < (i - 1) * ROW then old(vidmem[k + ROW]) else old(vidmem[k])
      {
        CopyRow(ScreenOffset(0, i - 1), ScreenOffset(0, i));
        i := i + 1;
      }
      i := 0;
      while i < MAX_COLS * 2
        invariant 0 <= i <= ROW
        invariant forall k | 0 <= k < SIZE - ROW :: vidmem[k] == old(vidmem[k + ROW])
        invariant forall k | SIZE - ROW <= k < SIZE - ROW + i :: vidmem[k] == 0
      {
        vidmem[ScreenOffset(0, MAX_ROWS - 1) + i] := 0;
        i := i + 1;
      }
      return offset - 2 * MAX_COLS;
    }

    /** Prints a character at (col, row), or at the cursor when one of them is negative: Write on the log. */
    method PrintChar(ch: Byte, col: int, row: int, attr: Byte, ghost l: Log)
      requires Shows(l)
      requires col >= 0 && row >= 0 ==> col < MAX_COLS && row < MAX_ROWS
      modifies this, vidmem
      ensures Shows(Write(MoveTo(l, col, row), ch, attr))
      ensures var o := if col >= 0 && row >= 0 then 2 * (80 * row + col) else old(Cursor());
              CharPrinted(old(vidmem[..]), o, ch, attr, vidmem[..], Cursor())
      ensures Cursor() % 2 == 0 && Cursor() < 4000
    {
      hide ShowsRows, PutDone, Write, CharPrinted;
      var attribute: Byte := if attr == 0 then WHITE_ON_BLACK else attr;
      var offset: nat;
      if col >= 0 && row >= 0 {
        offset := ScreenOffset(col, row);
      } else {
        offset := GetCursor();
      }
      ghost var v: seq<Byte> := vidmem[..];
      EvenInside(offset, l, col, row);
      Put(ch, attribute, offset);
      PutInside(v, offset, ch, attribute, vidmem[..], Cursor());
      PutMeans(v, offset, ch, attr, vidmem[..], Cursor());
      WriteShown(v, MoveTo(l, col, row), ch, attr, offset, vidmem[..], Cursor());
    }

    /** Stores the character unless it is a newline, steps past it, scrolls and sets the cursor. */
    method Put(ch: Byte, attribute: Byte, at: nat)
      requires vidmem.Length == SIZE && at % 2 == 0 && at + 2 <= SIZE
      modifies this, vidmem
      ensures PutDone(old(vidmem[..]), at, ch, attribute, vidmem[..], Cursor())
    {
      hide Scrolled, NextOffset, ScreenOffset;
      NextCell(at, ch);
      var offset := at;
      if ch == NEWLINE {
        var rows := offset / (2 * MAX_COLS);
        offset := ScreenOffset(79, rows);
      } else {
        vidmem[offset] := ch;
        vidmem[offset + 1] := attribute;
      }
      assert vidmem[..] == Stored(old(vidmem[..]), at, ch, attribute);
      offset := offset + 2;
      offset := HandleScrolling(offset);
      SetCursor(offset);
    }

    /** Prints a text at the cursor: the screen follows the log through all of it. */
    method PrintText(text: seq<Byte>, attr: Byte, ghost l: Log)
      requires Shows(l)
      modifies this, vidmem
      ensures Shows(WriteAll(l, text, attr))
    {
      for i := 0 to |text|
        invariant Shows(WriteAll(l, text[..i], attr))
      {
        WriteAllNext(l, text, i, attr);
        PrintChar(text[i], -1, -1, attr, WriteAll(l, text[..i], attr));
      }
      assert text[..|text|] == text;
    }
  }

  /** Video memory with the character in the cell at the offset. */
  ghost function Stored(v: seq<Byte>, at: nat, ch: Byte, attribute: Byte): (w: seq<Byte>)
    requires at + 2 <= |v|
  {
    if ch == NEWLINE then v else v[at := ch][at + 1 := attribute]
  }

  /** The cell after it: the next one, or the first one of the next row. */
  function NextOffset(at: nat, ch: Byte): (n: nat) {
    if ch == NEWLINE then at / 160 * 160 + 160 else at + 2
  }

  lemma NextCell(at: nat, ch: Byte)
    requires at % 2 == 0 && at + 2 <= SIZE
    ensures NextOffset(at, ch) == (if ch == NEWLINE then ScreenOffset(79, at / (2 * MAX_COLS)) else at) + 2
    ensures NextOffset(at, ch) <= SIZE && NextOffset(at, ch) % 2 == 0
  {
    assert at / 160 <= 24;
  }

  ghost predicate PutDone(v: seq<Byte>, at: nat, ch: Byte, attribute: Byte, v': seq<Byte>, cursor: nat)
    requires |v| == SIZE && at + 2 <= SIZE
  {
    var w, n := Stored(v, at, ch, attribute), NextOffset(at, ch);
    if n < SIZE then v' == w && cursor == n else v' == Scrolled(w) && cursor == n - ROW
  }

  /**
    Byte k of the screen once the character is in its cell at o: character first, then attribute; a
    newline stores nothing.
   */
  function PrintedByte(v: seq<Byte>, o: nat, ch: Byte, attr: Byte, k: nat): (b: Byte)
    requires k < |v|
  {
    if ch != 10 && k == o then ch
    else if ch != 10 && k == o + 1 then (if attr == 0 then 7 else attr)
    else v[k]
  }

  /**
    What printing a character at byte o does to the 4000 bytes and the cursor, with no reference to
    the log: the cursor goes to the next cell, or to the next row after a newline; past the last row
    all rows move up by 160 bytes, the last one becomes 0, and the cursor is at its start.
   */
  ghost predicate CharPrinted(v: seq<Byte>, o: nat, ch: Byte, attr: Byte, v': seq<Byte>, cursor: nat) {
    && |v| == |v'| == 4000
    && var n := if ch == 10 then (o / 160 + 1) * 160 else o + 2;
       if n < 4000 then
         cursor == n && forall k | 0 <= k < 4000 :: v'[k] == PrintedByte(v, o, ch, attr, k)
       else
         && cursor == 3840
         && (forall k | 0 <= k < 3840 :: v'[k] == PrintedByte(v, o, ch, attr, k + 160))
         && (forall k | 3840 <= k < 4000 :: v'[k] == 0)
  }

  lemma PutMeans(v: seq<Byte>, o: nat, ch: Byte, attr: Byte, v': seq<Byte>, cursor: nat)
    requires |v| == SIZE && o % 2 == 0 && o + 2 <= SIZE
    requires PutDone(v, o, ch, if attr == 0 then WHITE_ON_BLACK else attr, v', cursor)
    ensures CharPrinted(v, o, ch, attr, v', cursor)
  {
    hide NextOffset;
    NextCell(o, ch);
    NextRow(o);
    var w := Stored(v, o, ch, if attr == 0 then WHITE_ON_BLACK else attr);
    assert forall k | 0 <= k < 4000 :: w[k] == PrintedByte(v, o, ch, attr, k);
  }

  lemma NextRow(o: nat)
    requires o % 2 == 0 && o + 2 <= SIZE
    ensures NextOffset(o, 10) == (o / 160 + 1) * 160 <= 4000
  {
    assert o / 160 <= 24;
  }

  lemma EvenInside(at: nat, l: Log, col: int, row: int)
    requires ValidLog(l)
    requires if col >= 0 && row >= 0 then col < MAX_COLS && row < MAX_ROWS && at == ScreenOffset(col, row)
             else at == (l.row - (|l.rows| - MAX_ROWS)) * ROW + 2 * l.col
    ensures at % 2 == 0 && at + 2 <= SIZE
  {
  }

  lemma PutInside(v: seq<Byte>, at: nat, ch: Byte, attribute: Byte, v': seq<Byte>, cursor: nat)
    requires |v| == SIZE && at % 2 == 0 && at + 2 <= SIZE && PutDone(v, at, ch, attribute, v', cursor)
    ensures cursor % 2 == 0 && cursor < SIZE
  {
    assert at / 160 <= 24;
  }

  /** One character at the cursor, on the raw bytes and on the log. */
  lemma WriteShown(v: seq<Byte>, l: Log, ch: Byte, attr: Byte, at: nat, v': seq<Byte>, cursor: nat)
    requires ValidLog(l) && ShowsRows(v, l.rows) && |v| == SIZE
    requires at == (l.row - (|l.rows| - MAX_ROWS)) * ROW + 2 * l.col && at + 2 <= SIZE
    requires PutDone(v, at, ch, if attr == 0 then WHITE_ON_BLACK else attr, v', cursor)
    ensures var l' := Write(l, ch, attr);
            ShowsRows(v', l'.rows) && cursor == (l'.row - (|l'.rows| - MAX_ROWS)) * ROW + 2 * l'.col
  {
    var attribute := if attr == 0 then WHITE_ON_BLACK else attr;
    var line := if ch == NEWLINE then l.rows[l.row] else l.rows[l.row][2 * l.col := ch][2 * l.col + 1 := attribute];
    var rows := l.rows[l.row := line];
    assert ch == NEWLINE ==> rows == l.rows;
    var w := Stored(v, at, ch, attribute);
    CellShown(v, l, at, line, w);
    assert at / 160 == l.row - (|l.rows| - MAX_ROWS);
    if l.row + 1 == |l.rows| {
      ScrollShown(w, rows);
    }
  }

  /** Changing the two bytes of a cell changes that cell of the line. */
  lemma CellShown(v: seq<Byte>, l: Log, at: nat, line: Row, w: seq<Byte>)
    requires ValidLog(l) && ShowsRows(v, l.rows) && |w| == SIZE
    requires at == (l.row - (|l.rows| - MAX_ROWS)) * ROW + 2 * l.col && at + 2 <= SIZE
    requires forall k | 0 <= k < SIZE && k != at && k != at + 1 :: w[k] == v[k]
    requires forall j | 0 <= j < 160 && j != 2 * l.col && j != 2 * l.col + 1 :: line[j] == l.rows[l.row][j]
    requires w[at] == line[2 * l.col] && w[at + 1] == line[2 * l.col + 1]
    ensures ShowsRows(w, l.rows[l.row := line])
  {
    var rows, top := l.rows[l.row := line], |l.rows| - MAX_ROWS;
    forall k | 0 <= k < SIZE ensures w[k] == rows[top + k / 160][k % 160] {
      if top + k / 160 == l.row {
        assert k == (l.row - top) * 160 + k % 160;
      }
    }
  }

  /** Scrolling the bytes is adding a blank line to the log. */
  lemma ScrollShown(v: seq<Byte>, rows: seq<Row>)
    requires |rows| >= MAX_ROWS && ShowsRows(v, rows)
    ensures ShowsRows(Scrolled(v), rows + [Blank()])
  {
    var v', rows' := Scrolled(v), rows + [Blank()];
    forall k | 0 <= k < SIZE ensures v'[k] == rows'[|rows'| - MAX_ROWS + k / 160][k % 160] {
      if k < SIZE - ROW {
        assert (k + 160) / 160 == k / 160 + 1 && (k + 160) % 160 == k % 160;
      }
    }
  }

  ghost function Scrolled(v: seq<Byte>): (r: seq<Byte>)
    requires |v| == SIZE
  {
    v[ROW..] + Blank()
  }

  ghost predicate ShowsRows(v: seq<Byte>, rows: seq<Row>)
    requires |rows| >= MAX_ROWS
  {
    |v| == SIZE && forall k | 0 <= k < SIZE :: v[k] == rows[|rows| - MAX_ROWS + k / 160][k % 160]
  }

  /** A text that fits on its line appears there from left to right, each character with its attribute. */
  lemma {:induction false} TextAppears(l: Log, text: seq<Byte>, attr: Byte)
    requires ValidLog(l) && l.col + |text| < 80 && forall i | 0 <= i < |text| :: text[i] != 10
    ensures var r := WriteAll(l, text, attr);
            && |r.rows| == |l.rows| && r.row == l.row && r.col == l.col + |text|
            && (forall i | 0 <= i < |text| ::
                  && r.rows[l.row][2 * (l.col + i)] == text[i]
                  && r.rows[l.row][2 * (l.col + i) + 1] == if attr == 0 then 7 else attr)
  {
    if text != [] {
      TextAppears(l, text[..|text| - 1], attr);
    }
  }

  /** The 25 lines on the screen, read as a log. */
  ghost function ShownLog(v: seq<Byte>, cursor: nat): (l: Log)
    requires |v| == SIZE && cursor < SIZE
    ensures ValidLog(l)
  {
    Log(seq<Row>(MAX_ROWS, i requires 0 <= i < MAX_ROWS => v[i * 160..i * 160 + 160]), cursor / 160, cursor % 160 / 2)
  }

  /** Whatever the boot loader left there: every screen with its cursor inside shows a log. */
  lemma AnyScreen(con: Console)
    requires con.vidmem.Length == SIZE && con.Cursor() < SIZE
    ensures con.Shows(ShownLog(con.vidmem[..], con.Cursor()))
  {
    var o := con.high * 256 + con.low;
    ModUnique(2 * o, 160, o / 80, 2 * (o % 80));
  }

  /** The log only grows: a finished line is never changed again. */
  lemma {:induction false} LogGrows(l: Log, text: seq<Byte>, attr: Byte)
    requires ValidLog(l)
    ensures var r := WriteAll(l, text, attr);
            l.row <= r.row && |l.rows| <= |r.rows| && forall i | 0 <= i < l.row :: r.rows[i] == l.rows[i]
  {
    if text != [] {
      LogGrows(l, text[..|text| - 1], attr);
    }
  }

  // Numbers.

  function Digit(x: nat): (c: Byte)
    requires x < 16
    ensures c == "0123456789abcdef"[x] as int
  {
    if x < 10 then 48 + x else 87 + x
  }

  function DigitValue(c: Byte): (x: nat) {
    if 48 <= c < 58 then c - 48 else if 97 <= c then c - 87 else 0
  }

  /** The numeral of x, the highest digit first. */
  function Digits(x: nat, base: nat): (s: seq<Byte>)
    requires 2 <= base <= 16
    ensures |s| > 0
  {
    if x < base then [Digit(x)] else Digits(x / base, base) + [Digit(x % base)]
  }

  /** buf's next digit, and what is left of x after it. */
  function LowDigit(x: nat, base: nat): (c: Byte)
    requires 2 <= base <= 16
  {
    Digit(x % base)
  }

  function Rest(x: nat, base: nat): (r: nat)
    requires 2 <= base <= 16
  {
    x / base
  }

  /** The number a numeral stands for. */
  function Value(s: seq<Byte>, base: nat): (x: nat) {
    if s == [] then 0 else Value(s[..|s| - 1], base) * base + DigitValue(s[|s| - 1])
  }

  /** Digits is the canonical numeral: it reads back as x and has no leading zero. */
  lemma {:induction false} DigitsValue(x: nat, base: nat)
    requires 2 <= base <= 16
    ensures Value(Digits(x, base), base) == x
    ensures x != 0 ==> Digits(x, base)[0] != Digit(0)
  {
    hide Value;
    if x < base {
      ValueSnoc([], Digit(x), base);
      assert [] + [Digit(x)] == [Digit(x)];
    } else {
      DigitsValue(x / base, base);
      ValueSnoc(Digits(x / base, base), Digit(x % base), base);
      DivMod(x, base);
    }
  }

  lemma ValueSnoc(s: seq<Byte>, c: Byte, base: nat)
    ensures Value(s + [c], base) == Value(s, base) * base + DigitValue(c)
    ensures Value([], base) == 0
  {
    assert (s + [c])[..|s|] == s;
  }

  lemma DivMod(x: nat, base: nat)
    requires base >= 2
    ensures x / base * base + x % base == x
    ensures x >= base ==> x / base > 0
  {
  }

  lemma {:induction false} DigitsLength(x: nat, base: nat, n: nat)
    requires 2 <= base <= 16 && n > 0 && x < Power(base, n)
    ensures |Digits(x, base)| <= n
  {
    hide Power;
    PowerOne(base);
    if x >= base {
      DivPower(x, base, n);
      DigitsLength(x / base, base, n - 1);
    }
  }

  function Power(b: nat, n: nat): (p: nat) {
    if n == 0 then 1 else b * Power(b, n - 1)
  }

  lemma PowerOne(base: nat)
    ensures Power(base, 1) == base
  {
    assert Power(base, 0) == 1;
  }

  lemma DivPower(x: nat, base: nat, n: nat)
    requires base >= 2 && n > 0 && x < Power(base, n)
    ensures x / base < Power(base, n - 1)
  {
    DivMod(x, base);
    MulMono(x / base, Power(base, n - 1), base);
  }

  lemma MulMono(a: nat, b: nat, c: nat)
    ensures a >= b ==> a * c >= b * c
  {
  }

  lemma NumeralFits(x: Word, base: nat)
    requires base == 10 || base == 16
    ensures |Digits(x, base)| <= 10
  {
    assert Power(10, 5) == 100000 && Power(10, 10) == 10000000000;
    assert Power(16, 4) == 0x10000 && Power(16, 8) == 0x1_0000_0000;
    DigitsLength(x, base, if base == 10 then 10 else 8);
  }

  function Reversed(s: seq<Byte>): (r: seq<Byte>)
    ensures |r| == |s|
  {
    if s == [] then [] else [s[|s| - 1]] + Reversed(s[..|s| - 1])
  }

  lemma {:induction false} ReversedAt(s: seq<Byte>, k: nat)
    requires k < |s|
    ensures Reversed(s)[k] == s[|s| - 1 - k]
  {
    if k > 0 {
      ReversedAt(s[..|s| - 1], k - 1);
    }
  }

  lemma ReversedEmpty()
    ensures Reversed([]) == []
  {
  }

  lemma ReversedSnoc(s: seq<Byte>, c: Byte)
    ensures Reversed(s + [c]) == [c] + Reversed(s)
  {
    assert (s + [c])[..|s|] == s;
  }

  lemma DigitsStep(x: nat, base: nat)
    requires 2 <= base <= 16
    ensures x >= base ==> Digits(x, base) == Digits(Rest(x, base), base) + [LowDigit(x, base)] && Rest(x, base) < x
    ensures x < base ==> Digits(x, base) == [LowDigit(x, base)]
  {
    if x < base {
      ModUnique(x, base, 0, x);
    } else {
      RestLess(x, base);
    }
  }

  lemma RestLess(x: nat, base: nat)
    requires 2 <= base <= x
    ensures x / base < x
  {
    DivMod(x, base);
    MulMono(base, 2, x / base);
  }

  const MINUS: Byte := 45

  /** What printint prints: a signed number, or the bits of xx as an unsigned one. */
  function IntText(xx: int, base: nat, sign: bool): (s: seq<Byte>)
    requires -0x8000_0000 <= xx < 0x8000_0000 && 2 <= base <= 16
  {
    if sign && xx < 0 then [MINUS] + Digits(-xx, base) else Digits(Wrap(xx), base)
  }

  /**
    What that text says: a minus sign and the number without its sign, or the number, modulo 2^32
    when it is unsigned.
   */
  lemma IntTextMeans(xx: int, base: nat, sign: bool)
    requires -0x8000_0000 <= xx < 0x8000_0000 && 2 <= base <= 16
    ensures var s := IntText(xx, base, sign);
            if sign && xx < 0 then s != [] && s[0] == '-' as int && Value(s[1..], base) == -xx
            else Value(s, base) == if xx < 0 then xx + 0x1_0000_0000 else xx
  {
    hide Value, Digits;
    if sign && xx < 0 {
      DigitsValue(-xx, base);
      assert ([MINUS] + Digits(-xx, base))[1..] == Digits(-xx, base);
    } else {
      DigitsValue(Wrap(xx), base);
    }
  }

  /** Fills buf with the digits of x, the lowest first, and a minus sign; 16 bytes are always enough. */
  method FormatInt(xx: int, base: nat, sign: bool) returns (buf: array<Byte>, i: nat)
    requires -0x8000_0000 <= xx < 0x8000_0000 && (base == 10 || base == 16)
    ensures fresh(buf) && buf.Length == 16 && i <= 16
    ensures Reversed(buf[..i]) == IntText(xx, base, sign)
  {
    hide Digits, Reversed, LowDigit, Rest;
    buf := new Byte[16](_ => 0);
    i := 0;
    var negative := sign && xx < 0;
    var x: Word := if negative then -xx else Wrap(xx);
    ghost var x0 := x;
    NumeralFits(x0, base);
    ReversedEmpty();
    while x >= base
      invariant i <= 10
      invariant i + |Digits(x, base)| == |Digits(x0, base)|
      invariant Digits(x0, base) == Digits(x, base) + Reversed(buf[..i])
      decreases x
    {
      DigitsStep(x, base);
      ReversedSnoc(buf[..i], LowDigit(x, base));
      buf[i] := LowDigit(x, base);
      assert buf[..i + 1] == buf[..i] + [LowDigit(x, base)];
      i := i + 1;
      x := Rest(x, base);
    }
    DigitsStep(x, base);
    ReversedSnoc(buf[..i], LowDigit(x, base));
    buf[i] := LowDigit(x, base);
    assert buf[..i + 1] == buf[..i] + [LowDigit(x, base)];
    i := i + 1;
    if negative {
      ReversedSnoc(buf[..i], MINUS);
      buf[i] := MINUS;
      assert buf[..i + 1] == buf[..i] + [MINUS];
      i := i + 1;
    }
  }

  /** printint: the text appears at the cursor. */
  method Printint(con: Console, xx: int, base: nat, sign: bool, ghost l: Log)
    requires con.Shows(l) && -0x8000_0000 <= xx < 0x8000_0000 && (base == 10 || base == 16)
    modifies con, con.vidmem
    ensures con.Shows(WriteAll(l, IntText(xx, base, sign), WHITE_ON_BLACK))
  {
    hide WriteAll, Write, IntText, ValidLog;
    WriteAllNone(l, WHITE_ON_BLACK);
    var buf, i := FormatInt(xx, base, sign);
    ghost var text := IntText(xx, base, sign);
    ghost var n, s := i, buf[..i];
    while i > 0
      invariant 0 <= i <= n && buf[..n] == s
      invariant con.Shows(WriteAll(l, text[..n - i], WHITE_ON_BLACK))
    {
      i := i - 1;
      ReversedAt(s, n - i - 1);
      WriteAllNext(l, text, n - i - 1, WHITE_ON_BLACK);
      con.PrintChar(buf[i], -1, -1, WHITE_ON_BLACK, WriteAll(l, text[..n - i - 1], WHITE_ON_BLACK));
    }
    assert text[..n] == text;
  }
}
