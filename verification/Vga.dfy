/** The text-mode screen: an in-place scrolling buffer that shows the end of an endless log of rows. */
module Vga {
  const HEIGHT := 25
  const WIDTH := 80
  const NEWLINE: nat := 0x0A
  const UNPRINTABLE: nat := 0xFE

  datatype ScreenChar = ScreenChar(ascii: nat, colour: nat)

  type Row = r: seq<ScreenChar> | |r| == WIDTH witness seq(WIDTH, _ => ScreenChar(0x20, 0))

  // ---------- The log ----------

  /** Every row ever shown, the one being written last, and the column of the next character. */
  datatype Log = Log(rows: seq<Row>, column: nat)

  predicate LogOk(l: Log) { |l.rows| >= HEIGHT && l.column <= WIDTH }

  function BlankRow(colour: nat): Row { seq(WIDTH, _ => ScreenChar(0x20, colour)) }

  function LogNewLine(l: Log, colour: nat): Log {
    Log(l.rows + [BlankRow(colour)], 0)
  }

  /** A character goes to the current row; a full row is only left when the next character arrives. */
  function LogByte(l: Log, byte: nat, colour: nat): (r: Log)
    requires LogOk(l)
    ensures LogOk(r)
  {
    if byte == NEWLINE then LogNewLine(l, colour)
    else
      var l1 := if l.column >= WIDTH then LogNewLine(l, colour) else l;
      var last := |l1.rows| - 1;
      Log(l1.rows[last := l1.rows[last][l1.column := ScreenChar(byte, colour)]], l1.column + 1)
  }

  /** What `write_string` writes for a byte of the text. */
  function Shown(byte: nat): nat {
    if 0x20 <= byte <= 0x7E || byte == NEWLINE then byte else UNPRINTABLE
  }

  function LogString(l: Log, text: seq<nat>, colour: nat): (r: Log)
    requires LogOk(l)
    ensures LogOk(r)
  {
    if text == [] then l
    else LogByte(LogString(l, text[..|text| - 1], colour), Shown(text[|text| - 1]), colour)
  }

  /** The part of the log that fits on the screen. */
  function Visible(l: Log): (rows: seq<Row>)
    requires LogOk(l)
    ensures |rows| == HEIGHT
  {
    l.rows[|l.rows| - HEIGHT..]
  }

  /** The log only grows: rows above the current one never change again. */
  lemma {:induction false} LogKeepsRows(l: Log, text: seq<nat>, colour: nat)
    requires LogOk(l)
    ensures |LogString(l, text, colour).rows| >= |l.rows|
    ensures LogString(l, text, colour).rows[..|l.rows| - 1] == l.rows[..|l.rows| - 1]
  {
    if text != [] {
      LogKeepsRows(l, text[..|text| - 1], colour);
    }
  }

  lemma {:induction false} LogAppend(l: Log, xs: seq<nat>, ys: seq<nat>, colour: nat)
    requires LogOk(l)
    ensures LogString(l, xs + ys, colour) == LogString(LogString(l, xs, colour), ys, colour)
    decreases |ys|
  {
    if ys == [] {
      assert xs + ys == xs;
    } else {
      LogAppend(l, xs, ys[..|ys| - 1], colour);
      assert (xs + ys)[..|xs + ys| - 1] == xs + ys[..|ys| - 1];
    }
  }

  /** Where the character number `k` of a text without newlines ends up, from a fresh row. */
  ghost predicate LaidOut(l: Log, r: Log, text: seq<nat>, colour: nat) {
    && |r.rows| == |l.rows| + (|text| - 1) / 80 && r.column == (|text| - 1) % 80 + 1
    && forall k :: 0 <= k < |text| ==> CharAt(r, |l.rows| - 1, k, Glyph(text[k], colour))
  }

  /** Character number `k` of a paragraph that starts in row `top`. */
  predicate CharAt(r: Log, top: int, k: nat, ch: ScreenChar) {
    0 <= top + k / 80 < |r.rows| && r.rows[top + k / 80][k % 80] == ch
  }

  /** A printable byte is shown as it is, any other as a block. */
  function Glyph(byte: nat, colour: nat): ScreenChar {
    if 0x20 <= byte <= 0x7E then ScreenChar(byte, colour) else ScreenChar(0xFE, colour)
  }

  /** A paragraph fills rows of 80 characters, wrapping only when a further character arrives. */
  lemma {:induction false} WrapLayout(l: Log, text: seq<nat>, colour: nat)
    requires LogOk(l) && l.column == 0 && text != [] && 0x0A !in text
    ensures LaidOut(l, LogString(l, text, colour), text, colour)
  {
    var n, init := |text| - 1, text[..|text| - 1];
    var before := LogString(l, init, colour);
    if n > 0 {
      WrapLayout(l, init, colour);
    } else {
      assert before == l;
    }
    assert text[n] in text;
    WrapStep(l, before, init, text[n], colour);
    assert text == init + [text[n]];
  }

  lemma WrapStep(l: Log, before: Log, init: seq<nat>, byte: nat, colour: nat)
    requires LogOk(l) && LogOk(before) && l.column == 0 && byte != NEWLINE
    requires if init == [] then before == l else LaidOut(l, before, init, colour)
    ensures LaidOut(l, LogByte(before, Shown(byte), colour), init + [byte], colour)
  {
    var after, text, top := LogByte(before, Shown(byte), colour), init + [byte], |l.rows| - 1;
    forall k | 0 <= k < |text| ensures CharAt(after, top, k, Glyph(text[k], colour)) {
      if k < |init| {
        assert CharAt(before, top, k, Glyph(init[k], colour));
      }
    }
  }

  /**
   A line printed between two newlines stands in row 23 of the 25, from its first column: printable
   bytes as they are, others as blocks. Below it is a blank row.
   */
  lemma PrintedLine(l: Log, line: seq<nat>, colour: nat, k: nat)
    requires LogOk(l) && 0x0A !in line && |line| <= 80
    ensures var rows := Visible(LogString(l, [0x0A] + line + [0x0A], colour));
            && |rows| == 25
            && (k < |line| ==> rows[23][k] == Glyph(line[k], colour))
            && (k < 80 ==> rows[24][k] == ScreenChar(0x20, colour))
  {
    var l1 := LogNewLine(l, colour);
    PrintedLog(l, line, colour);
    LastTwoRows(LogString(l1, line, colour), colour);
    if k < |line| {
      OneRow(l1, line, colour, k);
    }
  }

  lemma LastTwoRows(l: Log, colour: nat)
    requires LogOk(l)
    ensures var rows := Visible(LogNewLine(l, colour));
            rows[23] == l.rows[|l.rows| - 1] && rows[24] == BlankRow(colour)
  {
  }

  /** A line of at most 80 characters stays in the row it starts in. */
  lemma OneRow(l: Log, line: seq<nat>, colour: nat, k: nat)
    requires LogOk(l) && l.column == 0 && 0x0A !in line && k < |line| <= 80
    ensures var r := LogString(l, line, colour); r.rows[|r.rows| - 1][k] == Glyph(line[k], colour)
  {
    WrapLayout(l, line, colour);
    InOneRow(l, LogString(l, line, colour), line, colour, k);
  }

  lemma InOneRow(l: Log, r: Log, line: seq<nat>, colour: nat, k: nat)
    requires LaidOut(l, r, line, colour) && k < |line| <= 80
    ensures |r.rows| == |l.rows| > 0 && r.rows[|r.rows| - 1][k] == Glyph(line[k], colour)
  {
    assert CharAt(r, |l.rows| - 1, k, Glyph(line[k], colour));
  }

  lemma PrintedLog(l: Log, line: seq<nat>, colour: nat)
    requires LogOk(l)
    ensures LogString(l, [NEWLINE] + line + [NEWLINE], colour)
         == LogNewLine(LogString(LogNewLine(l, colour), line, colour), colour)
  {
    LogAppend(l, [NEWLINE] + line, [NEWLINE], colour);
    LogAppend(l, [NEWLINE], line, colour);
    OneByte(l, NEWLINE, colour);
    OneByte(LogString(LogNewLine(l, colour), line, colour), NEWLINE, colour);
  }

  lemma OneByte(l: Log, byte: nat, colour: nat)
    requires LogOk(l)
    ensures LogString(l, [byte], colour) == LogByte(l, Shown(byte), colour)
  {
    assert [byte][..0] == [];
  }

  /** Writing into the last row changes only that row of the screen. */
  lemma VisibleUpdate(l: Log, row: Row, column: nat)
    requires LogOk(l) && column <= WIDTH
    ensures Visible(Log(l.rows[|l.rows| - 1 := row], column)) == Visible(l)[HEIGHT - 1 := row]
  {
  }

  lemma VisibleNewLine(l: Log, colour: nat)
    requires LogOk(l)
    ensures Visible(LogNewLine(l, colour)) == Visible(l)[1..] + [BlankRow(colour)]
  {
  }

  // ---------- The writer ----------

  class Writer {
    var column: nat
    const colour: nat
    const buffer: array2<ScreenChar>
    ghost var log: Log

    /** The buffer shows the last rows of the log. */
    ghost predicate Valid()
      reads this, buffer
    {
      && buffer.Length0 == HEIGHT && buffer.Length1 == WIDTH
      && LogOk(log) && column == log.column && Shows(Visible(log))
    }

    ghost predicate Shows(rows: seq<Row>)
      requires buffer.Length0 == HEIGHT && buffer.Length1 == WIDTH && |rows| == HEIGHT
      reads buffer
    {
      forall r, c :: 0 <= r < HEIGHT && 0 <= c < WIDTH ==> buffer[r, c] == rows[r][c]
    }

    /** A writer on a screen that shows anything at all. */
    constructor (buffer: array2<ScreenChar>, colour: nat)
      requires buffer.Length0 == HEIGHT && buffer.Length1 == WIDTH
      ensures Valid() && this.buffer == buffer && this.colour == colour && log.column == 0 && |log.rows| == HEIGHT
    {
      column := 0;
      this.colour := colour;
      this.buffer := buffer;
      log := Log(seq(HEIGHT, r requires 0 <= r < HEIGHT reads buffer =>
                   seq(WIDTH, c requires 0 <= c < WIDTH reads buffer => buffer[r, c])), 0);
    }

    method ClearRow(row: nat)
      requires row < HEIGHT && buffer.Length0 == HEIGHT && buffer.Length1 == WIDTH
      modifies buffer
      ensures forall c :: 0 <= c < WIDTH ==> buffer[row, c] == ScreenChar(0x20, colour)
      ensures forall r, c :: 0 <= r < HEIGHT && 0 <= c < WIDTH && r != row ==> buffer[r, c] == old(buffer[r, c])
    {
      for col := 0 to WIDTH
        invariant forall c :: 0 <= c < col ==> buffer[row, c] == ScreenChar(0x20, colour)
        invariant forall r, c :: 0 <= r < HEIGHT && 0 <= c < WIDTH && r != row ==> buffer[r, c] == old(buffer[r, c])
      {
        buffer[row, col] := ScreenChar(0x20, colour);
      }
    }

    /** Copies one row over the row above it. */
    method CopyUp(row: nat)
      requires 0 < row < HEIGHT && buffer.Length0 == HEIGHT && buffer.Length1 == WIDTH
      modifies buffer
      ensures forall c :: 0 <= c < WIDTH ==> buffer[row - 1, c] == old(buffer[row, c])
      ensures forall r, c :: 0 <= r < HEIGHT && 0 <= c < WIDTH && r != row - 1 ==> buffer[r, c] == old(buffer[r, c])
    {
      for col := 0 to WIDTH
        invariant forall c :: 0 <= c < col ==> buffer[row - 1, c] == old(buffer[row, c])
        invariant forall r, c :: 0 <= r < HEIGHT && 0 <= c < WIDTH && r != row - 1 ==> buffer[r, c] == old(buffer[r, c])
      {
        buffer[row - 1, col] := buffer[row, col];
      }
    }

    method Scroll()
      requires buffer.Length0 == HEIGHT && buffer.Length1 == WIDTH
      modifies buffer
      ensures forall r, c :: 0 <= r < HEIGHT - 1 && 0 <= c < WIDTH ==> buffer[r, c] == old(buffer[r + 1, c])
    {
      for row := 1 to HEIGHT
        invariant forall r, c :: 0 <= r < row - 1 && 0 <= c < WIDTH ==> buffer[r, c] == old(buffer[r + 1, c])
        invariant forall r, c :: row - 1 < r < HEIGHT && 0 <= c < WIDTH ==> buffer[r, c] == old(buffer[r, c])
        invariant forall c :: 0 <= c < WIDTH && row == 1 ==> buffer[0, c] == old(buffer[0, c])
      {
        CopyUp(row);
      }
    }

    method NewLine()
      requires Valid()
      modifies this`column, this`log, buffer
      ensures Valid() && log == LogNewLine(old(log), colour)
    {
      ghost var rows := Visible(log);
      VisibleNewLine(log, colour);
      ScrollRows(rows);
      column := 0;
      log := LogNewLine(log, colour);
    }

    /** The rows move up by one and the last one becomes blank. */
    method ScrollRows(ghost rows: seq<Row>)
      requires buffer.Length0 == HEIGHT && buffer.Length1 == WIDTH && |rows| == HEIGHT && Shows(rows)
      modifies buffer
      ensures Shows(rows[1..] + [BlankRow(colour)])
    {
      Scroll();
      ClearRow(HEIGHT - 1);
      ghost var next := rows[1..] + [BlankRow(colour)];
      assert forall r :: 0 <= r < HEIGHT - 1 ==> next[r] == rows[r + 1];
    }

    method WriteByte(byte: nat)
      requires Valid()
      modifies this`column, this`log, buffer
      ensures Valid() && log == LogByte(old(log), byte, colour)
    {
      if byte == NEWLINE {
        NewLine();
      } else {
        if column >= WIDTH {
          NewLine();
        }
        PutByte(byte);
      }
    }

    /** Writes a character to the current row, which has room. */
    method PutByte(byte: nat)
      requires Valid() && byte != NEWLINE && column < WIDTH
      modifies this`column, this`log, buffer
      ensures Valid() && log == LogByte(old(log), byte, colour)
    {
      ghost var rows, last := Visible(log), |log.rows| - 1;
      ghost var row := log.rows[last][column := ScreenChar(byte, colour)];
      VisibleUpdate(log, row, column + 1);
      assert rows[HEIGHT - 1] == log.rows[last];
      buffer[HEIGHT - 1, column] := ScreenChar(byte, colour);
      assert Shows(rows[HEIGHT - 1 := row]);
      log := Log(log.rows[last := row], column + 1);
      column := column + 1;
    }

    method WriteString(text: seq<nat>)
      requires Valid()
      modifies this`column, this`log, buffer
      ensures Valid() && log == LogString(old(log), text, colour)
    {
      for i := 0 to |text|
        invariant Valid() && log == LogString(old(log), text[..i], colour)
      {
        assert text[..i + 1][..i] == text[..i];
        if 0x20 <= text[i] <= 0x7E || text[i] == NEWLINE {
          WriteByte(text[i]);
        } else {
          WriteByte(UNPRINTABLE);
        }
      }
      assert text[..|text|] == text;
    }
  }
}
