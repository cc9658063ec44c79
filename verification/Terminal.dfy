/**
  The text terminal: a 204-row hardware buffer that is scrolled by moving the display start and
  recycled when full, against an unbounded transcript.
 */
module Terminal {
  const WIDTH: nat := 80
  const USABLE: nat := 24
  const TOTAL: nat := 204
  const MAX_TOP: nat := 179         // TOTAL - 25
  const BACKSPACE: char := '\U{8}'
  const SCROLLBACK: nat := 154      // TOTAL - 2 * 25

  datatype Cell = Cell(ch: char, color: nat)
  type Row = r: seq<Cell> | |r| == WIDTH witness seq(WIDTH, _ => Cell(' ', 0))

  function Blank(color: nat): Row { seq(WIDTH, _ => Cell(' ', color)) }

  // ----- the transcript -----

  /** Everything ever written, 80 columns wide: `rows` always reaches to the bottom of the 24-row
      view that starts at `top`. */
  datatype Screen = Screen(rows: seq<Row>, top: nat, row: nat, col: nat, color: nat)

  predicate ScreenOk(s: Screen) {
    |s.rows| == s.top + USABLE && s.top <= s.row < s.top + USABLE && s.col < WIDTH
  }

  function NextLine(s: Screen): (r: Screen)
    requires ScreenOk(s)
    ensures ScreenOk(r)
  {
    if s.row + 1 < s.top + USABLE then s.(row := s.row + 1, col := 0)
    else s.(rows := s.rows + [Blank(s.color)], top := s.top + 1, row := s.row + 1, col := 0)
  }

  function SetCell(s: Screen, col: nat, ch: char): (r: Screen)
    requires ScreenOk(s) && col < WIDTH
    ensures ScreenOk(r)
  {
    s.(rows := s.rows[s.row := s.rows[s.row][col := Cell(ch, s.color)]])
  }

  /** One character written to the transcript. */
  function Put(s: Screen, ch: char): (r: Screen)
    requires ScreenOk(s)
    ensures ScreenOk(r)
  {
    if ch == '\n' then NextLine(s)
    else if ch == '\r' then s.(col := 0)
    else if ch == BACKSPACE then if s.col > 0 then SetCell(s.(col := s.col - 1), s.col - 1, ' ') else s
    else
      var t := SetCell(s, s.col, ch);
      if s.col + 1 < WIDTH then t.(col := s.col + 1) else NextLine(t)
  }

  /** A character that is shown. */
  predicate Plain(ch: char) { ch != '\n' && ch != '\r' && ch != BACKSPACE }

  /** The column that a character is written to, if it is written at all. */
  predicate Writes(s: Screen, ch: char) { Plain(ch) || (ch == BACKSPACE && s.col > 0) }

  /** One character when the scrollback bar lies over the cursor's row: the cursor moves, but what is
      written goes into the bar and is gone with it. */
  function PutCovered(s: Screen, ch: char): (r: Screen)
    requires ScreenOk(s)
    ensures ScreenOk(r)
  {
    if ch == '\n' then NextLine(s)
    else if ch == '\r' then s.(col := 0)
    else if ch == BACKSPACE then if s.col > 0 then s.(col := s.col - 1) else s
    else if s.col + 1 < WIDTH then s.(col := s.col + 1) else NextLine(s)
  }

  /** Text is lost under the bar exactly when the character is written and its cell did not hold it before. */
  lemma LostUnderBar(s: Screen, ch: char)
    requires ScreenOk(s)
    ensures PutCovered(s, ch) == Put(s, ch) <==>
            (Writes(s, ch) ==>
               if Plain(ch) then s.rows[s.row][s.col] == Cell(ch, s.color)
               else s.rows[s.row][s.col - 1] == Cell(' ', s.color))
  {
    if Writes(s, ch) {
      var x := if Plain(ch) then s.col else s.col - 1;
      var e := if Plain(ch) then Cell(ch, s.color) else Cell(' ', s.color);
      var rows := s.rows[s.row := s.rows[s.row][x := e]];
      assert rows[s.row][x] == e;
      if s.rows[s.row][x] == e {
        assert s.rows[s.row][x := e] == s.rows[s.row];
        assert rows == s.rows;
      }
      assert (rows + [Blank(s.color)])[s.row] == rows[s.row] && (s.rows + [Blank(s.color)])[s.row] == s.rows[s.row];
    }
  }

  function PutAll(s: Screen, data: seq<char>): (r: Screen)
    requires ScreenOk(s)
    ensures ScreenOk(r)
  {
    if data == [] then s else Put(PutAll(s, data[..|data| - 1]), data[|data| - 1])
  }

  /** What has scrolled past the cursor is history: no later character changes it. */
  lemma {:induction false} HistoryKept(s: Screen, data: seq<char>)
    requires ScreenOk(s)
    ensures var r := PutAll(s, data); s.row <= r.row && |s.rows| <= |r.rows| && r.rows[..s.row] == s.rows[..s.row]
  {
    if data != [] {
      HistoryKept(s, data[..|data| - 1]);
      var m := PutAll(s, data[..|data| - 1]);
      var r := Put(m, data[|data| - 1]);
      assert m.row <= r.row && |m.rows| <= |r.rows| && forall i | 0 <= i < m.row :: r.rows[i] == m.rows[i];
      forall i | 0 <= i < s.row ensures r.rows[i] == s.rows[i] { assert m.rows[..s.row][i] == m.rows[i]; }
    }
  }

  /** The cursor, counted in cells from the start of the transcript. */
  function Cursor(s: Screen): nat { s.row * WIDTH + s.col }

  /** The cells of `r` are those of `s`, and blank below; except that cell `p`, if there is one, is `e`. */
  ghost predicate CellsWith(s: Screen, r: Screen, p: int, e: Cell) {
    && |s.rows| <= |r.rows|
    && forall y: nat, x: nat | y < |r.rows| && x < WIDTH ::
         r.rows[y][x] == if y * WIDTH + x == p then e
                         else if y < |s.rows| then s.rows[y][x] else Cell(' ', s.color)
  }

  /** What one character does: text is shown at the cursor, which moves on, to the next row from the end of a
      row; a newline and a return move to the start of a row; a backspace goes back and blanks, within the row. The
      view moves down just so far that the cursor is in it. */
  lemma PutMeaning(s: Screen, ch: char)
    requires ScreenOk(s)
    ensures var r := Put(s, ch);
            && r.color == s.color && r.top == (if r.row < s.top + USABLE then s.top else r.row - USABLE + 1)
            && if Plain(ch) then Cursor(r) == Cursor(s) + 1 && CellsWith(s, r, Cursor(s), Cell(ch, s.color))
               else if ch == BACKSPACE && s.col > 0 then
                 Cursor(r) == Cursor(s) - 1 && CellsWith(s, r, Cursor(r), Cell(' ', s.color))
               else
                 && CellsWith(s, r, -1, Cell(' ', 0)) && r.col == (if ch == BACKSPACE then s.col else 0)
                 && r.row == if ch == '\n' then s.row + 1 else s.row
  {
    var r := Put(s, ch);
    if Plain(ch) {
      SetMeaning(s, s.col, ch);
      var t := SetCell(s, s.col, ch);
      if s.col + 1 == WIDTH { NextMeaning(t); }
    } else if ch == BACKSPACE {
      if s.col > 0 { SetMeaning(s.(col := s.col - 1), s.col - 1, ' '); }
    } else if ch == '\n' {
      NextMeaning(s);
    }
  }

  lemma NextMeaning(s: Screen)
    requires ScreenOk(s)
    ensures CellsWith(s, NextLine(s), -1, Cell(' ', 0))
  {
  }

  lemma SetMeaning(s: Screen, col: nat, ch: char)
    requires ScreenOk(s) && col < WIDTH
    ensures CellsWith(s, SetCell(s, col, ch), s.row * WIDTH + col, Cell(ch, s.color))
  {
  }

  /** Plain text is shown in full, one cell after the other from the cursor on, across the ends of rows and through
      any number of scrolls; every other cell is as before, or blank if it is new. */
  ghost predicate Shown(s: Screen, data: seq<char>, r: Screen) {
    && |s.rows| <= |r.rows| && r.color == s.color && Cursor(r) == Cursor(s) + |data|
    && forall y: nat, x: nat | y < |r.rows| && x < WIDTH ::
         var p := y * WIDTH + x - Cursor(s);
         r.rows[y][x] == if 0 <= p < |data| then Cell(data[p], s.color)
                         else if y < |s.rows| then s.rows[y][x] else Cell(' ', s.color)
  }

  lemma ShownSnoc(s: Screen, data: seq<char>, m: Screen, ch: char, r: Screen)
    requires ScreenOk(m) && Shown(s, data, m) && CellsWith(m, r, Cursor(m), Cell(ch, m.color))
    requires Cursor(r) == Cursor(m) + 1 && r.color == m.color
    ensures Shown(s, data + [ch], r)
  {
    forall y: nat, x: nat | y < |r.rows| && x < WIDTH
      ensures var p := y * WIDTH + x - Cursor(s);
              r.rows[y][x] == if 0 <= p < |data + [ch]| then Cell((data + [ch])[p], s.color)
                              else if y < |s.rows| then s.rows[y][x] else Cell(' ', s.color)
    {
      if y < |m.rows| { assert m.rows[y][x].Cell?; }
    }
  }

  lemma {:induction false} TextShown(s: Screen, data: seq<char>)
    requires ScreenOk(s) && forall ch | ch in data :: Plain(ch)
    ensures Shown(s, data, PutAll(s, data))
  {
    if data != [] {
      var front, ch := data[..|data| - 1], data[|data| - 1];
      TextShown(s, front);
      PutMeaning(PutAll(s, front), ch);
      ShownSnoc(s, front, PutAll(s, front), ch, PutAll(s, data));
      assert front + [ch] == data;
    }
  }

  /** Row `r` with cell `e` at `x`, where it is `there`. */
  function Over(r: Row, there: bool, x: nat, e: Cell): Row
    requires x < WIDTH
  {
    if there then r[x := e] else r
  }

  /** Writing a cell of row `b` and replacing row `a`, in either order. */
  lemma RowsCommute(rows: seq<Row>, a: nat, r: Row, b: nat, x: nat, e: Cell)
    requires a < |rows| && b < |rows| && x < WIDTH
    ensures rows[a := r][b := rows[a := r][b][x := e]] ==
            if a == b then rows[a := r[x := e]] else rows[b := rows[b][x := e]][a := r]
  {
  }

  class Terminal {
    const buffer: array2<Cell>
    var row: nat
    var col: nat
    var color: nat
    var barColor: nat
    var viewTop: nat
    var scrollBack: nat
    var saved: seq<Cell>
    var savedRow: nat
    var savedValid: bool
    ghost var screen: Screen    // the transcript
    ghost var lost: nat         // its rows no longer in the buffer

    /** The content of a cell: where the scrollback bar covers a row, the saved copy. */
    ghost function Content(r: nat, c: nat): Cell
      requires buffer.Length0 == TOTAL && buffer.Length1 == WIDTH && |saved| == WIDTH && r < TOTAL && c < WIDTH
      reads this`saved, this`savedRow, this`savedValid, buffer
    {
      if savedValid && r == savedRow then saved[c] else buffer[r, c]
    }

    ghost predicate Sizes()
      reads this`saved, this`viewTop
    {
      buffer.Length0 == TOTAL && buffer.Length1 == WIDTH && |saved| == WIDTH && viewTop <= MAX_TOP
    }

    /** The buffer rows above the status bar are the last rows of the transcript. */
    ghost predicate Agrees(rows: seq<Row>, from: nat)
      requires Sizes()
      reads this`viewTop, this`saved, this`savedRow, this`savedValid, buffer
    {
      && from + viewTop + USABLE == |rows|
      && forall r: nat, c: nat | r < viewTop + USABLE && c < WIDTH :: Content(r, c) == rows[from + r][c]
    }

    ghost predicate Bar()
      requires Sizes()
      reads this`saved, this`viewTop, this`scrollBack, this`savedRow, this`savedValid
    {
      savedValid == (scrollBack > 0) && scrollBack <= viewTop && (savedValid ==> savedRow < viewTop + USABLE)
    }

    /** Row `r` of the buffer as it is displayed. */
    ghost function Displayed(r: nat): (row: Row)
      requires buffer.Length0 == TOTAL && buffer.Length1 == WIDTH && r < TOTAL
      reads buffer
    {
      seq(WIDTH, c requires 0 <= c < WIDTH && buffer.Length0 == TOTAL && buffer.Length1 == WIDTH reads buffer =>
                   buffer[r, c])
    }

    /** The transcript that a recycle leaves: the saved row is forgotten, and the bar that covers it stays. */
    ghost function Recycled(): (s: Screen)
      requires Sizes() && Bar() && Agrees(screen.rows, lost)
      reads this`saved, this`viewTop, this`scrollBack, this`savedRow, this`savedValid, this`screen, this`lost, buffer
    {
      if savedValid && savedRow >= viewTop - Min(viewTop, SCROLLBACK)
      then screen.(rows := screen.rows[lost + savedRow := Displayed(savedRow)]) else screen
    }

    /** The next line feed recycles the buffer. */
    ghost predicate AtEnd()
      reads this`row, this`viewTop
    {
      row + 1 == viewTop + USABLE && viewTop == MAX_TOP
    }

    /** The transcript after a character, with the view scrolled back or not. */
    ghost function Expected(ch: char): (s: Screen)
      requires Valid()
      reads this, buffer
    {
      if (ch == '\n' || (Plain(ch) && col + 1 == WIDTH)) && AtEnd() then Put(Recycled(), ch)
      else if savedValid && row == savedRow then PutCovered(screen, ch)
      else Put(screen, ch)
    }

    ghost predicate Valid()
      reads this, buffer
    {
      && Sizes() && Bar() && Agrees(screen.rows, lost) && ScreenOk(screen) && viewTop <= row < viewTop + USABLE
          && col < WIDTH
      && screen.top == lost + viewTop && screen.row == lost + row && screen.col == col && screen.color == color
    }

    /** `terminal_initialize` and `terminal_clear`, on a buffer of whatever the display held. */
    constructor (display: array2<Cell>, bar: nat)
      requires display.Length0 == TOTAL && display.Length1 == WIDTH
      modifies display
      ensures Valid() && scrollBack == 0 && buffer == display
      ensures screen == Screen(seq(USABLE, _ => Blank(7)), 0, 0, 0, 7)
    {
      buffer := display;
      row, col, viewTop, scrollBack, savedValid, savedRow, saved := 0, 0, 0, 0, false, 0, Blank(0);
      color, barColor := 7, bar;
      screen, lost := Screen(seq(USABLE, _ => Blank(7)), 0, 0, 0, 7), 0;
      new;
      for y := 0 to USABLE
        invariant forall r: nat, c: nat | r < y && c < WIDTH :: buffer[r, c] == Cell(' ', color)
        modifies buffer
      {
        ClearRow(y);
      }
      DrawBar(USABLE);
    }

    /** `statusbar_draw_at` and `scrollbar_draw_at`, without their text. */
    method DrawBar(at: nat)
      requires buffer.Length0 == TOTAL && buffer.Length1 == WIDTH && at < TOTAL
      modifies buffer
      ensures forall r: nat, c: nat | r < TOTAL && c < WIDTH && r != at :: buffer[r, c] == old(buffer[r, c])
    {
      for x := 0 to WIDTH
        invariant forall r: nat, c: nat | r < TOTAL && c < WIDTH && r != at :: buffer[r, c] == old(buffer[r, c])
      {
        buffer[at, x] := Cell(' ', barColor);
      }
    }

    method ClearRow(at: nat)
      requires buffer.Length0 == TOTAL && buffer.Length1 == WIDTH && at < TOTAL
      modifies buffer
      ensures forall r: nat, c: nat | r < TOTAL && c < WIDTH ::
              buffer[r, c] == if r == at then Cell(' ', color) else old(buffer[r, c])
    {
      for x := 0 to WIDTH
        invariant forall r: nat, c: nat | r < TOTAL && c < WIDTH ::
                    buffer[r, c] == if r == at && c < x then Cell(' ', color) else old(buffer[r, c])
      {
        buffer[at, x] := Cell(' ', color);
      }
    }

    /** The overlapping forward copy of `vga_recycle`: rows `src..src + total` move to the top. */
    method CopyUp(src: nat, total: nat)
      requires buffer.Length0 == TOTAL && buffer.Length1 == WIDTH && src + total <= TOTAL
      modifies buffer
      ensures forall r: nat, c: nat | r < total && c < WIDTH :: buffer[r, c] == old(buffer[src + r, c])
    {
      for r := 0 to total
        invariant forall i: nat, c: nat | i < r && c < WIDTH :: buffer[i, c] == old(buffer[src + i, c])
        invariant forall i: nat, c: nat | r <= i < TOTAL && c < WIDTH :: buffer[i, c] == old(buffer[i, c])
      {
        for c := 0 to WIDTH
          invariant forall i: nat, x: nat | i < r && x < WIDTH :: buffer[i, x] == old(buffer[src + i, x])
          invariant forall x: nat | x < c :: buffer[r, x] == old(buffer[src + r, x])
          invariant forall x: nat | c <= x < WIDTH :: buffer[r, x] == old(buffer[r, x])
          invariant forall i: nat, x: nat | r < i < TOTAL && x < WIDTH :: buffer[i, x] == old(buffer[i, x])
        {
          buffer[r, c] := buffer[src + r, c];
        }
      }
    }

    /** What a recycle keeps is what the buffer displays. */
    lemma RecycledShows(r: nat, c: nat)
      requires Sizes() && Bar() && Agrees(screen.rows, lost) && c < WIDTH
      requires viewTop - Min(viewTop, SCROLLBACK) <= r < viewTop + USABLE
      ensures |Recycled().rows| == |screen.rows| && Recycled().rows[lost + r][c] == buffer[r, c]
    {
      assert Content(r, c) == screen.rows[lost + r][c];
    }

    lemma AllRecycledShows()
      requires Sizes() && Bar() && Agrees(screen.rows, lost)
      ensures |Recycled().rows| == |screen.rows|
      ensures forall r: nat, c: nat | viewTop - Min(viewTop, SCROLLBACK) <= r < viewTop + USABLE && c < WIDTH ::
              Recycled().rows[lost + r][c] == buffer[r, c]
    {
      forall r: nat, c: nat | viewTop - Min(viewTop, SCROLLBACK) <= r < viewTop + USABLE && c < WIDTH
        ensures lost + r < |Recycled().rows| && Recycled().rows[lost + r][c] == buffer[r, c]
      {
        RecycledShows(r, c);
      }
    }

    /** `vga_recycle`: the last 154 rows of history and the view move to the top of the buffer. */
    method Recycle()
      requires Sizes() && Bar() && Agrees(screen.rows, lost) && row >= viewTop
      modifies this`row, this`viewTop, this`scrollBack, this`savedValid, this`lost, this`screen, buffer
      ensures Sizes() && Agrees(screen.rows, lost) && !savedValid && scrollBack == 0 && screen == old(Recycled())
      ensures viewTop == old(Min(viewTop, SCROLLBACK))
      ensures lost + viewTop == old(lost + viewTop) && lost + row == old(lost + row)
    {
      var keep := SCROLLBACK;
      if keep > viewTop {
        keep := viewTop;
      }
      var src := viewTop - keep;
      AllRecycledShows();
      ghost var rows, from := Recycled().rows, lost;
      screen := Recycled();
      CopyUp(src, keep + USABLE);
      row := row - src;
      viewTop := keep;
      scrollBack := 0;
      savedValid := false;
      lost := lost + src;
      forall r: nat, c: nat | r < viewTop + USABLE && c < WIDTH
        ensures Content(r, c) == screen.rows[lost + r][c]
      {
        assert buffer[r, c] == old(buffer[src + r, c]) == rows[from + (src + r)][c];
      }
    }

    /** `terminal_scroll`: a blank row comes into view below. */
    method Scroll()
      requires Sizes() && Bar() && Agrees(screen.rows, lost) && row == viewTop + USABLE && screen.top == lost + viewTop
      modifies this`row, this`viewTop, this`scrollBack, this`savedValid, this`lost, this`screen, buffer
      ensures Sizes() && Bar() && Agrees(screen.rows, lost) && row == viewTop + USABLE - 1
      ensures screen.top == lost + viewTop
      ensures lost + row == old(lost + row) && (old(scrollBack) == 0 ==> scrollBack == 0)
      ensures old(viewTop) != MAX_TOP ==> lost == old(lost)
      ensures var s := old(if viewTop == MAX_TOP then Recycled() else screen);
              screen == s.(rows := s.rows + [Blank(color)], top := s.top + 1)
    {
      if viewTop == MAX_TOP {
        Recycle();
      }
      label kept:
      viewTop := viewTop + 1;
      ClearRow(viewTop + USABLE - 1);
      screen := screen.(rows := screen.rows + [Blank(color)], top := screen.top + 1);
      DrawBar(viewTop + USABLE);
      forall r: nat, c: nat | r < viewTop + USABLE && c < WIDTH
        ensures Content(r, c) == screen.rows[lost + r][c]
      {
        assert r < viewTop + USABLE - 1 ==> Content(r, c) == old@kept(Content(r, c));
      }
    }

    /** The cursor goes to the start of the next line. */
    method LineFeed()
      requires Valid()
      modifies this`row, this`col, this`viewTop, this`scrollBack, this`savedValid, this`lost, this`screen, buffer
      ensures Valid() && (old(scrollBack) == 0 ==> scrollBack == 0) && (!old(AtEnd()) ==> lost == old(lost))
      ensures screen == NextLine(old(if AtEnd() then Recycled() else screen))
    {
      ghost var s := if AtEnd() then Recycled() else screen;
      assert ScreenOk(s);
      col := 0;
      row := row + 1;
      if row == viewTop + USABLE {
        assert s == if viewTop == MAX_TOP then Recycled() else screen;
        Scroll();
      }
      screen := screen.(row := screen.row + 1, col := 0);
      assert Agrees(screen.rows, lost);
    }

    /** `terminal_putentryat` at the cursor's row. */
    method PutCell(ch: char, x: nat)
      requires Valid() && x < WIDTH
      modifies this`screen, buffer
      ensures Valid()
      ensures screen == if savedValid && row == savedRow then old(screen) else SetCell(old(screen), x, ch)
      ensures forall r: nat, c: nat | r < TOTAL && c < WIDTH ::
              buffer[r, c] == if r == row && c == x then Cell(ch, color) else old(buffer[r, c])
    {
      buffer[row, x] := Cell(ch, color);
      if !(savedValid && row == savedRow) {
        screen := SetCell(screen, x, ch);
      }
      forall r: nat, c: nat | r < viewTop + USABLE && c < WIDTH
        ensures Content(r, c) == screen.rows[lost + r][c]
      {
        assert old(Content(r, c)) == old(screen.rows[lost + r][c]);
        assert r != row || c != x ==> Content(r, c) == old(Content(r, c));
      }
    }

    /** The same, with what a recycle would make of it. */
    method PutEntry(ch: char, x: nat)
      requires Valid() && x < WIDTH
      modifies this`screen, buffer
      ensures Valid()
      ensures screen == if savedValid && row == savedRow then old(screen) else SetCell(old(screen), x, ch)
      ensures Recycled() == SetCell(old(Recycled()), x, ch)
    {
      PutCell(ch, x);
      if savedValid {
        assert Displayed(savedRow) == old(Over(Displayed(savedRow), row == savedRow, x, Cell(ch, color)));
        RowsCommute(old(screen.rows), lost + savedRow, old(Displayed(savedRow)), screen.row, x, Cell(ch, color));
      }
    }

    /** `statusbar_draw`: the bar is below the content. */
    method StatusBar()
      requires Sizes() && (savedValid ==> savedRow < viewTop + USABLE) && Agrees(screen.rows, lost)
      modifies buffer
      ensures Agrees(screen.rows, lost)
    {
      DrawBar(viewTop + USABLE);
      forall r: nat, c: nat | r < viewTop + USABLE && c < WIDTH
        ensures Content(r, c) == screen.rows[lost + r][c]
      {
        assert Content(r, c) == old(Content(r, c));
      }
    }

    /** `terminal_putchar`, with the view scrolled back or not. */
    method PutChar(ch: char)
      requires Valid()
      modifies this`row, this`col, this`viewTop, this`scrollBack, this`savedValid, this`lost, this`screen, buffer
      ensures Valid() && screen == old(Expected(ch))
      ensures (old(scrollBack) == 0 ==> scrollBack == 0) && (!old(AtEnd()) ==> lost == old(lost))
    {
      if ch == '\n' {
        LineFeed();
        StatusBar();
      } else if ch == '\r' {
        col := 0;
        screen := screen.(col := 0);
        StatusBar();
      } else if ch == BACKSPACE {
        if col > 0 {
          Erase();
        }
      } else {
        PutPlain(ch);
      }
    }

    /** The backspace case. */
    method Erase()
      requires Valid() && col > 0
      modifies this`col, this`screen, buffer
      ensures Valid() && screen == old(Expected(BACKSPACE))
    {
      col := col - 1;
      screen := screen.(col := col);
      PutCell(' ', col);
      StatusBar();
    }

    /** The last case: a character that is shown. */
    method PutPlain(ch: char)
      requires Valid() && Plain(ch)
      modifies this`row, this`col, this`viewTop, this`scrollBack, this`savedValid, this`lost, this`screen, buffer
      ensures Valid() && screen == old(Expected(ch))
      ensures (old(scrollBack) == 0 ==> scrollBack == 0) && (!old(AtEnd()) ==> lost == old(lost))
    {
      PutEntry(ch, col);
      if col + 1 == WIDTH {
        LineFeed();
      } else {
        col := col + 1;
        screen := screen.(col := col);
      }
      StatusBar();
    }

    /** The cursor is below the bar, and `n` more lines fit before the buffer is recycled. */
    ghost predicate Ahead(n: nat)
      reads this`row, this`viewTop, this`savedRow
    {
      savedRow < row && viewTop + n <= MAX_TOP
    }

    /** A character written below the bar and before the next recycle is not lost. */
    method PutAhead(ch: char, ghost n: nat)
      requires Valid()
      modifies this`row, this`col, this`viewTop, this`scrollBack, this`savedValid, this`lost, this`screen, buffer
      ensures Valid() && (old(scrollBack) == 0 ==> scrollBack == 0)
      ensures old(scrollBack) == 0 || old(Ahead(n + 1)) ==>
              screen == Put(old(screen), ch) && (scrollBack == 0 || Ahead(n))
    {
      assert scrollBack == 0 ==> Recycled() == screen;
      PutChar(ch);
    }

    /** `terminal_write`: for every stream of characters, buffer and transcript stay in step, if the view
        is not scrolled back or the stream is written below the bar and before the next recycle. */
    method Write(data: seq<char>)
      requires Valid()
      modifies this`row, this`col, this`viewTop, this`scrollBack, this`savedValid, this`lost, this`screen, buffer
      ensures Valid() && (old(scrollBack) == 0 ==> scrollBack == 0)
      ensures old(scrollBack) == 0 || old(Ahead(|data|)) ==> screen == PutAll(old(screen), data)
    {
      ghost var safe := scrollBack == 0 || Ahead(|data|);
      for i := 0 to |data|
        invariant Valid() && (old(scrollBack) == 0 ==> scrollBack == 0)
        invariant safe ==> screen == PutAll(old(screen), data[..i]) && (scrollBack == 0 || Ahead(|data| - i))
      {
        assert data[..i + 1][..i] == data[..i];
        PutAhead(data[i], |data| - i - 1);
      }
      assert data[..|data|] == data;
    }

    // ----- scrollback -----

    /** `scrollback_save_and_draw`. */
    method SaveAndDraw(at: nat)
      requires Sizes() && !savedValid && at < TOTAL && Agrees(screen.rows, lost)
      modifies this`saved, this`savedRow, this`savedValid, buffer
      ensures Sizes() && savedValid && savedRow == at && Agrees(screen.rows, lost)
    {
      var copy: seq<Cell> := [];
      for x := 0 to WIDTH
        invariant |copy| == x && forall c | 0 <= c < x :: copy[c] == buffer[at, c]
      {
        copy := copy + [buffer[at, x]];
      }
      saved := copy;
      savedRow := at;
      savedValid := true;
      DrawBar(at);
      forall r: nat, c: nat | r < viewTop + USABLE && c < WIDTH
        ensures Content(r, c) == screen.rows[lost + r][c]
      {
        assert Content(r, c) == old(Content(r, c));
      }
    }

    /** `scrollback_restore`. */
    method Restore()
      requires Sizes() && (savedValid ==> savedRow < TOTAL) && Agrees(screen.rows, lost)
      modifies this`savedValid, buffer
      ensures Sizes() && !savedValid && Agrees(screen.rows, lost)
    {
      if savedValid {
        for x := 0 to WIDTH
          invariant savedValid == old(savedValid)
          invariant forall r: nat, c: nat | r < TOTAL && c < WIDTH ::
                      buffer[r, c] == if r == savedRow && c < x then saved[c] else old(buffer[r, c])
        {
          buffer[savedRow, x] := saved[x];
        }
        savedValid := false;
      }
      forall r: nat, c: nat | r < viewTop + USABLE && c < WIDTH
        ensures Content(r, c) == screen.rows[lost + r][c]
      {
        assert Content(r, c) == old(Content(r, c));
      }
    }

    /** `terminal_scroll_lines`: the view moves, what was written does not. */
    method ScrollLines(delta: int)
      requires Valid()
      modifies this`scrollBack, this`saved, this`savedRow, this`savedValid, buffer
      ensures Valid()
      ensures scrollBack == (if delta < 0 then Min(old(scrollBack) - delta, Min(viewTop, SCROLLBACK))
                             else if delta >= old(scrollBack) then 0 else old(scrollBack) - delta)
      ensures savedValid ==> savedRow == viewTop - scrollBack + USABLE
    {
      if delta < 0 {
        var most := if viewTop < SCROLLBACK then viewTop else SCROLLBACK;
        scrollBack := if scrollBack - delta > most then most else scrollBack - delta;
      } else if delta > 0 {
        scrollBack := if delta >= scrollBack then 0 else scrollBack - delta;
      }
      MoveBar();
    }

    /** The bar moves to the bottom of the displayed view: what it covered comes back first. */
    method MoveBar()
      requires Sizes() && (savedValid ==> savedRow < TOTAL) && Agrees(screen.rows, lost) && scrollBack <= viewTop
      modifies this`saved, this`savedRow, this`savedValid, buffer
      ensures Sizes() && Bar() && Agrees(screen.rows, lost)
      ensures savedValid ==> savedRow == viewTop - scrollBack + USABLE
    {
      Restore();
      if scrollBack > 0 {
        SaveAndDraw(viewTop - scrollBack + USABLE);
      } else {
        StatusBar();
      }
    }

    /** `terminal_scroll_reset`: every content row is back in the buffer. */
    method ScrollReset()
      requires Valid()
      modifies this`scrollBack, this`savedValid, buffer
      ensures Valid() && scrollBack == 0
      ensures forall r: nat, c: nat | r < viewTop + USABLE && c < WIDTH :: buffer[r, c] == screen.rows[lost + r][c]
    {
      if scrollBack > 0 {
        Restore();
        scrollBack := 0;
        StatusBar();
      }
      assert Agrees(screen.rows, lost);
      forall r: nat, c: nat | r < viewTop + USABLE && c < WIDTH
        ensures buffer[r, c] == screen.rows[lost + r][c]
      {
        assert Content(r, c) == buffer[r, c];
      }
    }

    /** Any scrolling about, then a reset. */
    method Browse(moves: seq<int>)
      requires Valid()
      modifies this`scrollBack, this`saved, this`savedRow, this`savedValid, buffer
      ensures Valid() && scrollBack == 0
      ensures forall r: nat, c: nat | r < viewTop + USABLE && c < WIDTH :: buffer[r, c] == screen.rows[lost + r][c]
    {
      for i := 0 to |moves|
        invariant Valid()
      {
        ScrollLines(moves[i]);
      }
      ScrollReset();
    }
  }

  function Min(a: int, b: int): int { if a < b then a else b }
}
