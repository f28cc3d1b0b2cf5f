/**
 * The text console: a ring of history lines, a view onto it, and a cell grid that is drawn
 * incrementally. The grid must always show what a full redraw would show.
 */
module TextScreen {
  import opened KernelTypes

  const HISTORY_ROWS: nat := 256
  const MAX_COLUMNS: nat := 160
  const BACKSPACE: char := 8 as char

  type Row = seq<char>

  datatype Screen = Screen(rows: nat, columns: nat, hist: seq<Row>, cells: seq<Row>, col: nat, cur: nat, top: nat)

  function Blank(n: nat): (r: Row)
    ensures |r| == n && forall i :: 0 <= i < n ==> r[i] == ' '
  {
    seq(n, i => ' ')
  }

  predicate Shaped(s: Screen) {
    && |s.hist| == HISTORY_ROWS && (forall i :: 0 <= i < HISTORY_ROWS ==> |s.hist[i]| == MAX_COLUMNS)
    && |s.cells| == s.rows && (forall r :: 0 <= r < s.rows ==> |s.cells[r]| == s.columns)
    && s.col <= s.columns <= MAX_COLUMNS
  }

  // ----- the view ----------------------------------------------------------------------------------

  /** The oldest line the history still holds. */
  function Oldest(cur: nat): nat { if cur + 1 > HISTORY_ROWS then cur + 1 - HISTORY_ROWS else 0 }

  /** The first line of the view when the current line is its last. */
  function Bottom(rows: nat, cur: nat): nat { if rows == 0 || cur + 1 <= rows then 0 else cur + 1 - rows }

  function Clamp(rows: nat, cur: nat, top: nat): nat {
    var raised := if top < Oldest(cur) then Oldest(cur) else top;
    if raised > Bottom(rows, cur) then Bottom(rows, cur) else raised
  }

  function CharAt(s: Screen, line: nat, column: nat): char
    requires Shaped(s)
  {
    if column >= MAX_COLUMNS || line < Oldest(s.cur) || line > s.cur then ' ' else s.hist[line % HISTORY_ROWS][column]
  }

  // ----- drawing ---------------------------------------------------------------------------------------

  function Frame(s: Screen): (r: seq<Row>)
    requires Shaped(s)
  {
    seq(s.rows, r requires 0 <= r < s.rows => seq(s.columns, c requires 0 <= c < s.columns => CharAt(s, s.top + r, c)))
  }

  /** The full redraw. */
  function Render(s: Screen): (r: Screen)
    requires Shaped(s)
    ensures Shaped(r)
  {
    var s' := s.(top := Clamp(s.rows, s.cur, s.top));
    s'.(cells := Frame(s'))
  }

  /** One cell, if its line and column are in view. */
  function Draw(s: Screen, line: nat, column: nat): (r: Screen)
    requires Shaped(s)
    ensures Shaped(r)
  {
    if s.top <= line < s.top + s.rows && column < s.columns then
      s.(cells := s.cells[line - s.top := s.cells[line - s.top][column := CharAt(s, line, column)]])
    else s
  }

  /** Moves the picture up by one row; nothing happens on fewer than two rows. */
  function ScrollUp(cells: seq<Row>, columns: nat): seq<Row> {
    if |cells| <= 1 then cells else cells[1..] + [Blank(columns)]
  }

  // ----- operations ------------------------------------------------------------------------------------------

  predicate Follows(s: Screen) { s.top >= Bottom(s.rows, s.cur) }

  function Newline(s: Screen): (r: Screen)
    requires Shaped(s)
    ensures Shaped(r) && r.col == 0 && r.rows == s.rows && r.columns == s.columns && r.cur == s.cur + 1
  {
    var cur := s.cur + 1;
    var top := Clamp(s.rows, cur, if Follows(s) then Bottom(s.rows, cur) else s.top);
    var s' := s.(cur := cur, col := 0, hist := s.hist[cur % HISTORY_ROWS := Blank(MAX_COLUMNS)], top := top);
    if Follows(s) && top == s.top + 1 then s'.(cells := ScrollUp(s.cells, s.columns))
    else if top != s.top then Render(s')
    else s'
  }

  /** A printing character. */
  function Put(s: Screen, ch: char): (r: Screen)
    requires Shaped(s) && s.columns > 0
    ensures Shaped(r) && r.rows == s.rows && r.columns == s.columns
    ensures r.col == AfterPut(s.columns, s.col)
  {
    var s1 := if s.col >= s.columns then Newline(s) else s;
    var slot := s1.cur % HISTORY_ROWS;
    var s2 := s1.(hist := s1.hist[slot := s1.hist[slot][s1.col := ch]],
                  top := Clamp(s1.rows, s1.cur, if Follows(s1) then Bottom(s1.rows, s1.cur) else s1.top));
    var s3 := if s2.top != s1.top then Render(s2) else Draw(s2, s1.cur, s1.col);
    s3.(col := s1.col + 1)
  }

  function Backspace(s: Screen): (r: Screen)
    requires Shaped(s)
    ensures Shaped(r) && r.rows == s.rows && r.columns == s.columns
  {
    if s.col == 0 then s
    else
      var slot, col := s.cur % HISTORY_ROWS, s.col - 1;
      Draw(s.(hist := s.hist[slot := s.hist[slot][col := ' ']], col := col), s.cur, col)
  }

  /** A tab stop: every fourth column. */
  predicate AtStop(col: nat) { col % 4 == 0 }

  /** Puts until the next multiple of four, possibly over a line break. */
  function PutsToStop(columns: nat, col: nat): nat
    requires columns >= 4
  {
    if col + (4 - col % 4) <= columns then 4 - col % 4 else if col < columns then columns - col + 4 else 4
  }

  lemma StopNearer(columns: nat, col: nat)
    requires columns >= 4 && col <= columns
    ensures var next := AfterPut(columns, col);
      AtStop(next) || PutsToStop(columns, next) < PutsToStop(columns, col)
  {
  }

  /** Blanks up to the next tab stop, which exists as soon as there are four columns. */
  function Tab(s: Screen): (r: Screen)
    requires Shaped(s) && s.columns >= 4
    ensures Shaped(r) && r.rows == s.rows && r.columns == s.columns && AtStop(r.col)
    decreases PutsToStop(s.columns, s.col)
  {
    StopNearer(s.columns, s.col);
    var s' := Put(s, ' ');
    if AtStop(s'.col) then s' else Tab(s')
  }

  /** The screen after n blanks. */
  function Blanks(s: Screen, n: nat): (r: Screen)
    requires Shaped(s) && s.columns > 0
    ensures Shaped(r) && r.columns == s.columns
  {
    if n == 0 then s else Put(Blanks(s, n - 1), ' ')
  }

  /** On one to three columns no number of blanks reaches a tab stop. */
  lemma {:induction false} TabDiverges(s: Screen, n: nat)
    requires Shaped(s) && 1 <= s.columns < 4 && n >= 1
    ensures !AtStop(Blanks(s, n).col)
  {
    hide Put, Shaped;
    assert Blanks(s, n) == Put(Blanks(s, n - 1), ' ');
  }

  function AfterPut(columns: nat, col: nat): nat { if col >= columns then 1 else col + 1 }

  /** The number of blanks a tab writes. */
  function TabWidth(columns: nat, col: nat): (n: nat)
    requires columns >= 4 && col <= columns
    ensures n >= 1
    decreases PutsToStop(columns, col)
  {
    StopNearer(columns, col);
    if AtStop(AfterPut(columns, col)) then 1 else TabWidth(columns, AfterPut(columns, col)) + 1
  }

  /** On four or more columns a tab is that number of blanks. */
  lemma {:induction false} TabIsBlanks(s: Screen)
    requires Shaped(s) && s.columns >= 4
    ensures Tab(s) == Blanks(s, TabWidth(s.columns, s.col))
    decreases PutsToStop(s.columns, s.col)
  {
    hide Put, PutsToStop, Shaped, Tab, Blanks, AtStop, AfterPut;
    CursorInside(s);
    StopNearer(s.columns, s.col);
    TabUnfolds(s);
    var s', next := Put(s, ' '), AfterPut(s.columns, s.col);
    assert s'.col == next && s'.columns == s.columns;
    CursorInside(s');
    if AtStop(next) {
      BlanksOne(s);
      assert TabWidth(s.columns, s.col) == 1;
    } else {
      TabIsBlanks(s');
      BlanksFirst(s, TabWidth(s.columns, next));
      assert TabWidth(s.columns, s.col) == TabWidth(s.columns, next) + 1;
    }
  }

  /**
   * How many blanks that is: up to the next multiple of four if the line has it, else to the end of the line and
   * four more on the next.
   */
  lemma {:induction false} TabWidthIs(columns: nat, col: nat)
    requires columns >= 4 && col <= columns
    ensures TabWidth(columns, col) ==
      if col / 4 * 4 + 4 <= columns then 4 - col % 4 else columns - col + 4
    decreases PutsToStop(columns, col)
  {
    StopNearer(columns, col);
    if !AtStop(AfterPut(columns, col)) {
      TabWidthIs(columns, AfterPut(columns, col));
    }
  }

  lemma TabUnfolds(s: Screen)
    requires Shaped(s) && s.columns >= 4
    ensures Tab(s) == if AtStop(Put(s, ' ').col) then Put(s, ' ') else Tab(Put(s, ' '))
  {
    hide Put;
  }

  lemma BlanksOne(s: Screen)
    requires Shaped(s) && s.columns > 0
    ensures Blanks(s, 1) == Put(s, ' ')
  {
    hide Put;
    assert Blanks(s, 1) == Put(Blanks(s, 0), ' ');
  }

  lemma CursorInside(s: Screen)
    requires Shaped(s)
    ensures s.col <= s.columns <= MAX_COLUMNS
  {
  }

  lemma {:induction false} BlanksFirst(s: Screen, n: nat)
    requires Shaped(s) && s.columns > 0
    ensures Blanks(s, n + 1) == Blanks(Put(s, ' '), n)
  {
    hide Put, Shaped;
    assert Blanks(s, n + 1) == Put(Blanks(s, n), ' ');
    if n == 0 {
      assert Blanks(s, 0) == s && Blanks(Put(s, ' '), 0) == Put(s, ' ');
    } else {
      BlanksFirst(s, n - 1);
      assert Blanks(Put(s, ' '), n) == Put(Blanks(Put(s, ' '), n - 1), ' ');
    }
  }

  /** Differences of line numbers are taken in 64 bits. */
  function Scroll(s: Screen, lines: int): (r: Screen)
    requires Shaped(s)
    ensures Shaped(r) && r.rows == s.rows && r.columns == s.columns
  {
    if lines == 0 then s
    else
      var oldest, bottom := Oldest(s.cur), Bottom(s.rows, s.cur);
      var moved :=
        if lines < 0 then (if -lines > (s.top - oldest) % TWO64 then oldest else (s.top + lines) % TWO64)
        else (if lines > (bottom - s.top) % TWO64 then bottom else (s.top + lines) % TWO64);
      var top := Clamp(s.rows, s.cur, moved);
      if top != s.top then Render(s.(top := top)) else s.(top := top)
  }

  function Cleared(rows: nat, columns: nat): (r: Screen)
    requires columns <= MAX_COLUMNS
    ensures Shaped(r) && r.rows == rows && r.columns == columns
  {
    Screen(rows, columns, seq(HISTORY_ROWS, i => Blank(MAX_COLUMNS)), seq(rows, i => Blank(columns)), 0, 0, 0)
  }

  datatype Key = Char(ch: char) | ScrollBy(lines: int) | ClearAll

  /** A tab on one to three columns never returns. */
  predicate Returns(columns: nat, k: Key) { k == Char('\t') ==> columns == 0 || columns >= 4 }

  /** A printing character or a tab is refused without columns. */
  function Press(s: Screen, k: Key): (r: Screen)
    requires Shaped(s) && Returns(s.columns, k)
    ensures Shaped(r) && r.rows == s.rows && r.columns == s.columns
  {
    match k
    case Char(ch) =>
      if ch == '\n' then Newline(s)
      else if ch == '\r' then s.(col := 0)
      else if ch == BACKSPACE then Backspace(s)
      else if s.columns == 0 then s
      else if ch == '\t' then Tab(s)
      else Put(s, ch)
    case ScrollBy(lines) => Scroll(s, lines)
    case ClearAll => Cleared(s.rows, s.columns)
  }
}
