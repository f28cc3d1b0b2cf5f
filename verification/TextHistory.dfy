/** The screen against the unbounded text: the grid is always the window of the text at the view. */
module TextHistory {
  import opened KernelTypes
  import opened TextScreen

  // ----- the text -----------------------------------------------------------------------------------

  /** Every line ever written, blank-padded, and the cursor's column on the last of them. */
  datatype Text = Text(lines: seq<Row>, col: nat)

  predicate TextOk(t: Text) {
    t.lines != [] && forall i :: 0 <= i < |t.lines| ==> |t.lines[i]| == MAX_COLUMNS
  }

  function TextNewline(t: Text): Text { Text(t.lines + [Blank(MAX_COLUMNS)], 0) }

  function WithChar(t: Text, col: nat, ch: char): (r: Text)
    requires TextOk(t) && col < MAX_COLUMNS
    ensures TextOk(r)
  {
    var last := |t.lines| - 1;
    t.(lines := t.lines[last := t.lines[last][col := ch]])
  }

  function TextPut(t: Text, columns: nat, ch: char): (r: Text)
    requires TextOk(t) && 0 < columns <= MAX_COLUMNS
    ensures TextOk(r) && r.col == AfterPut(columns, t.col)
  {
    var t1 := if t.col >= columns then TextNewline(t) else t;
    WithChar(t1, t1.col, ch).(col := t1.col + 1)
  }

  function TextBackspace(t: Text): (r: Text)
    requires TextOk(t) && t.col <= MAX_COLUMNS
    ensures TextOk(r)
  {
    if t.col == 0 then t else WithChar(t, t.col - 1, ' ').(col := t.col - 1)
  }

  function TextTab(t: Text, columns: nat): (r: Text)
    requires TextOk(t) && 4 <= columns <= MAX_COLUMNS && t.col <= columns
    ensures TextOk(r)
    decreases PutsToStop(columns, t.col)
  {
    StopNearer(columns, t.col);
    var t' := TextPut(t, columns, ' ');
    if AtStop(t'.col) then t' else TextTab(t', columns)
  }

  const NO_TEXT: Text := Text([Blank(MAX_COLUMNS)], 0)

  function TextPress(t: Text, columns: nat, k: Key): (r: Text)
    requires TextOk(t) && t.col <= columns <= MAX_COLUMNS && Returns(columns, k)
    ensures TextOk(r)
  {
    match k
    case Char(ch) =>
      if ch == '\n' then TextNewline(t)
      else if ch == '\r' then t.(col := 0)
      else if ch == BACKSPACE then TextBackspace(t)
      else if columns == 0 then t
      else if ch == '\t' then TextTab(t, columns)
      else TextPut(t, columns, ch)
    case ScrollBy(_) => t
    case ClearAll => NO_TEXT
  }

  /** What a viewer sees of the text at a line: only the newest lines are kept. */
  function Shown(t: Text, line: nat, column: nat): char
    requires TextOk(t) && column < MAX_COLUMNS
  {
    if Oldest(|t.lines| - 1) <= line < |t.lines| then t.lines[line][column] else ' '
  }

  // ----- the invariant ---------------------------------------------------------------------------------

  /** The history ring holds the newest lines of the text. */
  ghost predicate Holds(s: Screen, t: Text)
    requires Shaped(s)
  {
    && TextOk(t) && |t.lines| == s.cur + 1 && t.col == s.col
    && forall l :: Oldest(s.cur) <= l <= s.cur ==> s.hist[l % HISTORY_ROWS] == t.lines[l]
  }

  ghost predicate ShowsWindow(s: Screen, t: Text)
    requires Shaped(s) && TextOk(t)
  {
    forall r, c :: 0 <= r < s.rows && 0 <= c < s.columns ==> s.cells[r][c] == Shown(t, s.top + r, c)
  }

  ghost predicate InRange(s: Screen) {
    s.rows > 0 ==> Oldest(s.cur) <= s.top <= Bottom(s.rows, s.cur)
  }

  /** Sizes for which the incremental drawing is right. */
  predicate Fits(rows: nat) { rows != 1 && rows <= HISTORY_ROWS }

  ghost predicate ScreenOk(s: Screen, t: Text) {
    Shaped(s) && Holds(s, t) && InRange(s) && ShowsWindow(s, t)
  }

  lemma ClampInRange(rows: nat, cur: nat, top: nat)
    requires 0 < rows <= HISTORY_ROWS
    ensures Oldest(cur) <= Clamp(rows, cur, top) <= Bottom(rows, cur)
    ensures Oldest(cur) <= top <= Bottom(rows, cur) ==> Clamp(rows, cur, top) == top
  {
  }

  /** A full redraw shows the window of the text. */
  lemma RenderShows(s: Screen, t: Text)
    requires Shaped(s) && Holds(s, t)
    ensures Holds(Render(s), t) && ShowsWindow(Render(s), t)
    ensures 0 < s.rows <= HISTORY_ROWS ==> InRange(Render(s))
  {
    if 0 < s.rows <= HISTORY_ROWS {
      ClampInRange(s.rows, s.cur, s.top);
    }
    hide Clamp;
    var s' := s.(top := Clamp(s.rows, s.cur, s.top));
    forall r, c | 0 <= r < s.rows && 0 <= c < s.columns
      ensures Render(s).cells[r][c] == Shown(t, s'.top + r, c)
    {
      FrameAt(s', t, r, c);
    }
  }

  lemma FrameAt(s: Screen, t: Text, r: nat, c: nat)
    requires Shaped(s) && Holds(s, t) && r < s.rows && c < s.columns
    ensures Frame(s)[r][c] == Shown(t, s.top + r, c)
  {
    var l := s.top + r;
    if Oldest(s.cur) <= l <= s.cur {
      assert s.hist[l % HISTORY_ROWS] == t.lines[l];
    }
    assert Frame(s)[r][c] == CharAt(s, l, c);
  }

  // ----- every operation keeps it ----------------------------------------------------------------------

  lemma SlotsApart(a: nat, b: nat)
    requires a < b < a + HISTORY_ROWS
    ensures a % HISTORY_ROWS != b % HISTORY_ROWS
  {
  }

  /** The history after a new line: the slot it takes held a line that is now too old. */
  lemma NewlineHolds(s: Screen, s': Screen, t: Text)
    requires Shaped(s) && Holds(s, t) && Shaped(s')
    requires s'.cur == s.cur + 1 && s'.col == 0
    requires s'.hist == s.hist[s'.cur % HISTORY_ROWS := Blank(MAX_COLUMNS)]
    ensures Holds(s', TextNewline(t))
  {
    forall l | Oldest(s'.cur) <= l <= s'.cur ensures s'.hist[l % HISTORY_ROWS] == TextNewline(t).lines[l] {
      if l < s'.cur {
        SlotsApart(l, s'.cur);
        assert s.hist[l % HISTORY_ROWS] == t.lines[l];
      }
    }
  }

  lemma NewlineOk(s: Screen, t: Text)
    requires ScreenOk(s, t) && Fits(s.rows)
    ensures ScreenOk(Newline(s), TextNewline(t))
  {
    var s', t' := Newline(s), TextNewline(t);
    NewlineHolds(s, s', t);
    if s.rows > 0 {
      var top := if Follows(s) then Bottom(s.rows, s.cur + 1) else s.top;
      ClampInRange(s.rows, s.cur + 1, top);
      var moved := Clamp(s.rows, s.cur + 1, top);
      if Follows(s) && moved == s.top + 1 {
        ScrolledShows(s, s', t);
      } else if moved != s.top {
        var raw := s.(cur := s.cur + 1, col := 0, hist := s'.hist, top := moved);
        NewlineHolds(s, raw, t);
        RenderShows(raw, t');
        ClampInRange(s.rows, s.cur + 1, moved);
      } else {
        UnmovedShows(s, s', t);
      }
    }
  }

  lemma ScrolledShows(s: Screen, s': Screen, t: Text)
    requires ScreenOk(s, t) && s.rows >= 2 && Shaped(s') && s'.rows == s.rows && s'.columns == s.columns
    requires s'.cur == s.cur + 1 && s'.top == s.top + 1 == Bottom(s.rows, s'.cur) && Oldest(s'.cur) <= s'.top
    requires s'.cells == ScrollUp(s.cells, s.columns)
    ensures ShowsWindow(s', TextNewline(t))
  {
    hide Oldest, Holds;
    var t' := TextNewline(t);
    TextLength(s, t);
    forall r, c | 0 <= r < s.rows && 0 <= c < s.columns ensures s'.cells[r][c] == Shown(t', s'.top + r, c) {
      if r < s.rows - 1 {
        assert s'.cells[r][c] == s.cells[r + 1][c] == Shown(t, s.top + (r + 1), c);
        NewlineShown(t, s'.top + r, c);
      } else {
        assert s'.top + r == s'.cur;
      }
    }
  }

  lemma TextLength(s: Screen, t: Text)
    requires Shaped(s) && Holds(s, t)
    ensures |t.lines| == s.cur + 1 && TextOk(TextNewline(t)) && TextOk(t)
  {
  }

  /** Lines that stay young enough look the same after a new line. */
  lemma NewlineShown(t: Text, line: nat, c: nat)
    requires TextOk(t) && c < MAX_COLUMNS && Oldest(|t.lines|) <= line
    ensures TextOk(TextNewline(t)) && Shown(TextNewline(t), line, c) == Shown(t, line, c)
  {
  }

  lemma UnmovedShows(s: Screen, s': Screen, t: Text)
    requires ScreenOk(s, t) && Shaped(s') && s'.rows == s.rows && s'.columns == s.columns
    requires s'.cur == s.cur + 1 && s'.top == s.top && Oldest(s'.cur) <= s'.top && s'.cells == s.cells
    ensures ShowsWindow(s', TextNewline(t))
  {
    TextLength(s, t);
    forall r, c | 0 <= r < s.rows && 0 <= c < s.columns ensures s'.cells[r][c] == Shown(TextNewline(t), s'.top + r, c) {
      NewlineShown(t, s.top + r, c);
    }
  }

  /** Changing a character of the current line and drawing its cell. */
  lemma DrawOk(s: Screen, t: Text, col: nat, ch: char, col': nat)
    requires ScreenOk(s, t) && col < s.columns && col' <= s.columns
    ensures var slot := s.cur % HISTORY_ROWS;
      var s1 := s.(hist := s.hist[slot := s.hist[slot][col := ch]]);
      Shaped(s1) && ScreenOk(Draw(s1, s.cur, col).(col := col'), WithChar(t, col, ch).(col := col'))
  {
    var slot := s.cur % HISTORY_ROWS;
    var s1, t1 := s.(hist := s.hist[slot := s.hist[slot][col := ch]]), WithChar(t, col, ch);
    assert s.hist[s.cur % HISTORY_ROWS] == t.lines[s.cur];
    assert Holds(s1, t1) by {
      forall l | Oldest(s.cur) <= l <= s.cur ensures s1.hist[l % HISTORY_ROWS] == t1.lines[l] {
        assert s.hist[l % HISTORY_ROWS] == t.lines[l];
        if l < s.cur {
          SlotsApart(l, s.cur);
        }
      }
    }
    DrawShows(s, s1, t, col, ch);
  }

  lemma DrawShows(s: Screen, s1: Screen, t: Text, col: nat, ch: char)
    requires ScreenOk(s, t) && col < s.columns && Shaped(s1) && Holds(s1, WithChar(t, col, ch))
    requires s1 == s.(hist := s1.hist)
    ensures ShowsWindow(Draw(s1, s.cur, col), WithChar(t, col, ch))
  {
    var t1, d := WithChar(t, col, ch), Draw(s1, s.cur, col);
    assert s1.hist[s.cur % HISTORY_ROWS] == t1.lines[s.cur];
    hide Holds;
    forall r, c | 0 <= r < s.rows && 0 <= c < s.columns ensures d.cells[r][c] == Shown(t1, s.top + r, c) {
      assert s.cells[r][c] == Shown(t, s.top + r, c);
    }
  }

  lemma PutOk(s: Screen, t: Text, ch: char)
    requires ScreenOk(s, t) && Fits(s.rows) && s.columns > 0
    ensures ScreenOk(Put(s, ch), TextPut(t, s.columns, ch))
  {
    hide Newline, TextNewline, ShowsWindow;
    if s.col >= s.columns {
      NewlineOk(s, t);
      PutInside(Newline(s), TextNewline(t), ch);
    } else {
      PutInside(s, t, ch);
    }
  }

  lemma PutInside(s: Screen, t: Text, ch: char)
    requires ScreenOk(s, t) && s.rows <= HISTORY_ROWS && s.col < s.columns
    ensures ScreenOk(Put(s, ch), TextPut(t, s.columns, ch))
  {
    ViewStays(s);
    DrawOk(s, t, s.col, ch, s.col + 1);
  }

  /** A view in range does not move when it is clamped or follows. */
  lemma ViewStays(s: Screen)
    requires InRange(s) && s.rows <= HISTORY_ROWS
    ensures s.rows > 0 ==> Clamp(s.rows, s.cur, if Follows(s) then Bottom(s.rows, s.cur) else s.top) == s.top
  {
  }

  lemma BackspaceOk(s: Screen, t: Text)
    requires ScreenOk(s, t) && s.rows <= HISTORY_ROWS
    ensures ScreenOk(Backspace(s), TextBackspace(t))
  {
    if s.col > 0 {
      DrawOk(s, t, s.col - 1, ' ', s.col - 1);
      hide ScreenOk, CharAt;
    }
  }

  lemma {:induction false} TabOk(s: Screen, t: Text)
    requires ScreenOk(s, t) && Fits(s.rows) && s.columns >= 4
    ensures ScreenOk(Tab(s), TextTab(t, s.columns))
    decreases PutsToStop(s.columns, s.col)
  {
    PutOk(s, t, ' ');
    CursorInside(s);
    TabUnfolds(s);
    TextTabUnfolds(t, s.columns);
    hide Put, TextPut, Shaped, PutsToStop, Tab, TextTab, Holds, InRange, ShowsWindow;
    StopNearer(s.columns, s.col);
    SameCursor(s, t);
    SameCursor(Put(s, ' '), TextPut(t, s.columns, ' '));
    if !AtStop(Put(s, ' ').col) {
      TabOk(Put(s, ' '), TextPut(t, s.columns, ' '));
    }
  }

  lemma SameCursor(s: Screen, t: Text)
    requires ScreenOk(s, t)
    ensures s.col == t.col && TextOk(t)
  {
  }

  lemma TextTabUnfolds(t: Text, columns: nat)
    requires TextOk(t) && 4 <= columns <= MAX_COLUMNS && t.col <= columns
    ensures TextPut(t, columns, ' ').col <= columns
    ensures var t' := TextPut(t, columns, ' ');
      TextTab(t, columns) == if AtStop(t'.col) then t' else TextTab(t', columns)
  {
    hide WithChar;
  }

  lemma ScrollOk(s: Screen, t: Text, lines: int)
    requires ScreenOk(s, t) && s.rows <= HISTORY_ROWS
    ensures ScreenOk(Scroll(s, lines), t)
  {
    if Scroll(s, lines).top != s.top && s.rows > 0 {
      var raw := s.(top := Scroll(s, lines).top);
      RenderShows(raw, t);
      RenderTwice(s, lines, t);
    }
  }

  /** The number closest to n between low and high. */
  function Between(low: int, n: int, high: int): int { if n < low then low else if n > high then high else n }

  /** The oldest line kept of those up to cur, and the first line of a view of rows lines that ends with cur. */
  function FirstKept(cur: nat): nat { if cur < 256 then 0 else cur - 255 }
  function LastView(rows: nat, cur: nat): nat { if cur < rows then 0 else cur + 1 - rows }

  /** Scrolling moves the view by exactly so many lines, as far as there are any, and changes no text. */
  lemma ScrollExact(s: Screen, lines: int)
    requires Shaped(s) && InRange(s) && 0 < s.rows <= 256 && s.cur < TWO64
    ensures var r := Scroll(s, lines);
      && r.top == Between(FirstKept(s.cur), s.top + lines, LastView(s.rows, s.cur))
      && r.hist == s.hist && r.cur == s.cur && r.col == s.col
  {
    hide Shaped, Frame;
  }

  /**
   * Writing keeps the view where it is as long as its first line is kept, except that a view that ends with the
   * current line goes on doing so.
   */
  lemma ViewFollows(s: Screen, ch: char)
    requires Shaped(s) && InRange(s) && 0 < s.rows <= 256 && s.columns > 0
    ensures var r := Newline(s);
      r.top == if s.top == LastView(s.rows, s.cur) then LastView(s.rows, r.cur)
               else Between(FirstKept(r.cur), s.top, s.top + 1)
    ensures var r := Put(s, ch);
      && r.cur == (if s.col >= s.columns then s.cur + 1 else s.cur)
      && r.top == if s.top == LastView(s.rows, s.cur) then LastView(s.rows, r.cur)
                  else Between(FirstKept(r.cur), s.top, s.top + 1)
    ensures Backspace(s).top == s.top
  {
    hide Shaped, Frame;
  }

  /** The line the view moves to is already clamped, so the redraw does not move it again. */
  lemma RenderTwice(s: Screen, lines: int, t: Text)
    requires ScreenOk(s, t) && 0 < s.rows <= HISTORY_ROWS && Scroll(s, lines).top != s.top
    ensures Scroll(s, lines) == Render(s.(top := Scroll(s, lines).top))
  {
    hide Frame;
  }

  lemma PressOk(s: Screen, t: Text, k: Key)
    requires ScreenOk(s, t) && Fits(s.rows) && Returns(s.columns, k)
    ensures t.col <= s.columns <= MAX_COLUMNS && TextOk(t) && ScreenOk(Press(s, k), TextPress(t, s.columns, k))
  {
    SameCursor(s, t);
    CursorInside(s);
    hide Newline, Put, Backspace, Tab, Scroll, TextNewline, TextPut, TextBackspace, TextTab;
    match k {
      case Char(ch) =>
        if ch == '\n' {
          NewlineOk(s, t);
        } else if ch == BACKSPACE {
          BackspaceOk(s, t);
        } else if ch == '\r' || s.columns == 0 {
        } else if ch == '\t' {
          TabOk(s, t);
        } else {
          PutOk(s, t, ch);
        }
      case ScrollBy(lines) => ScrollOk(s, t, lines);
      case ClearAll => ClearedOk(s.rows, s.columns);
    }
  }

  lemma ClearedOk(rows: nat, columns: nat)
    requires columns <= MAX_COLUMNS
    ensures ScreenOk(Cleared(rows, columns), NO_TEXT)
  {
  }

  // ----- every run --------------------------------------------------------------------------------------------

  predicate AllReturn(columns: nat, ks: seq<Key>) { forall i :: 0 <= i < |ks| ==> Returns(columns, ks[i]) }

  function Run(s: Screen, ks: seq<Key>): (r: Screen)
    requires Shaped(s) && AllReturn(s.columns, ks)
    ensures Shaped(r) && r.rows == s.rows && r.columns == s.columns
  {
    if ks == [] then s else Press(Run(s, ks[..|ks| - 1]), ks[|ks| - 1])
  }

  ghost function RunText(t: Text, columns: nat, ks: seq<Key>): (r: Text)
    requires TextOk(t) && t.col <= columns <= MAX_COLUMNS && AllReturn(columns, ks)
    ensures TextOk(r)
  {
    if ks == [] then t
    else
      var before := RunText(t, columns, ks[..|ks| - 1]);
      if before.col <= columns then TextPress(before, columns, ks[|ks| - 1]) else before
  }

  lemma {:induction false} RunOk(rows: nat, columns: nat, ks: seq<Key>)
    requires columns <= MAX_COLUMNS && Fits(rows) && AllReturn(columns, ks)
    ensures ScreenOk(Run(Cleared(rows, columns), ks), RunText(NO_TEXT, columns, ks))
  {
    hide Press, TextPress, ScreenOk, Cleared;
    ClearedOk(rows, columns);
    if ks != [] {
      var front := ks[..|ks| - 1];
      RunOk(rows, columns, front);
      PressOk(Run(Cleared(rows, columns), front), RunText(NO_TEXT, columns, front), ks[|ks| - 1]);
    }
  }

  /**
   * After any run from a clear, with no rows or 2 to 256 of them, the incrementally drawn grid is what a
   * full redraw would draw, which is the window of everything written; and the view is inside the history.
   */
  lemma GridIsRedraw(rows: nat, columns: nat, ks: seq<Key>)
    requires columns <= MAX_COLUMNS && Fits(rows) && AllReturn(columns, ks)
    ensures var s, t := Run(Cleared(rows, columns), ks), RunText(NO_TEXT, columns, ks);
      && s.cells == Render(s).cells
      && (forall r, c :: 0 <= r < rows && 0 <= c < columns ==> s.cells[r][c] == Shown(t, s.top + r, c))
      && (rows > 0 ==> Oldest(s.cur) <= s.top <= Bottom(rows, s.cur))
  {
    hide Run, RunText, Cleared, Holds, Render, Shown, Oldest, Bottom, Shaped;
    RunOk(rows, columns, ks);
    var s, t := Run(Cleared(rows, columns), ks), RunText(NO_TEXT, columns, ks);
    SameAsRedraw(s, t);
  }

  lemma SameAsRedraw(s: Screen, t: Text)
    requires ScreenOk(s, t) && s.rows <= HISTORY_ROWS
    ensures s.cells == Render(s).cells
  {
    RenderShows(s, t);
    var d := Render(s);
    if s.rows > 0 {
      ClampInRange(s.rows, s.cur, s.top);
      forall r | 0 <= r < s.rows ensures s.cells[r] == d.cells[r] {
        forall c | 0 <= c < s.columns ensures s.cells[r][c] == d.cells[r][c] {
          assert d.cells[r][c] == Shown(t, d.top + r, c);
        }
      }
    }
  }

  // ----- sizes for which it fails ----------------------------------------------------------------------------

  /** A letter and then n new lines. */
  function LetterThenLines(n: nat): (ks: seq<Key>)
    ensures |ks| == n + 1
  {
    [Char('x')] + seq(n, i => Char('\n'))
  }

  /** On a single row the letter is left standing when the next line starts. */
  lemma OneRowFails(columns: nat)
    requires 1 <= columns <= MAX_COLUMNS
    ensures AllReturn(columns, LetterThenLines(1))
    ensures var s := Run(Cleared(1, columns), LetterThenLines(1)); s.cells != Render(s).cells
  {
    var ks := LetterThenLines(1);
    assert ks == [Char('x'), Char('\n')];
    var s0 := Cleared(1, columns);
    var s1 := Put(s0, 'x');
    var s2 := Newline(s1);
    assert ks[..1] == [Char('x')] && ks[..1][..0] == [];
    assert Run(s0, []) == s0;
    assert Run(s0, ks[..1]) == Press(s0, Char('x')) == s1;
    assert Run(s0, ks) == s2;
    OneRowCells(s0, columns);
  }

  lemma OneRowCells(s0: Screen, columns: nat)
    requires 1 <= columns <= MAX_COLUMNS && s0 == Cleared(1, columns)
    ensures Newline(Put(s0, 'x')).cells != Render(Newline(Put(s0, 'x'))).cells
  {
    var s1 := Put(s0, 'x');
    assert s1.cells[0][0] == 'x' && s1.cur == 0 && s1.top == 0;
    var s2 := Newline(s1);
    assert s2.cells == s1.cells && s2.cur == 1 && s2.top == 1;
    FrameBlank(s2.(top := Clamp(1, 1, 1)), 0, 0);
  }

  lemma FrameBlank(s: Screen, r: nat, c: nat)
    requires Shaped(s) && r < s.rows && c < s.columns
    requires s.top + r < Oldest(s.cur) || s.hist[(s.top + r) % HISTORY_ROWS] == Blank(MAX_COLUMNS)
    ensures Frame(s)[r][c] == ' '
  {
    assert Frame(s)[r][c] == CharAt(s, s.top + r, c);
  }

  lemma {:induction false} TallRun(rows: nat, columns: nat, n: nat)
    requires 1 <= columns <= MAX_COLUMNS && n < rows
    ensures AllReturn(columns, LetterThenLines(n))
    ensures var s := Run(Cleared(rows, columns), LetterThenLines(n));
      s.cells[0][0] == 'x' && s.cur == n && s.top == 0 && (n >= HISTORY_ROWS ==> Oldest(s.cur) > 0)
  {
    var s0, ks := Cleared(rows, columns), LetterThenLines(n);
    var front := ks[..n];
    assert Run(s0, ks) == Press(Run(s0, front), ks[n]);
    if n == 0 {
      assert front == [] && Run(s0, front) == s0;
      TallFirst(s0);
    } else {
      TallRun(rows, columns, n - 1);
      assert front == LetterThenLines(n - 1);
      TallNewline(Run(s0, front));
    }
  }

  lemma TallFirst(s: Screen)
    requires Shaped(s) && s.cur == 0 && s.top == 0 && s.col == 0 && s.rows > 0 && s.columns > 0
    ensures Put(s, 'x').cells[0][0] == 'x' && Put(s, 'x').cur == 0 && Put(s, 'x').top == 0
  {
  }

  /** While everything still fits on the screen, a new line leaves view and picture alone. */
  lemma TallNewline(s: Screen)
    requires Shaped(s) && s.top == 0 && s.cur + 1 < s.rows
    ensures Newline(s).cells == s.cells && Newline(s).top == 0
  {
  }

  /** On more rows than the history holds, a line that has left the history is left standing. */
  lemma TallFails(rows: nat, columns: nat)
    requires 1 <= columns <= MAX_COLUMNS && rows > HISTORY_ROWS
    ensures AllReturn(columns, LetterThenLines(HISTORY_ROWS))
    ensures var s := Run(Cleared(rows, columns), LetterThenLines(HISTORY_ROWS)); s.cells != Render(s).cells
  {
    TallRun(rows, columns, HISTORY_ROWS);
    var s := Run(Cleared(rows, columns), LetterThenLines(HISTORY_ROWS));
    hide Run, Shaped, LetterThenLines;
    assert Clamp(rows, s.cur, 0) == 0;
    FrameBlank(s, 0, 0);
  }

  /** Incremental drawing and full redraw agree in every run exactly for no columns, no rows, or 2 to 256 rows. */
  lemma RedrawIff(rows: nat, columns: nat)
    requires columns <= MAX_COLUMNS
    ensures columns == 0 || Fits(rows) <==>
      forall ks :: AllReturn(columns, ks) ==>
        Run(Cleared(rows, columns), ks).cells == Render(Run(Cleared(rows, columns), ks)).cells
  {
    hide Run, Cleared, Render, LetterThenLines, AllReturn;
    if columns == 0 || Fits(rows) {
      forall ks | AllReturn(columns, ks)
        ensures Run(Cleared(rows, columns), ks).cells == Render(Run(Cleared(rows, columns), ks)).cells
      {
        if Fits(rows) {
          GridIsRedraw(rows, columns, ks);
        } else {
          NoColumns(Run(Cleared(rows, columns), ks));
        }
      }
    } else if rows == 1 {
      OneRowFails(columns);
    } else {
      TallFails(rows, columns);
    }
  }

  lemma NoColumns(s: Screen)
    requires Shaped(s) && s.columns == 0
    ensures s.cells == Render(s).cells
  {
    var d := Render(s);
    forall r | 0 <= r < s.rows ensures s.cells[r] == d.cells[r] {
      assert |d.cells[r]| == 0;
    }
  }
}
