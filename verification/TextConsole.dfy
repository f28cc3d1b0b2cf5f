/** The console as the kernel keeps it: the history ring and the cell grid are arrays changed in place. */
module TextConsole {
  import opened KernelTypes
  import opened TextScreen
  import TextHistory

  ghost function Grid(a: array2<char>): (g: seq<Row>)
    reads a
    ensures |g| == a.Length0 && forall i :: 0 <= i < |g| ==> |g[i]| == a.Length1
    ensures forall i, j :: 0 <= i < a.Length0 && 0 <= j < a.Length1 ==> g[i][j] == a[i, j]
  {
    seq(a.Length0, i requires 0 <= i < a.Length0 reads a =>
      seq(a.Length1, j requires 0 <= j < a.Length1 reads a => a[i, j]))
  }

  /** An array with the same elements as g is g. */
  lemma SameGrid(a: array2<char>, g: seq<Row>)
    requires |g| == a.Length0 && forall i :: 0 <= i < |g| ==> |g[i]| == a.Length1
    requires forall i, j :: 0 <= i < a.Length0 && 0 <= j < a.Length1 ==> g[i][j] == a[i, j]
    ensures Grid(a) == g
  {
    forall i | 0 <= i < |g| ensures Grid(a)[i] == g[i] {
    }
  }

  function Keys(text: seq<char>): (ks: seq<Key>)
    ensures |ks| == |text| && forall i :: 0 <= i < |text| ==> ks[i] == Char(text[i])
  {
    seq(|text|, i requires 0 <= i < |text| => Char(text[i]))
  }

  /** A console without columns takes only the characters that need none. */
  predicate Refused(columns: nat, ch: char) { columns == 0 && ch != '\n' && ch != '\r' && ch != BACKSPACE }

  function FirstRefused(columns: nat, text: seq<char>, i: nat): (n: nat)
    requires i <= |text|
    ensures i <= n <= |text| && (n < |text| ==> Refused(columns, text[n]))
    ensures forall j :: i <= j < n ==> !Refused(columns, text[j])
    decreases |text| - i
  {
    if i == |text| || Refused(columns, text[i]) then i else FirstRefused(columns, text, i + 1)
  }

  lemma RefusedKeeps(s: Screen, ch: char)
    requires Shaped(s) && Refused(s.columns, ch)
    ensures Press(s, Char(ch)) == s
  {
  }

  lemma RenderCell(s: Screen, now: Screen, r: nat, c: nat)
    requires Shaped(s) && Shaped(now) && now.hist == s.hist && now.cur == s.cur && r < s.rows && c < s.columns
    ensures Frame(s)[r][c] == CharAt(now, s.top + r, c)
  {
    assert Frame(s)[r][c] == CharAt(s, s.top + r, c);
    assert CharAt(s, s.top + r, c) == CharAt(now, s.top + r, c);
  }

  class FramebufferText {
    const rows: nat
    const columns: nat
    const history: array2<char>
    const cells: array2<char>
    var col: nat
    var cur: nat
    var top: nat

    ghost function Value(): Screen
      reads this, history, cells
    {
      Screen(rows, columns, Grid(history), Grid(cells), col, cur, top)
    }

    ghost predicate Valid()
      reads this
    {
      && history.Length0 == HISTORY_ROWS && history.Length1 == MAX_COLUMNS
      && cells.Length0 == rows && cells.Length1 == columns
      && history != cells && col <= columns <= MAX_COLUMNS
    }

    /** A cleared console. */
    constructor (visibleRows: nat, visibleColumns: nat)
      requires visibleColumns <= MAX_COLUMNS
      ensures Valid() && Value() == Cleared(visibleRows, visibleColumns)
      ensures fresh(history) && fresh(cells)
    {
      rows, columns := visibleRows, visibleColumns;
      history := new char[HISTORY_ROWS, MAX_COLUMNS]((_, _) => ' ');
      cells := new char[visibleRows, visibleColumns]((_, _) => ' ');
      col, cur, top := 0, 0, 0;
      new;
      SameGrid(history, seq(HISTORY_ROWS, i => Blank(MAX_COLUMNS)));
      SameGrid(cells, seq(visibleRows, i => Blank(visibleColumns)));
    }

    method ClearHistoryRow(line: nat)
      requires Valid()
      modifies history
      ensures Grid(history) == old(Grid(history))[line % HISTORY_ROWS := Blank(MAX_COLUMNS)]
    {
      var slot := line % HISTORY_ROWS;
      for c := 0 to MAX_COLUMNS
        invariant forall j :: 0 <= j < c ==> history[slot, j] == ' '
        invariant forall i, j :: 0 <= i < HISTORY_ROWS && 0 <= j < MAX_COLUMNS && i != slot ==>
          history[i, j] == old(history[i, j])
      {
        history[slot, c] := ' ';
      }
      SameGrid(history, old(Grid(history))[slot := Blank(MAX_COLUMNS)]);
    }

    method HistoryCharAt(line: nat, column: nat) returns (ch: char)
      requires Valid()
      ensures Shaped(Value()) && ch == CharAt(Value(), line, column)
    {
      if column >= MAX_COLUMNS || line < Oldest(cur) || line > cur {
        return ' ';
      }
      return history[line % HISTORY_ROWS, column];
    }

    method DrawHistoryCell(line: nat, column: nat)
      requires Valid()
      modifies cells
      ensures Shaped(old(Value())) && Value() == Draw(old(Value()), line, column)
    {
      if top <= line < top + rows && column < columns {
        var ch := HistoryCharAt(line, column);
        ghost var s := Value();
        cells[line - top, column] := ch;
        SameGrid(history, s.hist);
        SameGrid(cells, Draw(s, line, column).cells);
      }
    }

    /** The redraw; a blank character leaves its cell cleared. */
    method RenderConsole()
      requires Valid()
      modifies this`top, cells
      ensures Valid() && Shaped(old(Value())) && Value() == Render(old(Value()))
    {
      top := Clamp(rows, cur, top);
      ghost var s := Value();
      ghost var f := Frame(s);
      for r := 0 to rows
        invariant forall i, j :: 0 <= i < r && 0 <= j < columns ==> cells[i, j] == f[i][j]
        invariant Grid(history) == s.hist && top == s.top
      {
        RenderRow(r, s);
      }
      SameGrid(cells, f);
    }

    method RenderRow(r: nat, ghost s: Screen)
      requires Valid() && r < rows && Shaped(s) && s == Value().(cells := s.cells)
      modifies cells
      ensures forall j :: 0 <= j < columns ==> cells[r, j] == Frame(s)[r][j]
      ensures forall i, j :: 0 <= i < rows && 0 <= j < columns && i != r ==> cells[i, j] == old(cells[i, j])
      ensures Grid(history) == s.hist
    {
      for c := 0 to columns
        invariant forall j :: 0 <= j < c ==> cells[r, j] == Frame(s)[r][j]
        invariant forall i, j :: 0 <= i < rows && 0 <= j < columns && i != r ==> cells[i, j] == old(cells[i, j])
        invariant Grid(history) == s.hist
      {
        RenderCell(s, Value(), r, c);
        var ch := HistoryCharAt(top + r, c);
        cells[r, c] := ch;
      }
    }

    method ScrollPixelsUp()
      requires Valid()
      modifies cells
      ensures Grid(cells) == ScrollUp(old(Grid(cells)), columns) && Grid(history) == old(Grid(history))
    {
      ghost var g, hist := Grid(cells), Grid(history);
      if rows <= 1 {
        return;
      }
      for r := 0 to rows - 1
        invariant forall i, j :: 0 <= i < r && 0 <= j < columns ==> cells[i, j] == g[i + 1][j]
        invariant forall i, j :: r <= i < rows && 0 <= j < columns ==> cells[i, j] == g[i][j]
        invariant Grid(history) == hist
      {
        for c := 0 to columns
          invariant forall i, j :: 0 <= i < r && 0 <= j < columns ==> cells[i, j] == g[i + 1][j]
          invariant forall j :: 0 <= j < c ==> cells[r, j] == g[r + 1][j]
          invariant forall i, j :: r < i < rows && 0 <= j < columns ==> cells[i, j] == g[i][j]
          invariant Grid(history) == hist
        {
          cells[r, c] := cells[r + 1, c];
          SameGrid(history, hist);
        }
      }
      var last := rows - 1;
      for c := 0 to columns
        invariant forall i, j :: 0 <= i < last && 0 <= j < columns ==> cells[i, j] == g[i + 1][j]
        invariant forall j :: 0 <= j < c ==> cells[last, j] == ' '
        invariant Grid(history) == hist
      {
        cells[last, c] := ' ';
        SameGrid(history, hist);
      }
      SameGrid(cells, ScrollUp(g, columns));
    }

    method ConsoleNewline()
      requires Valid()
      modifies this`col, this`cur, this`top, history, cells
      ensures Valid() && Shaped(old(Value())) && Value() == Newline(old(Value()))
    {
      hide Grid, Frame, Clamp, Bottom, Oldest, ScrollUp;
      ghost var s := Value();
      var follow, oldTop := top >= Bottom(rows, cur), top;
      cur := cur + 1;
      col := 0;
      ClearHistoryRow(cur);
      if follow {
        top := Bottom(rows, cur);
      }
      top := Clamp(rows, cur, top);
      if follow && top == oldTop + 1 {
        ScrollPixelsUp();
        return;
      }
      if top != oldTop {
        RenderConsole();
      }
    }

    /** A printing character, on a console with columns. */
    method PutPrinting(ch: char)
      requires Valid() && columns > 0
      modifies this`col, this`cur, this`top, history, cells
      ensures Valid() && Shaped(old(Value())) && Value() == Put(old(Value()), ch)
    {
      hide Frame, Clamp, Bottom, Oldest, Newline, CharAt;
      if col >= columns {
        ConsoleNewline();
      }
      var follow, oldTop := top >= Bottom(rows, cur), top;
      StoreChar(col, ch);
      if follow {
        top := Bottom(rows, cur);
      }
      top := Clamp(rows, cur, top);
      if top != oldTop {
        RenderConsole();
      } else {
        DrawHistoryCell(cur, col);
      }
      col := col + 1;
    }

    /** Writes into the current line of the history. */
    method StoreChar(column: nat, ch: char)
      requires Valid() && column < MAX_COLUMNS
      modifies history
      ensures Grid(cells) == old(Grid(cells))
      ensures |old(Grid(history))| == HISTORY_ROWS && |old(Grid(history))[cur % HISTORY_ROWS]| == MAX_COLUMNS
      ensures Grid(history) ==
        old(Grid(history))[cur % HISTORY_ROWS := old(Grid(history))[cur % HISTORY_ROWS][column := ch]]
    {
      ghost var g, slot := Grid(history), cur % HISTORY_ROWS;
      history[cur % HISTORY_ROWS, column] := ch;
      SameGrid(history, g[slot := g[slot][column := ch]]);
    }

    method ConsoleBackspace()
      requires Valid()
      modifies this`col, history, cells
      ensures Valid() && Shaped(old(Value())) && Value() == Backspace(old(Value()))
    {
      if col == 0 {
        return;
      }
      hide CharAt;
      col := col - 1;
      StoreChar(col, ' ');
      DrawHistoryCell(cur, col);
    }

    method PutTab()
      requires Valid() && columns >= 4
      modifies this`col, this`cur, this`top, history, cells
      ensures Valid() && Shaped(old(Value())) && Value() == Tab(old(Value()))
    {
      hide Put, Tab, PutsToStop;
      ghost var s := Value();
      TabUnfolds(s);
      StopNearer(columns, col);
      PutPrinting(' ');
      while !AtStop(col)
        invariant Valid() && Shaped(Value())
        invariant if AtStop(col) then Tab(s) == Value() else Tab(s) == Tab(Value())
        decreases if AtStop(col) then 0 else PutsToStop(columns, col) + 1
      {
        TabUnfolds(Value());
        StopNearer(columns, col);
        PutPrinting(' ');
      }
    }

    /** Any character; a printing character or a tab is refused on a console without columns. */
    method PutChar(ch: char) returns (s: Status)
      requires Valid() && Returns(columns, Char(ch))
      modifies this`col, this`cur, this`top, history, cells
      ensures Valid() && Shaped(old(Value())) && Value() == Press(old(Value()), Char(ch))
      ensures s == (if Refused(columns, ch) then NotSup else Ok)
    {
      hide Newline, Put, Tab, Backspace, Grid;
      if ch == '\n' {
        ConsoleNewline();
        return Ok;
      }
      if ch == '\r' {
        col := 0;
        return Ok;
      }
      if ch == BACKSPACE {
        ConsoleBackspace();
        return Ok;
      }
      if columns == 0 {
        return NotSup;
      }
      if ch == '\t' {
        PutTab();
        return Ok;
      }
      PutPrinting(ch);
      return Ok;
    }

    /** Characters in turn, up to the first one that is refused. */
    method Write(text: seq<char>) returns (s: Status)
      requires Valid() && TextHistory.AllReturn(columns, Keys(text))
      modifies this`col, this`cur, this`top, history, cells
      ensures Valid() && Shaped(old(Value()))
      ensures var n := FirstRefused(columns, text, 0);
        s == (if n == |text| then Ok else NotSup) && Value() == TextHistory.Run(old(Value()), Keys(text[..n]))
    {
      hide Press, Grid;
      ghost var start := Value();
      for i := 0 to |text|
        invariant Valid() && FirstRefused(columns, text, 0) == FirstRefused(columns, text, i)
        invariant Shaped(start) && Value() == TextHistory.Run(start, Keys(text[..i]))
      {
        assert Keys(text)[i] == Char(text[i]);
        assert Keys(text[..i + 1])[..i] == Keys(text[..i]);
        ghost var before := Value();
        s := PutChar(text[i]);
        if s != Ok {
          RefusedKeeps(before, text[i]);
          return;
        }
      }
      assert text[..|text|] == text;
      return Ok;
    }

    /** Moves the view within the history. */
    method ScrollView(lines: int)
      requires Valid()
      modifies this`top, cells
      ensures Valid() && Shaped(old(Value())) && Value() == Scroll(old(Value()), lines)
    {
      hide Grid, Frame, Clamp, Bottom, Oldest;
      if lines == 0 {
        return;
      }
      var oldTop, oldest, bottom := top, Oldest(cur), Bottom(rows, cur);
      if lines < 0 {
        top := if -lines > (top - oldest) % TWO64 then oldest else (top + lines) % TWO64;
      } else {
        top := if lines > (bottom - top) % TWO64 then bottom else (top + lines) % TWO64;
      }
      top := Clamp(rows, cur, top);
      if top != oldTop {
        RenderConsole();
      }
    }

    method Clear()
      requires Valid()
      modifies this`col, this`cur, this`top, history, cells
      ensures Valid() && Value() == Cleared(rows, columns)
    {
      ClearCells();
      ghost var blank := Grid(cells);
      for r := 0 to HISTORY_ROWS
        invariant forall i :: 0 <= i < r ==> Grid(history)[i] == Blank(MAX_COLUMNS)
        invariant Grid(cells) == blank && Valid()
      {
        ClearHistoryRow(r);
      }
      assert Grid(history) == seq(HISTORY_ROWS, i => Blank(MAX_COLUMNS));
      col, cur, top := 0, 0, 0;
    }

    method ClearCells()
      requires Valid()
      modifies cells
      ensures Grid(cells) == seq(rows, i => Blank(columns))
    {
      for r := 0 to rows
        invariant forall i, j :: 0 <= i < r && 0 <= j < columns ==> cells[i, j] == ' '
      {
        for c := 0 to columns
          invariant forall i, j :: 0 <= i < r && 0 <= j < columns ==> cells[i, j] == ' '
          invariant forall j :: 0 <= j < c ==> cells[r, j] == ' '
        {
          cells[r, c] := ' ';
        }
      }
      SameGrid(cells, seq(rows, i => Blank(columns)));
    }
  }
}
