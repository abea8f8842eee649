/** The playing field of Neitris (`Matrix` in neitris_class.py): clearing completed lines in
    place, with the powerups that sit on cells kept in a separate table. */
module TetrisBoard {
  import opened Basics

  const XMAX := 12
  const YMAX := 31
  const FALLING := -1

  datatype Powerup = Powerup(pid: int, ttl: int, former: int)

  type Place = (int, int)

  /** A cell together with the powerup on it. */
  datatype Cell = Cell(color: int, powerup: Option<Powerup>)

  const EMPTY := Cell(0, None)

  /** The ten cells between the walls. */
  type Row = r: seq<Cell> | |r| == 10 witness seq(10, _ => Cell(0, None))

  function EmptyRow(): Row {
    seq(10, _ => EMPTY)
  }

  // ---------------------------------------------------------------- the field as rows

  predicate Shaped(matrix: seq<seq<int>>, powerups: map<Place, Powerup>) {
    && |matrix| == YMAX
    && (forall i :: 0 <= i < YMAX ==> |matrix[i]| == XMAX)
    && forall p :: p in powerups ==> 0 <= p.0 < YMAX - 1 && 1 <= p.1 < XMAX - 1
  }

  function CellAt(matrix: seq<seq<int>>, powerups: map<Place, Powerup>, i: int, j: int): Cell
    requires Shaped(matrix, powerups) && 0 <= i < YMAX && 0 <= j < XMAX
  {
    Cell(matrix[i][j], if (i, j) in powerups then Some(powerups[(i, j)]) else None)
  }

  function RowAt(matrix: seq<seq<int>>, powerups: map<Place, Powerup>, i: int): Row
    requires Shaped(matrix, powerups) && 0 <= i < YMAX
  {
    seq(XMAX - 2, k requires 0 <= k < XMAX - 2 => CellAt(matrix, powerups, i, k + 1))
  }

  /** The rows above the floor, top row first. */
  function Rows(matrix: seq<seq<int>>, powerups: map<Place, Powerup>): (rows: seq<Row>)
    requires Shaped(matrix, powerups)
    ensures |rows| == YMAX - 1
  {
    seq(YMAX - 1, i requires 0 <= i < YMAX - 1 => RowAt(matrix, powerups, i))
  }

  /** The walls and the floor: all cells that are not in a row. */
  predicate SameWalls(m: seq<seq<int>>, n: seq<seq<int>>) {
    && |m| == |n| == YMAX
    && (forall i :: 0 <= i < YMAX ==>
          |m[i]| == |n[i]| == XMAX && m[i][0] == n[i][0] && m[i][XMAX - 1] == n[i][XMAX - 1])
    && m[YMAX - 1] == n[YMAX - 1]
  }

  /** No cell of a falling piece is in the row. */
  predicate Settled(row: Row) {
    forall k :: 0 <= k < XMAX - 2 ==> row[k].color != FALLING
  }

  /** A row after `ClearLine`: only the cells of a falling piece are left. */
  function Emptied(row: Row): Row {
    seq(10, k requires 0 <= k < 10 => Cell(if row[k].color == FALLING then FALLING else 0, None))
  }

  lemma EmptiedEmpty(row: Row)
    ensures Emptied(row) == EmptyRow() <==> Settled(row)
    ensures Emptied(Emptied(row)) == Emptied(row)
  {
    forall k | 0 <= k < 10 ensures Emptied(row)[k] == EMPTY <==> row[k].color != FALLING {
    }
    if Emptied(row) == EmptyRow() {
      assert forall k :: 0 <= k < 10 ==> Emptied(row)[k] == EmptyRow()[k];
    }
  }

  // ---------------------------------------------------------------- what clearing means

  /** The table without the powerups in the columns of a line before column `j`. */
  function Without(powerups: map<Place, Powerup>, line: int, j: int): map<Place, Powerup> {
    map p | p in powerups && !(p.0 == line && p.1 < j) :: powerups[p]
  }

  predicate Complete(row: Row) {
    forall k :: 0 <= k < XMAX - 2 ==> row[k].color != 0
  }

  /** The rows that are not complete, in order. */
  function Kept(rows: seq<Row>): seq<Row> {
    if rows == [] then []
    else Kept(rows[..|rows| - 1]) + if Complete(rows[|rows| - 1]) then [] else [rows[|rows| - 1]]
  }

  function PowerupsIn(cells: seq<Cell>): seq<Powerup> {
    if cells == [] then []
    else PowerupsIn(cells[..|cells| - 1])
         + if cells[|cells| - 1].powerup.Some? then [cells[|cells| - 1].powerup.value] else []
  }

  lemma PowerupsNext(row: seq<Cell>, k: nat)
    requires k < |row|
    ensures PowerupsIn(row[..k + 1])
         == PowerupsIn(row[..k]) + if row[k].powerup.Some? then [row[k].powerup.value] else []
  {
    assert row[..k + 1][..k] == row[..k];
  }

  /** The powerups on complete rows, row by row and left to right. */
  function Won(rows: seq<Row>): seq<Powerup> {
    if rows == [] then []
    else Won(rows[..|rows| - 1]) + if Complete(rows[|rows| - 1]) then PowerupsIn(rows[|rows| - 1]) else []
  }

  function Stack(n: nat, row: Row): seq<Row> {
    seq(n, _ => row)
  }

  /** Completed rows gone, the others in order at the bottom, empty rows on top. */
  function Cleared(rows: seq<Row>): seq<Row> {
    KeptBound(rows);
    Stack(|rows| - |Kept(rows)|, EmptyRow()) + Kept(rows)
  }

  /** What `ClearCompleted` leaves on top: the top row's cells of a falling piece, again and again. */
  function Top(rows: seq<Row>): Row {
    if rows == [] then EmptyRow() else Emptied(rows[0])
  }

  function Left(rows: seq<Row>): seq<Row> {
    KeptBound(rows);
    Stack(|rows| - |Kept(rows)|, Top(rows)) + Kept(rows)
  }

  /** That is the board one expects if and only if nothing was completed or no cell of a falling
      piece is in the top row. */
  lemma LeftCleared(rows: seq<Row>)
    requires rows != []
    ensures Left(rows) == Cleared(rows) <==> |Kept(rows)| == |rows| || Settled(rows[0])
  {
    KeptBound(rows);
    EmptiedEmpty(rows[0]);
    if |Kept(rows)| < |rows| {
      assert Left(rows)[0] == Top(rows) && Cleared(rows)[0] == EmptyRow();
    }
  }

  lemma KeptBound(rows: seq<Row>)
    ensures |Kept(rows)| <= |rows|
  {
  }

  /** Taking row `line` out and putting on top what is left of the top row. */
  function Dropped(rows: seq<Row>, line: nat): seq<Row>
    requires line < |rows|
  {
    [Emptied(rows[0])] + rows[..line] + rows[line + 1..]
  }

  class Board {
    var matrix: seq<seq<int>>
    var powerups: map<Place, Powerup>
    var cleared: seq<Powerup>

    predicate Valid()
      reads this
    {
      Shaped(matrix, powerups)
    }

    function Field(): seq<Row>
      reads this
      requires Valid()
    {
      Rows(matrix, powerups)
    }

    /** `ClearLine`, one cell: the powerup goes to the cleared ones, the cell becomes empty. */
    method ClearCell(line: nat, j: nat)
      requires Valid() && line < YMAX - 1 && 1 <= j < XMAX - 1
      modifies this
      ensures Valid()
      ensures cleared == old(cleared) + if (line, j) in old(powerups) then [old(powerups)[(line, j)]] else []
      ensures powerups == old(powerups) - {(line, j)}
      ensures old(matrix[line][j]) == FALLING ==> matrix == old(matrix)
      ensures old(matrix[line][j]) != FALLING ==> matrix == old(matrix)[line := old(matrix)[line][j := 0]]
    {
      if (line, j) in powerups {
        cleared := cleared + [powerups[(line, j)]];
        powerups := powerups - {(line, j)};
      }
      if matrix[line][j] != FALLING {
        matrix := matrix[line := matrix[line][j := 0]];
      }
    }

    method ClearLine(line: nat)
      requires Valid() && line < YMAX - 1
      modifies this
      ensures Valid() && SameWalls(matrix, old(matrix))
      ensures forall i, j :: 0 <= i < 31 && 0 <= j < 12 ==>
                matrix[i][j] == if i == line && 1 <= j <= 10 && old(matrix)[i][j] != -1 then 0 else old(matrix)[i][j]
      ensures Field() == old(Field())[line := Emptied(old(Field())[line])]
      ensures cleared == old(cleared) + PowerupsIn(old(Field())[line])
    {
      ghost var row := Field()[line];
      var j := 1;
      while j < XMAX - 1
        invariant 1 <= j <= XMAX - 1
        invariant Valid()
        invariant forall i :: 0 <= i < YMAX && i != line ==> matrix[i] == old(matrix)[i]
        invariant forall c :: 0 <= c < XMAX ==>
                    matrix[line][c] == if 1 <= c < j && old(matrix)[line][c] != FALLING then 0 else old(matrix)[line][c]
        invariant powerups == Without(old(powerups), line, j)
        invariant cleared == old(cleared) + PowerupsIn(row[..j - 1])
      {
        ClearCell(line, j);
        PowerupsNext(row, j - 1);
        j := j + 1;
      }
      assert row[..XMAX - 2] == row;
      LineCleared(matrix, powerups, old(matrix), old(powerups), line);
    }

    /** `ShiftDown`, one cell: it takes over what is above it, with the powerup if there is one. */
    method MoveCell(i: nat, j: nat)
      requires Valid() && 0 < i < YMAX - 1 && 1 <= j < XMAX - 1
      modifies this
      ensures Valid() && cleared == old(cleared)
      ensures matrix == old(matrix)[i := old(matrix)[i][j := old(matrix)[i - 1][j]]]
      ensures powerups == MovedPowerup(old(powerups), i, j)
    {
      if (i - 1, j) in powerups {
        powerups := powerups[(i, j) := powerups[(i - 1, j)]];
        powerups := powerups - {(i - 1, j)};
      }
      matrix := matrix[i := matrix[i][j := matrix[i - 1][j]]];
    }

    /** The inner loop of `ShiftDown`: the cells of row `i - 1`, with their powerups, go one down. */
    method MoveDown(i: nat)
      requires Valid() && 0 < i < YMAX - 1 && Bare(powerups, i)
      modifies this
      ensures Valid() && SameWalls(matrix, old(matrix)) && cleared == old(cleared)
      ensures Field() == old(Field())[i := old(Field())[i - 1]][i - 1 := Stripped(old(Field())[i - 1])]
    {
      var j := 1;
      while j < XMAX - 1
        invariant 1 <= j <= XMAX - 1
        invariant Valid() && cleared == old(cleared)
        invariant forall r :: 0 <= r < YMAX && r != i ==> matrix[r] == old(matrix)[r]
        invariant forall c :: 0 <= c < XMAX ==> matrix[i][c] == old(matrix)[if 1 <= c < j then i - 1 else i][c]
        invariant HalfMoved(powerups, old(powerups), i, j)
      {
        HalfMovedStep(powerups, old(powerups), i, j);
        MoveCell(i, j);
        j := j + 1;
      }
      RowMoved(matrix, powerups, old(matrix), old(powerups), i);
    }

    /** `ShiftDown` of a line without powerups. */
    method ShiftDown(line: nat)
      requires Valid() && 0 < line < YMAX - 1 && Bare(powerups, line)
      modifies this
      ensures Valid() && SameWalls(matrix, old(matrix)) && cleared == old(cleared)
      ensures Field() == Dropped(old(Field()), line)
    {
      ghost var rows := Field();
      ShiftEnds(rows, line);
      var i := line;
      while i > 0
        invariant 0 <= i <= line
        invariant Valid() && SameWalls(matrix, old(matrix)) && cleared == old(cleared)
        invariant Field() == HalfShifted(rows, line, i) && Bare(powerups, i)
        decreases i
      {
        ShiftStep(rows, line, i);
        ShiftRow(i);
        i := i - 1;
      }
    }

    /** One turn of the loop: the row above a line comes down and is cleared where it was. */
    method ShiftRow(i: nat)
      requires Valid() && 0 < i < YMAX - 1 && Bare(powerups, i)
      modifies this
      ensures Valid() && SameWalls(matrix, old(matrix)) && cleared == old(cleared)
      ensures Field() == old(Field())[i := old(Field())[i - 1]][i - 1 := Emptied(old(Field())[i - 1])]
      ensures Bare(powerups, i - 1)
    {
      ghost var above := Field()[i - 1];
      MoveDown(i);
      StrippedPowerups(above);
      EmptiedStripped(above);
      ClearLine(i - 1);
      EmptiedBare(matrix, powerups, i - 1, Stripped(above));
    }

    method IsComplete(i: nat) returns (complete: bool)
      requires Valid() && i < YMAX - 1
      ensures complete <==> Complete(Field()[i])
    {
      ghost var row := Field()[i];
      for j := 1 to XMAX - 1
        invariant forall k :: 0 <= k < j - 1 ==> row[k].color != 0
      {
        assert row[j - 1].color == matrix[i][j];
        if matrix[i][j] == 0 {
          return false;
        }
      }
      return true;
    }

    /** One turn of the loop of `ClearCompleted`. */
    method ClearIfComplete(i: nat) returns (gone: nat)
      requires Valid() && i < YMAX - 1
      modifies this
      ensures Valid() && SameWalls(matrix, old(matrix))
      ensures gone == if Complete(old(Field())[i]) then 1 else 0
      ensures Field() == TakenOut(old(Field()), i)
      ensures cleared == old(cleared) + if Complete(old(Field())[i]) then PowerupsIn(old(Field())[i]) else []
    {
      var complete := IsComplete(i);
      if !complete {
        return 0;
      }
      ghost var rows := Field();
      ClearLine(i);
      if i != 0 {
        EmptiedBare(matrix, powerups, i, rows[i]);
        ShiftDown(i);
      }
      DroppedLine(rows, i);
      return 1;
    }

    /** `ClearCompleted`: line by line from the top, in place. For every board, the completed rows
        are gone and the others are at the bottom, in order. */
    method ClearCompleted() returns (lines: nat)
      requires Valid()
      modifies this
      ensures Valid() && SameWalls(matrix, old(matrix))
      ensures Field() == Left(old(Field()))
      ensures Field() == Cleared(old(Field())) <==>
                |Kept(old(Field()))| == YMAX - 1 || Settled(old(Field())[0])
      ensures lines == YMAX - 1 - |Kept(old(Field()))|
      ensures lines == 0 <==> forall i :: 0 <= i < 30 ==> HasGap(old(matrix)[i])
      ensures cleared == old(cleared) + Won(old(Field()))
    {
      SweepClears(Field());
      LeftCleared(Field());
      GapsKept(matrix, powerups);
      lines := SweepLines();
    }

    /** The loop of `ClearCompleted`. */
    method SweepLines() returns (lines: nat)
      requires Valid()
      modifies this
      ensures Valid() && SameWalls(matrix, old(matrix))
      ensures Field() == Sweep(old(Field()), 0).rows && lines == Sweep(old(Field()), 0).lines
      ensures cleared == old(cleared) + Sweep(old(Field()), 0).won
    {
      ghost var rows := Field();
      ghost var goal := Ahead(0, cleared, Sweep(rows, 0));
      lines := 0;
      var i := 0;
      while i < YMAX - 1
        invariant 0 <= i <= YMAX - 1
        invariant Valid() && SameWalls(matrix, old(matrix))
        invariant rows == Field()
        invariant goal == Ahead(lines, cleared, Sweep(rows, i))
      {
        SweepStep(rows, i, lines, cleared);
        rows := TakenOut(rows, i);
        var gone := ClearIfComplete(i);
        lines := lines + gone;
        i := i + 1;
      }
    }
  }

  /** A line with an empty cell between the walls is not complete. */
  predicate HasGap(line: seq<int>) {
    exists j :: 1 <= j <= 10 && j < |line| && line[j] == 0
  }

  lemma CompleteMeans(m: seq<seq<int>>, p: map<Place, Powerup>, i: nat)
    requires Shaped(m, p) && i < YMAX - 1
    ensures Complete(Rows(m, p)[i]) <==> !HasGap(m[i])
  {
    var row := Rows(m, p)[i];
    assert forall k :: 0 <= k < 10 ==> row[k].color == m[i][k + 1];
    if HasGap(m[i]) {
      var j :| 1 <= j <= 10 && m[i][j] == 0;
      assert row[j - 1].color == 0;
    }
  }

  lemma {:induction false} KeptAll(rows: seq<Row>)
    ensures |Kept(rows)| == |rows| <==> forall i :: 0 <= i < |rows| ==> !Complete(rows[i])
  {
    if rows != [] {
      KeptAll(rows[..|rows| - 1]);
      KeptBound(rows[..|rows| - 1]);
      assert forall i :: 0 <= i < |rows| - 1 ==> rows[..|rows| - 1][i] == rows[i];
    }
  }

  lemma GapsKept(m: seq<seq<int>>, p: map<Place, Powerup>)
    requires Shaped(m, p)
    ensures |Kept(Rows(m, p))| == 30 <==> forall i :: 0 <= i < 30 ==> HasGap(m[i])
  {
    KeptAll(Rows(m, p));
    forall i | 0 <= i < 30 ensures Complete(Rows(m, p)[i]) <==> !HasGap(m[i]) {
      CompleteMeans(m, p, i);
    }
  }

  /** Zeroing the settled cells of a line and dropping its powerups changes that row only. */
  lemma LineCleared(m: seq<seq<int>>, p: map<Place, Powerup>, m0: seq<seq<int>>, p0: map<Place, Powerup>, line: nat)
    requires Shaped(m, p) && Shaped(m0, p0) && line < YMAX - 1
    requires forall i :: 0 <= i < YMAX && i != line ==> m[i] == m0[i]
    requires forall c :: 1 <= c < XMAX - 1 ==> m[line][c] == if m0[line][c] != FALLING then 0 else m0[line][c]
    requires p == Without(p0, line, XMAX - 1)
    ensures Rows(m, p) == Rows(m0, p0)[line := Emptied(Rows(m0, p0)[line])]
  {
    forall i | 0 <= i < YMAX - 1
      ensures RowAt(m, p, i) == if i == line then Emptied(RowAt(m0, p0, i)) else RowAt(m0, p0, i)
    {
      forall k | 0 <= k < XMAX - 2
        ensures RowAt(m, p, i)[k] == if i == line then Emptied(RowAt(m0, p0, i))[k] else RowAt(m0, p0, i)[k]
      {
        assert (i, k + 1) in p <==> (i, k + 1) in p0 && i != line;
      }
    }
  }

  /** A row whose powerups have been taken away. */
  function Stripped(row: Row): Row {
    seq(10, k requires 0 <= k < 10 => row[k].(powerup := None))
  }

  lemma EmptiedStripped(row: Row)
    ensures Emptied(Stripped(row)) == Emptied(row)
  {
  }

  lemma StrippedPowerups(row: Row)
    ensures PowerupsIn(Stripped(row)) == []
  {
    NoPowerups(Stripped(row));
  }

  lemma {:induction false} NoPowerups(cells: seq<Cell>)
    requires forall k :: 0 <= k < |cells| ==> cells[k].powerup == None
    ensures PowerupsIn(cells) == []
  {
    if cells != [] {
      NoPowerups(cells[..|cells| - 1]);
    }
  }

  /** No powerup sits on line `i`. */
  predicate Bare(p: map<Place, Powerup>, i: int) {
    forall q :: q in p ==> q.0 != i
  }

  function MovedPowerup(p: map<Place, Powerup>, i: int, j: int): map<Place, Powerup> {
    if (i - 1, j) in p then p[(i, j) := p[(i - 1, j)]] - {(i - 1, j)} else p
  }

  /** The powerups of row `i - 1` in the columns before `j` have moved to row `i`. */
  predicate HalfMoved(p: map<Place, Powerup>, p0: map<Place, Powerup>, i: int, j: int) {
    && (forall q :: q in p && q.0 == i - 1 ==> q.1 >= j)
    && (forall q :: q in p && q.0 == i ==> q.1 < j && (i - 1, q.1) in p0 && p[q] == p0[(i - 1, q.1)])
    && (forall q :: q in p0 && q.0 == i - 1 && q.1 < j ==> (i, q.1) in p)
    && (forall q :: q in p && q.0 != i ==> q in p0 && p[q] == p0[q])
    && (forall q :: q in p0 && q.0 != i && (q.0 != i - 1 || q.1 >= j) ==> q in p)
  }

  lemma HalfMovedStep(p: map<Place, Powerup>, p0: map<Place, Powerup>, i: int, j: int)
    requires HalfMoved(p, p0, i, j)
    ensures HalfMoved(MovedPowerup(p, i, j), p0, i, j + 1)
  {
  }

  lemma RowMoved(m: seq<seq<int>>, p: map<Place, Powerup>, m0: seq<seq<int>>, p0: map<Place, Powerup>, i: nat)
    requires Shaped(m, p) && Shaped(m0, p0) && 0 < i < YMAX - 1
    requires forall r :: 0 <= r < YMAX && r != i ==> m[r] == m0[r]
    requires forall c :: 1 <= c < XMAX - 1 ==> m[i][c] == m0[i - 1][c]
    requires HalfMoved(p, p0, i, XMAX - 1)
    ensures Rows(m, p) == Rows(m0, p0)[i := Rows(m0, p0)[i - 1]][i - 1 := Stripped(Rows(m0, p0)[i - 1])]
  {
    assert forall r, c :: 0 <= r < YMAX - 1 && 1 <= c < XMAX - 1 ==>
      CellAt(m, p, r, c) == if r == i then CellAt(m0, p0, i - 1, c)
                            else if r == i - 1 then CellAt(m0, p0, r, c).(powerup := None)
                            else CellAt(m0, p0, r, c);
    assert RowAt(m, p, i) == RowAt(m0, p0, i - 1);
    assert RowAt(m, p, i - 1) == Stripped(RowAt(m0, p0, i - 1));
    assert forall r :: 0 <= r < YMAX - 1 && r != i && r != i - 1 ==> RowAt(m, p, r) == RowAt(m0, p0, r);
  }

  lemma EmptiedBare(m: seq<seq<int>>, p: map<Place, Powerup>, i: nat, row: Row)
    requires Shaped(m, p) && i < YMAX - 1 && Rows(m, p)[i] == Emptied(row)
    ensures Bare(p, i)
  {
    forall q | q in p
      ensures q.0 != i
    {
      assert q.0 == i ==> Emptied(row)[q.1 - 1] == CellAt(m, p, i, q.1);
    }
  }

  /** Row `line` is being taken out: the rows from `i` on are one further down, row `i` has been
      cleared. */
  function HalfShifted(rows: seq<Row>, line: nat, i: nat): seq<Row>
    requires i <= line < |rows|
  {
    if i == line then rows else rows[..i] + [Emptied(rows[i])] + rows[i..line] + rows[line + 1..]
  }

  lemma ShiftEnds(rows: seq<Row>, line: nat)
    requires 0 < line < |rows|
    ensures HalfShifted(rows, line, line) == rows && HalfShifted(rows, line, 0) == Dropped(rows, line)
  {
  }

  lemma ShiftStep(rows: seq<Row>, line: nat, i: nat)
    requires 0 < i <= line < |rows|
    ensures var f := HalfShifted(rows, line, i);
            |f| == |rows| && f[i - 1] == rows[i - 1] &&
            f[i := f[i - 1]][i - 1 := Emptied(f[i - 1])] == HalfShifted(rows, line, i - 1)
  {
  }

  /** The first `i` rows have been dealt with. */
  function HalfCleared(rows: seq<Row>, i: nat): seq<Row>
    requires i <= |rows|
  {
    KeptBound(rows[..i]);
    Stack(i - |Kept(rows[..i])|, Top(rows)) + Kept(rows[..i]) + rows[i..]
  }

  /** A row gone if it was complete. */
  function TakenOut(rows: seq<Row>, i: nat): seq<Row>
    requires i < |rows|
  {
    if Complete(rows[i]) then Dropped(rows, i) else rows
  }

  /** Clearing a line first makes no difference to taking it out. */
  lemma DroppedLine(rows: seq<Row>, i: nat)
    requires i < |rows|
    ensures var cleared := rows[i := Emptied(rows[i])];
            Dropped(rows, i) == if i == 0 then cleared else Dropped(cleared, i)
  {
  }

  lemma KeptStep(rows: seq<Row>, i: nat)
    requires i < |rows|
    ensures Kept(rows[..i + 1]) == Kept(rows[..i]) + if Complete(rows[i]) then [] else [rows[i]]
  {
    assert rows[..i + 1][..i] == rows[..i];
  }

  lemma WonStep(rows: seq<Row>, i: nat)
    requires i < |rows|
    ensures Won(rows[..i + 1]) == Won(rows[..i]) + if Complete(rows[i]) then PowerupsIn(rows[i]) else []
  {
    assert rows[..i + 1][..i] == rows[..i];
  }

  lemma HalfSplit(rows: seq<Row>, i: nat)
    requires i < |rows| && |Kept(rows[..i])| <= i
    ensures var f := HalfCleared(rows, i);
            && |f| == |rows| && f[i] == rows[i] && f[i + 1..] == rows[i + 1..]
            && f[..i] == Stack(i - |Kept(rows[..i])|, Top(rows)) + Kept(rows[..i])
  {
  }

  lemma {:induction false} AllKept(rows: seq<Row>, i: nat)
    requires i <= |rows| && |Kept(rows[..i])| == i
    ensures Kept(rows[..i]) == rows[..i]
    decreases i
  {
    if i > 0 {
      KeptStep(rows, i - 1);
      KeptBound(rows[..i - 1]);
      AllKept(rows, i - 1);
      assert rows[..i] == rows[..i - 1] + [rows[i - 1]];
    }
  }

  /** What is on top does not change once it is there. */
  lemma HalfTop(rows: seq<Row>, i: nat)
    requires i < |rows| && |Kept(rows[..i])| <= i
    ensures |HalfCleared(rows, i)| == |rows| && Emptied(HalfCleared(rows, i)[0]) == Top(rows)
  {
    HalfSplit(rows, i);
    var f := HalfCleared(rows, i);
    EmptiedEmpty(rows[0]);
    if |Kept(rows[..i])| == i {
      AllKept(rows, i);
      assert f == rows;
    } else {
      assert f[0] == Stack(i - |Kept(rows[..i])|, Top(rows))[0];
    }
  }

  lemma ClearStep(rows: seq<Row>, i: nat)
    requires i < |rows|
    ensures |HalfCleared(rows, i)| == |rows|
    ensures HalfCleared(rows, i + 1) == TakenOut(HalfCleared(rows, i), i)
    ensures |Kept(rows[..i + 1])| == |Kept(rows[..i])| + if Complete(rows[i]) then 0 else 1
  {
    KeptStep(rows, i);
    KeptBound(rows[..i]);
    HalfSplit(rows, i);
    HalfTop(rows, i);
    var kept, top := Kept(rows[..i]), Top(rows);
    var n := i - |kept|;
    if Complete(rows[i]) {
      assert Stack(n + 1, top) == [top] + Stack(n, top);
      assert Stack(n + 1, top) + kept == [top] + (Stack(n, top) + kept);
    } else {
      assert Stack(n, top) + (kept + [rows[i]]) + rows[i + 1..] == Stack(n, top) + kept + rows[i..];
    }
  }

  /** What the turns from line `i` on make of the rows, how many lines they count, and the
      powerups they collect. */
  datatype Outcome = Swept(rows: seq<Row>, lines: nat, won: seq<Powerup>)

  function Sweep(rows: seq<Row>, i: nat): Outcome
    requires i <= |rows|
    decreases |rows| - i
  {
    if i == |rows| then Swept(rows, 0, [])
    else
      var rest := Sweep(TakenOut(rows, i), i + 1);
      if Complete(rows[i]) then Swept(rest.rows, 1 + rest.lines, PowerupsIn(rows[i]) + rest.won) else rest
  }

  /** An outcome, with what the turns before have counted and collected. */
  function Ahead(lines: nat, won: seq<Powerup>, rest: Outcome): Outcome {
    Swept(rest.rows, lines + rest.lines, won + rest.won)
  }

  lemma SweepStep(rows: seq<Row>, i: nat, lines: nat, won: seq<Powerup>)
    requires i < |rows|
    ensures |TakenOut(rows, i)| == |rows|
    ensures Ahead(lines, won, Sweep(rows, i)) ==
            Ahead(lines + (if Complete(rows[i]) then 1 else 0),
                  won + (if Complete(rows[i]) then PowerupsIn(rows[i]) else []),
                  Sweep(TakenOut(rows, i), i + 1))
  {
    var rest := Sweep(TakenOut(rows, i), i + 1);
    assert won + (PowerupsIn(rows[i]) + rest.won) == won + PowerupsIn(rows[i]) + rest.won;
    assert won + [] == won;
  }

  /** Completed rows dropped, counted, and their powerups collected. */
  function Goal(rows: seq<Row>): Outcome {
    KeptBound(rows);
    Swept(Left(rows), |rows| - |Kept(rows)|, Won(rows))
  }

  /** The sweep from line `i` on, with what the lines before it have come to. */
  function Stage(rows: seq<Row>, i: nat): Outcome
    requires i <= |rows|
  {
    HalfLength(rows, i);
    Ahead(i - |Kept(rows[..i])|, Won(rows[..i]), Sweep(HalfCleared(rows, i), i))
  }

  lemma HalfLength(rows: seq<Row>, i: nat)
    requires i <= |rows|
    ensures |Kept(rows[..i])| <= i && |HalfCleared(rows, i)| == |rows|
  {
    KeptBound(rows[..i]);
  }

  lemma StageStep(rows: seq<Row>, i: nat)
    requires i < |rows|
    ensures Stage(rows, i) == Stage(rows, i + 1)
  {
    HalfLength(rows, i);
    ClearStep(rows, i);
    WonStep(rows, i);
    SweepStep(HalfCleared(rows, i), i, i - |Kept(rows[..i])|, Won(rows[..i]));
    assert HalfCleared(rows, i)[i] == rows[i];
  }

  lemma StageEnd(rows: seq<Row>)
    ensures Stage(rows, |rows|) == Goal(rows)
  {
    KeptBound(rows);
    assert rows[..|rows|] == rows;
    assert HalfCleared(rows, |rows|) == Left(rows);
  }

  lemma {:induction false} Stages(rows: seq<Row>, i: nat)
    requires i <= |rows|
    ensures Stage(rows, i) == Goal(rows)
    decreases |rows| - i
  {
    if i < |rows| {
      StageStep(rows, i);
      Stages(rows, i + 1);
    } else {
      StageEnd(rows);
    }
  }

  /** The sweep from the top drops the complete rows, keeps the others in order, and collects
      the powerups of the complete rows, once each. */
  lemma SweepClears(rows: seq<Row>)
    ensures Sweep(rows, 0) == Goal(rows)
  {
    Stages(rows, 0);
    assert rows[..0] == [];
    assert HalfCleared(rows, 0) == rows;
    assert Ahead(0, [], Sweep(rows, 0)) == Sweep(rows, 0);
  }
}
