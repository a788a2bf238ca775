/**
 * The client's chart: confirmed squares as they accumulate (packages/client/src/render/picture.ts) and
 * the rectangles drawn for them (packages/client/src/render/sonar.ts).
 *
 * Squares arrive one at a time, are run-length encoded row by row, drained to the renderer, and laid
 * down in sealed chunks. What is proved is that none of that loses, repeats or moves a square.
 */
module SonarChart {
  import opened Division
  import opened Options
  import opened MatchTypes

  const RUNS_PER_CHUNK := 2_000
  const CELL_SIZE := 2.0

  /** The `length` squares of `row` from `col` on. */
  datatype ChartRun = ChartRun(col: nat, row: nat, length: nat)

  datatype Rect = Rect(x: real, y: real, width: real, height: real)

  // ── Runs and the squares they stand for ───────────────────────────────────────────

  predicate InOneRow(run: ChartRun, cols: nat) {
    0 < run.length && run.col + run.length <= cols
  }

  function ExpandRun(run: ChartRun, cols: nat): seq<Cell> {
    seq(run.length, i requires 0 <= i < run.length => run.row * cols + run.col + i)
  }

  function Expand(runs: seq<ChartRun>, cols: nat): seq<Cell> {
    if runs == [] then [] else Expand(runs[..|runs| - 1], cols) + ExpandRun(runs[|runs| - 1], cols)
  }

  ghost predicate NoRepeats(cells: seq<Cell>) {
    forall i, j :: 0 <= i < j < |cells| ==> cells[i] != cells[j]
  }

  /** Two runs the encoder would have made one. */
  predicate Joinable(a: ChartRun, b: ChartRun) {
    a.row == b.row && a.col + a.length == b.col
  }

  lemma {:induction false} ExpandSplit(xs: seq<ChartRun>, ys: seq<ChartRun>, cols: nat)
    ensures Expand(xs + ys, cols) == Expand(xs, cols) + Expand(ys, cols)
  {
    if ys == [] {
      assert xs + ys == xs;
    } else {
      assert (xs + ys)[..|xs + ys| - 1] == xs + ys[..|ys| - 1];
      ExpandSplit(xs, ys[..|ys| - 1], cols);
    }
  }

  /** Adding a square to an encoding: lengthen the last run if the square follows on in its row. */
  function Extended(runs: seq<ChartRun>, cell: Cell, cols: nat): seq<ChartRun>
    requires cols > 0
  {
    RowAndColumn(cell, cols);
    var col := cell % cols;
    var row := (cell - col) / cols;
    if runs != [] && Joinable(runs[|runs| - 1], ChartRun(col, row, 1))
    then runs[|runs| - 1 := runs[|runs| - 1].(length := runs[|runs| - 1].length + 1)]
    else runs + [ChartRun(col, row, 1)]
  }

  predicate AllInRows(runs: seq<ChartRun>, cols: nat) {
    forall i :: 0 <= i < |runs| ==> InOneRow(runs[i], cols)
  }

  predicate NoneJoinable(runs: seq<ChartRun>) {
    forall i :: 0 < i < |runs| ==> !Joinable(runs[i - 1], runs[i])
  }

  /** One more square: exactly one more in the expansion, no run crosses a row, none is left joinable. */
  lemma ExtendedExpands(runs: seq<ChartRun>, cell: Cell, cols: nat)
    requires cols > 0 && AllInRows(runs, cols) && NoneJoinable(runs)
    ensures Expand(Extended(runs, cell, cols), cols) == Expand(runs, cols) + [cell]
    ensures AllInRows(Extended(runs, cell, cols), cols)
    ensures NoneJoinable(Extended(runs, cell, cols))
  {
    RowAndColumn(cell, cols);
    var n := |runs|;
    var out := Extended(runs, cell, cols);
    if |out| == n {
      assert out[..n - 1] == runs[..n - 1];
      assert ExpandRun(out[n - 1], cols) == ExpandRun(runs[n - 1], cols) + [cell];
      assert Expand(out, cols) == Expand(runs[..n - 1], cols) + (ExpandRun(runs[n - 1], cols) + [cell]);
      forall i | 0 < i < |out| ensures !Joinable(out[i - 1], out[i]) {
        assert !Joinable(runs[i - 1], runs[i]);
      }
    } else {
      assert out[..n] == runs;
      assert ExpandRun(out[n], cols) == [cell];
    }
  }

  lemma ChartingExtends(drained: seq<ChartRun>, pending: seq<ChartRun>, cell: Cell, cols: nat)
    requires cols > 0 && AllInRows(drained + pending, cols) && NoneJoinable(pending)
    ensures var pending' := Extended(pending, cell, cols);
      && AllInRows(drained + pending', cols) && NoneJoinable(pending')
      && Expand(drained + pending', cols) == Expand(drained + pending, cols) + [cell]
    ensures forall i :: 0 <= i < |pending| ==> 0 < pending[i].length
  {
    var all := drained + pending;
    forall i | 0 <= i < |pending| ensures InOneRow(pending[i], cols) {
      assert all[|drained| + i] == pending[i];
    }
    forall i | 0 <= i < |drained| ensures InOneRow(drained[i], cols) {
      assert all[i] == drained[i];
    }
    ExtendedExpands(pending, cell, cols);
    ExpandSplit(drained, pending, cols);
    ExpandSplit(drained, Extended(pending, cell, cols), cols);
  }

  // ── The picture ───────────────────────────────────────────────────────────────────

  class SonarPicture {
    const cols: nat
    /** The charted squares without repeats, oldest first. */
    var charted: seq<Cell>
    /** What `DrainChart` will hand over next. */
    var pendingRuns: seq<ChartRun>
    /** Runs handed over so far. */
    ghost var drained: seq<ChartRun>

    ghost predicate Valid()
      reads this
    {
      && cols > 0
      && NoRepeats(charted)
      && AllInRows(drained + pendingRuns, cols)
      && NoneJoinable(pendingRuns)
      && Expand(drained + pendingRuns, cols) == charted
    }

    constructor (cols: nat)
      requires cols > 0
      ensures Valid() && this.cols == cols && charted == [] && drained == [] && pendingRuns == []
    {
      this.cols := cols;
      charted, pendingRuns, drained := [], [], [];
    }

    /** The square is charted, at the end and once only, and the runs still expand to the whole chart. */
    method Chart(cell: Cell)
      requires Valid()
      modifies this
      ensures Valid() && drained == old(drained)
      ensures charted == if cell in old(charted) then old(charted) else old(charted) + [cell]
      ensures pendingRuns == if cell in old(charted) then old(pendingRuns) else Extended(old(pendingRuns), cell, cols)
    {
      if cell in charted {
        return;
      }
      ChartingExtends(drained, pendingRuns, cell, cols);
      charted := charted + [cell];
      Encode(cell);
    }

    /** A following square is never in column 0, so the last test of the guard decides nothing. */
    method Encode(cell: Cell)
      requires cols > 0 && forall i :: 0 <= i < |pendingRuns| ==> 0 < pendingRuns[i].length
      modifies this`pendingRuns
      ensures pendingRuns == Extended(old(pendingRuns), cell, cols)
    {
      var col := cell % cols;
      RowAndColumn(cell, cols);
      var row := (cell - col) / cols;
      var n := |pendingRuns|;
      if n > 0 && pendingRuns[n - 1].row == row && pendingRuns[n - 1].col + pendingRuns[n - 1].length == col && col > 0 {
        pendingRuns := pendingRuns[n - 1 := pendingRuns[n - 1].(length := pendingRuns[n - 1].length + 1)];
      } else {
        pendingRuns := pendingRuns + [ChartRun(col, row, 1)];
      }
    }

    /** Fold in the confirmed squares of one frame. */
    method ApplyChart(cells: seq<Cell>)
      requires Valid()
      modifies this
      ensures Valid() && drained == old(drained)
      ensures charted == Confirmed(old(charted), cells)
    {
      var i := 0;
      while i < |cells|
        invariant 0 <= i <= |cells| && Valid() && drained == old(drained)
        invariant Confirmed(charted, cells[i..]) == Confirmed(old(charted), cells)
      {
        assert cells[i..][1..] == cells[i + 1..];
        Chart(cells[i]);
        i := i + 1;
      }
    }

    /** All pending runs change hands at once, so that none is handed over twice and none is lost. */
    method DrainChart() returns (runs: seq<ChartRun>)
      requires Valid()
      modifies this
      ensures Valid() && charted == old(charted) && pendingRuns == []
      ensures runs == old(pendingRuns) && drained == old(drained) + runs
    {
      runs := pendingRuns;
      drained := drained + pendingRuns;
      pendingRuns := [];
      assert drained + pendingRuns == old(drained + pendingRuns);
    }
  }

  /** Confirmation in order: new squares go at the end, known ones change nothing. */
  function Confirmed(charted: seq<Cell>, cells: seq<Cell>): seq<Cell>
    decreases |cells|
  {
    if cells == [] then charted
    else Confirmed(if cells[0] in charted then charted else charted + [cells[0]], cells[1..])
  }

  lemma {:induction false} ConfirmedMembers(charted: seq<Cell>, cells: seq<Cell>)
    ensures charted <= Confirmed(charted, cells)
    ensures forall c :: c in Confirmed(charted, cells) <==> c in charted || c in cells
    decreases |cells|
  {
    if cells != [] {
      ConfirmedMembers(if cells[0] in charted then charted else charted + [cells[0]], cells[1..]);
    }
  }

  // ── The drawn chart ───────────────────────────────────────────────────────────────

  /** A drawing context: the rectangles queued on it, and how many of them a fill has claimed. */
  datatype Chunk = Chunk(rects: seq<Rect>, committed: nat)

  function RectOf(run: ChartRun): Rect {
    Rect(run.col as real * CELL_SIZE, run.row as real * CELL_SIZE, run.length as real * CELL_SIZE, CELL_SIZE)
  }

  function RectsOf(runs: seq<ChartRun>): seq<Rect> {
    seq(|runs|, i requires 0 <= i < |runs| => RectOf(runs[i]))
  }

  function Flatten(chunks: seq<Chunk>): seq<Rect> {
    if chunks == [] then [] else Flatten(chunks[..|chunks| - 1]) + chunks[|chunks| - 1].rects
  }

  /** A chunk that will not be written again: full, and every rectangle on it claimed by a fill. */
  predicate IsSealed(c: Chunk) {
    |c.rects| == RUNS_PER_CHUNK == c.committed
  }

  /** The renderer's layer of chart chunks: those left behind, and the one being written. */
  class SonarLayers {
    const picture: SonarPicture
    var sealed: seq<Chunk>
    var open: Option<Chunk>
    var openRuns: nat

    /** Everything drawn, chunk after chunk. */
    function Drawn(): seq<Rect>
      reads this
    {
      Flatten(sealed) + (if open.Some? then open.value.rects else [])
    }

    /** The chunks while rectangles go down: all filled but the last `pending` of the open chunk. */
    predicate Laid(pending: nat)
      reads this
    {
      && (forall i :: 0 <= i < |sealed| ==> IsSealed(sealed[i]))
      && (open.None? ==> sealed == [] && pending == 0)
      && (open.Some? ==>
            && 0 < openRuns == |open.value.rects| <= RUNS_PER_CHUNK
            && open.value.committed + pending == openRuns)
    }

    ghost predicate Valid()
      reads this, picture
    {
      picture.Valid() && Laid(0) && Drawn() == RectsOf(picture.drained)
    }

    constructor (picture: SonarPicture)
      requires picture.Valid() && picture.drained == []
      ensures Valid() && this.picture == picture && sealed == [] && open == None
    {
      this.picture := picture;
      sealed, open, openRuns := [], None, 0;
    }

    /**
     * Draw what has been charted since the last call. Everything drawn is filled, chunks once sealed
     * stay exactly as they were, and the chunks read in order are the runs drained, in order.
     */
    method AppendChart()
      requires Valid()
      modifies this, picture
      ensures Valid() && picture.charted == old(picture.charted) && picture.pendingRuns == []
      ensures picture.drained == old(picture.drained + picture.pendingRuns)
      ensures old(sealed) <= sealed
    {
      var runs := picture.DrainChart();
      if |runs| == 0 {
        assert picture.drained == old(picture.drained);
        return;
      }
      assert RectsOf(picture.drained) == RectsOf(old(picture.drained)) + RectsOf(runs);
      var pending := PlaceAll(runs);
      Commit(pending);
    }

    /** Queue the rectangle of every run, in order; the last `pending` of them are still to be filled. */
    method PlaceAll(runs: seq<ChartRun>) returns (pending: nat)
      requires Laid(0)
      modifies this`sealed, this`open, this`openRuns
      ensures Laid(pending) && old(sealed) <= sealed
      ensures Drawn() == old(Drawn()) + RectsOf(runs)
    {
      pending := 0;
      var i := 0;
      while i < |runs|
        invariant 0 <= i <= |runs|
        invariant Laid(pending) && old(sealed) <= sealed
        invariant Drawn() == old(Drawn()) + RectsOf(runs[..i])
      {
        assert RectsOf(runs[..i + 1]) == RectsOf(runs[..i]) + [RectOf(runs[i])];
        pending := Place(pending, RectOf(runs[i]));
        i := i + 1;
      }
      assert runs[..i] == runs;
    }

    /** Claim the queued rectangles of the open chunk with a fill. */
    method Commit(pending: nat)
      requires Laid(pending)
      modifies this`open
      ensures Laid(0) && Drawn() == old(Drawn())
      ensures open.Some? <==> old(open).Some?
    {
      if open.Some? && pending != 0 {
        open := Some(open.value.(committed := |open.value.rects|));
      }
    }

    /** A full chunk is left behind for good, and a new one begun. */
    method TurnOver()
      requires Laid(0) && (open.Some? ==> openRuns >= RUNS_PER_CHUNK)
      modifies this`sealed, this`open, this`openRuns
      ensures open == Some(Chunk([], 0)) && openRuns == 0
      ensures sealed == old(sealed) + (if old(open).Some? then [old(open).value] else [])
      ensures Drawn() == old(Drawn()) && forall i :: 0 <= i < |sealed| ==> IsSealed(sealed[i])
    {
      if open.Some? {
        sealed := sealed + [open.value];
        assert sealed[..|sealed| - 1] == old(sealed);
      }
      open := Some(Chunk([], 0));
      openRuns := 0;
    }

    /** Queue one rectangle, on the open chunk or, when that is full, on a new one. */
    method Place(pending: nat, r: Rect) returns (pending': nat)
      requires Laid(pending)
      modifies this`sealed, this`open, this`openRuns
      ensures Laid(pending') && old(sealed) <= sealed
      ensures Drawn() == old(Drawn()) + [r]
    {
      pending' := pending;
      if open.None? || openRuns >= RUNS_PER_CHUNK {
        Commit(pending);
        pending' := 0;
        TurnOver();
      }
      open := Some(open.value.(rects := open.value.rects + [r]));
      openRuns := openRuns + 1;
      pending' := pending' + 1;
    }
  }

  // ── What is on the screen ─────────────────────────────────────────────────────────

  /** The middle of a square lies in a rectangle. */
  predicate Covers(r: Rect, cell: Cell, cols: nat)
    requires cols > 0
  {
    var x := (cell % cols) as real * CELL_SIZE + CELL_SIZE / 2.0;
    var y := (cell / cols) as real * CELL_SIZE + CELL_SIZE / 2.0;
    r.x <= x < r.x + r.width && r.y <= y < r.y + r.height
  }

  lemma RunCoversItsCells(run: ChartRun, cell: Cell, cols: nat)
    requires cols > 0 && InOneRow(run, cols)
    ensures Covers(RectOf(run), cell, cols) <==> cell in ExpandRun(run, cols)
  {
    var col, row := cell % cols, cell / cols;
    Decomposed(cell, cols);
    if Covers(RectOf(run), cell, cols) {
      assert row == run.row && run.col <= col < run.col + run.length;
      assert ExpandRun(run, cols)[col - run.col] == cell;
    }
    if cell in ExpandRun(run, cols) {
      var i :| 0 <= i < run.length && ExpandRun(run, cols)[i] == cell;
      QuotientAndRemainder(cell, cols, run.row, run.col + i);
    }
  }

  /** The rectangles drawn for an encoding cover the middle of a square exactly when it is encoded. */
  lemma {:induction false} RunsCoverTheirCells(runs: seq<ChartRun>, cell: Cell, cols: nat)
    requires cols > 0 && AllInRows(runs, cols)
    ensures (exists i :: 0 <= i < |runs| && Covers(RectsOf(runs)[i], cell, cols)) <==> cell in Expand(runs, cols)
  {
    if runs != [] {
      var n := |runs| - 1;
      RunsCoverTheirCells(runs[..n], cell, cols);
      RunCoversItsCells(runs[n], cell, cols);
      assert RectsOf(runs)[..n] == RectsOf(runs[..n]);
      if cell in Expand(runs[..n], cols) {
        var i :| 0 <= i < n && Covers(RectsOf(runs[..n])[i], cell, cols);
        assert Covers(RectsOf(runs)[i], cell, cols);
      }
      if cell in ExpandRun(runs[n], cols) {
        assert Covers(RectsOf(runs)[n], cell, cols);
      }
      if exists i :: 0 <= i < |runs| && Covers(RectsOf(runs)[i], cell, cols) {
        var i :| 0 <= i < |runs| && Covers(RectsOf(runs)[i], cell, cols);
        assert i < n ==> Covers(RectsOf(runs[..n])[i], cell, cols);
      }
    }
  }

  lemma SharedSquareRepeats(xs: seq<Cell>, ys: seq<Cell>, cell: Cell)
    requires cell in xs && cell in ys
    ensures !NoRepeats(xs + ys)
  {
    var i :| 0 <= i < |xs| && xs[i] == cell;
    var j :| 0 <= j < |ys| && ys[j] == cell;
    assert (xs + ys)[i] == (xs + ys)[|xs| + j];
  }

  /** And no square is painted over twice. */
  lemma {:induction false} NoSquareTwice(runs: seq<ChartRun>, cell: Cell, cols: nat, i: nat, j: nat)
    requires cols > 0 && AllInRows(runs, cols) && NoRepeats(Expand(runs, cols)) && i < j < |runs|
    ensures !(Covers(RectsOf(runs)[i], cell, cols) && Covers(RectsOf(runs)[j], cell, cols))
  {
    var n := |runs| - 1;
    var head := Expand(runs[..n], cols);
    assert Expand(runs, cols) == head + ExpandRun(runs[n], cols);
    assert RectsOf(runs)[..n] == RectsOf(runs[..n]);
    if j < n {
      assert forall k :: 0 <= k < |head| ==> head[k] == Expand(runs, cols)[k];
      NoSquareTwice(runs[..n], cell, cols, i, j);
    } else {
      RunCoversItsCells(runs[n], cell, cols);
      RunsCoverTheirCells(runs[..n], cell, cols);
      if Covers(RectsOf(runs)[i], cell, cols) && Covers(RectsOf(runs)[n], cell, cols) {
        assert Covers(RectsOf(runs[..n])[i], cell, cols);
        SharedSquareRepeats(head, ExpandRun(runs[n], cols), cell);
      }
    }
  }

  /**
   * After drawing, the chart layer covers exactly the confirmed squares: a square is under some
   * rectangle, and only one, just when it has been confirmed.
   */
  lemma DrawnIsCharted(layers: SonarLayers, cell: Cell)
    requires layers.Valid() && layers.picture.pendingRuns == []
    ensures cell in layers.picture.charted <==>
      exists i :: 0 <= i < |layers.Drawn()| && Covers(layers.Drawn()[i], cell, layers.picture.cols)
    ensures forall i, j :: 0 <= i < j < |layers.Drawn()| ==>
      !(Covers(layers.Drawn()[i], cell, layers.picture.cols)
        && Covers(layers.Drawn()[j], cell, layers.picture.cols))
  {
    var p := layers.picture;
    assert p.drained + p.pendingRuns == p.drained;
    RunsCoverTheirCells(p.drained, cell, p.cols);
    forall i, j | 0 <= i < j < |layers.Drawn()|
      ensures !(Covers(layers.Drawn()[i], cell, p.cols) && Covers(layers.Drawn()[j], cell, p.cols))
    {
      NoSquareTwice(p.drained, cell, p.cols, i, j);
    }
  }
}
