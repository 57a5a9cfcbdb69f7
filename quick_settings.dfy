/**
 * The quick settings panel of SystemUI (QSPanel): the grid layout that onMeasure
 * computes for the visible tiles, the row geometry, and the small state machine
 * of the detail view, the expanded flag and the listening flag.
 */
module QuickSettings {
  import opened Wrappers

  /** One tile of the panel: whether its view is shown, whether the tile is dual, and its cell. */
  datatype TileRecord = TileRecord(visible: bool, dual: bool, row: int, col: int)

  /** The local variables of the layout loop of onMeasure. */
  datatype Cursor = Cursor(r: int, c: int, rows: int, rowIsDual: bool)

  const Start: Cursor := Cursor(-1, -1, 0, false)

  /**
   * Where the next visible tile goes: a new row when nothing is placed yet, when
   * the current row is full, or when the tile's duality differs from the row's.
   */
  function Place(cur: Cursor, dual: bool, columns: int): Cursor
  {
    if cur.r == -1 || cur.c == columns - 1 || cur.rowIsDual != dual then
      Cursor(cur.r + 1, 0, cur.r + 2, dual)
    else
      Cursor(cur.r, cur.c + 1, cur.r + 1, cur.rowIsDual)
  }

  /** The loop variables after one more record: hidden tiles are skipped. */
  function Visit(cur: Cursor, t: TileRecord, columns: int): Cursor
  {
    if t.visible then Place(cur, t.dual, columns) else cur
  }

  /** The record once the loop body has written its cell; hidden tiles keep theirs. */
  function Placed(cur: Cursor, t: TileRecord, columns: int): TileRecord
  {
    if t.visible then t.(row := Place(cur, t.dual, columns).r, col := Place(cur, t.dual, columns).c)
    else t
  }

  /** The loop variables after onMeasure has gone over `recs`. */
  function CursorAfter(recs: seq<TileRecord>, columns: int): Cursor
    decreases |recs|
  {
    if recs == [] then Start
    else Visit(CursorAfter(recs[..|recs| - 1], columns), recs[|recs| - 1], columns)
  }

  /** The tile records once onMeasure has written every visible tile's row and column. */
  function Layout(recs: seq<TileRecord>, columns: int): (laid: seq<TileRecord>)
    decreases |recs|
    ensures |laid| == |recs|
    ensures forall i | 0 <= i < |recs| ::
      laid[i].visible == recs[i].visible && laid[i].dual == recs[i].dual
    ensures forall i | 0 <= i < |recs| && !recs[i].visible :: laid[i] == recs[i]
  {
    if recs == [] then []
    else
      var n := |recs| - 1;
      Layout(recs[..n], columns) + [Placed(CursorAfter(recs[..n], columns), recs[n], columns)]
  }

  /** One more record of the prefix: one more laid-out record and one more cursor step. */
  lemma LayoutPrefixStep(recs: seq<TileRecord>, i: nat, columns: int)
    requires i < |recs|
    ensures CursorAfter(recs[..i + 1], columns) == Visit(CursorAfter(recs[..i], columns), recs[i], columns)
    ensures Layout(recs[..i + 1], columns)
      == Layout(recs[..i], columns) + [Placed(CursorAfter(recs[..i], columns), recs[i], columns)]
  {
    assert recs[..i + 1][..i] == recs[..i];
  }

  /** The index of the last visible tile, or -1 when every tile is hidden. */
  function LastVisible(recs: seq<TileRecord>): (k: int)
    decreases |recs|
    ensures -1 <= k < |recs|
    ensures k >= 0 ==> recs[k].visible
    ensures forall m | k < m < |recs| :: !recs[m].visible
  {
    if recs == [] then -1
    else if recs[|recs| - 1].visible then |recs| - 1
    else LastVisible(recs[..|recs| - 1])
  }

  /** getColumnCount: the number of visible tiles on `row`. */
  function ColumnCount(recs: seq<TileRecord>, row: int): (n: nat)
    decreases |recs|
    ensures n <= |recs|
    ensures n == 0 <==> forall i | 0 <= i < |recs| :: !(recs[i].visible && recs[i].row == row)
  {
    if recs == [] then 0
    else
      var last := recs[|recs| - 1];
      ColumnCount(recs[..|recs| - 1], row) + (if last.visible && last.row == row then 1 else 0)
  }

  /** Some visible tile sits on `row`. */
  predicate RowOccupied(recs: seq<TileRecord>, row: int)
  {
    exists i | 0 <= i < |recs| :: recs[i].visible && recs[i].row == row
  }

  /**
   * How tile `b` sits relative to the visible tile `a` placed just before it:
   * on a new row at column 0 when `a` ended its row or the two differ in duality,
   * otherwise in the next column of the same row.
   */
  predicate Follows(a: TileRecord, b: TileRecord, columns: int)
  {
    if a.col == columns - 1 || a.dual != b.dual then b.row == a.row + 1 && b.col == 0
    else b.row == a.row && b.col == a.col + 1
  }

  /** The loop variables describe the last visible tile, or are the initial ones. */
  ghost predicate CursorMatchesLast(laid: seq<TileRecord>, cur: Cursor, columns: int)
  {
    var k := LastVisible(laid);
    (k == -1 ==> cur == Start)
    && (k >= 0 ==>
          cur.r >= 0 && 0 <= cur.c < columns && cur.rows == cur.r + 1
          && laid[k].row == cur.r && laid[k].col == cur.c && laid[k].dual == cur.rowIsDual)
  }

  /** Visible tiles sit inside the grid, and those on the current row share its duality. */
  ghost predicate CellsInRange(laid: seq<TileRecord>, cur: Cursor, columns: int)
  {
    (forall i | 0 <= i < |laid| && laid[i].visible ::
       0 <= laid[i].row <= cur.r && 0 <= laid[i].col < columns)
    && (forall i | 0 <= i < |laid| && laid[i].visible && laid[i].row == cur.r ::
          laid[i].dual == cur.rowIsDual)
  }

  /** Rows never go back along the records, and a row is all dual or all single. */
  ghost predicate RowsOrdered(laid: seq<TileRecord>)
  {
    forall i, j | 0 <= i < j < |laid| && laid[i].visible && laid[j].visible ::
      laid[i].row <= laid[j].row && (laid[i].row == laid[j].row ==> laid[i].dual == laid[j].dual)
  }

  /** The first visible tile is at row 0, column 0. */
  ghost predicate FirstAtOrigin(laid: seq<TileRecord>)
  {
    forall i | 0 <= i < |laid| && laid[i].visible && (forall m | 0 <= m < i :: !laid[m].visible) ::
      laid[i].row == 0 && laid[i].col == 0
  }

  /** Each visible tile follows the visible tile before it. */
  ghost predicate ConsecutiveFollow(laid: seq<TileRecord>, columns: int)
  {
    forall i, j | 0 <= i < j < |laid| && laid[i].visible && laid[j].visible
        && (forall m | i < m < j :: !laid[m].visible) ::
      Follows(laid[i], laid[j], columns)
  }

  /** Every row up to the current one holds a tile; finished rows hold at most `columns`. */
  ghost predicate RowsFilled(laid: seq<TileRecord>, cur: Cursor, columns: int)
  {
    (forall q | 0 <= q <= cur.r :: RowOccupied(laid, q))
    && (forall q | 0 <= q < cur.r :: ColumnCount(laid, q) <= columns)
    && (cur.r >= 0 ==> ColumnCount(laid, cur.r) == cur.c + 1)
  }

  /** What holds of the layout and the loop variables after every prefix of the records. */
  ghost predicate LayoutInvariant(laid: seq<TileRecord>, cur: Cursor, columns: int)
  {
    CursorMatchesLast(laid, cur, columns) && CellsInRange(laid, cur, columns)
    && RowsOrdered(laid) && FirstAtOrigin(laid) && ConsecutiveFollow(laid, columns)
    && RowsFilled(laid, cur, columns)
  }

  lemma ColumnCountAppend(recs: seq<TileRecord>, t: TileRecord, row: int)
    ensures ColumnCount(recs + [t], row)
         == ColumnCount(recs, row) + (if t.visible && t.row == row then 1 else 0)
  {
    assert (recs + [t])[..|recs|] == recs;
  }

  lemma LastVisibleAppend(recs: seq<TileRecord>, t: TileRecord)
    ensures LastVisible(recs + [t]) == if t.visible then |recs| else LastVisible(recs)
  {
    assert (recs + [t])[..|recs|] == recs;
  }

  lemma RowOccupiedAppend(recs: seq<TileRecord>, t: TileRecord, row: int)
    requires RowOccupied(recs, row) || (t.visible && t.row == row)
    ensures RowOccupied(recs + [t], row)
  {
    if t.visible && t.row == row {
      assert (recs + [t])[|recs|] == t;
    } else {
      var i :| 0 <= i < |recs| && recs[i].visible && recs[i].row == row;
      assert (recs + [t])[i] == recs[i];
    }
  }

  lemma StepCursor(lp: seq<TileRecord>, cur: Cursor, t: TileRecord, columns: int)
    requires columns >= 1
    requires CursorMatchesLast(lp, cur, columns) && CellsInRange(lp, cur, columns)
    ensures var laid := lp + [Placed(cur, t, columns)];
      var cur' := Visit(cur, t, columns);
      CursorMatchesLast(laid, cur', columns) && CellsInRange(laid, cur', columns)
  {
    var laid := lp + [Placed(cur, t, columns)];
    LastVisibleAppend(lp, Placed(cur, t, columns));
    assert forall i | 0 <= i < |lp| :: laid[i] == lp[i];
  }

  lemma StepOrder(lp: seq<TileRecord>, cur: Cursor, t: TileRecord, columns: int)
    requires columns >= 1
    requires CursorMatchesLast(lp, cur, columns) && CellsInRange(lp, cur, columns)
    requires RowsOrdered(lp) && FirstAtOrigin(lp)
    ensures var laid := lp + [Placed(cur, t, columns)];
      RowsOrdered(laid) && FirstAtOrigin(laid)
  {
    StepRowsOrdered(lp, cur, t, columns);
    StepFirstAtOrigin(lp, cur, t, columns);
  }

  lemma StepRowsOrdered(lp: seq<TileRecord>, cur: Cursor, t: TileRecord, columns: int)
    requires columns >= 1
    requires CursorMatchesLast(lp, cur, columns) && CellsInRange(lp, cur, columns)
    requires RowsOrdered(lp)
    ensures RowsOrdered(lp + [Placed(cur, t, columns)])
  {
    var p := Placed(cur, t, columns);
    var laid := lp + [p];
    var n := |lp|;
    assert forall i | 0 <= i < n :: laid[i] == lp[i];
    assert laid[n] == p;
    if t.visible {
      forall i | 0 <= i < n && laid[i].visible
        ensures laid[i].row <= p.row && (laid[i].row == p.row ==> laid[i].dual == p.dual)
      {
        assert lp[i].visible && lp[i].row <= cur.r;
      }
    }
  }

  lemma StepFirstAtOrigin(lp: seq<TileRecord>, cur: Cursor, t: TileRecord, columns: int)
    requires columns >= 1
    requires CursorMatchesLast(lp, cur, columns)
    requires FirstAtOrigin(lp)
    ensures FirstAtOrigin(lp + [Placed(cur, t, columns)])
  {
    var p := Placed(cur, t, columns);
    var laid := lp + [p];
    var n := |lp|;
    assert forall i | 0 <= i < n :: laid[i] == lp[i];
    assert laid[n] == p;
    if t.visible {
      if LastVisible(lp) == -1 {
        assert cur == Start;
      } else {
        assert lp[LastVisible(lp)].visible;
      }
    }
  }

  lemma StepFollow(lp: seq<TileRecord>, cur: Cursor, t: TileRecord, columns: int)
    requires columns >= 1
    requires CursorMatchesLast(lp, cur, columns) && ConsecutiveFollow(lp, columns)
    ensures ConsecutiveFollow(lp + [Placed(cur, t, columns)], columns)
  {
    var p := Placed(cur, t, columns);
    var laid := lp + [p];
    var n := |lp|;
    var k := LastVisible(lp);
    assert forall i | 0 <= i < n :: laid[i] == lp[i];
    assert laid[n] == p;
    forall i, j | 0 <= i < j < |laid| && laid[i].visible && laid[j].visible
        && (forall m | i < m < j :: !laid[m].visible)
      ensures Follows(laid[i], laid[j], columns)
    {
      if j < n {
        assert forall m | i < m < j :: !lp[m].visible;
      } else {
        assert k <= i;
      }
    }
  }

  lemma StepRows(lp: seq<TileRecord>, cur: Cursor, t: TileRecord, columns: int)
    requires columns >= 1
    requires CursorMatchesLast(lp, cur, columns) && CellsInRange(lp, cur, columns)
    requires RowsFilled(lp, cur, columns)
    ensures RowsFilled(lp + [Placed(cur, t, columns)], Visit(cur, t, columns), columns)
  {
    var p := Placed(cur, t, columns);
    var laid := lp + [p];
    var cur' := Visit(cur, t, columns);
    forall q ensures ColumnCount(laid, q) == ColumnCount(lp, q) + (if p.visible && p.row == q then 1 else 0) {
      ColumnCountAppend(lp, p, q);
    }
    forall q | 0 <= q <= cur'.r ensures RowOccupied(laid, q) {
      RowOccupiedAppend(lp, p, q);
    }
    if t.visible {
      assert p.row == cur'.r && p.col == cur'.c;
      if cur.r == -1 {
        assert LastVisible(lp) == -1;
        assert ColumnCount(lp, 0) == 0;
        assert cur'.r == 0 && cur'.c == 0;
      } else if cur'.r == cur.r + 1 {
        assert ColumnCount(lp, cur.r) == cur.c + 1 <= columns;
        assert ColumnCount(lp, cur'.r) == 0;
        assert cur'.c == 0;
      } else {
        assert cur'.r == cur.r && cur'.c == cur.c + 1;
      }
    }
  }

  lemma {:induction false} LayoutKeepsInvariant(recs: seq<TileRecord>, columns: int)
    requires columns >= 1
    ensures LayoutInvariant(Layout(recs, columns), CursorAfter(recs, columns), columns)
    decreases |recs|
  {
    if recs != [] {
      var n := |recs| - 1;
      LayoutKeepsInvariant(recs[..n], columns);
      var lp := Layout(recs[..n], columns);
      var cur := CursorAfter(recs[..n], columns);
      var t := recs[n];
      StepCursor(lp, cur, t, columns);
      StepOrder(lp, cur, t, columns);
      StepFollow(lp, cur, t, columns);
      StepRows(lp, cur, t, columns);
    }
  }

  /** Every visible tile lands in a column of the grid and on one of the counted rows. */
  lemma LayoutCellsInRange(recs: seq<TileRecord>, columns: int)
    requires columns >= 1
    ensures forall i | 0 <= i < |recs| && recs[i].visible ::
      0 <= Layout(recs, columns)[i].col < columns
      && 0 <= Layout(recs, columns)[i].row < CursorAfter(recs, columns).rows
  {
    LayoutKeepsInvariant(recs, columns);
  }

  /** Rows never go back, and the tiles sharing a row are all dual or all single. */
  lemma LayoutRowsAreUniform(recs: seq<TileRecord>, columns: int)
    requires columns >= 1
    ensures forall i, j | 0 <= i < j < |recs| && recs[i].visible && recs[j].visible ::
      Layout(recs, columns)[i].row <= Layout(recs, columns)[j].row
      && (Layout(recs, columns)[i].row == Layout(recs, columns)[j].row ==> recs[i].dual == recs[j].dual)
  {
    LayoutKeepsInvariant(recs, columns);
  }

  /**
   * The layout is the grid filled in reading order: the first visible tile sits at
   * row 0, column 0, and each further visible tile follows the previous visible one.
   */
  lemma LayoutFillsInOrder(recs: seq<TileRecord>, columns: int)
    requires columns >= 1
    ensures forall i | 0 <= i < |recs| && recs[i].visible && (forall m | 0 <= m < i :: !recs[m].visible) ::
      Layout(recs, columns)[i].row == 0 && Layout(recs, columns)[i].col == 0
    ensures forall i, j | 0 <= i < j < |recs| && recs[i].visible && recs[j].visible
        && (forall m | i < m < j :: !recs[m].visible) ::
      Follows(Layout(recs, columns)[i], Layout(recs, columns)[j], columns)
  {
    LayoutKeepsInvariant(recs, columns);
  }

  /**
   * The row count onMeasure reports: zero when no tile is visible, otherwise one
   * more than the row of the last visible tile.
   */
  lemma LayoutRowCount(recs: seq<TileRecord>, columns: int)
    requires columns >= 1
    ensures LastVisible(recs) == -1 ==> CursorAfter(recs, columns).rows == 0
    ensures LastVisible(recs) >= 0 ==>
      CursorAfter(recs, columns).rows == Layout(recs, columns)[LastVisible(recs)].row + 1
  {
    LayoutKeepsInvariant(recs, columns);
    LastVisibleSameVisibility(recs, Layout(recs, columns));
  }

  /** Each of the rows onMeasure counts holds between one and `columns` visible tiles. */
  lemma LayoutRowSizes(recs: seq<TileRecord>, columns: int)
    requires columns >= 1
    ensures forall q | 0 <= q < CursorAfter(recs, columns).rows ::
      1 <= ColumnCount(Layout(recs, columns), q) <= columns
  {
    var laid := Layout(recs, columns);
    var cur := CursorAfter(recs, columns);
    assert RowsFilled(laid, cur, columns) && cur.rows == cur.r + 1 && (cur.r >= 0 ==> cur.c < columns) by {
      LayoutKeepsInvariant(recs, columns);
    }
    forall q | 0 <= q < cur.rows ensures 1 <= ColumnCount(laid, q) <= columns {
      assert RowOccupied(laid, q);
      var i :| 0 <= i < |laid| && laid[i].visible && laid[i].row == q;
      if q == cur.r {
        assert ColumnCount(laid, q) == cur.c + 1;
      }
    }
  }

  lemma {:induction false} LastVisibleSameVisibility(a: seq<TileRecord>, b: seq<TileRecord>)
    requires |a| == |b|
    requires forall i | 0 <= i < |a| :: a[i].visible == b[i].visible
    ensures LastVisible(a) == LastVisible(b)
    decreases |a|
  {
    if a != [] {
      LastVisibleSameVisibility(a[..|a| - 1], b[..|b| - 1]);
    }
  }

  /** The resource values updateResources reads. */
  datatype Resources = Resources(
    numColumns: int, tileHeight: int, dualTileHeight: int,
    panelPaddingBottom: int, dualTilePaddingVertical: int)

  /** What the panel asks of the views, tiles, brightness controller, clipper and callback. */
  datatype PanelEffect =
    | Invalidate
    | TileSetListening(tile: nat, listening: bool)
    | TileRefreshState(tile: nat)
    | BrightnessCallbacks(registered: bool)
    | ShowingDetail(detail: Option<nat>)
    | CircularClip(tile: nat, show: bool, teardownWhenDone: bool)
    | ToggleStateChanged(state: bool)

  /** The tile-listening calls setListening makes for tile `tile`. */
  function TileListeningCalls(tile: nat, listening: bool): seq<PanelEffect>
  {
    [TileSetListening(tile, listening)] + (if listening then [TileRefreshState(tile)] else [])
  }

  /** The tile-listening calls setListening makes for the first `n` tiles, in tile order. */
  function ListeningEffects(n: nat, listening: bool): (effects: seq<PanelEffect>)
    ensures |effects| == if listening then 2 * n else n
  {
    if n == 0 then [] else ListeningEffects(n - 1, listening) + TileListeningCalls(n - 1, listening)
  }

  /** Every tile is told to listen or stop, and only a tile that starts listening refreshes. */
  lemma {:induction false} ListeningEffectsReachEveryTile(n: nat, listening: bool, tile: nat)
    requires tile < n
    ensures TileSetListening(tile, listening) in ListeningEffects(n, listening)
    ensures listening <==> TileRefreshState(tile) in ListeningEffects(n, listening)
  {
    if tile < n - 1 {
      ListeningEffectsReachEveryTile(n - 1, listening, tile);
    }
    ListeningEffectsNeverRefreshWhenStopping(n, listening, tile);
  }

  lemma {:induction false} ListeningEffectsNeverRefreshWhenStopping(n: nat, listening: bool, tile: nat)
    ensures !listening ==> TileRefreshState(tile) !in ListeningEffects(n, listening)
  {
    if n > 0 {
      ListeningEffectsNeverRefreshWhenStopping(n - 1, listening, tile);
    }
  }

  lemma TakeOneMore<T>(s: seq<T>, i: nat)
    requires i < |s|
    ensures s[..i + 1] == s[..i] + [s[i]]
  {
  }

  /**
   * The loop of onMeasure over the tile records: each visible tile gets the cell the
   * cursor moves to, and the row count is the one the cursor ends with.
   */
  method MeasureTiles(original: seq<TileRecord>, columns: int) returns (records: seq<TileRecord>, rows: int)
    ensures records == Layout(original, columns)
    ensures rows == CursorAfter(original, columns).rows
  {
    records := original;
    var r := -1;
    var c := -1;
    rows := 0;
    var rowIsDual := false;
    var i := 0;
    while i < |records|
      invariant 0 <= i <= |records| == |original|
      invariant Cursor(r, c, rows, rowIsDual) == CursorAfter(original[..i], columns)
      invariant records[..i] == Layout(original[..i], columns)
      invariant forall k | i <= k < |records| :: records[k] == original[k]
    {
      LayoutPrefixStep(original, i, columns);
      ghost var done := records[..i];
      var record := records[i];
      if record.visible {
        if r == -1 || c == columns - 1 || rowIsDual != record.dual {
          r := r + 1;
          c := 0;
          rowIsDual := record.dual;
        } else {
          c := c + 1;
        }
        records := records[i := record.(row := r, col := c)];
        rows := r + 1;
      }
      assert records[..i] == done;
      TakeOneMore(records, i);
      i := i + 1;
    }
    assert original[..i] == original;
    assert records[..i] == records;
  }

  /** The loop of setListening over the tiles: each tile's calls, in tile order. */
  method ListeningCalls(n: nat, listen: bool) returns (calls: seq<PanelEffect>)
    ensures calls == ListeningEffects(n, listen)
  {
    calls := [];
    var i := 0;
    while i < n
      invariant 0 <= i <= n
      invariant calls == ListeningEffects(i, listen)
    {
      calls := calls + [TileSetListening(i, listen)];
      if listen {
        calls := calls + [TileRefreshState(i)];
      }
      i := i + 1;
    }
  }

  class QSPanel {
    var columns: int
    var cellHeight: int
    var largeCellHeight: int
    var panelPaddingBottom: int
    var dualTileUnderlap: int
    /** The current height of the brightness slider view. */
    var brightnessHeight: int
    var expanded: bool
    var listening: bool
    var hasCallback: bool
    var records: seq<TileRecord>
    /** mDetailRecord, as the index of the tile in `records`. */
    var detailRecord: Option<nat>
    /** A hide animation carrying mTeardownDetailWhenDone is running. */
    var teardownPending: bool
    var effects: seq<PanelEffect>

    predicate Valid()
      reads this
    {
      columns >= 1 && (detailRecord.Some? ==> detailRecord.value < |records|)
    }

    /** The constructor: no tiles yet, then updateResources. */
    constructor(res: Resources, brightnessViewHeight: int)
      ensures Valid()
      ensures records == [] && detailRecord == None && !expanded && !listening && !hasCallback
      ensures columns == (if res.numColumns > 1 then res.numColumns else 1)
      ensures effects == [Invalidate]
    {
      columns := 0;
      brightnessHeight := brightnessViewHeight;
      expanded := false;
      listening := false;
      hasCallback := false;
      records := [];
      detailRecord := None;
      teardownPending := false;
      effects := [];
      new;
      UpdateResources(res);
    }

    /** updateResources: at least one column; invalidates only when the column count changes. */
    method UpdateResources(res: Resources)
      modifies this
      ensures columns == (if res.numColumns > 1 then res.numColumns else 1)
      ensures columns >= 1
      ensures cellHeight == res.tileHeight && largeCellHeight == res.dualTileHeight
      ensures panelPaddingBottom == res.panelPaddingBottom
      ensures dualTileUnderlap == res.dualTilePaddingVertical
      ensures effects == old(effects) + (if old(columns) != columns then [Invalidate] else [])
      ensures records == old(records) && detailRecord == old(detailRecord)
      ensures expanded == old(expanded) && listening == old(listening)
      ensures hasCallback == old(hasCallback) && teardownPending == old(teardownPending)
      ensures brightnessHeight == old(brightnessHeight)
      ensures old(detailRecord.Some? ==> detailRecord.value < |records|) ==> Valid()
    {
      var cols := if res.numColumns > 1 then res.numColumns else 1;
      cellHeight := res.tileHeight;
      largeCellHeight := res.dualTileHeight;
      panelPaddingBottom := res.panelPaddingBottom;
      dualTileUnderlap := res.dualTilePaddingVertical;
      if columns != cols {
        columns := cols;
        effects := effects + [Invalidate];
      }
    }

    method SetCallback(present: bool)
      modifies this`hasCallback
      ensures hasCallback == present
    {
      hasCallback := present;
    }

    /** addTile: the new record starts hidden at row 0, column 0, and the tile refreshes. */
    method AddTile(dual: bool) returns (index: nat)
      requires Valid()
      modifies this`records, this`effects
      ensures Valid()
      ensures index == |old(records)|
      ensures records == old(records) + [TileRecord(false, dual, 0, 0)]
      ensures effects == old(effects) + [TileRefreshState(index)]
    {
      index := |records|;
      records := records + [TileRecord(false, dual, 0, 0)];
      effects := effects + [TileRefreshState(index)];
    }

    /** handleSetTileVisibility: shows or hides a tile's view; nothing else moves. */
    method SetTileVisibility(tile: nat, visible: bool)
      requires Valid() && tile < |records|
      modifies this`records
      ensures Valid()
      ensures records == old(records)[tile := old(records)[tile].(visible := visible)]
    {
      if visible != records[tile].visible {
        records := records[tile := records[tile].(visible := visible)];
      }
    }

    /** The height onMeasure measures a row's tiles at: the first row is tall, the others one cell high. */
    function RowHeight(row: int): int
      reads this
    {
      if row == 0 then largeCellHeight else cellHeight
    }

    /** The heights of the first `count` rows, stacked one on the other. */
    ghost function StackedRows(count: nat): int
      reads this
    {
      if count == 0 then 0 else StackedRows(count - 1) + RowHeight(count - 1)
    }

    lemma {:induction false} StackedRowsClosedForm(count: nat)
      requires count >= 1
      ensures StackedRows(count) == largeCellHeight + (count - 1) * cellHeight
    {
      if count > 1 {
        StackedRowsClosedForm(count - 1);
      }
    }

    /**
     * getRowTop: the first row starts under the brightness view; every later
     * row starts below the rows above it, the dual row tucked under by the
     * underlap.
     */
    function RowTop(row: int): (top: int)
      reads this
      ensures row <= 0 ==> top == brightnessHeight
      ensures row >= 1 ==> top == brightnessHeight + StackedRows(row) - dualTileUnderlap
    {
      if row <= 0 then brightnessHeight
      else
        StackedRowsClosedForm(row);
        brightnessHeight + largeCellHeight - dualTileUnderlap + (row - 1) * cellHeight
    }

    /** Each row starts where the one above it ends; only the dual row overlaps the next by the underlap. */
    lemma RowTopsStack(row: nat)
      ensures RowTop(row + 1) == RowTop(row) + RowHeight(row) - (if row == 0 then dualTileUnderlap else 0)
    {
    }

    /** getColumnCount on the panel's own records. */
    function GetColumnCount(row: int): (n: nat)
      reads this
      ensures n <= |records|
      ensures n == 0 <==> !RowOccupied(records, row)
    {
      ColumnCount(records, row)
    }

    /**
     * The layout loop of onMeasure: writes every visible tile's row and column and
     * returns the panel height it measures.
     */
    method OnMeasure() returns (height: int)
      requires Valid()
      modifies this`records
      ensures Valid()
      ensures records == Layout(old(records), columns)
      ensures var rows := CursorAfter(old(records), columns).rows;
        && (rows == 0 ==> height == brightnessHeight)
        && (rows > 0 ==> height == brightnessHeight + StackedRows(rows) - dualTileUnderlap + panelPaddingBottom)
    {
      var laid, rows := MeasureTiles(records, columns);
      records := laid;
      height := if rows == 0 then brightnessHeight else RowTop(rows) + panelPaddingBottom;
    }

    /**
     * handleShowDetail. `adapter` is what the tile's getDetailAdapter gives: None for
     * no adapter, Some(b) for one whose createDetailView returns a view exactly when b.
     */
    method HandleShowDetail(tile: Option<nat>, show: bool, adapter: Option<bool>) returns (outcome: Outcome)
      requires Valid()
      requires tile.Some? ==> tile.value < |records|
      modifies this`detailRecord, this`teardownPending, this`effects
      ensures Valid()
      ensures outcome == (if tile.Some? && show && old(detailRecord).None? && adapter == Some(false)
                          then Thrown(IllegalStateException) else Done)
      ensures tile.Some? && show && old(detailRecord).None? && adapter == Some(true) ==>
        detailRecord == tile && teardownPending == old(teardownPending)
        && effects == old(effects) + (if hasCallback then [ShowingDetail(tile)] else [])
                     + [CircularClip(tile.value, true, false)]
      ensures tile.Some? && !show && old(detailRecord).Some? ==>
        detailRecord == old(detailRecord) && teardownPending
        && effects == old(effects) + (if hasCallback then [ShowingDetail(None)] else [])
                     + [CircularClip(tile.value, false, true)]
      ensures (!(tile.Some? && show && old(detailRecord).None? && adapter == Some(true))
               && !(tile.Some? && !show && old(detailRecord).Some?)) ==>
        detailRecord == old(detailRecord) && teardownPending == old(teardownPending)
        && effects == old(effects)
    {
      if tile.None? {
        return Done;
      }
      var teardown := false;
      if show {
        if detailRecord.Some? {
          return Done;
        }
        if adapter.None? {
          return Done;
        }
        if !adapter.value {
          return Thrown(IllegalStateException);
        }
        detailRecord := tile;
      } else {
        if detailRecord.None? {
          return Done;
        }
        teardown := true;
        teardownPending := true;
      }
      if hasCallback {
        effects := effects + [ShowingDetail(if show then tile else None)];
      }
      effects := effects + [CircularClip(tile.value, show, teardown)];
      return Done;
    }

    /** mTeardownDetailWhenDone: when the hide animation ends the detail record is cleared. */
    method OnClipAnimationEnd()
      requires Valid()
      modifies this`detailRecord, this`teardownPending
      ensures Valid()
      ensures old(teardownPending) ==> detailRecord == None && !teardownPending
      ensures !old(teardownPending) ==> detailRecord == old(detailRecord) && !teardownPending
    {
      if teardownPending {
        detailRecord := None;
        teardownPending := false;
      }
    }

    /** setExpanded: collapsing hides the detail view that is showing, if any. */
    method SetExpanded(expand: bool)
      requires Valid()
      modifies this`expanded, this`detailRecord, this`teardownPending, this`effects
      ensures Valid()
      ensures expanded == expand
      ensures old(expanded) == expand ==>
        detailRecord == old(detailRecord) && teardownPending == old(teardownPending) && effects == old(effects)
      ensures old(expanded) && !expand && old(detailRecord).Some? ==>
        teardownPending && detailRecord == old(detailRecord)
        && effects == old(effects) + (if hasCallback then [ShowingDetail(None)] else [])
                     + [CircularClip(old(detailRecord).value, false, true)]
      ensures old(expanded) != expand && (expand || old(detailRecord).None?) ==>
        detailRecord == old(detailRecord) && teardownPending == old(teardownPending)
        && effects == old(effects)
    {
      if expanded == expand {
        return;
      }
      expanded := expand;
      if !expanded {
        var _ := HandleShowDetail(detailRecord, false, None);
      }
    }

    /** setListening: every tile starts or stops listening (and refreshes when starting), then the brightness controller. */
    method SetListening(listen: bool)
      requires Valid()
      modifies this`listening, this`effects
      ensures Valid()
      ensures listening == listen
      ensures old(listening) == listen ==> effects == old(effects)
      ensures old(listening) != listen ==>
        effects == old(effects) + ListeningEffects(|records|, listen) + [BrightnessCallbacks(listen)]
    {
      if listening == listen {
        return;
      }
      listening := listen;
      var calls := ListeningCalls(|records|, listen);
      effects := effects + calls;
      effects := effects + [BrightnessCallbacks(listen)];
    }

    /** A tile's onToggleStateChanged reaches the callback only for the tile whose detail is showing. */
    method OnToggleStateChanged(tile: nat, state: bool)
      modifies this`effects
      ensures effects == old(effects)
        + (if detailRecord == Some(tile) && hasCallback then [ToggleStateChanged(state)] else [])
    {
      if detailRecord == Some(tile) && hasCallback {
        effects := effects + [ToggleStateChanged(state)];
      }
    }
  }
}
