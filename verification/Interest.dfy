/** Reported viewports and the uniform grid they are filtered on. */
module Grid {
  import opened Wrappers

  const GRID_CELL_SIZE := 512

  datatype GridCell = GridCell(x: int, y: int)

  datatype Preferences = Preferences(transform: bool, ink: bool, cursor: bool, laser: bool)

  datatype Interest = Interest(
    connectionId: string, noteId: string, pageId: string,
    x: real, y: real, width: real, height: real, preview: Option<Preferences>)

  datatype EventLocation = EventLocation(pageId: string, hasPoint: bool, x: real, y: real)

  /** Conversion to an integer drops the fraction. */
  function Truncate(r: real): int {
    if r >= 0.0 then r.Floor else -((-r).Floor)
  }

  /** What fits a 64-bit integer when its fraction is dropped; the source converts only such values portably. */
  predicate InIntRange(r: real) {
    -0x8000_0000_0000_0000 <= Truncate(r) < 0x8000_0000_0000_0000
  }

  /** Integer division rounds toward zero. */
  function Quotient(a: int, b: int): int
    requires b > 0
  {
    if a >= 0 then a / b else -((-a) / b)
  }

  /** Both roundings are toward zero, so cell 0 is twice as wide as the others. */
  function CellIndex(coordinate: real): int {
    Quotient(Truncate(coordinate), GRID_CELL_SIZE)
  }

  predicate CornersInIntRange(i: Interest) {
    && InIntRange(i.x) && InIntRange(i.x + i.width)
    && InIntRange(i.y) && InIntRange(i.y + i.height)
  }

  predicate InSpan(cell: int, low: real, high: real) {
    CellIndex(low) - 1 <= cell <= CellIndex(high) + 1
  }

  /** The cells of a viewport: those its rectangle overlaps and one more on every side. */
  predicate Covers(i: Interest, cell: GridCell) {
    && i.width > 0.0 && i.height > 0.0
    && InSpan(cell.x, i.x, i.x + i.width)
    && InSpan(cell.y, i.y, i.y + i.height)
  }

  method Cells(i: Interest) returns (cells: seq<GridCell>)
    ensures forall cell :: cell in cells <==> Covers(i, cell)
    ensures forall a, b | 0 <= a < b < |cells| :: cells[a] != cells[b]
  {
    if i.width <= 0.0 || i.height <= 0.0 {
      return [];
    }
    hide CellIndex;
    var minX, minY := CellIndex(i.x) - 1, CellIndex(i.y) - 1;
    var maxX, maxY := CellIndex(i.x + i.width) + 1, CellIndex(i.y + i.height) + 1;
    cells := [];
    var cx := minX;
    while cx <= maxX
      invariant minX <= cx
      invariant forall cell :: cell in cells <==> minX <= cell.x < cx && cell.x <= maxX && minY <= cell.y <= maxY
      invariant forall a, b | 0 <= a < b < |cells| :: cells[a] != cells[b]
      decreases maxX - cx
    {
      var cy := minY;
      while cy <= maxY
        invariant minY <= cy
        invariant forall cell :: cell in cells <==>
                    || (minX <= cell.x < cx && minY <= cell.y <= maxY)
                    || (cell.x == cx && minY <= cell.y < cy && cell.y <= maxY)
        invariant forall a, b | 0 <= a < b < |cells| :: cells[a] != cells[b]
        decreases maxY - cy
      {
        assert GridCell(cx, cy) !in cells;
        cells := cells + [GridCell(cx, cy)];
        cy := cy + 1;
      }
      cx := cx + 1;
    }
  }

  function AllowsPreview(i: Interest, event: string): bool {
    if i.preview.None? then true
    else if event == "block.transform.preview" then i.preview.value.transform
    else if event in {"ink.started", "ink.points", "ink.ended"} then i.preview.value.ink
    else if event == "cursor.moved" then i.preview.value.cursor
    else if event == "laser.moved" then i.preview.value.laser
    else true
  }

  /** What a connection's own report says about an event, with no index. */
  function Wants(report: Option<Interest>, location: EventLocation): bool {
    if report.None? then true
    else if !location.hasPoint then location.pageId == "" || location.pageId == report.value.pageId
    else
      && (location.pageId == "" || location.pageId == report.value.pageId)
      && Covers(report.value, GridCell(CellIndex(location.x), CellIndex(location.y)))
  }

  // --------------------------------------------------------------- filter bounds

  lemma TruncateBounds(r: real)
    ensures r >= 0.0 ==> Truncate(r) as real <= r < Truncate(r) as real + 1.0
    ensures r < 0.0 ==> Truncate(r) as real - 1.0 < r <= Truncate(r) as real
  {
  }

  /** A cell is a half-open interval away from zero, and an open double-width one at zero. */
  lemma CellInterval(v: real)
    ensures var c := CellIndex(v);
            && (c > 0 ==> c as real * 512.0 <= v < c as real * 512.0 + 512.0)
            && (c == 0 ==> -512.0 < v < 512.0)
            && (c < 0 ==> c as real * 512.0 - 512.0 < v <= c as real * 512.0)
  {
    TruncateBounds(v);
    var t, c := Truncate(v), CellIndex(v);
    if t >= 0 {
      assert 512 * c <= t < 512 * c + 512;
    } else {
      assert 512 * c - 512 < t <= 512 * c;
    }
  }

  /** On one axis: anything within a cell's width of the span is in a covered cell. */
  lemma NearIsInSpan(v: real, low: real, high: real)
    requires low <= high && low - 512.0 <= v <= high + 512.0
    ensures InSpan(CellIndex(v), low, high)
  {
    hide CellIndex;
    CellInterval(v);
    CellInterval(low);
    CellInterval(high);
  }

  /** On one axis: anything in a covered cell is less than three cell widths from the span. */
  lemma InSpanIsNear(v: real, low: real, high: real)
    requires low <= high && InSpan(CellIndex(v), low, high)
    ensures low - 1536.0 < v < high + 1536.0
  {
    hide CellIndex;
    CellInterval(v);
    CellInterval(low);
    CellInterval(high);
  }

  predicate WithinOf(i: Interest, x: real, y: real, margin: real) {
    && i.x - margin <= x <= i.x + i.width + margin
    && i.y - margin <= y <= i.y + i.height + margin
  }

  predicate CloserThan(i: Interest, x: real, y: real, margin: real) {
    && i.x - margin < x < i.x + i.width + margin
    && i.y - margin < y < i.y + i.height + margin
  }

  /**
    The filter never hides a point of the reported page inside the viewport or within
    512 units of it on both axes, and never delivers one 1536 units or more away on an axis.
   */
  lemma FilterBounds(i: Interest, location: EventLocation)
    requires i.width > 0.0 && i.height > 0.0
    requires location.hasPoint && (location.pageId == "" || location.pageId == i.pageId)
    ensures WithinOf(i, location.x, location.y, 512.0) ==> Wants(Some(i), location)
    ensures Wants(Some(i), location) ==> CloserThan(i, location.x, location.y, 1536.0)
  {
    hide CellIndex, InSpan;
    if WithinOf(i, location.x, location.y, 512.0) {
      NearIsInSpan(location.x, i.x, i.x + i.width);
      NearIsInSpan(location.y, i.y, i.y + i.height);
    }
    if Wants(Some(i), location) {
      InSpanIsNear(location.x, i.x, i.x + i.width);
      InSpanIsNear(location.y, i.y, i.y + i.height);
    }
  }

  /** Neither margin can be moved by one unit: some viewport and point are in the way. */
  lemma FilterBoundsAreSharp()
    ensures exists i: Interest, l: EventLocation ::
              i.width > 0.0 && i.height > 0.0 && l.hasPoint && l.pageId == i.pageId
              && WithinOf(i, l.x, l.y, 513.0) && !Wants(Some(i), l)
    ensures exists i: Interest, l: EventLocation ::
              i.width > 0.0 && i.height > 0.0 && l.hasPoint && l.pageId == i.pageId
              && Wants(Some(i), l) && !CloserThan(i, l.x, l.y, 1535.0)
  {
    var narrow := Interest("c", "n", "p", 0.0, 0.0, 511.5, 511.5, None);
    var outside := EventLocation("p", true, 1024.0, 0.0);
    assert WithinOf(narrow, outside.x, outside.y, 513.0) && !Wants(Some(narrow), outside);
    var negative := Interest("c", "n", "p", -512.0, 0.0, 0.5, 1.0, None);
    var far := EventLocation("p", true, 1023.5, 0.0);
    assert CellIndex(far.x) == 1 && CellIndex(negative.x + negative.width) == 0;
    assert Wants(Some(negative), far) && !CloserThan(negative, far.x, far.y, 1535.0);
  }
}

/** The two-way index from connections to cells and back. */
module InterestIndex {
  import opened Wrappers
  import opened Grid

  type CellMap = map<GridCell, set<string>>

  type Index = map<string, map<string, CellMap>>

  predicate InCells(cells: CellMap, cell: GridCell, c: string) {
    cell in cells && c in cells[cell]
  }

  predicate Has(index: Index, note: string, page: string, cell: GridCell, c: string) {
    note in index && page in index[note] && InCells(index[note][page], cell, c)
  }

  predicate NoEmptyCells(cells: CellMap) {
    forall cell | cell in cells :: cells[cell] != {}
  }

  /** No inner map or set is kept once it is empty. */
  predicate NoEmpty(index: Index) {
    forall note | note in index ::
      && index[note] != map[]
      && forall page | page in index[note] :: index[note][page] != map[] && NoEmptyCells(index[note][page])
  }

  predicate Concerns(i: Interest, note: string, page: string, cell: GridCell, c: string) {
    i.noteId == note && i.pageId == page && i.connectionId == c && Covers(i, cell)
  }

  function Report(reports: map<string, Interest>, c: string): Option<Interest> {
    if c in reports then Some(reports[c]) else None
  }

  /** The cell side holds exactly what the reports say. */
  ghost predicate Agrees(index: Index, reports: map<string, Interest>) {
    && (forall c | c in reports :: reports[c].connectionId == c)
    && (forall note, page, cell, c ::
          Has(index, note, page, cell, c) <==> c in reports && Concerns(reports[c], note, page, cell, c))
  }

  /** `after` is `before` with the entries of `i` added, or taken away. */
  ghost predicate Added(before: Index, after: Index, i: Interest) {
    forall note, page, cell, c ::
      Has(after, note, page, cell, c) <==> Has(before, note, page, cell, c) || Concerns(i, note, page, cell, c)
  }

  ghost predicate Dropped(before: Index, after: Index, i: Interest) {
    forall note, page, cell, c ::
      Has(after, note, page, cell, c) <==> Has(before, note, page, cell, c) && !Concerns(i, note, page, cell, c)
  }

  /** The nested maps with one page's cells replaced, emptied levels deleted. */
  function WithPage(index: Index, note: string, page: string, cells: CellMap): Index
    requires note in index
  {
    var pages := if cells == map[] then index[note] - {page} else index[note][page := cells];
    if pages == map[] then index - {note} else index[note := pages]
  }

  /** Nothing but the replaced page is affected. */
  ghost predicate OnlyPage(before: Index, after: Index, note: string, page: string, cells: CellMap) {
    forall n, p, cell, c ::
      Has(after, n, p, cell, c) <==>
      if n == note && p == page then InCells(cells, cell, c) else Has(before, n, p, cell, c)
  }

  lemma WithPageHas(index: Index, note: string, page: string, cells: CellMap)
    requires note in index
    ensures OnlyPage(index, WithPage(index, note, page, cells), note, page, cells)
  {
    var after := WithPage(index, note, page, cells);
    var pages := if cells == map[] then index[note] - {page} else index[note][page := cells];
    forall n, p, cell, c
      ensures Has(after, n, p, cell, c) <==>
              if n == note && p == page then InCells(cells, cell, c) else Has(index, n, p, cell, c)
    {
      if n == note && p != page {
        assert p in pages <==> p in index[note];
      }
    }
  }

  lemma WithPageNoEmpty(index: Index, note: string, page: string, cells: CellMap)
    requires note in index && NoEmpty(index) && NoEmptyCells(cells)
    ensures NoEmpty(WithPage(index, note, page, cells))
  {
    hide NoEmptyCells;
  }

  /** The nested maps with one connection entered, missing levels created. */
  function WithEntry(index: Index, note: string, page: string, cell: GridCell, c: string): Index {
    var pages := if note in index then index[note] else map[];
    var cells := if page in pages then pages[page] else map[];
    var connections := if cell in cells then cells[cell] else {};
    index[note := pages[page := cells[cell := connections + {c}]]]
  }

  ghost predicate OneMore(before: Index, after: Index, note: string, page: string, cell: GridCell, c: string) {
    forall n, p, d, e ::
      Has(after, n, p, d, e) <==> Has(before, n, p, d, e) || (n == note && p == page && d == cell && e == c)
  }

  lemma WithEntryHas(index: Index, note: string, page: string, cell: GridCell, c: string)
    ensures OneMore(index, WithEntry(index, note, page, cell, c), note, page, cell, c)
  {
    var after := WithEntry(index, note, page, cell, c);
    forall n, p, d, e
      ensures Has(after, n, p, d, e) <==> Has(index, n, p, d, e) || (n == note && p == page && d == cell && e == c)
    {
      if n != note {
      } else if p != page {
      } else if d != cell {
      }
    }
  }

  lemma WithEntryNoEmpty(index: Index, note: string, page: string, cell: GridCell, c: string)
    requires NoEmpty(index)
    ensures NoEmpty(WithEntry(index, note, page, cell, c))
  {
  }

  // ------------------------------------------------------ the plain map of last reports

  datatype Op = Reported(interest: Interest) | Removed(connectionId: string) | NoteRemoved(noteId: string)

  function Apply(reports: map<string, Interest>, op: Op): map<string, Interest> {
    match op
    case Reported(i) => reports[i.connectionId := i]
    case Removed(c) => reports - {c}
    case NoteRemoved(n) => map c | c in reports && reports[c].noteId != n :: reports[c]
  }

  function LastReports(ops: seq<Op>): map<string, Interest> {
    if ops == [] then map[] else Apply(LastReports(ops[..|ops| - 1]), ops[|ops| - 1])
  }

  predicate Overrides(op: Op, i: Interest) {
    match op
    case Reported(other) => other.connectionId == i.connectionId
    case Removed(c) => c == i.connectionId
    case NoteRemoved(n) => n == i.noteId
  }

  /** Call `k` is a report that nothing later overrides. */
  predicate Survives(ops: seq<Op>, k: nat)
    requires k < |ops|
  {
    ops[k].Reported? && forall j | k < j < |ops| :: !Overrides(ops[j], ops[k].interest)
  }

  /** A run leaves, for each connection, its surviving report, if there is one. */
  lemma {:induction false} LastReportsSurvive(ops: seq<Op>, c: string)
    ensures forall k | 0 <= k < |ops| && Survives(ops, k) && ops[k].interest.connectionId == c ::
              c in LastReports(ops) && LastReports(ops)[c] == ops[k].interest
    ensures c in LastReports(ops) ==>
              exists k :: 0 <= k < |ops| && Survives(ops, k) && ops[k].interest.connectionId == c
    decreases |ops|
  {
    if ops != [] {
      var n := |ops| - 1;
      var before := ops[..n];
      LastReportsSurvive(before, c);
      forall k | 0 <= k < n && Survives(ops, k) ensures Survives(before, k) && !Overrides(ops[n], ops[k].interest) {
      }
      forall k | 0 <= k < n && Survives(before, k) && !Overrides(ops[n], before[k].interest) ensures Survives(ops, k) {
      }
      if c in LastReports(ops) {
        if ops[n].Reported? && ops[n].interest.connectionId == c {
          assert Survives(ops, n);
        } else {
          var k :| 0 <= k < n && Survives(before, k) && before[k].interest.connectionId == c;
          assert Survives(ops, k);
        }
      }
    }
  }

  /**
    Delivery over any run: a connection whose surviving report names the event's page gets
    every point inside its viewport or within 512 units of it, and none 1536 units or more away.
   */
  lemma DeliveryBounds(ops: seq<Op>, k: nat, location: EventLocation)
    requires k < |ops| && Survives(ops, k)
    requires ops[k].interest.width > 0.0 && ops[k].interest.height > 0.0
    requires location.hasPoint && (location.pageId == "" || location.pageId == ops[k].interest.pageId)
    requires InIntRange(location.x) && InIntRange(location.y) && CornersInIntRange(ops[k].interest)
    ensures var i := ops[k].interest;
            var delivered := Wants(Report(LastReports(ops), i.connectionId), location);
            && (WithinOf(i, location.x, location.y, 512.0) ==> delivered)
            && (delivered ==> CloserThan(i, location.x, location.y, 1536.0))
  {
    LastReportsSurvive(ops, ops[k].interest.connectionId);
    FilterBounds(ops[k].interest, location);
  }

  /** The reports determine the whole cell side, whatever calls led to them. */
  lemma IndexIsDetermined(a: Index, b: Index, reports: map<string, Interest>)
    requires NoEmpty(a) && NoEmpty(b)
    requires Agrees(a, reports) && Agrees(b, reports)
    ensures a == b
  {
    hide Has, Concerns, NoEmpty;
    assert SameEntries(a, b);
    SameEntriesSameIndex(a, b);
  }

  lemma SameEntriesSameIndex(a: Index, b: Index)
    requires NoEmpty(a) && NoEmpty(b) && SameEntries(a, b)
    ensures a == b
  {
    hide NoEmpty, Has;
    assert SameEntries(b, a);
    IndexWithin(a, b);
    IndexWithin(b, a);
    forall note | note in a ensures note in b && a[note] == b[note] {
      SameNote(a, b, note);
    }
  }

  /** Every level of `a` is present in `b`. */
  ghost predicate Within(a: Index, b: Index) {
    forall note | note in a ::
      note in b && forall page | page in a[note] :: page in b[note] && a[note][page].Keys <= b[note][page].Keys
  }

  lemma SameNote(a: Index, b: Index, note: string)
    requires Within(a, b) && Within(b, a) && SameEntries(a, b)
    requires note in a
    ensures note in b && a[note] == b[note]
  {
    hide SameEntries;
    forall page | page in a[note] ensures page in b[note] && a[note][page] == b[note][page] {
      assert a[note][page].Keys == b[note][page].Keys;
      SamePage(a, b, note, page);
    }
  }

  ghost predicate SameEntries(a: Index, b: Index) {
    forall note, page, cell, c :: Has(a, note, page, cell, c) <==> Has(b, note, page, cell, c)
  }

  lemma IndexWithin(a: Index, b: Index)
    requires NoEmpty(a) && SameEntries(a, b)
    ensures Within(a, b)
  {
    forall note | note in a ensures note in b {
      assert a[note] != map[];
      var page :| page in a[note];
      PageWithin(a, b, note, page);
    }
    forall note, page | note in a && page in a[note] && note in b
      ensures page in b[note] && a[note][page].Keys <= b[note][page].Keys
    {
      PageWithin(a, b, note, page);
    }
  }

  lemma PageWithin(a: Index, b: Index, note: string, page: string)
    requires note in a && page in a[note] && NoEmpty(a) && SameEntries(a, b)
    ensures note in b && page in b[note] && a[note][page].Keys <= b[note][page].Keys
  {
    var cells := a[note][page];
    assert cells != map[] && NoEmptyCells(cells);
    forall cell | cell in cells ensures note in b && page in b[note] && cell in b[note][page] {
      var c :| c in cells[cell];
      assert Has(a, note, page, cell, c);
    }
    var some :| some in cells;
  }

  lemma SamePage(a: Index, b: Index, note: string, page: string)
    requires note in a && page in a[note] && note in b && page in b[note]
    requires a[note][page].Keys == b[note][page].Keys && SameEntries(a, b)
    ensures a[note][page] == b[note][page]
  {
    forall cell | cell in a[note][page] ensures a[note][page][cell] == b[note][page][cell] {
      forall c ensures c in a[note][page][cell] <==> c in b[note][page][cell] {
        assert Has(a, note, page, cell, c) <==> Has(b, note, page, cell, c);
      }
    }
  }

  class MemoryInterestIndex {
    var byConnection: map<string, Interest>
    var byCell: Index

    ghost predicate Valid()
      reads this
    {
      NoEmpty(byCell) && Agrees(byCell, byConnection)
    }

    constructor ()
      ensures Valid() && byConnection == map[]
    {
      byConnection, byCell := map[], map[];
    }

    method Update(interest: Interest)
      requires Valid()
      modifies this
      ensures Valid()
      ensures byConnection == Apply(old(byConnection), Reported(interest))
    {
      hide Has, NoEmpty, Covers;
      ghost var cleared := byCell;
      if interest.connectionId in byConnection {
        RemoveLocked(byConnection[interest.connectionId]);
        cleared := byCell;
        DroppedAgrees(old(byCell), cleared, byConnection, interest.connectionId);
      } else {
        assert byConnection - {interest.connectionId} == byConnection;
      }
      byConnection := byConnection[interest.connectionId := interest];
      var cells := Cells(interest);
      for i := 0 to |cells|
        invariant NoEmpty(byCell) && byConnection == old(byConnection)[interest.connectionId := interest]
        invariant AddedSome(cleared, byCell, interest, cells[..i])
      {
        ghost var before := byCell;
        AddToCellLocked(interest.noteId, interest.pageId, cells[i], interest.connectionId);
        AddedOneMore(cleared, before, byCell, interest, cells, i);
      }
      AddedAll(cleared, byCell, interest, cells);
      AddedAgrees(cleared, byCell, old(byConnection), interest);
    }

    method Remove(connectionId: string)
      requires Valid()
      modifies this
      ensures Valid()
      ensures byConnection == Apply(old(byConnection), Removed(connectionId))
    {
      hide Has, NoEmpty, Covers;
      if connectionId !in byConnection {
        assert byConnection - {connectionId} == byConnection;
        return;
      }
      RemoveLocked(byConnection[connectionId]);
      DroppedAgrees(old(byCell), byCell, byConnection, connectionId);
      byConnection := byConnection - {connectionId};
    }

    /** The index gives the answer that the connection's report alone gives. */
    method Interested(connectionId: string, location: EventLocation) returns (answer: bool)
      requires Valid()
      ensures answer == Wants(Report(byConnection, connectionId), location)
    {
      hide CellIndex, Covers;
      if connectionId !in byConnection {
        return true;
      }
      var interest := byConnection[connectionId];
      if !location.hasPoint {
        return location.pageId == "" || location.pageId == interest.pageId;
      }
      if location.pageId != "" && location.pageId != interest.pageId {
        return false;
      }
      var cell := GridCell(CellIndex(location.x), CellIndex(location.y));
      assert Has(byCell, interest.noteId, interest.pageId, cell, connectionId) <==> Covers(interest, cell);
      answer := Has(byCell, interest.noteId, interest.pageId, cell, connectionId);
    }

    method AllowsPreview(connectionId: string, event: string) returns (answer: bool)
      ensures answer == (connectionId in byConnection ==> Grid.AllowsPreview(byConnection[connectionId], event))
    {
      if connectionId !in byConnection {
        return true;
      }
      answer := Grid.AllowsPreview(byConnection[connectionId], event);
    }

    method RemoveNote(noteId: string)
      requires Valid()
      modifies this
      ensures Valid()
      ensures byConnection == Apply(old(byConnection), NoteRemoved(noteId))
    {
      hide NoEmpty, Agrees, Covers;
      byCell := byCell - {noteId};
      ghost var before := byConnection;
      ForgetNote(noteId);
      NoteDropped(old(byCell), byCell, before, byConnection, noteId);
    }

    /** The deleting loop over the reports. */
    method ForgetNote(noteId: string)
      modifies this`byConnection
      ensures byConnection == Apply(old(byConnection), NoteRemoved(noteId))
    {
      ghost var before := byConnection;
      var todo := byConnection.Keys;
      while todo != {}
        invariant todo <= before.Keys
        invariant byConnection == map c | c in before && (c in todo || before[c].noteId != noteId) :: before[c]
        decreases |todo|
      {
        var c :| c in todo;
        if byConnection[c].noteId == noteId {
          byConnection := byConnection - {c};
        }
        todo := todo - {c};
      }
    }

    method RemoveLocked(interest: Interest)
      requires NoEmpty(byCell)
      modifies this`byCell
      ensures NoEmpty(byCell)
      ensures Dropped(old(byCell), byCell, interest)
    {
      hide Covers, NoEmptyCells;
      var note, page := interest.noteId, interest.pageId;
      if note !in byCell || page !in byCell[note] {
        return;
      }
      var cells := byCell[note][page];
      ghost var before := cells;
      var list := Cells(interest);
      CellsStart(before, interest.connectionId);
      for i := 0 to |list|
        invariant byCell == old(byCell)
        invariant NoEmptyCells(cells)
        invariant CellsDropped(before, cells, interest.connectionId, list[..i])
      {
        var cell := list[i];
        ghost var earlier := cells;
        if cell in cells {
          var connections := cells[cell] - {interest.connectionId};
          if connections == {} {
            cells := cells - {cell};
          } else {
            cells := cells[cell := connections];
          }
        }
        CellsDropStep(before, earlier, cells, interest.connectionId, list, i);
      }
      WithPageHas(byCell, note, page, cells);
      WithPageNoEmpty(byCell, note, page, cells);
      var pages := if cells == map[] then byCell[note] - {page} else byCell[note][page := cells];
      byCell := if pages == map[] then byCell - {note} else byCell[note := pages];
      CellsDroppedAll(old(byCell), byCell, before, cells, interest, list);
    }

    method AddToCellLocked(note: string, page: string, cell: GridCell, connectionId: string)
      requires NoEmpty(byCell)
      modifies this`byCell
      ensures NoEmpty(byCell)
      ensures OneMore(old(byCell), byCell, note, page, cell, connectionId)
    {
      hide NoEmpty;
      WithEntryHas(byCell, note, page, cell, connectionId);
      WithEntryNoEmpty(byCell, note, page, cell, connectionId);
      var pages := if note in byCell then byCell[note] else map[];
      var cells := if page in pages then pages[page] else map[];
      var connections := if cell in cells then cells[cell] else {};
      connections := connections + {connectionId};
      cells := cells[cell := connections];
      pages := pages[page := cells];
      byCell := byCell[note := pages];
    }
  }

  // ----------------------------------------------------- the loops, one cell at a time

  ghost predicate AddedSome(before: Index, after: Index, i: Interest, cells: seq<GridCell>) {
    forall note, page, cell, c ::
      Has(after, note, page, cell, c) <==>
      || Has(before, note, page, cell, c)
      || (note == i.noteId && page == i.pageId && c == i.connectionId && cell in cells)
  }

  lemma AddedOneMore(start: Index, before: Index, after: Index, i: Interest, cells: seq<GridCell>, k: nat)
    requires k < |cells| && AddedSome(start, before, i, cells[..k])
    requires OneMore(before, after, i.noteId, i.pageId, cells[k], i.connectionId)
    ensures AddedSome(start, after, i, cells[..k + 1])
  {
    hide Has;
    assert cells[..k + 1] == cells[..k] + [cells[k]];
  }

  lemma AddedAll(before: Index, after: Index, i: Interest, cells: seq<GridCell>)
    requires AddedSome(before, after, i, cells[..|cells|])
    requires forall cell :: cell in cells <==> Covers(i, cell)
    ensures Added(before, after, i)
  {
    hide Has, Covers;
    assert cells[..|cells|] == cells;
  }

  lemma AddedAgrees(before: Index, after: Index, reports: map<string, Interest>, i: Interest)
    requires Agrees(before, reports - {i.connectionId})
    requires Added(before, after, i)
    ensures Agrees(after, reports[i.connectionId := i])
  {
    hide Has, Covers;
    var reports' := reports[i.connectionId := i];
    forall note, page, cell, c
      ensures Has(after, note, page, cell, c) <==> c in reports' && Concerns(reports'[c], note, page, cell, c)
    {
      if c != i.connectionId {
        assert c in reports' <==> c in reports - {i.connectionId};
        assert c in reports' ==> reports'[c] == (reports - {i.connectionId})[c];
      } else {
        assert !Has(before, note, page, cell, c);
      }
    }
    forall c | c in reports' ensures reports'[c].connectionId == c {
      if c != i.connectionId {
        assert (reports - {i.connectionId})[c].connectionId == c;
      }
    }
  }

  lemma DroppedAgrees(before: Index, after: Index, reports: map<string, Interest>, c: string)
    requires Agrees(before, reports) && c in reports
    requires Dropped(before, after, reports[c])
    ensures Agrees(after, reports - {c})
  {
    hide Has, Covers;
  }

  lemma NoteDropped(before: Index, after: Index, reports: map<string, Interest>, left: map<string, Interest>,
                    noteId: string)
    requires NoEmpty(before) && Agrees(before, reports)
    requires after == before - {noteId}
    requires left == map c | c in reports && reports[c].noteId != noteId :: reports[c]
    ensures NoEmpty(after) && Agrees(after, left)
  {
    hide Covers;
    forall note, page, cell, c
      ensures Has(after, note, page, cell, c) <==> note != noteId && Has(before, note, page, cell, c) {
    }
  }

  ghost predicate CellsDropped(before: CellMap, after: CellMap, c: string, gone: seq<GridCell>) {
    forall cell, d :: InCells(after, cell, d) <==> InCells(before, cell, d) && !(d == c && cell in gone)
  }

  lemma CellsStart(cells: CellMap, c: string)
    ensures CellsDropped(cells, cells, c, [])
  {
  }

  lemma CellsDropStep(start: CellMap, before: CellMap, after: CellMap, c: string, list: seq<GridCell>, k: nat)
    requires k < |list| && CellsDropped(start, before, c, list[..k]) && NoEmptyCells(before)
    requires after == if list[k] !in before then before
                      else if before[list[k]] - {c} == {} then before - {list[k]}
                      else before[list[k] := before[list[k]] - {c}]
    ensures CellsDropped(start, after, c, list[..k + 1]) && NoEmptyCells(after)
  {
    assert list[..k + 1] == list[..k] + [list[k]];
    forall cell, d
      ensures InCells(after, cell, d) <==> InCells(before, cell, d) && !(d == c && cell == list[k])
    {
      if cell == list[k] && cell in before {
        assert d in before[cell] - {c} <==> d in before[cell] && d != c;
      }
    }
  }

  lemma CellsDroppedAll(before: Index, after: Index, cells: CellMap, left: CellMap, i: Interest, list: seq<GridCell>)
    requires i.noteId in before && i.pageId in before[i.noteId] && before[i.noteId][i.pageId] == cells
    requires CellsDropped(cells, left, i.connectionId, list[..|list|])
    requires forall cell :: cell in list <==> Covers(i, cell)
    requires OnlyPage(before, after, i.noteId, i.pageId, left)
    ensures Dropped(before, after, i)
  {
    hide Covers, InCells;
    assert list[..|list|] == list;
  }
}
