/** The loop over CELL blocks that builds `current_table` (the response's
    `table_cells`): one `{row, col, text}` record per CELL block, in block order. */
module Tables {
  import opened Wrappers
  import opened Blocks
  import opened TextResolver

  /** `{'row': row, 'col': col, 'text': text}` */
  datatype CellRecord = CellRecord(row: int, col: int, text: string)

  /** `text` after the loop over one cell's relationships: "" to begin with,
      replaced by the resolved text of each CHILD relationship in turn;
      `Failure` when a CHILD relationship has no `Ids` (`rel['Ids']` raises). */
  function CellTextOf(m: BlockMap, rels: seq<Relationship>): Result<string> {
    if rels == [] then Ok("")
    else
      var rel := rels[|rels| - 1];
      match CellTextOf(m, rels[..|rels| - 1])
      case Failure => Failure
      case Ok(text) =>
        if rel.relType != Child then Ok(text)
        else if rel.ids.None? then Failure
        else Ok(ResolveText(m, rel.ids.value))
  }

  lemma {:induction false} CellTextFailurePersists(m: BlockMap, rels: seq<Relationship>, i: nat)
    requires i <= |rels| && CellTextOf(m, rels[..i]) == Failure
    ensures CellTextOf(m, rels) == Failure
    decreases |rels| - i
  {
    if i == |rels| {
      assert rels[..i] == rels;
    } else {
      assert rels[..i + 1][..i] == rels[..i];
      CellTextFailurePersists(m, rels, i + 1);
    }
  }

  /** Lines 100-103: the relationship loop of one cell. */
  method ResolveCellText(m: BlockMap, rels: seq<Relationship>) returns (r: Result<string>)
    ensures r == CellTextOf(m, rels)
  {
    var text := "";
    var i := 0;
    while i < |rels|
      invariant 0 <= i <= |rels|
      invariant CellTextOf(m, rels[..i]) == Ok(text)
    {
      assert rels[..i + 1][..i] == rels[..i];
      var rel := rels[i];
      if rel.relType == Child {
        if rel.ids.None? {
          CellTextFailurePersists(m, rels, i + 1);
          return Failure;
        }
        text := GetTextForIds(m, rel.ids.value);
      }
      i := i + 1;
    }
    assert rels[..|rels|] == rels;
    r := Ok(text);
  }

  /** Every CHILD relationship carries `Ids`, so the loop cannot raise. */
  predicate ChildrenHaveIds(rels: seq<Relationship>) {
    forall i :: 0 <= i < |rels| && rels[i].relType == Child ==> rels[i].ids.Some?
  }

  /** A cell's text resolves exactly when every CHILD relationship has `Ids`. */
  lemma {:induction false} CellTextOkIff(m: BlockMap, rels: seq<Relationship>)
    ensures CellTextOf(m, rels).Ok? <==> ChildrenHaveIds(rels)
  {
    if rels != [] {
      var init := rels[..|rels| - 1];
      CellTextOkIff(m, init);
      assert forall i :: 0 <= i < |init| ==> init[i] == rels[i];
    }
  }

  /** A cell without CHILD relationships has the empty text; it is not an error. */
  lemma {:induction false} NoChildMeansEmptyText(m: BlockMap, rels: seq<Relationship>)
    requires forall i :: 0 <= i < |rels| ==> rels[i].relType != Child
    ensures CellTextOf(m, rels) == Ok("")
  {
    if rels != [] {
      NoChildMeansEmptyText(m, rels[..|rels| - 1]);
    }
  }

  /** With several CHILD relationships, the last one decides the text. */
  lemma {:induction false} LastChildWins(m: BlockMap, rels: seq<Relationship>, j: nat)
    requires j < |rels| && ChildrenHaveIds(rels) && rels[j].relType == Child
    requires forall l :: j < l < |rels| ==> rels[l].relType != Child
    ensures CellTextOf(m, rels) == Ok(ResolveText(m, rels[j].ids.value))
  {
    var init := rels[..|rels| - 1];
    if j < |rels| - 1 {
      assert init[j] == rels[j];
      assert forall l :: 0 <= l < |init| ==> init[l] == rels[l];
      LastChildWins(m, init, j);
    } else {
      CellTextOkIff(m, init);
    }
  }

  /** The record of one CELL block; `Failure` when `RowIndex` or `ColumnIndex`
      is missing (`block['RowIndex']` raises) or its text cannot be resolved. */
  function CellOf(m: BlockMap, b: Block): Result<CellRecord> {
    if b.rowIndex.None? || b.columnIndex.None? then Failure
    else
      match CellTextOf(m, b.relationships)
      case Failure => Failure
      case Ok(text) => Ok(CellRecord(b.rowIndex.value, b.columnIndex.value, text))
  }

  /** `current_table` after the loop over the blocks. */
  function TableCellsOf(m: BlockMap, bs: seq<Block>): Result<seq<CellRecord>> {
    if bs == [] then Ok([])
    else
      var b := bs[|bs| - 1];
      match TableCellsOf(m, bs[..|bs| - 1])
      case Failure => Failure
      case Ok(cells) =>
        if b.blockType != Cell then Ok(cells)
        else
          match CellOf(m, b)
          case Failure => Failure
          case Ok(cell) => Ok(cells + [cell])
  }

  lemma {:induction false} TableCellsFailurePersists(m: BlockMap, bs: seq<Block>, i: nat)
    requires i <= |bs| && TableCellsOf(m, bs[..i]) == Failure
    ensures TableCellsOf(m, bs) == Failure
    decreases |bs| - i
  {
    if i == |bs| {
      assert bs[..i] == bs;
    } else {
      assert bs[..i + 1][..i] == bs[..i];
      TableCellsFailurePersists(m, bs, i + 1);
    }
  }

  /** Lines 94-108: the loop over the blocks. */
  method ReconstructTable(m: BlockMap, bs: seq<Block>) returns (r: Result<seq<CellRecord>>)
    ensures r == TableCellsOf(m, bs)
  {
    var currentTable: seq<CellRecord> := [];
    var i := 0;
    while i < |bs|
      invariant 0 <= i <= |bs|
      invariant TableCellsOf(m, bs[..i]) == Ok(currentTable)
    {
      assert bs[..i + 1][..i] == bs[..i];
      var block := bs[i];
      if block.blockType == Cell {
        if block.rowIndex.None? || block.columnIndex.None? {
          TableCellsFailurePersists(m, bs, i + 1);
          return Failure;
        }
        var row, col := block.rowIndex.value, block.columnIndex.value;
        var text := ResolveCellText(m, block.relationships);
        if text.Failure? {
          TableCellsFailurePersists(m, bs, i + 1);
          return Failure;
        }
        currentTable := currentTable + [CellRecord(row, col, text.value)];
      }
      i := i + 1;
    }
    assert bs[..|bs|] == bs;
    r := Ok(currentTable);
  }

  /** The table is built exactly when every CELL block's record is. */
  lemma {:induction false} TableCellsOkIff(m: BlockMap, bs: seq<Block>)
    ensures TableCellsOf(m, bs).Ok? <==> forall i :: 0 <= i < |bs| && bs[i].blockType == Cell ==> CellOf(m, bs[i]).Ok?
  {
    if bs != [] {
      var init := bs[..|bs| - 1];
      TableCellsOkIff(m, init);
      assert forall i :: 0 <= i < |init| ==> init[i] == bs[i];
    }
  }

  /** One record per CELL block, in block order: the k-th record is the k-th
      CELL block's. */
  lemma {:induction false} OneRecordPerCell(m: BlockMap, bs: seq<Block>)
    requires TableCellsOf(m, bs).Ok?
    ensures var idx := IndicesOfType(bs, Cell);
      var cells := TableCellsOf(m, bs).value;
      && |cells| == |idx|
      && forall k :: 0 <= k < |idx| ==> CellOf(m, bs[idx[k]]) == Ok(cells[k])
  {
    if bs != [] {
      var init := bs[..|bs| - 1];
      OneRecordPerCell(m, init);
      var idx := IndicesOfType(init, Cell);
      assert forall k :: 0 <= k < |idx| ==> bs[idx[k]] == init[idx[k]];
    }
  }

  /** A list without CELL blocks yields no table cells. */
  lemma {:induction false} NoCellBlocks(m: BlockMap, bs: seq<Block>)
    requires forall i :: 0 <= i < |bs| ==> bs[i].blockType != Cell
    ensures TableCellsOf(m, bs) == Ok([])
  {
    if bs != [] {
      NoCellBlocks(m, bs[..|bs| - 1]);
    }
  }
}
