/** The body of the `/extract` handler after Textract has answered: the
    blocks are reconstructed into `text_lines`, `form_fields` and
    `table_cells`, or, when any step raises, the handler answers with its one
    opaque error. */
module Extraction {
  import opened Wrappers
  import opened Dicts
  import opened Blocks
  import opened TextResolver
  import opened BlockIndex
  import opened LineExtractor
  import opened KeyValues
  import opened Tables

  /** The JSON object the handler returns on success. */
  datatype Extracted = Extracted(textLines: seq<string>, formFields: Dict<string, string>, tableCells: seq<CellRecord>)

  /** What the handler answers for a Textract response; `response` is the
      value of its `Blocks` field, `None` when the field is missing
      (`response['Blocks']` raises). */
  function ExtractionOf(response: Option<seq<Block>>): Result<Extracted> {
    match response
    case None => Failure
    case Some(bs) =>
      var m := BlockMapOf(bs);
      match (ExtractLines(bs), FormFieldsOf(m, Values(KeyMapOf(bs))), TableCellsOf(m, bs))
      case (Ok(lines), Ok(fields), Ok(cells)) => Ok(Extracted(lines, fields, cells))
      case _ => Failure
  }

  /** Lines 55-114, in the order the handler runs them. */
  method ExtractText(response: Option<seq<Block>>) returns (r: Result<Extracted>)
    ensures r == ExtractionOf(response)
  {
    if response.None? {
      return Failure;
    }
    var blocks := response.value;
    var lines := ExtractLines(blocks);
    if lines.Failure? {
      return Failure;
    }
    var blockMap, keyMap, valueMap := IndexBlocks(blocks);
    var keyValues := ReconstructKeyValues(blockMap, keyMap);
    if keyValues.Failure? {
      return Failure;
    }
    var currentTable := ReconstructTable(blockMap, blocks);
    if currentTable.Failure? {
      return Failure;
    }
    r := Ok(Extracted(lines.value, keyValues.value, currentTable.value));
  }

  /** With unique ids, the handler succeeds exactly when every LINE block has
      `Text`, every KEY block's entry resolves and every CELL block's record
      does; any other block never makes it fail. */
  lemma ExtractionOkIff(bs: seq<Block>)
    requires UniqueIds(bs)
    ensures var m := BlockMapOf(bs);
      ExtractionOf(Some(bs)).Ok? <==>
        && LinesHaveText(bs)
        && (forall i :: 0 <= i < |bs| && IsKeyBlock(bs[i]) ==> KeyEntry(m, bs[i]).Ok?)
        && (forall i :: 0 <= i < |bs| && bs[i].blockType == Cell ==> CellOf(m, bs[i]).Ok?)
  {
    var m := BlockMapOf(bs);
    KeyMapInBlockOrder(bs);
    FormFieldsOkIff(m, KeyBlocksOf(bs));
    KeyEntriesOk(m, bs);
    TableCellsOkIff(m, bs);
  }

  /** Every KEY block's entry resolves exactly when every entry of the KEY
      blocks taken in block order does. */
  lemma KeyEntriesOk(m: BlockMap, bs: seq<Block>)
    ensures (forall i :: 0 <= i < |bs| && IsKeyBlock(bs[i]) ==> KeyEntry(m, bs[i]).Ok?) <==>
      (forall j :: 0 <= j < |KeyBlocksOf(bs)| ==> KeyEntry(m, KeyBlocksOf(bs)[j]).Ok?)
  {
    var kbs := KeyBlocksOf(bs);
    if forall i :: 0 <= i < |bs| && IsKeyBlock(bs[i]) ==> KeyEntry(m, bs[i]).Ok? {
      forall j | 0 <= j < |kbs| ensures KeyEntry(m, kbs[j]).Ok? {
        var i :| 0 <= i < |bs| && bs[i] == kbs[j];
      }
    } else {
      var i :| 0 <= i < |bs| && IsKeyBlock(bs[i]) && KeyEntry(m, bs[i]).Failure?;
      assert bs[i] in kbs;
      var j :| 0 <= j < |kbs| && kbs[j] == bs[i];
      assert KeyEntry(m, kbs[j]).Failure?;
    }
  }

  /** A KEY block without relationships makes the whole request fail. */
  lemma KeyWithoutRelationshipsFailsRequest(bs: seq<Block>, i: nat)
    requires UniqueIds(bs) && i < |bs| && IsKeyBlock(bs[i]) && bs[i].relationships == []
    ensures ExtractionOf(Some(bs)) == Failure
  {
    KeyMapInBlockOrder(bs);
    var kbs := KeyBlocksOf(bs);
    var j :| 0 <= j < |kbs| && kbs[j] == bs[i];
    KeyWithoutRelationshipsFails(BlockMapOf(bs), kbs, j);
  }

  /** A LINE block without `Text` makes the whole request fail. */
  lemma LineWithoutTextFailsRequest(bs: seq<Block>, i: nat)
    requires i < |bs| && bs[i].blockType == Line && bs[i].text.None?
    ensures ExtractionOf(Some(bs)) == Failure
  {
  }

  /** On success the three parts are: the LINE texts in block order, the pairs
      of the KEY blocks taken in block order, and one record per CELL block
      in block order. */
  lemma ExtractedParts(bs: seq<Block>)
    requires UniqueIds(bs) && ExtractionOf(Some(bs)).Ok?
    ensures var e := ExtractionOf(Some(bs)).value;
      var m := BlockMapOf(bs);
      var lineIdx, cellIdx := IndicesOfType(bs, Line), IndicesOfType(bs, Cell);
      && |e.textLines| == |lineIdx|
      && (forall k :: 0 <= k < |lineIdx| ==> e.textLines[k] == bs[lineIdx[k]].text.value)
      && FormFieldsOf(m, KeyBlocksOf(bs)) == Ok(e.formFields)
      && "" !in e.formFields.entries
      && |e.tableCells| == |cellIdx|
      && (forall k :: 0 <= k < |cellIdx| ==> CellOf(m, bs[cellIdx[k]]) == Ok(e.tableCells[k]))
  {
    LinesAreLineTexts(bs);
    KeyMapInBlockOrder(bs);
    OneRecordPerCell(BlockMapOf(bs), bs);
  }

  /** Without KEY blocks `form_fields` is empty, and without CELL blocks
      `table_cells` is; ids need not be unique. */
  lemma NoFormsNoTables(bs: seq<Block>)
    requires ExtractionOf(Some(bs)).Ok?
    ensures (forall i :: 0 <= i < |bs| ==> !IsKeyBlock(bs[i])) ==> ExtractionOf(Some(bs)).value.formFields == Empty()
    ensures (forall i :: 0 <= i < |bs| ==> bs[i].blockType != Cell) ==> ExtractionOf(Some(bs)).value.tableCells == []
  {
    if forall i :: 0 <= i < |bs| ==> !IsKeyBlock(bs[i]) {
      NoKeyBlocks(bs);
    }
    if forall i :: 0 <= i < |bs| ==> bs[i].blockType != Cell {
      NoCellBlocks(BlockMapOf(bs), bs);
    }
  }

  /** An empty block list is a success with three empty parts; only a missing
      block list is the error. */
  lemma EmptyAndMissingBlockLists()
    ensures ExtractionOf(Some([])) == Ok(Extracted([], Empty(), []))
    ensures ExtractionOf(None) == Failure
  {
  }

  function WordBlock(id: string, text: string): Block {
    Block(Some(id), Other("WORD"), Some(text), [], [], None, None)
  }

  /** An invoice page: one line, one form field whose key words come first in
      the key block's relationships, and one table cell. */
  function InvoiceBlocks(): seq<Block> {
    [ Block(Some("L1"), Line, Some("Invoice #1021"), [], [], None, None),
      Block(Some("K1"), KeyValueSet, None, ["KEY"],
            [Relationship(Child, Some(["W1"])), Relationship(Value, Some(["V1"]))], None, None),
      WordBlock("W1", "Total:"),
      Block(Some("Vb1"), KeyValueSet, None, ["VALUE"], [], None, None),
      WordBlock("V1", "$450.00"),
      Block(Some("C1"), Cell, None, [], [Relationship(Child, Some(["W2"]))], Some(1), Some(1)),
      WordBlock("W2", "Qty") ]
  }

  lemma InvoiceExample()
    ensures ExtractionOf(Some(InvoiceBlocks())) ==
      Ok(Extracted(["Invoice #1021"], Dict(["Total:"], map["Total:" := "$450.00"]), [CellRecord(1, 1, "Qty")]))
  {
    InvoiceLines();
    InvoiceFields();
    InvoiceCells();
  }

  lemma InvoiceWords(m: BlockMap)
    requires m == BlockMapOf(InvoiceBlocks())
    ensures Lookup(m, "W1") == Some("Total:")
    ensures Lookup(m, "V1") == Some("$450.00")
    ensures Lookup(m, "W2") == Some("Qty")
  {
    var bs := InvoiceBlocks();
    BlockMapLastWins(bs, 2);
    BlockMapLastWins(bs, 4);
    BlockMapLastWins(bs, 6);
  }

  lemma InvoiceLines()
    ensures ExtractLines(InvoiceBlocks()) == Ok(["Invoice #1021"])
  {
    var bs := InvoiceBlocks();
    var one, rest := [bs[0]], bs[1..];
    assert rest == [bs[1], bs[2], bs[3], bs[4], bs[5], bs[6]];
    NoLineBlocks(rest);
    assert one[..0] == [];
    assert ExtractLines([]) == Ok([]);
    assert ExtractLines(one) == Ok([] + ["Invoice #1021"]);
    assert one + rest == bs;
    ExtractLinesConcat(one, rest);
    assert LinesHaveText(bs);
    assert ExtractLines(bs).value == ["Invoice #1021"] + [];
    assert ["Invoice #1021"] + [] == ["Invoice #1021"];
  }

  lemma InvoiceUniqueIds()
    ensures UniqueIds(InvoiceBlocks())
  {
  }

  lemma InvoiceKeyBlocks()
    ensures KeyBlocksOf(InvoiceBlocks()) == [InvoiceBlocks()[1]]
  {
    var bs := InvoiceBlocks();
    var head, rest := bs[..2], bs[2..];
    assert rest == [bs[2], bs[3], bs[4], bs[5], bs[6]];
    NoKeyBlocksFilter(rest);
    assert head + rest == bs;
    KeyBlocksConcat(head, rest);
    assert head[..1] == [bs[0]];
    assert [bs[0]][..0] == [];
    assert KeyBlocksOf([]) == [];
    assert KeyBlocksOf([bs[0]]) == [];
    assert KeyBlocksOf(head) == [bs[1]];
    assert [bs[1]] + [] == [bs[1]];
  }

  lemma InvoiceKeyEntry(m: BlockMap)
    requires m == BlockMapOf(InvoiceBlocks())
    ensures KeyEntry(m, InvoiceBlocks()[1]) == Ok(("Total:", "$450.00"))
  {
    var bs := InvoiceBlocks();
    InvoiceWords(m);
    ResolveOne(m, "W1");
    ResolveOne(m, "V1");
    var rels := bs[1].relationships;
    assert rels == [rels[0]] + [rels[1]];
    ValueIdsOne(rels[0]);
    ValueIdsOne(rels[1]);
    ValueIdsConcat([rels[0]], [rels[1]]);
    assert ValueIdsOf(rels) == Ok(["V1"]);
    assert KeyTextIds(rels) == ["W1"];
  }

  lemma InvoiceFields()
    ensures FormFieldsOf(BlockMapOf(InvoiceBlocks()), Values(KeyMapOf(InvoiceBlocks()))) ==
      Ok(Dict(["Total:"], map["Total:" := "$450.00"]))
  {
    var bs := InvoiceBlocks();
    var m := BlockMapOf(bs);
    InvoiceUniqueIds();
    KeyMapInBlockOrder(bs);
    InvoiceKeyBlocks();
    InvoiceKeyEntry(m);
    OneKeyBlock(m, bs[1], "Total:", "$450.00");
  }

  /** A single KEY block with a non-empty key text gives a one-entry dict. */
  lemma OneKeyBlock(m: BlockMap, kb: Block, k: string, v: string)
    requires KeyEntry(m, kb) == Ok((k, v)) && k != ""
    ensures FormFieldsOf(m, [kb]) == Ok(Dict([k], map[k := v]))
  {
    var kbs := [kb];
    assert kbs[..0] == [];
    FormFieldsStep(m, kbs, 0, Empty(), k, v);
    assert kbs[..1] == kbs;
    var none: Dict<string, string> := Empty();
    assert none.keys + [k] == [k];
    assert Put(none, k, v) == Dict([k], map[k := v]);
  }

  lemma InvoiceCellRecord(m: BlockMap)
    requires m == BlockMapOf(InvoiceBlocks())
    ensures CellOf(m, InvoiceBlocks()[5]) == Ok(CellRecord(1, 1, "Qty"))
  {
    var bs := InvoiceBlocks();
    InvoiceWords(m);
    ResolveOne(m, "W2");
    var crels := bs[5].relationships;
    assert crels[..0] == [];
    assert ResolveText(m, ["W2"]) == "Qty";
    assert CellTextOf(m, crels) == Ok("Qty");
  }

  lemma InvoiceCells()
    ensures TableCellsOf(BlockMapOf(InvoiceBlocks()), InvoiceBlocks()) == Ok([CellRecord(1, 1, "Qty")])
  {
    var bs := InvoiceBlocks();
    var m := BlockMapOf(bs);
    InvoiceCellRecord(m);
    var front := bs[..5];
    assert front == [bs[0], bs[1], bs[2], bs[3], bs[4]];
    NoCellBlocks(m, front);
    assert bs[..6][..5] == front;
    assert bs[..6][5] == bs[5];
    assert [] + [CellRecord(1, 1, "Qty")] == [CellRecord(1, 1, "Qty")];
    assert TableCellsOf(m, bs[..6]) == Ok([CellRecord(1, 1, "Qty")]);
    assert bs[..7][..6] == bs[..6];
    assert bs[..7] == bs;
  }
}
