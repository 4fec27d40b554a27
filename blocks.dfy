/** The blocks returned by Textract's `AnalyzeDocument`, as the handler reads
    them: every field it reads with `block['X']` or `block.get('X')`. */
module Blocks {
  import opened Wrappers

  /** `BlockType`. The handler compares it with three tags; every other tag
      (WORD, TABLE, PAGE, SELECTION_ELEMENT, ...) is carried by `Other`, which
      never carries "LINE", "KEY_VALUE_SET" or "CELL": those are read as the
      three named tags. */
  datatype BlockType = Line | KeyValueSet | Cell | Other(tag: string)

  /** A relationship's `Type`. Tags other than VALUE and CHILD are carried by
      `OtherRelation`, which never carries "VALUE" or "CHILD". */
  datatype RelationType = Value | Child | OtherRelation(tag: string)

  /** One entry of `Relationships`; `ids` is absent when the entry has no `Ids` field. */
  datatype Relationship = Relationship(relType: RelationType, ids: Option<seq<string>>)

  /** One block. `entityTypes` and `relationships` are the lists the handler
      reads with a default of `[]`, so an absent field is an empty list. */
  datatype Block = Block(
    id: Option<string>,
    blockType: BlockType,
    text: Option<string>,
    entityTypes: seq<string>,
    relationships: seq<Relationship>,
    rowIndex: Option<int>,
    columnIndex: Option<int>)

  /** `block_map`: block id (as read by `block.get('Id')`) to block. */
  type BlockMap = map<Option<string>, Block>

  /** A KEY_VALUE_SET block whose `EntityTypes` lists "KEY". */
  predicate IsKeyBlock(b: Block) {
    b.blockType == KeyValueSet && "KEY" in b.entityTypes
  }

  /** Any other KEY_VALUE_SET block. */
  predicate IsValueBlock(b: Block) {
    b.blockType == KeyValueSet && "KEY" !in b.entityTypes
  }

  /** No two blocks of the response share an id, as Textract promises. */
  ghost predicate UniqueIds(bs: seq<Block>) {
    forall i, j :: 0 <= i < j < |bs| ==> bs[i].id != bs[j].id
  }

  /** The positions of the blocks of type `t`, in increasing order, and all of them. */
  function IndicesOfType(bs: seq<Block>, t: BlockType): (idx: seq<nat>)
    ensures forall k :: 0 <= k < |idx| ==> idx[k] < |bs| && bs[idx[k]].blockType == t
    ensures forall k, l :: 0 <= k < l < |idx| ==> idx[k] < idx[l]
    ensures forall i :: 0 <= i < |bs| && bs[i].blockType == t ==> i in idx
  {
    if bs == [] then []
    else
      var init := IndicesOfType(bs[..|bs| - 1], t);
      if bs[|bs| - 1].blockType == t then init + [|bs| - 1] else init
  }
}
