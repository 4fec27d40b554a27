/** The first pass over the blocks: `block_map` indexes every block by id, and
    the KEY_VALUE_SET blocks are split into `key_map` and `value_map`. */
module BlockIndex {
  import opened Wrappers
  import opened Dicts
  import opened Blocks

  /** `block_map` after the loop: each block entered under its id, a later
      block replacing an earlier one with the same id. */
  function BlockMapOf(bs: seq<Block>): (m: BlockMap)
    ensures forall id :: id in m ==> m[id].id == id
  {
    if bs == [] then map[]
    else BlockMapOf(bs[..|bs| - 1])[bs[|bs| - 1].id := bs[|bs| - 1]]
  }

  /** `key_map` after the loop: KEY blocks by id, in first-insertion order. */
  function KeyMapOf(bs: seq<Block>): (d: Dict<Option<string>, Block>)
    ensures Valid(d)
    ensures forall id :: id in d.entries ==> IsKeyBlock(d.entries[id]) && d.entries[id].id == id
  {
    if bs == [] then Empty()
    else
      var init := KeyMapOf(bs[..|bs| - 1]);
      var b := bs[|bs| - 1];
      if IsKeyBlock(b) then Put(init, b.id, b) else init
  }

  /** `value_map` after the loop: the other KEY_VALUE_SET blocks by id. */
  function ValueMapOf(bs: seq<Block>): (m: BlockMap)
    ensures forall id :: id in m ==> IsValueBlock(m[id]) && m[id].id == id
  {
    if bs == [] then map[]
    else
      var init := ValueMapOf(bs[..|bs| - 1]);
      var b := bs[|bs| - 1];
      if IsValueBlock(b) then init[b.id := b] else init
  }

  /** The loop of lines 67-74, building the three maps in one pass. */
  method IndexBlocks(bs: seq<Block>) returns (blockMap: BlockMap, keyMap: Dict<Option<string>, Block>, valueMap: BlockMap)
    ensures blockMap == BlockMapOf(bs)
    ensures keyMap == KeyMapOf(bs) && Valid(keyMap)
    ensures valueMap == ValueMapOf(bs)
  {
    blockMap, keyMap, valueMap := map[], Empty(), map[];
    var i := 0;
    while i < |bs|
      invariant 0 <= i <= |bs|
      invariant blockMap == BlockMapOf(bs[..i])
      invariant keyMap == KeyMapOf(bs[..i])
      invariant valueMap == ValueMapOf(bs[..i])
    {
      assert bs[..i + 1][..i] == bs[..i];
      var block := bs[i];
      blockMap := blockMap[block.id := block];
      if block.blockType == KeyValueSet {
        if "KEY" in block.entityTypes {
          keyMap := Put(keyMap, block.id, block);
        } else {
          valueMap := valueMap[block.id := block];
        }
      }
      i := i + 1;
    }
    assert bs[..|bs|] == bs;
  }

  /** Every block's id is entered in `block_map`, and nothing else is. */
  lemma {:induction false} BlockMapDomain(bs: seq<Block>)
    ensures BlockMapOf(bs).Keys == set i | 0 <= i < |bs| :: bs[i].id
  {
    if bs != [] {
      var init := bs[..|bs| - 1];
      BlockMapDomain(init);
      var s := set i | 0 <= i < |bs| :: bs[i].id;
      var s' := set i | 0 <= i < |init| :: init[i].id;
      assert s == s' + {bs[|bs| - 1].id} by {
        forall id | id in s ensures id in s' + {bs[|bs| - 1].id} {
          var i :| 0 <= i < |bs| && bs[i].id == id;
          if i < |init| { assert init[i].id == id; }
        }
        forall id | id in s' ensures id in s {
          var i :| 0 <= i < |init| && init[i].id == id;
          assert bs[i].id == id;
        }
      }
    }
  }

  /** A block that no later block shares an id with is what `block_map` holds for its id. */
  lemma {:induction false} BlockMapLastWins(bs: seq<Block>, i: nat)
    requires i < |bs|
    requires forall j :: i < j < |bs| ==> bs[j].id != bs[i].id
    ensures bs[i].id in BlockMapOf(bs) && BlockMapOf(bs)[bs[i].id] == bs[i]
  {
    if i < |bs| - 1 {
      var init := bs[..|bs| - 1];
      BlockMapLastWins(init, i);
    }
  }

  /** With unique ids, each KEY_VALUE_SET block lands in exactly one of
      `key_map` (when "KEY" is among its entity types) and `value_map`, and
      any other block in neither. */
  lemma {:induction false} Partition(bs: seq<Block>, i: nat)
    requires UniqueIds(bs) && i < |bs|
    ensures bs[i].id in BlockMapOf(bs) && BlockMapOf(bs)[bs[i].id] == bs[i]
    ensures bs[i].id in KeyMapOf(bs).entries <==> IsKeyBlock(bs[i])
    ensures bs[i].id in ValueMapOf(bs) <==> IsValueBlock(bs[i])
    ensures IsKeyBlock(bs[i]) ==> KeyMapOf(bs).entries[bs[i].id] == bs[i]
    ensures IsValueBlock(bs[i]) ==> ValueMapOf(bs)[bs[i].id] == bs[i]
  {
    BlockMapLastWins(bs, i);
    var init := bs[..|bs| - 1];
    if i < |bs| - 1 {
      Partition(init, i);
      assert bs[|bs| - 1].id != bs[i].id;
    } else {
      PartitionIdsFromBlocks(init);
      assert bs[i].id !in KeyMapOf(init).entries && bs[i].id !in ValueMapOf(init) by {
        forall j | 0 <= j < |init| ensures init[j].id != bs[i].id {
          assert init[j] == bs[j];
        }
      }
    }
  }

  /** The KEY blocks, in block order. */
  function KeyBlocksOf(bs: seq<Block>): (ks: seq<Block>)
    ensures forall k :: 0 <= k < |ks| ==> IsKeyBlock(ks[k]) && ks[k] in bs
    ensures forall i :: 0 <= i < |bs| && IsKeyBlock(bs[i]) ==> bs[i] in ks
  {
    if bs == [] then []
    else
      var init := KeyBlocksOf(bs[..|bs| - 1]);
      if IsKeyBlock(bs[|bs| - 1]) then init + [bs[|bs| - 1]] else init
  }

  /** Without KEY blocks, `key_map` stays empty. */
  lemma {:induction false} NoKeyBlocks(bs: seq<Block>)
    requires forall i :: 0 <= i < |bs| ==> !IsKeyBlock(bs[i])
    ensures KeyMapOf(bs) == Empty()
  {
    if bs != [] {
      NoKeyBlocks(bs[..|bs| - 1]);
    }
  }

  lemma {:induction false} NoKeyBlocksFilter(bs: seq<Block>)
    requires forall i :: 0 <= i < |bs| ==> !IsKeyBlock(bs[i])
    ensures KeyBlocksOf(bs) == []
  {
    if bs != [] {
      NoKeyBlocksFilter(bs[..|bs| - 1]);
    }
  }

  lemma {:induction false} KeyBlocksConcat(a: seq<Block>, b: seq<Block>)
    ensures KeyBlocksOf(a + b) == KeyBlocksOf(a) + KeyBlocksOf(b)
    decreases |b|
  {
    if b == [] {
      assert a + b == a;
    } else {
      assert (a + b)[..|a + b| - 1] == a + b[..|b| - 1];
      KeyBlocksConcat(a, b[..|b| - 1]);
    }
  }

  /** `key_map` and `value_map` hold only ids of blocks of the list. */
  lemma {:induction false} PartitionIdsFromBlocks(bs: seq<Block>)
    ensures forall id :: id in KeyMapOf(bs).entries ==> exists i :: 0 <= i < |bs| && bs[i].id == id
    ensures forall id :: id in ValueMapOf(bs) ==> exists i :: 0 <= i < |bs| && bs[i].id == id
  {
    if bs != [] {
      var init := bs[..|bs| - 1];
      PartitionIdsFromBlocks(init);
      forall id | id in KeyMapOf(bs).entries || id in ValueMapOf(bs)
        ensures exists i :: 0 <= i < |bs| && bs[i].id == id
      {
        if id != bs[|bs| - 1].id {
          assert id in KeyMapOf(init).entries || id in ValueMapOf(init);
          var i :| 0 <= i < |init| && init[i].id == id;
          assert bs[i].id == id;
        } else {
          assert bs[|bs| - 1].id == id;
        }
      }
    }
  }

  /** With unique ids, iterating `key_map.items()` visits the KEY blocks in block order. */
  lemma {:induction false} KeyMapInBlockOrder(bs: seq<Block>)
    requires UniqueIds(bs)
    ensures Values(KeyMapOf(bs)) == KeyBlocksOf(bs)
  {
    if bs != [] {
      var init := bs[..|bs| - 1];
      var b := bs[|bs| - 1];
      KeyMapInBlockOrder(init);
      if IsKeyBlock(b) {
        PartitionIdsFromBlocks(init);
        var d := KeyMapOf(init);
        assert b.id !in d.entries;
        var vs, vs' := Values(d), Values(KeyMapOf(bs));
        assert |vs'| == |vs| + 1;
        forall k | 0 <= k < |vs'| ensures vs'[k] == (vs + [b])[k] {
          if k < |vs| {
            assert KeyMapOf(bs).keys[k] == d.keys[k] != b.id;
          }
        }
      }
    }
  }
}
