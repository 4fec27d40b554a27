/** The `lines` comprehension: `[block['Text'] for block in blocks if block['BlockType'] == 'LINE']`. */
module LineExtractor {
  import opened Wrappers
  import opened Blocks

  /** Every LINE block carries a `Text` field, so `block['Text']` cannot raise. */
  predicate LinesHaveText(bs: seq<Block>) {
    forall i :: 0 <= i < |bs| && bs[i].blockType == Line ==> bs[i].text.Some?
  }

  /** `lines`, or `Failure` when some LINE block has no `Text` (a KeyError). */
  function ExtractLines(bs: seq<Block>): (r: Result<seq<string>>)
    ensures r.Ok? <==> LinesHaveText(bs)
  {
    if bs == [] then Ok([])
    else
      var init := bs[..|bs| - 1];
      var b := bs[|bs| - 1];
      assert forall i :: 0 <= i < |init| ==> init[i] == bs[i];
      match ExtractLines(init)
      case Failure => Failure
      case Ok(ls) =>
        if b.blockType != Line then Ok(ls)
        else if b.text.None? then Failure
        else Ok(ls + [b.text.value])
  }

  /** `lines` is exactly the `Text` of the LINE blocks, in block order:
      the k-th line is the text of the k-th LINE block. */
  lemma {:induction false} LinesAreLineTexts(bs: seq<Block>)
    requires LinesHaveText(bs)
    ensures var idx := IndicesOfType(bs, Line);
      && |ExtractLines(bs).value| == |idx|
      && forall k :: 0 <= k < |idx| ==> ExtractLines(bs).value[k] == bs[idx[k]].text.value
  {
    if bs != [] {
      var init := bs[..|bs| - 1];
      assert LinesHaveText(init) by {
        forall i | 0 <= i < |init| && init[i].blockType == Line ensures init[i].text.Some? {
          assert init[i] == bs[i];
        }
      }
      LinesAreLineTexts(init);
      var idx := IndicesOfType(init, Line);
      forall k | 0 <= k < |idx| ensures bs[idx[k]] == init[idx[k]] {
      }
    }
  }

  /** A list without LINE blocks yields no lines. */
  lemma {:induction false} NoLineBlocks(bs: seq<Block>)
    requires forall i :: 0 <= i < |bs| ==> bs[i].blockType != Line
    ensures ExtractLines(bs) == Ok([])
  {
    if bs != [] {
      NoLineBlocks(bs[..|bs| - 1]);
    }
  }

  /** Lines of consecutive block lists are the lines of each, one after the other. */
  lemma {:induction false} ExtractLinesConcat(a: seq<Block>, b: seq<Block>)
    requires LinesHaveText(a) && LinesHaveText(b)
    ensures LinesHaveText(a + b)
    ensures ExtractLines(a + b).value == ExtractLines(a).value + ExtractLines(b).value
    decreases |b|
  {
    if b == [] {
      assert a + b == a;
    } else {
      var b' := b[..|b| - 1];
      assert (a + b)[..|a + b| - 1] == a + b';
      assert LinesHaveText(b') by {
        forall i | 0 <= i < |b'| && b'[i].blockType == Line ensures b'[i].text.Some? {
          assert b'[i] == b[i];
        }
      }
      ExtractLinesConcat(a, b');
    }
  }
}
