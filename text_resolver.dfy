/** `get_text_for_ids`: the text of a list of block ids, read through `block_map`. */
module TextResolver {
  import opened Wrappers
  import opened Strings
  import opened Blocks

  /** What one id contributes: the `Text` of its block, if the id is in
      `block_map` and that block has a `Text` field (even an empty one). */
  function Lookup(m: BlockMap, id: string): Option<string> {
    if Some(id) in m then m[Some(id)].text else None
  }

  /** The texts the loop collects, in id order; unresolved ids leave no trace. */
  function KeptTexts(m: BlockMap, ids: seq<string>): seq<string> {
    if ids == [] then []
    else
      var init := KeptTexts(m, ids[..|ids| - 1]);
      match Lookup(m, ids[|ids| - 1])
      case Some(t) => init + [t]
      case None => init
  }

  /** The value `get_text_for_ids(ids)` returns. */
  function ResolveText(m: BlockMap, ids: seq<string>): string {
    Join(KeptTexts(m, ids), " ")
  }

  /** The loop of `get_text_for_ids`, then `' '.join(text)`. */
  method GetTextForIds(m: BlockMap, ids: seq<string>) returns (s: string)
    ensures s == ResolveText(m, ids)
  {
    var text: seq<string> := [];
    var i := 0;
    while i < |ids|
      invariant 0 <= i <= |ids|
      invariant text == KeptTexts(m, ids[..i])
    {
      assert ids[..i + 1][..i] == ids[..i];
      var id := ids[i];
      if Some(id) in m && m[Some(id)].text.Some? {
        text := text + [m[Some(id)].text.value];
      }
      i := i + 1;
    }
    assert ids[..|ids|] == ids;
    s := Join(text, " ");
  }

  /** The kept texts of a concatenation are the kept texts of each part, in order. */
  lemma {:induction false} KeptTextsConcat(m: BlockMap, a: seq<string>, b: seq<string>)
    ensures KeptTexts(m, a + b) == KeptTexts(m, a) + KeptTexts(m, b)
    decreases |b|
  {
    if b == [] {
      assert a + b == a;
    } else {
      var b' := b[..|b| - 1];
      assert (a + b)[..|a + b| - 1] == a + b';
      KeptTextsConcat(m, a, b');
    }
  }

  /** One id resolves to its block's text, or to "" when it is missing or textless. */
  lemma ResolveOne(m: BlockMap, id: string)
    ensures KeptTexts(m, [id]) == if Lookup(m, id).Some? then [Lookup(m, id).value] else []
    ensures ResolveText(m, [id]) == Lookup(m, id).GetOr("")
  {
    assert [id][..0] == [];
  }

  /** Resolving `a + b` joins the two resolutions with one space when both kept
      something, and adds no separator when either side kept nothing. */
  lemma ResolveConcat(m: BlockMap, a: seq<string>, b: seq<string>)
    ensures KeptTexts(m, a) == [] ==> ResolveText(m, a + b) == ResolveText(m, b)
    ensures KeptTexts(m, b) == [] ==> ResolveText(m, a + b) == ResolveText(m, a)
    ensures KeptTexts(m, a) != [] && KeptTexts(m, b) != [] ==>
              ResolveText(m, a + b) == ResolveText(m, a) + " " + ResolveText(m, b)
  {
    KeptTextsConcat(m, a, b);
    if KeptTexts(m, a) != [] && KeptTexts(m, b) != [] {
      JoinConcat(KeptTexts(m, a), KeptTexts(m, b), " ");
    } else if KeptTexts(m, a) == [] {
      assert KeptTexts(m, a) + KeptTexts(m, b) == KeptTexts(m, b);
    } else {
      assert KeptTexts(m, a) + KeptTexts(m, b) == KeptTexts(m, a);
    }
  }

  /** Two ids that both carry text resolve to the two texts with one space between. */
  lemma ResolvePair(m: BlockMap, x: string, y: string)
    requires Lookup(m, x).Some? && Lookup(m, y).Some?
    ensures ResolveText(m, [x, y]) == Lookup(m, x).value + " " + Lookup(m, y).value
  {
    ResolveOne(m, x);
    ResolveOne(m, y);
    assert [x] + [y] == [x, y];
    ResolveConcat(m, [x], [y]);
  }

  /** No id resolves to text (in particular, no ids at all): the result is "". */
  lemma {:induction false} ResolveNothing(m: BlockMap, ids: seq<string>)
    requires forall i :: 0 <= i < |ids| ==> Lookup(m, ids[i]).None?
    ensures KeptTexts(m, ids) == []
    ensures ResolveText(m, ids) == ""
  {
    if ids != [] {
      ResolveNothing(m, ids[..|ids| - 1]);
    }
  }

  /** Every id whose block carries text contributes it, so the result is
      empty only when no id resolves to any text. */
  lemma {:induction false} KeptTextsCount(m: BlockMap, ids: seq<string>)
    ensures |KeptTexts(m, ids)| <= |ids|
    ensures (exists i :: 0 <= i < |ids| && Lookup(m, ids[i]).Some?) <==> KeptTexts(m, ids) != []
  {
    if ids != [] {
      var init := ids[..|ids| - 1];
      KeptTextsCount(m, init);
      if Lookup(m, ids[|ids| - 1]).None? {
        if exists i :: 0 <= i < |ids| && Lookup(m, ids[i]).Some? {
          var i :| 0 <= i < |ids| && Lookup(m, ids[i]).Some?;
          assert init[i] == ids[i];
        }
      }
    }
  }
}
