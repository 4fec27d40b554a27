/** The loop over `key_map.items()` that builds `key_values` (the response's
    `form_fields`): each KEY block's own text becomes a key, and the text of
    the ids its VALUE relationships point to becomes the value. */
module KeyValues {
  import opened Wrappers
  import opened Dicts
  import opened Blocks
  import opened TextResolver

  /** `value_ids` after the inner loop: the `Ids` of every VALUE relationship,
      in relationship order; `Failure` when a VALUE relationship has no `Ids`
      (`rel['Ids']` raises). */
  function ValueIdsOf(rels: seq<Relationship>): Result<seq<string>> {
    if rels == [] then Ok([])
    else
      var rel := rels[|rels| - 1];
      match ValueIdsOf(rels[..|rels| - 1])
      case Failure => Failure
      case Ok(ids) =>
        if rel.relType != Value then Ok(ids)
        else if rel.ids.None? then Failure
        else Ok(ids + rel.ids.value)
  }

  /** Once a prefix of the relationships has raised, the whole loop has. */
  lemma {:induction false} ValueIdsFailurePersists(rels: seq<Relationship>, i: nat)
    requires i <= |rels| && ValueIdsOf(rels[..i]) == Failure
    ensures ValueIdsOf(rels) == Failure
    decreases |rels| - i
  {
    if i == |rels| {
      assert rels[..i] == rels;
    } else {
      assert rels[..i + 1][..i] == rels[..i];
      ValueIdsFailurePersists(rels, i + 1);
    }
  }

  /** Lines 85-88: `value_ids.extend(rel['Ids'])` for every VALUE relationship. */
  method CollectValueIds(rels: seq<Relationship>) returns (r: Result<seq<string>>)
    ensures r == ValueIdsOf(rels)
  {
    var valueIds: seq<string> := [];
    var i := 0;
    while i < |rels|
      invariant 0 <= i <= |rels|
      invariant ValueIdsOf(rels[..i]) == Ok(valueIds)
    {
      assert rels[..i + 1][..i] == rels[..i];
      var rel := rels[i];
      if rel.relType == Value {
        if rel.ids.None? {
          ValueIdsFailurePersists(rels, i + 1);
          return Failure;
        }
        valueIds := valueIds + rel.ids.value;
      }
      i := i + 1;
    }
    assert rels[..|rels|] == rels;
    r := Ok(valueIds);
  }

  /** The value ids of consecutive relationship lists are those of each, in order. */
  lemma {:induction false} ValueIdsConcat(a: seq<Relationship>, b: seq<Relationship>)
    ensures ValueIdsOf(a + b) ==
      if ValueIdsOf(a).Ok? && ValueIdsOf(b).Ok? then Ok(ValueIdsOf(a).value + ValueIdsOf(b).value)
      else Failure
    decreases |b|
  {
    if b == [] {
      assert a + b == a;
      if ValueIdsOf(a).Ok? {
        assert ValueIdsOf(a).value + [] == ValueIdsOf(a).value;
      }
    } else {
      var b' := b[..|b| - 1];
      assert (a + b)[..|a + b| - 1] == a + b';
      ValueIdsConcat(a, b');
      assert (a + b)[|a + b| - 1] == b[|b| - 1];
      if ValueIdsOf(a).Ok? && ValueIdsOf(b').Ok? && ValueIdsOf(b).Ok? {
        var x, y := ValueIdsOf(a).value, ValueIdsOf(b').value;
        var rel := b[|b| - 1];
        if rel.relType == Value {
          assert x + y + rel.ids.value == x + (y + rel.ids.value);
        }
      }
    }
  }

  /** One relationship contributes its `Ids` when it is a VALUE one, and nothing otherwise. */
  lemma ValueIdsOne(rel: Relationship)
    ensures ValueIdsOf([rel]) ==
      if rel.relType != Value then Ok([])
      else if rel.ids.None? then Failure
      else Ok(rel.ids.value)
  {
    var rels := [rel];
    assert rels[..|rels| - 1] == [];
    assert ValueIdsOf([]) == Ok([]);
    if rel.relType == Value && rel.ids.Some? {
      assert [] + rel.ids.value == rel.ids.value;
    }
  }

  /** A relationship of another type changes nothing, wherever it stands. */
  lemma IgnoresOtherRelations(rels: seq<Relationship>, rel: Relationship)
    requires rel.relType != Value
    ensures ValueIdsOf([rel] + rels) == ValueIdsOf(rels)
    ensures ValueIdsOf(rels + [rel]) == ValueIdsOf(rels)
  {
    ValueIdsOne(rel);
    ValueIdsConcat([rel], rels);
    ValueIdsConcat(rels, [rel]);
    if ValueIdsOf(rels).Ok? {
      assert [] + ValueIdsOf(rels).value == ValueIdsOf(rels).value;
      assert ValueIdsOf(rels).value + [] == ValueIdsOf(rels).value;
    }
  }

  /** The ids whose text names the key: those of the first relationship,
      read with `.get('Ids', [])`. */
  function KeyTextIds(rels: seq<Relationship>): seq<string>
    requires rels != []
  {
    rels[0].ids.GetOr([])
  }

  /** One iteration of the loop over `key_map`: the key text and value text
      of one KEY block, or `Failure` when the block has no relationships
      (`[0]` of an empty list raises) or a VALUE relationship has no `Ids`. */
  function KeyEntry(m: BlockMap, kb: Block): Result<(string, string)> {
    match ValueIdsOf(kb.relationships)
    case Failure => Failure
    case Ok(valueIds) =>
      if kb.relationships == [] then Failure
      else Ok((ResolveText(m, KeyTextIds(kb.relationships)), ResolveText(m, valueIds)))
  }

  /** `key_values` after the loop over the given key blocks: a pair is stored
      only when its key text is non-empty, and a later equal key text replaces
      the earlier value. */
  function FormFieldsOf(m: BlockMap, kbs: seq<Block>): (r: Result<Dict<string, string>>)
    ensures r.Ok? ==> Valid(r.value) && "" !in r.value.entries
  {
    if kbs == [] then Ok(Empty())
    else
      match FormFieldsOf(m, kbs[..|kbs| - 1])
      case Failure => Failure
      case Ok(fields) =>
        match KeyEntry(m, kbs[|kbs| - 1])
        case Failure => Failure
        case Ok((keyText, valueText)) =>
          if keyText != "" then Ok(Put(fields, keyText, valueText)) else Ok(fields)
  }

  lemma {:induction false} FormFieldsFailurePersists(m: BlockMap, kbs: seq<Block>, i: nat)
    requires i <= |kbs| && FormFieldsOf(m, kbs[..i]) == Failure
    ensures FormFieldsOf(m, kbs) == Failure
    decreases |kbs| - i
  {
    if i == |kbs| {
      assert kbs[..i] == kbs;
    } else {
      assert kbs[..i + 1][..i] == kbs[..i];
      FormFieldsFailurePersists(m, kbs, i + 1);
    }
  }

  /** One more key block: its entry is stored, unless its key text is empty. */
  lemma FormFieldsStep(m: BlockMap, kbs: seq<Block>, i: nat, fields: Dict<string, string>, k: string, v: string)
    requires i < |kbs| && FormFieldsOf(m, kbs[..i]) == Ok(fields)
    requires KeyEntry(m, kbs[i]) == Ok((k, v))
    ensures FormFieldsOf(m, kbs[..i + 1]) == Ok(if k != "" then Put(fields, k, v) else fields)
  {
    assert kbs[..i + 1][..i] == kbs[..i];
  }

  /** A key block whose entry fails makes the loop fail there. */
  lemma FormFieldsStepFails(m: BlockMap, kbs: seq<Block>, i: nat)
    requires i < |kbs| && FormFieldsOf(m, kbs[..i]).Ok? && KeyEntry(m, kbs[i]).Failure?
    ensures FormFieldsOf(m, kbs) == Failure
  {
    assert kbs[..i + 1][..i] == kbs[..i];
    FormFieldsFailurePersists(m, kbs, i + 1);
  }

  /** Lines 85-90: the key text and value text of one KEY block. */
  method ResolveKeyEntry(m: BlockMap, keyBlock: Block) returns (r: Result<(string, string)>)
    ensures r == KeyEntry(m, keyBlock)
  {
    var valueIds := CollectValueIds(keyBlock.relationships);
    if valueIds.Failure? || keyBlock.relationships == [] {
      return Failure;
    }
    var keyText := GetTextForIds(m, keyBlock.relationships[0].ids.GetOr([]));
    var valueText := GetTextForIds(m, valueIds.value);
    r := Ok((keyText, valueText));
  }

  /** Lines 84-92, iterating `key_map.items()` in insertion order. */
  method ReconstructKeyValues(m: BlockMap, keyMap: Dict<Option<string>, Block>) returns (r: Result<Dict<string, string>>)
    requires Valid(keyMap)
    ensures r == FormFieldsOf(m, Values(keyMap))
    ensures r.Ok? ==> Valid(r.value) && "" !in r.value.entries
  {
    var kbs := Values(keyMap);
    var keyValues: Dict<string, string> := Empty();
    var i := 0;
    while i < |kbs|
      invariant 0 <= i <= |kbs|
      invariant FormFieldsOf(m, kbs[..i]) == Ok(keyValues)
    {
      var entry := ResolveKeyEntry(m, kbs[i]);
      if entry.Failure? {
        FormFieldsStepFails(m, kbs, i);
        return Failure;
      }
      var (keyText, valueText) := entry.value;
      FormFieldsStep(m, kbs, i, keyValues, keyText, valueText);
      if keyText != "" {
        keyValues := Put(keyValues, keyText, valueText);
      }
      i := i + 1;
    }
    assert kbs[..|kbs|] == kbs;
    r := Ok(keyValues);
  }

  /** The reconstruction succeeds exactly when every key block's entry does. */
  lemma {:induction false} FormFieldsOkIff(m: BlockMap, kbs: seq<Block>)
    ensures FormFieldsOf(m, kbs).Ok? <==> forall j :: 0 <= j < |kbs| ==> KeyEntry(m, kbs[j]).Ok?
  {
    if kbs != [] {
      var init := kbs[..|kbs| - 1];
      FormFieldsOkIff(m, init);
      assert forall j :: 0 <= j < |init| ==> init[j] == kbs[j];
    }
  }

  /** A key block without relationships makes the whole reconstruction fail:
      it is not skipped. */
  lemma KeyWithoutRelationshipsFails(m: BlockMap, kbs: seq<Block>, j: nat)
    requires j < |kbs| && kbs[j].relationships == []
    ensures FormFieldsOf(m, kbs) == Failure
  {
    assert ValueIdsOf(kbs[j].relationships) == Ok([]);
    assert KeyEntry(m, kbs[j]) == Failure;
    FormFieldsOkIff(m, kbs);
  }

  /** A stored pair comes from the last key block with that key text: its value
      is that block's value text. */
  lemma {:induction false} LastKeyWins(m: BlockMap, kbs: seq<Block>, j: nat)
    requires FormFieldsOf(m, kbs).Ok? && j < |kbs|
    requires KeyEntry(m, kbs[j]).Ok? && KeyEntry(m, kbs[j]).value.0 != ""
    requires forall l :: j < l < |kbs| && KeyEntry(m, kbs[l]).Ok? ==> KeyEntry(m, kbs[l]).value.0 != KeyEntry(m, kbs[j]).value.0
    ensures var (k, v) := KeyEntry(m, kbs[j]).value;
      k in FormFieldsOf(m, kbs).value.entries && FormFieldsOf(m, kbs).value.entries[k] == v
  {
    var init := kbs[..|kbs| - 1];
    if j < |kbs| - 1 {
      assert init[j] == kbs[j];
      assert forall l :: j < l < |init| ==> init[l] == kbs[l];
      LastKeyWins(m, init, j);
    }
  }

  /** Every stored key is the non-empty key text of some key block. */
  lemma {:induction false} StoredKeysComeFromKeyBlocks(m: BlockMap, kbs: seq<Block>, k: string)
    requires FormFieldsOf(m, kbs).Ok? && k in FormFieldsOf(m, kbs).value.entries
    ensures k != ""
    ensures exists j :: 0 <= j < |kbs| && KeyEntry(m, kbs[j]).Ok? && KeyEntry(m, kbs[j]).value.0 == k
  {
    var init := kbs[..|kbs| - 1];
    var last := KeyEntry(m, kbs[|kbs| - 1]);
    if last.value.0 != k {
      StoredKeysComeFromKeyBlocks(m, init, k);
      var j :| 0 <= j < |init| && KeyEntry(m, init[j]).Ok? && KeyEntry(m, init[j]).value.0 == k;
      assert init[j] == kbs[j];
    }
  }

  /** Two key blocks with the same key text leave one pair, holding the value
      of the later block. */
  lemma SameKeyLaterWins(m: BlockMap, a: Block, b: Block)
    requires KeyEntry(m, a).Ok? && KeyEntry(m, b).Ok?
    requires KeyEntry(m, a).value.0 == KeyEntry(m, b).value.0 != ""
    ensures FormFieldsOf(m, [a, b]).Ok?
    ensures FormFieldsOf(m, [a, b]).value.keys == [KeyEntry(m, a).value.0]
    ensures FormFieldsOf(m, [a, b]).value.entries == map[KeyEntry(m, b).value.0 := KeyEntry(m, b).value.1]
  {
    var kbs := [a, b];
    var (k, v) := KeyEntry(m, a).value;
    var v' := KeyEntry(m, b).value.1;
    assert kbs[..0] == [];
    FormFieldsStep(m, kbs, 0, Empty(), k, v);
    FormFieldsStep(m, kbs, 1, Put(Empty(), k, v), k, v');
    assert kbs[..2] == kbs;
    PutTwice(Empty(), k, v, v');
  }
}
