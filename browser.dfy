/**
 * mapToSliceOne of the browser command (cmd/fofa/cmd/browser.go): one
 * record, keyed by field name, becomes a single output row holding the
 * values of the requested keys that the record has.
 */
module Browser {

  /** The values of the keys that `data` has, in the order of `keys`; absent keys are skipped. */
  function Present(keys: seq<string>, data: map<string, string>): (values: seq<string>)
    ensures |values| <= |keys|
    ensures forall v :: v in values ==> exists k :: k in keys && k in data && data[k] == v
  {
    if keys == [] then []
    else
      var last := keys[|keys| - 1];
      assert forall k :: k in keys[..|keys| - 1] ==> k in keys;
      assert last in keys;
      Present(keys[..|keys| - 1], data) + (if last in data then [data[last]] else [])
  }

  /**
   * The loop over `keys`. The record's values are taken as already
   * formatted by fmt's %v.
   */
  method MapToSliceOne(data: map<string, string>, keys: seq<string>) returns (rows: seq<seq<string>>)
    ensures rows == [Present(keys, data)]
  {
    var values: seq<string> := [];
    var i := 0;
    while i < |keys|
      invariant 0 <= i <= |keys|
      invariant values == Present(keys[..i], data)
    {
      assert keys[..i + 1][..i] == keys[..i];
      var key := keys[i];
      if key in data {
        values := values + [data[key]];
      }
      i := i + 1;
    }
    assert keys[..i] == keys;
    rows := [values];
  }

  /** The row of a concatenation of key lists is the concatenation of their rows. */
  lemma {:induction false} PresentConcat(a: seq<string>, b: seq<string>, data: map<string, string>)
    ensures Present(a + b, data) == Present(a, data) + Present(b, data)
    decreases |b|
  {
    if b == [] {
      assert a + b == a;
    } else {
      var init := b[..|b| - 1];
      assert (a + b)[..|a + b| - 1] == a + init;
      PresentConcat(a, init, data);
    }
  }

  /** When the record has every key, the row has one cell per key, each the key's value. */
  lemma {:induction false} PresentAll(keys: seq<string>, data: map<string, string>)
    requires forall k :: k in keys ==> k in data
    ensures |Present(keys, data)| == |keys|
    ensures forall i :: 0 <= i < |keys| ==> Present(keys, data)[i] == data[keys[i]]
  {
    if keys != [] {
      var init := keys[..|keys| - 1];
      assert forall k :: k in init ==> k in keys;
      assert keys[|keys| - 1] in keys;
      PresentAll(init, data);
    }
  }

  /** A record that has none of the keys gives an empty row. */
  lemma {:induction false} PresentNone(keys: seq<string>, data: map<string, string>)
    ensures (forall k :: k in keys ==> k !in data) ==> Present(keys, data) == []
  {
    if keys != [] {
      var init := keys[..|keys| - 1];
      assert forall k :: k in init ==> k in keys;
      PresentNone(init, data);
    }
  }

  /** A key listed twice gives its value twice. */
  lemma PresentDuplicate(keys: seq<string>, k: string, data: map<string, string>)
    requires k in data
    ensures Present(keys + [k, k], data) == Present(keys, data) + [data[k], data[k]]
  {
    PresentConcat(keys, [k, k], data);
    assert [k, k][..1] == [k];
    assert [k][..0] == [];
  }
}
