/**
 A JavaScript `Map` with string keys: it iterates in insertion order, overwriting keeps the position of a
 key, and deleting then adding moves it to the end.
 */
module JsMaps {
  import opened Outcomes

  datatype JsMap<V> = JsMap(keys: seq<string>, rows: map<string, V>) {

    ghost predicate Valid() {
      && (forall k :: k in rows <==> k in keys)
      && (forall i, j :: 0 <= i < j < |keys| ==> keys[i] != keys[j])
    }

    predicate Has(k: string) { k in rows }

    function Get(k: string): Option<V> {
      if k in rows then Some(rows[k]) else None
    }

    function Put(k: string, v: V): (m: JsMap<V>)
      ensures Valid() ==> m.Valid()
    {
      JsMap(if k in rows then keys else keys + [k], rows[k := v])
    }

    function Delete(k: string): (m: JsMap<V>)
      ensures m.rows == rows - {k}
      ensures Valid() ==> m.Valid()
    {
      WithoutKeepsRest(keys, k);
      JsMap(Without(keys, k), rows - {k})
    }
  }

  function Empty<V>(): (m: JsMap<V>)
    ensures m.Valid()
  {
    JsMap([], map[])
  }

  function Without(keys: seq<string>, k: string): seq<string> {
    if keys == [] then []
    else if keys[0] == k then Without(keys[1..], k)
    else [keys[0]] + Without(keys[1..], k)
  }

  lemma {:induction false} WithoutKeepsRest(keys: seq<string>, k: string)
    ensures forall x :: x in Without(keys, k) <==> x in keys && x != k
    ensures (forall i, j :: 0 <= i < j < |keys| ==> keys[i] != keys[j]) ==>
              forall i, j :: 0 <= i < j < |Without(keys, k)| ==> Without(keys, k)[i] != Without(keys, k)[j]
    ensures k !in keys ==> Without(keys, k) == keys
  {
    if keys != [] {
      var rest := Without(keys[1..], k);
      WithoutKeepsRest(keys[1..], k);
      assert keys == [keys[0]] + keys[1..];
      if forall i, j :: 0 <= i < j < |keys| ==> keys[i] != keys[j] {
        assert keys[0] !in keys[1..];
        forall i, j | 0 <= i < j < |keys[1..]| ensures keys[1..][i] != keys[1..][j] {
          assert keys[i + 1] != keys[j + 1];
        }
        assert keys[0] !in rest;
      }
    }
  }

  lemma {:induction false} WithoutJoins(a: seq<string>, b: seq<string>, k: string)
    ensures Without(a + b, k) == Without(a, k) + Without(b, k)
  {
    if a == [] {
      assert a + b == b;
    } else {
      WithoutJoins(a[1..], b, k);
      assert (a + b)[1..] == a[1..] + b;
    }
  }
}
