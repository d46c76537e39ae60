/**
 * The product records and the three list transforms the component applies
 * to them: prepend on create, `map` on update and `filter` on delete.
 */
module Products {
  import opened Wrappers
  import opened JsText

  /** One stored product; `description` may be missing in a saved list. */
  datatype Product = Product(
    id: int,
    name: JsString,
    description: Option<JsString>,
    price: real,
    category: JsString,
    releaseDate: JsString,
    stock: int,
    isActive: bool)

  /** The fields a submit writes: every field of a record except its id. */
  datatype Fields = Fields(
    name: JsString,
    description: JsString,
    price: real,
    category: JsString,
    releaseDate: JsString,
    stock: int,
    isActive: bool)

  /** `{ id, ...data }`: a record built from an id and submitted fields. */
  function WithFields(id: int, f: Fields): Product {
    Product(id, f.name, Some(f.description), f.price, f.category, f.releaseDate, f.stock, f.isActive)
  }

  /** Some record of `ps` carries `id`. */
  predicate HasId(ps: seq<Product>, id: int) {
    exists k :: 0 <= k < |ps| && ps[k].id == id
  }

  /** No two records of `ps` share an id. */
  predicate UniqueIds(ps: seq<Product>) {
    forall i, j :: 0 <= i < j < |ps| ==> ps[i].id != ps[j].id
  }

  /** The two records used when nothing was saved. */
  function Seed(): (ps: seq<Product>)
    ensures |ps| == 2 && UniqueIds(ps)
    ensures forall k :: 0 <= k < |ps| ==> ps[k].price > 0.0 && 0 <= ps[k].stock <= 1000 && ps[k].isActive
  {
    [ Product(1, Units("Makanan"), Some(Units("Produk makanan siap saji")), 15000.0,
              Units("Makanan"), Units("2024-01-01"), 100, true),
      Product(2, Units("Minuman"), Some(Units("Aneka minuman dingin & hangat")), 5000.0,
              Units("Minuman"), Units("2024-01-02"), 150, true) ]
  }

  /** `products.find(p => p.id === id)`: the first record carrying `id`. */
  function Find(ps: seq<Product>, id: int): (r: Option<Product>)
    ensures r.None? <==> !HasId(ps, id)
    ensures r.Some? ==> r.value.id == id
    ensures r.Some? ==>
      exists k :: 0 <= k < |ps| && ps[k] == r.value && (forall j :: 0 <= j < k ==> ps[j].id != id)
  {
    if ps == [] then None
    else if ps[0].id == id then Some(ps[0])
    else
      var r := Find(ps[1..], id);
      if r.Some? then
        var k :| 0 <= k < |ps| - 1 && ps[1..][k] == r.value && (forall j :: 0 <= j < k ==> ps[1..][j].id != id);
        assert ps[k + 1] == r.value;
        r
      else r
  }

  /** `ps.map(p => p.id === id ? { ...p, ...f } : p)`. */
  function UpdateWhere(ps: seq<Product>, id: int, f: Fields): (r: seq<Product>)
    ensures |r| == |ps|
    ensures forall k :: 0 <= k < |ps| ==> r[k] == if ps[k].id == id then WithFields(ps[k].id, f) else ps[k]
  {
    if ps == [] then []
    else [if ps[0].id == id then WithFields(ps[0].id, f) else ps[0]] + UpdateWhere(ps[1..], id, f)
  }

  /** `ps.filter(p => p.id !== id)`. */
  function RemoveId(ps: seq<Product>, id: int): (r: seq<Product>)
    ensures |r| <= |ps|
    ensures forall p :: p in r <==> p in ps && p.id != id
  {
    if ps == [] then []
    else if ps[0].id == id then RemoveId(ps[1..], id)
    else [ps[0]] + RemoveId(ps[1..], id)
  }

  /** An update keeps every id, and so the set of ids and their uniqueness. */
  lemma UpdateKeepsIds(ps: seq<Product>, id: int, f: Fields)
    ensures forall k :: 0 <= k < |ps| ==> UpdateWhere(ps, id, f)[k].id == ps[k].id
    ensures forall x :: HasId(UpdateWhere(ps, id, f), x) <==> HasId(ps, x)
    ensures UniqueIds(ps) ==> UniqueIds(UpdateWhere(ps, id, f))
  {
  }

  /** Updating an id no record carries changes nothing. */
  lemma UpdateMissing(ps: seq<Product>, id: int, f: Fields)
    requires !HasId(ps, id)
    ensures UpdateWhere(ps, id, f) == ps
  {
  }

  /** Prepending a record with a fresh id keeps ids unique. */
  lemma PrependKeepsUnique(ps: seq<Product>, p: Product)
    requires UniqueIds(ps) && !HasId(ps, p.id)
    ensures UniqueIds([p] + ps) && HasId([p] + ps, p.id)
  {
    var r := [p] + ps;
    forall i, j | 0 <= i < j < |r| ensures r[i].id != r[j].id {
      if i == 0 {
        assert r[j] == ps[j - 1];
      } else {
        assert r[i] == ps[i - 1] && r[j] == ps[j - 1];
      }
    }
    assert r[0] == p;
  }

  /** Filtering distributes over concatenation: the kept records stay in their order. */
  lemma {:induction false} RemoveAppend(a: seq<Product>, b: seq<Product>, id: int)
    ensures RemoveId(a + b, id) == RemoveId(a, id) + RemoveId(b, id)
  {
    if a == [] {
      assert a + b == b;
    } else {
      assert (a + b)[1..] == a[1..] + b;
      RemoveAppend(a[1..], b, id);
    }
  }

  /** On one record the filter keeps it exactly when its id differs. */
  lemma RemoveSingle(p: Product, id: int)
    ensures RemoveId([p], id) == if p.id == id then [] else [p]
  {
  }

  /** Removing an id no record carries changes nothing. */
  lemma {:induction false} RemoveMissing(ps: seq<Product>, id: int)
    requires !HasId(ps, id)
    ensures RemoveId(ps, id) == ps
  {
    if ps != [] {
      assert ps[0].id != id;
      assert !HasId(ps[1..], id) by {
        forall k | 0 <= k < |ps| - 1 ensures ps[1..][k].id != id { assert ps[1..][k] == ps[k + 1]; }
      }
      RemoveMissing(ps[1..], id);
      assert ps == [ps[0]] + ps[1..];
    }
  }

  /** Ids are unique in a non-empty list when they are in its tail and the head's id is not there. */
  lemma UniqueCons(ps: seq<Product>)
    requires ps != []
    ensures UniqueIds(ps) <==> UniqueIds(ps[1..]) && forall p :: p in ps[1..] ==> p.id != ps[0].id
  {
  }

  /** The result of a removal is a subsequence of the input, so ids stay unique. */
  lemma {:induction false} RemoveKeepsUnique(ps: seq<Product>, id: int)
    requires UniqueIds(ps)
    ensures UniqueIds(RemoveId(ps, id))
  {
    if ps != [] {
      UniqueCons(ps);
      RemoveKeepsUnique(ps[1..], id);
      if ps[0].id != id {
        var r := RemoveId(ps, id);
        assert r[1..] == RemoveId(ps[1..], id);
        UniqueCons(r);
      }
    }
  }

  /** A removal keeps every other id present. */
  lemma RemoveKeepsOthers(ps: seq<Product>, id: int, x: int)
    requires HasId(ps, x) && x != id
    ensures HasId(RemoveId(ps, id), x)
  {
  }

  /** With unique ids, deleting a present id removes exactly one record. */
  lemma {:induction false} RemovePresentUnique(ps: seq<Product>, id: int)
    requires UniqueIds(ps) && HasId(ps, id)
    ensures |RemoveId(ps, id)| == |ps| - 1
  {
    var tail := ps[1..];
    if ps[0].id == id {
      assert !HasId(tail, id) by {
        forall k | 0 <= k < |tail| ensures tail[k].id != id { assert tail[k] == ps[k + 1]; }
      }
      RemoveMissing(tail, id);
    } else {
      assert HasId(tail, id) by {
        var k :| 0 <= k < |ps| && ps[k].id == id;
        assert tail[k - 1] == ps[k];
      }
      assert UniqueIds(tail) by {
        forall i, j | 0 <= i < j < |tail| ensures tail[i].id != tail[j].id {
          assert tail[i] == ps[i + 1] && tail[j] == ps[j + 1];
        }
      }
      RemovePresentUnique(tail, id);
    }
  }

  /** Deleting the id of a record just prepended with a fresh id gives the old list back. */
  lemma DeleteUndoesCreate(ps: seq<Product>, p: Product)
    requires !HasId(ps, p.id)
    ensures RemoveId([p] + ps, p.id) == ps
  {
    assert ([p] + ps)[1..] == ps;
    RemoveMissing(ps, p.id);
  }

  /** After an update of a present id, looking that id up finds the new field values under it. */
  lemma {:induction false} FindAfterUpdate(ps: seq<Product>, id: int, f: Fields)
    requires HasId(ps, id)
    ensures Find(UpdateWhere(ps, id, f), id) == Some(WithFields(id, f))
  {
    var r := UpdateWhere(ps, id, f);
    if ps[0].id != id {
      assert HasId(ps[1..], id) by {
        var k :| 0 <= k < |ps| && ps[k].id == id;
        assert ps[1..][k - 1] == ps[k];
      }
      assert r[1..] == UpdateWhere(ps[1..], id, f);
      FindAfterUpdate(ps[1..], id, f);
    }
  }
}
