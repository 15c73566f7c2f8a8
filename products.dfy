/** The products table and the repository that reads and writes it. */
module Products {
  import opened Shared
  import opened Collections

  /** A stored product. The price is only ever copied, so it stays an uninterpreted number. */
  datatype Product = Product(id: string, name: string, price: real, quantity: int)

  /** One entry of a quantity update: the new absolute stock for the product `id`. */
  datatype QuantityUpdate = QuantityUpdate(id: string, quantity: int)

  /** Every stored product sits under its own id. */
  ghost predicate KeyedById(rows: map<string, Product>) {
    forall id :: id in rows ==> rows[id].id == id
  }

  /** A batch of ids that the table can answer one-for-one: no id twice, and none unknown. */
  ghost predicate Fetchable(rows: map<string, Product>, ids: seq<string>) {
    Distinct(ids) && forall i :: 0 <= i < |ids| ==> ids[i] in rows
  }

  /** The ids of a list of products, in list order. */
  function IdsOf(products: seq<Product>): (r: seq<string>)
    ensures |r| == |products|
  {
    seq(|products|, j requires 0 <= j < |products| => products[j].id)
  }

  /** `fetched` answers the batch `ids`: one stored product per requested id,
      no product twice and exactly the requested ids between them. */
  ghost predicate FetchedFrom(rows: map<string, Product>, ids: seq<string>, fetched: seq<Product>) {
    && |fetched| == |ids|
    && (forall j :: 0 <= j < |fetched| ==> fetched[j].id in rows && rows[fetched[j].id] == fetched[j])
    && Distinct(IdsOf(fetched))
    && Elems(IdsOf(fetched)) == Elems(ids)
  }

  /** Every product of an answer was asked for. */
  lemma FetchedAsked(rows: map<string, Product>, ids: seq<string>, fetched: seq<Product>, j: nat)
    requires FetchedFrom(rows, ids, fetched) && j < |fetched|
    ensures exists i :: 0 <= i < |ids| && ids[i] == fetched[j].id
  {
    assert IdsOf(fetched)[j] == fetched[j].id;
    assert fetched[j].id in Elems(ids);
  }

  /** Every id of a batch is answered. */
  lemma FetchedCovers(rows: map<string, Product>, ids: seq<string>, fetched: seq<Product>, i: nat)
    requires FetchedFrom(rows, ids, fetched) && i < |ids|
    ensures exists j :: 0 <= j < |fetched| && fetched[j].id == ids[i]
  {
    assert ids[i] in Elems(IdsOf(fetched));
    var j :| 0 <= j < |fetched| && IdsOf(fetched)[j] == ids[i];
  }

  /** The ids of the table, in row order, that are stored and wanted: what a query
      `WHERE id IN wanted` returns when the database keeps row order. */
  function Selected(order: seq<string>, rows: map<string, Product>, wanted: set<string>): (r: seq<string>)
    ensures forall j :: 0 <= j < |r| ==> r[j] in order && r[j] in rows && r[j] in wanted
    ensures forall k :: k in order && k in rows && k in wanted ==> k in r
  {
    if order == [] then []
    else (if order[0] in rows && order[0] in wanted then [order[0]] else [])
         + Selected(order[1..], rows, wanted)
  }

  /** Selecting from a table without repeated ids repeats no id. */
  lemma {:induction false} SelectedDistinct(order: seq<string>, rows: map<string, Product>, wanted: set<string>)
    requires Distinct(order)
    ensures Distinct(Selected(order, rows, wanted))
  {
    if order != [] {
      var rest := order[1..];
      SelectedDistinct(rest, rows, wanted);
      var tail := Selected(rest, rows, wanted);
      assert order[0] !in rest by {
        forall k | 0 <= k < |rest| ensures rest[k] != order[0] { assert rest[k] == order[k + 1]; }
      }
      assert order[0] !in tail;
    }
  }

  /** The batch lookup returns as many rows as it was asked for exactly when no id is
      repeated and every id is stored; a repeated id therefore always fails it. */
  lemma SelectedCount(order: seq<string>, rows: map<string, Product>, ids: seq<string>)
    requires Distinct(order)
    requires rows.Keys == Elems(order)
    ensures |Selected(order, rows, Elems(ids))| <= |ids|
    ensures |Selected(order, rows, Elems(ids))| == |ids| <==> Fetchable(rows, ids)
  {
    var found := Selected(order, rows, Elems(ids));
    SelectedDistinct(order, rows, Elems(ids));
    DistinctCard(found);
    DistinctCard(ids);
    var hits := Elems(ids) * rows.Keys;
    forall x | x in Elems(found) ensures x in hits {
      var j :| 0 <= j < |found| && found[j] == x;
    }
    forall x | x in hits ensures x in Elems(found) {
      assert x in order;
    }
    assert Elems(found) == hits;
    SubsetCard(hits, Elems(ids));
    if |found| == |ids| {
      forall i | 0 <= i < |ids| ensures ids[i] in rows {
        assert ids[i] in Elems(ids);
      }
    }
    if Fetchable(rows, ids) {
      forall x | x in Elems(ids) ensures x in hits {
        var i :| 0 <= i < |ids| && ids[i] == x;
      }
      assert hits == Elems(ids);
    }
  }

  /** The stored products under `keys`, in the order of `keys`. */
  function RowsOf(rows: map<string, Product>, keys: seq<string>): (r: seq<Product>)
    requires forall j :: 0 <= j < |keys| ==> keys[j] in rows
    ensures |r| == |keys|
    ensures forall j :: 0 <= j < |keys| ==> r[j] == rows[keys[j]]
  {
    seq(|keys|, j requires 0 <= j < |keys| => rows[keys[j]])
  }

  /** When the batch lookup finds one row per id, those rows answer the batch. */
  lemma SelectedAnswers(order: seq<string>, rows: map<string, Product>, ids: seq<string>)
    requires KeyedById(rows) && Distinct(order)
    requires rows.Keys == Elems(order)
    requires Fetchable(rows, ids)
    ensures FetchedFrom(rows, ids, RowsOf(rows, Selected(order, rows, Elems(ids))))
  {
    var found := Selected(order, rows, Elems(ids));
    var fetched := RowsOf(rows, found);
    SelectedCount(order, rows, ids);
    SelectedDistinct(order, rows, Elems(ids));
    assert IdsOf(fetched) == found;
    forall k | k in Elems(ids) ensures k in Elems(found) {
      assert k in order;
    }
  }

  /** Sets the stock of the stored product `u.id` to `u.quantity`. */
  function Overwrite(rows: map<string, Product>, u: QuantityUpdate): (r: map<string, Product>)
    requires u.id in rows
    ensures r.Keys == rows.Keys
  {
    rows[u.id := rows[u.id].(quantity := u.quantity)]
  }

  /** Every update names a stored product. */
  ghost predicate AllStored(rows: map<string, Product>, updates: seq<QuantityUpdate>) {
    forall i :: 0 <= i < |updates| ==> updates[i].id in rows
  }

  /** The table after applying `updates` one after the other. */
  function Overwritten(rows: map<string, Product>, updates: seq<QuantityUpdate>): (r: map<string, Product>)
    requires AllStored(rows, updates)
    ensures r.Keys == rows.Keys
    decreases |updates|
  {
    if updates == [] then rows
    else Overwrite(Overwritten(rows, updates[..|updates| - 1]), updates[|updates| - 1])
  }

  /** Updates change a product's quantity and nothing else: its id, name and price stay. */
  lemma {:induction false} OverwrittenKeeps(rows: map<string, Product>, updates: seq<QuantityUpdate>, id: string)
    requires AllStored(rows, updates) && id in rows
    ensures var after := Overwritten(rows, updates);
      after[id] == rows[id].(quantity := after[id].quantity)
    decreases |updates|
  {
    if updates != [] {
      OverwrittenKeeps(rows, updates[..|updates| - 1], id);
    }
  }

  /** A product no update names keeps its stored state. */
  lemma {:induction false} OverwrittenMiss(rows: map<string, Product>, updates: seq<QuantityUpdate>, id: string)
    requires AllStored(rows, updates) && id in rows
    requires forall i :: 0 <= i < |updates| ==> updates[i].id != id
    ensures Overwritten(rows, updates)[id] == rows[id]
    decreases |updates|
  {
    if updates != [] {
      OverwrittenMiss(rows, updates[..|updates| - 1], id);
    }
  }

  /** The last update naming a stored product decides its quantity: an overwrite, not a decrement. */
  lemma {:induction false} OverwrittenHit(rows: map<string, Product>, updates: seq<QuantityUpdate>, i: nat)
    requires AllStored(rows, updates) && i < |updates|
    requires forall j :: i < j < |updates| ==> updates[j].id != updates[i].id
    ensures Overwritten(rows, updates)[updates[i].id] == rows[updates[i].id].(quantity := updates[i].quantity)
    decreases |updates|
  {
    var init := updates[..|updates| - 1];
    if i < |updates| - 1 {
      OverwrittenHit(rows, init, i);
    } else {
      OverwrittenKeeps(rows, init, updates[i].id);
    }
  }

  /** Applying the updates up to and including entry `i` is applying entry `i` after the ones before it. */
  lemma OverwrittenStep(rows: map<string, Product>, updates: seq<QuantityUpdate>, i: nat)
    requires i < |updates| && AllStored(rows, updates[..i]) && updates[i].id in rows
    ensures AllStored(rows, updates[..i + 1])
    ensures Overwritten(rows, updates[..i + 1]) == Overwrite(Overwritten(rows, updates[..i]), updates[i])
  {
    assert updates[..i + 1][..i] == updates[..i];
  }

  /** The products an update batch returns: entry `j` is the stored product `updates[j].id`
      with its quantity set to `updates[j].quantity`. */
  ghost predicate Restocked(rows: map<string, Product>, updates: seq<QuantityUpdate>, products: seq<Product>)
  {
    && |products| <= |updates|
    && forall j :: 0 <= j < |products| ==>
         updates[j].id in rows && products[j] == rows[updates[j].id].(quantity := updates[j].quantity)
  }

  /** One more saved product extends the returned list by one entry. */
  lemma RestockedStep(rows: map<string, Product>, updates: seq<QuantityUpdate>, products: seq<Product>, p: Product)
    requires Restocked(rows, updates, products) && |products| < |updates|
    requires updates[|products|].id in rows
    requires p == rows[updates[|products|].id].(quantity := updates[|products|].quantity)
    ensures Restocked(rows, updates, products + [p])
  {
  }

  /** Writing a product back under its own id keeps the table keyed by id and its set of ids. */
  lemma KeyedByIdWrite(rows: map<string, Product>, p: Product)
    requires KeyedById(rows) && p.id in rows
    ensures KeyedById(rows[p.id := p]) && rows[p.id := p].Keys == rows.Keys
  {
  }

  /** The repository over the products table. `rows` holds the stored products by id;
      `order` is the table's row order, in which batch queries return their rows. */
  class ProductsRepository {
    var rows: map<string, Product>
    var order: seq<string>

    ghost predicate Valid()
      reads this
    {
      && KeyedById(rows)
      && rows.Keys == Elems(order)
      && Distinct(order)
    }

    /** An empty table. */
    constructor ()
      ensures Valid()
      ensures rows == map[] && order == []
    {
      rows := map[];
      order := [];
    }

    /** Inserts a product with the given fields under the fresh id the database generates. */
    method Create(id: string, name: string, price: real, quantity: int) returns (product: Product)
      requires Valid()
      requires id !in rows
      modifies this
      ensures Valid()
      ensures product == Product(id, name, price, quantity)
      ensures rows == old(rows)[id := product]
      ensures forall other :: other in old(rows) ==> other in rows && rows[other] == old(rows)[other]
      ensures order == old(order) + [id]
    {
      product := Product(id, name, price, quantity);
      rows := rows[id := product];
      order := order + [id];
    }

    /** A stored product called `name`, the first in row order, or none if no product has that name. */
    function FindByName(name: string): (r: Option<Product>)
      reads this
      requires Valid()
      ensures r.Some? ==> r.value.id in rows && rows[r.value.id] == r.value && r.value.name == name
      ensures r.None? <==> forall id :: id in rows ==> rows[id].name != name
    {
      var named := Selected(order, rows, set id | id in rows && rows[id].name == name);
      if named == [] then None else Some(rows[named[0]])
    }

    /** The product stored under `id`, or none. */
    function FindById(id: string): (r: Option<Product>)
      reads this
      requires Valid()
      ensures r.Some? <==> id in rows
      ensures r.Some? ==> r.value.id == id && rows[id] == r.value
    {
      if id in rows then Some(rows[id]) else None
    }

    /** The stored products with the given ids, in row order. Fails with "Product(s) not found"
        whenever the number of rows found differs from the number of ids asked for. */
    function FindAllById(ids: seq<string>): (r: Result<seq<Product>>)
      reads this
      requires Valid()
      ensures r.Ok? <==> Fetchable(rows, ids)
      ensures r.Err? ==> r.error == ProductsNotFound
      ensures r.Ok? ==> FetchedFrom(rows, ids, r.value)
    {
      var found := Selected(order, rows, Elems(ids));
      SelectedCount(order, rows, ids);
      if |ids| != |found| then Err(ProductsNotFound)
      else
        SelectedAnswers(order, rows, ids);
        Ok(RowsOf(rows, found))
    }

    /** One entry of a quantity update: loads the product, sets its quantity and saves it.
        Fails with "Missing Product" when the table does not hold the id. */
    method SaveQuantity(u: QuantityUpdate) returns (r: Result<Product>)
      requires Valid()
      modifies this`rows
      ensures Valid() && rows.Keys == old(rows).Keys
      ensures r.Err? <==> u.id !in old(rows)
      ensures r.Err? ==> r.error == MissingProduct && rows == old(rows)
      ensures r.Ok? ==> r.value == old(rows)[u.id].(quantity := u.quantity)
      ensures r.Ok? ==> rows == Overwrite(old(rows), u)
    {
      var productToUpdate := FindById(u.id);
      if productToUpdate.None? {
        return Err(MissingProduct);
      }
      var product := productToUpdate.value.(quantity := u.quantity);
      KeyedByIdWrite(rows, product);
      rows := rows[product.id := product];
      r := Ok(product);
    }

    /** Sets the quantity of each listed product to the given value and returns the
        updated products, one per entry and in the same order. Fails with "Missing Product"
        on an id the table does not hold; what was written before that is left unspecified. */
    method UpdateQuantity(updates: seq<QuantityUpdate>) returns (r: Result<seq<Product>>)
      requires Valid()
      modifies this`rows
      ensures Valid()
      ensures r.Ok? <==> AllStored(old(rows), updates)
      ensures r.Err? ==> r.error == MissingProduct && rows.Keys == old(rows).Keys
      ensures r.Ok? ==> rows == Overwritten(old(rows), updates)
      ensures r.Ok? ==> |r.value| == |updates|
      ensures r.Ok? ==> forall i :: 0 <= i < |updates| ==>
                r.value[i] == old(rows)[updates[i].id].(quantity := updates[i].quantity)
    {
      ghost var stored := rows;
      var updated: seq<Product> := [];
      var i := 0;
      while i < |updates|
        invariant 0 <= i <= |updates|
        invariant Valid()
        invariant AllStored(stored, updates[..i])
        invariant rows == Overwritten(stored, updates[..i])
        invariant |updated| == i && Restocked(stored, updates, updated)
      {
        var saved := SaveQuantity(updates[i]);
        if saved.Err? {
          assert !AllStored(stored, updates);
          return Err(saved.error);
        }
        OverwrittenStep(stored, updates, i);
        OverwrittenKeeps(stored, updates[..i], updates[i].id);
        RestockedStep(stored, updates, updated, saved.value);
        updated := updated + [saved.value];
        i := i + 1;
      }
      assert updates[..i] == updates;
      r := Ok(updated);
    }
  }
}
