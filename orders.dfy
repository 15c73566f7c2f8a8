/** Order placement: the stock check, the line items and the service that writes both. */
module Orders {
  import opened Shared
  import opened Collections
  import opened Products

  /** One entry of an order request: a product id and the quantity wanted. */
  datatype ProductRequest = ProductRequest(id: string, quantity: int)

  /** A line item of an order: the product, its price at the time of the order and the quantity. */
  datatype OrderProduct = OrderProduct(productId: string, price: real, quantity: int)

  /** A created order: the customer who placed it and its line items. */
  datatype Order = Order(customerId: string, products: seq<OrderProduct>)

  /** What the stock check produces when it passes: the new stock of every fetched
      product, and the line items of the order. */
  datatype Reservation = Reservation(updates: seq<QuantityUpdate>, items: seq<OrderProduct>)

  /** The ids of an order request, in request order. */
  function RequestedIds(requests: seq<ProductRequest>): (r: seq<string>)
    ensures |r| == |requests|
  {
    seq(|requests|, i requires 0 <= i < |requests| => requests[i].id)
  }

  /** The first request entry for product `id`, or none. */
  function FindRequest(requests: seq<ProductRequest>, id: string): (r: Option<ProductRequest>)
    ensures r.None? <==> id !in RequestedIds(requests)
    ensures r.Some? ==> r.value.id == id && r.value in requests
  {
    if requests == [] then None
    else
      assert RequestedIds(requests) == [requests[0].id] + RequestedIds(requests[1..]);
      if requests[0].id == id then Some(requests[0])
      else FindRequest(requests[1..], id)
  }

  /** The quantity the request asks of product `id`; zero when it does not name it. */
  function Requested(requests: seq<ProductRequest>, id: string): (r: int)
    ensures id !in RequestedIds(requests) ==> r == 0
  {
    match FindRequest(requests, id)
    case None => 0
    case Some(request) => request.quantity
  }

  /** The stock check: product `p` is refused when its request asks for at least the
      whole stock on hand, so ordering exactly the last units is refused too. */
  predicate Insufficient(p: Product, requests: seq<ProductRequest>) {
    match FindRequest(requests, p.id)
    case None => false
    case Some(request) => request.quantity >= p.quantity
  }

  /** The stock check over the fetched products, front to back. The first refused product
      fails the whole order; otherwise every product gets its decremented stock and every
      requested product a line item with its current price. */
  function Reserve(fetched: seq<Product>, requests: seq<ProductRequest>): (r: Result<Reservation>)
    ensures r.Err? ==> r.error == InsufficientProductQuantity
    ensures r.Ok? ==> |r.value.updates| == |fetched| && |r.value.items| <= |fetched|
    decreases |fetched|
  {
    if fetched == [] then Ok(Reservation([], []))
    else
      var info := fetched[|fetched| - 1];
      match Reserve(fetched[..|fetched| - 1], requests)
      case Err(e) => Err(e)
      case Ok(done) =>
        match FindRequest(requests, info.id)
        case None => Ok(Reservation(done.updates + [QuantityUpdate(info.id, info.quantity)], done.items))
        case Some(request) =>
          if request.quantity >= info.quantity then Err(InsufficientProductQuantity)
          else Ok(Reservation(
            done.updates + [QuantityUpdate(info.id, info.quantity - request.quantity)],
            done.items + [OrderProduct(request.id, info.price, request.quantity)]))
  }

  /** The stock check fails exactly when some fetched product is refused, and then with
      "Insufficient product quantity". */
  lemma {:induction false} ReserveFailsIff(fetched: seq<Product>, requests: seq<ProductRequest>)
    ensures Reserve(fetched, requests).Err? <==>
              exists j :: 0 <= j < |fetched| && Insufficient(fetched[j], requests)
    ensures Reserve(fetched, requests).Err? ==>
              Reserve(fetched, requests).error == InsufficientProductQuantity
    decreases |fetched|
  {
    if fetched != [] {
      var n := |fetched| - 1;
      var init := fetched[..n];
      ReserveFailsIff(init, requests);
      if exists j :: 0 <= j < n && Insufficient(init[j], requests) {
        var j :| 0 <= j < n && Insufficient(init[j], requests);
        assert fetched[j] == init[j];
      }
      if exists j :: 0 <= j < |fetched| && Insufficient(fetched[j], requests) {
        var j :| 0 <= j < |fetched| && Insufficient(fetched[j], requests);
        if j < n { assert init[j] == fetched[j]; }
      }
    }
  }

  /** A passed stock check gives one new stock per fetched product, in the same order:
      its stock less the quantity requested, which is positive for every requested product. */
  lemma {:induction false} ReserveUpdates(fetched: seq<Product>, requests: seq<ProductRequest>)
    requires Reserve(fetched, requests).Ok?
    ensures var res := Reserve(fetched, requests).value;
      && |res.updates| == |fetched|
      && (forall j :: 0 <= j < |fetched| ==>
            res.updates[j] == QuantityUpdate(fetched[j].id, fetched[j].quantity - Requested(requests, fetched[j].id)))
      && (forall j :: 0 <= j < |fetched| && FindRequest(requests, fetched[j].id).Some? ==>
            res.updates[j].quantity > 0)
    decreases |fetched|
  {
    if fetched != [] {
      var n := |fetched| - 1;
      var init := fetched[..n];
      ReserveUpdates(init, requests);
      forall j | 0 <= j < n ensures fetched[j] == init[j] { }
    }
  }

  /** When every fetched product was requested, a passed stock check gives one line item per
      fetched product, in the same order, with its id, its stored price and the requested quantity. */
  lemma {:induction false} ReserveItems(fetched: seq<Product>, requests: seq<ProductRequest>)
    requires Reserve(fetched, requests).Ok?
    requires forall j :: 0 <= j < |fetched| ==> FindRequest(requests, fetched[j].id).Some?
    ensures var res := Reserve(fetched, requests).value;
      && |res.items| == |fetched|
      && forall j :: 0 <= j < |fetched| ==>
           res.items[j] == OrderProduct(fetched[j].id, fetched[j].price, Requested(requests, fetched[j].id))
    decreases |fetched|
  {
    if fetched != [] {
      var n := |fetched| - 1;
      var init := fetched[..n];
      forall j | 0 <= j < n ensures FindRequest(requests, init[j].id).Some? {
        assert init[j] == fetched[j];
      }
      ReserveItems(init, requests);
      forall j | 0 <= j < n ensures fetched[j] == init[j] { }
    }
  }

  /** One more fetched product through the stock check, when it passes. */
  lemma ReserveStep(fetched: seq<Product>, requests: seq<ProductRequest>, i: nat, done: Reservation)
    requires i < |fetched| && Reserve(fetched[..i], requests) == Ok(done)
    ensures FindRequest(requests, fetched[i].id).None? ==>
              Reserve(fetched[..i + 1], requests)
                == Ok(Reservation(done.updates + [QuantityUpdate(fetched[i].id, fetched[i].quantity)], done.items))
    ensures FindRequest(requests, fetched[i].id).Some? ==>
              var request := FindRequest(requests, fetched[i].id).value;
              request.quantity < fetched[i].quantity ==>
                Reserve(fetched[..i + 1], requests)
                  == Ok(Reservation(
                       done.updates + [QuantityUpdate(fetched[i].id, fetched[i].quantity - request.quantity)],
                       done.items + [OrderProduct(request.id, fetched[i].price, request.quantity)]))
  {
    assert fetched[..i + 1][..i] == fetched[..i];
  }

  /** Looking up an id finds the first request entry with that id. */
  lemma {:induction false} FindRequestFirst(requests: seq<ProductRequest>, id: string, i: nat)
    requires i < |requests| && requests[i].id == id
    requires forall k :: 0 <= k < i ==> requests[k].id != id
    ensures FindRequest(requests, id) == Some(requests[i])
    decreases i
  {
    if i > 0 {
      FindRequestFirst(requests[1..], id, i - 1);
    }
  }

  /** In a request without repeated ids, looking up an entry's id finds that entry. */
  lemma {:induction false} FindRequestDistinct(requests: seq<ProductRequest>, i: nat)
    requires Distinct(RequestedIds(requests)) && i < |requests|
    ensures FindRequest(requests, requests[i].id) == Some(requests[i])
    decreases |requests|
  {
    var ids := RequestedIds(requests);
    if i > 0 {
      assert ids[0] == requests[0].id && ids[i] == requests[i].id;
      var rest := requests[1..];
      assert RequestedIds(rest) == ids[1..];
      assert Distinct(ids[1..]) by {
        forall a, b | 0 <= a < b < |ids| - 1 ensures ids[1..][a] != ids[1..][b] {
          assert ids[1..][a] == ids[a + 1] && ids[1..][b] == ids[b + 1];
        }
      }
      FindRequestDistinct(rest, i - 1);
    }
  }

  /** The effect of a placed order on the product table: each requested product loses exactly
      the requested quantity and keeps its name and price; every other product is unchanged. */
  ghost predicate StockTaken(before: map<string, Product>, after: map<string, Product>,
                             requests: seq<ProductRequest>)
  {
    && after.Keys == before.Keys
    && (forall i :: 0 <= i < |requests| && requests[i].id in before ==>
          after[requests[i].id]
            == before[requests[i].id].(quantity := before[requests[i].id].quantity - requests[i].quantity))
    && (forall id :: id in before && id !in RequestedIds(requests) ==> after[id] == before[id])
  }

  /** The (product, quantity) pairs of a list of line items, as request entries. */
  function Ordered(items: seq<OrderProduct>): (r: seq<ProductRequest>)
    ensures |r| == |items|
  {
    seq(|items|, j requires 0 <= j < |items| => ProductRequest(items[j].productId, items[j].quantity))
  }

  /** The line items of a placed order: one per request entry, together carrying exactly the
      requested (product, quantity) pairs, each at the product's stored price. */
  ghost predicate LineItemsFor(items: seq<OrderProduct>, rows: map<string, Product>,
                               requests: seq<ProductRequest>)
  {
    && |items| == |requests|
    && (forall j :: 0 <= j < |items| ==>
          items[j].productId in rows && items[j].price == rows[items[j].productId].price)
    && Elems(Ordered(items)) == Elems(requests)
  }

  /** Some request entry asks for at least the stored quantity of its product. */
  ghost predicate Oversold(rows: map<string, Product>, requests: seq<ProductRequest>) {
    exists i :: 0 <= i < |requests| && requests[i].id in rows &&
                requests[i].quantity >= rows[requests[i].id].quantity
  }

  /** Every requested product is stored with a positive stock. */
  ghost predicate InStock(rows: map<string, Product>, requests: seq<ProductRequest>) {
    forall i :: 0 <= i < |requests| ==> requests[i].id in rows && rows[requests[i].id].quantity > 0
  }

  /** On a fetched batch, the stock check refuses the order exactly when some request entry
      asks for at least the stored quantity of its product. */
  lemma ReserveRefusesIff(rows: map<string, Product>, requests: seq<ProductRequest>, fetched: seq<Product>)
    requires Fetchable(rows, RequestedIds(requests))
    requires FetchedFrom(rows, RequestedIds(requests), fetched)
    ensures Reserve(fetched, requests).Err? <==> Oversold(rows, requests)
  {
    var ids := RequestedIds(requests);
    ReserveFailsIff(fetched, requests);
    if exists j :: 0 <= j < |fetched| && Insufficient(fetched[j], requests) {
      var j :| 0 <= j < |fetched| && Insufficient(fetched[j], requests);
      FetchedAsked(rows, ids, fetched, j);
      var i :| 0 <= i < |ids| && ids[i] == fetched[j].id;
      FindRequestDistinct(requests, i);
    }
    if Oversold(rows, requests) {
      var i :| 0 <= i < |requests| && requests[i].id in rows &&
               requests[i].quantity >= rows[requests[i].id].quantity;
      assert ids[i] == requests[i].id;
      FetchedCovers(rows, ids, fetched, i);
      var j :| 0 <= j < |fetched| && fetched[j].id == ids[i];
      FindRequestDistinct(requests, i);
      assert Insufficient(fetched[j], requests);
    }
  }

  /** Every product of a fetched batch was requested, and its request entry is the one found. */
  lemma FetchedRequested(rows: map<string, Product>, requests: seq<ProductRequest>, fetched: seq<Product>)
    requires Fetchable(rows, RequestedIds(requests))
    requires FetchedFrom(rows, RequestedIds(requests), fetched)
    ensures forall j :: 0 <= j < |fetched| ==>
              FindRequest(requests, fetched[j].id).Some? &&
              ProductRequest(fetched[j].id, Requested(requests, fetched[j].id)) in requests
  {
    var ids := RequestedIds(requests);
    forall j | 0 <= j < |fetched|
      ensures FindRequest(requests, fetched[j].id).Some?
      ensures ProductRequest(fetched[j].id, Requested(requests, fetched[j].id)) in requests
    {
      FetchedAsked(rows, ids, fetched, j);
      var i :| 0 <= i < |ids| && ids[i] == fetched[j].id;
      FindRequestDistinct(requests, i);
    }
  }

  /** A passed stock check on a fetched batch writes exactly the requested decrements,
      and leaves every requested product in stock. */
  lemma OrderStock(rows: map<string, Product>, requests: seq<ProductRequest>, fetched: seq<Product>,
                   res: Reservation)
    requires Fetchable(rows, RequestedIds(requests))
    requires FetchedFrom(rows, RequestedIds(requests), fetched)
    requires Reserve(fetched, requests) == Ok(res)
    ensures AllStored(rows, res.updates)
    ensures StockTaken(rows, Overwritten(rows, res.updates), requests)
    ensures InStock(Overwritten(rows, res.updates), requests)
  {
    var ids := RequestedIds(requests);
    ReserveUpdates(fetched, requests);
    ReserveRefusesIff(rows, requests, fetched);
    var updates := res.updates;
    var after := Overwritten(rows, updates);
    forall i | 0 <= i < |requests| && requests[i].id in rows
      ensures after[requests[i].id]
                == rows[requests[i].id].(quantity := rows[requests[i].id].quantity - requests[i].quantity)
    {
      assert ids[i] == requests[i].id;
      FetchedCovers(rows, ids, fetched, i);
      var j :| 0 <= j < |fetched| && fetched[j].id == ids[i];
      FindRequestDistinct(requests, i);
      forall k | j < k < |updates| ensures updates[k].id != updates[j].id {
        assert IdsOf(fetched)[j] == fetched[j].id && IdsOf(fetched)[k] == fetched[k].id;
      }
      OverwrittenHit(rows, updates, j);
    }
    forall id | id in rows && id !in ids ensures after[id] == rows[id] {
      forall j | 0 <= j < |updates| ensures updates[j].id != id {
        FetchedAsked(rows, ids, fetched, j);
      }
      OverwrittenMiss(rows, updates, id);
    }
    forall i | 0 <= i < |requests| ensures requests[i].id in after && after[requests[i].id].quantity > 0 {
      assert ids[i] == requests[i].id;
    }
  }

  /** A passed stock check on a fetched batch yields one line item per request entry, in the
      order of the batch. */
  lemma OrderItems(rows: map<string, Product>, requests: seq<ProductRequest>, fetched: seq<Product>,
                   res: Reservation)
    requires Fetchable(rows, RequestedIds(requests))
    requires FetchedFrom(rows, RequestedIds(requests), fetched)
    requires Reserve(fetched, requests) == Ok(res)
    ensures LineItemsFor(res.items, rows, requests)
    ensures forall j :: 0 <= j < |res.items| ==> res.items[j].productId == fetched[j].id
  {
    var ids := RequestedIds(requests);
    FetchedRequested(rows, requests, fetched);
    ReserveItems(fetched, requests);
    var pairs := Ordered(res.items);
    forall k | k in Elems(pairs) ensures k in Elems(requests) {
      var j :| 0 <= j < |pairs| && pairs[j] == k;
    }
    forall k | k in Elems(requests) ensures k in Elems(pairs) {
      var i :| 0 <= i < |requests| && requests[i] == k;
      assert ids[i] == requests[i].id;
      FetchedCovers(rows, ids, fetched, i);
      var j :| 0 <= j < |fetched| && fetched[j].id == ids[i];
      FindRequestDistinct(requests, i);
      assert pairs[j] == k;
    }
  }

  /** The order service. It reads the customers table (`customers`, the ids it holds),
      writes the products table through `productsRepository` and appends to the orders table. */
  class CreateOrderService {
    const productsRepository: ProductsRepository
    const customers: set<string>
    var orders: seq<Order>

    ghost predicate Valid()
      reads this, productsRepository
    {
      productsRepository.Valid()
    }

    constructor (productsRepository: ProductsRepository, customers: set<string>, orders: seq<Order>)
      requires productsRepository.Valid()
      ensures Valid()
      ensures this.productsRepository == productsRepository
      ensures this.customers == customers && this.orders == orders
    {
      this.productsRepository := productsRepository;
      this.customers := customers;
      this.orders := orders;
    }

    /** Places an order: checks the customer, fetches the requested products in one batch,
        checks and decrements the stock of each, writes the new stock back in one batch and
        records the order. */
    method Execute(customerId: string, requests: seq<ProductRequest>) returns (r: Result<Order>)
      requires Valid()
      modifies this, productsRepository`rows
      ensures Valid()
      ensures r == Err(CustomerNotFound) <==> customerId !in customers
      ensures r == Err(ProductsNotFound) <==>
                customerId in customers && !Fetchable(old(productsRepository.rows), RequestedIds(requests))
      ensures r == Err(InsufficientProductQuantity) <==>
                && customerId in customers
                && Fetchable(old(productsRepository.rows), RequestedIds(requests))
                && Oversold(old(productsRepository.rows), requests)
      ensures r != Err(MissingProduct)
      ensures r.Err? ==> productsRepository.rows == old(productsRepository.rows) && orders == old(orders)
      ensures r.Ok? ==> r.value.customerId == customerId && orders == old(orders) + [r.value]
      ensures r.Ok? ==> StockTaken(old(productsRepository.rows), productsRepository.rows, requests)
      ensures r.Ok? ==> InStock(productsRepository.rows, requests)
      ensures r.Ok? ==> LineItemsFor(r.value.products, old(productsRepository.rows), requests)
    {
      if customerId !in customers {
        return Err(CustomerNotFound);
      }
      ghost var stored := productsRepository.rows;
      var ids := RequestedIds(requests);
      var productsInfo := productsRepository.FindAllById(ids);
      if productsInfo.Err? {
        return Err(productsInfo.error);
      }
      var fetched := productsInfo.value;
      ReserveRefusesIff(stored, requests, fetched);
      ReserveFailsIff(fetched, requests);
      var reserved := ReserveStock(fetched, requests);
      if reserved.Err? {
        return Err(reserved.error);
      }
      OrderStock(stored, requests, fetched, reserved.value);
      OrderItems(stored, requests, fetched, reserved.value);
      var updated := productsRepository.UpdateQuantity(reserved.value.updates);
      assert updated.Ok?;
      var order := Order(customerId, reserved.value.items);
      orders := orders + [order];
      r := Ok(order);
    }
  }

  /** The stock check as the service runs it: one pass over the fetched products that stops
      at the first refused one, decrementing the stock of each requested product and
      collecting its line item. */
  method ReserveStock(fetched: seq<Product>, requests: seq<ProductRequest>) returns (r: Result<Reservation>)
    ensures r == Reserve(fetched, requests)
  {
    var productsToUpdate: seq<QuantityUpdate> := [];
    var productsToOrder: seq<OrderProduct> := [];
    var i := 0;
    while i < |fetched|
      invariant 0 <= i <= |fetched|
      invariant Reserve(fetched[..i], requests) == Ok(Reservation(productsToUpdate, productsToOrder))
    {
      var info := fetched[i];
      ReserveStep(fetched, requests, i, Reservation(productsToUpdate, productsToOrder));
      var productRequest := FindRequest(requests, info.id);
      if productRequest.Some? {
        if productRequest.value.quantity >= info.quantity {
          assert Insufficient(fetched[i], requests);
          ReserveFailsIff(fetched, requests);
          return Err(InsufficientProductQuantity);
        }
        info := info.(quantity := info.quantity - productRequest.value.quantity);
        productsToOrder := productsToOrder + [OrderProduct(productRequest.value.id, info.price, productRequest.value.quantity)];
      }
      productsToUpdate := productsToUpdate + [QuantityUpdate(info.id, info.quantity)];
      i := i + 1;
    }
    assert fetched[..i] == fetched;
    r := Ok(Reservation(productsToUpdate, productsToOrder));
  }
}
