# Order placement over a product table

This project models the order-placement path of a small e-commerce backend and proves
properties of it in Dafny. It has two parts.

- **The product table** (`products.dfy`, module `Products`) is the class `ProductsRepository`.
  It holds a map from product id to `Product(id, name, price, quantity)`, and beside it the row
  order of the table. It supports:
  - `Create`: insert a product;
  - `FindById` and `FindByName`: look up one product;
  - `FindAllById`: batch lookup. It fails with "Product(s) not found" when the number of rows
    found differs from the number of request entries, so duplicate ids fail too;
  - `UpdateQuantity`: overwrite quantities, one entry at a time through `SaveQuantity`. It
    fails with "Missing Product" on an unknown id.
- **The order service** (`orders.dfy`, module `Orders`) is the class `CreateOrderService`.
  `Execute` takes a customer id and a list of `{id, quantity}` request entries. Then it:
  1. rejects an unknown customer;
  2. fetches the requested products in one batch;
  3. runs the stock check over the fetched products (`ReserveStock`, whose meaning is the
     function `Reserve`). A product is refused when its requested quantity is at least its
     stock, so asking for exactly the last units is refused;
  4. writes every new stock back in one `UpdateQuantity` call;
  5. appends the order, with its line items, to the orders table.

`shared.dfy` holds the error values (`AppError`) and the `Result`/`Option` wrappers that
replace thrown errors and `undefined`. `collections.dfy` holds sequence facts: distinctness,
the set of a sequence's elements, and how the two relate in size.

How the batch lookup decides (`ProductsRepository.ts` lines 51-58):
- `findAllById` itself raises "Product(s) not found".
- It compares the row count with the raw number of request entries. So a request that names a
  product twice is refused even when that product exists.

Behaviour worth knowing:
- Request quantities are not validated. A zero or negative quantity is not rejected for being
  non-positive. Like any quantity, it passes exactly when it is below the stock, and a negative
  one raises the stock.
- An empty request is one-for-one with any table. It passes the stock check, leaves the table
  untouched and records an order with no line items. What the database does with an empty
  `IN ()` list is not modelled.
- Because the batch lookup rejects repeated ids, every request entry that reaches the stock
  check names a different product.
- The stock check runs before the single write. So a refused order leaves the product table
  exactly as it was, and no order is recorded.

## Model

| member | source | states |
|---|---|---|
| Products.ProductsRepository.Create | src/modules/products/infra/typeorm/repositories/ProductsRepository.ts:20-34 | the new product carries exactly the given name, price and quantity under a fresh id and is returned; every product already stored is unchanged |
| Products.ProductsRepository.FindByName | src/modules/products/infra/typeorm/repositories/ProductsRepository.ts:36-44 | a result is a stored product with that name; there is no result exactly when no stored product has the name |
| Products.ProductsRepository.FindById | src/modules/products/infra/typeorm/repositories/ProductsRepository.ts:46-49 | there is a result exactly when the id is stored, and it is the stored product with that id |
| Products.ProductsRepository.FindAllById | src/modules/products/infra/typeorm/repositories/ProductsRepository.ts:51-61 | succeeds exactly when the request ids are pairwise distinct and all stored; otherwise fails with "Product(s) not found". On success it returns one stored product per request entry, none twice, and exactly the requested ids |
| Products.SelectedCount | src/modules/products/infra/typeorm/repositories/ProductsRepository.ts:52-56 | an `id IN (...)` query returns at most as many rows as there are request entries, and exactly as many when the entries are distinct and all stored; this is the count comparison's meaning |
| Products.SelectedDistinct | src/modules/products/infra/typeorm/repositories/ProductsRepository.ts:52-54 | the query returns each stored row at most once |
| Products.SelectedAnswers | src/modules/products/infra/typeorm/repositories/ProductsRepository.ts:52-60 | when the counts agree, the rows returned answer the batch one-for-one |
| Products.ProductsRepository.SaveQuantity | src/modules/products/infra/typeorm/repositories/ProductsRepository.ts:68-77 | fails with "Missing Product" exactly when the id is not stored, and then changes nothing; otherwise only that product's quantity is overwritten with the given value, and the updated product is returned |
| Products.ProductsRepository.UpdateQuantity | src/modules/products/infra/typeorm/repositories/ProductsRepository.ts:63-82 | succeeds exactly when every listed id is stored, and otherwise fails with "Missing Product". On success the table is the old one with each listed quantity overwritten, and the result holds one updated product per entry, in input order, with name and price unchanged |
| Products.Overwritten | src/modules/products/infra/typeorm/repositories/ProductsRepository.ts:66-79 | a batch of quantity writes keeps the set of stored ids |
| Products.OverwrittenKeeps | src/modules/products/infra/typeorm/repositories/ProductsRepository.ts:71-72 | a batch of quantity writes changes no stored product's id, name or price |
| Products.OverwrittenHit | src/modules/products/infra/typeorm/repositories/ProductsRepository.ts:67-72 | a listed product ends with the quantity of its last entry: an overwrite, not a decrement |
| Products.OverwrittenMiss | src/modules/products/infra/typeorm/repositories/ProductsRepository.ts:63-82 | a product not listed keeps its stored state |
| Orders.FindRequest | src/modules/orders/services/CreateOrderService.ts:50-52 | finds nothing exactly when no request entry has the id; what it finds is a request entry with that id |
| Orders.FindRequestFirst | src/modules/orders/services/CreateOrderService.ts:50-52 | the lookup returns the first request entry with the id, as `Array.prototype.find` does, repeated ids included |
| Orders.Reserve | src/modules/orders/services/CreateOrderService.ts:49-68 | the stock check fails only with "Insufficient product quantity"; when it passes it yields one new stock per fetched product and at most one line item per fetched product |
| Orders.FindRequestDistinct | src/modules/orders/services/CreateOrderService.ts:50-52 | in a request without repeated ids, looking up an entry's id yields that entry |
| Orders.ReserveFailsIff | src/modules/orders/services/CreateOrderService.ts:49-68 | the stock check fails exactly when some fetched product's request entry asks for at least its stock, and then with "Insufficient product quantity" |
| Orders.ReserveUpdates | src/modules/orders/services/CreateOrderService.ts:49-68 | a passed check yields one new stock per fetched product, in fetched order: its stock less the requested quantity, which is strictly positive for every requested product |
| Orders.ReserveItems | src/modules/orders/services/CreateOrderService.ts:54-64 | when every fetched product was requested, a passed check yields one line item per fetched product, in fetched order, with its id, its stored price and the requested quantity |
| Orders.ReserveStock | src/modules/orders/services/CreateOrderService.ts:49-68 | the loop over the fetched products computes exactly the stock check `Reserve`, stopping at the first refused product |
| Orders.ReserveRefusesIff | src/modules/orders/services/CreateOrderService.ts:46-56 | on a fetched batch, the check refuses the order exactly when some request entry asks for at least the stored quantity of its product |
| Orders.FetchedRequested | src/modules/orders/services/CreateOrderService.ts:46-54 | every product of a fetched batch has a request entry, and the lookup finds it |
| Orders.OrderStock | src/modules/orders/services/CreateOrderService.ts:55-70 | writing back a passed check's stocks lowers each requested product by exactly its requested quantity, leaves it in stock and keeps its name and price; every other product is untouched |
| Orders.OrderItems | src/modules/orders/services/CreateOrderService.ts:49-68 | a passed check's line items are one per request entry, in the order of the batch lookup. Between them they carry exactly the requested (id, quantity) pairs, each at its stored price |
| Orders.CreateOrderService.Execute | src/modules/orders/services/CreateOrderService.ts:39-78 | "Customer not found" exactly for an unknown customer; "Product(s) not found" exactly for a known customer whose request is not one-for-one with the table; "Insufficient product quantity" exactly when, beyond that, some entry asks for at least its stock. "Missing Product" never arises. A failure changes neither the product table nor the orders. On success the order carries the customer and the line items and is appended to the orders; each requested stock drops by the requested quantity and stays positive; every other product is unchanged |

## Left out

- Dependency injection is replaced by constructor arguments. TypeORM's repository, `find` / `findOne` / `save` and the database become operations on a map.
- `async`/`await` and `Promise.all` are modelled as one sequential pass; concurrent orders racing on the same stock are not modelled.
- Products.ProductsRepository.UpdateQuantity: when it fails, the model states only that no product appears or disappears. Which earlier entries were already saved depends on the scheduling of the concurrent saves.
- The customers and orders repositories are not part of this model. The customers table is a set of ids. The orders table is a list that `Execute` appends to; an order holds the customer's id rather than the customer record, and has no generated id or timestamps.
- The database-generated product id is an argument of `Create`, which requires it to be unused.
- Prices are JavaScript numbers that are only copied, so they are modelled as `real`. Quantities are unbounded integers; fractional, non-finite and very large numbers are not modelled.
- A `WHERE id IN (...)` query has no defined row order. The model returns rows in insertion order.
- The source decrements each fetched product's quantity in place (`CreateOrderService.ts` line 58). The model computes new values instead. The fetched products are copies, not the stored rows, so no other state is affected.
- Orders.CreateOrderService.Execute: its own contract does not state the order of line items and stock writes. `Orders.OrderItems` and `Orders.ReserveUpdates` state it (the order of the batch lookup).
- The stock-check loop is the method `Orders.ReserveStock`, which `Execute` calls. In the source the loop sits inline as the callback of `map`.
