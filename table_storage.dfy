/** The entity store: an in-memory model of the two tables ("Customers" and
    "Products") that TableStorageService reads and writes. A table is a map
    from the row address (PartitionKey, RowKey) to the entity stored there. */
module TableStorage {
  import opened Wrappers
  import opened Int32Math

  /** The address of a row: (PartitionKey, RowKey). */
  datatype Key = Key(partitionKey: string, rowKey: string)

  /** A row of the "Customers" table. Timestamp and ETag are kept by the
      service, not by the application, and are not modelled. */
  datatype CustomerEntity = CustomerEntity(
    partitionKey: string,
    rowKey: string,
    name: string,
    email: string,
    address: string,
    phoneNumber: string,
    profilePictureUrl: string,
    uploadPdfUrl: string)

  /** A row of the "Products" table. The price is carried, never computed on. */
  datatype ProductEntity = ProductEntity(
    partitionKey: string,
    rowKey: string,
    name: string,
    description: string,
    imageUrl: string,
    price: real,
    quantityInStock: Int32)

  function CustomerKeyOf(c: CustomerEntity): Key { Key(c.partitionKey, c.rowKey) }

  function ProductKeyOf(p: ProductEntity): Key { Key(p.partitionKey, p.rowKey) }

  /** The errors a table operation lets escape to its caller (it logs and rethrows them). */
  datatype StoreError =
    | EntityNotFound       // 404 from replacing a row that does not exist
    | EntityAlreadyExists  // 409 from adding a row whose key is taken
    | StoreUnavailable     // any other failure of the service call

  /** Every row is stored under its own (PartitionKey, RowKey). */
  ghost predicate WellKeyed<E>(table: map<Key, E>, keyOf: E -> Key) {
    forall k :: k in table ==> keyOf(table[k]) == k
  }

  /** The loop of GetAll*Async: walks the query results and appends each row to
      a list. The service's own result order is not modelled: rows come out in
      an unspecified order, each exactly once. */
  method CollectRows<E>(table: map<Key, E>, keyOf: E -> Key) returns (rows: seq<E>)
    requires WellKeyed(table, keyOf)
    ensures forall i :: 0 <= i < |rows| ==> keyOf(rows[i]) in table && table[keyOf(rows[i])] == rows[i]
    ensures forall i, j :: 0 <= i < j < |rows| ==> keyOf(rows[i]) != keyOf(rows[j])
    ensures forall k :: k in table ==> table[k] in rows
  {
    rows := [];
    var pending := table.Keys;
    while pending != {}
      invariant pending <= table.Keys
      invariant forall i :: 0 <= i < |rows| ==> keyOf(rows[i]) in table.Keys - pending && table[keyOf(rows[i])] == rows[i]
      invariant forall i, j :: 0 <= i < j < |rows| ==> keyOf(rows[i]) != keyOf(rows[j])
      invariant forall k :: k in table.Keys - pending ==> table[k] in rows
      decreases pending
    {
      var k :| k in pending;
      rows := rows + [table[k]];
      pending := pending - {k};
    }
  }

  /** The store as the application sees it. Each operation may also fail for
      reasons outside the model (network, throttling, a key the service
      refuses); the caller says so with `outage`, and the operation then
      changes nothing and raises StoreUnavailable. */
  class TableStorageService {
    var customers: map<Key, CustomerEntity>
    var products: map<Key, ProductEntity>

    ghost predicate Valid()
      reads this
    {
      WellKeyed(customers, CustomerKeyOf) && WellKeyed(products, ProductKeyOf)
    }

    constructor (customers: map<Key, CustomerEntity>, products: map<Key, ProductEntity>)
      requires WellKeyed(customers, CustomerKeyOf) && WellKeyed(products, ProductKeyOf)
      ensures Valid()
      ensures this.customers == customers && this.products == products
    {
      this.customers := customers;
      this.products := products;
    }

    // ---- Customer operations: the "Customers" table only ----

    /** A missing row (404) yields None; any other failure is raised. */
    method GetCustomer(partitionKey: string, rowKey: string, outage: bool)
      returns (r: Result<Option<CustomerEntity>, StoreError>)
      requires Valid()
      ensures outage ==> r == Failure(StoreUnavailable)
      ensures !outage && Key(partitionKey, rowKey) !in customers ==> r == Success(None)
      ensures !outage && Key(partitionKey, rowKey) in customers ==>
                r.Success? && r.value.Some? && r.value.value == customers[Key(partitionKey, rowKey)]
      ensures r.Success? && r.value.Some? ==> CustomerKeyOf(r.value.value) == Key(partitionKey, rowKey)
    {
      if outage {
        return Failure(StoreUnavailable);
      }
      var k := Key(partitionKey, rowKey);
      if k in customers {
        r := Success(Some(customers[k]));
      } else {
        r := Success(None);
      }
    }

    method AddCustomer(customer: CustomerEntity, outage: bool) returns (r: Outcome<StoreError>)
      requires Valid()
      modifies this
      ensures Valid()
      ensures products == old(products)
      ensures outage ==> r == Fail(StoreUnavailable) && customers == old(customers)
      ensures !outage && CustomerKeyOf(customer) in old(customers) ==>
                r == Fail(EntityAlreadyExists) && customers == old(customers)
      ensures !outage && CustomerKeyOf(customer) !in old(customers) ==>
                r == Pass && customers == old(customers)[CustomerKeyOf(customer) := customer]
    {
      var k := CustomerKeyOf(customer);
      if outage {
        r := Fail(StoreUnavailable);
      } else if k in customers {
        r := Fail(EntityAlreadyExists);
      } else {
        customers := customers[k := customer];
        r := Pass;
      }
    }

    /** Unconditional whole-row replacement (ETag.All, Replace mode): no
        concurrency check, every field of the stored row is overwritten. */
    method UpdateCustomer(customer: CustomerEntity, outage: bool) returns (r: Outcome<StoreError>)
      requires Valid()
      modifies this
      ensures Valid()
      ensures products == old(products)
      ensures outage ==> r == Fail(StoreUnavailable) && customers == old(customers)
      ensures !outage && CustomerKeyOf(customer) !in old(customers) ==>
                r == Fail(EntityNotFound) && customers == old(customers)
      ensures !outage && CustomerKeyOf(customer) in old(customers) ==>
                r == Pass && customers == old(customers)[CustomerKeyOf(customer) := customer]
    {
      var k := CustomerKeyOf(customer);
      if outage {
        r := Fail(StoreUnavailable);
      } else if k !in customers {
        r := Fail(EntityNotFound);
      } else {
        customers := customers[k := customer];
        r := Pass;
      }
    }

    /** Removes the row; deleting a row that is not there is not an error. */
    method DeleteCustomer(partitionKey: string, rowKey: string, outage: bool) returns (r: Outcome<StoreError>)
      requires Valid()
      modifies this
      ensures Valid()
      ensures products == old(products)
      ensures outage ==> r == Fail(StoreUnavailable) && customers == old(customers)
      ensures !outage ==> r == Pass && customers == old(customers) - {Key(partitionKey, rowKey)}
    {
      if outage {
        r := Fail(StoreUnavailable);
      } else {
        customers := customers - {Key(partitionKey, rowKey)};
        r := Pass;
      }
    }

    method GetAllCustomers(outage: bool) returns (r: Result<seq<CustomerEntity>, StoreError>)
      requires Valid()
      ensures outage ==> r == Failure(StoreUnavailable)
      ensures !outage ==> r.Success?
      ensures r.Success? ==> forall i :: 0 <= i < |r.value| ==>
                CustomerKeyOf(r.value[i]) in customers && customers[CustomerKeyOf(r.value[i])] == r.value[i]
      ensures r.Success? ==> forall i, j :: 0 <= i < j < |r.value| ==>
                CustomerKeyOf(r.value[i]) != CustomerKeyOf(r.value[j])
      ensures r.Success? ==> forall k :: k in customers ==> customers[k] in r.value
    {
      if outage {
        return Failure(StoreUnavailable);
      }
      var rows := CollectRows(customers, CustomerKeyOf);
      r := Success(rows);
    }

    // ---- Product operations: the "Products" table only ----

    /** A missing row (404) yields None; any other failure is raised. */
    method GetProduct(partitionKey: string, rowKey: string, outage: bool)
      returns (r: Result<Option<ProductEntity>, StoreError>)
      requires Valid()
      ensures outage ==> r == Failure(StoreUnavailable)
      ensures !outage && Key(partitionKey, rowKey) !in products ==> r == Success(None)
      ensures !outage && Key(partitionKey, rowKey) in products ==>
                r.Success? && r.value.Some? && r.value.value == products[Key(partitionKey, rowKey)]
      ensures r.Success? && r.value.Some? ==> ProductKeyOf(r.value.value) == Key(partitionKey, rowKey)
    {
      if outage {
        return Failure(StoreUnavailable);
      }
      var k := Key(partitionKey, rowKey);
      if k in products {
        r := Success(Some(products[k]));
      } else {
        r := Success(None);
      }
    }

    method AddProduct(product: ProductEntity, outage: bool) returns (r: Outcome<StoreError>)
      requires Valid()
      modifies this
      ensures Valid()
      ensures customers == old(customers)
      ensures outage ==> r == Fail(StoreUnavailable) && products == old(products)
      ensures !outage && ProductKeyOf(product) in old(products) ==>
                r == Fail(EntityAlreadyExists) && products == old(products)
      ensures !outage && ProductKeyOf(product) !in old(products) ==>
                r == Pass && products == old(products)[ProductKeyOf(product) := product]
    {
      var k := ProductKeyOf(product);
      if outage {
        r := Fail(StoreUnavailable);
      } else if k in products {
        r := Fail(EntityAlreadyExists);
      } else {
        products := products[k := product];
        r := Pass;
      }
    }

    /** Unconditional whole-row replacement (ETag.All, Replace mode). */
    method UpdateProduct(product: ProductEntity, outage: bool) returns (r: Outcome<StoreError>)
      requires Valid()
      modifies this
      ensures Valid()
      ensures customers == old(customers)
      ensures outage ==> r == Fail(StoreUnavailable) && products == old(products)
      ensures !outage && ProductKeyOf(product) !in old(products) ==>
                r == Fail(EntityNotFound) && products == old(products)
      ensures !outage && ProductKeyOf(product) in old(products) ==>
                r == Pass && products == old(products)[ProductKeyOf(product) := product]
    {
      var k := ProductKeyOf(product);
      if outage {
        r := Fail(StoreUnavailable);
      } else if k !in products {
        r := Fail(EntityNotFound);
      } else {
        products := products[k := product];
        r := Pass;
      }
    }

    /** Removes the row; deleting a row that is not there is not an error. */
    method DeleteProduct(partitionKey: string, rowKey: string, outage: bool) returns (r: Outcome<StoreError>)
      requires Valid()
      modifies this
      ensures Valid()
      ensures customers == old(customers)
      ensures outage ==> r == Fail(StoreUnavailable) && products == old(products)
      ensures !outage ==> r == Pass && products == old(products) - {Key(partitionKey, rowKey)}
    {
      if outage {
        r := Fail(StoreUnavailable);
      } else {
        products := products - {Key(partitionKey, rowKey)};
        r := Pass;
      }
    }

    method GetAllProducts(outage: bool) returns (r: Result<seq<ProductEntity>, StoreError>)
      requires Valid()
      ensures outage ==> r == Failure(StoreUnavailable)
      ensures !outage ==> r.Success?
      ensures r.Success? ==> forall i :: 0 <= i < |r.value| ==>
                ProductKeyOf(r.value[i]) in products && products[ProductKeyOf(r.value[i])] == r.value[i]
      ensures r.Success? ==> forall i, j :: 0 <= i < j < |r.value| ==>
                ProductKeyOf(r.value[i]) != ProductKeyOf(r.value[j])
      ensures r.Success? ==> forall k :: k in products ==> products[k] in r.value
    {
      if outage {
        return Failure(StoreUnavailable);
      }
      var rows := CollectRows(products, ProductKeyOf);
      r := Success(rows);
    }
  }

  /** Round trip of the store's contract: after a successful replacement of a
      row, reading that row gives back exactly the entity written, and the
      other table is untouched. */
  method UpdateThenGetProduct(store: TableStorageService, product: ProductEntity)
    returns (written: Outcome<StoreError>, read: Result<Option<ProductEntity>, StoreError>)
    requires store.Valid()
    requires ProductKeyOf(product) in store.products
    modifies store
    ensures written == Pass
    ensures read == Success(Some(product))
    ensures store.customers == old(store.customers)
  {
    written := store.UpdateProduct(product, false);
    read := store.GetProduct(product.partitionKey, product.rowKey, false);
  }

  /** After a delete, reading the row gives the 404 answer, None. */
  method DeleteThenGetProduct(store: TableStorageService, partitionKey: string, rowKey: string)
    returns (deleted: Outcome<StoreError>, read: Result<Option<ProductEntity>, StoreError>)
    requires store.Valid()
    modifies store
    ensures deleted == Pass
    ensures read == Success(None)
    ensures store.customers == old(store.customers)
  {
    deleted := store.DeleteProduct(partitionKey, rowKey, false);
    read := store.GetProduct(partitionKey, rowKey, false);
  }
}
