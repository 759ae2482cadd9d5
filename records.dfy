/**
 * The per-node row mapping of the three fetchers and the orders filter bound.
 * `JSON.stringify(n)` is represented by the node's own `json` text.
 */
module Records {
  import opened Wrappers
  import opened Rows
  import GlobalId

  /** `n.totalPriceSet.shopMoney.amount`, with the two ways the path can hit `null`. */
  datatype PriceSet = PriceSetNull | ShopMoneyNull | Amount(amount: Value)

  datatype OrderNode = OrderNode(
    id: string, name: Value, orderNumber: Value, createdAt: Value, updatedAt: Value,
    totalPriceSet: PriceSet, customer: Option<string>, json: string)

  datatype ProductNode = ProductNode(id: string, title: Value, createdAt: Value, updatedAt: Value, json: string)

  datatype CustomerNode = CustomerNode(id: string, email: Value, createdAt: Value, updatedAt: Value, json: string)

  /** The `TypeError` messages thrown when the price path meets `null`. */
  const ReadShopMoneyOfNull: string := "Cannot read properties of null (reading 'shopMoney')"
  const ReadAmountOfNull: string := "Cannot read properties of null (reading 'amount')"

  /** `extractId(…)` as the value stored in a row: a number, or `null`. */
  function IdValue(gid: string): (v: Value)
    ensures v == Null <==> GlobalId.ExtractId(gid).None?
    ensures v != Null ==> v == Int(GlobalId.ExtractId(gid).value)
  {
    match GlobalId.ExtractId(gid)
    case Some(n) => Int(n)
    case None => Null
  }

  /** A global id ending in `/` and the digits of `n` is stored as the number `n`. */
  lemma IdValueRoundTrip(prefix: string, n: nat)
    ensures IdValue(prefix + "/" + GlobalId.Decimal(n)) == Int(n)
  {
    GlobalId.ExtractIdRoundTrip(prefix, n);
  }

  /** A global id whose last segment is empty or not all digits is stored as `null`. */
  lemma IdValueRejects(head: string, tail: string)
    requires '/' !in tail
    requires tail == [] || !GlobalId.AllDigits(tail)
    ensures IdValue(head + "/" + tail) == Null
  {
    GlobalId.ExtractIdRejects(head, tail);
  }

  const OrderColumns: seq<string> := ["Id", "OrderNumber", "CustomerId", "CreatedAt", "UpdatedAt", "TotalPrice", "RawJSON"]
  const ProductColumns: seq<string> := ["Id", "Title", "CreatedAt", "UpdatedAt", "RawJSON"]
  const CustomerColumns: seq<string> := ["Id", "Email", "CreatedAt", "UpdatedAt", "RawJSON"]

  /**
   * The object pushed for one order node. Reading the price throws when
   * `totalPriceSet` or `shopMoney` is `null`; every other field maps without error.
   */
  function MapOrder(n: OrderNode): (r: Result<Row>)
    ensures r.Ok? <==> n.totalPriceSet.Amount?
    ensures n.totalPriceSet.PriceSetNull? ==> r == Err(ReadShopMoneyOfNull)
    ensures n.totalPriceSet.ShopMoneyNull? ==> r == Err(ReadAmountOfNull)
    ensures r.Ok? ==> Names(r.value) == OrderColumns
    ensures r.Ok? ==> r.value[0].value == IdValue(n.id)
    ensures r.Ok? ==> r.value[1].value == if Truthy(n.orderNumber) then n.orderNumber else n.name
    ensures r.Ok? ==> (r.value[2].value == Null <==> n.customer.None? || GlobalId.ExtractId(n.customer.value).None?)
    ensures r.Ok? && n.customer.Some? ==> r.value[2].value == IdValue(n.customer.value)
    ensures r.Ok? ==> r.value[3].value == n.createdAt && r.value[4].value == n.updatedAt
    ensures r.Ok? ==> r.value[5].value == n.totalPriceSet.amount
    ensures r.Ok? ==> r.value[6].value == Str(n.json)
  {
    match n.totalPriceSet
    case PriceSetNull => Err(ReadShopMoneyOfNull)
    case ShopMoneyNull => Err(ReadAmountOfNull)
    case Amount(amount) =>
      Ok([
        Field("Id", IdValue(n.id)),
        Field("OrderNumber", if Truthy(n.orderNumber) then n.orderNumber else n.name),
        Field("CustomerId", if n.customer.Some? then IdValue(n.customer.value) else Null),
        Field("CreatedAt", n.createdAt),
        Field("UpdatedAt", n.updatedAt),
        Field("TotalPrice", amount),
        Field("RawJSON", Str(n.json))])
  }

  /** The object pushed for one product node; it cannot throw. */
  function MapProduct(n: ProductNode): (r: Result<Row>)
    ensures r.Ok? && Names(r.value) == ProductColumns
    ensures r.value[0].value == IdValue(n.id) && r.value[1].value == n.title
    ensures r.value[2].value == n.createdAt && r.value[3].value == n.updatedAt
    ensures r.value[4].value == Str(n.json)
  {
    Ok([Field("Id", IdValue(n.id)), Field("Title", n.title), Field("CreatedAt", n.createdAt),
        Field("UpdatedAt", n.updatedAt), Field("RawJSON", Str(n.json))])
  }

  /** The object pushed for one customer node; it cannot throw. */
  function MapCustomer(n: CustomerNode): (r: Result<Row>)
    ensures r.Ok? && Names(r.value) == CustomerColumns
    ensures r.value[0].value == IdValue(n.id) && r.value[1].value == n.email
    ensures r.value[2].value == n.createdAt && r.value[3].value == n.updatedAt
    ensures r.value[4].value == Str(n.json)
  {
    Ok([Field("Id", IdValue(n.id)), Field("Email", n.email), Field("CreatedAt", n.createdAt),
        Field("UpdatedAt", n.updatedAt), Field("RawJSON", Str(n.json))])
  }

  /** The largest distance from the epoch, in milliseconds, that a JavaScript `Date` can hold. */
  const MaxTime: int := 8_640_000_000_000_000

  /** The `RangeError` message `toISOString` throws for a `Date` outside that range. */
  const InvalidTimeValue: string := "Invalid time value"

  /**
   * `updatedMin`: the lower bound of the `updated_at:>=` filter, present only when
   * `hours` is truthy. `None` for `hours` stands for `undefined` and for the `NaN`
   * that `parseInt` returns on text that is not a number. A bound outside the
   * range of a `Date` makes `toISOString` throw, before any request is sent.
   */
  function OrdersFilter(hours: Option<int>, now: int): (since: Result<Option<int>>)
    ensures since == Ok(None) <==> hours.None? || hours.value == 0
    ensures since.Err? <==> hours.Some? && hours.value != 0 && !(-MaxTime <= now - hours.value * 3600 * 1000 <= MaxTime)
    ensures since.Err? ==> since.message == InvalidTimeValue
    ensures since.Ok? && since.value.Some? ==>
      && hours.Some? && since.value.value == now - hours.value * 3600 * 1000
      && -MaxTime <= since.value.value <= MaxTime
  {
    if hours.None? || hours.value == 0 then Ok(None)
    else
      var bound := now - hours.value * 3600 * 1000;
      if -MaxTime <= bound <= MaxTime then Ok(Some(bound)) else Err(InvalidTimeValue)
  }

  /**
   * With a clock inside the `Date` range, a look-back of up to 2.4 billion hours
   * gives a bound before now, and one of more than 4.8 billion hours throws.
   */
  lemma OrdersFilterRange(hours: int, now: int)
    requires 0 <= now <= MaxTime
    ensures 0 < hours <= 2_400_000_000 ==>
      OrdersFilter(Some(hours), now).Ok? && OrdersFilter(Some(hours), now).value.Some?
      && OrdersFilter(Some(hours), now).value.value < now
    ensures hours > 4_800_000_000 ==> OrdersFilter(Some(hours), now) == Err(InvalidTimeValue)
  {
  }

  /**
   * The object a sync builds from a fetched row before writing it: the named
   * properties of the row, in the order given (a missing one reads as `null`).
   */
  function Item(row: Row, columns: seq<string>): (item: Row)
    ensures Names(item) == columns
  {
    seq(|columns|, i requires 0 <= i < |columns| =>
      Field(columns[i], if columns[i] in Bindings(row) then Bindings(row)[columns[i]] else Null))
  }

  /** A row whose names are exactly `columns`, all different, is rebuilt as itself. */
  lemma ItemOfRow(row: Row, columns: seq<string>)
    requires Names(row) == columns && DistinctNames(row)
    ensures Item(row, columns) == row
  {
    BindingsOfRow(row);
    var item := Item(row, columns);
    forall i | 0 <= i < |row|
      ensures item[i] == row[i]
    {
      assert columns[i] == row[i].name;
    }
  }

  /** The item `syncOrders` writes is the row `fetchOrders` pushed: the same properties, values and order. */
  lemma SyncOrderItem(o: OrderNode)
    ensures MapOrder(o).Ok? ==> Item(MapOrder(o).value, OrderColumns) == MapOrder(o).value
  {
    if MapOrder(o).Ok? {
      ItemOfRow(MapOrder(o).value, OrderColumns);
    }
  }

  /** The item `syncProducts` writes is the row `fetchProducts` pushed. */
  lemma SyncProductItem(p: ProductNode)
    ensures Item(MapProduct(p).value, ProductColumns) == MapProduct(p).value
  {
    ItemOfRow(MapProduct(p).value, ProductColumns);
  }

  /** The item `syncCustomers` writes is the row `fetchCustomers` pushed. */
  lemma SyncCustomerItem(c: CustomerNode)
    ensures Item(MapCustomer(c).value, CustomerColumns) == MapCustomer(c).value
  {
    ItemOfRow(MapCustomer(c).value, CustomerColumns);
  }
}
