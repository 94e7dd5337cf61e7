/**
 * The order lifecycle: OrderStatus, the Order and OrderItem entities, and
 * OrderServiceImpl's createOrder / cancelOrder / updateOrderStatus /
 * payment queries over an in-memory shop (users, products, orders).
 *
 * The service class is transactional, so a call that throws leaves the
 * shop exactly as it was: every operation returns either the whole new
 * shop or a Failure.
 */
module Orders {
  import opened Wrappers
  import opened JavaStrings
  import opened JavaLists
  import opened ResultCodes
  import opened Catalog

  /** The ten constants of OrderStatus, in declaration order. */
  datatype OrderStatus =
    | PendingPayment | Processing | AwaitingShipment | Shipped | Delivered
    | Completed | Cancelled | RefundPending | Refunded | Failed

  /** Orders from 99.00 ship free; cheaper ones pay 10.00 (amounts in cents). */
  const FreeFreightThreshold: int := 9900
  const StandardFreight: int := 1000

  // ---------------------------------------------------------------------
  // OrderItem

  /** An order line: a snapshot of the product at ordering time. */
  datatype OrderItem = OrderItem(
    orderRef: Option<nat>,
    productId: Option<nat>,
    productName: string,
    productImage: string,
    productSpecs: Option<string>,
    quantity: Option<int>,
    unitPrice: Option<int>,
    subtotal: int)

  /** OrderItem.calculateSubtotal. */
  function CalculateSubtotal(item: OrderItem): (r: OrderItem)
    ensures r == item.(subtotal := r.subtotal)
    ensures item.unitPrice.Some? && item.quantity.Some? && item.quantity.value > 0
            ==> r.subtotal == item.unitPrice.value * item.quantity.value
    ensures !(item.unitPrice.Some? && item.quantity.Some? && item.quantity.value > 0) ==> r.subtotal == 0
  {
    if item.unitPrice.Some? && item.quantity.Some? && item.quantity.value > 0 then
      item.(subtotal := item.unitPrice.value * item.quantity.value)
    else
      item.(subtotal := 0)
  }

  /** With a non-negative unit price a subtotal is never negative. */
  lemma SubtotalNonNegative(item: OrderItem)
    requires item.unitPrice.Some? ==> item.unitPrice.value >= 0
    ensures CalculateSubtotal(item).subtotal >= 0
  {
    var r := CalculateSubtotal(item);
    if item.unitPrice.Some? && item.quantity.Some? && item.quantity.value > 0 {
      assert r.subtotal == item.unitPrice.value * item.quantity.value;
    }
  }

  /** new OrderItem(order, product, quantity, specs): copies the product's name, image and price. */
  function SnapshotItem(order: Option<nat>, product: Product, quantity: Option<int>, specs: Option<string>): (item: OrderItem)
    ensures item.productId == Some(product.id) && item.orderRef == order
    ensures item.productName == product.name && item.productImage == product.imageUrl
    ensures item.unitPrice == Some(product.price) && item.quantity == quantity && item.productSpecs == specs
    ensures quantity.Some? && quantity.value > 0 ==> item.subtotal == product.price * quantity.value
    ensures !(quantity.Some? && quantity.value > 0) ==> item.subtotal == 0
  {
    CalculateSubtotal(OrderItem(order, Some(product.id), product.name, product.imageUrl, specs, quantity, Some(product.price), 0))
  }

  /** new OrderItem(product, quantity, specs): the same snapshot, but a null product is rejected. */
  function SnapshotItemWithoutOrder(product: Option<Product>, quantity: Option<int>, specs: Option<string>): (r: Result<OrderItem, Failure>)
    ensures product.None? <==> r.Err?
    ensures r.Err? ==> r.error == IllegalArgument
    ensures r.Ok? ==> r.value == SnapshotItem(None, product.value, quantity, specs)
  {
    match product
    case None => Err(IllegalArgument)
    case Some(p) => Ok(SnapshotItem(None, p, quantity, specs))
  }

  // ---------------------------------------------------------------------
  // Order

  /** The receiver columns copied verbatim from the request. */
  datatype Receiver = Receiver(
    name: Option<string>, phone: Option<string>, province: Option<string>,
    city: Option<string>, district: Option<string>, postalCode: Option<string>)

  datatype Order = Order(
    id: nat,
    orderNo: string,
    buyerId: nat,
    items: seq<OrderItem>,
    totalAmount: int,
    payAmount: int,
    freightAmount: int,
    payType: Option<int>,
    status: OrderStatus,
    shippingAddress: Option<string>,
    receiver: Receiver,
    note: Option<string>,
    confirmStatus: int,
    payTime: Option<int>,
    deliveryTime: Option<int>,
    receiveTime: Option<int>)

  const NoReceiver: Receiver := Receiver(None, None, None, None, None, None)

  /**
   * `new Order()` with its key columns set: no items, freight 0,
   * confirmStatus 0 and none of the timestamps.
   */
  function NewOrder(id: nat, orderNo: string, buyerId: nat, status: OrderStatus): (o: Order)
    ensures o.items == [] && o.freightAmount == 0 && o.confirmStatus == 0
    ensures o.payTime.None? && o.deliveryTime.None? && o.receiveTime.None?
    ensures o.id == id && o.orderNo == orderNo && o.buyerId == buyerId && o.status == status
  {
    Order(id, orderNo, buyerId, [], 0, 0, 0, None, status, None, NoReceiver, None, 0, None, None, None)
  }

  /** Every line of the order points back at it. */
  predicate ItemsLinked(o: Order) {
    forall i :: 0 <= i < |o.items| ==> o.items[i].orderRef == Some(o.id)
  }

  /** Order.addItem: null is ignored; otherwise the line is appended and linked to the order. */
  function AddItem(o: Order, item: Option<OrderItem>): (r: (Order, Option<OrderItem>))
    ensures item.None? ==> r == (o, item)
    ensures item.Some? ==> r.1 == Some(item.value.(orderRef := Some(o.id)))
    ensures item.Some? ==> r.0 == o.(items := o.items + [item.value.(orderRef := Some(o.id))])
    ensures ItemsLinked(o) ==> ItemsLinked(r.0)
  {
    match item
    case None => (o, item)
    case Some(it) =>
      var linked := it.(orderRef := Some(o.id));
      (o.(items := o.items + [linked]), Some(linked))
  }

  /** Order.removeItem: null is ignored; otherwise the first equal line is removed and unlinked. */
  function RemoveItem(o: Order, item: Option<OrderItem>): (r: (Order, Option<OrderItem>))
    ensures item.None? ==> r == (o, item)
    ensures item.Some? ==> r.1 == Some(item.value.(orderRef := None))
    ensures item.Some? ==> multiset(r.0.items) == multiset(o.items) - multiset{item.value}
    ensures r.0 == o.(items := r.0.items)
    ensures ItemsLinked(o) ==> ItemsLinked(r.0)
  {
    match item
    case None => (o, item)
    case Some(it) =>
      var rest := RemoveFirst(o.items, it);
      assert ItemsLinked(o) ==> forall i :: 0 <= i < |rest| ==> rest[i].orderRef == Some(o.id) by {
        if ItemsLinked(o) {
          forall i | 0 <= i < |rest| ensures rest[i].orderRef == Some(o.id) {
            assert rest[i] in o.items;
          }
        }
      }
      (o.(items := rest), Some(it.(orderRef := None)))
  }

  /** Adding a line that is not yet in the order and removing it again restores the order. */
  lemma AddThenRemoveItem(o: Order, it: OrderItem)
    requires it.(orderRef := Some(o.id)) !in o.items
    ensures var (o1, stored) := AddItem(o, Some(it));
      RemoveItem(o1, stored).0 == o && RemoveItem(o1, stored).1 == Some(it.(orderRef := None))
  {
    RemoveFirstAfterAppend(o.items, it.(orderRef := Some(o.id)));
  }

  // ---------------------------------------------------------------------
  // The shop and order lookup

  datatype Shop = Shop(users: set<nat>, products: Products, orders: seq<Order>)

  /** The repository finders used by the service. */
  datatype OrderKey =
    | ByOrderNo(orderNo: string)
    | ByOrderNoAndBuyer(orderNo: string, buyer: nat)
    | ById(id: nat)
    | ByIdAndBuyer(id: nat, buyer: nat)

  predicate Matches(o: Order, key: OrderKey) {
    match key
    case ByOrderNo(no) => o.orderNo == no
    case ByOrderNoAndBuyer(no, b) => o.orderNo == no && o.buyerId == b
    case ById(id) => o.id == id
    case ByIdAndBuyer(id, b) => o.id == id && o.buyerId == b
  }

  /** Index j holds the first order that matches the key. */
  predicate FirstMatch(orders: seq<Order>, key: OrderKey, j: int) {
    0 <= j < |orders| && Matches(orders[j], key) && forall i :: 0 <= i < j ==> !Matches(orders[i], key)
  }

  /** The position of the first order from `from` on that matches the key. */
  function FindFrom(orders: seq<Order>, key: OrderKey, from: nat): (r: Option<nat>)
    requires from <= |orders|
    ensures r.Some? ==> from <= r.value < |orders| && Matches(orders[r.value], key)
                        && forall j :: from <= j < r.value ==> !Matches(orders[j], key)
    ensures r.None? ==> forall j :: from <= j < |orders| ==> !Matches(orders[j], key)
    decreases |orders| - from
  {
    if from == |orders| then None
    else if Matches(orders[from], key) then Some(from)
    else FindFrom(orders, key, from + 1)
  }

  /** The first matching order, as the finder's Optional. */
  function Find(orders: seq<Order>, key: OrderKey): (r: Option<nat>)
    ensures r.Some? ==> r.value < |orders| && Matches(orders[r.value], key)
                        && forall j :: 0 <= j < r.value ==> !Matches(orders[j], key)
    ensures r.None? ==> forall j :: 0 <= j < |orders| ==> !Matches(orders[j], key)
  {
    FindFrom(orders, key, 0)
  }

  /** orderNo is a unique column. */
  predicate OrderNosUnique(orders: seq<Order>) {
    forall i, j :: 0 <= i < j < |orders| ==> orders[i].orderNo != orders[j].orderNo
  }

  /** One more than the largest order id: the next identity value. */
  function NextOrderId(orders: seq<Order>): (id: nat)
    ensures forall i :: 0 <= i < |orders| ==> orders[i].id < id
  {
    if |orders| == 0 then 1
    else
      var rest := NextOrderId(orders[1..]);
      assert forall i :: 1 <= i < |orders| ==> orders[i] == orders[1..][i - 1];
      if orders[0].id < rest then rest else orders[0].id + 1
  }

  // ---------------------------------------------------------------------
  // createOrder

  datatype ItemRequest = ItemRequest(productId: Option<nat>, quantity: Option<int>, productSpecs: Option<string>)

  datatype OrderRequest = OrderRequest(
    items: seq<ItemRequest>,
    shippingAddress: Option<string>,
    receiver: Receiver,
    notes: Option<string>,
    paymentMethod: Option<int>)

  /** calculateFreight. */
  function CalculateFreight(totalAmount: int): (freight: int)
    ensures freight == 0 <==> totalAmount >= FreeFreightThreshold
    ensures freight != 0 ==> freight == StandardFreight
  {
    if totalAmount >= FreeFreightThreshold then 0 else StandardFreight
  }

  /** The quantity a request list asks of one product in total. */
  function QtySum(reqs: seq<ItemRequest>, pid: nat): int {
    if |reqs| == 0 then 0
    else
      (if reqs[0].productId == Some(pid) && reqs[0].quantity.Some? then reqs[0].quantity.value else 0)
      + QtySum(reqs[1..], pid)
  }

  /** The quantity a list of order lines holds of one product in total. */
  function LineQtySum(items: seq<OrderItem>, pid: nat): int {
    if |items| == 0 then 0
    else
      (if items[0].productId == Some(pid) && items[0].quantity.Some? then items[0].quantity.value else 0)
      + LineQtySum(items[1..], pid)
  }

  function SumSubtotals(items: seq<OrderItem>): int {
    if |items| == 0 then 0 else items[0].subtotal + SumSubtotals(items[1..])
  }

  /** A request line passes the per-line checks: product id, positive quantity, known product. */
  predicate WellFormedRequest(products: Products, req: ItemRequest) {
    req.productId.Some? && req.quantity.Some? && req.quantity.value > 0 && req.productId.value in products
  }

  /**
   * The whole request can be placed: every line is well formed and no
   * product is asked for more, over all its lines together, than it has.
   */
  predicate Placeable(products: Products, reqs: seq<ItemRequest>) {
    (forall i :: 0 <= i < |reqs| ==> WellFormedRequest(products, reqs[i]))
    && (forall pid :: pid in products && QtySum(reqs, pid) > 0 ==> QtySum(reqs, pid) <= products[pid].stock)
  }

  datatype Placement = Placement(products: Products, items: seq<OrderItem>, total: int)

  /**
   * The loop of createOrder: check each line against the stock left by the
   * lines before it, decrement, snapshot, and add up the subtotals.
   */
  function PlaceItems(products: Products, orderId: nat, reqs: seq<ItemRequest>): (r: Result<Placement, Failure>)
    ensures r.Err? ==> r.error == Runtime
    ensures r.Ok? ==> |r.value.items| == |reqs| && r.value.products.Keys == products.Keys
    decreases |reqs|
  {
    if |reqs| == 0 then Ok(Placement(products, [], 0))
    else
      var req := reqs[0];
      if req.productId.None? then Err(Runtime)
      else if req.quantity.None? || req.quantity.value <= 0 then Err(Runtime)
      else if req.productId.value !in products then Err(Runtime)
      else
        var p := products[req.productId.value];
        var q := req.quantity.value;
        if p.stock < q then Err(Runtime)
        else
          var line := SnapshotItem(Some(orderId), p, req.quantity, req.productSpecs);
          match PlaceItems(products[req.productId.value := p.(stock := p.stock - q)], orderId, reqs[1..])
          case Err(e) => Err(e)
          case Ok(rest) => Ok(Placement(rest.products, [line] + rest.items, line.subtotal + rest.total))
  }

  /** A snapshot does not look at the stock. */
  lemma SnapshotIgnoresStock(order: Option<nat>, p: Product, stock: int, quantity: Option<int>, specs: Option<string>)
    ensures SnapshotItem(order, p.(stock := stock), quantity, specs) == SnapshotItem(order, p, quantity, specs)
  {
  }

  /** Products are keyed by their own id. */
  predicate KeyedById(products: Products) {
    forall pid :: pid in products ==> products[pid].id == pid
  }

  lemma {:induction false} QtySumNonNegative(products: Products, reqs: seq<ItemRequest>, pid: nat)
    requires forall i :: 0 <= i < |reqs| ==> WellFormedRequest(products, reqs[i])
    ensures QtySum(reqs, pid) >= 0
  {
    if |reqs| > 0 {
      QtySumNonNegative(products, reqs[1..], pid);
    }
  }

  /** Whether a line is well formed depends only on which products exist. */
  lemma {:induction false} WellFormedTail(products: Products, p2: Products, reqs: seq<ItemRequest>)
    requires |reqs| > 0 && p2.Keys == products.Keys
    ensures (forall i :: 0 <= i < |reqs| ==> WellFormedRequest(products, reqs[i]))
        <==> WellFormedRequest(products, reqs[0]) && (forall i :: 0 <= i < |reqs| - 1 ==> WellFormedRequest(p2, reqs[1..][i]))
  {
    var rest := reqs[1..];
    if forall i :: 0 <= i < |rest| ==> WellFormedRequest(p2, rest[i]) {
      forall i | 1 <= i < |reqs| ensures WellFormedRequest(products, reqs[i]) {
        assert reqs[i] == rest[i - 1];
      }
    }
    if forall i :: 0 <= i < |reqs| ==> WellFormedRequest(products, reqs[i]) {
      forall i | 0 <= i < |rest| ensures WellFormedRequest(p2, rest[i]) {
        assert rest[i] == reqs[i + 1];
      }
    }
  }

  /**
   * Taking the first line's quantity out of its product's stock turns the
   * stock bound over all lines into the stock bound over the remaining ones.
   */
  lemma StockTail(products: Products, reqs: seq<ItemRequest>)
    requires |reqs| > 0 && forall i :: 0 <= i < |reqs| ==> WellFormedRequest(products, reqs[i])
    requires WellFormedRequest(products, reqs[0])
    requires reqs[0].quantity.value <= products[reqs[0].productId.value].stock
    ensures var pid := reqs[0].productId.value;
      var p2 := products[pid := products[pid].(stock := products[pid].stock - reqs[0].quantity.value)];
      (forall x :: x in products && QtySum(reqs, x) > 0 ==> QtySum(reqs, x) <= products[x].stock)
      <==> (forall x :: x in p2 && QtySum(reqs[1..], x) > 0 ==> QtySum(reqs[1..], x) <= p2[x].stock)
  {
    var pid := reqs[0].productId.value;
    WellFormedTail(products, products, reqs);
    QtySumNonNegative(products, reqs[1..], pid);
    assert forall x :: x != pid ==> QtySum(reqs, x) == QtySum(reqs[1..], x);
    assert QtySum(reqs, pid) == reqs[0].quantity.value + QtySum(reqs[1..], pid);
  }

  /** A first line asking for more than its product holds makes the request unplaceable. */
  lemma ShortStockNotPlaceable(products: Products, reqs: seq<ItemRequest>)
    requires |reqs| > 0 && WellFormedRequest(products, reqs[0])
    requires products[reqs[0].productId.value].stock < reqs[0].quantity.value
    ensures !Placeable(products, reqs)
  {
    if forall i :: 0 <= i < |reqs| ==> WellFormedRequest(products, reqs[i]) {
      var pid := reqs[0].productId.value;
      WellFormedTail(products, products, reqs);
      QtySumNonNegative(products, reqs[1..], pid);
      assert QtySum(reqs, pid) == reqs[0].quantity.value + QtySum(reqs[1..], pid);
    }
  }

  /** One step of the loop: placeability moves from the request to its tail against the reduced stock. */
  lemma PlaceableStep(products: Products, reqs: seq<ItemRequest>)
    requires |reqs| > 0 && WellFormedRequest(products, reqs[0])
    requires reqs[0].quantity.value <= products[reqs[0].productId.value].stock
    ensures var pid := reqs[0].productId.value;
      var p2 := products[pid := products[pid].(stock := products[pid].stock - reqs[0].quantity.value)];
      Placeable(products, reqs) == Placeable(p2, reqs[1..])
  {
    var pid := reqs[0].productId.value;
    var p2 := products[pid := products[pid].(stock := products[pid].stock - reqs[0].quantity.value)];
    WellFormedTail(products, p2, reqs);
    if forall i :: 0 <= i < |reqs| ==> WellFormedRequest(products, reqs[i]) {
      StockTail(products, reqs);
    }
  }

  /**
   * The loop succeeds exactly when the request is placeable: stock is
   * checked cumulatively, so a product listed twice must cover both lines.
   */
  lemma {:induction false} PlaceItemsSucceedsIff(products: Products, orderId: nat, reqs: seq<ItemRequest>)
    ensures PlaceItems(products, orderId, reqs).Ok? <==> Placeable(products, reqs)
    decreases |reqs|
  {
    if |reqs| > 0 && WellFormedRequest(products, reqs[0]) {
      var pid := reqs[0].productId.value;
      var p := products[pid];
      var q := reqs[0].quantity.value;
      if p.stock < q {
        ShortStockNotPlaceable(products, reqs);
      } else {
        PlaceItemsSucceedsIff(products[pid := p.(stock := p.stock - q)], orderId, reqs[1..]);
        PlaceableStep(products, reqs);
      }
    }
  }

  /**
   * After the loop each product's stock has dropped by exactly the total
   * quantity ordered of it, and nothing else about any product changed.
   */
  lemma {:induction false} PlaceItemsStock(products: Products, orderId: nat, reqs: seq<ItemRequest>)
    requires PlaceItems(products, orderId, reqs).Ok?
    ensures var after := PlaceItems(products, orderId, reqs).value.products;
      forall pid :: pid in products ==>
        after[pid] == products[pid].(stock := products[pid].stock - QtySum(reqs, pid))
  {
    if |reqs| > 0 {
      var req := reqs[0];
      var rest := reqs[1..];
      var pid := req.productId.value;
      var p := products[pid];
      var q := req.quantity.value;
      var p2 := products[pid := p.(stock := p.stock - q)];
      PlaceItemsStock(p2, orderId, rest);
      var after := PlaceItems(products, orderId, reqs).value.products;
      assert after == PlaceItems(p2, orderId, rest).value.products;
      forall x | x in products
        ensures after[x] == products[x].(stock := products[x].stock - QtySum(reqs, x))
      {
        assert QtySum(reqs, x) == (if x == pid then q else 0) + QtySum(rest, x);
      }
    }
  }

  /**
   * Line i of the result snapshots the product of request i (name, image and
   * price never change during the loop), and the total is the sum of the
   * subtotals.
   */
  lemma {:induction false} PlaceItemsLines(products: Products, orderId: nat, reqs: seq<ItemRequest>)
    requires KeyedById(products)
    requires PlaceItems(products, orderId, reqs).Ok?
    ensures var pl := PlaceItems(products, orderId, reqs).value;
      && (forall i :: 0 <= i < |reqs| ==>
            reqs[i].productId.Some? && reqs[i].productId.value in products
            && pl.items[i] == SnapshotItem(Some(orderId), products[reqs[i].productId.value], reqs[i].quantity, reqs[i].productSpecs))
      && pl.total == SumSubtotals(pl.items)
      && (forall pid :: LineQtySum(pl.items, pid) == QtySum(reqs, pid))
  {
    if |reqs| > 0 {
      var req := reqs[0];
      var rest := reqs[1..];
      var pid := req.productId.value;
      var p := products[pid];
      var q := req.quantity.value;
      var p2 := products[pid := p.(stock := p.stock - q)];
      assert KeyedById(p2);
      PlaceItemsLines(p2, orderId, rest);
      var pl := PlaceItems(products, orderId, reqs).value;
      var pl2 := PlaceItems(p2, orderId, rest).value;
      assert pl.items == [pl.items[0]] + pl2.items;
      assert pl.items[1..] == pl2.items;
      forall i | 0 <= i < |reqs|
        ensures reqs[i].productId.Some? && reqs[i].productId.value in products
        ensures pl.items[i] == SnapshotItem(Some(orderId), products[reqs[i].productId.value], reqs[i].quantity, reqs[i].productSpecs)
      {
        if i > 0 {
          assert reqs[i] == rest[i - 1];
          assert pl.items[i] == pl2.items[i - 1];
          var x := rest[i - 1].productId.value;
          SnapshotIgnoresStock(Some(orderId), products[x], p2[x].stock, rest[i - 1].quantity, rest[i - 1].productSpecs);
          assert p2[x] == products[x].(stock := p2[x].stock);
        }
      }
    }
  }

  /** Placing a well-formed request never produces a line without a quantity. */
  lemma PlacedLinesHaveQuantities(products: Products, orderId: nat, reqs: seq<ItemRequest>)
    requires KeyedById(products)
    requires PlaceItems(products, orderId, reqs).Ok?
    ensures var pl := PlaceItems(products, orderId, reqs).value;
      forall i :: 0 <= i < |pl.items| ==>
        pl.items[i].quantity.Some? && pl.items[i].productId.Some? && pl.items[i].productId.value in products
        && pl.items[i].orderRef == Some(orderId)
  {
    PlaceItemsSucceedsIff(products, orderId, reqs);
    PlaceItemsLines(products, orderId, reqs);
  }

  // ---------------------------------------------------------------------
  // Finder stability

  /** Replacing an order by one that matches the key the same way leaves every search unchanged. */
  lemma {:induction false} FindFromAfterUpdate(orders: seq<Order>, k: nat, o: Order, key: OrderKey, from: nat)
    requires k < |orders| && from <= |orders|
    requires Matches(o, key) == Matches(orders[k], key)
    ensures FindFrom(orders[k := o], key, from) == FindFrom(orders, key, from)
    decreases |orders| - from
  {
    if from < |orders| {
      FindFromAfterUpdate(orders, k, o, key, from + 1);
    }
  }

  lemma FindAfterUpdate(orders: seq<Order>, k: nat, o: Order, key: OrderKey)
    requires k < |orders|
    requires Matches(o, key) == Matches(orders[k], key)
    ensures Find(orders[k := o], key) == Find(orders, key)
  {
    FindFromAfterUpdate(orders, k, o, key, 0);
  }

  /** Appending an order only matters to a search when nothing earlier matched. */
  lemma {:induction false} FindFromAfterAppend(orders: seq<Order>, o: Order, key: OrderKey, from: nat)
    requires from <= |orders|
    ensures FindFrom(orders + [o], key, from)
         == if FindFrom(orders, key, from).Some? then FindFrom(orders, key, from)
            else if Matches(o, key) then Some(|orders|)
            else None
    decreases |orders| - from
  {
    if from < |orders| {
      assert (orders + [o])[from] == orders[from];
      FindFromAfterAppend(orders, o, key, from + 1);
    } else {
      assert (orders + [o])[from] == o;
      assert FindFrom(orders + [o], key, from + 1) == None;
    }
  }

  lemma FindAfterAppend(orders: seq<Order>, o: Order, key: OrderKey)
    ensures Find(orders + [o], key)
         == if Find(orders, key).Some? then Find(orders, key)
            else if Matches(o, key) then Some(|orders|)
            else None
  {
    FindFromAfterAppend(orders, o, key, 0);
  }

  // ---------------------------------------------------------------------
  // createOrder

  /**
   * createOrder. `orderNo` is the number generated from the clock and a
   * random uuid, and the new order takes the next identity value. The
   * stock of the ordered products is decremented, each line snapshots its
   * product, and freight and pay amount follow from the total. A number
   * that is already taken violates the unique column.
   */
  function CreateOrder(s: Shop, userId: nat, req: OrderRequest, orderNo: string): (r: Result<(Shop, Order), Failure>)
    ensures r.Err? ==> r.error == Runtime || r.error == ConstraintViolation
    ensures r.Ok? ==> r.value.0 == s.(products := r.value.0.products, orders := s.orders + [r.value.1])
    ensures r.Ok? ==> r.value.0.products.Keys == s.products.Keys
    ensures r.Ok? ==> var o := r.value.1;
      && o.orderNo == orderNo && o.buyerId == userId && o.status == PendingPayment
      && o.shippingAddress == req.shippingAddress && o.receiver == req.receiver && o.note == req.notes
      && o.payType == req.paymentMethod && o.confirmStatus == 0
      && o.payTime.None? && o.deliveryTime.None? && o.receiveTime.None?
      && |o.items| == |req.items|
      && o.payAmount == o.totalAmount + o.freightAmount
      && (o.freightAmount == 0 <==> o.totalAmount >= FreeFreightThreshold)
      && (forall i :: 0 <= i < |s.orders| ==> s.orders[i].id < o.id)
  {
    if userId !in s.users then Err(Runtime)
    else if |req.items| == 0 then Err(Runtime)
    else if !HasTextOpt(req.shippingAddress) then Err(Runtime)
    else
      var id := NextOrderId(s.orders);
      match PlaceItems(s.products, id, req.items)
      case Err(e) => Err(e)
      case Ok(pl) =>
        if Find(s.orders, ByOrderNo(orderNo)).Some? then Err(ConstraintViolation)
        else
          var freight := CalculateFreight(pl.total);
          var o := NewOrder(id, orderNo, userId, PendingPayment).(
            items := pl.items, totalAmount := pl.total, freightAmount := freight,
            payAmount := pl.total + freight, payType := req.paymentMethod,
            shippingAddress := req.shippingAddress, receiver := req.receiver, note := req.notes);
          Ok((s.(products := pl.products, orders := s.orders + [o]), o))
  }

  /** The number is not yet used by any order. */
  predicate OrderNoFree(orders: seq<Order>, orderNo: string) {
    forall i :: 0 <= i < |orders| ==> orders[i].orderNo != orderNo
  }

  /**
   * An order is created exactly when the buyer exists, the request has
   * lines and an address with text, every line is placeable against the
   * stock, and the number is free.
   */
  lemma CreateOrderSucceedsIff(s: Shop, userId: nat, req: OrderRequest, orderNo: string)
    ensures CreateOrder(s, userId, req, orderNo).Ok?
        <==> userId in s.users && |req.items| > 0 && HasTextOpt(req.shippingAddress)
             && Placeable(s.products, req.items) && OrderNoFree(s.orders, orderNo)
  {
    PlaceItemsSucceedsIff(s.products, NextOrderId(s.orders), req.items);
    var f := Find(s.orders, ByOrderNo(orderNo));
    if f.Some? {
      assert s.orders[f.value].orderNo == orderNo;
    }
  }

  /**
   * What a successful createOrder did: each product lost exactly the
   * quantity ordered of it, each line is the snapshot of its product, the
   * total is the sum of the subtotals, the lines point at the new order,
   * and order numbers stay unique.
   */
  lemma CreateOrderEffect(s: Shop, userId: nat, req: OrderRequest, orderNo: string)
    requires KeyedById(s.products)
    requires CreateOrder(s, userId, req, orderNo).Ok?
    ensures var (s2, o) := CreateOrder(s, userId, req, orderNo).value;
      && (forall pid :: pid in s.products ==>
            s2.products[pid] == s.products[pid].(stock := s.products[pid].stock - QtySum(req.items, pid)))
      && (forall i :: 0 <= i < |req.items| ==>
            req.items[i].productId.Some? && req.items[i].productId.value in s.products
            && o.items[i] == SnapshotItem(Some(o.id), s.products[req.items[i].productId.value],
                                          req.items[i].quantity, req.items[i].productSpecs))
      && o.totalAmount == SumSubtotals(o.items)
      && ItemsLinked(o)
      && (OrderNosUnique(s.orders) ==> OrderNosUnique(s2.orders))
      && Find(s2.orders, ByOrderNo(orderNo)) == Some(|s.orders|)
  {
    var id := NextOrderId(s.orders);
    PlaceItemsStock(s.products, id, req.items);
    PlaceItemsLines(s.products, id, req.items);
    PlacedLinesHaveQuantities(s.products, id, req.items);
    CreateOrderSucceedsIff(s, userId, req, orderNo);
    var (s2, o) := CreateOrder(s, userId, req, orderNo).value;
    FindAfterAppend(s.orders, o, ByOrderNo(orderNo));
  }

  /** The quantity of a line that has one, else 0. */
  function LineQty(item: OrderItem): int {
    if item.quantity.Some? then item.quantity.value else 0
  }

  /**
   * The restock loop of cancelOrder: each line with a product gives its
   * quantity back; a line with a product but no quantity throws when the
   * null is unboxed.
   */
  function Restock(products: Products, items: seq<OrderItem>): (r: Result<Products, Failure>)
    ensures r.Err? ==> r.error == NullPointer
    ensures r.Ok? ==> r.value.Keys == products.Keys
    ensures r.Ok? ==> forall pid :: pid in products ==>
      r.value[pid] == products[pid].(stock := products[pid].stock + LineQtySum(items, pid))
    decreases |items|
  {
    if |items| == 0 then Ok(products)
    else
      var it := items[0];
      if it.productId.Some? && it.productId.value in products then
        if it.quantity.None? then Err(NullPointer)
        else
          var pid := it.productId.value;
          var p := products[pid];
          var rest := Restock(products[pid := p.(stock := p.stock + it.quantity.value)], items[1..]);
          if rest.Ok? then RestockAddsFirstLine(products, items, rest.value); rest else rest
      else
        var rest := Restock(products, items[1..]);
        if rest.Ok? then RestockSkipsFirstLine(products, items, rest.value); rest else rest
  }

  /** The stock a line adds to its product, followed by the stock the other lines add. */
  lemma RestockAddsFirstLine(products: Products, items: seq<OrderItem>, after: Products)
    requires |items| > 0 && items[0].productId.Some? && items[0].productId.value in products && items[0].quantity.Some?
    requires var pid := items[0].productId.value;
      var p := products[pid];
      var p2 := products[pid := p.(stock := p.stock + items[0].quantity.value)];
      after.Keys == p2.Keys && forall x :: x in p2 ==> after[x] == p2[x].(stock := p2[x].stock + LineQtySum(items[1..], x))
    ensures after.Keys == products.Keys
    ensures forall x :: x in products ==> after[x] == products[x].(stock := products[x].stock + LineQtySum(items, x))
  {
    var pid := items[0].productId.value;
    var q := items[0].quantity.value;
    forall x | x in products
      ensures after[x] == products[x].(stock := products[x].stock + LineQtySum(items, x))
    {
      if x == pid {
        assert LineQtySum(items, x) == q + LineQtySum(items[1..], x);
      } else {
        assert LineQtySum(items, x) == LineQtySum(items[1..], x);
      }
    }
  }

  /** A line whose product is unknown adds no stock. */
  lemma RestockSkipsFirstLine(products: Products, items: seq<OrderItem>, after: Products)
    requires |items| > 0 && !(items[0].productId.Some? && items[0].productId.value in products)
    requires after.Keys == products.Keys
    requires forall x :: x in products ==> after[x] == products[x].(stock := products[x].stock + LineQtySum(items[1..], x))
    ensures forall x :: x in products ==> after[x] == products[x].(stock := products[x].stock + LineQtySum(items, x))
  {
    forall x | x in products
      ensures after[x] == products[x].(stock := products[x].stock + LineQtySum(items, x))
    {
      assert LineQtySum(items, x) == LineQtySum(items[1..], x);
    }
  }

  /** Some line names one of the keys but carries no quantity. */
  predicate LacksQuantity(items: seq<OrderItem>, keys: set<nat>)
    decreases |items|
  {
    |items| > 0
    && ((items[0].productId.Some? && items[0].productId.value in keys && items[0].quantity.None?)
        || LacksQuantity(items[1..], keys))
  }

  lemma {:induction false} LacksQuantityIff(items: seq<OrderItem>, keys: set<nat>)
    ensures LacksQuantity(items, keys) <==>
      exists i :: 0 <= i < |items| && items[i].productId.Some?
                  && items[i].productId.value in keys && items[i].quantity.None?
    decreases |items|
  {
    if |items| > 0 {
      LacksQuantityIff(items[1..], keys);
      assert forall i :: 1 <= i < |items| ==> items[i] == items[1..][i - 1];
      assert forall i :: 0 <= i < |items[1..]| ==> items[1..][i] == items[i + 1];
    }
  }

  /** Restock fails exactly on the first line that names a known product without a quantity. */
  lemma {:induction false} RestockFailsOnMissingQuantity(products: Products, items: seq<OrderItem>)
    ensures Restock(products, items).Err? <==> LacksQuantity(items, products.Keys)
    decreases |items|
  {
    if |items| > 0 {
      var it := items[0];
      if it.productId.Some? && it.productId.value in products {
        if it.quantity.Some? {
          var pid := it.productId.value;
          var p := products[pid];
          var p2 := products[pid := p.(stock := p.stock + it.quantity.value)];
          assert p2.Keys == products.Keys;
          RestockFailsOnMissingQuantity(p2, items[1..]);
        }
      } else {
        RestockFailsOnMissingQuantity(products, items[1..]);
      }
    }
  }

  /** Restocking fails exactly when a line names a known product but carries no quantity. */
  lemma RestockFailsIff(products: Products, items: seq<OrderItem>)
    ensures Restock(products, items).Err? <==>
      exists i :: 0 <= i < |items| && items[i].productId.Some?
                  && items[i].productId.value in products && items[i].quantity.None?
  {
    RestockFailsOnMissingQuantity(products, items);
    LacksQuantityIff(items, products.Keys);
  }

  /**
   * cancelOrder: only the buyer's own order, only while it is pending
   * payment or awaiting shipment; the stock of every line is given back
   * and the order becomes CANCELLED.
   */
  function CancelOrder(s: Shop, orderNo: string, userId: nat): (r: Result<(Shop, Order), Failure>)
    ensures r.Err? ==> r.error == Runtime || r.error == NullPointer
    ensures r.Ok? ==> var k := Find(s.orders, ByOrderNoAndBuyer(orderNo, userId));
      && k.Some?
      && (s.orders[k.value].status == PendingPayment || s.orders[k.value].status == AwaitingShipment)
      && r.value.1 == s.orders[k.value].(status := Cancelled)
      && r.value.0 == s.(products := r.value.0.products, orders := s.orders[k.value := r.value.1])
  {
    match Find(s.orders, ByOrderNoAndBuyer(orderNo, userId))
    case None => Err(Runtime)
    case Some(k) =>
      var o := s.orders[k];
      if o.status != PendingPayment && o.status != AwaitingShipment then Err(Runtime)
      else
        match Restock(s.products, o.items)
        case Err(e) => Err(e)
        case Ok(ps) =>
          var c := o.(status := Cancelled);
          Ok((s.(products := ps, orders := s.orders[k := c]), c))
  }

  /** Giving back the lines of a placement restores the product table exactly. */
  lemma RestockUndoesPlacement(products: Products, orderId: nat, reqs: seq<ItemRequest>)
    requires KeyedById(products)
    requires PlaceItems(products, orderId, reqs).Ok?
    ensures var pl := PlaceItems(products, orderId, reqs).value;
      Restock(pl.products, pl.items) == Ok(products)
  {
    var pl := PlaceItems(products, orderId, reqs).value;
    PlaceItemsStock(products, orderId, reqs);
    PlaceItemsLines(products, orderId, reqs);
    PlacedLinesHaveQuantities(products, orderId, reqs);
    var rs := Restock(pl.products, pl.items);
    RestockFailsIff(pl.products, pl.items);
    assert rs.Ok? by {
      forall i | 0 <= i < |pl.items| ensures pl.items[i].quantity.Some? { }
    }
    forall pid | pid in products ensures rs.value[pid] == products[pid] {
      assert LineQtySum(pl.items, pid) == QtySum(reqs, pid);
    }
    assert rs.value.Keys == products.Keys;
    assert rs.value == products;
  }

  /**
   * Cancelling an order right after creating it gives every product its
   * stock back exactly; a second cancel of the same order is refused.
   */
  lemma CreateThenCancelRestoresStock(s: Shop, userId: nat, req: OrderRequest, orderNo: string)
    requires KeyedById(s.products)
    requires CreateOrder(s, userId, req, orderNo).Ok?
    ensures var (s1, o) := CreateOrder(s, userId, req, orderNo).value;
      && CancelOrder(s1, orderNo, userId).Ok?
      && CancelOrder(s1, orderNo, userId).value.0.products == s.products
      && CancelOrder(s1, orderNo, userId).value.1.status == Cancelled
      && CancelOrder(CancelOrder(s1, orderNo, userId).value.0, orderNo, userId).Err?
  {
    var id := NextOrderId(s.orders);
    CreateOrderSucceedsIff(s, userId, req, orderNo);
    RestockUndoesPlacement(s.products, id, req.items);
    var (s1, o) := CreateOrder(s, userId, req, orderNo).value;
    var key := ByOrderNoAndBuyer(orderNo, userId);
    FindAfterAppend(s.orders, o, key);
    var k := |s.orders|;
    assert Find(s1.orders, key) == Some(k);
    FindAfterUpdate(s1.orders, k, o.(status := Cancelled), key);
  }

  // ---------------------------------------------------------------------
  // updateOrderStatus

  /** The statuses an order can no longer leave. FAILED is not among them. */
  predicate IsFinal(st: OrderStatus) {
    st == Completed || st == Cancelled || st == Refunded
  }

  /**
   * Sets the status and stamps the first time the order reaches
   * AWAITING_SHIPMENT (paid), SHIPPED (delivered) or COMPLETED (received).
   */
  function Advance(o: Order, target: OrderStatus, now: int): (r: Order)
    ensures r.status == target
    ensures r == o.(status := target, payTime := r.payTime, deliveryTime := r.deliveryTime, receiveTime := r.receiveTime)
    ensures o.payTime.Some? ==> r.payTime == o.payTime
    ensures o.deliveryTime.Some? ==> r.deliveryTime == o.deliveryTime
    ensures o.receiveTime.Some? ==> r.receiveTime == o.receiveTime
    ensures r.payTime != o.payTime ==> target == AwaitingShipment && r.payTime == Some(now)
    ensures r.deliveryTime != o.deliveryTime ==> target == Shipped && r.deliveryTime == Some(now)
    ensures r.receiveTime != o.receiveTime ==> target == Completed && r.receiveTime == Some(now)
  {
    var o1 := o.(status := target);
    if target == AwaitingShipment && o.payTime.None? then o1.(payTime := Some(now))
    else if target == Shipped && o.deliveryTime.None? then o1.(deliveryTime := Some(now))
    else if target == Completed && o.receiveTime.None? then o1.(receiveTime := Some(now))
    else o1
  }

  /**
   * updateOrderStatus: any status may be set on an order that is not
   * final (there is no finer transition check); `now` is the clock.
   */
  function UpdateOrderStatus(s: Shop, orderNo: string, target: OrderStatus, now: int): (r: Result<(Shop, Order), Failure>)
    ensures r.Err? ==> r.error == Runtime
    ensures r.Ok? ==> r.value.0 == s.(orders := r.value.0.orders) && |r.value.0.orders| == |s.orders|
  {
    match Find(s.orders, ByOrderNo(orderNo))
    case None => Err(Runtime)
    case Some(k) =>
      var o := s.orders[k];
      if IsFinal(o.status) then Err(Runtime)
      else
        var o2 := Advance(o, target, now);
        Ok((s.(orders := s.orders[k := o2]), o2))
  }

  /**
   * updateOrderStatus called with a null status: the lookup and the final
   * check run as before, no timestamp is set, and the null then fails the
   * NOT NULL status column.
   */
  function UpdateOrderStatusNullable(s: Shop, orderNo: string, target: Option<OrderStatus>, now: int)
    : (r: Result<(Shop, Order), Failure>)
    ensures target.Some? ==> r == UpdateOrderStatus(s, orderNo, target.value, now)
    ensures target.None? ==> r.Err?
    ensures target.None? ==>
      (r.error == ConstraintViolation <==> exists k :: FirstMatch(s.orders, ByOrderNo(orderNo), k) && !IsFinal(s.orders[k].status))
  {
    if target.Some? then UpdateOrderStatus(s, orderNo, target.value, now)
    else match Find(s.orders, ByOrderNo(orderNo))
      case None => Err(Runtime)
      case Some(k) => if IsFinal(s.orders[k].status) then Err(Runtime) else Err(ConstraintViolation)
  }

  /**
   * The status update succeeds exactly when the number names an order that
   * is not final, and then it changes that order (the first with the
   * number) and nothing else.
   */
  lemma UpdateOrderStatusSpec(s: Shop, orderNo: string, target: OrderStatus, now: int)
    ensures var r := UpdateOrderStatus(s, orderNo, target, now);
      var k := Find(s.orders, ByOrderNo(orderNo));
      && (r.Ok? <==> k.Some? && !IsFinal(s.orders[k.value].status))
      && (r.Ok? ==> r.value.1 == r.value.0.orders[k.value] && r.value.1.status == target
                    && r.value.1.id == s.orders[k.value].id && r.value.1.items == s.orders[k.value].items
                    && r.value.0.products == s.products
                    && forall j :: 0 <= j < |s.orders| && j != k.value ==> r.value.0.orders[j] == s.orders[j])
  {
  }

  /**
   * Once final, always final: an order that reaches COMPLETED, CANCELLED or
   * REFUNDED refuses every later update, while FAILED can still be left.
   */
  lemma FinalStatusesAbsorb(s: Shop, orderNo: string, target: OrderStatus, next: OrderStatus, now: int, later: int)
    requires UpdateOrderStatus(s, orderNo, target, now).Ok?
    ensures var s2 := UpdateOrderStatus(s, orderNo, target, now).value.0;
      IsFinal(target) <==> UpdateOrderStatus(s2, orderNo, next, later).Err?
  {
    var k := Find(s.orders, ByOrderNo(orderNo)).value;
    var o2 := Advance(s.orders[k], target, now);
    FindAfterUpdate(s.orders, k, o2, ByOrderNo(orderNo));
  }

  /**
   * A timestamp, once set, survives any sequence of two updates, and the
   * time stamped is the clock of the update that first reached the status.
   */
  lemma TimestampsWriteOnce(o: Order, t1: OrderStatus, t2: OrderStatus, now1: int, now2: int)
    requires o.payTime.None?
    ensures var o1 := Advance(o, t1, now1);
      var o2 := Advance(o1, t2, now2);
      && (t1 == AwaitingShipment ==> o2.payTime == Some(now1))
      && (o1.deliveryTime.Some? ==> o2.deliveryTime == o1.deliveryTime)
      && (o1.receiveTime.Some? ==> o2.receiveTime == o1.receiveTime)
  {
  }

  // ---------------------------------------------------------------------
  // Queries

  /**
   * getOrderDetailsByOrderNo: the order with that number, if it is the
   * caller's; someone else's order is an authorization failure.
   */
  function GetOrderDetailsByOrderNo(orders: seq<Order>, orderNo: string, userId: nat): (r: Result<Order, Failure>)
    ensures r.Ok? ==> r.value in orders && r.value.orderNo == orderNo && r.value.buyerId == userId
    ensures r.Err? ==> r.error == Runtime || r.error == UnauthorizedAccess
    ensures r.Err? && r.error == Runtime <==> OrderNoFree(orders, orderNo)
    ensures forall j :: FirstMatch(orders, ByOrderNo(orderNo), j) ==>
              r == if orders[j].buyerId == userId then Ok(orders[j]) else Err(UnauthorizedAccess)
  {
    match Find(orders, ByOrderNo(orderNo))
    case None => Err(Runtime)
    case Some(k) =>
      if orders[k].buyerId != userId then Err(UnauthorizedAccess)
      else Ok(orders[k])
  }

  /** getOrderDetails: the order with that id. */
  function GetOrderDetails(orders: seq<Order>, id: nat): (r: Result<Order, Failure>)
    ensures r.Ok? ==> r.value in orders && r.value.id == id
    ensures r.Err? <==> forall j :: 0 <= j < |orders| ==> orders[j].id != id
    ensures r.Err? ==> r.error == Runtime
  {
    match Find(orders, ById(id))
    case None => Err(Runtime)
    case Some(k) => Ok(orders[k])
  }

  /** A freshly created order is visible to its buyer and only to its buyer. */
  lemma CreatedOrderVisibleToBuyer(s: Shop, userId: nat, req: OrderRequest, orderNo: string, other: nat)
    requires CreateOrder(s, userId, req, orderNo).Ok?
    requires other != userId
    ensures var (s2, o) := CreateOrder(s, userId, req, orderNo).value;
      && GetOrderDetailsByOrderNo(s2.orders, orderNo, userId) == Ok(o)
      && GetOrderDetailsByOrderNo(s2.orders, orderNo, other) == Err(UnauthorizedAccess)
  {
    var (s2, o) := CreateOrder(s, userId, req, orderNo).value;
    CreateOrderSucceedsIff(s, userId, req, orderNo);
    FindAfterAppend(s.orders, o, ByOrderNo(orderNo));
  }

  /**
   * mapIntegerToOrderStatus: the order-list tabs of the front end. Tabs 4
   * ("to review") and 5 ("completed") both select COMPLETED.
   */
  function MapIntegerToOrderStatus(code: Option<int>): (r: Option<OrderStatus>)
    ensures r.Some? ==> code.Some? && 1 <= code.value <= 6
    ensures code.Some? && 1 <= code.value <= 6 ==> r.Some?
    ensures r.Some? && code.value != 4 ==> TabOf(r.value) == code
    ensures code == Some(4) ==> r == Some(Completed)
  {
    if code.None? then None
    else
      match code.value
      case 1 => Some(PendingPayment)
      case 2 => Some(AwaitingShipment)
      case 3 => Some(Shipped)
      case 4 => Some(Completed)
      case 5 => Some(Completed)
      case 6 => Some(Cancelled)
      case _ => None
  }

  /** The tab that lists orders of a status, where there is one. */
  function TabOf(st: OrderStatus): Option<int> {
    match st
    case PendingPayment => Some(1)
    case AwaitingShipment => Some(2)
    case Shipped => Some(3)
    case Completed => Some(5)
    case Cancelled => Some(6)
    case _ => None
  }

  /**
   * The tab mapping inverts TabOf; a status has a tab exactly when some
   * code selects it, and PROCESSING, DELIVERED, REFUND_PENDING, REFUNDED and
   * FAILED orders can only be seen on the "all" tab.
   */
  lemma TabMappingRoundTrip(st: OrderStatus, code: int)
    ensures TabOf(st).Some? ==> MapIntegerToOrderStatus(Some(TabOf(st).value)) == Some(st)
    ensures MapIntegerToOrderStatus(Some(code)) == Some(st) ==> TabOf(st).Some?
    ensures MapIntegerToOrderStatus(Some(code)) == Some(st) && code != 4 ==> TabOf(st) == Some(code)
    ensures MapIntegerToOrderStatus(Some(1)) == Some(PendingPayment) && MapIntegerToOrderStatus(Some(2)) == Some(AwaitingShipment)
    ensures MapIntegerToOrderStatus(Some(3)) == Some(Shipped) && MapIntegerToOrderStatus(Some(4)) == Some(Completed)
    ensures MapIntegerToOrderStatus(Some(5)) == Some(Completed) && MapIntegerToOrderStatus(Some(6)) == Some(Cancelled)
  {
  }

  /** The status filter of getUserOrders: 0 or null means all; an unknown code also means all. */
  function StatusFilter(status: Option<int>): (r: Option<OrderStatus>)
    ensures status.None? || status.value == 0 ==> r.None?
    ensures status.Some? && status.value != 0 ==> r == MapIntegerToOrderStatus(status)
  {
    if status.Some? && status.value != 0 then MapIntegerToOrderStatus(status) else None
  }

  predicate ListedFor(o: Order, userId: nat, wanted: Option<OrderStatus>) {
    o.buyerId == userId && (wanted.None? || o.status == wanted.value)
  }

  function FilterOrders(orders: seq<Order>, userId: nat, wanted: Option<OrderStatus>): (r: seq<Order>)
    ensures forall i :: 0 <= i < |r| ==> r[i] in orders && ListedFor(r[i], userId, wanted)
    ensures forall i :: 0 <= i < |orders| && ListedFor(orders[i], userId, wanted) ==> orders[i] in r
  {
    if |orders| == 0 then []
    else
      var rest := FilterOrders(orders[1..], userId, wanted);
      assert forall i :: 1 <= i < |orders| ==> orders[i] == orders[1..][i - 1];
      if ListedFor(orders[0], userId, wanted) then [orders[0]] + rest else rest
  }

  /**
   * getUserOrders without paging or ordering: the caller's orders,
   * restricted to one status when the tab code maps to one.
   */
  function GetUserOrders(orders: seq<Order>, userId: nat, status: Option<int>): (r: seq<Order>)
    ensures forall i :: 0 <= i < |r| ==> r[i] in orders && r[i].buyerId == userId
    ensures forall i :: 0 <= i < |r| ==> StatusFilter(status).None? || r[i].status == StatusFilter(status).value
    ensures forall i :: 0 <= i < |orders| ==>
              (orders[i].buyerId == userId && (StatusFilter(status).None? || orders[i].status == StatusFilter(status).value)
               ==> orders[i] in r)
  {
    FilterOrders(orders, userId, StatusFilter(status))
  }

  // ---------------------------------------------------------------------
  // Payment

  datatype PaymentInitiation = PaymentInitiation(qrUrl: string, orderNo: string)

  const QrPrefix: string := "https://example.com/pay/qr?orderNo="
  const MethodParam: string := "&method="

  /** String concatenation of a nullable string: null prints as "null". */
  function ShowNullable(s: Option<string>): string {
    if s.Some? then s.value else "null"
  }

  /** The placeholder QR link: the prefix, the order number, then the method parameter. */
  function QrUrl(orderNo: string, paymentMethod: Option<string>): (url: string)
    ensures StartsWith(url, QrPrefix) && EndsWith(url, ShowNullable(paymentMethod))
  {
    var url := QrPrefix + orderNo + MethodParam + ShowNullable(paymentMethod);
    assert url[..|QrPrefix|] == QrPrefix;
    assert url[|url| - |ShowNullable(paymentMethod)|..] == ShowNullable(paymentMethod);
    url
  }

  /**
   * initiatePayment: only the buyer's own order, only while it is pending
   * payment; the answer is a placeholder QR link carrying the order number
   * and the method. Nothing is written.
   */
  function InitiatePayment(orders: seq<Order>, orderId: nat, userId: nat, paymentMethod: Option<string>): (r: Result<PaymentInitiation, Failure>)
    ensures r.Err? ==> r.error == Runtime
    ensures r.Ok? <==> exists j :: 0 <= j < |orders| && orders[j].id == orderId && orders[j].buyerId == userId
                                   && Find(orders, ByIdAndBuyer(orderId, userId)) == Some(j)
                                   && orders[j].status == PendingPayment
    ensures r.Ok? ==> r.value.qrUrl == QrUrl(r.value.orderNo, paymentMethod)
    ensures forall j :: FirstMatch(orders, ByIdAndBuyer(orderId, userId), j) && orders[j].status == PendingPayment ==>
              r == Ok(PaymentInitiation(QrUrl(orders[j].orderNo, paymentMethod), orders[j].orderNo))
  {
    match Find(orders, ByIdAndBuyer(orderId, userId))
    case None => Err(Runtime)
    case Some(k) =>
      if orders[k].status != PendingPayment then Err(Runtime)
      else Ok(PaymentInitiation(QrUrl(orders[k].orderNo, paymentMethod), orders[k].orderNo))
  }

  /**
   * The orderNo parameter of the QR link, read back up to the first '&',
   * is the order number whenever that number holds no '&'.
   */
  lemma QrUrlCarriesOrderNo(orderNo: string, paymentMethod: Option<string>)
    requires '&' !in orderNo
    ensures var tail := QrUrl(orderNo, paymentMethod)[|QrPrefix|..];
      IndexOf(tail, '&') == Some(|orderNo|) && tail[..|orderNo|] == orderNo
  {
    var rest := "method=" + ShowNullable(paymentMethod);
    assert MethodParam == ['&'] + "method=";
    assert QrUrl(orderNo, paymentMethod) == QrPrefix + orderNo + ['&'] + rest;
    ReadBackParameter(QrPrefix, orderNo, rest);
  }

  /** In p + v + "&" + rest, the text after p up to the first '&' is v when v holds no '&'. */
  lemma ReadBackParameter(p: string, v: string, rest: string)
    requires '&' !in v
    ensures var tail := (p + v + ['&'] + rest)[|p|..];
      IndexOf(tail, '&') == Some(|v|) && tail[..|v|] == v
  {
    var tail := (p + v + ['&'] + rest)[|p|..];
    assert tail == v + ['&'] + rest;
    IndexOfAfter(v, '&', rest);
  }

  /** The payment state the front end polls for. */
  datatype PaymentState = Paid | Pending | PaymentFailed | Unknown

  function PaymentStateName(p: PaymentState): string {
    match p
    case Paid => "paid"
    case Pending => "pending"
    case PaymentFailed => "failed"
    case Unknown => "unknown"
  }

  /** The classification of getOrderPaymentStatus. */
  function PaymentStatusOf(st: OrderStatus): (p: PaymentState)
    ensures p == Pending <==> st == PendingPayment
    ensures p == Unknown <==> st == RefundPending || st == Refunded
    ensures p == PaymentFailed ==> st != Completed && (IsFinal(st) || st == Failed)
  {
    if st == Processing || st == AwaitingShipment || st == Shipped || st == Delivered || st == Completed then Paid
    else if st == PendingPayment then Pending
    else if st == Cancelled || st == Failed then PaymentFailed
    else
      assert st.RefundPending? || st.Refunded?;
      Unknown
  }

  /** getOrderPaymentStatus: an unknown id is an EntityNotFoundException. */
  function GetOrderPaymentStatus(orders: seq<Order>, orderId: nat): (r: Result<string, Failure>)
    ensures r.Err? <==> forall j :: 0 <= j < |orders| ==> orders[j].id != orderId
    ensures r.Err? ==> r.error == EntityNotFound
    ensures r.Ok? ==> r.value in {"paid", "pending", "failed", "unknown"}
    ensures forall j :: FirstMatch(orders, ById(orderId), j) ==>
              r == Ok(PaymentStateName(PaymentStatusOf(orders[j].status)))
  {
    match Find(orders, ById(orderId))
    case None => Err(EntityNotFound)
    case Some(k) => Ok(PaymentStateName(PaymentStatusOf(orders[k].status)))
  }

  /**
   * The payment state follows the lifecycle: a new order is pending, the
   * poll stops ("paid") once it is paid for, whether processing, awaiting
   * shipment, shipped, delivered or completed; a cancelled or failed order
   * reads "failed", and only the refund statuses are unknown.
   */
  lemma PaymentStateFollowsLifecycle(st: OrderStatus)
    ensures PaymentStatusOf(PendingPayment) == Pending
    ensures PaymentStatusOf(AwaitingShipment) == Paid && PaymentStatusOf(Cancelled) == PaymentFailed
    ensures PaymentStatusOf(Processing) == Paid && PaymentStatusOf(Shipped) == Paid
    ensures PaymentStatusOf(Delivered) == Paid && PaymentStatusOf(Completed) == Paid
    ensures PaymentStatusOf(Failed) == PaymentFailed
    ensures PaymentStatusOf(RefundPending) == Unknown && PaymentStatusOf(Refunded) == Unknown
    ensures PaymentStatusOf(st) == Unknown <==> st == RefundPending || st == Refunded
    ensures PaymentStatusOf(st) == Paid ==> !IsFinal(st) || st == Completed
    ensures forall a, b :: PaymentStateName(a) == PaymentStateName(b) ==> a == b
  {
  }

  /**
   * Price of the freight rule: an order just below the free-freight line
   * pays more in total than one exactly at it.
   */
  lemma PayAmountDropsAtThreshold()
    ensures var below := FreeFreightThreshold - 1;
      below + CalculateFreight(below) > FreeFreightThreshold + CalculateFreight(FreeFreightThreshold)
  {
  }

  /**
   * A product listed on two lines must cover both: with 5 in stock, two
   * lines of 3 are refused although each line alone would be placed.
   */
  lemma RepeatedProductCheckedCumulatively()
    ensures var products := map[1 := NewProduct(1, "p", 1000, 5, "img")];
      var line := ItemRequest(Some(1), Some(3), None);
      && PlaceItems(products, 7, [line]).Ok?
      && PlaceItems(products, 7, [line, line]).Err?
  {
    var products := map[1 := NewProduct(1, "p", 1000, 5, "img")];
    var line := ItemRequest(Some(1), Some(3), None);
    PlaceItemsSucceedsIff(products, 7, [line, line]);
    assert [line, line][1..] == [line] && [line][1..] == [];
    assert QtySum([line], 1) == 3;
    assert QtySum([line, line], 1) == 6;
  }
}
