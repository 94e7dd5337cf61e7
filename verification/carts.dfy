/**
 * The cart aggregate: Cart and CartItem with their helper methods and
 * lifecycle hooks, and CartServiceImpl's operations. Each user has at most
 * one cart (user_id is unique), created lazily; a cart holds at most one
 * line per product (the (cart_id, product_id) constraint). The current
 * user is a parameter; products are only read, never written.
 */
module Carts {
  import opened Wrappers
  import opened JavaLists
  import opened ResultCodes
  import opened Catalog

  /** A cart line. `selected` is a nullable Boolean column. */
  datatype CartItem = CartItem(
    id: nat,
    cartRef: Option<nat>,
    productId: nat,
    quantity: int,
    selected: Option<bool>,
    createTime: Option<int>,
    updateTime: Option<int>)

  datatype Cart = Cart(id: nat, userId: nat, items: seq<CartItem>)

  /** The cart table plus the identity counters of both tables. */
  datatype CartState = CartState(carts: map<nat, Cart>, nextCartId: nat, nextItemId: nat)

  /** `new Cart(user)`: no lines yet. */
  function NewCart(id: nat, userId: nat): (c: Cart)
    ensures c.items == [] && c.userId == userId && c.id == id
  {
    Cart(id, userId, [])
  }

  /** `new CartItem()` with product and quantity set: selected defaults to true. */
  function NewCartItem(id: nat, productId: nat, quantity: int): (it: CartItem)
    ensures it.selected == Some(true) && it.cartRef.None?
    ensures it.createTime.None? && it.updateTime.None?
    ensures it.id == id && it.productId == productId && it.quantity == quantity
  {
    CartItem(id, None, productId, quantity, Some(true), None, None)
  }

  /** @PrePersist onCreate: both timestamps become the clock. */
  function OnCreate(it: CartItem, now: int): (r: CartItem)
    ensures r.createTime == Some(now) && r.updateTime == Some(now)
    ensures r.(createTime := it.createTime, updateTime := it.updateTime) == it
  {
    it.(createTime := Some(now), updateTime := Some(now))
  }

  /** @PreUpdate onUpdate: only the update time moves. */
  function OnUpdate(it: CartItem, now: int): (r: CartItem)
    ensures r.updateTime == Some(now) && r.createTime == it.createTime
    ensures r.(updateTime := it.updateTime) == it
  {
    it.(updateTime := Some(now))
  }

  /** A flush runs onUpdate only for a line whose state actually changed. */
  function Flush(before: CartItem, after: CartItem, now: int): (r: CartItem)
    ensures before == after ==> r == before
    ensures before != after ==> r == after.(updateTime := Some(now))
  {
    if before == after then after else OnUpdate(after, now)
  }

  /** Cart.addItem: null is ignored; otherwise the line is appended and linked to the cart. */
  function AddItem(c: Cart, item: Option<CartItem>): (r: (Cart, Option<CartItem>))
    ensures item.None? ==> r == (c, item)
    ensures item.Some? ==> r.1 == Some(item.value.(cartRef := Some(c.id)))
    ensures item.Some? ==> r.0 == c.(items := c.items + [item.value.(cartRef := Some(c.id))])
  {
    match item
    case None => (c, item)
    case Some(it) =>
      var linked := it.(cartRef := Some(c.id));
      (c.(items := c.items + [linked]), Some(linked))
  }

  /** Cart.removeItem: null is ignored; otherwise the first equal line is removed and unlinked. */
  function RemoveItem(c: Cart, item: Option<CartItem>): (r: (Cart, Option<CartItem>))
    ensures item.None? ==> r == (c, item)
    ensures item.Some? ==> r.1 == Some(item.value.(cartRef := None))
    ensures item.Some? ==> multiset(r.0.items) == multiset(c.items) - multiset{item.value}
    ensures r.0 == c.(items := r.0.items)
  {
    match item
    case None => (c, item)
    case Some(it) => (c.(items := RemoveFirst(c.items, it)), Some(it.(cartRef := None)))
  }

  /** Adding a line that is not yet in the cart and removing it again restores the cart. */
  lemma AddThenRemoveItem(c: Cart, it: CartItem)
    requires it.(cartRef := Some(c.id)) !in c.items
    ensures var (c1, stored) := AddItem(c, Some(it));
      RemoveItem(c1, stored).0 == c && RemoveItem(c1, stored).1 == Some(it.(cartRef := None))
  {
    RemoveFirstAfterAppend(c.items, it.(cartRef := Some(c.id)));
  }

  // ---------------------------------------------------------------------
  // Invariants

  /** The (cart_id, product_id) constraint: at most one line per product. */
  predicate OneLinePerProduct(items: seq<CartItem>) {
    forall i, j :: 0 <= i < j < |items| ==> items[i].productId != items[j].productId
  }

  predicate DistinctItemIds(items: seq<CartItem>) {
    forall i, j :: 0 <= i < j < |items| ==> items[i].id != items[j].id
  }

  /**
   * A well-formed cart: its lines point back at it, one line per product,
   * distinct line ids below the counter, and every quantity positive.
   */
  predicate CartValid(c: Cart, nextItemId: nat) {
    && (forall i :: 0 <= i < |c.items| ==> c.items[i].cartRef == Some(c.id))
    && OneLinePerProduct(c.items)
    && DistinctItemIds(c.items)
    && (forall i :: 0 <= i < |c.items| ==> c.items[i].id < nextItemId && c.items[i].quantity > 0)
  }

  /** Every cart is stored under its user, is well formed and has an id below the counter. */
  predicate Valid(st: CartState) {
    forall u :: u in st.carts ==>
      st.carts[u].userId == u && st.carts[u].id < st.nextCartId && CartValid(st.carts[u], st.nextItemId)
  }

  // ---------------------------------------------------------------------
  // Service operations

  /**
   * getOrCreateUserCart: the user's cart, or a new empty one saved with the
   * next cart id.
   */
  function GetOrCreateUserCart(st: CartState, userId: nat): (r: (CartState, Cart))
    ensures userId in r.0.carts && r.0.carts[userId] == r.1 && r.1.userId == (if userId in st.carts then st.carts[userId].userId else userId)
    ensures userId in st.carts ==> r == (st, st.carts[userId])
    ensures userId !in st.carts ==> r.1 == NewCart(st.nextCartId, userId) && r.0.nextCartId == st.nextCartId + 1
    ensures r.0.carts.Keys == st.carts.Keys + {userId} && r.0.nextItemId == st.nextItemId
    ensures forall u :: u in st.carts ==> r.0.carts[u] == st.carts[u]
    ensures Valid(st) ==> Valid(r.0)
  {
    if userId in st.carts then (st, st.carts[userId])
    else
      var c := NewCart(st.nextCartId, userId);
      (CartState(st.carts[userId := c], st.nextCartId + 1, st.nextItemId), c)
  }

  /** A second call finds the cart the first one created: at most one cart per user. */
  lemma GetOrCreateIdempotent(st: CartState, userId: nat)
    ensures var (st1, c1) := GetOrCreateUserCart(st, userId);
      GetOrCreateUserCart(st1, userId) == (st1, c1) && |st1.carts.Keys| <= |st.carts.Keys| + 1
  {
    var (st1, c1) := GetOrCreateUserCart(st, userId);
    if userId !in st.carts {
      assert st1.carts.Keys == st.carts.Keys + {userId};
    }
  }

  /** getCartCount: the number of lines (not the quantity), 0 without a cart. */
  function GetCartCount(st: CartState, userId: nat): (n: nat)
    ensures userId !in st.carts ==> n == 0
    ensures userId in st.carts ==> n == |st.carts[userId].items|
  {
    if userId in st.carts then |st.carts[userId].items| else 0
  }

  /**
   * What the service returns for a line: id, product id, quantity and
   * selection (the product's display fields are left to the product table).
   */
  datatype CartLineView = CartLineView(id: Option<nat>, productId: Option<nat>, quantity: int, selected: Option<bool>)

  function ViewOf(it: CartItem): (v: CartLineView)
    ensures v.id == Some(it.id) && v.productId == Some(it.productId)
    ensures v.quantity == it.quantity && v.selected == it.selected
  {
    CartLineView(Some(it.id), Some(it.productId), it.quantity, it.selected)
  }

  /** getCartList: the views of the user's lines in order, [] without a cart. */
  function GetCartList(st: CartState, userId: nat): (r: seq<CartLineView>)
    ensures userId !in st.carts ==> r == []
    ensures userId in st.carts ==> |r| == |st.carts[userId].items|
    ensures userId in st.carts ==> forall i :: 0 <= i < |r| ==> r[i] == ViewOf(st.carts[userId].items[i])
  {
    if userId !in st.carts then []
    else seq(|st.carts[userId].items|, i requires 0 <= i < |st.carts[userId].items| => ViewOf(st.carts[userId].items[i]))
  }

  /** Replaces line k of the user's cart. */
  function SetLine(st: CartState, userId: nat, k: nat, it: CartItem): (r: CartState)
    requires userId in st.carts && k < |st.carts[userId].items|
    ensures r.nextCartId == st.nextCartId && r.nextItemId == st.nextItemId
    ensures r.carts.Keys == st.carts.Keys
    ensures forall u :: u in st.carts && u != userId ==> r.carts[u] == st.carts[u]
    ensures r.carts[userId] == st.carts[userId].(items := st.carts[userId].items[k := it])
  {
    var c := st.carts[userId];
    st.(carts := st.carts[userId := c.(items := c.items[k := it])])
  }

  /** The message addToCart throws when the summed quantity exceeds the stock. */
  const SumExceedsStock: string := "添加后总数量将超过库存"

  /** The message of a cart-item id that is not among the caller's lines. */
  const LineNotFound: string := "购物车项不存在或不属于当前用户"

  /** The message of a found line whose back-reference names another cart. */
  const LineNotInCart: string := "购物车项不属于当前用户的购物车"

  /**
   * addToCart. The quantity is at least 1 (bean validation of the request).
   * An unknown product or a quantity above the stock fails and nothing is
   * saved, not even a freshly created cart (the call is one transaction).
   * An existing line for the product absorbs the quantity, subject to the
   * stock, and is selected again; otherwise a new selected line is added.
   */
  function AddToCart(st: CartState, products: Products, userId: nat, productId: nat, quantity: int, now: int)
    : (r: Result<(CartState, CartLineView), Failure>)
    requires quantity >= 1
    ensures r.Err? ==> r.error == Fail(ProductNotExists) || r.error == Fail(StockNotEnough)
                       || r.error == FailWith(StockNotEnough, SumExceedsStock)
    ensures r.Err? && r.error == Fail(ProductNotExists) <==> productId !in products
    ensures productId in products && products[productId].stock < quantity ==> r == Err(Fail(StockNotEnough))
    ensures r.Ok? ==> userId in r.value.0.carts && r.value.0.carts.Keys == st.carts.Keys + {userId}
    ensures r.Ok? ==> forall u :: u in st.carts && u != userId ==> r.value.0.carts[u] == st.carts[u]
  {
    var (st1, cart) := GetOrCreateUserCart(st, userId);
    if productId !in products then Err(Fail(ProductNotExists))
    else
      var stock := products[productId].stock;
      if stock < quantity then Err(Fail(StockNotEnough))
      else
        match IndexWhere(cart.items, (it: CartItem) => it.productId == productId)
        case Some(k) =>
          var prev := cart.items[k];
          var newQuantity := prev.quantity + quantity;
          if stock < newQuantity && quantity > 0 then Err(FailWith(StockNotEnough, SumExceedsStock))
          else
            var line := Flush(prev, prev.(quantity := newQuantity, selected := Some(true)), now);
            Ok((SetLine(st1, userId, k, line), ViewOf(line)))
        case None =>
          var (c2, stored) := AddItem(cart, Some(NewCartItem(st1.nextItemId, productId, quantity)));
          var line := OnCreate(stored.value, now);
          var c3 := c2.(items := cart.items + [line]);
          Ok((CartState(st1.carts[userId := c3], st1.nextCartId, st1.nextItemId + 1), ViewOf(line)))
  }

  /** The range of a Java `int`. */
  predicate IsInt(x: int) {
    -0x8000_0000 <= x < 0x8000_0000
  }

  /** Java `int` addition: the exact sum wrapped into the `int` range. */
  function IntAdd(a: int, b: int): (r: int)
    ensures IsInt(r)
    ensures (a + b - r) % 0x1_0000_0000 == 0
    ensures IsInt(a + b) ==> r == a + b
  {
    (a + b + 0x8000_0000) % 0x1_0000_0000 - 0x8000_0000
  }

  /**
   * addToCart as written: `cartItem.getQuantity() + quantity` is an `int`
   * sum, so past 2^31 - 1 it wraps to a negative number, passes the stock
   * check and is stored. Wherever the sum fits it is addToCart above.
   */
  function AddToCartAsWritten(st: CartState, products: Products, userId: nat, productId: nat, quantity: int, now: int)
    : (r: Result<(CartState, CartLineView), Failure>)
    requires quantity >= 1
    ensures (LineOf(st, userId, productId).None?
             || IsInt(st.carts[userId].items[LineOf(st, userId, productId).value].quantity + quantity))
            ==> r == AddToCart(st, products, userId, productId, quantity, now)
  {
    var (st1, cart) := GetOrCreateUserCart(st, userId);
    if productId !in products then Err(Fail(ProductNotExists))
    else
      var stock := products[productId].stock;
      if stock < quantity then Err(Fail(StockNotEnough))
      else
        match IndexWhere(cart.items, (it: CartItem) => it.productId == productId)
        case Some(k) =>
          var prev := cart.items[k];
          var newQuantity := IntAdd(prev.quantity, quantity);
          if stock < newQuantity && quantity > 0 then Err(FailWith(StockNotEnough, SumExceedsStock))
          else
            var line := Flush(prev, prev.(quantity := newQuantity, selected := Some(true)), now);
            Ok((SetLine(st1, userId, k, line), ViewOf(line)))
        case None =>
          var (c2, stored) := AddItem(cart, Some(NewCartItem(st1.nextItemId, productId, quantity)));
          var line := OnCreate(stored.value, now);
          var c3 := c2.(items := cart.items + [line]);
          Ok((CartState(st1.carts[userId := c3], st1.nextCartId, st1.nextItemId + 1), ViewOf(line)))
  }

  /**
   * With two billion in stock and in the line, adding two billion more is
   * accepted as written and stores a negative quantity; the model refuses it.
   */
  lemma AddToCartAsWrittenStoresNegative(st: CartState, products: Products, userId: nat, productId: nat, now: int)
    requires productId in products && products[productId].stock == 2_000_000_000
    requires LineOf(st, userId, productId).Some?
    requires st.carts[userId].items[LineOf(st, userId, productId).value].quantity == 2_000_000_000
    ensures var r := AddToCartAsWritten(st, products, userId, productId, 2_000_000_000, now);
      r.Ok? && r.value.1.quantity == -294_967_296
    ensures AddToCart(st, products, userId, productId, 2_000_000_000, now) == Err(FailWith(StockNotEnough, SumExceedsStock))
  {
    assert IntAdd(2_000_000_000, 2_000_000_000) == -294_967_296;
  }

  /** The position of the user's line for a product, if the user has a cart with one. */
  function LineOf(st: CartState, userId: nat, productId: nat): Option<nat> {
    if userId !in st.carts then None
    else IndexWhere(st.carts[userId].items, (it: CartItem) => it.productId == productId)
  }

  /**
   * addToCart on a product already in the cart: the line's quantity grows
   * by the amount, the line is selected, no other line changes and no line
   * is added; it fails when the sum would exceed the stock.
   */
  lemma AddToCartExistingLine(st: CartState, products: Products, userId: nat, productId: nat, quantity: int, now: int)
    requires quantity >= 1 && productId in products && products[productId].stock >= quantity
    requires LineOf(st, userId, productId).Some?
    ensures var k := LineOf(st, userId, productId).value;
      var prev := st.carts[userId].items[k];
      var r := AddToCart(st, products, userId, productId, quantity, now);
      && (r.Ok? <==> prev.quantity + quantity <= products[productId].stock)
      && (r.Err? ==> r.error == FailWith(StockNotEnough, SumExceedsStock))
      && (r.Ok? ==>
            var items := r.value.0.carts[userId].items;
            && |items| == |st.carts[userId].items|
            && items[k].quantity == prev.quantity + quantity && items[k].selected == Some(true)
            && items[k].id == prev.id && items[k].productId == productId
            && (forall j :: 0 <= j < |items| && j != k ==> items[j] == st.carts[userId].items[j])
            && r.value.1.quantity == prev.quantity + quantity)
  {
  }

  /**
   * addToCart on a product not yet in the cart appends one selected line
   * with exactly the requested quantity and leaves the other lines alone.
   */
  lemma AddToCartNewLine(st: CartState, products: Products, userId: nat, productId: nat, quantity: int, now: int)
    requires quantity >= 1 && productId in products && products[productId].stock >= quantity
    requires LineOf(st, userId, productId).None?
    ensures var r := AddToCart(st, products, userId, productId, quantity, now);
      var before := if userId in st.carts then st.carts[userId].items else [];
      && r.Ok?
      && r.value.0.carts[userId].items[..|before|] == before
      && |r.value.0.carts[userId].items| == |before| + 1
      && var line := r.value.0.carts[userId].items[|before|];
         line.productId == productId && line.quantity == quantity && line.selected == Some(true)
         && line.createTime == Some(now) && line.id == st.nextItemId
  {
  }

  /** Appending a fresh line for a product the cart lacks keeps the cart well formed. */
  lemma AppendLineValid(c: Cart, line: CartItem, nextItemId: nat)
    requires CartValid(c, nextItemId)
    requires line.cartRef == Some(c.id) && line.id == nextItemId && line.quantity > 0
    requires forall j :: 0 <= j < |c.items| ==> c.items[j].productId != line.productId
    ensures CartValid(c.(items := c.items + [line]), nextItemId + 1)
  {
    var xs := c.items + [line];
    assert forall i :: 0 <= i < |c.items| ==> xs[i] == c.items[i];
    assert xs[|c.items|] == line;
  }

  /** Replacing line k by one with the same id, product and link and a positive quantity keeps the cart well formed. */
  lemma ReplaceLineValid(c: Cart, k: nat, line: CartItem, nextItemId: nat)
    requires CartValid(c, nextItemId) && k < |c.items|
    requires line.id == c.items[k].id && line.productId == c.items[k].productId
    requires line.cartRef == c.items[k].cartRef && line.quantity > 0
    ensures CartValid(c.(items := c.items[k := line]), nextItemId)
  {
  }

  /** addToCart keeps every cart well formed; in particular no second line for a product appears. */
  lemma AddToCartValid(st: CartState, products: Products, userId: nat, productId: nat, quantity: int, now: int)
    requires Valid(st) && quantity >= 1
    requires AddToCart(st, products, userId, productId, quantity, now).Ok?
    ensures Valid(AddToCart(st, products, userId, productId, quantity, now).value.0)
  {
    var (st1, cart) := GetOrCreateUserCart(st, userId);
    var r := AddToCart(st, products, userId, productId, quantity, now).value.0;
    match IndexWhere(cart.items, (it: CartItem) => it.productId == productId)
    case None =>
      var line := OnCreate(NewCartItem(st1.nextItemId, productId, quantity).(cartRef := Some(cart.id)), now);
      assert r == CartState(st1.carts[userId := cart.(items := cart.items + [line])], st1.nextCartId, st1.nextItemId + 1);
      AppendLineStateValid(st1, userId, line);
    case Some(k) =>
      var prev := cart.items[k];
      var line := Flush(prev, prev.(quantity := prev.quantity + quantity, selected := Some(true)), now);
      assert r == SetLine(st1, userId, k, line);
      SetLineStateValid(st1, userId, k, line);
  }

  /** Appending a fresh line for a product the user's cart lacks keeps the state valid. */
  lemma AppendLineStateValid(st: CartState, userId: nat, line: CartItem)
    requires Valid(st) && userId in st.carts
    requires line.cartRef == Some(st.carts[userId].id) && line.id == st.nextItemId && line.quantity > 0
    requires forall j :: 0 <= j < |st.carts[userId].items| ==> st.carts[userId].items[j].productId != line.productId
    ensures var c := st.carts[userId];
      Valid(CartState(st.carts[userId := c.(items := c.items + [line])], st.nextCartId, st.nextItemId + 1))
  {
    var c := st.carts[userId];
    AppendLineValid(c, line, st.nextItemId);
    PutCartValid(st, userId, c.(items := c.items + [line]), st.nextItemId + 1);
  }

  /** Replacing a line by one with the same id, product and link and a positive quantity keeps the state valid. */
  lemma SetLineStateValid(st: CartState, userId: nat, k: nat, line: CartItem)
    requires Valid(st) && userId in st.carts && k < |st.carts[userId].items|
    requires line.id == st.carts[userId].items[k].id && line.productId == st.carts[userId].items[k].productId
    requires line.cartRef == st.carts[userId].items[k].cartRef && line.quantity > 0
    ensures Valid(SetLine(st, userId, k, line))
  {
    var c := st.carts[userId];
    ReplaceLineValid(c, k, line, st.nextItemId);
    PutCartValid(st, userId, c.(items := c.items[k := line]), st.nextItemId);
  }

  /** Storing a well-formed cart under its user, with the line counter not lowered, keeps the state valid. */
  lemma PutCartValid(st: CartState, userId: nat, c: Cart, nextItemId: nat)
    requires Valid(st) && userId in st.carts && nextItemId >= st.nextItemId
    requires c.id == st.carts[userId].id && c.userId == userId && CartValid(c, nextItemId)
    ensures Valid(st.(carts := st.carts[userId := c], nextItemId := nextItemId))
  {
    forall u | u in st.carts && u != userId
      ensures CartValid(st.carts[u], nextItemId)
    {
      CartValidLaterCounter(st.carts[u], st.nextItemId, nextItemId);
    }
  }

  /** Raising the line counter keeps a cart well formed. */
  lemma CartValidLaterCounter(c: Cart, n: nat, m: nat)
    requires CartValid(c, n) && n <= m
    ensures CartValid(c, m)
  {
  }

  /**
   * Adding the same product twice adds up the quantities, as one line,
   * when the stock covers the sum.
   */
  lemma AddToCartTwiceAccumulates(st: CartState, products: Products, userId: nat, productId: nat, q1: int, q2: int, now1: int, now2: int)
    requires q1 >= 1 && q2 >= 1 && productId in products && products[productId].stock >= q1 + q2
    requires LineOf(st, userId, productId).None?
    ensures var r1 := AddToCart(st, products, userId, productId, q1, now1);
      && r1.Ok?
      && var r2 := AddToCart(r1.value.0, products, userId, productId, q2, now2);
      && r2.Ok?
      && GetCartCount(r2.value.0, userId) == GetCartCount(r1.value.0, userId)
      && r2.value.1.quantity == q1 + q2
  {
    AddToCartNewLine(st, products, userId, productId, q1, now1);
    var st1 := AddToCart(st, products, userId, productId, q1, now1).value.0;
    var items := st1.carts[userId].items;
    var before := if userId in st.carts then st.carts[userId].items else [];
    assert forall j :: 0 <= j < |before| ==> items[j] == before[j];
    assert IndexWhere(items, (it: CartItem) => it.productId == productId) == Some(|before|);
    AddToCartExistingLine(st1, products, userId, productId, q2, now2);
  }

  /** The position of the line with an id in the user's cart. */
  function LineById(c: Cart, cartItemId: nat): Option<nat> {
    IndexWhere(c.items, (it: CartItem) => it.id == cartItemId)
  }

  /** Removes line k of a cart the way Cart.removeItem does. */
  function DropLine(st: CartState, userId: nat, k: nat): (r: CartState)
    requires userId in st.carts && k < |st.carts[userId].items|
    ensures r.nextCartId == st.nextCartId && r.nextItemId == st.nextItemId && r.carts.Keys == st.carts.Keys
    ensures forall u :: u in st.carts && u != userId ==> r.carts[u] == st.carts[u]
    ensures multiset(r.carts[userId].items) == multiset(st.carts[userId].items) - multiset{st.carts[userId].items[k]}
    ensures r.carts[userId] == st.carts[userId].(items := r.carts[userId].items)
  {
    var c := st.carts[userId];
    st.(carts := st.carts[userId := RemoveItem(c, Some(c.items[k])).0])
  }

  /** In a cart with distinct line ids, removing line k leaves exactly the other lines, in order. */
  lemma DropLineExact(st: CartState, userId: nat, k: nat)
    requires userId in st.carts && k < |st.carts[userId].items|
    requires DistinctItemIds(st.carts[userId].items)
    ensures DropLine(st, userId, k).carts[userId].items == st.carts[userId].items[..k] + st.carts[userId].items[k + 1..]
  {
    var xs := st.carts[userId].items;
    forall j | 0 <= j < k ensures xs[j] != xs[k] {
      assert xs[j].id != xs[k].id;
    }
    RemoveFirstAt(xs, k);
  }

  /** Dropping a line keeps the cart well formed. */
  lemma DropLineValid(c: Cart, k: nat, nextItemId: nat)
    requires CartValid(c, nextItemId) && k < |c.items|
    ensures CartValid(c.(items := c.items[..k] + c.items[k + 1..]), nextItemId)
  {
    var xs := c.items[..k] + c.items[k + 1..];
    assert forall i :: 0 <= i < |xs| ==> xs[i] == c.items[if i < k then i else i + 1];
  }

  /** Removing a line of a well-formed state keeps it valid. */
  lemma DropLineStateValid(st: CartState, userId: nat, k: nat)
    requires Valid(st) && userId in st.carts && k < |st.carts[userId].items|
    ensures Valid(DropLine(st, userId, k))
  {
    var c := st.carts[userId];
    DropLineExact(st, userId, k);
    DropLineValid(c, k, st.nextItemId);
    var c2 := c.(items := c.items[..k] + c.items[k + 1..]);
    PutCartValid(st, userId, c2, st.nextItemId);
    assert DropLine(st, userId, k) == st.(carts := st.carts[userId := c2]);
  }

  /**
   * updateCartItemQuantity. The line must be in the caller's cart. A
   * quantity of 0 or less removes the line and answers a view with no id,
   * no product id and quantity 0; otherwise the stock must cover the new
   * quantity, which replaces the old one.
   */
  function UpdateCartItemQuantity(st: CartState, products: Products, userId: nat, cartItemId: nat, quantity: int, now: int)
    : (r: Result<(CartState, CartLineView), Failure>)
    requires forall u, i :: u in st.carts && 0 <= i < |st.carts[u].items| ==> st.carts[u].items[i].productId in products
    ensures r.Err? ==> r.error == FailWith(CartItemNotExists, LineNotFound)
                       || r.error == FailWith(CartItemNotExists, LineNotInCart) || r.error == Fail(StockNotEnough)
    ensures userId !in st.carts || LineById(st.carts[userId], cartItemId).None?
            ==> r == Err(FailWith(CartItemNotExists, LineNotFound))
    ensures userId in st.carts && LineById(st.carts[userId], cartItemId).Some?
            ==> var it := st.carts[userId].items[LineById(st.carts[userId], cartItemId).value];
                && (it.cartRef != Some(st.carts[userId].id) ==> r == Err(FailWith(CartItemNotExists, LineNotInCart)))
                && (it.cartRef == Some(st.carts[userId].id) && quantity > 0 && products[it.productId].stock < quantity
                    ==> r == Err(Fail(StockNotEnough)))
    ensures r.Ok? && quantity <= 0 ==> r.value.1.quantity == 0 && r.value.1.id.None? && r.value.1.productId.None?
    ensures r.Ok? && quantity > 0 ==> r.value.1.quantity == quantity
    ensures r.Ok? ==> r.value.0.carts.Keys == st.carts.Keys
  {
    var (st1, cart) := GetOrCreateUserCart(st, userId);
    match LineById(cart, cartItemId)
    case None => Err(FailWith(CartItemNotExists, LineNotFound))
    case Some(k) =>
      var it := cart.items[k];
      if it.cartRef != Some(cart.id) then Err(FailWith(CartItemNotExists, LineNotInCart))
      else if quantity <= 0 then
        Ok((DropLine(st1, userId, k), CartLineView(None, None, 0, it.selected)))
      else if products[it.productId].stock < quantity then Err(Fail(StockNotEnough))
      else
        var line := Flush(it, it.(quantity := quantity), now);
        Ok((SetLine(st1, userId, k, line), ViewOf(line)))
  }

  /** removeFromCart: the line must be in the caller's cart; it is removed. */
  function RemoveFromCart(st: CartState, userId: nat, cartItemId: nat): (r: Result<CartState, Failure>)
    ensures r.Err? ==> r.error == FailWith(CartItemNotExists, LineNotFound)
    ensures r.Err? <==> userId !in st.carts || LineById(st.carts[userId], cartItemId).None?
    ensures r.Ok? ==> r.value.carts.Keys == st.carts.Keys
    ensures r.Ok? ==> |r.value.carts[userId].items| == |st.carts[userId].items| - 1
    ensures r.Ok? ==> forall u :: u in st.carts && u != userId ==> r.value.carts[u] == st.carts[u]
  {
    var (st1, cart) := GetOrCreateUserCart(st, userId);
    match LineById(cart, cartItemId)
    case None => Err(FailWith(CartItemNotExists, LineNotFound))
    case Some(k) => Ok(DropLine(st1, userId, k))
  }

  /**
   * In a well-formed cart, removing a line keeps exactly the other lines in
   * order, and setting its quantity to 0 is the same removal.
   */
  lemma RemoveFromCartSpec(st: CartState, products: Products, userId: nat, cartItemId: nat, now: int)
    requires Valid(st)
    requires forall u, i :: u in st.carts && 0 <= i < |st.carts[u].items| ==> st.carts[u].items[i].productId in products
    requires RemoveFromCart(st, userId, cartItemId).Ok?
    ensures var k := LineById(st.carts[userId], cartItemId).value;
      var items := st.carts[userId].items;
      && RemoveFromCart(st, userId, cartItemId).value.carts[userId].items == items[..k] + items[k + 1..]
      && (forall i :: 0 <= i < |items| && i != k ==> items[i].id != cartItemId)
      && UpdateCartItemQuantity(st, products, userId, cartItemId, 0, now).Ok?
      && UpdateCartItemQuantity(st, products, userId, cartItemId, 0, now).value.0
         == RemoveFromCart(st, userId, cartItemId).value
  {
    var k := LineById(st.carts[userId], cartItemId).value;
    DropLineExact(st, userId, k);
  }

  /** removeFromCart keeps every cart well formed. */
  lemma RemoveKeepsValid(st: CartState, userId: nat, cartItemId: nat)
    requires Valid(st)
    ensures RemoveFromCart(st, userId, cartItemId).Ok? ==> Valid(RemoveFromCart(st, userId, cartItemId).value)
  {
    if userId in st.carts && LineById(st.carts[userId], cartItemId).Some? {
      DropLineStateValid(st, userId, LineById(st.carts[userId], cartItemId).value);
    }
  }

  /** updateCartItemQuantity keeps every cart well formed. */
  lemma UpdateQuantityKeepsValid(st: CartState, products: Products, userId: nat, cartItemId: nat, quantity: int, now: int)
    requires Valid(st)
    requires forall u, i :: u in st.carts && 0 <= i < |st.carts[u].items| ==> st.carts[u].items[i].productId in products
    ensures UpdateCartItemQuantity(st, products, userId, cartItemId, quantity, now).Ok? ==>
              Valid(UpdateCartItemQuantity(st, products, userId, cartItemId, quantity, now).value.0)
  {
    if userId in st.carts && LineById(st.carts[userId], cartItemId).Some? {
      var k := LineById(st.carts[userId], cartItemId).value;
      var it := st.carts[userId].items[k];
      if quantity > 0 {
        SetLineStateValid(st, userId, k, Flush(it, it.(quantity := quantity), now));
      } else {
        DropLineStateValid(st, userId, k);
      }
    }
  }

  /**
   * updateCartItemQuantity with a positive quantity changes only that
   * line's quantity, and only when the stock covers it.
   */
  lemma UpdateQuantityPositive(st: CartState, products: Products, userId: nat, cartItemId: nat, quantity: int, now: int)
    requires Valid(st) && quantity > 0
    requires forall u, i :: u in st.carts && 0 <= i < |st.carts[u].items| ==> st.carts[u].items[i].productId in products
    requires userId in st.carts && LineById(st.carts[userId], cartItemId).Some?
    ensures var k := LineById(st.carts[userId], cartItemId).value;
      var prev := st.carts[userId].items[k];
      var r := UpdateCartItemQuantity(st, products, userId, cartItemId, quantity, now);
      && (r.Ok? <==> quantity <= products[prev.productId].stock)
      && (r.Ok? ==>
            var items := r.value.0.carts[userId].items;
            && |items| == |st.carts[userId].items|
            && items[k] == Flush(prev, prev.(quantity := quantity), now)
            && forall j :: 0 <= j < |items| && j != k ==> items[j] == st.carts[userId].items[j])
  {
  }

  /** clearCart: the user's cart (created if missing) keeps existing but loses every line. */
  function ClearCart(st: CartState, userId: nat): (r: CartState)
    ensures userId in r.carts && r.carts[userId].items == [] && GetCartCount(r, userId) == 0
    ensures r.carts.Keys == st.carts.Keys + {userId}
    ensures userId in st.carts ==> r.carts[userId].id == st.carts[userId].id
    ensures forall u :: u in st.carts && u != userId ==> r.carts[u] == st.carts[u]
    ensures Valid(st) ==> Valid(r)
  {
    var (st1, cart) := GetOrCreateUserCart(st, userId);
    st1.(carts := st1.carts[userId := cart.(items := [])])
  }

  /** updateCartItemSelected: one line's flag is set to the given (nullable) value. */
  function UpdateCartItemSelected(st: CartState, userId: nat, cartItemId: nat, selected: Option<bool>, now: int)
    : (r: Result<(CartState, CartLineView), Failure>)
    ensures r.Err? <==> userId !in st.carts || LineById(st.carts[userId], cartItemId).None?
    ensures r.Err? ==> r.error == FailWith(CartItemNotExists, LineNotFound)
    ensures r.Ok? ==> r.value.0.carts.Keys == st.carts.Keys
    ensures r.Ok? ==> var k := LineById(st.carts[userId], cartItemId).value;
      var items := r.value.0.carts[userId].items;
      && |items| == |st.carts[userId].items|
      && items[k].selected == selected && r.value.1.selected == selected
      && items[k].quantity == st.carts[userId].items[k].quantity
      && (forall j :: 0 <= j < |items| && j != k ==> items[j] == st.carts[userId].items[j])
  {
    var (st1, cart) := GetOrCreateUserCart(st, userId);
    match LineById(cart, cartItemId)
    case None => Err(FailWith(CartItemNotExists, LineNotFound))
    case Some(k) =>
      var it := cart.items[k];
      var line := Flush(it, it.(selected := selected), now);
      Ok((SetLine(st1, userId, k, line), ViewOf(line)))
  }

  /** updateCartItemSelected keeps every cart well formed. */
  lemma SelectionKeepsValid(st: CartState, userId: nat, cartItemId: nat, selected: Option<bool>, now: int)
    requires Valid(st)
    ensures UpdateCartItemSelected(st, userId, cartItemId, selected, now).Ok? ==>
              Valid(UpdateCartItemSelected(st, userId, cartItemId, selected, now).value.0)
  {
    if userId in st.carts && LineById(st.carts[userId], cartItemId).Some? {
      var k := LineById(st.carts[userId], cartItemId).value;
      var it := st.carts[userId].items[k];
      SetLineStateValid(st, userId, k, Flush(it, it.(selected := selected), now));
    }
  }

  /** Every line of a list with its flag set. */
  function SelectAll(items: seq<CartItem>, selected: Option<bool>, now: int): (r: seq<CartItem>)
    ensures |r| == |items|
    ensures forall i :: 0 <= i < |r| ==> r[i].selected == selected
    ensures forall i :: 0 <= i < |r| ==> r[i] == Flush(items[i], items[i].(selected := selected), now)
  {
    seq(|items|, i requires 0 <= i < |items| => Flush(items[i], items[i].(selected := selected), now))
  }

  /**
   * updateAllCartItemsSelected: every line gets the flag and the views are
   * returned; an empty cart gives [] (the cart itself is still created).
   */
  function UpdateAllCartItemsSelected(st: CartState, userId: nat, selected: Option<bool>, now: int)
    : (r: (CartState, seq<CartLineView>))
    ensures r.0.carts.Keys == st.carts.Keys + {userId}
    ensures |r.0.carts[userId].items| == GetCartCount(st, userId)
    ensures forall i :: 0 <= i < |r.0.carts[userId].items| ==> r.0.carts[userId].items[i].selected == selected
    ensures GetCartCount(st, userId) == 0 ==> r.1 == []
    ensures |r.1| == GetCartCount(st, userId)
    ensures forall i :: 0 <= i < |r.1| ==> r.1[i].selected == selected
    ensures forall u :: u in st.carts && u != userId ==> r.0.carts[u] == st.carts[u]
  {
    var (st1, cart) := GetOrCreateUserCart(st, userId);
    if |cart.items| == 0 then (st1, [])
    else
      var items := SelectAll(cart.items, selected, now);
      var st2 := st1.(carts := st1.carts[userId := cart.(items := items)]);
      (st2, seq(|items|, i requires 0 <= i < |items| => ViewOf(items[i])))
  }

  /**
   * Selection changes nothing but flags and update times: ids, products and
   * quantities of every line stay, so selection keeps a cart well formed.
   */
  lemma SelectionKeepsLines(st: CartState, userId: nat, selected: Option<bool>, now: int)
    requires Valid(st)
    ensures var st2 := UpdateAllCartItemsSelected(st, userId, selected, now).0;
      && Valid(st2)
      && forall i :: 0 <= i < GetCartCount(st, userId) ==>
           st2.carts[userId].items[i].(selected := None, updateTime := None)
           == st.carts[userId].items[i].(selected := None, updateTime := None)
  {
    var (st1, cart) := GetOrCreateUserCart(st, userId);
    if |cart.items| > 0 {
      var items := SelectAll(cart.items, selected, now);
      assert forall i :: 0 <= i < |items| ==> items[i].(selected := None, updateTime := None)
                                              == cart.items[i].(selected := None, updateTime := None);
      assert CartValid(cart.(items := items), st1.nextItemId) by {
        assert forall i :: 0 <= i < |items| ==> items[i].id == cart.items[i].id && items[i].productId == cart.items[i].productId;
      }
      PutCartValid(st1, userId, cart.(items := items), st1.nextItemId);
    }
  }
}
