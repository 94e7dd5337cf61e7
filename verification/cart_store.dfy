/**
 * The Pinia cart store of the web client: its getters and the local list
 * transforms its actions make before (optimistic update) and after
 * (rollback) talking to the server. The network and localStorage are not
 * modelled; their outcomes are parameters.
 */
module CartStore {
  import opened Wrappers
  import opened JavaLists

  /**
   * A cart line. Lines built from the server carry the cart item's id and
   * the product's id; lines added on the client are the product object
   * itself, so their id is the product's and productId is absent.
   * `details` stands for the remaining copied fields.
   */
  datatype CartLine = CartLine(id: int, productId: Option<int>, quantity: int, selected: bool, details: map<string, string>)

  /** A product object as a page hands it to addToCart. */
  datatype Product = Product(id: int, details: map<string, string>)

  // ---------------------------------------------------------------------
  // Getters

  /** totalItems: the sum of the quantities. */
  function TotalItems(lines: seq<CartLine>): int {
    if lines == [] then 0 else TotalItems(lines[..|lines| - 1]) + lines[|lines| - 1].quantity
  }

  /** No line has a negative quantity: the total is not negative. With every quantity positive it is at least the line count. */
  lemma {:induction false} TotalItemsBounds(lines: seq<CartLine>)
    ensures (forall k :: 0 <= k < |lines| ==> lines[k].quantity >= 0) ==> TotalItems(lines) >= 0
    ensures (forall k :: 0 <= k < |lines| ==> lines[k].quantity >= 1) ==> TotalItems(lines) >= |lines|
  {
    if lines != [] {
      TotalItemsBounds(lines[..|lines| - 1]);
    }
  }

  /** cartItemCount: the number of lines. */
  function CartItemCount(lines: seq<CartLine>): (n: nat)
    ensures (forall k :: 0 <= k < |lines| ==> lines[k].quantity >= 1) ==> n <= TotalItems(lines)
    ensures n == 0 <==> lines == []
  {
    TotalItemsBounds(lines);
    |lines|
  }

  lemma {:induction false} TotalItemsAppend(a: seq<CartLine>, b: seq<CartLine>)
    ensures TotalItems(a + b) == TotalItems(a) + TotalItems(b)
    decreases |b|
  {
    if b == [] {
      assert a + b == a;
    } else {
      assert (a + b)[..|a + b| - 1] == a + b[..|b| - 1];
      TotalItemsAppend(a, b[..|b| - 1]);
    }
  }

  /** Changing one line's quantity changes the total by the difference. */
  lemma TotalItemsUpdate(lines: seq<CartLine>, k: nat, line: CartLine)
    requires k < |lines|
    ensures TotalItems(lines[k := line]) == TotalItems(lines) - lines[k].quantity + line.quantity
  {
    var before, after := lines[..k], lines[k + 1..];
    assert lines == before + [lines[k]] + after;
    assert lines[k := line] == before + [line] + after;
    TotalItemsAround(before, lines[k], after);
    TotalItemsAround(before, line, after);
  }

  /** Removing one line lowers the total by its quantity. */
  lemma TotalItemsRemove(lines: seq<CartLine>, k: nat)
    requires k < |lines|
    ensures TotalItems(lines[..k] + lines[k + 1..]) == TotalItems(lines) - lines[k].quantity
  {
    var before, after := lines[..k], lines[k + 1..];
    var upTo := lines[..k + 1];
    assert upTo + after == lines;
    TotalItemsAppend(upTo, after);
    assert upTo[..|upTo| - 1] == before;
    TotalItemsAppend(before, after);
  }

  /** A line between two runs adds its quantity to theirs. */
  lemma TotalItemsAround(before: seq<CartLine>, line: CartLine, after: seq<CartLine>)
    ensures TotalItems(before + [line] + after) == TotalItems(before) + line.quantity + TotalItems(after)
  {
    TotalItemsAppend(before + [line], after);
    assert (before + [line])[..|before|] == before;
  }

  // ---------------------------------------------------------------------
  // fetchCart

  /** A JSON value as the server sends it. */
  datatype JsValue = Undefined | Null | Bool(b: bool) | Num(n: int) | Str(s: string)

  /** Boolean(v): JavaScript truthiness. */
  predicate Truthy(v: JsValue) {
    match v
    case Undefined => false
    case Null => false
    case Bool(b) => b
    case Num(n) => n != 0
    case Str(s) => s != ""
  }

  /** The fields of a CartItemDTO the mapping reads. */
  datatype ApiItem = ApiItem(id: int, productId: int, quantity: JsValue, selected: JsValue, details: map<string, string>)

  /**
   * parseInt(v) || 0: the integer parseInt yields, or 0 when it yields NaN.
   * `parseInt` stands for parseInt on a string; numbers are integers here.
   */
  function QuantityOf(v: JsValue, parseInt: string -> Option<int>): (q: int)
    ensures v.Num? ==> q == v.n
    ensures v.Undefined? || v.Null? || v.Bool? ==> q == 0
  {
    match v
    case Num(n) => n
    case Str(s) => parseInt(s).GetOr(0)
    case _ => 0
  }

  /** selected: true when undefined, otherwise Boolean(value), so null means unselected. */
  function SelectedOf(v: JsValue): (b: bool)
    ensures v.Undefined? ==> b
    ensures v.Null? ==> !b
    ensures !v.Undefined? ==> (b <==> Truthy(v))
  {
    if v.Undefined? then true else Truthy(v)
  }

  function MapApiItem(item: ApiItem, parseInt: string -> Option<int>): (line: CartLine)
    ensures line.id == item.id && line.productId == Some(item.productId)
  {
    CartLine(item.id, Some(item.productId), QuantityOf(item.quantity, parseInt), SelectedOf(item.selected), item.details)
  }

  /** The mapping fetchCart applies to a successful response: one line per item, in order. */
  function MapApiItems(items: seq<ApiItem>, parseInt: string -> Option<int>): (lines: seq<CartLine>)
    ensures |lines| == |items|
    ensures forall k :: 0 <= k < |items| ==> lines[k] == MapApiItem(items[k], parseInt)
  {
    seq(|items|, k requires 0 <= k < |items| => MapApiItem(items[k], parseInt))
  }

  /** Every mapped line knows its product. */
  lemma MappedLinesKnowTheirProduct(items: seq<ApiItem>, parseInt: string -> Option<int>)
    ensures forall k :: 0 <= k < |items| ==> MapApiItems(items, parseInt)[k].productId == Some(items[k].productId)
  {
  }

  // ---------------------------------------------------------------------
  // addToCart

  /** The line for a product added on the client: the product's fields, quantity 1, selected. */
  function NewLine(p: Product): CartLine {
    CartLine(p.id, None, 1, true, p.details)
  }

  /**
   * addToCart as written: the first line whose id equals the product's id
   * gets one more; otherwise the product is appended as a new line.
   */
  function AddToCart(lines: seq<CartLine>, p: Product): (r: seq<CartLine>)
    ensures TotalItems(r) == TotalItems(lines) + 1
    ensures |r| == |lines| || |r| == |lines| + 1
    ensures |r| == |lines| + 1 <==> forall k :: 0 <= k < |lines| ==> lines[k].id != p.id
    ensures |r| == |lines| + 1 ==> r == lines + [NewLine(p)]
    ensures forall k :: 0 <= k < |lines| && lines[k].id == p.id && (forall i :: 0 <= i < k ==> lines[i].id != p.id) ==>
              r == lines[k := lines[k].(quantity := lines[k].quantity + 1)]
  {
    match IndexWhere(lines, (l: CartLine) => l.id == p.id)
    case Some(k) =>
      TotalItemsUpdate(lines, k, lines[k].(quantity := lines[k].quantity + 1));
      lines[k := lines[k].(quantity := lines[k].quantity + 1)]
    case None =>
      TotalItemsAppend(lines, [NewLine(p)]);
      assert TotalItems([NewLine(p)]) == 1 by { assert [NewLine(p)][..0] == []; }
      lines + [NewLine(p)]
  }

  /** The product a line is for: productId when known, else the line's own id. */
  function LineProduct(l: CartLine): int {
    l.productId.GetOr(l.id)
  }

  /** At most one line per product. */
  predicate OneLinePerProduct(lines: seq<CartLine>) {
    forall i, j :: 0 <= i < |lines| && 0 <= j < |lines| && LineProduct(lines[i]) == LineProduct(lines[j]) ==> i == j
  }

  /**
   * On a cart loaded from the server, addToCart compares cart-item ids
   * with a product id: a product already in the cart gets a second line,
   * and a line whose cart-item id happens to equal the product id is
   * incremented although it holds another product.
   */
  lemma AddToCartMatchesWrongLine()
    ensures var cart := [CartLine(7, Some(3), 1, true, map[])];
      var r := AddToCart(cart, Product(3, map[]));
      OneLinePerProduct(cart) && !OneLinePerProduct(r) && |r| == 2
    ensures var cart := [CartLine(3, Some(9), 1, true, map[])];
      AddToCart(cart, Product(3, map[])) == [CartLine(3, Some(9), 2, true, map[])]
  {
    var cart := [CartLine(7, Some(3), 1, true, map[])];
    var r := AddToCart(cart, Product(3, map[]));
    assert r == cart + [NewLine(Product(3, map[]))];
    assert LineProduct(r[0]) == LineProduct(r[1]);
    var cart2 := [CartLine(3, Some(9), 1, true, map[])];
    assert IndexWhere(cart2, (l: CartLine) => l.id == 3) == Some(0);
  }

  /** The index of the first line holding the product, if any. */
  function LineFor(lines: seq<CartLine>, productId: int): (r: Option<nat>)
    ensures r.Some? ==> r.value < |lines| && LineProduct(lines[r.value]) == productId
                        && forall j :: 0 <= j < r.value ==> LineProduct(lines[j]) != productId
    ensures r.None? <==> forall j :: 0 <= j < |lines| ==> LineProduct(lines[j]) != productId
  {
    IndexWhere(lines, (l: CartLine) => LineProduct(l) == productId)
  }

  /** Bumping the line LineFor finds is bumping the first line that holds the product. */
  lemma LineForIsFirst(lines: seq<CartLine>, productId: int, k: nat)
    requires LineFor(lines, productId) == Some(k)
    ensures forall j :: 0 <= j < |lines| && LineProduct(lines[j]) == productId
                        && (forall i :: 0 <= i < j ==> LineProduct(lines[i]) != productId) ==>
              lines[k := lines[k].(quantity := lines[k].quantity + 1)]
              == lines[j := lines[j].(quantity := lines[j].quantity + 1)]
  {
  }

  /** addToCart matching lines by the product they hold. */
  function AddToCartFixed(lines: seq<CartLine>, p: Product): (r: seq<CartLine>)
    ensures TotalItems(r) == TotalItems(lines) + 1
    ensures |r| == |lines| + 1 <==> forall k :: 0 <= k < |lines| ==> LineProduct(lines[k]) != p.id
    ensures |r| == |lines| + 1 ==> r == lines + [NewLine(p)]
    ensures forall k :: 0 <= k < |lines| && LineProduct(lines[k]) == p.id
                        && (forall i :: 0 <= i < k ==> LineProduct(lines[i]) != p.id) ==>
              r == lines[k := lines[k].(quantity := lines[k].quantity + 1)]
  {
    match LineFor(lines, p.id)
    case Some(k) =>
      TotalItemsUpdate(lines, k, lines[k].(quantity := lines[k].quantity + 1));
      LineForIsFirst(lines, p.id, k);
      lines[k := lines[k].(quantity := lines[k].quantity + 1)]
    case None =>
      TotalItemsAppend(lines, [NewLine(p)]);
      assert TotalItems([NewLine(p)]) == 1 by { assert [NewLine(p)][..0] == []; }
      lines + [NewLine(p)]
  }

  /** The corrected version keeps one line per product. */
  lemma AddToCartFixedKeepsOneLinePerProduct(lines: seq<CartLine>, p: Product)
    requires OneLinePerProduct(lines)
    ensures OneLinePerProduct(AddToCartFixed(lines, p))
  {
    var r := AddToCartFixed(lines, p);
    if |r| == |lines| + 1 {
      forall i, j | 0 <= i < |r| && 0 <= j < |r| && LineProduct(r[i]) == LineProduct(r[j])
        ensures i == j
      {
        if i < |lines| && j < |lines| {
          assert r[i] == lines[i] && r[j] == lines[j];
        }
      }
    }
  }

  /** On carts built by the client alone the two versions agree. */
  lemma AddToCartAgreesOnClientLines(lines: seq<CartLine>, p: Product)
    requires forall k :: 0 <= k < |lines| ==> lines[k].productId.None?
    ensures AddToCart(lines, p) == AddToCartFixed(lines, p)
  {
    var f1 := (l: CartLine) => l.id == p.id;
    var f2 := (l: CartLine) => LineProduct(l) == p.id;
    assert forall k :: 0 <= k < |lines| ==> (f1(lines[k]) <==> f2(lines[k]));
    IndexWhereSamePredicate(lines, f1, f2);
  }

  /** IndexWhere only sees the predicate's values on the sequence. */
  lemma IndexWhereSamePredicate<T>(xs: seq<T>, f: T -> bool, g: T -> bool)
    requires forall k :: 0 <= k < |xs| ==> (f(xs[k]) <==> g(xs[k]))
    ensures IndexWhere(xs, f) == IndexWhere(xs, g)
  {
  }

  // ---------------------------------------------------------------------
  // updateQuantity

  /**
   * updateQuantity, local part: for a line with the given id, a quantity
   * of 0 or less removes it and any other sets it; an unknown id changes
   * nothing.
   */
  function UpdateQuantityLocal(lines: seq<CartLine>, id: int, quantity: int): (r: seq<CartLine>)
    ensures IndexWhere(lines, (l: CartLine) => l.id == id).None? ==> r == lines
    ensures var k := IndexWhere(lines, (l: CartLine) => l.id == id);
      k.Some? ==> (if quantity <= 0 then r == lines[..k.value] + lines[k.value + 1..]
                   else r == lines[k.value := lines[k.value].(quantity := quantity)])
    ensures var k := IndexWhere(lines, (l: CartLine) => l.id == id);
      k.Some? ==> TotalItems(r) == TotalItems(lines) - lines[k.value].quantity + (if quantity <= 0 then 0 else quantity)
  {
    match IndexWhere(lines, (l: CartLine) => l.id == id)
    case None => lines
    case Some(k) =>
      if quantity <= 0 then
        TotalItemsRemove(lines, k);
        lines[..k] + lines[k + 1..]
      else
        TotalItemsUpdate(lines, k, lines[k].(quantity := quantity));
        lines[k := lines[k].(quantity := quantity)]
  }

  /**
   * The rollback after a failed update that did not remove the line: the
   * line at the remembered index gets its old quantity back.
   */
  function RestoreQuantity(lines: seq<CartLine>, index: nat, quantity: int): (r: seq<CartLine>)
    ensures |r| == |lines|
    ensures index < |lines| ==> r[index].quantity == quantity
  {
    if index < |lines| then lines[index := lines[index].(quantity := quantity)] else lines
  }

  /** Updating a quantity and rolling it back restores the cart. */
  lemma UpdateQuantityRollback(lines: seq<CartLine>, id: int, quantity: int)
    requires IndexWhere(lines, (l: CartLine) => l.id == id).Some? && quantity > 0
    ensures var k := IndexWhere(lines, (l: CartLine) => l.id == id).value;
      RestoreQuantity(UpdateQuantityLocal(lines, id, quantity), k, lines[k].quantity) == lines
  {
  }

  // ---------------------------------------------------------------------
  // toggleSelect

  /** toggleSelect, optimistic part: an unknown id throws; otherwise the line's selection flips. */
  function ToggleSelect(lines: seq<CartLine>, id: int): (r: Option<seq<CartLine>>)
    ensures r.None? <==> forall k :: 0 <= k < |lines| ==> lines[k].id != id
    ensures r.Some? ==> var k := IndexWhere(lines, (l: CartLine) => l.id == id).value;
      r.value == lines[k := lines[k].(selected := !lines[k].selected)]
  {
    match IndexWhere(lines, (l: CartLine) => l.id == id)
    case None => None
    case Some(k) => Some(lines[k := lines[k].(selected := !lines[k].selected)])
  }

  /** The rollback: the toggled line's selection is set back to the negation of the new state. */
  function UndoToggle(lines: seq<CartLine>, index: nat, newSelected: bool): (r: seq<CartLine>)
    ensures |r| == |lines|
    ensures index < |lines| ==> r[index].selected == !newSelected
  {
    if index < |lines| then lines[index := lines[index].(selected := !newSelected)] else lines
  }

  /** A failed toggle restores the original cart, and applying the rollback twice changes nothing more. */
  lemma ToggleSelectRollback(lines: seq<CartLine>, id: int)
    requires ToggleSelect(lines, id).Some?
    ensures var k := IndexWhere(lines, (l: CartLine) => l.id == id).value;
      var toggled := ToggleSelect(lines, id).value;
      var newSelected := toggled[k].selected;
      UndoToggle(toggled, k, newSelected) == lines
      && UndoToggle(UndoToggle(toggled, k, newSelected), k, newSelected) == lines
  {
  }

  /** Toggling never changes the quantities. */
  lemma ToggleKeepsTotals(lines: seq<CartLine>, id: int)
    requires ToggleSelect(lines, id).Some?
    ensures TotalItems(ToggleSelect(lines, id).value) == TotalItems(lines)
  {
    var k := IndexWhere(lines, (l: CartLine) => l.id == id).value;
    TotalItemsUpdate(lines, k, lines[k].(selected := !lines[k].selected));
  }

  // ---------------------------------------------------------------------
  // clearCart

  /**
   * clearCart: the list is emptied at once; when the user is logged in and
   * the server does not confirm, the copy taken before is put back.
   */
  function ClearCart(lines: seq<CartLine>, loggedIn: bool, serverConfirms: bool): (r: seq<CartLine>)
    ensures r == [] <==> (!loggedIn || serverConfirms || lines == [])
    ensures r != [] ==> r == lines
  {
    var snapshot := lines;
    if !loggedIn || serverConfirms then [] else snapshot
  }

  // ---------------------------------------------------------------------
  // removeItemsByIds

  /** removeItemsByIds: a non-array argument changes nothing; otherwise the listed ids are filtered out. */
  function RemoveItemsByIds(lines: seq<CartLine>, ids: Option<seq<int>>): (r: seq<CartLine>)
    ensures ids.None? ==> r == lines
    ensures ids.Some? ==> r == Keep(lines, ids.value)
  {
    if ids.None? then lines else Keep(lines, ids.value)
  }

  /** The lines whose id is not listed, in their original order. */
  function Keep(lines: seq<CartLine>, ids: seq<int>): (r: seq<CartLine>)
    ensures |r| <= |lines|
    ensures forall k :: 0 <= k < |r| ==> r[k].id !in ids && r[k] in lines
  {
    if lines == [] then []
    else
      var rest := Keep(lines[1..], ids);
      if lines[0].id in ids then rest else [lines[0]] + rest
  }

  /** Every unlisted line survives; none of the listed does. */
  lemma {:induction false} KeepExactlyUnlisted(lines: seq<CartLine>, ids: seq<int>, l: CartLine)
    ensures l in Keep(lines, ids) <==> l in lines && l.id !in ids
  {
    if lines != [] {
      KeepExactlyUnlisted(lines[1..], ids, l);
      if l == lines[0] && l.id !in ids {
        assert Keep(lines, ids)[0] == l;
      }
    }
  }

  /** Removing the same ids twice is removing them once; removing in two steps removes the union. */
  lemma {:induction false} KeepTwice(lines: seq<CartLine>, a: seq<int>, b: seq<int>)
    ensures Keep(Keep(lines, a), b) == Keep(lines, a + b)
    ensures Keep(Keep(lines, a), a) == Keep(lines, a)
  {
    if lines != [] {
      KeepTwice(lines[1..], a, b);
      var x := lines[0];
      if x.id !in a {
        assert Keep(lines, a) == [x] + Keep(lines[1..], a);
        assert ([x] + Keep(lines[1..], a))[1..] == Keep(lines[1..], a);
      }
    }
  }

  /** The kept lines are taken from the original ones: nothing is duplicated. */
  lemma {:induction false} KeepIsSubmultiset(lines: seq<CartLine>, ids: seq<int>)
    ensures multiset(Keep(lines, ids)) <= multiset(lines)
  {
    if lines != [] {
      KeepIsSubmultiset(lines[1..], ids);
      assert multiset(lines) == multiset{lines[0]} + multiset(lines[1..]) by {
        assert lines == [lines[0]] + lines[1..];
      }
    }
  }

  /** When no line is listed, every line is kept in its place. */
  lemma {:induction false} KeepUnlistedLines(lines: seq<CartLine>, ids: seq<int>)
    requires forall k :: 0 <= k < |lines| ==> lines[k].id !in ids
    ensures Keep(lines, ids) == lines
  {
    if lines != [] {
      KeepUnlistedLines(lines[1..], ids);
      assert lines == [lines[0]] + lines[1..];
    }
  }
}
