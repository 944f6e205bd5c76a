/**
 * The cart store of the storefront (src/App.tsx) and the two cart views that
 * render it (src/pages/CartSection.tsx, src/pages/ServicesAncCart.tsx).
 *
 * The cart is an ordered sequence of lines. Adding merges by `_id`: a line
 * already carrying the id gets its quantity raised by one, otherwise the
 * item is appended with quantity 1. Removing filters out every line with the
 * id. The total is the left fold of price * quantity over the lines.
 */
module Cart {

  import opened Js
  import opened Types
  import Seqs

  predicate HasId(cart: seq<CartItem>, id: string) {
    exists i :: 0 <= i < |cart| && cart[i].item.id == id
  }

  /** No two lines share an `_id`. */
  predicate UniqueIds(cart: seq<CartItem>) {
    forall i, j :: 0 <= i < j < |cart| ==> cart[i].item.id != cart[j].item.id
  }

  predicate PositiveQuantities(cart: seq<CartItem>) {
    forall i :: 0 <= i < |cart| ==> cart[i].quantity >= 1
  }

  /** The invariant the store keeps for a cart it built itself. */
  predicate WellFormed(cart: seq<CartItem>) {
    UniqueIds(cart) && PositiveQuantities(cart)
  }

  function IdIs(id: string): CartItem -> bool {
    (c: CartItem) => c.item.id == id
  }

  function IdIsNot(id: string): CartItem -> bool {
    (c: CartItem) => c.item.id != id
  }

  /** `prev.map(c => c._id === id ? { ...c, quantity: c.quantity + 1 } : c)`. */
  function Bump(cart: seq<CartItem>, id: string): (r: seq<CartItem>)
    ensures |r| == |cart|
    ensures forall i :: 0 <= i < |cart| ==>
              r[i] == if cart[i].item.id == id then cart[i].(quantity := cart[i].quantity + 1) else cart[i]
  {
    Seqs.Map(cart, (c: CartItem) => if c.item.id == id then c.(quantity := c.quantity + 1) else c)
  }

  /**
   * `handleAddToCart`: a line already holding the id keeps its stored item
   * (name, price, ...) and gains one unit, and nothing else moves; a new id
   * is appended as the last line with quantity 1.
   */
  function AddToCart(cart: seq<CartItem>, item: CartItemBase): (r: seq<CartItem>)
    ensures !HasId(cart, item.id) ==> |r| == |cart| + 1 && r[..|cart|] == cart
                                      && r[|cart|] == CartItem(item, 1)
    ensures HasId(cart, item.id) ==> |r| == |cart|
    ensures HasId(cart, item.id) ==> forall i :: 0 <= i < |cart| ==>
              r[i].item == cart[i].item
              && r[i].quantity == cart[i].quantity + (if cart[i].item.id == item.id then 1 else 0)
  {
    if HasId(cart, item.id) then Bump(cart, item.id) else cart + [CartItem(item, 1)]
  }

  /** `handleRemoveFromCart`: every line with the id goes, the rest stay in order. */
  function RemoveFromCart(cart: seq<CartItem>, id: string): (r: seq<CartItem>)
    ensures !HasId(r, id)
    ensures forall c :: c in r <==> c in cart && c.item.id != id
    ensures forall c :: multiset(r)[c] == if c.item.id != id then multiset(cart)[c] else 0
  {
    var r := Seqs.Filter(cart, IdIsNot(id));
    Seqs.FilterMembers(cart, IdIsNot(id));
    Seqs.FilterMultiset(cart, IdIsNot(id));
    assert forall i :: 0 <= i < |r| ==> r[i] in r;
    r
  }

  /**
   * The kept lines stay in cart order: removing from a concatenation removes
   * from each part in turn, and a single line is kept iff its id differs.
   */
  lemma RemoveKeepsOrder(a: seq<CartItem>, b: seq<CartItem>, c: CartItem, id: string)
    ensures RemoveFromCart(a + b, id) == RemoveFromCart(a, id) + RemoveFromCart(b, id)
    ensures RemoveFromCart([c], id) == if c.item.id == id then [] else [c]
  {
    Seqs.FilterAppend(a, b, IdIsNot(id));
    Seqs.FilterSnoc([], c, IdIsNot(id));
    assert [] + [c] == [c];
  }

  function LineTotal(c: CartItem): int {
    c.item.price * c.quantity
  }

  function Quantity(c: CartItem): int {
    c.quantity
  }

  function Price(c: CartItem): int {
    c.item.price
  }

  /** `cart.reduce((sum, item) => sum + item.price * item.quantity, 0)`. */
  function Total(cart: seq<CartItem>): int {
    Seqs.Sum(cart, LineTotal)
  }

  /** Total quantity over all lines. */
  function Units(cart: seq<CartItem>): int {
    Seqs.Sum(cart, Quantity)
  }

  /** Sum of the unit prices of some lines. */
  function UnitPrice(lines: seq<CartItem>): int {
    Seqs.Sum(lines, Price)
  }

  // ---------------------------------------------------------------------------
  // The merge-by-id invariant

  lemma AddKeepsWellFormed(cart: seq<CartItem>, item: CartItemBase)
    requires WellFormed(cart)
    ensures WellFormed(AddToCart(cart, item))
  {
    var r := AddToCart(cart, item);
    if !HasId(cart, item.id) {
      assert forall i :: 0 <= i < |cart| ==> r[i] == cart[i];
    }
  }

  lemma {:induction false} FilterKeepsUnique(cart: seq<CartItem>, f: CartItem -> bool)
    requires UniqueIds(cart)
    ensures UniqueIds(Seqs.Filter(cart, f))
    decreases |cart|
  {
    if |cart| > 0 {
      var init, last := cart[..|cart| - 1], cart[|cart| - 1];
      FilterKeepsUnique(init, f);
      var r := Seqs.Filter(init, f);
      Seqs.FilterMembers(init, f);
      forall k | 0 <= k < |r|
        ensures r[k].item.id != last.item.id
      {
        assert r[k] in init;
      }
    }
  }

  lemma RemoveKeepsWellFormed(cart: seq<CartItem>, id: string)
    requires WellFormed(cart)
    ensures WellFormed(RemoveFromCart(cart, id))
  {
    FilterKeepsUnique(cart, IdIsNot(id));
    var r := RemoveFromCart(cart, id);
    forall k | 0 <= k < |r|
      ensures r[k].quantity >= 1
    {
      assert r[k] in cart;
    }
  }

  /** A user action on the cart. */
  datatype CartOp = Add(item: CartItemBase) | Remove(id: string)

  function Apply(cart: seq<CartItem>, op: CartOp): seq<CartItem> {
    match op
    case Add(item) => AddToCart(cart, item)
    case Remove(id) => RemoveFromCart(cart, id)
  }

  function ApplyAll(cart: seq<CartItem>, ops: seq<CartOp>): seq<CartItem>
    decreases |ops|
  {
    if |ops| == 0 then cart else ApplyAll(Apply(cart, ops[0]), ops[1..])
  }

  /**
   * From a well-formed cart (the empty cart in particular), any sequence of
   * adds and removes keeps every `_id` unique and every quantity at least 1.
   */
  lemma {:induction false} ApplyAllKeepsWellFormed(cart: seq<CartItem>, ops: seq<CartOp>)
    requires WellFormed(cart)
    ensures WellFormed(ApplyAll(cart, ops))
    decreases |ops|
  {
    if |ops| > 0 {
      match ops[0] {
        case Add(item) => AddKeepsWellFormed(cart, item);
        case Remove(id) => RemoveKeepsWellFormed(cart, id);
      }
      ApplyAllKeepsWellFormed(Apply(cart, ops[0]), ops[1..]);
    }
  }

  // ---------------------------------------------------------------------------
  // Add and remove, line by line

  /** Adding the same new item twice gives one line with quantity 2, not two lines. */
  lemma AddTwice(cart: seq<CartItem>, item: CartItemBase)
    requires !HasId(cart, item.id)
    ensures AddToCart(AddToCart(cart, item), item) == cart + [CartItem(item, 2)]
  {
    var once := AddToCart(cart, item);
    assert once[|cart|].item.id == item.id;
    var twice := AddToCart(once, item);
    assert forall i :: 0 <= i < |cart| ==> twice[i] == cart[i];
  }

  /** Removing an id that no line carries leaves the cart as it is. */
  lemma RemoveAbsent(cart: seq<CartItem>, id: string)
    requires !HasId(cart, id)
    ensures RemoveFromCart(cart, id) == cart
  {
    Seqs.FilterAll(cart, IdIsNot(id));
  }

  /** Removing twice is the same as removing once. */
  lemma RemoveIdempotent(cart: seq<CartItem>, id: string)
    ensures RemoveFromCart(RemoveFromCart(cart, id), id) == RemoveFromCart(cart, id)
  {
    Seqs.FilterIdempotent(cart, IdIsNot(id));
  }

  /** In a cart with unique ids, the lines carrying `id` are exactly the line at `k`. */
  lemma LinesWithUniqueId(cart: seq<CartItem>, k: nat)
    requires UniqueIds(cart) && k < |cart|
    ensures Seqs.Filter(cart, IdIs(cart[k].item.id)) == [cart[k]]
  {
    var id := cart[k].item.id;
    forall i | 0 <= i < |cart| && i != k
      ensures !IdIs(id)(cart[i])
    {
      if i < k {
        assert cart[i].item.id != cart[k].item.id;
      } else {
        assert cart[k].item.id != cart[i].item.id;
      }
    }
    Seqs.FilterSingle(cart, k, IdIs(id));
  }

  // ---------------------------------------------------------------------------
  // The total

  lemma TotalAppend(a: seq<CartItem>, b: seq<CartItem>)
    ensures Total(a + b) == Total(a) + Total(b)
  {
    Seqs.SumAppend(a, b, LineTotal);
  }

  /** An empty cart totals 0; prices >= 0 and quantities >= 1 give a total >= 0. */
  lemma {:induction false} TotalNonNegative(cart: seq<CartItem>)
    requires forall i :: 0 <= i < |cart| ==> cart[i].item.price >= 0 && cart[i].quantity >= 1
    ensures Total(cart) >= 0
    ensures |cart| == 0 ==> Total(cart) == 0
    decreases |cart|
  {
    if |cart| > 0 {
      var init, last := cart[..|cart| - 1], cart[|cart| - 1];
      TotalNonNegative(init);
      assert LineTotal(last) >= 0;
    }
  }

  /** The total does not depend on the order of the lines. */
  lemma TotalPermutation(a: seq<CartItem>, b: seq<CartItem>)
    requires multiset(a) == multiset(b)
    ensures Total(a) == Total(b)
  {
    Seqs.SumPermutation(a, b, LineTotal);
  }

  lemma LineTotalBump(c: CartItem)
    ensures LineTotal(c.(quantity := c.quantity + 1)) == LineTotal(c) + c.item.price
  {
  }

  lemma BumpSnoc(cart: seq<CartItem>, c: CartItem, id: string)
    ensures Bump(cart + [c], id) ==
            Bump(cart, id) + [if c.item.id == id then c.(quantity := c.quantity + 1) else c]
  {
  }

  /** Bumping raises the total by the unit prices of the bumped lines. */
  lemma {:induction false} TotalBump(cart: seq<CartItem>, id: string)
    ensures Total(Bump(cart, id)) == Total(cart) + UnitPrice(Seqs.Filter(cart, IdIs(id)))
    decreases |cart|
  {
    if |cart| > 0 {
      var init, last := cart[..|cart| - 1], cart[|cart| - 1];
      assert cart == init + [last];
      TotalBump(init, id);
      var bumped := if last.item.id == id then last.(quantity := last.quantity + 1) else last;
      BumpSnoc(init, last, id);
      Seqs.SumSnoc(Bump(init, id), bumped, LineTotal);
      Seqs.SumSnoc(init, last, LineTotal);
      Seqs.FilterSnoc(init, last, IdIs(id));
      if last.item.id == id {
        LineTotalBump(last);
        Seqs.SumSnoc(Seqs.Filter(init, IdIs(id)), last, Price);
      } else {
        assert Seqs.Filter(init, IdIs(id)) + [] == Seqs.Filter(init, IdIs(id));
      }
    }
  }

  /**
   * Adding raises the total by one unit price: the stored line's price when
   * the id is already in the cart (the incoming price is ignored), the new
   * item's price otherwise.
   */
  lemma TotalAfterAdd(cart: seq<CartItem>, item: CartItemBase, k: nat)
    requires UniqueIds(cart)
    requires k < |cart| ==> cart[k].item.id == item.id
    requires k == |cart| ==> !HasId(cart, item.id)
    requires k <= |cart|
    ensures Total(AddToCart(cart, item)) ==
            Total(cart) + (if k < |cart| then cart[k].item.price else item.price)
  {
    if k < |cart| {
      TotalBump(cart, item.id);
      LinesWithUniqueId(cart, k);
      Seqs.SumSingle(cart[k], Price);
    } else {
      Seqs.SumSnoc(cart, CartItem(item, 1), LineTotal);
    }
  }

  /** Removing takes off exactly the line totals of the removed lines. */
  lemma {:induction false} TotalAfterRemoveAll(cart: seq<CartItem>, id: string)
    ensures Total(RemoveFromCart(cart, id)) == Total(cart) - Total(Seqs.Filter(cart, IdIs(id)))
    decreases |cart|
  {
    if |cart| > 0 {
      var init, last := cart[..|cart| - 1], cart[|cart| - 1];
      assert cart == init + [last];
      TotalAfterRemoveAll(init, id);
      Seqs.FilterSnoc(init, last, IdIs(id));
      Seqs.FilterSnoc(init, last, IdIsNot(id));
      Seqs.SumSnoc(init, last, LineTotal);
      if last.item.id == id {
        Seqs.SumSnoc(Seqs.Filter(init, IdIs(id)), last, LineTotal);
        assert Seqs.Filter(init, IdIsNot(id)) + [] == Seqs.Filter(init, IdIsNot(id));
      } else {
        Seqs.SumSnoc(Seqs.Filter(init, IdIsNot(id)), last, LineTotal);
        assert Seqs.Filter(init, IdIs(id)) + [] == Seqs.Filter(init, IdIs(id));
      }
    }
  }

  /** In a cart with unique ids, removing a present id lowers the total by that line's price * quantity. */
  lemma TotalAfterRemove(cart: seq<CartItem>, k: nat)
    requires UniqueIds(cart) && k < |cart|
    ensures Total(RemoveFromCart(cart, cart[k].item.id)) == Total(cart) - cart[k].item.price * cart[k].quantity
  {
    TotalAfterRemoveAll(cart, cart[k].item.id);
    LinesWithUniqueId(cart, k);
    Seqs.SumSingle(cart[k], LineTotal);
  }

  // ---------------------------------------------------------------------------
  // What the pages show

  /** The navbar badge count (`cart.length`): lines, not units. */
  function BadgeCount(cart: seq<CartItem>): (n: nat)
    ensures n == 0 <==> cart == []
    ensures n == |cart|
  {
    |cart|
  }

  /** The badge counts lines, not units: one line with two or more units puts it below the unit count. */
  lemma {:induction false} BadgeBelowUnits(cart: seq<CartItem>, k: nat)
    requires PositiveQuantities(cart)
    requires k < |cart| && cart[k].quantity > 1
    ensures BadgeCount(cart) < Units(cart)
    decreases |cart|
  {
    var init, last := cart[..|cart| - 1], cart[|cart| - 1];
    assert cart == init + [last];
    Seqs.SumSnoc(init, last, Quantity);
    if k == |cart| - 1 {
      BadgeAtMostUnits(init);
    } else {
      BadgeBelowUnits(init, k);
    }
  }

  /** The badge is rendered only for a positive count. */
  predicate BadgeShown(cartCount: int) {
    cartCount > 0
  }

  /** With every quantity at least 1, the badge never exceeds the number of units. */
  lemma {:induction false} BadgeAtMostUnits(cart: seq<CartItem>)
    requires PositiveQuantities(cart)
    ensures BadgeCount(cart) <= Units(cart)
    decreases |cart|
  {
    if |cart| > 0 {
      BadgeAtMostUnits(cart[..|cart| - 1]);
    }
  }

  /** The body of a cart panel: the empty-cart message, or the lines with total and Checkout. */
  datatype CartBody = EmptyMessage | Lines(lines: seq<CartItem>, total: int)

  predicate OffersCheckout(b: CartBody) {
    b.Lines?
  }

  /** The cart modal of CartSection.tsx. */
  function ModalBody(cart: seq<CartItem>): (b: CartBody)
    ensures OffersCheckout(b) <==> |cart| > 0
    ensures b.EmptyMessage? <==> |cart| == 0
    ensures b.Lines? ==> b.lines == cart && b.total == Total(cart)
  {
    if |cart| == 0 then EmptyMessage else Lines(cart, Total(cart))
  }

  /** The cart column of ServicesAncCart.tsx: an "N item(s)" header above the same body. */
  datatype CartPanel = CartPanel(itemCount: nat, body: CartBody)

  function SidePanel(cart: seq<CartItem>): (p: CartPanel)
    ensures p.itemCount == |cart|
    ensures OffersCheckout(p.body) <==> p.itemCount > 0
  {
    CartPanel(|cart|, ModalBody(cart))
  }

  /** Reordering the cart changes neither panel's total nor its item count. */
  lemma PanelIgnoresOrder(a: seq<CartItem>, b: seq<CartItem>)
    requires multiset(a) == multiset(b)
    ensures SidePanel(a).itemCount == SidePanel(b).itemCount
    ensures SidePanel(a).body.Lines? ==> SidePanel(a).body.total == SidePanel(b).body.total
  {
    assert |a| == |multiset(a)| == |multiset(b)| == |b|;
    TotalPermutation(a, b);
  }
}
