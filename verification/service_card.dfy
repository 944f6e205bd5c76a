/**
 * Display pricing of one service card (src/components/ServiceCard.tsx).
 *
 * The card decides whether an offer is running (some price record has a
 * truthy discount and an end date still in the future), picks the "best"
 * record by a strict-maximum fold over the discount, shows that record's
 * `actualPrice` (or the service's current price) and hands a cart item
 * carrying that price to the cart. `now` stands for `new Date()`.
 */
module ServiceCard {

  import opened Js
  import opened Types
  import Cart

  /** A record carries a running offer: truthy discount, an end date, and the end after `now`. */
  predicate OfferRunning(p: ServicePrice, now: int) {
    NumTruthy(p.offerDiscount) && p.offerEnd.Some? && p.offerEnd.value > now
  }

  /** `prices.some(OfferRunning)`, scanning from the front. */
  function AnyOfferRunning(prices: seq<ServicePrice>, now: int): (b: bool)
    ensures b <==> exists i :: 0 <= i < |prices| && OfferRunning(prices[i], now)
    decreases |prices|
  {
    if |prices| == 0 then false
    else if OfferRunning(prices[0], now) then true
    else
      var b := AnyOfferRunning(prices[1..], now);
      assert forall i :: 1 <= i < |prices| ==> prices[i] == prices[1..][i - 1];
      b
  }

  /** `hasOffer`: undefined `prices` make `prices?.some(...)` undefined, which is falsy. */
  function HasOffer(prices: Option<seq<ServicePrice>>, now: int): (b: bool)
    ensures b <==> prices.Some? && exists i :: 0 <= i < |prices.value| && OfferRunning(prices.value[i], now)
  {
    prices.Some? && AnyOfferRunning(prices.value, now)
  }

  /** An offer running at some time is running at every earlier time too. */
  lemma HasOfferEarlier(prices: Option<seq<ServicePrice>>, now: int, earlier: int)
    requires earlier <= now
    requires HasOffer(prices, now)
    ensures HasOffer(prices, earlier)
  {
    var i :| 0 <= i < |prices.value| && OfferRunning(prices.value[i], now);
    assert OfferRunning(prices.value[i], earlier);
  }

  /** `offerDiscount || 0`. */
  function Discount(p: ServicePrice): int {
    NumOr(p.offerDiscount, 0)
  }

  /** One step of the fold: the current record replaces the best only with a strictly larger discount. */
  function Step(best: ServicePrice, current: ServicePrice): ServicePrice {
    if Discount(current) > Discount(best) then current else best
  }

  /** `s.reduce(Step, init)`, left to right. */
  function Fold(s: seq<ServicePrice>, init: ServicePrice): ServicePrice
    decreases |s|
  {
    if |s| == 0 then init else Step(Fold(s[..|s| - 1], init), s[|s| - 1])
  }

  /**
   * The position of the first record with the largest discount: every
   * record's discount is at most its discount, and every earlier record's is
   * strictly smaller.
   */
  function FirstMaxIndex(s: seq<ServicePrice>): (k: nat)
    requires |s| > 0
    ensures k < |s|
    ensures forall i :: 0 <= i < |s| ==> Discount(s[i]) <= Discount(s[k])
    ensures forall i :: 0 <= i < k ==> Discount(s[i]) < Discount(s[k])
    decreases |s|
  {
    if |s| == 1 then 0
    else
      var init := s[..|s| - 1];
      var k := FirstMaxIndex(init);
      assert forall i :: 0 <= i < |init| ==> s[i] == init[i];
      if Discount(s[|s| - 1]) > Discount(s[k]) then |s| - 1 else k
  }

  /** The fold seeded with the first record lands on the first record of largest discount. */
  lemma {:induction false} FoldFindsFirstMax(s: seq<ServicePrice>)
    requires |s| > 0
    ensures Fold(s, s[0]) == s[FirstMaxIndex(s)]
    decreases |s|
  {
    if |s| == 1 {
      assert s[..0] == [];
    } else {
      var init := s[..|s| - 1];
      FoldFindsFirstMax(init);
      assert init[0] == s[0];
      assert init[FirstMaxIndex(init)] == s[FirstMaxIndex(init)];
    }
  }

  /**
   * `bestPrice`: `prices?.reduce(Step, prices[0])`. Undefined `prices` give
   * undefined, and an empty list returns the seed `prices[0]`, which is
   * undefined too.
   */
  function BestPrice(prices: Option<seq<ServicePrice>>): (best: Option<ServicePrice>)
    ensures best.None? <==> prices.None? || |prices.value| == 0
    ensures best.Some? ==> best.value == prices.value[FirstMaxIndex(prices.value)]
  {
    match prices
    case None => None
    case Some(s) =>
      if |s| == 0 then None
      else
        FoldFindsFirstMax(s);
        Some(Fold(s, s[0]))
  }

  /**
   * The best record has the largest discount of all records (missing counts
   * as 0), and on a tie the earliest record wins.
   */
  lemma BestPriceIsFirstMax(prices: seq<ServicePrice>)
    requires |prices| > 0
    ensures exists k :: 0 <= k < |prices| && BestPrice(Some(prices)) == Some(prices[k])
              && (forall i :: 0 <= i < |prices| ==> Discount(prices[i]) <= Discount(prices[k]))
              && (forall i :: 0 <= i < k ==> Discount(prices[i]) < Discount(prices[k]))
  {
    var k := FirstMaxIndex(prices);
    assert BestPrice(Some(prices)) == Some(prices[k]);
  }

  /** `displayPrice`: `bestPrice?.actualPrice || service.currentActivePrice`. */
  function DisplayPrice(e: EnhancedService): (price: int)
    ensures BestPrice(e.prices).None? ==> price == e.service.currentActivePrice
    ensures BestPrice(e.prices).Some? ==> price == NumOr(BestPrice(e.prices).value.actualPrice, e.service.currentActivePrice)
  {
    var best := BestPrice(e.prices);
    if best.Some? then NumOr(best.value.actualPrice, e.service.currentActivePrice)
    else e.service.currentActivePrice
  }

  /**
   * The discount is never taken off the shown price: it is the current
   * price or some record's stored `actualPrice`.
   */
  lemma DisplayPriceIsStored(e: EnhancedService)
    ensures DisplayPrice(e) == e.service.currentActivePrice
            || (e.prices.Some? && exists p :: p in e.prices.value && p.actualPrice == Some(DisplayPrice(e)))
  {
    var best := BestPrice(e.prices);
    if best.Some? && NumTruthy(best.value.actualPrice) {
      assert best.value in e.prices.value;
    }
  }

  /** What follows the price in the tag: nothing, or `(<discount>% off)` of the best record. */
  datatype OfferNote = NoNote | PercentOff(discount: Option<int>)

  /** The price tag: `₹<price><note>` when there is a best record, else the `showoffPriceTag`. */
  datatype PriceTag = Rupees(amount: int, note: OfferNote) | Showoff(tag: int)

  function Tag(e: EnhancedService, now: int): (t: PriceTag)
    ensures t.Showoff? <==> BestPrice(e.prices).None?
    ensures t.Showoff? ==> t.tag == e.service.showoffPriceTag
    ensures t.Rupees? ==> t.amount == DisplayPrice(e)
    ensures t.Rupees? ==> (t.note.PercentOff? <==> HasOffer(e.prices, now))
    ensures t.Rupees? && t.note.PercentOff? ==> t.note.discount == BestPrice(e.prices).value.offerDiscount
  {
    var best := BestPrice(e.prices);
    if best.Some? then
      Rupees(DisplayPrice(e), if HasOffer(e.prices, now) then PercentOff(best.value.offerDiscount) else NoNote)
    else Showoff(e.service.showoffPriceTag)
  }

  /** Without price records there is no best record: the card shows the current price and the showoff tag. */
  lemma NoPricesNoBest(e: EnhancedService, now: int)
    requires e.prices.None? || e.prices.value == []
    ensures BestPrice(e.prices).None?
    ensures DisplayPrice(e) == e.service.currentActivePrice
    ensures Tag(e, now) == Showoff(e.service.showoffPriceTag)
    ensures !HasOffer(e.prices, now)
  {
  }

  /**
   * `hasOffer` looks at every record, not at the best one: a running 10%
   * offer next to an expired 50% one makes the tag announce the expired
   * 50%.
   */
  lemma OfferNoteIndependentOfBest()
    ensures var running := ServicePrice("a", "S1", Some(100), Some(10), Some(20), true, None);
            var expired := ServicePrice("b", "S1", Some(100), Some(50), Some(5), true, None);
            var e := EnhancedService(ServiceMaster("s", "S1", "Deep clean", 100, 120, None, true, None, None),
                                     Some([running, expired]));
            BestPrice(e.prices) == Some(expired) && !OfferRunning(expired, 10)
            && Tag(e, 10) == Rupees(100, PercentOff(Some(50)))
  {
    var running := ServicePrice("a", "S1", Some(100), Some(10), Some(20), true, None);
    var expired := ServicePrice("b", "S1", Some(100), Some(50), Some(5), true, None);
    var prices := [running, expired];
    assert FirstMaxIndex(prices) == 1 by {
      assert Discount(prices[1]) > Discount(prices[0]);
    }
    assert OfferRunning(prices[0], 10);
  }

  /** The item the "Add to Cart" button hands over. */
  function Payload(e: EnhancedService): (item: CartItemBase)
    ensures item.id == e.service.id && item.name == e.service.serviceName
    ensures item.price == DisplayPrice(e)
    ensures item.kind == ServiceItem && item.includedServices.None?
    ensures item.image == e.service.serviceWebImage && item.icon == e.service.serviceAppIcon
  {
    CartItemBase(e.service.id, e.service.serviceName, DisplayPrice(e),
                 e.service.serviceWebImage, e.service.serviceAppIcon, ServiceItem, None)
  }

  /** Adding a card's service to a cart without it raises the cart total by the shown price. */
  lemma AddingCardRaisesTotalByDisplayPrice(cart: seq<CartItem>, e: EnhancedService)
    requires Cart.UniqueIds(cart)
    requires !Cart.HasId(cart, e.service.id)
    ensures Cart.Total(Cart.AddToCart(cart, Payload(e))) == Cart.Total(cart) + DisplayPrice(e)
  {
    Cart.TotalAfterAdd(cart, Payload(e), |cart|);
  }
}
