/**
 * Pricing shown on a package card (src/components/PackageCard.tsx).
 *
 * The card compares the package's joined price with a "regular" price: the
 * sum of the included services' showoff prices (their current price when
 * the showoff price is 0), or the package price plus 20% when no service is
 * included. Prices are integers; the ×1.2 and the percentage are computed
 * over exact reals (`Math.round` and floating point are not modelled).
 */
module PackageCard {

  import opened Js
  import opened Types
  import Catalog
  import Cart

  /** `service.showoffPriceTag || service.currentActivePrice`. */
  function RegularServicePrice(s: EnhancedService): int {
    if s.service.showoffPriceTag != 0 then s.service.showoffPriceTag else s.service.currentActivePrice
  }

  /** The reduce that sums `RegularServicePrice` over the included services. */
  function SumRegular(services: seq<EnhancedService>): int
    decreases |services|
  {
    if |services| == 0 then 0
    else SumRegular(services[..|services| - 1]) + RegularServicePrice(services[|services| - 1])
  }

  /** True when the package includes at least one service (`includedServices` present and non-empty). */
  predicate HasIncluded(p: EnhancedPackage) {
    p.includedServices.Some? && |p.includedServices.value| > 0
  }

  /** `calculateRegularPrice()`. */
  function RegularPrice(p: EnhancedPackage): (regular: real)
    ensures !HasIncluded(p) ==> regular == p.packagePrice as real * 6.0 / 5.0
    ensures HasIncluded(p) ==> regular == SumRegular(p.includedServices.value) as real
  {
    if !HasIncluded(p) then p.packagePrice as real * 6.0 / 5.0
    else SumRegular(p.includedServices.value) as real
  }

  /** `savings = regularPrice - packagePrice`. */
  function Savings(p: EnhancedPackage): real {
    RegularPrice(p) - p.packagePrice as real
  }

  /** `hasDiscount`: the savings badge and the struck-out regular price are shown. */
  predicate HasDiscount(p: EnhancedPackage) {
    Savings(p) > 0.0
  }

  /** `savingsPercentage` before rounding: 0 unless the regular price is positive. */
  function SavingsPercentage(p: EnhancedPackage): (pct: real)
    ensures RegularPrice(p) <= 0.0 ==> pct == 0.0
    ensures RegularPrice(p) > 0.0 ==> pct * RegularPrice(p) == Savings(p) * 100.0
  {
    if RegularPrice(p) > 0.0 then Savings(p) / RegularPrice(p) * 100.0 else 0.0
  }

  /**
   * Without included services the regular price is the package price plus a
   * fifth, so a positively priced package always shows a discount of one
   * sixth of the regular price.
   */
  lemma FallbackShowsOneSixthOff(p: EnhancedPackage)
    requires !HasIncluded(p)
    ensures Savings(p) == p.packagePrice as real / 5.0
    ensures HasDiscount(p) <==> p.packagePrice > 0
    ensures p.packagePrice > 0 ==> SavingsPercentage(p) * 6.0 == 100.0
  {
    var price := p.packagePrice as real;
    if p.packagePrice > 0 {
      var regular := RegularPrice(p);
      assert regular == price * 6.0 / 5.0;
      assert SavingsPercentage(p) * regular == price / 5.0 * 100.0;
      assert SavingsPercentage(p) * 6.0 * price == 100.0 * price;
    }
  }

  /** The percentage saved never exceeds 100 when the package price is not negative. */
  lemma PercentageAtMostHundred(p: EnhancedPackage)
    requires p.packagePrice >= 0
    ensures SavingsPercentage(p) <= 100.0
  {
    var regular := RegularPrice(p);
    if regular > 0.0 {
      var pct := SavingsPercentage(p);
      assert pct * regular == (regular - p.packagePrice as real) * 100.0;
      assert pct * regular <= 100.0 * regular;
    }
  }

  /** The per-service strike-through: the showoff price is above the current one. */
  predicate ServiceStruckThrough(s: EnhancedService) {
    s.service.showoffPriceTag > s.service.currentActivePrice
  }

  /** What a service adds to the package's savings over its joined price. */
  function Extra(s: EnhancedService): int {
    RegularServicePrice(s) - s.service.currentActivePrice
  }

  function SumExtra(services: seq<EnhancedService>): int
    decreases |services|
  {
    if |services| == 0 then 0
    else SumExtra(services[..|services| - 1]) + Extra(services[|services| - 1])
  }

  lemma {:induction false} SumRegularSplits(services: seq<EnhancedService>)
    ensures SumRegular(services) == Catalog.SumCurrentPrices(services) + SumExtra(services)
    decreases |services|
  {
    if |services| > 0 {
      SumRegularSplits(services[..|services| - 1]);
    }
  }

  /**
   * For a package as the catalog joins it, with services included, the
   * savings are what the included services' showoff prices add over their
   * current prices.
   */
  lemma {:induction false} JoinedSavings(pkg: PackageService, enhanced: seq<EnhancedService>, prices: seq<ServicePrice>)
    requires HasIncluded(Catalog.EnhancePackage(pkg, enhanced, prices))
    ensures Savings(Catalog.EnhancePackage(pkg, enhanced, prices))
            == SumExtra(Catalog.EnhancePackage(pkg, enhanced, prices).includedServices.value) as real
  {
    var p := Catalog.EnhancePackage(pkg, enhanced, prices);
    SumRegularSplits(p.includedServices.value);
  }

  /**
   * A service without strike-through adds nothing positive (its showoff price
   * is 0, so its current price counts, or it is at most the current price);
   * a struck-through one adds the difference.
   */
  lemma ExtraOfService(s: EnhancedService)
    ensures !ServiceStruckThrough(s) ==> Extra(s) <= 0
    ensures ServiceStruckThrough(s) && s.service.showoffPriceTag != 0 ==> Extra(s) > 0
  {
  }

  lemma {:induction false} SumExtraNonPositive(services: seq<EnhancedService>)
    requires forall i :: 0 <= i < |services| ==> !ServiceStruckThrough(services[i])
    ensures SumExtra(services) <= 0
    decreases |services|
  {
    if |services| > 0 {
      SumExtraNonPositive(services[..|services| - 1]);
      ExtraOfService(services[|services| - 1]);
    }
  }

  /** A joined package none of whose services is struck through shows no discount. */
  lemma NoStrikeThroughNoDiscount(pkg: PackageService, enhanced: seq<EnhancedService>, prices: seq<ServicePrice>)
    requires HasIncluded(Catalog.EnhancePackage(pkg, enhanced, prices))
    requires forall i :: 0 <= i < |Catalog.EnhancePackage(pkg, enhanced, prices).includedServices.value| ==>
               !ServiceStruckThrough(Catalog.EnhancePackage(pkg, enhanced, prices).includedServices.value[i])
    ensures !HasDiscount(Catalog.EnhancePackage(pkg, enhanced, prices))
  {
    JoinedSavings(pkg, enhanced, prices);
    SumExtraNonPositive(Catalog.EnhancePackage(pkg, enhanced, prices).includedServices.value);
  }

  /** The item the "Add Package" button hands over: the joined price, no icon. */
  function Payload(p: EnhancedPackage): (item: CartItemBase)
    ensures item.id == p.pkg.id && item.name == p.pkg.packageName
    ensures item.price == p.packagePrice
    ensures item.kind == PackageItem && item.includedServices == p.includedServices
    ensures item.image == Some(p.pkg.packageImageWeb) && item.icon.None?
  {
    CartItemBase(p.pkg.id, p.pkg.packageName, p.packagePrice, Some(p.pkg.packageImageWeb), None,
                 PackageItem, p.includedServices)
  }

  /**
   * Adding the card raises the cart total by the package price, both when
   * the package is new to the cart and when the same package is already a
   * line of it.
   */
  lemma AddingPackageRaisesTotalByPrice(cart: seq<CartItem>, p: EnhancedPackage)
    requires Cart.UniqueIds(cart)
    ensures !Cart.HasId(cart, p.pkg.id) ==>
              Cart.Total(Cart.AddToCart(cart, Payload(p))) == Cart.Total(cart) + p.packagePrice
    ensures (exists k :: 0 <= k < |cart| && cart[k].item == Payload(p)) ==>
              Cart.Total(Cart.AddToCart(cart, Payload(p))) == Cart.Total(cart) + p.packagePrice
  {
    if k :| 0 <= k < |cart| && cart[k].item == Payload(p) {
      Cart.TotalAfterAdd(cart, Payload(p), k);
    } else if !Cart.HasId(cart, p.pkg.id) {
      Cart.TotalAfterAdd(cart, Payload(p), |cart|);
    }
  }
}
