/**
 * Price enrichment of the catalog page (src/pages/ServicesSection.tsx).
 *
 * The page fetches services, price records and packages, then
 *  - joins every service with its active price records and takes the first
 *    record's `actualPrice` as the service's current price when it is
 *    truthy;
 *  - joins every package with the enriched services carrying its mapped
 *    code (active or not) and with the active price records of its
 *    `uniqueId`, and prices it as the sum of those services' current prices,
 *    falling back to its stored price (or 0) when none is included;
 *  - shows only the active services, grouped by category.
 */
module Catalog {

  import opened Js
  import opened Types
  import Seqs

  /** A price record belongs to the service with code `code` and is switched on. */
  predicate PricesService(code: string, p: ServicePrice) {
    p.serviceCode == code && p.priceActiveStatus
  }

  function ActiveFor(code: string): ServicePrice -> bool {
    (p: ServicePrice) => PricesService(code, p)
  }

  /** The first record of `prices` that belongs to service `code`, scanning from the front. */
  function FirstActive(prices: seq<ServicePrice>, code: string): Option<ServicePrice>
    decreases |prices|
  {
    if |prices| == 0 then None
    else if PricesService(code, prices[0]) then Some(prices[0])
    else FirstActive(prices[1..], code)
  }

  /** The head of the filtered price list is the first matching record. */
  lemma {:induction false} FirstActiveIsHead(prices: seq<ServicePrice>, code: string)
    ensures Seqs.Filter(prices, ActiveFor(code)) == [] <==> FirstActive(prices, code).None?
    ensures Seqs.Filter(prices, ActiveFor(code)) != [] ==>
              Seqs.Filter(prices, ActiveFor(code))[0] == FirstActive(prices, code).value
    decreases |prices|
  {
    if |prices| > 0 {
      assert prices == [prices[0]] + prices[1..];
      Seqs.FilterAppend([prices[0]], prices[1..], ActiveFor(code));
      Seqs.FilterSnoc([], prices[0], ActiveFor(code));
      assert [] + [prices[0]] == [prices[0]];
      FirstActiveIsHead(prices[1..], code);
    }
  }

  /**
   * One element of `enhancedServices`: the service's `prices` are its active
   * price records, and `currentActivePrice` is the first one's `actualPrice`
   * when that is truthy, else the stored price (so a 0 or missing price
   * falls back).
   */
  function EnhanceService(s: ServiceMaster, prices: seq<ServicePrice>): (e: EnhancedService)
    ensures e.prices.Some?
    ensures forall p :: p in e.prices.value <==> p in prices && PricesService(s.serviceCode, p)
    ensures forall p :: multiset(e.prices.value)[p] ==
              if PricesService(s.serviceCode, p) then multiset(prices)[p] else 0
    ensures e.service == s.(currentActivePrice := e.service.currentActivePrice)
    ensures e.service.currentActivePrice ==
              match FirstActive(prices, s.serviceCode)
              case Some(p) => NumOr(p.actualPrice, s.currentActivePrice)
              case None => s.currentActivePrice
  {
    var matching := Seqs.Filter(prices, ActiveFor(s.serviceCode));
    Seqs.FilterMembers(prices, ActiveFor(s.serviceCode));
    Seqs.FilterMultiset(prices, ActiveFor(s.serviceCode));
    FirstActiveIsHead(prices, s.serviceCode);
    var current := if |matching| > 0 then NumOr(matching[0].actualPrice, s.currentActivePrice)
                   else s.currentActivePrice;
    EnhancedService(s.(currentActivePrice := current), Some(matching))
  }

  /**
   * The kept price records stay in input order, which is the order the best
   * price's first-maximum tie-break sees: enriching against a concatenation
   * keeps each part's records in turn, and one record is kept iff it is an
   * active record of the service.
   */
  lemma EnhanceServiceKeepsOrder(s: ServiceMaster, a: seq<ServicePrice>, b: seq<ServicePrice>, p: ServicePrice)
    ensures EnhanceService(s, a + b).prices.value ==
            EnhanceService(s, a).prices.value + EnhanceService(s, b).prices.value
    ensures EnhanceService(s, [p]).prices.value == if PricesService(s.serviceCode, p) then [p] else []
  {
    Seqs.FilterAppend(a, b, ActiveFor(s.serviceCode));
    Seqs.FilterSnoc([], p, ActiveFor(s.serviceCode));
    assert [] + [p] == [p];
  }

  /** `enhancedServices`: one enriched entry per fetched service, same order. */
  function EnhanceServices(services: seq<ServiceMaster>, prices: seq<ServicePrice>): (r: seq<EnhancedService>)
    ensures |r| == |services|
    ensures forall i :: 0 <= i < |services| ==>
              r[i].service == services[i].(currentActivePrice := r[i].service.currentActivePrice)
    ensures forall i :: 0 <= i < |services| ==> r[i] == EnhanceService(services[i], prices)
  {
    Seqs.Map(services, (s: ServiceMaster) => EnhanceService(s, prices))
  }

  /** A service is part of the package mapped onto its code. */
  function IncludedBy(pkg: PackageService): EnhancedService -> bool {
    (e: EnhancedService) => e.service.serviceCode == pkg.mappedServiceCode
  }

  /**
   * A price record belongs to the package. Both ids may be missing, and
   * `undefined === undefined` holds in the source, so two missing ids match.
   */
  predicate PricesPackage(pkg: PackageService, p: ServicePrice) {
    p.pkgUniqueId == pkg.uniqueId && p.priceActiveStatus
  }

  function PackagePriceFor(pkg: PackageService): ServicePrice -> bool {
    (p: ServicePrice) => PricesPackage(pkg, p)
  }

  /** `includedServices.reduce((sum, s) => sum + s.currentActivePrice, 0)`. */
  function SumCurrentPrices(services: seq<EnhancedService>): int
    decreases |services|
  {
    if |services| == 0 then 0
    else SumCurrentPrices(services[..|services| - 1]) + services[|services| - 1].service.currentActivePrice
  }

  /** The joined package price: the sum over included services, or the stored price `|| 0`. */
  function JoinedPackagePrice(included: seq<EnhancedService>, stored: Option<int>): (price: int)
    ensures |included| == 0 && !NumTruthy(stored) ==> price == 0
    ensures |included| == 0 && NumTruthy(stored) ==> price == stored.value
    ensures |included| > 0 ==> price == SumCurrentPrices(included)
  {
    if |included| > 0 then SumCurrentPrices(included) else NumOr(stored, 0)
  }

  /** One element of `enhancedPackages`. */
  function EnhancePackage(pkg: PackageService, enhanced: seq<EnhancedService>, prices: seq<ServicePrice>)
    : (e: EnhancedPackage)
    ensures e.pkg == pkg
    ensures e.includedServices.Some? && e.includedPrices.Some?
    ensures forall s :: s in e.includedServices.value <==>
              s in enhanced && s.service.serviceCode == pkg.mappedServiceCode
    ensures forall s :: multiset(e.includedServices.value)[s] ==
              if s.service.serviceCode == pkg.mappedServiceCode then multiset(enhanced)[s] else 0
    ensures forall p :: p in e.includedPrices.value <==> p in prices && PricesPackage(pkg, p)
    ensures forall p :: multiset(e.includedPrices.value)[p] ==
              if PricesPackage(pkg, p) then multiset(prices)[p] else 0
    ensures e.packagePrice == JoinedPackagePrice(e.includedServices.value, pkg.packagePrice)
  {
    var included := Seqs.Filter(enhanced, IncludedBy(pkg));
    var included' := Seqs.Filter(prices, PackagePriceFor(pkg));
    Seqs.FilterMembers(enhanced, IncludedBy(pkg));
    Seqs.FilterMembers(prices, PackagePriceFor(pkg));
    Seqs.FilterMultiset(enhanced, IncludedBy(pkg));
    Seqs.FilterMultiset(prices, PackagePriceFor(pkg));
    EnhancedPackage(pkg, Some(included), Some(included'), JoinedPackagePrice(included, pkg.packagePrice))
  }

  /** The current price a service adds to the package mapped onto `code`: its own, or 0 for another code. */
  function PriceIfMapped(code: string): EnhancedService -> int {
    (e: EnhancedService) => if e.service.serviceCode == code then e.service.currentActivePrice else 0
  }

  /** Summing the included services is summing every service's contribution to the code. */
  lemma {:induction false} IncludedSumIsMappedSum(enhanced: seq<EnhancedService>, pkg: PackageService)
    ensures SumCurrentPrices(Seqs.Filter(enhanced, IncludedBy(pkg))) ==
            Seqs.Sum(enhanced, PriceIfMapped(pkg.mappedServiceCode))
    decreases |enhanced|
  {
    if |enhanced| > 0 {
      var init, last := enhanced[..|enhanced| - 1], enhanced[|enhanced| - 1];
      assert enhanced == init + [last];
      IncludedSumIsMappedSum(init, pkg);
      Seqs.FilterSnoc(init, last, IncludedBy(pkg));
      Seqs.SumSnoc(init, last, PriceIfMapped(pkg.mappedServiceCode));
      var f := Seqs.Filter(init, IncludedBy(pkg));
      if IncludedBy(pkg)(last) {
        assert (f + [last])[..|f|] == f;
        assert SumCurrentPrices(f + [last]) == SumCurrentPrices(f) + last.service.currentActivePrice;
      } else {
        assert f + [] == f;
      }
    }
  }

  /**
   * The joined package price, stated over the fetched services: when some
   * service carries the mapped code, it is the sum of the current prices of
   * all such services, and otherwise the stored price `|| 0`.
   */
  lemma PackagePriceOverServices(pkg: PackageService, enhanced: seq<EnhancedService>, prices: seq<ServicePrice>)
    ensures (exists i :: 0 <= i < |enhanced| && enhanced[i].service.serviceCode == pkg.mappedServiceCode) ==>
              EnhancePackage(pkg, enhanced, prices).packagePrice ==
              Seqs.Sum(enhanced, PriceIfMapped(pkg.mappedServiceCode))
    ensures (forall i :: 0 <= i < |enhanced| ==> enhanced[i].service.serviceCode != pkg.mappedServiceCode) ==>
              EnhancePackage(pkg, enhanced, prices).packagePrice == NumOr(pkg.packagePrice, 0)
  {
    var included := Seqs.Filter(enhanced, IncludedBy(pkg));
    Seqs.FilterMembers(enhanced, IncludedBy(pkg));
    IncludedSumIsMappedSum(enhanced, pkg);
    if exists i :: 0 <= i < |enhanced| && enhanced[i].service.serviceCode == pkg.mappedServiceCode {
      var i :| 0 <= i < |enhanced| && enhanced[i].service.serviceCode == pkg.mappedServiceCode;
      assert enhanced[i] in included;
    } else {
      Seqs.FilterNone(enhanced, IncludedBy(pkg));
    }
  }

  /** `enhancedPackages`: one enriched entry per fetched package, same order. */
  function EnhancePackages(packages: seq<PackageService>, enhanced: seq<EnhancedService>, prices: seq<ServicePrice>)
    : (r: seq<EnhancedPackage>)
    ensures |r| == |packages|
    ensures forall i :: 0 <= i < |packages| ==> r[i].pkg == packages[i]
    ensures forall i :: 0 <= i < |packages| ==> r[i] == EnhancePackage(packages[i], enhanced, prices)
  {
    Seqs.Map(packages, (p: PackageService) => EnhancePackage(p, enhanced, prices))
  }

  function IsActive(e: EnhancedService): bool {
    e.service.serviceActiveStatus
  }

  /** What the page keeps in state after a successful fetch. */
  datatype Catalog = Catalog(services: seq<EnhancedService>, packages: seq<EnhancedPackage>)

  /**
   * The fetch handler: packages are joined against every enriched service,
   * and only afterwards are the inactive services dropped from display.
   */
  function Load(services: seq<ServiceMaster>, prices: seq<ServicePrice>, packages: seq<PackageService>)
    : (c: Catalog)
    ensures forall e :: e in c.services <==> e in EnhanceServices(services, prices) && IsActive(e)
    ensures forall e :: multiset(c.services)[e] ==
              if IsActive(e) then multiset(EnhanceServices(services, prices))[e] else 0
    ensures c.packages == EnhancePackages(packages, EnhanceServices(services, prices), prices)
  {
    var enhanced := EnhanceServices(services, prices);
    Seqs.FilterMembers(enhanced, IsActive);
    Seqs.FilterMultiset(enhanced, IsActive);
    Catalog(Seqs.Filter(enhanced, IsActive), EnhancePackages(packages, enhanced, prices))
  }

  /**
   * A package includes every service with its mapped code, inactive ones
   * too: the active filter applies to the displayed services only.
   */
  lemma PackageIncludesInactive(services: seq<ServiceMaster>, prices: seq<ServicePrice>,
                                packages: seq<PackageService>, i: nat, j: nat)
    requires i < |services| && j < |packages|
    requires services[i].serviceCode == packages[j].mappedServiceCode
    requires !services[i].serviceActiveStatus
    ensures EnhanceServices(services, prices)[i] in Load(services, prices, packages).packages[j].includedServices.value
    ensures EnhanceServices(services, prices)[i] !in Load(services, prices, packages).services
  {
  }

  /** Enrichment is element-wise, so it distributes over concatenation. */
  lemma EnhanceServicesAppend(a: seq<ServiceMaster>, b: seq<ServiceMaster>, prices: seq<ServicePrice>)
    ensures EnhanceServices(a + b, prices) == EnhanceServices(a, prices) + EnhanceServices(b, prices)
  {
    var ea, eb, eab := EnhanceServices(a, prices), EnhanceServices(b, prices), EnhanceServices(a + b, prices);
    forall i | 0 <= i < |a + b|
      ensures eab[i] == (ea + eb)[i]
    {
      if i < |a| {
        assert (a + b)[i] == a[i];
      } else {
        assert (a + b)[i] == b[i - |a|];
      }
    }
  }

  /** A single fetched service is displayed iff it is active. */
  lemma DisplayOne(s: ServiceMaster, prices: seq<ServicePrice>, packages: seq<PackageService>)
    ensures Load([s], prices, packages).services ==
            if IsActive(EnhanceService(s, prices)) then [EnhanceService(s, prices)] else []
  {
    var e := EnhanceService(s, prices);
    assert EnhanceServices([s], prices) == [e];
    Seqs.FilterSnoc([], e, IsActive);
    assert [] + [e] == [e];
  }

  /**
   * The displayed services keep the fetch order: displaying a concatenation
   * displays each part in turn, and a single service is displayed iff it is
   * active, so by induction the display is the active services in fetch order.
   */
  lemma DisplayKeepsOrder(a: seq<ServiceMaster>, b: seq<ServiceMaster>, s: ServiceMaster,
                          prices: seq<ServicePrice>, packages: seq<PackageService>)
    ensures Load(a + b, prices, packages).services ==
            Load(a, prices, packages).services + Load(b, prices, packages).services
    ensures Load([s], prices, packages).services ==
            if IsActive(EnhanceService(s, prices)) then [EnhanceService(s, prices)] else []
  {
    DisplayOne(s, prices, packages);
    EnhanceServicesAppend(a, b, prices);
    var ea, eb := EnhanceServices(a, prices), EnhanceServices(b, prices);
    Seqs.FilterAppend(ea, eb, IsActive);
  }

  /**
   * The key a service is filed under in `servicesByCategory`. A missing
   * category becomes the property name "undefined".
   */
  function CategoryKey(e: EnhancedService): string {
    match e.service.serviceCategory
    case Some(c) => c
    case None => "undefined"
  }

  /** `servicesByCategory`, in the order the categories first appear. */
  function ServicesByCategory(displayed: seq<EnhancedService>): seq<Seqs.Group<EnhancedService>> {
    Seqs.GroupBy(displayed, CategoryKey)
  }

  /**
   * The category sections partition the displayed services: every displayed
   * service is in exactly the section of its category, each section lists
   * the services of its category in display order, and sections come in
   * order of first appearance.
   */
  lemma CategorySectionsPartition(displayed: seq<EnhancedService>, e: EnhancedService)
    requires e in displayed
    ensures exists i :: 0 <= i < |ServicesByCategory(displayed)|
              && ServicesByCategory(displayed)[i].key == CategoryKey(e)
              && e in ServicesByCategory(displayed)[i].members
    ensures forall i :: (0 <= i < |ServicesByCategory(displayed)| && e in ServicesByCategory(displayed)[i].members)
              ==> ServicesByCategory(displayed)[i].key == CategoryKey(e)
    ensures forall i :: 0 <= i < |ServicesByCategory(displayed)| ==>
              ServicesByCategory(displayed)[i].members ==
              Seqs.Filter(displayed, Seqs.KeyIs(CategoryKey, ServicesByCategory(displayed)[i].key))
    ensures Seqs.Keys(ServicesByCategory(displayed)) == Seqs.Dedup(Seqs.Map(displayed, CategoryKey))
  {
    var gs := ServicesByCategory(displayed);
    Seqs.GroupByPartition(displayed, CategoryKey, e);
    Seqs.GroupByMembers(displayed, CategoryKey);
    Seqs.GroupByKeys(displayed, CategoryKey);
    var i :| 0 <= i < |gs| && gs[i].key == CategoryKey(e) && e in gs[i].members;
  }
}
