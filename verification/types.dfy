/**
 * The records the storefront exchanges with its REST backend and keeps in
 * component state (src/types/services.ts), restricted to the fields the
 * modelled logic reads. Fields the backend may omit are `Option`s; a
 * missing or empty `_id` is the empty string (both are falsy).
 */
module Types {

  import opened Js

  /** A catalog entry of the service master. */
  datatype ServiceMaster = ServiceMaster(
    id: string,
    serviceCode: string,
    serviceName: string,
    currentActivePrice: int,
    showoffPriceTag: int,
    serviceCategory: Option<string>,
    serviceActiveStatus: bool,
    serviceAppIcon: Option<string>,
    serviceWebImage: Option<string>)

  /** A price record, tied to a service by `serviceCode` or to a package by `pkgUniqueId`. */
  datatype ServicePrice = ServicePrice(
    id: string,
    serviceCode: string,
    actualPrice: Option<int>,
    offerDiscount: Option<int>,
    /** end of the offer window, as a timestamp */
    offerEnd: Option<int>,
    priceActiveStatus: bool,
    pkgUniqueId: Option<string>)

  /** A package bundle mapped onto one service code. */
  datatype PackageService = PackageService(
    id: string,
    uniqueId: Option<string>,
    mappedServiceCode: string,
    packageName: string,
    packagePrice: Option<int>,
    packageImageWeb: string)

  /**
   * A service joined with its price records. The join overwrites the
   * service's `currentActivePrice`, so `service` holds the joined value.
   */
  datatype EnhancedService = EnhancedService(service: ServiceMaster, prices: Option<seq<ServicePrice>>)

  /** A package joined with its services and price records; `packagePrice` is the joined price. */
  datatype EnhancedPackage = EnhancedPackage(
    pkg: PackageService,
    includedServices: Option<seq<EnhancedService>>,
    includedPrices: Option<seq<ServicePrice>>,
    packagePrice: int)

  datatype ItemKind = ServiceItem | PackageItem

  /** What a card hands to the cart (`CartItemBase`). */
  datatype CartItemBase = CartItemBase(
    id: string,
    name: string,
    price: int,
    image: Option<string>,
    icon: Option<string>,
    kind: ItemKind,
    includedServices: Option<seq<EnhancedService>>)

  /** A cart line: the item plus how many of it were added. */
  datatype CartItem = CartItem(item: CartItemBase, quantity: int)

  /** A user as the admin user list returns it. */
  datatype User = User(id: string, name: Option<string>)

  /** A booking's user reference: either the id itself or the populated user object. */
  datatype UserRef = UserId(id: string) | UserObject(objectId: string)

  datatype BookedService = BookedService(serviceCode: string, quantity: int, totalWithGst: int)

  datatype Booking = Booking(
    id: string,
    user: UserRef,
    status: string,
    confirmationStatus: string,
    services: seq<BookedService>,
    grandTotal: int,
    gstTotal: int)
}
