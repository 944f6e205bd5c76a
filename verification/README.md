# ClickNClean storefront and admin logic in Dafny

ClickNClean is a React storefront for cleaning services, with an admin panel. Most of the application is markup and REST plumbing. This project models the record and list transformations inside its components as pure Dafny functions over immutable datatypes, and proves what they guarantee:

- **Cart store** (`Cart`). Lines are merged by `_id` on add and filtered on remove. The module covers the total, the badge count and the two cart panels.
- **Catalog enrichment** (`Catalog`). Services are joined with their active price records and packages with their services. Package prices are derived from those joins, and the active services are grouped by category.
- **Display pricing**:
  - `ServiceCard`: the offer flag, the best-price fold, the displayed price, the price tag and the cart payload;
  - `PackageCard`: the regular price, savings, discount flag and percentage, the per-service strike-through and the payload.
- **Admin lists**:
  - `Navbar`: menu grouping, the selected-category filter and the welcome modal;
  - `ServicePersons`: status change, tabs and pagination;
  - `AdminBookings`: user-name lookup, confirm/reject, the rejected guard, and status requests that are answered in any order;
  - `MyOrders`: badge colours, status labels, the cancel guard, the services line, and the fetch and cancel handlers.
- **OTP sign-in** (`Auth`). A transition function over phone → code → registration. Request results and timer ticks are events. It also covers the resend countdown and the registration payload. A second layer keeps the requests in flight, so that answers can come back after other clicks and out of order.
- **Category picker** (`CategoryOptions`). Pick, create and remove on the option list. The two defaults can never be removed. It also covers the filtering of submitted form fields.

Shared helper modules:

- `Js`: `Option`, and JavaScript `||` truthiness for numbers and strings.
- `Seqs`: filter, map, and grouping into an ordered list of buckets, which models an object literal filled by `reduce`.
- `Text`: `split`, `join`, `trim`, `replace` and `toUpperCase`.
- `Types`: the records of `src/types/services.ts`.

Modelling conventions:

- Prices and times are integers; times are epoch ticks, and `now` is a parameter.
- JavaScript `a || b` is modelled exactly: a 0 number or an empty string falls through to `b`.
- The `packagePrice * 1.2` of the package card is computed over exact reals as ×6/5.
- Network results, dialog answers and timer ticks are inputs.

## Model

| member | source | states |
|---|---|---|
| Cart.AddToCart | src/App.tsx:39-51 | A new id is appended as one last line `{item, quantity 1}` and earlier lines are unchanged. A present id keeps the length, keeps every stored item (the incoming fields are ignored) and raises exactly the matching lines' quantity by 1. |
| Cart.RemoveFromCart | src/App.tsx:53-55 | No line with the id remains. Every other line stays with its full multiplicity. |
| Cart.RemoveKeepsOrder | src/App.tsx:53-55 | The kept lines stay in cart order: removing from a concatenation removes from each part in turn, and a single line is kept iff its id differs. |
| Cart.ApplyAllKeepsWellFormed | src/App.tsx:39-55 | From a cart with unique ids and quantities ≥ 1, any sequence of adds and removes keeps both properties. |
| Cart.AddKeepsWellFormed | src/App.tsx:39-51 | One add keeps ids unique and quantities ≥ 1. |
| Cart.RemoveKeepsWellFormed | src/App.tsx:53-55 | One remove keeps ids unique and quantities ≥ 1. |
| Cart.FilterKeepsUnique | src/App.tsx:54 | Filtering a cart with unique ids keeps them unique. |
| Cart.AddTwice | src/App.tsx:39-51 | Adding the same new item twice gives one line with quantity 2. |
| Cart.RemoveAbsent | src/App.tsx:53-55 | Removing an id no line carries is a no-op. |
| Cart.RemoveIdempotent | src/App.tsx:53-55 | Removing twice equals removing once. |
| Cart.Bump | src/App.tsx:43-45 | Same length; each line with the id has its quantity raised by 1 and the others are unchanged. |
| Cart.LinesWithUniqueId | src/App.tsx:41-45 | In a cart with unique ids, the lines carrying a line's id are that line alone. |
| Cart.TotalAppend | src/pages/CartSection.tsx:14 | The total of a concatenation is the sum of the totals. |
| Cart.TotalNonNegative | src/pages/CartSection.tsx:14 | An empty cart totals 0; non-negative prices and quantities ≥ 1 give a non-negative total. |
| Cart.TotalPermutation | src/pages/ServicesAncCart.tsx:35 | The total does not depend on the order of the lines. |
| Cart.TotalBump | src/pages/CartSection.tsx:14 | Bumping raises the total by the unit prices of the bumped lines. |
| Cart.TotalAfterAdd | src/App.tsx:41-48 | Re-adding a present id raises the total by that line's stored price; adding a new id raises it by the item's price. |
| Cart.TotalAfterRemoveAll | src/App.tsx:53-55 | Removing lowers the total by the totals of the removed lines. |
| Cart.TotalAfterRemove | src/App.tsx:53-55 | With unique ids, removing a present id lowers the total by that line's price × quantity. |
| Cart.BadgeCount | src/App.tsx:62 | The badge count is the number of lines, so it is 0 exactly for the empty cart. |
| Cart.BadgeBelowUnits | src/App.tsx:62 | The badge counts lines, not units: once some line holds two or more units, it is below the unit count. |
| Cart.BadgeAtMostUnits | src/App.tsx:62 | With quantities ≥ 1, the badge (lines) is at most the number of units. |
| Cart.ModalBody | src/pages/CartSection.tsx:55-85 | The empty message appears iff the cart is empty. Lines, total and Checkout appear iff it is non-empty, and then the total is Σ price × quantity over all lines. |
| Cart.SidePanel | src/pages/ServicesAncCart.tsx:72-106 | The item count is the number of lines, and Checkout is offered iff that count is positive. |
| Cart.PanelIgnoresOrder | src/pages/ServicesAncCart.tsx:35-106 | Reordering the cart changes neither the item count nor the total. |
| Catalog.FirstActiveIsHead | src/pages/ServicesSection.tsx:31-37 | The first element of the filtered price list is the first active record for the code. |
| Catalog.EnhanceService | src/pages/ServicesSection.tsx:30-39 | `prices` are exactly the records with the service's code and active status, with their multiplicities. `currentActivePrice` is the first such record's truthy `actualPrice`, else the stored price. All other fields are unchanged. |
| Catalog.EnhanceServiceKeepsOrder | src/pages/ServicesSection.tsx:30-32 | `prices` keep the input order that the best-price tie-break sees: a concatenation is filtered part by part, and a single record is kept iff it is an active record of the service. |
| Catalog.EnhanceServices | src/pages/ServicesSection.tsx:30 | Enrichment keeps the number and order of the services. |
| Catalog.JoinedPackagePrice | src/pages/ServicesSection.tsx:49-51 | With included services, the package price is the sum of their current prices. Otherwise it is the stored price if truthy, else 0. |
| Catalog.EnhancePackage | src/pages/ServicesSection.tsx:41-59 | Included services are the enhanced services with the mapped code, each as often as it is fetched. Included prices are the active records whose `pkgUniqueId` equals the package's `uniqueId`, with multiplicity. The price is the joined price. |
| Catalog.IncludedSumIsMappedSum | src/pages/ServicesSection.tsx:42-51 | The sum over the included services equals the sum, over all fetched services, of the current price of those with the mapped code. |
| Catalog.PackagePriceOverServices | src/pages/ServicesSection.tsx:42-51 | When some fetched service has the mapped code, the package price is the sum of all such services' current prices; otherwise it is the stored price, or 0 when that is falsy. |
| Catalog.EnhancePackages | src/pages/ServicesSection.tsx:41 | Enrichment keeps the number and order of the packages. |
| Catalog.Load | src/pages/ServicesSection.tsx:61-62 | The displayed services are exactly the active enhanced services, each with its multiplicity; packages are joined against all enhanced services. |
| Catalog.PackageIncludesInactive | src/pages/ServicesSection.tsx:42-44 | An inactive service with the mapped code is in the package but not on display. |
| Catalog.EnhanceServicesAppend | src/pages/ServicesSection.tsx:30-39 | Enrichment works service by service, so enriching a concatenation enriches each part in turn. |
| Catalog.DisplayOne | src/pages/ServicesSection.tsx:61 | A single fetched service is displayed iff it is active. |
| Catalog.DisplayKeepsOrder | src/pages/ServicesSection.tsx:61 | The displayed list of a concatenation is the concatenation of the displayed lists, and a single service is displayed iff it is active, so the display is the active services in fetch order. |
| Catalog.CategorySectionsPartition | src/pages/ServicesSection.tsx:90-96 | Every displayed service is in exactly the section of its category ("undefined" when missing). Each section lists its category's services in order, and sections come in order of first appearance. |
| ServiceCard.AnyOfferRunning | src/components/ServiceCard.tsx:12-21 | True iff some record has a truthy discount, an end date, and an end after `now`. |
| ServiceCard.HasOffer | src/components/ServiceCard.tsx:12-21 | `hasOffer` holds iff `prices` is present and some record carries a running offer. |
| ServiceCard.HasOfferEarlier | src/components/ServiceCard.tsx:16-17 | An offer running at some time is running at every earlier time. |
| ServiceCard.FirstMaxIndex | src/components/ServiceCard.tsx:24-28 | Every record's discount (missing as 0) is at most the chosen one's, and every earlier record's is strictly smaller. |
| ServiceCard.FoldFindsFirstMax | src/components/ServiceCard.tsx:24-28 | The strict-`>` fold seeded with `prices[0]` lands on the first record of largest discount. |
| ServiceCard.BestPrice | src/components/ServiceCard.tsx:24-28 | There is no best record iff `prices` is missing or empty; otherwise it is the first record of largest discount. |
| ServiceCard.BestPriceIsFirstMax | src/components/ServiceCard.tsx:24-28 | The best record's discount is ≥ every record's, and on ties the earliest record wins. |
| ServiceCard.DisplayPrice | src/components/ServiceCard.tsx:30 | The displayed price is the best record's truthy `actualPrice`, else `currentActivePrice`. |
| ServiceCard.DisplayPriceIsStored | src/components/ServiceCard.tsx:30 | The displayed price is a stored price, either the current price or some record's `actualPrice`, so no discount is taken off. |
| ServiceCard.Tag | src/components/ServiceCard.tsx:31-33 | Without a best record the tag is `showoffPriceTag`. Otherwise it is the displayed price, with the best record's discount note iff `hasOffer`. |
| ServiceCard.NoPricesNoBest | src/components/ServiceCard.tsx:24-33 | With `prices` missing or empty there is no best record or offer; the current price and the showoff tag are shown. |
| ServiceCard.OfferNoteIndependentOfBest | src/components/ServiceCard.tsx:12-33 | `hasOffer` is computed apart from the best record: a running 10% offer next to an expired 50% one makes the tag announce 50% off. |
| ServiceCard.Payload | src/components/ServiceCard.tsx:79-86 | The cart item carries the service's `_id`, name, images, kind 'service' and `price = displayPrice`. |
| ServiceCard.AddingCardRaisesTotalByDisplayPrice | src/components/ServiceCard.tsx:79-86 | Adding a card's service to a cart without it raises the cart total by the displayed price. |
| PackageCard.RegularPrice | src/components/PackageCard.tsx:11-21 | Without included services the regular price is `packagePrice × 6/5`. Otherwise it is Σ(`showoffPriceTag` if truthy else `currentActivePrice`). |
| PackageCard.SavingsPercentage | src/components/PackageCard.tsx:25-28 | The percentage is 0 when the regular price is ≤ 0, and otherwise savings/regular × 100. |
| PackageCard.FallbackShowsOneSixthOff | src/components/PackageCard.tsx:12-30 | Without included services the savings are a fifth of the package price. A discount is shown iff that price is positive, and the percentage is then 100/6. |
| PackageCard.PercentageAtMostHundred | src/components/PackageCard.tsx:25-28 | With a non-negative package price the percentage is at most 100. |
| PackageCard.SumRegularSplits | src/components/PackageCard.tsx:16-20 | The regular sum is the current-price sum plus what each service's showoff price adds. |
| PackageCard.JoinedSavings | src/components/PackageCard.tsx:16-25 | For a package as the catalog joins it, savings are the sum of the services' showoff surplus. |
| PackageCard.ExtraOfService | src/components/PackageCard.tsx:81-83 | A service without strike-through adds nothing positive; a struck-through one with a non-zero tag adds something positive. |
| PackageCard.SumExtraNonPositive | src/components/PackageCard.tsx:81-83 | With no service struck through, the summed surplus is ≤ 0. |
| PackageCard.NoStrikeThroughNoDiscount | src/components/PackageCard.tsx:25-30 | A joined package none of whose services is struck through shows no discount. |
| PackageCard.Payload | src/components/PackageCard.tsx:142-149 | The cart item carries the package's `_id`, name and image, the joined `packagePrice`, kind 'package' and the included services. |
| PackageCard.AddingPackageRaisesTotalByPrice | src/components/PackageCard.tsx:142-149 | Adding the card raises the cart total by the package price, whether the package is new to the cart or already a line with the same payload. |
| Navbar.CategoriesPartition | src/components/Navbar.tsx:31-36 | Every service is in exactly one group, keyed by its category or "Others" when that is empty or missing. Groups keep fetch order and are non-empty, and their keys are the distinct categories in order of first appearance. |
| Navbar.NoEmptyGroupName | src/components/Navbar.tsx:32 | No group is keyed by the empty string. |
| Navbar.FilteredCategories | src/components/Navbar.tsx:42-44 | The result is empty when no category is selected. Otherwise it is exactly the selected key with its group, or undefined when the key is unknown. |
| Navbar.WelcomeModal | src/components/Navbar.tsx:48-52 | The modal is shown iff no category is selected, and it lists exactly the group keys in order. |
| Navbar.MenuEntries | src/components/Navbar.tsx:87-101 | The menu lists exactly the services with a non-empty `_id`. |
| Navbar.MenuEntriesKeepOrder | src/components/Navbar.tsx:87-101 | The listed services keep their order: a concatenation is listed part by part, and one service is listed iff it has an `_id`. |
| Navbar.PickedCategoryShowsItsServices | src/components/Navbar.tsx:42-52 | Picking a category the modal offered shows exactly that category's services, in fetch order. |
| ServicePersons.Initial | src/erp/listings/ServicePersonListing.tsx:148-151 | The table starts on page 0 with 10 rows per page and the Active tab. |
| ServicePersons.ChangeStatus | src/erp/listings/ServicePersonListing.tsx:162-167 | Every person with the e-mail gets the new status and all others are unchanged; length and order are kept. |
| ServicePersons.ChangeStatusIdempotent | src/erp/listings/ServicePersonListing.tsx:162-167 | Applying the same status change twice equals once. |
| ServicePersons.FilteredRows | src/erp/listings/ServicePersonListing.tsx:169 | The tab shows exactly the persons whose status is the tab. |
| ServicePersons.FilteredRowsKeepOrder | src/erp/listings/ServicePersonListing.tsx:169 | The tab keeps list order: a concatenation is filtered part by part, and one person is listed iff its status is the tab. |
| ServicePersons.TabsPartition | src/erp/listings/ServicePersonListing.tsx:55-169 | The two tabs together hold the whole list, counting repetitions, so each person is under exactly one tab. |
| ServicePersons.ChangedPersonMovesTab | src/erp/listings/ServicePersonListing.tsx:162-169 | A changed person is listed under the new status's tab and not under the other. |
| ServicePersons.Slice | src/erp/listings/ServicePersonListing.tsx:201-202 | For in-range arguments `slice` is the subsequence, and it is empty when the end does not pass the start. |
| ServicePersons.PageRows | src/erp/listings/ServicePersonListing.tsx:201-202 | A page shows at most `rowsPerPage` rows, namely rows `page*r + j`. It is full when the list reaches past it and empty past the end. |
| ServicePersons.FirstPagesArePrefix | src/erp/listings/ServicePersonListing.tsx:201-202 | The first n pages in sequence are the first n·r rows (clipped). |
| ServicePersons.FirstPagesCover | src/erp/listings/ServicePersonListing.tsx:201-202 | Showing pages 0 to n-1 in turn lists the rows before the first row page n would start at, clipped to the list. |
| ServicePersons.PagesCoverRows | src/erp/listings/ServicePersonListing.tsx:201-202 | Enough pages show every row exactly once, in order. |
| ServicePersons.Step | src/erp/listings/ServicePersonListing.tsx:186-270 | Choosing a page size resets the page to 0. Switching tabs keeps the page and the page size, and a page change keeps the tab. |
| ServicePersons.RowsPerPageShowsFirstRows | src/erp/listings/ServicePersonListing.tsx:267-270 | After choosing a page size n, the table shows the first n rows of the tab. |
| AdminBookings.ExtractUserId | src/erp/listings/OrderBookingList.tsx:38-39 | A string user is returned unchanged; a populated user gives its `_id`. |
| AdminBookings.FindUser | src/erp/listings/OrderBookingList.tsx:42 | Finds the first user with the id, or none iff no user has it. |
| AdminBookings.UserName | src/erp/listings/OrderBookingList.tsx:41-42 | The result is the first matching user's name if non-empty, else "Unknown". |
| AdminBookings.UserNameIsStoredOrUnknown | src/erp/listings/OrderBookingList.tsx:41-42 | The name shown is never empty, and it is a matching user's stored name unless it is "Unknown". |
| AdminBookings.HeadingIgnoresUserShape | src/erp/listings/OrderBookingList.tsx:88 | A bare user id and a populated user with that id give the same heading. |
| AdminBookings.SetConfirmation | src/erp/listings/OrderBookingList.tsx:47-51 | Only bookings with the `_id` get the new `confirmationStatus`; every other booking and field is unchanged. |
| AdminBookings.Confirm | src/erp/listings/OrderBookingList.tsx:44-56 | On success, matching bookings are set to "confirmed"; on a failed request the list is unchanged. |
| AdminBookings.Reject | src/erp/listings/OrderBookingList.tsx:58-70 | On success, matching bookings are set to "rejected"; on a failed request the list is unchanged. |
| AdminBookings.RejectHidesActions | src/erp/listings/OrderBookingList.tsx:110 | After a rejection, controls show exactly on bookings with another id that showed them before. |
| AdminBookings.Act | src/erp/listings/OrderBookingList.tsx:44-70 | A click on a drawn control only records its request, leaving the list as it is. An answer applies its handler's update and retires the request. Lengths and ids never change. |
| AdminBookings.ConfirmInFlightUndoesRejection | src/erp/listings/OrderBookingList.tsx:44-70 | Click Confirm, then Reject; the rejection comes back first and the confirmation last, and the rejected booking ends up "confirmed". |
| AdminBookings.RejectionIsFinal | src/erp/listings/OrderBookingList.tsx:44-110 | With distinct ids, a rejected booking with no confirmation in flight stays rejected under any clicks and answers. |
| MyOrders.StatusBadgeColor | src/pages/MyOrders.tsx:6-19 | The four known statuses get their classes and every other string gets gray. |
| MyOrders.BadgeColorsDistinct | src/pages/MyOrders.tsx:6-19 | A known status's colour is shared by no other status, known or not. |
| MyOrders.StatusLabel | src/pages/MyOrders.tsx:65 | Same length; the first "_" becomes a space and every other character is upper-cased. |
| MyOrders.StatusLabelWithoutUnderscore | src/pages/MyOrders.tsx:65 | A status without "_" is only upper-cased. |
| MyOrders.StatusLabelSplitsAtFirstUnderscore | src/pages/MyOrders.tsx:65 | For a status "before_after" with no "_" in "before", the label is "BEFORE AFTER" with each part only upper-cased, whatever "after" holds. |
| MyOrders.StatusLabelInProgress | src/pages/MyOrders.tsx:65 | "in_progress" is shown as "IN PROGRESS". |
| MyOrders.StatusLabelFirstUnderscoreOnly | src/pages/MyOrders.tsx:65 | Only the first underscore is replaced: "a_b_c" gives "A B_C". |
| MyOrders.ServiceCodes | src/pages/MyOrders.tsx:76 | The codes of the booked services, in order. |
| MyOrders.ServicesLineParsesBack | src/pages/MyOrders.tsx:76 | With codes free of commas and surrounding spaces, splitting the line on "," and trimming gives back the codes. |
| MyOrders.Fetch | src/pages/MyOrders.tsx:25-34 | Without a user id, or when the request throws, nothing changes. An answer ends loading and replaces the orders only on success. |
| MyOrders.NoUserKeepsLoading | src/pages/MyOrders.tsx:25-34 | Without a user id the page never leaves "Loading...". |
| MyOrders.LoadingEndsOnlyByAnswer | src/pages/MyOrders.tsx:25-34 | From "Loading...", the page leaves it iff there is a user id and some fetch was answered; thrown fetches alone keep it loading. |
| MyOrders.HandleCancel | src/pages/MyOrders.tsx:40-50 | A declined dialog or a thrown request does nothing. A successful cancel re-fetches, and a failed one alerts the server's message. |
| MyOrders.CancelRefreshesOnlyOnSuccess | src/pages/MyOrders.tsx:25-50 | Only a confirmed, successful cancel can change the page, and after it an answered, successful re-fetch shows the server's list. |
| MyOrders.Render | src/pages/MyOrders.tsx:52-83 | "Loading..." shows while loading, and "No bookings" shows iff loaded and empty. Otherwise there is one card per order. Each card has Cancel iff the status is "booked", and shows that order's total, colour, status label and services line. |
| MyOrders.RenderedCardReadsBack | src/pages/MyOrders.tsx:65-76 | A card's services line splits back into the order's codes when they are clean, and an "in_progress" order is labelled "IN PROGRESS". |
| Auth.Settle | src/components/AuthWrapper.tsx:50 | Resending becomes allowed once the timer is ≤ 0. |
| Auth.SendReturned | src/components/AuthWrapper.tsx:56-65 | After the await, success moves to the code step with the timer at 60 and resend off, a throw sets the server message or "Failed to send OTP", and otherwise nothing changes; the error is never cleared here. |
| Auth.Send | src/components/AuthWrapper.tsx:53-66 | Success moves to the code step with the timer at 60 and resend off. An answer without success only clears the error; a thrown request sets the server message or "Failed to send OTP". |
| Auth.VerifyReturned | src/components/AuthWrapper.tsx:71-95 | After the await, a failure sets its message, a registered answer with token and user signs in, an unregistered success moves to registration, and the timer, resend flag and (outside the failures) the error are kept. |
| Auth.Verify | src/components/AuthWrapper.tsx:68-96 | An unsuccessful or thrown verify keeps the step and sets the matching error. A registered answer signs in iff it carries a token and a user, and otherwise sets the missing-data error. Only a successful unregistered answer moves to registration. |
| Auth.ParseCategories | src/components/AuthWrapper.tsx:115-117 | There are as many categories as commas + 1, each the trimmed piece between commas, with no comma and no surrounding white space. |
| Auth.ParseCategoriesOfJoin | src/components/AuthWrapper.tsx:115-117 | Categories joined with "," and free of commas and surrounding spaces come back exactly. |
| Auth.BuildPayload | src/components/AuthWrapper.tsx:105-120 | The payload copies the form and phone. `serviceDetails` is present iff the role is "service_person", and then holds the parsed categories. |
| Auth.PayloadCarriesTypedCategories | src/components/AuthWrapper.tsx:105-120 | A service person who types clean names joined by "," sends exactly those names. Any other role sends no service details. |
| Auth.DoRegister | src/components/AuthWrapper.tsx:99-155 | The user is signed in iff the answer has success, a token and a user. Without them the error is "Registration failed."; a thrown request gives the server message or "Registration failed unexpectedly". After a sign-in, a second sign-in with the profile's user happens iff the profile answer succeeds with a user; otherwise the profile error is set. The step and the timer are unchanged. |
| Auth.RegisterReturned | src/components/AuthWrapper.tsx:104-152 | After the awaits, an answer without success, token or user sets "Registration failed.", a throw sets the server message or "Registration failed unexpectedly", and a complete answer signs in and goes on to the profile request. The step and timer are kept. |
| Auth.AfterProfile | src/components/AuthWrapper.tsx:132-150 | The profile request signs in a second time iff it answers with success and a user, and then leaves the error as it was. A failed answer sets "Could not fetch user profile after registration."; a failed request sets "Registration failed unexpectedly". |
| Auth.DoTick | src/components/AuthWrapper.tsx:45-48 | In the code step with the timer > 0 a tick takes 1 off the timer; otherwise nothing changes. |
| Auth.InitialInv | src/components/AuthWrapper.tsx:27-43 | The modal starts in the phone step with the timer at 60 and resend off, and the countdown invariant holds. |
| Auth.NextKeepsInv | src/components/AuthWrapper.tsx:45-66 | Every event keeps the timer within 0..60 and resend allowed iff the timer is 0. |
| Auth.NextNeverGoesBack | src/components/AuthWrapper.tsx:164-209 | When each request is answered before the next click, the step never goes back from code to phone or from registration. |
| Auth.NextKeepsTokens | src/components/AuthWrapper.tsx:80-131 | Every recorded sign-in carries a non-empty token. |
| Auth.VerifyKeepsTokens | src/components/AuthWrapper.tsx:80-90 | A verify answer never records a sign-in without a token. |
| Auth.RegisterKeepsTokens | src/components/AuthWrapper.tsx:121-142 | Neither sign-in of a registration is recorded without a token. |
| Auth.TicksCountDown | src/components/AuthWrapper.tsx:45-51 | In the code step, n ticks take the timer to max(t − n, 0), and resend is allowed iff n ≥ t. |
| Auth.Act | src/components/AuthWrapper.tsx:53-155 | A click on a drawn control clears the error and records its request. An answer runs only the part of its handler after the await, which never clears the error, on the state as it is by then, and retires the request. Clicks on controls not drawn and stray answers change nothing. |
| Auth.OnlyClicksClearError | src/components/AuthWrapper.tsx:53-155 | A shown error is cleared only by a click: no answer, tick or keystroke empties it. |
| Auth.LateSendKeepsError | src/components/AuthWrapper.tsx:53-96 | Resend, then Verify: when the verification fails first, the late send answer, successful or not, leaves "Verification failed" shown. |
| Auth.SerialSendIsNext | src/components/AuthWrapper.tsx:53-66 | A send answered before anything else happens is exactly the atomic send event. |
| Auth.SerialVerifyIsNext | src/components/AuthWrapper.tsx:68-96 | A verification answered before anything else happens is exactly the atomic verify event. |
| Auth.SerialRegisterIsNext | src/components/AuthWrapper.tsx:99-155 | A registration answered before anything else happens is exactly the atomic register event. |
| Auth.GoesBackOnlyByLateSend | src/components/AuthWrapper.tsx:53-60 | A step goes back only when a send is answered while in registration, and then it lands on the code step. |
| Auth.ResendInFlightGoesBack | src/components/AuthWrapper.tsx:53-60 | Resend, then Verify: an unregistered verification that comes back first moves to registration, and the late resend then moves back to the code step. |
| Auth.RegistrationHoldsWithoutSendInFlight | src/components/AuthWrapper.tsx:164-209 | Once in registration with no send in flight, every sequence of actions keeps the modal there. |
| CategoryOptions.OnChange | src/erp/Master/AddServiceForm.tsx:126-140 | A picked value is appended iff no option has it, and the field is set to it. Clearing sets the field to undefined. |
| CategoryOptions.OnChangeIdempotent | src/erp/Master/AddServiceForm.tsx:129-136 | Picking the same value twice equals once. |
| CategoryOptions.OnCreate | src/erp/Master/AddServiceForm.tsx:141-145 | Creating always appends one option and sets the field. |
| CategoryOptions.CreateDuplicates | src/erp/Master/AddServiceForm.tsx:141-145 | Creating a present value makes one more option with it. |
| CategoryOptions.Remove | src/erp/Master/AddServiceForm.tsx:163-172 | No option with the value remains, every other option stays with its multiplicity, and the field is cleared iff it held the value. |
| CategoryOptions.RemoveKeepsOrder | src/erp/Master/AddServiceForm.tsx:163-165 | Removal from a concatenation removes from each part, and a single option stays iff its value differs, so removal keeps the other options in order. |
| CategoryOptions.ApplyKeepsDefaults | src/erp/Master/AddServiceForm.tsx:147-172 | An action offered by the picker keeps both default categories. |
| CategoryOptions.DefaultsAlwaysRemain | src/erp/Master/AddServiceForm.tsx:36-41 | Under any sequence of offered actions the two default categories remain. |
| CategoryOptions.InitialHasDefaults | src/erp/Master/AddServiceForm.tsx:36-41 | The picker starts with both defaults. |
| CategoryOptions.SubmittedFields | src/erp/Master/AddServiceForm.tsx:46-53 | The submitted pairs are exactly the fields whose key is not an image key and whose value is neither null nor undefined. |
| CategoryOptions.SubmittedFieldsKeepOrder | src/erp/Master/AddServiceForm.tsx:46-53 | The pairs come in field order: a concatenation is submitted part by part, and one field gives its `(key, text)` pair iff it is submitted. |

## Left out

- Persistence: loading and saving the cart, the service persons, the token and the user in `localStorage`. The cart is an in-memory sequence, and the service-person list is a parameter.
- REST calls (`src/api/ServiceApi.ts`, the profile request, form submits, alerts). Their results are inputs, and `onSuccess` calls are recorded as sessions. A thrown request that nothing catches leaves the state as it was.
- Real timers and React effect scheduling. Each interval firing is a `Tick` event, and the `canResend` effect is applied after every event.
- Rendering, styling, routing, image fallbacks, the loading spinners and the `loading` flag of registration.
- File uploads in the add-service form (`appFile`/`webFile`, `FormData` objects). Only the key loop of `handleAdd` is modelled.
- The stale closure in the picker's `onChange`. It checks the options of the last render while appending to the latest state; with one event per render the two are the same list.
- JavaScript object-key order: integer-like category names are listed before other keys by `Object.keys`, while the model keeps first-appearance order for all keys.
- A category named after an `Object.prototype` member (such as "constructor"), which makes the grouping reduce call `push` on a function and throw.
- `NaN`, floating point and `Math.round`. Prices are integers, the ×1.2 and the savings percentage are exact reals, and the percentage is not rounded.
- `Number(experienceYears)`: the payload keeps the typed text.
- `toUpperCase` beyond ASCII letters: the status codes it is applied to are ASCII.
- `parseInt` of the rows-per-page choice: the choice is a natural number.
- `new Date(offerEnd)` parsing: offer end dates are integer timestamps compared with `now`, and an unparsable date is not modelled.
- ServiceCard.HasOffer: the `try`/`catch` around the date comparison is not modelled, because integer timestamps cannot fail to compare.
- Auth.Send: a send answer without `success` only clears the error. The code sets an error message only when the request throws.
- Auth.Act: the Register button is drawn whenever the register step shows, so a second registration can be clicked while one is in flight. The page disables that button while `loading` is set (src/components/AuthWrapper.tsx:289), so `Auth.Act` allows more interleavings than the page does.
- Auth.NextNeverGoesBack: holds only when each request is answered before the next click. `Auth.ResendInFlightGoesBack` shows the interleaving that breaks it, and `Auth.RegistrationHoldsWithoutSendInFlight` states what survives.
- The two awaits of `register` (the registration and then the profile request) are answered as one `RegisterAnswer`. Nothing else in the modal reads the state between them.
- How the profile request after registering fails: a network error or a body that is not JSON is one `ProfileFailed` outcome, which leads to the generic "Registration failed unexpectedly" message.
- Booking submission, coupons, rescheduling and cart clearing on checkout appear in none of the modelled components.
