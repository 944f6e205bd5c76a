/**
 * The customer's order page (src/pages/MyOrders.tsx): how a booking's
 * status is coloured and labelled, when it can be cancelled, the line of
 * booked service codes, and the fetch and cancel handlers. The signed-in
 * user's id, the API responses and the confirmation dialog's answer are
 * inputs.
 */
module MyOrders {

  import opened Js
  import opened Types
  import Seqs
  import Text

  const Gray := "bg-gray-100 text-gray-700"

  /** The statuses `getStatusBadgeColor` knows. */
  predicate KnownStatus(status: string) {
    status == "booked" || status == "in_progress" || status == "completed" || status == "cancelled"
  }

  /** `getStatusBadgeColor`: one colour per known status, gray for every other string. */
  function StatusBadgeColor(status: string): (color: string)
    ensures !KnownStatus(status) ==> color == Gray
    ensures status == "booked" ==> color == "bg-blue-100 text-blue-700"
    ensures status == "in_progress" ==> color == "bg-yellow-100 text-yellow-700"
    ensures status == "completed" ==> color == "bg-green-100 text-green-700"
    ensures status == "cancelled" ==> color == "bg-red-100 text-red-700"
  {
    if status == "booked" then "bg-blue-100 text-blue-700"
    else if status == "in_progress" then "bg-yellow-100 text-yellow-700"
    else if status == "completed" then "bg-green-100 text-green-700"
    else if status == "cancelled" then "bg-red-100 text-red-700"
    else Gray
  }

  /** The colour tells the known statuses apart from each other and from every unknown one. */
  lemma BadgeColorsDistinct(s: string, t: string)
    requires KnownStatus(s)
    ensures StatusBadgeColor(s) != Gray
    ensures StatusBadgeColor(t) == StatusBadgeColor(s) <==> t == s
  {
  }

  /** `status.replace("_", " ").toUpperCase()`. */
  function StatusLabel(status: string): (shown: string)
    ensures |shown| == |status|
    ensures forall i :: 0 <= i < |status| ==>
              shown[i] == (if i == Text.IndexOf(status, '_') then ' ' else Text.UpperChar(status[i]))
  {
    Text.ToUpper(Text.ReplaceFirst(status, '_', ' '))
  }

  /** A status without an underscore is only upper-cased. */
  lemma StatusLabelWithoutUnderscore(status: string)
    requires '_' !in status
    ensures StatusLabel(status) == Text.ToUpper(status)
  {
  }

  /** The first underscore splits the label: what comes before and after it is only upper-cased. */
  lemma StatusLabelSplitsAtFirstUnderscore(before: string, after: string)
    requires '_' !in before
    ensures StatusLabel(before + "_" + after) == Text.ToUpper(before) + " " + Text.ToUpper(after)
  {
    Text.ReplaceFirstAfter(before, '_', ' ', after);
    Text.ToUpperAppend(before + " ", after);
    Text.ToUpperAppend(before, " ");
  }

  lemma InProgressWords()
    ensures "in_progress" == "in" + "_" + "progress"
    ensures "IN" + " " + "PROGRESS" == "IN PROGRESS"
    ensures Text.ToUpper("in") == "IN"
  {
  }

  lemma InProgressUpper()
    ensures Text.ToUpper("progress") == "PROGRESS"
  {
  }

  /** "in_progress" is shown as "IN PROGRESS". */
  lemma StatusLabelInProgress()
    ensures StatusLabel("in_progress") == "IN PROGRESS"
  {
    InProgressWords();
    InProgressUpper();
    StatusLabelSplitsAtFirstUnderscore("in", "progress");
  }

  lemma FirstOnlyWords()
    ensures "a_b_c" == "a" + "_" + "b_c"
    ensures "A" + " " + "B_C" == "A B_C"
    ensures Text.ToUpper("a") == "A"
    ensures Text.ToUpper("b_c") == "B_C"
  {
  }

  /** Only the first of several underscores becomes a space. */
  lemma StatusLabelFirstUnderscoreOnly()
    ensures StatusLabel("a_b_c") == "A B_C"
  {
    FirstOnlyWords();
    StatusLabelSplitsAtFirstUnderscore("a", "b_c");
  }

  /** The Cancel button is offered only on a booked order. */
  predicate CanCancel(b: Booking) {
    b.status == "booked"
  }

  function ServiceCodes(b: Booking): (codes: seq<string>)
    ensures |codes| == |b.services|
    ensures forall i :: 0 <= i < |b.services| ==> codes[i] == b.services[i].serviceCode
  {
    Seqs.Map(b.services, (s: BookedService) => s.serviceCode)
  }

  /** "Service(s):" line: the booked service codes joined by ", ", in order. */
  function ServicesLine(b: Booking): string {
    Text.Join(ServiceCodes(b), ", ")
  }

  /**
   * The line loses nothing: when no code holds a comma or surrounding white
   * space, `split(",")` with `trim` on every piece gives the codes back.
   */
  lemma ServicesLineParsesBack(b: Booking)
    requires |b.services| >= 1
    requires forall i :: 0 <= i < |b.services| ==>
               ',' !in b.services[i].serviceCode && Text.Trim(b.services[i].serviceCode) == b.services[i].serviceCode
    ensures Seqs.Map(Text.Split(ServicesLine(b), ','), Text.Trim) == ServiceCodes(b)
  {
    var codes := ServiceCodes(b);
    var padded := Text.PadTail(codes);
    Text.JoinCommaSpace(codes);
    assert forall i :: 0 <= i < |padded| ==> ',' !in padded[i] by {
      forall i | 0 <= i < |padded|
        ensures ',' !in padded[i]
      {
        if i > 0 {
          assert padded[i] == " " + codes[i];
        }
      }
    }
    Text.SplitJoin(padded, ',');
    forall i | 1 <= i < |codes|
      ensures Text.Trim(padded[i]) == codes[i]
    {
      Text.TrimLeadingSpace(codes[i]);
    }
  }

  /** The page state: the orders shown and whether "Loading..." is still up. */
  datatype OrdersState = OrdersState(orders: seq<Booking>, loading: bool)

  const Start := OrdersState([], true)

  /** What `getMyBookings` did: answered, or threw (nothing catches it). */
  datatype FetchResponse = FetchAnswered(success: bool, bookings: seq<Booking>) | FetchThrew

  /**
   * `fetchBookings`: without a stored user id nothing happens (so the page
   * keeps showing "Loading..."). An answer replaces the list on success and
   * ends loading either way. A thrown request skips `setLoading(false)`, so
   * nothing changes.
   */
  function Fetch(st: OrdersState, userId: Option<string>, res: FetchResponse): (r: OrdersState)
    ensures !StrTruthy(userId) || res.FetchThrew? ==> r == st
    ensures StrTruthy(userId) && res.FetchAnswered? ==> !r.loading
    ensures StrTruthy(userId) && res.FetchAnswered? && res.success ==> r.orders == res.bookings
    ensures StrTruthy(userId) && res.FetchAnswered? && !res.success ==> r.orders == st.orders
  {
    if !StrTruthy(userId) then st
    else match res
      case FetchThrew => st
      case FetchAnswered(success, bookings) => OrdersState(if success then bookings else st.orders, false)
  }

  function FetchAll(st: OrdersState, userId: Option<string>, rs: seq<FetchResponse>): OrdersState
    decreases |rs|
  {
    if |rs| == 0 then st else FetchAll(Fetch(st, userId, rs[0]), userId, rs[1..])
  }

  /** Without a user id the page never leaves "Loading...", whatever the responses. */
  lemma {:induction false} NoUserKeepsLoading(rs: seq<FetchResponse>, userId: Option<string>)
    requires !StrTruthy(userId)
    ensures FetchAll(Start, userId, rs) == Start
    decreases |rs|
  {
    if |rs| > 0 {
      NoUserKeepsLoading(rs[1..], userId);
    }
  }

  /**
   * Starting from "Loading...", the page leaves it exactly when there is a
   * user id and some fetch was answered; thrown fetches alone keep it.
   */
  lemma {:induction false} LoadingEndsOnlyByAnswer(st: OrdersState, userId: Option<string>, rs: seq<FetchResponse>)
    requires st.loading
    ensures !FetchAll(st, userId, rs).loading <==>
              StrTruthy(userId) && exists i :: 0 <= i < |rs| && rs[i].FetchAnswered?
    decreases |rs|
  {
    if |rs| > 0 {
      var next := Fetch(st, userId, rs[0]);
      if StrTruthy(userId) && rs[0].FetchAnswered? {
        AnsweredStaysLoaded(next, userId, rs[1..]);
      } else {
        LoadingEndsOnlyByAnswer(next, userId, rs[1..]);
        if StrTruthy(userId) {
          assert rs[0].FetchThrew?;
          if exists i :: 0 <= i < |rs| && rs[i].FetchAnswered? {
            var i :| 0 <= i < |rs| && rs[i].FetchAnswered?;
            assert i > 0 && rs[1..][i - 1] == rs[i];
          }
        }
      }
    }
  }

  /** Once loaded, the page stays loaded. */
  lemma {:induction false} AnsweredStaysLoaded(st: OrdersState, userId: Option<string>, rs: seq<FetchResponse>)
    requires !st.loading
    ensures !FetchAll(st, userId, rs).loading
    decreases |rs|
  {
    if |rs| > 0 {
      AnsweredStaysLoaded(Fetch(st, userId, rs[0]), userId, rs[1..]);
    }
  }

  /** What `handleCancel` does after the dialog and the cancel request. */
  datatype CancelOutcome = NothingDone | Refetch | Alert(message: string)

  /** What `cancelBooking` did: answered, or threw (nothing catches it). */
  datatype CancelResponse = CancelAnswered(success: bool, message: string) | CancelThrew

  /**
   * `handleCancel`: a declined dialog sends nothing; a successful cancel
   * reloads the list; a failed one alerts its message; a thrown request
   * does neither.
   */
  function HandleCancel(confirmed: bool, res: CancelResponse): (o: CancelOutcome)
    ensures o.NothingDone? <==> !confirmed || res.CancelThrew?
    ensures o.Refetch? <==> confirmed && res.CancelAnswered? && res.success
    ensures o.Alert? <==> confirmed && res.CancelAnswered? && !res.success
    ensures o.Alert? ==> o.message == res.message
  {
    if !confirmed then NothingDone
    else match res
      case CancelThrew => NothingDone
      case CancelAnswered(success, message) => if success then Refetch else Alert(message)
  }

  /** The page after a cancel: only a re-fetch changes it, with the response of that re-fetch. */
  function AfterCancel(st: OrdersState, userId: Option<string>, confirmed: bool, res: CancelResponse,
                       refetch: FetchResponse): OrdersState {
    if HandleCancel(confirmed, res).Refetch? then Fetch(st, userId, refetch) else st
  }

  /**
   * Only a confirmed, successful cancel can change the shown orders, and then
   * an answered re-fetch shows the server's new list.
   */
  lemma CancelRefreshesOnlyOnSuccess(st: OrdersState, userId: Option<string>, confirmed: bool,
                                     res: CancelResponse, refetch: FetchResponse)
    ensures AfterCancel(st, userId, confirmed, res, refetch) != st ==>
              confirmed && res.CancelAnswered? && res.success
    ensures confirmed && res.CancelAnswered? && res.success && StrTruthy(userId) &&
            refetch.FetchAnswered? && refetch.success ==>
              AfterCancel(st, userId, confirmed, res, refetch).orders == refetch.bookings
  {
  }

  /** One order card. */
  datatype Card = Card(color: string, statusText: string, cancel: bool, services: string, total: int)

  datatype Page = LoadingText | NoBookings | Cards(cards: seq<Card>)

  function CardOf(b: Booking): Card {
    Card(StatusBadgeColor(b.status), StatusLabel(b.status), CanCancel(b), ServicesLine(b), b.grandTotal)
  }

  /** What the page renders: one card per order, in order, once loading is over. */
  function Render(st: OrdersState): (p: Page)
    ensures p.LoadingText? <==> st.loading
    ensures p.NoBookings? <==> !st.loading && |st.orders| == 0
    ensures p.Cards? ==> |p.cards| == |st.orders|
    ensures p.Cards? ==> forall i :: 0 <= i < |st.orders| ==>
              (p.cards[i].cancel <==> st.orders[i].status == "booked")
              && p.cards[i].total == st.orders[i].grandTotal
              && p.cards[i].color == StatusBadgeColor(st.orders[i].status)
              && p.cards[i].statusText == StatusLabel(st.orders[i].status)
              && p.cards[i].services == ServicesLine(st.orders[i])
  {
    if st.loading then LoadingText
    else if |st.orders| == 0 then NoBookings
    else Cards(Seqs.Map(st.orders, CardOf))
  }

  /**
   * What a rendered card reads back: its services line splits into the
   * order's codes (when they are free of commas and surrounding spaces), and
   * an "in_progress" order is labelled "IN PROGRESS".
   */
  lemma RenderedCardReadsBack(st: OrdersState, i: nat)
    requires !st.loading && i < |st.orders|
    requires |st.orders[i].services| >= 1
    requires forall j :: 0 <= j < |st.orders[i].services| ==>
               ',' !in st.orders[i].services[j].serviceCode
               && Text.Trim(st.orders[i].services[j].serviceCode) == st.orders[i].services[j].serviceCode
    ensures Render(st).Cards?
    ensures Seqs.Map(Text.Split(Render(st).cards[i].services, ','), Text.Trim) == ServiceCodes(st.orders[i])
    ensures st.orders[i].status == "in_progress" ==> Render(st).cards[i].statusText == "IN PROGRESS"
  {
    ServicesLineParsesBack(st.orders[i]);
    if st.orders[i].status == "in_progress" {
      StatusLabelInProgress();
    }
  }
}
