/**
 * The admin booking list (src/erp/listings/OrderBookingList.tsx): resolving
 * a booking's user name, and confirming or rejecting bookings. The status
 * update request is an input (`apiOk`): when it fails the handler only logs,
 * and the list is left as it was.
 */
module AdminBookings {

  import opened Js
  import opened Types
  import Seqs

  /** `extractUserId`: a string user is the id itself, a populated user gives its `_id`. */
  function ExtractUserId(u: UserRef): (id: string)
    ensures u.UserId? ==> id == u.id
    ensures u.UserObject? ==> id == u.objectId
  {
    match u
    case UserId(id) => id
    case UserObject(objectId) => objectId
  }

  /** `users.find(u => u.id === userId)`: the first user with that id. */
  function FindUser(users: seq<User>, userId: string): (r: Option<nat>)
    ensures r.None? <==> forall i :: 0 <= i < |users| ==> users[i].id != userId
    ensures r.Some? ==> r.value < |users| && users[r.value].id == userId
    ensures r.Some? ==> forall i :: 0 <= i < r.value ==> users[i].id != userId
    decreases |users|
  {
    if |users| == 0 then None
    else if users[0].id == userId then Some(0)
    else
      match FindUser(users[1..], userId)
      case None => None
      case Some(k) => Some(k + 1)
  }

  /** `getUserById`: the first matching user's name, or "Unknown" when there is none or the name is empty. */
  function UserName(users: seq<User>, userId: string): (name: string)
    ensures FindUser(users, userId).None? ==> name == "Unknown"
    ensures FindUser(users, userId).Some? ==>
              name == StrOr(users[FindUser(users, userId).value].name, "Unknown")
  {
    match FindUser(users, userId)
    case None => "Unknown"
    case Some(k) => StrOr(users[k].name, "Unknown")
  }

  /** The shown name is never empty, and it is a stored name unless it is the fallback. */
  lemma UserNameIsStoredOrUnknown(users: seq<User>, userId: string)
    ensures UserName(users, userId) != ""
    ensures UserName(users, userId) == "Unknown"
            || exists i :: 0 <= i < |users| && users[i].id == userId && users[i].name == Some(UserName(users, userId))
  {
    var k := FindUser(users, userId);
    if k.Some? && StrTruthy(users[k.value].name) {
      assert users[k.value].name == Some(UserName(users, userId));
    }
  }

  /** The heading of a booking card: the name of the booking's user. */
  function BookingUserName(users: seq<User>, b: Booking): string {
    UserName(users, ExtractUserId(b.user))
  }

  /** A populated user and a bare id with the same value name the same user. */
  lemma HeadingIgnoresUserShape(users: seq<User>, b: Booking, id: string)
    requires b.user == UserId(id)
    ensures BookingUserName(users, b) == BookingUserName(users, b.(user := UserObject(id)))
  {
  }

  /** The state update both handlers share: set `confirmationStatus` on every booking with that `_id`. */
  function SetConfirmation(bookings: seq<Booking>, bookingId: string, status: string): (r: seq<Booking>)
    ensures |r| == |bookings|
    ensures forall i :: 0 <= i < |bookings| && bookings[i].id == bookingId ==>
              r[i] == bookings[i].(confirmationStatus := status)
    ensures forall i :: 0 <= i < |bookings| && bookings[i].id != bookingId ==> r[i] == bookings[i]
  {
    Seqs.Map(bookings, (b: Booking) => if b.id == bookingId then b.(confirmationStatus := status) else b)
  }

  /** `handleConfirm`: the list changes only after the status request succeeded. */
  function Confirm(bookings: seq<Booking>, bookingId: string, apiOk: bool): (r: seq<Booking>)
    ensures !apiOk ==> r == bookings
    ensures apiOk ==> r == SetConfirmation(bookings, bookingId, "confirmed")
  {
    if apiOk then SetConfirmation(bookings, bookingId, "confirmed") else bookings
  }

  /** `handleReject`. */
  function Reject(bookings: seq<Booking>, bookingId: string, apiOk: bool): (r: seq<Booking>)
    ensures !apiOk ==> r == bookings
    ensures apiOk ==> r == SetConfirmation(bookings, bookingId, "rejected")
  {
    if apiOk then SetConfirmation(bookings, bookingId, "rejected") else bookings
  }

  /** The assign, confirm and reject controls are drawn unless the booking was rejected. */
  predicate ActionsShown(b: Booking) {
    b.confirmationStatus != "rejected"
  }

  /** After a successful rejection the booking's controls are gone and the other bookings' are as before. */
  lemma RejectHidesActions(bookings: seq<Booking>, bookingId: string)
    ensures forall i :: 0 <= i < |bookings| ==>
              (ActionsShown(Reject(bookings, bookingId, true)[i]) <==>
               bookings[i].id != bookingId && ActionsShown(bookings[i]))
  {
  }

  predicate UniqueBookingIds(bookings: seq<Booking>) {
    forall i, j :: 0 <= i < j < |bookings| ==> bookings[i].id != bookings[j].id
  }

  /** A status request that was sent and has not come back yet: the booking's id and which button sent it. */
  datatype Request = Request(bookingId: string, confirm: bool)

  /** The list on screen together with the requests still in flight, in the order they were sent. */
  datatype Board = Board(bookings: seq<Booking>, pending: seq<Request>)

  /**
   * What can happen next: a click on the confirm or reject button of the
   * booking at `k` sends a request, and the list waits for its answer.
   * Requests may come back in any order: `Answered(j, apiOk)` is the answer
   * to the `j`-th request still in flight.
   */
  datatype Action = Clicked(k: nat, confirm: bool) | Answered(j: nat, apiOk: bool)

  /** The update that runs once a request has come back. */
  function Resolve(bookings: seq<Booking>, r: Request, apiOk: bool): seq<Booking> {
    if r.confirm then Confirm(bookings, r.bookingId, apiOk) else Reject(bookings, r.bookingId, apiOk)
  }

  /**
   * A click on a drawn control only records a request; an answer applies its
   * handler's update and retires the request. Clicks where no control is
   * drawn, and answers to no request, do nothing.
   */
  function Act(b: Board, a: Action): (r: Board)
    ensures |r.bookings| == |b.bookings|
    ensures forall i :: 0 <= i < |b.bookings| ==> r.bookings[i].id == b.bookings[i].id
    ensures a.Clicked? ==> r.bookings == b.bookings
    ensures a.Clicked? && a.k < |b.bookings| && ActionsShown(b.bookings[a.k]) ==>
              r.pending == b.pending + [Request(b.bookings[a.k].id, a.confirm)]
    ensures a.Answered? && a.j < |b.pending| ==>
              r.pending == b.pending[..a.j] + b.pending[a.j + 1..]
              && r.bookings == Resolve(b.bookings, b.pending[a.j], a.apiOk)
    ensures a.Clicked? && !(a.k < |b.bookings| && ActionsShown(b.bookings[a.k])) ==> r == b
    ensures a.Answered? && a.j >= |b.pending| ==> r == b
  {
    match a
    case Clicked(k, confirm) =>
      if k < |b.bookings| && ActionsShown(b.bookings[k])
      then b.(pending := b.pending + [Request(b.bookings[k].id, confirm)])
      else b
    case Answered(j, apiOk) =>
      if j < |b.pending| then Board(Resolve(b.bookings, b.pending[j], apiOk), b.pending[..j] + b.pending[j + 1..])
      else b
  }

  function ActAll(b: Board, acts: seq<Action>): Board
    decreases |acts|
  {
    if |acts| == 0 then b else ActAll(Act(b, acts[0]), acts[1..])
  }

  /**
   * The controls stay drawn while a request is in flight, so a rejection is
   * not final: click Confirm, then Reject, let the rejection come back and
   * then the confirmation, and the rejected booking ends up confirmed.
   */
  lemma ConfirmInFlightUndoesRejection(bk: Booking)
    requires ActionsShown(bk)
    ensures Act(Act(Act(Board([bk], []), Clicked(0, true)), Clicked(0, false)), Answered(1, true))
              .bookings[0].confirmationStatus == "rejected"
    ensures Act(Act(Act(Act(Board([bk], []), Clicked(0, true)), Clicked(0, false)), Answered(1, true)),
                Answered(0, true)).bookings[0].confirmationStatus == "confirmed"
  {
    var b1 := Act(Board([bk], []), Clicked(0, true));
    assert b1.pending == [Request(bk.id, true)];
    var b2 := Act(b1, Clicked(0, false));
    assert b2.pending == [Request(bk.id, true), Request(bk.id, false)];
    var b3 := Act(b2, Answered(1, true));
    assert b3.bookings[0] == bk.(confirmationStatus := "rejected");
    assert b3.pending == [Request(bk.id, true)];
  }

  /** No confirmation for the booking with this id is in flight. */
  predicate NoConfirmInFlight(b: Board, id: string) {
    forall j :: 0 <= j < |b.pending| && b.pending[j].confirm ==> b.pending[j].bookingId != id
  }

  /** The state a rejection has to be in to stay: rejected, ids distinct and no confirmation in flight for it. */
  predicate Settled(b: Board, i: nat) {
    UniqueBookingIds(b.bookings) && i < |b.bookings| && b.bookings[i].confirmationStatus == "rejected"
    && NoConfirmInFlight(b, b.bookings[i].id)
  }

  lemma ActKeepsSettled(b: Board, a: Action, i: nat)
    requires Settled(b, i)
    ensures Settled(Act(b, a), i) && Act(b, a).bookings[i] == b.bookings[i]
  {
    var r := Act(b, a);
    match a {
      case Clicked(k, confirm) =>
        if k < |b.bookings| && ActionsShown(b.bookings[k]) {
          assert k != i;
          assert b.bookings[k].id != b.bookings[i].id;
          assert forall j :: 0 <= j < |r.pending| ==> j < |b.pending| ==> r.pending[j] == b.pending[j];
        }
      case Answered(j, apiOk) =>
        if j < |b.pending| {
          var req := b.pending[j];
          assert req.confirm ==> req.bookingId != b.bookings[i].id;
          assert forall x :: 0 <= x < |r.pending| ==>
                   r.pending[x] == (if x < j then b.pending[x] else b.pending[x + 1]);
        }
    }
  }

  /**
   * With distinct booking ids, a rejected booking for which no confirmation
   * is in flight stays rejected, whatever is clicked and answered next: every
   * later confirmation needs a drawn control, and a rejected booking has none.
   */
  lemma {:induction false} RejectionIsFinal(b: Board, acts: seq<Action>, i: nat)
    requires UniqueBookingIds(b.bookings)
    requires i < |b.bookings| && b.bookings[i].confirmationStatus == "rejected"
    requires NoConfirmInFlight(b, b.bookings[i].id)
    ensures |ActAll(b, acts).bookings| == |b.bookings|
    ensures ActAll(b, acts).bookings[i] == b.bookings[i]
    decreases |acts|
  {
    if |acts| > 0 {
      ActKeepsSettled(b, acts[0], i);
      RejectionIsFinal(Act(b, acts[0]), acts[1..], i);
    }
  }
}
