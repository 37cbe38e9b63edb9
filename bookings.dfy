/**
 * The booking ledger of routes/booking.js: create a booking from the form,
 * list every booking, and the two status transitions.
 *
 * The booking collection is the sequence of its documents in insertion
 * order; a booking's `_id` is its position.
 */
module Bookings {
  import opened Form
  import opened Http

  datatype Status = Pending | Confirmed | Cancelled

  type BookingId = nat

  /** A stored booking. The five required fields are non-empty strings once stored. */
  datatype Booking = Booking(
    id: BookingId,
    userId: string,
    resortId: string,
    resortName: Option<string>,
    checkInDate: string,
    checkOutDate: string,
    totalCost: string,
    paymentMethod: Option<string>,
    gcashRefNumber: Option<string>,
    gcashScreenshot: Option<string>,
    bookingReference: Option<string>,
    swimmingType: Option<string>,
    status: Status)

  /** The multipart form fields of `POST /`. */
  datatype BookingForm = BookingForm(
    userId: Option<string>,
    resortId: Option<string>,
    resortName: Option<string>,
    checkInDate: Option<string>,
    checkOutDate: Option<string>,
    totalCost: Option<string>,
    paymentMethod: Option<string>,
    gcashRefNumber: Option<string>,
    bookingReference: Option<string>,
    swimmingType: Option<string>)

  /** The required-field check of `POST /`: all five are present and non-empty. */
  predicate HasRequiredFields(f: BookingForm)
  {
    Present(f.userId) && Present(f.resortId) && Present(f.checkInDate) &&
    Present(f.checkOutDate) && Present(f.totalCost)
  }

  const MissingFields: string := "Required fields are missing"
  const NotFound: string := "Booking not found"

  /** `booking.status = s` on the booking with that id; every other field and booking is kept. */
  function WithStatus(docs: seq<Booking>, id: BookingId, s: Status): (r: seq<Booking>)
    requires id < |docs|
    ensures |r| == |docs|
    ensures r[id].status == s
    ensures r[id] == docs[id].(status := s)
    ensures forall k :: 0 <= k < |docs| && k != id ==> r[k] == docs[k]
  {
    docs[id := docs[id].(status := s)]
  }

  /** No guard on the current status: the last transition applied is the one that holds. */
  lemma LastTransitionWins(docs: seq<Booking>, id: BookingId, first: Status, second: Status)
    requires id < |docs|
    ensures WithStatus(WithStatus(docs, id, first), id, second) == WithStatus(docs, id, second)
  {
    var a := WithStatus(WithStatus(docs, id, first), id, second);
    var b := WithStatus(docs, id, second);
    assert forall k :: 0 <= k < |docs| ==> a[k] == b[k];
  }

  /** Applying the same transition twice is applying it once. */
  lemma TransitionIdempotent(docs: seq<Booking>, id: BookingId, s: Status)
    requires id < |docs|
    ensures WithStatus(WithStatus(docs, id, s), id, s) == WithStatus(docs, id, s)
  {
    LastTransitionWins(docs, id, s, s);
  }

  /** Every stored booking's `_id` is its position. */
  ghost predicate IdsArePositions(docs: seq<Booking>)
  {
    forall k :: 0 <= k < |docs| ==> docs[k].id == k
  }

  /** The booking collection. `initialStatus` is the schema default of `status`. */
  class BookingLedger {
    var bookings: seq<Booking>
    const initialStatus: Status

    ghost predicate Valid()
      reads this
    {
      IdsArePositions(bookings)
    }

    constructor (initialStatus: Status)
      ensures Valid() && bookings == [] && this.initialStatus == initialStatus
    {
      bookings := [];
      this.initialStatus := initialStatus;
    }

    /**
     * `POST /`: a missing or empty required field answers 400 and stores
     * nothing; otherwise exactly one booking is appended, carrying the
     * submitted fields, the uploaded receipt's stored file name (or null)
     * and the default status, and it is answered with 201.
     */
    method Create(f: BookingForm, screenshot: Option<string>) returns (reply: Reply<Booking>)
      requires Valid()
      modifies this
      ensures Valid()
      ensures !HasRequiredFields(f) ==> reply == Error(400, MissingFields) && bookings == old(bookings)
      ensures HasRequiredFields(f) ==>
                reply.Ok? && reply.status == 201 && bookings == old(bookings) + [reply.value]
      ensures HasRequiredFields(f) ==>
                var b := reply.value;
                b.id == |old(bookings)| &&
                b.userId == f.userId.value && b.resortId == f.resortId.value &&
                b.resortName == f.resortName && b.checkInDate == f.checkInDate.value &&
                b.checkOutDate == f.checkOutDate.value && b.totalCost == f.totalCost.value &&
                b.paymentMethod == f.paymentMethod && b.gcashRefNumber == f.gcashRefNumber &&
                b.gcashScreenshot == screenshot && b.bookingReference == f.bookingReference &&
                b.swimmingType == f.swimmingType && b.status == initialStatus
    {
      if !HasRequiredFields(f) {
        return Error(400, MissingFields);
      }
      var b := Booking(|bookings|, f.userId.value, f.resortId.value, f.resortName,
                       f.checkInDate.value, f.checkOutDate.value, f.totalCost.value,
                       f.paymentMethod, f.gcashRefNumber, screenshot, f.bookingReference,
                       f.swimmingType, initialStatus);
      bookings := bookings + [b];
      reply := Ok(201, b);
    }

    /** `GET /`: every stored booking, in collection order, answered with 200. */
    method List() returns (reply: Reply<seq<Booking>>)
      requires Valid()
      ensures reply == Ok(200, bookings)
      ensures forall k :: 0 <= k < |reply.value| ==> reply.value[k].id == k
    {
      reply := Ok(200, bookings);
    }

    /** The shared body of the two PATCH handlers: load, assign the status, save. */
    method Transition(id: BookingId, target: Status) returns (reply: Reply<Booking>)
      requires Valid()
      modifies this
      ensures Valid()
      ensures id >= |old(bookings)| ==> reply == Error(404, NotFound) && bookings == old(bookings)
      ensures id < |old(bookings)| ==>
                bookings == WithStatus(old(bookings), id, target) && reply == Ok(200, bookings[id])
    {
      if id >= |bookings| {
        return Error(404, NotFound);
      }
      var booking := bookings[id];
      booking := booking.(status := target);
      bookings := bookings[id := booking];
      reply := Ok(200, booking);
    }

    /** `PATCH /:bookingId/confirmed`: an unknown id answers 404; otherwise only that booking's status becomes confirmed. */
    method Confirm(id: BookingId) returns (reply: Reply<Booking>)
      requires Valid()
      modifies this
      ensures Valid()
      ensures id >= |old(bookings)| ==> reply == Error(404, NotFound) && bookings == old(bookings)
      ensures id < |old(bookings)| ==>
                bookings == WithStatus(old(bookings), id, Confirmed) && reply == Ok(200, bookings[id])
    {
      reply := Transition(id, Confirmed);
    }

    /** `PATCH /:bookingId/cancelled`: an unknown id answers 404; otherwise only that booking's status becomes cancelled. */
    method Cancel(id: BookingId) returns (reply: Reply<Booking>)
      requires Valid()
      modifies this
      ensures Valid()
      ensures id >= |old(bookings)| ==> reply == Error(404, NotFound) && bookings == old(bookings)
      ensures id < |old(bookings)| ==>
                bookings == WithStatus(old(bookings), id, Cancelled) && reply == Ok(200, bookings[id])
    {
      reply := Transition(id, Cancelled);
    }
  }
}
