/**
  The capacity ledger: creating a booking validates the request (the class
  exists, the client has no booking for it yet), refuses it when the class
  has no slot left, and otherwise takes one slot from the class and adds one
  CONFIRMED booking row. `Book` states the whole effect on the tables as a
  value; `Store.CreateBooking` performs it in place.
 */
module Ledger {
  import opened Wrappers
  import opened Models

  /** The contents of the three tables, and the id the next booking row receives. */
  datatype Tables = Tables(
    instructors: seq<Instructor>,
    classes: seq<FitnessClass>,
    bookings: seq<Booking>,
    nextBookingId: nat)

  /**
    A booking request: the class id, the client, and the two optional
    writable fields of the row, its status and its booking time.
   */
  datatype BookingRequest = BookingRequest(
    classId: nat,
    clientName: string,
    clientEmail: string,
    status: Option<BookingStatus>,
    bookedAt: Option<int>)

  datatype BookingOutcome = Booked(booking: Booking) | ClassNotFound | DuplicateBooking | NoSlotsAvailable

  predicate ClassExists(classes: seq<FitnessClass>, id: nat)
  {
    exists k :: 0 <= k < |classes| && classes[k].id == id
  }

  predicate InstructorExists(instructors: seq<Instructor>, id: nat)
  {
    exists k :: 0 <= k < |instructors| && instructors[k].id == id
  }

  /** Some booking row, of any status, holds the pair (class, email). */
  predicate IsBooked(bookings: seq<Booking>, classId: nat, email: string)
  {
    exists k :: 0 <= k < |bookings| && bookings[k].classId == classId && bookings[k].clientEmail == email
  }

  /**
    What the database guarantees of the tables at all times: primary keys,
    the unique instructor email, the unique (class, client email) pair,
    the foreign keys, and non-negative counters.
   */
  predicate Consistent(t: Tables)
  {
    && (forall i, j :: 0 <= i < j < |t.instructors| ==> t.instructors[i].id != t.instructors[j].id)
    && UniqueInstructorEmails(t.instructors)
    && (forall i, j :: 0 <= i < j < |t.classes| ==> t.classes[i].id != t.classes[j].id)
    && (forall k :: 0 <= k < |t.classes| ==>
          && t.classes[k].availableSlots >= 0
          && t.classes[k].totalSlots >= 0
          && t.classes[k].durationMinutes >= 0
          && InstructorExists(t.instructors, t.classes[k].instructorId))
    && (forall k :: 0 <= k < |t.bookings| ==>
          ClassExists(t.classes, t.bookings[k].classId) && t.bookings[k].id < t.nextBookingId)
    && (forall i, j :: 0 <= i < j < |t.bookings| ==> t.bookings[i].id < t.bookings[j].id)
    && UniqueBookingPairs(t.bookings)
  }

  /** The position of the class with primary key `id`. */
  function FindClass(classes: seq<FitnessClass>, id: nat): (r: Option<nat>)
    ensures r.Some? ==> r.value < |classes| && classes[r.value].id == id
    ensures r.None? <==> !ClassExists(classes, id)
  {
    if classes == [] then None
    else if classes[0].id == id then Some(0)
    else
      match FindClass(classes[1..], id)
      case None =>
        assert forall k :: 1 <= k < |classes| ==> classes[k] == classes[1..][k - 1];
        None
      case Some(k) => Some(k + 1)
  }

  /**
    Request validation, before any row is written: the class id must name a
    class, and the (class, email) pair must not be booked yet. On success,
    the position of the class.
   */
  function Validate(t: Tables, classId: nat, email: string): (r: Result<nat, BookingOutcome>)
    ensures r == Err(ClassNotFound) <==> !ClassExists(t.classes, classId)
    ensures r == Err(DuplicateBooking) <==> ClassExists(t.classes, classId) && IsBooked(t.bookings, classId, email)
    ensures r.Ok? <==> ClassExists(t.classes, classId) && !IsBooked(t.bookings, classId, email)
    ensures r.Ok? ==> r.value < |t.classes| && t.classes[r.value].id == classId
  {
    match FindClass(t.classes, classId)
    case None => Err(ClassNotFound)
    case Some(i) =>
      if IsBooked(t.bookings, classId, email) then Err(DuplicateBooking) else Ok(i)
  }

  /**
    The row a request inserts at time `now`: a field the request leaves out
    takes its default, CONFIRMED for the status and `now` for the booking time.
   */
  function NewRow(id: nat, req: BookingRequest, now: int): Booking
  {
    Booking(id, req.classId, req.clientName, req.clientEmail,
            if req.bookedAt.Some? then req.bookedAt.value else now,
            if req.status.Some? then req.status.value else DefaultStatus)
  }

  /**
    Taking one slot from the class at position `i` and appending the new
    booking row `b`: the write half of a booking request.
   */
  function Reserve(t: Tables, i: nat, b: Booking): (t': Tables)
    requires Consistent(t)
    requires i < |t.classes| && t.classes[i].availableSlots > 0
    requires b.id == t.nextBookingId && b.classId == t.classes[i].id
    requires !IsBooked(t.bookings, b.classId, b.clientEmail)
    ensures Consistent(t')
  {
    var fitness := t.classes[i];
    var t' := t.(classes := t.classes[i := fitness.(availableSlots := fitness.availableSlots - 1)],
                 bookings := t.bookings + [b],
                 nextBookingId := t.nextBookingId + 1);
    ReserveConsistent(t, i, b, t');
    t'
  }

  lemma ReserveConsistent(t: Tables, i: nat, b: Booking, t': Tables)
    requires Consistent(t)
    requires i < |t.classes| && t.classes[i].availableSlots > 0
    requires b.id == t.nextBookingId && b.classId == t.classes[i].id
    requires !IsBooked(t.bookings, b.classId, b.clientEmail)
    requires t' == t.(classes := t.classes[i := t.classes[i].(availableSlots := t.classes[i].availableSlots - 1)],
                      bookings := t.bookings + [b],
                      nextBookingId := t.nextBookingId + 1)
    ensures Consistent(t')
  {
    assert forall k :: 0 <= k < |t'.classes| ==> t'.classes[k].id == t.classes[k].id;
    forall k | 0 <= k < |t'.bookings| ensures ClassExists(t'.classes, t'.bookings[k].classId) {
      if k < |t.bookings| {
        var j :| 0 <= j < |t.classes| && t.classes[j].id == t.bookings[k].classId;
        assert t'.classes[j].id == t'.bookings[k].classId;
      } else {
        assert t'.classes[i].id == t'.bookings[k].classId;
      }
    }
    forall x, y | 0 <= x < y < |t'.bookings|
      ensures !(t'.bookings[x].classId == t'.bookings[y].classId && t'.bookings[x].clientEmail == t'.bookings[y].clientEmail)
    {
      if y == |t.bookings| {
        assert t'.bookings[x] == t.bookings[x];
      }
    }
  }

  /**
    Creating a booking from request `req` at time `now`: the outcome and the
    tables afterwards.
   */
  function Book(t: Tables, req: BookingRequest, now: int): (r: (BookingOutcome, Tables))
    requires Consistent(t)
    // Which outcome: a missing class first, then a duplicate pair, then a full class.
    ensures r.0 == ClassNotFound <==> !ClassExists(t.classes, req.classId)
    ensures r.0 == DuplicateBooking <==>
      ClassExists(t.classes, req.classId) && IsBooked(t.bookings, req.classId, req.clientEmail)
    ensures r.0 == NoSlotsAvailable <==>
      && !IsBooked(t.bookings, req.classId, req.clientEmail)
      && exists k :: 0 <= k < |t.classes| && t.classes[k].id == req.classId && t.classes[k].availableSlots <= 0
    // A refused request changes nothing.
    ensures !r.0.Booked? ==> r.1 == t
    // A booking is one new row for this class and client, appended last, with the
    // request's status (CONFIRMED when none is given) and booking time (else `now`).
    ensures r.0.Booked? ==>
      && r.0.booking.id == t.nextBookingId
      && r.0.booking.classId == req.classId
      && r.0.booking.clientName == req.clientName
      && r.0.booking.clientEmail == req.clientEmail
      && r.0.booking.status == (if req.status.Some? then req.status.value else Confirmed)
      && r.0.booking.bookedAt == (if req.bookedAt.Some? then req.bookedAt.value else now)
      && r.1.bookings == t.bookings + [r.0.booking]
      && r.1.nextBookingId == t.nextBookingId + 1
    // Only the booked class's available slots change, down by exactly one.
    ensures r.1.instructors == t.instructors
    ensures |r.1.classes| == |t.classes|
    ensures forall k :: 0 <= k < |t.classes| ==>
      r.1.classes[k] == if r.0.Booked? && t.classes[k].id == req.classId
                        then t.classes[k].(availableSlots := t.classes[k].availableSlots - 1)
                        else t.classes[k]
    // The database constraints still hold, and so do the validators and the capacity bound.
    ensures Consistent(r.1)
    ensures forall k :: 0 <= k < |t.classes| ==> ValidClass(t.classes[k]) ==> ValidClass(r.1.classes[k])
    ensures forall k :: 0 <= k < |t.classes| ==> SlotsWithinTotal(t.classes[k]) ==> SlotsWithinTotal(r.1.classes[k])
  {
    match Validate(t, req.classId, req.clientEmail)
    case Err(e) => (e, t)
    case Ok(i) =>
      if t.classes[i].availableSlots <= 0 then (NoSlotsAvailable, t)
      else
        var b := NewRow(t.nextBookingId, req, now);
        var r := (Booked(b), Reserve(t, i, b));
        assert forall k :: 0 <= k < |t.classes| && t.classes[k].id == req.classId ==> k == i;
        r
  }

  /** The number of booking rows, of any status, for class `classId`. */
  function CountFor(bookings: seq<Booking>, classId: nat): nat
  {
    if bookings == [] then 0
    else (if bookings[0].classId == classId then 1 else 0) + CountFor(bookings[1..], classId)
  }

  lemma {:induction false} CountForAppend(bookings: seq<Booking>, b: Booking, classId: nat)
    ensures CountFor(bookings + [b], classId) == CountFor(bookings, classId) + (if b.classId == classId then 1 else 0)
  {
    if bookings != [] {
      assert (bookings + [b])[1..] == bookings[1..] + [b];
      CountForAppend(bookings[1..], b, classId);
    }
  }

  /**
    The ledger balances: for every class, available slots plus the class's
    booking rows is the same before and after a booking request.
   */
  lemma LedgerBalance(t: Tables, req: BookingRequest, now: int)
    requires Consistent(t)
    ensures var t' := Book(t, req, now).1;
      forall k :: 0 <= k < |t.classes| ==>
        t'.classes[k].availableSlots + CountFor(t'.bookings, t'.classes[k].id)
        == t.classes[k].availableSlots + CountFor(t.bookings, t.classes[k].id)
  {
    var (o, t') := Book(t, req, now);
    if o.Booked? {
      forall k | 0 <= k < |t.classes|
        ensures t'.classes[k].availableSlots + CountFor(t'.bookings, t'.classes[k].id)
             == t.classes[k].availableSlots + CountFor(t.bookings, t.classes[k].id)
      {
        CountForAppend(t.bookings, o.booking, t.classes[k].id);
      }
    }
  }

  /** Every class's booking rows and remaining slots together fit its capacity. */
  predicate Balanced(t: Tables)
  {
    forall k :: 0 <= k < |t.classes| ==>
      t.classes[k].availableSlots + CountFor(t.bookings, t.classes[k].id) <= t.classes[k].totalSlots
  }

  /**
    Booking keeps the ledger balanced, so a class that starts with no more
    available slots than capacity is never booked beyond its capacity.
   */
  lemma BookPreservesBalanced(t: Tables, req: BookingRequest, now: int)
    requires Consistent(t) && Balanced(t)
    ensures var t' := Book(t, req, now).1;
      && Balanced(t')
      && forall k :: 0 <= k < |t'.classes| ==> CountFor(t'.bookings, t'.classes[k].id) <= t'.classes[k].totalSlots
  {
    LedgerBalance(t, req, now);
  }

  /** Once a client holds a booking for a class, a second request for the same pair is refused and changes nothing. */
  lemma RebookingRefused(t: Tables, req: BookingRequest, now: int, req2: BookingRequest, now2: int)
    requires Consistent(t)
    requires Book(t, req, now).0.Booked?
    requires req2.classId == req.classId && req2.clientEmail == req.clientEmail
    ensures var t' := Book(t, req, now).1;
      Book(t', req2, now2) == (DuplicateBooking, t')
  {
    var (o, t') := Book(t, req, now);
    assert t'.bookings[|t.bookings|] == o.booking;
    var j :| 0 <= j < |t.classes| && t.classes[j].id == req.classId;
    assert t'.classes[j].id == req.classId;
  }

  /** The class that the booking tests create: Yoga, 60 minutes, 20 of 20 slots free. */
  function YogaTables(): (t: Tables)
    ensures Consistent(t)
  {
    var t := Tables(
      [Instructor(1, "Jane Doe", "jane@example.com", "Experienced yoga instructor")],
      [FitnessClass(1, Yoga, "Morning yoga session", 1, Instant(0, 19800), 60, 20, 20, DayList(["MON", "WED", "THU"]))],
      [],
      1);
    assert t.instructors[0].id == 1 && t.classes[0].instructorId == 1;
    t
  }

  /** The requests of the booking tests: class id, name and email only. */
  const JohnRequest := BookingRequest(1, "John Smith", "john@example.com", None, None)
  const JaneRequest := BookingRequest(1, "Jane Smith", "jane.smith@example.com", None, None)

  const John := Booking(1, 1, "John Smith", "john@example.com", 0, Confirmed)
  const JaneSmith := Booking(2, 1, "Jane Smith", "jane.smith@example.com", 1, Confirmed)

  lemma FirstBookingStep()
    ensures Book(YogaTables(), JohnRequest, 0)
         == (Booked(John), YogaTables().(classes := [YogaTables().classes[0].(availableSlots := 19)],
                                         bookings := [John], nextBookingId := 2))
  {
    var t0 := YogaTables();
    assert t0.classes[0].id == 1 && ClassExists(t0.classes, 1);
    assert !IsBooked(t0.bookings, 1, "john@example.com");
    var r := Book(t0, JohnRequest, 0);
    assert r.0.Booked?;
    assert r.1.classes == [t0.classes[0].(availableSlots := 19)];
    assert r.1.bookings == [John];
  }

  lemma SecondBookingStep(t1: Tables)
    requires t1 == YogaTables().(classes := [YogaTables().classes[0].(availableSlots := 19)],
                                 bookings := [John], nextBookingId := 2)
    requires Consistent(t1)
    ensures Book(t1, JaneRequest, 1)
         == (Booked(JaneSmith), t1.(classes := [t1.classes[0].(availableSlots := 18)],
                                    bookings := [John, JaneSmith], nextBookingId := 3))
  {
    assert t1.classes[0].id == 1;
    assert "john@example.com" != "jane.smith@example.com" by {
      assert "john@example.com"[1] != "jane.smith@example.com"[1];
    }
    assert !IsBooked(t1.bookings, 1, "jane.smith@example.com");
    assert ClassExists(t1.classes, 1);
    var r := Book(t1, JaneRequest, 1);
    assert r.0.Booked?;
    assert r.1.classes == [t1.classes[0].(availableSlots := 18)];
    assert r.1.bookings == [John, JaneSmith];
  }

  /** A request that names the CANCELLED status stores a CANCELLED row, and still takes a slot. */
  lemma CancelledRequestTakesSlot()
    ensures var (o, t1) := Book(YogaTables(), JohnRequest.(status := Some(Cancelled)), 0);
      && o.Booked? && o.booking.status == Cancelled
      && t1.classes[0].availableSlots == 19
  {
    var t0 := YogaTables();
    assert t0.classes[0].id == 1 && ClassExists(t0.classes, 1);
    assert !IsBooked(t0.bookings, 1, "john@example.com");
  }

  /** Two clients book the 20-slot class: 18 slots remain and the two rows are listed in creation order. */
  lemma TwoBookingsScenario()
    ensures var (o1, t1) := Book(YogaTables(), JohnRequest, 0);
      var (o2, t2) := Book(t1, JaneRequest, 1);
      && o1.Booked? && o2.Booked?
      && t1.classes[0].availableSlots == 19
      && t2.classes[0].availableSlots == 18
      && t2.bookings == [o1.booking, o2.booking]
      && o1.booking.id < o2.booking.id
      && o1.booking.status == Confirmed && o2.booking.status == Confirmed
  {
    FirstBookingStep();
    var t1 := Book(YogaTables(), JohnRequest, 0).1;
    SecondBookingStep(t1);
  }

  /** The store: the three tables, updated in place by booking requests. */
  class Store {
    var instructors: seq<Instructor>
    var classes: seq<FitnessClass>
    var bookings: seq<Booking>
    var nextBookingId: nat

    function Contents(): Tables
      reads this
    {
      Tables(instructors, classes, bookings, nextBookingId)
    }

    ghost predicate Valid()
      reads this
    {
      Consistent(Contents())
    }

    constructor (initial: Tables)
      requires Consistent(initial)
      ensures Valid() && Contents() == initial
    {
      instructors := initial.instructors;
      classes := initial.classes;
      bookings := initial.bookings;
      nextBookingId := initial.nextBookingId;
    }

    /**
      Books a slot: validates the request, refuses it when the class has no
      slot left, otherwise takes one slot from the class, saves it, and
      inserts the CONFIRMED booking row.
     */
    method CreateBooking(req: BookingRequest, now: int)
      returns (outcome: BookingOutcome)
      requires Valid()
      modifies this
      ensures Valid()
      ensures (outcome, Contents()) == Book(old(Contents()), req, now)
      ensures instructors == old(instructors) && |classes| == |old(classes)|
      ensures forall k :: 0 <= k < |classes| && old(classes[k]).id != req.classId ==> classes[k] == old(classes[k])
      ensures !outcome.Booked? ==> classes == old(classes) && bookings == old(bookings) && nextBookingId == old(nextBookingId)
      ensures outcome.Booked? ==>
        && bookings == old(bookings) + [outcome.booking]
        && outcome.booking.status == (if req.status.Some? then req.status.value else Confirmed)
        && forall k :: 0 <= k < |classes| && old(classes[k]).id == req.classId ==>
             classes[k].availableSlots == old(classes[k]).availableSlots - 1
    {
      var validated := Validate(Contents(), req.classId, req.clientEmail);
      if validated.Err? {
        return validated.error;
      }
      var i := validated.value;
      var fitness := classes[i];
      if fitness.availableSlots <= 0 {
        return NoSlotsAvailable;
      }
      ghost var before := Contents();
      fitness := fitness.(availableSlots := fitness.availableSlots - 1);
      classes := classes[i := fitness];
      var booking := NewRow(nextBookingId, req, now);
      bookings := bookings + [booking];
      nextBookingId := nextBookingId + 1;
      assert Contents() == Reserve(before, i, booking);
      outcome := Booked(booking);
    }
  }
}
