/**
  The read paths of the API: the class list (every class, in start order,
  with the timezone the caller asked for or the default) and the booking
  list (the bookings of one client email, which is required). Both are
  functions of the tables and change nothing.
 */
module Views {
  import opened Wrappers
  import opened Models
  import opened Ordering
  import Ledger

  /** The timezone the class list uses when the caller gives none. */
  const DefaultTimezone: string := "Asia/Kolkata"

  /** The `user_timezone` query parameter, or the default when it is absent; a present but empty value is kept. */
  function EffectiveTimezone(param: Option<string>): (tz: string)
    ensures param.None? ==> tz == DefaultTimezone
    ensures param.Some? ==> tz == param.value
  {
    match param
    case None => DefaultTimezone
    case Some(name) => name
  }

  /**
    A timestamp shown in the zone named `tzName`, given the zone table
    `zones` (name to UTC offset). An unknown name leaves it as it is.
   */
  function ConvertToTimezone(dt: Instant, tzName: string, zones: map<string, int>): (r: Instant)
    ensures r.utc == dt.utc
    ensures tzName in zones ==> r.offset == zones[tzName]
    ensures tzName !in zones ==> r == dt
  {
    if tzName in zones then dt.(offset := zones[tzName]) else dt
  }

  datatype ClassListing = ClassListing(timezone: string, classes: seq<FitnessClass>)

  /** The class list: every stored class, earliest start first, and the timezone to show them in. */
  function ListClasses(classes: seq<FitnessClass>, userTimezone: Option<string>): (r: ClassListing)
    ensures userTimezone.None? ==> r.timezone == DefaultTimezone
    ensures userTimezone.Some? ==> r.timezone == userTimezone.value
    ensures multiset(r.classes) == multiset(classes)
    ensures |r.classes| == |classes|
    ensures forall i, j :: 0 <= i < j < |r.classes| ==> r.classes[i].start.utc <= r.classes[j].start.utc
  {
    var sorted := ClassesByStart(classes);
    assert |sorted| == |multiset(sorted)| == |multiset(classes)| == |classes|;
    ClassListing(EffectiveTimezone(userTimezone), sorted)
  }

  /** The error returned when the booking list is asked for without a client email. */
  const EmailRequired: string := "client_email is required"

  /** The bookings whose client email is `email`, in table order. */
  function BookingsFor(bookings: seq<Booking>, email: string): (r: seq<Booking>)
    ensures forall b :: b in r <==> b in bookings && b.clientEmail == email
    ensures forall b :: multiset(r)[b] == if b.clientEmail == email then multiset(bookings)[b] else 0
    ensures |r| <= |bookings|
  {
    if bookings == [] then []
    else
      assert bookings == [bookings[0]] + bookings[1..];
      var rest := BookingsFor(bookings[1..], email);
      if bookings[0].clientEmail == email then [bookings[0]] + rest else rest
  }

  /** Filtering keeps table order: the filter of a concatenation is the concatenation of the filters. */
  lemma {:induction false} BookingsForAppend(a: seq<Booking>, b: seq<Booking>, email: string)
    ensures BookingsFor(a + b, email) == BookingsFor(a, email) + BookingsFor(b, email)
  {
    if a == [] {
      assert a + b == b;
    } else {
      assert (a + b)[1..] == a[1..] + b;
      BookingsForAppend(a[1..], b, email);
    }
  }

  /**
    The booking list for the `client_email` query parameter: an error when
    it is absent or empty, otherwise exactly the bookings with that email.
   */
  function ListBookings(bookings: seq<Booking>, clientEmail: Option<string>): (r: Result<seq<Booking>, string>)
    ensures r.Err? <==> clientEmail.None? || clientEmail.value == ""
    ensures r.Err? ==> r.error == EmailRequired
    ensures r.Ok? ==> forall b :: b in r.value <==> b in bookings && b.clientEmail == clientEmail.value
    ensures r.Ok? ==> forall b :: multiset(r.value)[b] == if b.clientEmail == clientEmail.value then multiset(bookings)[b] else 0
  {
    match clientEmail
    case None => Err(EmailRequired)
    case Some(email) =>
      if email == "" then Err(EmailRequired) else Ok(BookingsFor(bookings, email))
  }

  /** Appending one row adds it to the end of its own client's filter and to no other. */
  lemma BookingsForAppendOne(bookings: seq<Booking>, b: Booking, email: string)
    ensures BookingsFor(bookings + [b], email)
         == if b.clientEmail == email then BookingsFor(bookings, email) + [b] else BookingsFor(bookings, email)
  {
    BookingsForAppend(bookings, [b], email);
    assert [b][1..] == [];
    assert BookingsFor(bookings, email) + [] == BookingsFor(bookings, email);
  }

  /** The listing of a table with one more row, for the row's own client and for another. */
  lemma ListingAfterAppend(bookings: seq<Booking>, b: Booking, other: string)
    requires b.clientEmail != "" && other != "" && other != b.clientEmail
    ensures ListBookings(bookings + [b], Some(b.clientEmail)) == Ok(BookingsFor(bookings, b.clientEmail) + [b])
    ensures ListBookings(bookings + [b], Some(other)) == ListBookings(bookings, Some(other))
  {
    BookingsForAppendOne(bookings, b, b.clientEmail);
    BookingsForAppendOne(bookings, b, other);
  }

  /**
    After a successful booking, the client's list is their earlier list with
    the new booking last, and every other client's list is unchanged.
   */
  lemma ListingAfterBooking(t: Ledger.Tables, req: Ledger.BookingRequest, now: int, other: string)
    requires Ledger.Consistent(t)
    requires req.clientEmail != "" && other != "" && other != req.clientEmail
    ensures var email := req.clientEmail;
      var (o, t') := Ledger.Book(t, req, now);
      o.Booked? ==>
        && ListBookings(t'.bookings, Some(email)) == Ok(BookingsFor(t.bookings, email) + [o.booking])
        && ListBookings(t'.bookings, Some(other)) == ListBookings(t.bookings, Some(other))
  {
    var (o, t') := Ledger.Book(t, req, now);
    if o.Booked? {
      assert t'.bookings == t.bookings + [o.booking];
      assert o.booking.clientEmail == req.clientEmail;
      ListingAfterAppend(t.bookings, o.booking, other);
    }
  }
}
