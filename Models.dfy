/**
  The three entity tables of the booking service: instructors, fitness
  classes and bookings. Field choices become datatypes with a parser from
  the stored code, field validators become predicates, the uniqueness
  constraints become predicates over a table, the default query ordering
  becomes a sort, and a class's text form renders its weekday codes.
 */
module Models {
  import opened Wrappers
  import opened Ordering

  /** An aware timestamp: seconds since the epoch in UTC, and the UTC offset it is shown in. */
  datatype Instant = Instant(utc: int, offset: int)

  /** The class-type choices of a fitness class's `name` column. */
  datatype ClassType = Yoga | Zumba | Hiit | Pilates
  {
    /** The value stored in the column. */
    function Code(): string
    {
      match this
      case Yoga => "YOGA"
      case Zumba => "ZUMBA"
      case Hiit => "HIIT"
      case Pilates => "PILATES"
    }

    /** The human-readable label of the choice. */
    function Label(): string
    {
      match this
      case Yoga => "Yoga"
      case Zumba => "Zumba"
      case Hiit => "HIIT"
      case Pilates => "Pilates"
    }
  }

  /** The stored code `s` as a class type; only the four choice codes are accepted. */
  function ParseClassType(s: string): (r: Option<ClassType>)
    ensures r.Some? <==> s in {"YOGA", "ZUMBA", "HIIT", "PILATES"}
    ensures r.Some? ==> r.value.Code() == s
    ensures forall t: ClassType :: t.Code() == s ==> r == Some(t)
  {
    if s == "YOGA" then Some(Yoga)
    else if s == "ZUMBA" then Some(Zumba)
    else if s == "HIIT" then Some(Hiit)
    else if s == "PILATES" then Some(Pilates)
    else None
  }

  /** The status choices of a booking. */
  datatype BookingStatus = Confirmed | Cancelled
  {
    function Code(): string
    {
      match this
      case Confirmed => "CONFIRMED"
      case Cancelled => "CANCELLED"
    }
  }

  /** The status a booking row gets when none is given. */
  const DefaultStatus: BookingStatus := Confirmed

  function ParseStatus(s: string): (r: Option<BookingStatus>)
    ensures r.Some? <==> s in {"CONFIRMED", "CANCELLED"}
    ensures r.Some? ==> r.value.Code() == s
    ensures forall st: BookingStatus :: st.Code() == s ==> r == Some(st)
  {
    if s == "CONFIRMED" then Some(Confirmed)
    else if s == "CANCELLED" then Some(Cancelled)
    else None
  }

  /** The weekday codes a class's day list is meant to hold. */
  datatype Weekday = Mon | Tue | Wed | Thu | Fri | Sat | Sun
  {
    function Code(): string
    {
      match this
      case Mon => "MON"
      case Tue => "TUE"
      case Wed => "WED"
      case Thu => "THU"
      case Fri => "FRI"
      case Sat => "SAT"
      case Sun => "SUN"
    }

    function FullName(): string
    {
      match this
      case Mon => "Monday"
      case Tue => "Tuesday"
      case Wed => "Wednesday"
      case Thu => "Thursday"
      case Fri => "Friday"
      case Sat => "Saturday"
      case Sun => "Sunday"
    }
  }

  function ParseWeekday(s: string): (r: Option<Weekday>)
    ensures r.Some? ==> r.value.Code() == s
    ensures forall d: Weekday :: d.Code() == s ==> r == Some(d)
  {
    if s == "MON" then Some(Mon)
    else if s == "TUE" then Some(Tue)
    else if s == "WED" then Some(Wed)
    else if s == "THU" then Some(Thu)
    else if s == "FRI" then Some(Fri)
    else if s == "SAT" then Some(Sat)
    else if s == "SUN" then Some(Sun)
    else None
  }

  /**
    The JSON value of a class's `days_of_week` column. Nothing validates it:
    it is normally a list of codes, but a plain string is stored as given.
   */
  datatype DaysValue = DayList(codes: seq<string>) | DayText(text: string)

  /**
    What iterating the stored value yields: the list's items, or a string's
    characters, none of which a weekday code names, so rendering keeps each.
   */
  function DayItems(v: DaysValue): (items: seq<string>)
    ensures v.DayList? ==> items == v.codes
    ensures v.DayText? ==> |items| == |v.text|
    ensures v.DayText? ==> forall i :: 0 <= i < |items| ==> DayName(items[i]) == items[i]
  {
    match v
    case DayList(codes) => codes
    case DayText(text) =>
      var items := seq(|text|, i requires 0 <= i < |text| => [text[i]]);
      assert forall i :: 0 <= i < |items| ==> |items[i]| == 1 && ParseWeekday(items[i]).None?;
      items
  }

  datatype Instructor = Instructor(id: nat, name: string, email: string, bio: string)

  datatype FitnessClass = FitnessClass(
    id: nat,
    name: ClassType,
    description: string,
    instructorId: nat,
    start: Instant,
    durationMinutes: int,
    totalSlots: int,
    availableSlots: int,
    days: DaysValue)

  datatype Booking = Booking(
    id: nat,
    classId: nat,
    clientName: string,
    clientEmail: string,
    bookedAt: int,
    status: BookingStatus)

  /** The field validators of a fitness class: duration, capacity and remaining slots. */
  predicate ValidClass(c: FitnessClass)
  {
    && 30 <= c.durationMinutes <= 180
    && 1 <= c.totalSlots <= 50
    && c.availableSlots >= 0
  }

  /** Remaining slots do not exceed capacity; no validator checks this. */
  predicate SlotsWithinTotal(c: FitnessClass)
  {
    c.availableSlots <= c.totalSlots
  }

  /** The validators admit a class with more available slots than capacity. */
  lemma CapacityNotChecked()
    ensures exists c :: ValidClass(c) && !SlotsWithinTotal(c)
  {
    var c := FitnessClass(1, Yoga, "", 1, Instant(0, 0), 60, 20, 21, DayList([]));
    assert ValidClass(c) && !SlotsWithinTotal(c);
  }

  /** No two instructors share an email. */
  predicate UniqueInstructorEmails(instructors: seq<Instructor>)
  {
    forall i, j :: 0 <= i < j < |instructors| ==> instructors[i].email != instructors[j].email
  }

  /** No two bookings share a (class, client email) pair, whatever their status. */
  predicate UniqueBookingPairs(bookings: seq<Booking>)
  {
    forall i, j :: 0 <= i < j < |bookings| ==>
      !(bookings[i].classId == bookings[j].classId && bookings[i].clientEmail == bookings[j].clientEmail)
  }

  // Default query ordering of the class and instructor tables.

  predicate StartLe(a: FitnessClass, b: FitnessClass)
  {
    a.start.utc <= b.start.utc
  }

  predicate NameLe(a: Instructor, b: Instructor)
  {
    StringLe(a.name, b.name)
  }

  lemma StartLeIsTotalPreorder()
    ensures TotalPreorder(StartLe)
  {
  }

  lemma NameLeIsTotalPreorder()
    ensures TotalPreorder(NameLe)
  {
    forall a: Instructor, b: Instructor ensures NameLe(a, b) || NameLe(b, a) {
      StringLeTotal(a.name, b.name);
    }
    forall a: Instructor, b: Instructor, c: Instructor | NameLe(a, b) && NameLe(b, c)
      ensures NameLe(a, c)
    {
      StringLeTransitive(a.name, b.name, c.name);
    }
  }

  /** The class table as a query returns it: every class, earliest start first. */
  function ClassesByStart(classes: seq<FitnessClass>): (r: seq<FitnessClass>)
    ensures multiset(r) == multiset(classes)
    ensures forall i, j :: 0 <= i < j < |r| ==> r[i].start.utc <= r[j].start.utc
  {
    StartLeIsTotalPreorder();
    SortBy(classes, StartLe)
  }

  /** The instructor table as a query returns it: every instructor, ordered by name. */
  function InstructorsByName(instructors: seq<Instructor>): (r: seq<Instructor>)
    ensures multiset(r) == multiset(instructors)
    ensures forall i, j :: 0 <= i < j < |r| ==> StringLe(r[i].name, r[j].name)
  {
    NameLeIsTotalPreorder();
    SortBy(instructors, NameLe)
  }

  // Text form of a fitness class.

  /** A weekday code's full name; anything else is kept as it is. */
  function DayName(code: string): (name: string)
    ensures forall d: Weekday :: d.Code() == code ==> name == d.FullName()
    ensures ParseWeekday(code).None? ==> name == code
  {
    match ParseWeekday(code)
    case Some(d) => d.FullName()
    case None => code
  }

  /** The items' day names joined by ", ", in list order. */
  function RenderDays(items: seq<string>): (r: string)
    ensures items == [] ==> r == ""
  {
    if items == [] then ""
    else if |items| == 1 then DayName(items[0])
    else DayName(items[0]) + ", " + RenderDays(items[1..])
  }

  /** Rendering a concatenation joins the two renderings with one separator. */
  lemma {:induction false} RenderDaysAppend(a: seq<string>, b: seq<string>)
    requires a != [] && b != []
    ensures RenderDays(a + b) == RenderDays(a) + ", " + RenderDays(b)
  {
    if |a| == 1 {
      assert (a + b)[1..] == b;
    } else {
      assert (a + b)[1..] == a[1..] + b;
      RenderDaysAppend(a[1..], b);
    }
  }

  /** Each item contributes its day name, in order: the rendering of one item is its name. */
  lemma {:induction false} RenderDaysCons(d: string, rest: seq<string>)
    ensures RenderDays([d] + rest) == if rest == [] then DayName(d) else DayName(d) + ", " + RenderDays(rest)
  {
    assert ([d] + rest)[1..] == rest;
  }

  /** The text form: the class type's label, the instructor, the days and the start time. */
  function Describe(c: FitnessClass, instructorName: string, startTime: string): string
  {
    c.name.Label() + " with " + instructorName + " on " + RenderDays(DayItems(c.days)) + " at " + startTime
  }

  /** The day list of a class stored as ["MON", "WED", "THU"]. */
  lemma RenderListedDays()
    ensures RenderDays(DayItems(DayList(["MON", "WED", "THU"]))) == "Monday, Wednesday, Thursday"
  {
    RenderTail();
    assert DayName("MON") == "Monday";
    RenderDaysCons("MON", ["WED", "THU"]);
  }

  lemma RenderTail()
    ensures RenderDays(["WED", "THU"]) == "Wednesday, Thursday"
  {
    assert DayName("WED") == "Wednesday" && DayName("THU") == "Thursday";
    RenderDaysCons("WED", ["THU"]);
  }

  /** A day list stored as the plain string "MON" is iterated by character, and no character is a code. */
  lemma RenderTextDays()
    ensures RenderDays(DayItems(DayText("MON"))) == "M, O, N"
  {
    assert DayItems(DayText("MON")) == ["M", "O", "N"];
    RenderTextTail();
    assert DayName("M") == "M";
    RenderDaysCons("M", ["O", "N"]);
  }

  lemma RenderTextTail()
    ensures RenderDays(["O", "N"]) == "O, N"
  {
    assert DayName("O") == "O" && DayName("N") == "N";
    RenderDaysCons("O", ["N"]);
  }

  /** The text form of a Yoga class with days ["MON", "WED", "THU"]. */
  lemma DescribeYogaClass(c: FitnessClass)
    requires c.name == Yoga && c.days == DayList(["MON", "WED", "THU"])
    ensures Describe(c, "Jane Doe", "08:00:00") == "Yoga with Jane Doe on Monday, Wednesday, Thursday at 08:00:00"
  {
    RenderListedDays();
    assert c.name.Label() == "Yoga";
    assert "Yoga" + " with " == "Yoga with ";
    assert "Yoga with " + "Jane Doe" == "Yoga with Jane Doe";
    assert "Yoga with Jane Doe" + " on " == "Yoga with Jane Doe on ";
    assert "Yoga with Jane Doe on " + "Monday, Wednesday, Thursday"
        == "Yoga with Jane Doe on Monday, Wednesday, Thursday";
    assert "Yoga with Jane Doe on Monday, Wednesday, Thursday" + " at "
        == "Yoga with Jane Doe on Monday, Wednesday, Thursday at ";
    assert "Yoga with Jane Doe on Monday, Wednesday, Thursday at " + "08:00:00"
        == "Yoga with Jane Doe on Monday, Wednesday, Thursday at 08:00:00";
  }
}
