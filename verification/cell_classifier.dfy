/** `getCellStatus` of a venue column (components/booking/BookingVenueCol.tsx):
    every slot of the day gets one status and, when booked, the booking that
    owns it. */
module CellClassifier {
  import opened Wrappers
  import opened VenueBookings

  datatype CellStatus =
    | Available
    | Booked
    | Selected
    | CellInPast
    | CellIsAfterBookingAndSelection

  /** A classified slot: its status and the booking found for it. */
  datatype Cell = Cell(status: CellStatus, venueBooking: Option<DisplayBooking>)

  /** The selection bounds of a column: `smallerSelected`, `largerSelected`. */
  datatype Bounds = Bounds(smaller: int, larger: int)

  /** The "no selection" sentinel; 50 lies past the 48 slots of a day. */
  const InitialFirstSelectedIndex: int := 50
  const InitialLastSelectedIndex: int := -1
  const InitialBounds: Bounds := Bounds(InitialFirstSelectedIndex, InitialLastSelectedIndex)

  /** What one column classifies against: its slot starts, its bookings, the
      current half hour and whether the user is logged in. */
  datatype Column = Column(slots: seq<int>, bookings: seq<DisplayBooking>, now: int, loggedIn: bool)

  /** `timeIntervals[k]`: `undefined` outside the slot list. */
  function SlotAt(slots: seq<int>, k: int): (r: Option<int>)
    ensures r.Some? <==> 0 <= k < |slots|
  {
    if 0 <= k < |slots| then Some(slots[k]) else None
  }

  /** The booking covers the instant: `from <= el < to`. */
  predicate Occupies(b: DisplayBooking, el: int)
  {
    (el == b.from || el > b.from) && b.to > el
  }

  /** Some booking covers the instant. */
  predicate Occupied(bookings: seq<DisplayBooking>, el: int)
  {
    exists k :: 0 <= k < |bookings| && Occupies(bookings[k], el)
  }

  /** Booking k is the first in list order that covers the instant. */
  predicate FirstOccupying(bookings: seq<DisplayBooking>, el: int, k: int)
  {
    && 0 <= k < |bookings|
    && Occupies(bookings[k], el)
    && forall j :: 0 <= j < k ==> !Occupies(bookings[j], el)
  }

  /** `bookings.find(...)`: the first booking covering the instant. */
  function FindOccupying(bookings: seq<DisplayBooking>, el: int): (r: Option<DisplayBooking>)
    ensures r.None? <==> !Occupied(bookings, el)
    ensures r.Some? ==> exists k :: FirstOccupying(bookings, el, k) && r.value == bookings[k]
  {
    if |bookings| == 0 then None
    else if Occupies(bookings[0], el) then
      assert FirstOccupying(bookings, el, 0);
      Some(bookings[0])
    else
      var r := FindOccupying(bookings[1..], el);
      assert forall k :: 1 <= k < |bookings| ==> bookings[k] == bookings[1..][k - 1];
      assert Occupied(bookings, el) ==> Occupied(bookings[1..], el);
      assert forall k :: FirstOccupying(bookings[1..], el, k) ==> FirstOccupying(bookings, el, k + 1);
      r
  }

  /** The booking starts strictly between the selection's lower slot and
      this slot, in either order. An `undefined` lower slot compares false. */
  predicate StartsBetween(b: DisplayBooking, anchor: Option<int>, el: int)
  {
    anchor.Some? &&
    ((b.from > anchor.value && el > b.from) || (anchor.value > b.from && b.from > el))
  }

  /** `bookings.some(...)` over `StartsBetween`. */
  predicate AnyStartsBetween(bookings: seq<DisplayBooking>, anchor: Option<int>, el: int)
  {
    exists k :: 0 <= k < |bookings| && StartsBetween(bookings[k], anchor, el)
  }

  predicate InSelection(sel: Bounds, i: int)
  {
    sel.smaller <= i <= sel.larger
  }

  /** `getCellStatus(timeIntervals[i], i)`. */
  function GetCellStatus(col: Column, sel: Bounds, i: int): (c: Cell)
    requires 0 <= i < |col.slots|
    ensures c.status == Booked <==> Occupied(col.bookings, col.slots[i])
    ensures c.venueBooking.Some? <==> c.status == Booked
    ensures c.status == Available ==> col.now <= col.slots[i] && !InSelection(sel, i)
  {
    var el := col.slots[i];
    var isTimePast := col.now > el;
    var isCellAfterSelectionAndBooking := AnyStartsBetween(col.bookings, SlotAt(col.slots, sel.smaller), el);
    var venueBooking := FindOccupying(col.bookings, el);
    if venueBooking.Some? then Cell(Booked, venueBooking)
    else if InSelection(sel, i) then Cell(Selected, venueBooking)
    else if isTimePast then Cell(CellInPast, venueBooking)
    else if isCellAfterSelectionAndBooking then Cell(CellIsAfterBookingAndSelection, venueBooking)
    else Cell(Available, venueBooking)
  }

  /** The statuses in priority order Booked > Selected > CellInPast >
      CellIsAfterBookingAndSelection > Available, each stated by its own
      condition; the attached booking is the first covering one, and only a
      Booked slot has one. */
  lemma StatusPriority(col: Column, sel: Bounds, i: int)
    requires 0 <= i < |col.slots|
    ensures var c := GetCellStatus(col, sel, i); var el := col.slots[i];
      && (c.status == Booked <==> Occupied(col.bookings, el))
      && (c.status == Selected <==> !Occupied(col.bookings, el) && InSelection(sel, i))
      && (c.status == CellInPast <==> !Occupied(col.bookings, el) && !InSelection(sel, i) && col.now > el)
      && (c.status == CellIsAfterBookingAndSelection <==>
            && !Occupied(col.bookings, el) && !InSelection(sel, i) && col.now <= el
            && AnyStartsBetween(col.bookings, SlotAt(col.slots, sel.smaller), el))
      && (c.status == Available <==>
            && !Occupied(col.bookings, el) && !InSelection(sel, i) && col.now <= el
            && !AnyStartsBetween(col.bookings, SlotAt(col.slots, sel.smaller), el))
      && (c.venueBooking.Some? <==> c.status == Booked)
      && (c.venueBooking.Some? ==> exists k :: FirstOccupying(col.bookings, el, k) && c.venueBooking.value == col.bookings[k])
  {
  }

  /** A slot starting exactly at "now" is not in the past; one starting
      before it is, unless a booking or the selection outranks it. */
  lemma PastIsStrict(col: Column, sel: Bounds, i: int)
    requires 0 <= i < |col.slots|
    ensures col.slots[i] == col.now ==> GetCellStatus(col, sel, i).status != CellInPast
    ensures col.slots[i] < col.now ==> GetCellStatus(col, sel, i).status in {CellInPast, Booked, Selected}
  {
  }

  /** With the sentinel bounds (index 50 past the last slot) no slot is
      Selected and none is blocked by a selection. */
  lemma SentinelSelectsNothing(col: Column, i: int)
    requires |col.slots| <= InitialFirstSelectedIndex
    requires 0 <= i < |col.slots|
    ensures GetCellStatus(col, InitialBounds, i).status != Selected
    ensures GetCellStatus(col, InitialBounds, i).status != CellIsAfterBookingAndSelection
  {
  }

  /** Without bookings no slot is Booked or blocked: it is Selected, in the
      past or Available. */
  lemma NoBookingsNoConflicts(col: Column, sel: Bounds, i: int)
    requires 0 <= i < |col.slots| && |col.bookings| == 0
    ensures GetCellStatus(col, sel, i).status in {Selected, CellInPast, Available}
    ensures GetCellStatus(col, sel, i).venueBooking == None
  {
  }

  /** For a booking mapped from the backend with a slot-aligned start, the
      one-minute shift does not change which slots it covers: exactly those
      from its start up to, not including, its end. */
  lemma MappedOccupancy(b: BackendBooking, el: int)
    requires b.start % 30 == 0 && el % 30 == 0
    ensures Occupies(ToDisplay(b), el) <==> b.start <= el < b.end
  {
  }

  /** The whole column classified, slot by slot. */
  function ColumnCells(col: Column, sel: Bounds): (cells: seq<Cell>)
    ensures |cells| == |col.slots|
    ensures forall i :: 0 <= i < |col.slots| ==> cells[i] == GetCellStatus(col, sel, i)
  {
    seq(|col.slots|, i requires 0 <= i < |col.slots| => GetCellStatus(col, sel, i))
  }
}
