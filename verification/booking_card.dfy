/** `BookingCard` geometry (components/booking/BookingVenueCol.tsx): a
    booking is drawn as a card laid over the column, sized and placed in
    whole half-hour blocks. Lengths are in pixels; the rem constants of the
    cell height and vertical border are taken as whole numbers. */
module BookingCard {
  import opened VenueBookings
  import opened SlotGrid

  /** The card's fixed root font size, in pixels per rem. */
  const RootFontSize: int := 16

  /** `Math.round(minutes / 30)`: the nearest whole number of half hours,
      halves rounded up. */
  function RoundToSlots(minutes: int): (r: int)
    ensures SlotMinutes * r - 15 <= minutes < SlotMinutes * r + 15
  {
    (minutes + 15) / SlotMinutes
  }

  /** `startOfDay`: the midnight at or before an instant. */
  function StartOfDay(t: int): (r: int)
    ensures r <= t < r + MinutesPerDay
    ensures r % MinutesPerDay == 0
  {
    t - t % MinutesPerDay
  }

  datatype CardLayout = CardLayout(bookingSize: int, topMarginSize: int, height: int, top: int, isBigCard: bool)

  /** Height of one half-hour block with its two borders. */
  function Pitch(cellRem: nat, borderRem: nat): int
  {
    (cellRem + 2 * borderRem) * RootFontSize
  }

  /** Content height of a cell block spanning `m` slots: `m` cell heights
      plus the `m - 1` pairs of borders it swallows. */
  function CellContentHeight(m: int, cellRem: nat, borderRem: nat, fontSize: int): int
  {
    cellRem * m * fontSize + fontSize * (m - 1) * borderRem * 2
  }

  /** Total height of the blocks of the first `k` slots, each block a
      content box with a top and a bottom border, at the cells' font size. */
  function SlotOffset(k: nat, cellRem: nat, borderRem: nat, fontSize: int): int
  {
    if k == 0 then 0
    else SlotOffset(k - 1, cellRem, borderRem, fontSize) + CellContentHeight(1, cellRem, borderRem, fontSize) + 2 * borderRem * fontSize
  }

  lemma {:induction false} SlotOffsetIsLinear(k: nat, cellRem: nat, borderRem: nat, fontSize: int)
    ensures SlotOffset(k, cellRem, borderRem, fontSize) == k * ((cellRem + 2 * borderRem) * fontSize)
  {
    if k > 0 {
      SlotOffsetIsLinear(k - 1, cellRem, borderRem, fontSize);
      var p := (cellRem + 2 * borderRem) * fontSize;
      assert CellContentHeight(1, cellRem, borderRem, fontSize) + 2 * borderRem * fontSize == p;
      assert (k - 1) * p + p == k * p;
    }
  }

  /** The card of a booking as the source computes it: size and top margin
      in blocks, height and top in pixels, and `isBigCard`.
      With cells at the card's font size, the top is the offset of the slot
      the margin counts to and the height that of a merged cell block. */
  function CardLayoutOf(b: DisplayBooking, cellRem: nat, borderRem: nat): (c: CardLayout)
    ensures SlotMinutes * c.bookingSize - 15 <= b.to - b.from < SlotMinutes * c.bookingSize + 15
    ensures SlotMinutes * c.topMarginSize - 15 <= b.from - StartOfDay(b.from) < SlotMinutes * c.topMarginSize + 15
    ensures c.isBigCard <==> c.bookingSize > 1
    ensures 0 <= c.topMarginSize <= SlotCount
    ensures c.top == SlotOffset(c.topMarginSize, cellRem, borderRem, RootFontSize)
    ensures c.height == CellContentHeight(c.bookingSize, cellRem, borderRem, RootFontSize)
  {
    var bookingSize := RoundToSlots(b.to - b.from);
    var topMarginSize := RoundToSlots(b.from - StartOfDay(b.from));
    var height := Pitch(cellRem, borderRem) * bookingSize - 2 * borderRem * RootFontSize;
    var top := Pitch(cellRem, borderRem) * topMarginSize;
    SlotOffsetIsLinear(topMarginSize, cellRem, borderRem, RootFontSize);
    CardHeightMatchesCells(bookingSize, cellRem, borderRem);
    CardLayout(bookingSize, topMarginSize, height, top, bookingSize > 1)
  }

  /** `x * y == x * z` exactly when `y == z`, for positive `x`. */
  lemma CancelPositive(x: int, y: int, z: int)
    requires x > 0
    ensures x * y == x * z <==> y == z
  {
    if y != z {
      assert x * y - x * z == x * (y - z);
    }
  }

  /** A card placed `a >= 1` blocks down sits on the top of slot `a` exactly
      when the cells use the card's font size, as long as a block has any
      height at all. */
  lemma OffsetAlignsOnlyAtRootFont(a: nat, cellRem: nat, borderRem: nat, fontSize: int)
    requires a >= 1
    ensures cellRem + borderRem > 0 ==>
      (SlotOffset(a, cellRem, borderRem, RootFontSize) == SlotOffset(a, cellRem, borderRem, fontSize) <==> fontSize == RootFontSize)
  {
    SlotOffsetIsLinear(a, cellRem, borderRem, fontSize);
    SlotOffsetIsLinear(a, cellRem, borderRem, RootFontSize);
    if cellRem + borderRem > 0 {
      var w := cellRem + 2 * borderRem;
      assert SlotOffset(a, cellRem, borderRem, RootFontSize) == (a * w) * RootFontSize;
      assert SlotOffset(a, cellRem, borderRem, fontSize) == (a * w) * fontSize;
      assert a * w > 0;
      CancelPositive(a * w, RootFontSize, fontSize);
    }
  }

  /** A card `m` blocks tall is exactly as tall as the content of a cell
      block spanning `m` slots. */
  lemma CardHeightMatchesCells(m: int, cellRem: nat, borderRem: nat)
    ensures Pitch(cellRem, borderRem) * m - 2 * borderRem * RootFontSize ==
      CellContentHeight(m, cellRem, borderRem, RootFontSize)
  {
    calc {
      Pitch(cellRem, borderRem) * m - 2 * borderRem * RootFontSize;
      (cellRem + 2 * borderRem) * 16 * m - 32 * borderRem;
      { assert (cellRem + 2 * borderRem) * 16 * m == cellRem * m * 16 + 32 * borderRem * m; }
      cellRem * m * 16 + 32 * borderRem * m - 32 * borderRem;
      { assert 16 * (m - 1) * borderRem * 2 == 32 * borderRem * m - 32 * borderRem; }
      CellContentHeight(m, cellRem, borderRem, RootFontSize);
    }
  }

  /** Rounding undoes the one-minute shift: a start one minute before slot
      `a` rounds to `a`, a length one minute over `n` slots rounds to `n`. */
  lemma RoundShifted(a: int, n: int)
    ensures RoundToSlots(SlotMinutes * a - 1) == a
    ensures RoundToSlots(SlotMinutes * n + 1) == n
  {
  }

  lemma StartOfDayWithin(t: int)
    requires 0 <= t < MinutesPerDay
    ensures StartOfDay(t) == 0
  {
  }

  /** A booking from slot `a` to slot `c` of the day (start `30a`, end `30c`,
      mapped with its one-minute shift) gets a card exactly over its slots:
      its top is the top of slot `a`, its height is the content height of a
      merged block of `c - a` cells, and `isBigCard` holds exactly when it
      spans more than one slot. */
  lemma CardCoversItsSlots(bb: BackendBooking, a: int, c: int, cellRem: nat, borderRem: nat, fontSize: int)
    requires 1 <= a < c <= SlotCount
    requires bb.start == SlotMinutes * a && bb.end == SlotMinutes * c
    ensures var card := CardLayoutOf(ToDisplay(bb), cellRem, borderRem);
      && card.topMarginSize == a
      && card.bookingSize == c - a
      && (fontSize == RootFontSize ==>
            && card.top == SlotOffset(a, cellRem, borderRem, fontSize)
            && card.height == CellContentHeight(c - a, cellRem, borderRem, fontSize))
      && (cellRem + borderRem > 0 && fontSize != RootFontSize ==>
            card.top != SlotOffset(a, cellRem, borderRem, fontSize))
      && (card.isBigCard <==> c - a > 1)
  {
    var d := ToDisplay(bb);
    StartOfDayWithin(d.from);
    RoundShifted(a, c - a);
    assert d.to - d.from == SlotMinutes * (c - a) + 1;
    var card := CardLayoutOf(d, cellRem, borderRem);
    assert card.topMarginSize == a && card.bookingSize == c - a;
    OffsetAlignsOnlyAtRootFont(a, cellRem, borderRem, fontSize);
  }

  /** A booking that starts at midnight is mapped to start at 23:59 of the
      previous day, so its card is placed 48 blocks down: below the last
      slot of the grid instead of at the top. */
  lemma MidnightBookingDrawnBelowGrid(bb: BackendBooking, cellRem: nat, borderRem: nat)
    requires bb.start == 0 && bb.end > 0
    ensures CardLayoutOf(ToDisplay(bb), cellRem, borderRem).topMarginSize == SlotCount
    ensures CardLayoutOf(ToDisplay(bb), cellRem, borderRem).top == SlotOffset(SlotCount, cellRem, borderRem, RootFontSize)
  {
    assert StartOfDay(-1) == -MinutesPerDay;
  }

  /** The card placed against the midnight of the viewed day, the instant of
      slot 0, rather than the midnight of the booking's shifted start. */
  function CardLayoutInDay(b: DisplayBooking, cellRem: nat, borderRem: nat): (c: CardLayout)
    ensures c.isBigCard <==> c.bookingSize > 1
    ensures c.topMarginSize >= 0 ==> c.top == SlotOffset(c.topMarginSize, cellRem, borderRem, RootFontSize)
    ensures c.height == CellContentHeight(c.bookingSize, cellRem, borderRem, RootFontSize)
  {
    var bookingSize := RoundToSlots(b.to - b.from);
    var topMarginSize := RoundToSlots(b.from - 0);
    var height := Pitch(cellRem, borderRem) * bookingSize - 2 * borderRem * RootFontSize;
    var top := Pitch(cellRem, borderRem) * topMarginSize;
    if topMarginSize >= 0 then
      SlotOffsetIsLinear(topMarginSize, cellRem, borderRem, RootFontSize);
      CardHeightMatchesCells(bookingSize, cellRem, borderRem);
      CardLayout(bookingSize, topMarginSize, height, top, bookingSize > 1)
    else
      CardHeightMatchesCells(bookingSize, cellRem, borderRem);
      CardLayout(bookingSize, topMarginSize, height, top, bookingSize > 1)
  }

  /** Placed against the viewed day, every booking from slot `a` to slot
      `c`, the first slot included, gets its card over its own slots. */
  lemma CardInDayCoversItsSlots(bb: BackendBooking, a: int, c: int, cellRem: nat, borderRem: nat, fontSize: int)
    requires 0 <= a < c <= SlotCount
    requires bb.start == SlotMinutes * a && bb.end == SlotMinutes * c
    ensures var card := CardLayoutInDay(ToDisplay(bb), cellRem, borderRem);
      && card.topMarginSize == a
      && card.bookingSize == c - a
      && (fontSize == RootFontSize ==>
            && card.top == SlotOffset(a, cellRem, borderRem, fontSize)
            && card.height == CellContentHeight(c - a, cellRem, borderRem, fontSize))
      && (1 <= a && cellRem + borderRem > 0 && fontSize != RootFontSize ==>
            card.top != SlotOffset(a, cellRem, borderRem, fontSize))
  {
    var d := ToDisplay(bb);
    RoundShifted(a, c - a);
    assert d.to - d.from == SlotMinutes * (c - a) + 1;
    var card := CardLayoutInDay(d, cellRem, borderRem);
    assert card.topMarginSize == a && card.bookingSize == c - a;
    if a >= 1 {
      OffsetAlignsOnlyAtRootFont(a, cellRem, borderRem, fontSize);
    }
  }

  /** For a (shifted) start inside the viewed day the two placements agree;
      they differ only for a start before its midnight. */
  lemma PlacementsAgreeWithinDay(b: DisplayBooking, cellRem: nat, borderRem: nat)
    ensures 0 <= b.from < MinutesPerDay ==> CardLayoutInDay(b, cellRem, borderRem) == CardLayoutOf(b, cellRem, borderRem)
    ensures b.from == -1 ==> CardLayoutInDay(b, cellRem, borderRem).topMarginSize == 0
  {
    if 0 <= b.from < MinutesPerDay {
      StartOfDayWithin(b.from);
    }
  }
}
