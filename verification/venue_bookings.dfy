/** Bookings as the grid page receives them from the backend and as it hands
    them to the venue columns (pages/grid.tsx). */
module VenueBookings {
  import opened Wrappers
  import opened Seqs

  /** The venue names, one column each; column k is venue id k + 1. */
  const Venues: seq<string> := ["CTPH", "Chatterbox", "Maker's Studio", "Amphi", "TRR", "TRB"]
  const VenueCount: int := 6

  /** A booking as the backend sends it; `start`/`end` are instants in
      minutes, standing for the ISO strings the page parses. */
  datatype BackendBooking = BackendBooking(
    id: int, venueId: int, userId: int, orgId: int, start: int, end: int)

  /** A booking as the grid displays it. `ig` and `bookedBy` hold the org and
      user ids the page stringifies; `userId` is `None` when the object has no
      such field. */
  datatype DisplayBooking = DisplayBooking(
    ig: int, venueId: int, bookedBy: int, userId: Option<int>, from: int, to: int)

  /** The backend-to-display mapping: the start is moved one minute earlier,
      the end is kept, and the object literal carries no `userId`. */
  function ToDisplay(b: BackendBooking): (d: DisplayBooking)
    ensures d.from < b.start && d.to == b.end && d.venueId == b.venueId && d.userId.None?
  {
    DisplayBooking(b.orgId, b.venueId, b.userId, None, b.start - 1, b.end)
  }

  /** The mapping keeps the venue and the end, moves the start one minute
      earlier, and is undone by moving it back. */
  lemma ToDisplayRoundTrip(b: BackendBooking)
    ensures ToDisplay(b).venueId == b.venueId && ToDisplay(b).to == b.end
    ensures ToDisplay(b).from + 1 == b.start && ToDisplay(b).from < b.start
    ensures ToDisplay(b).userId == None
  {
  }

  function DisplayAll(bs: seq<BackendBooking>): (ds: seq<DisplayBooking>)
    ensures |ds| == |bs|
    ensures forall i :: 0 <= i < |bs| ==> ds[i] == ToDisplay(bs[i])
  {
    Map(ToDisplay, bs)
  }

  /** `memo[venueId - 1]` is `undefined` outside 1..6 and `.push` throws. */
  datatype BucketError = NoSuchVenue(venueId: int)

  /** Is the booking for venue `v`? */
  function OnVenue(v: int): DisplayBooking -> bool
  {
    (b: DisplayBooking) => b.venueId == v
  }

  predicate KnownVenue(b: DisplayBooking)
  {
    1 <= b.venueId <= VenueCount
  }

  /** `memo[venueId - 1].push(b)` for a booking of a known venue. */
  function Push(memo: seq<seq<DisplayBooking>>, b: DisplayBooking): (r: seq<seq<DisplayBooking>>)
    requires |memo| == VenueCount && KnownVenue(b)
    ensures |r| == VenueCount
    ensures forall k :: 0 <= k < VenueCount ==> r[k] == memo[k] + (if b.venueId == k + 1 then [b] else [])
  {
    memo[b.venueId - 1 := memo[b.venueId - 1] + [b]]
  }

  /** The `reduce` step by step: each booking is pushed onto the list of its
      venue; the first booking with an unknown venue aborts. */
  function PushAll(memo: seq<seq<DisplayBooking>>, bs: seq<DisplayBooking>): (r: Result<seq<seq<DisplayBooking>>, BucketError>)
    requires |memo| == VenueCount
    ensures r.Ok? ==> |r.value| == VenueCount
    decreases |bs|
  {
    if |bs| == 0 then Ok(memo)
    else if !KnownVenue(bs[0]) then Err(NoSuchVenue(bs[0].venueId))
    else PushAll(Push(memo, bs[0]), bs[1..])
  }

  /** `[[], [], [], [], [], []]`, the `reduce`'s initial value. */
  const NoBuckets: seq<seq<DisplayBooking>> := [[], [], [], [], [], []]

  lemma NoBucketsHoldNothing()
    ensures |NoBuckets| == VenueCount && Lengths(NoBuckets) == 0
    ensures forall k :: 0 <= k < VenueCount ==> NoBuckets[k] == []
  {
    assert Lengths(NoBuckets[5..]) == 0;
    assert Lengths(NoBuckets[4..]) == 0;
    assert Lengths(NoBuckets[3..]) == 0;
    assert Lengths(NoBuckets[2..]) == 0;
    assert Lengths(NoBuckets[1..]) == 0;
  }

  /** `venueBookings`: six empty lists filled by `PushAll`. */
  function BucketByVenue(bs: seq<DisplayBooking>): (r: Result<seq<seq<DisplayBooking>>, BucketError>)
    ensures r.Ok? ==> |r.value| == VenueCount
  {
    PushAll(NoBuckets, bs)
  }

  function Lengths(buckets: seq<seq<DisplayBooking>>): nat
  {
    if |buckets| == 0 then 0 else |buckets[0]| + Lengths(buckets[1..])
  }

  lemma {:induction false} LengthsUpdate(buckets: seq<seq<DisplayBooking>>, i: nat, x: DisplayBooking)
    requires i < |buckets|
    ensures Lengths(buckets[i := buckets[i] + [x]]) == Lengths(buckets) + 1
  {
    if i > 0 {
      assert buckets[i := buckets[i] + [x]][1..] == buckets[1..][i - 1 := buckets[i] + [x]];
      LengthsUpdate(buckets[1..], i - 1, x);
    }
  }

  /** Booking i is the first one with a venue outside 1..6. */
  predicate FirstUnknown(bs: seq<DisplayBooking>, i: int)
    requires 0 <= i < |bs|
  {
    !KnownVenue(bs[i]) && forall j :: 0 <= j < i ==> KnownVenue(bs[j])
  }

  /** The `reduce` fails exactly when some booking has a venue outside 1..6,
      and then it reports the first such booking's venue. */
  lemma {:induction false} PushAllFails(memo: seq<seq<DisplayBooking>>, bs: seq<DisplayBooking>)
    requires |memo| == VenueCount
    decreases |bs|
    ensures PushAll(memo, bs).Err? <==> exists i :: 0 <= i < |bs| && !KnownVenue(bs[i])
    ensures PushAll(memo, bs).Err? ==>
      exists i :: 0 <= i < |bs| && PushAll(memo, bs).error == NoSuchVenue(bs[i].venueId) && FirstUnknown(bs, i)
  {
    if |bs| > 0 && KnownVenue(bs[0]) {
      var x := bs[0];
      var memo' := Push(memo, x);
      PushAllFails(memo', bs[1..]);
      assert forall j :: 0 < j < |bs| ==> bs[j] == bs[1..][j - 1];
      if PushAll(memo, bs).Err? {
        var i :| 0 <= i < |bs[1..]| &&
          PushAll(memo', bs[1..]).error == NoSuchVenue(bs[1..][i].venueId) && FirstUnknown(bs[1..], i);
        assert FirstUnknown(bs, i + 1);
      }
    }
  }

  /** Pushing the first booking onto its venue's list is what filtering the
      whole input adds over filtering the rest. */
  lemma PushFirst(memo: seq<seq<DisplayBooking>>, bs: seq<DisplayBooking>, k: nat)
    requires |memo| == VenueCount && |bs| > 0 && KnownVenue(bs[0]) && k < VenueCount
    ensures Push(memo, bs[0])[k] + Filter(OnVenue(k + 1), bs[1..]) == memo[k] + Filter(OnVenue(k + 1), bs)
  {
    var p, x, rest := OnVenue(k + 1), bs[0], bs[1..];
    var kept := if x.venueId == k + 1 then [x] else [];
    assert bs == [x] + rest;
    FilterCons(p, x, rest);
    assert Push(memo, x)[k] == memo[k] + kept;
    AppendAssoc(memo[k], kept, Filter(p, rest));
  }

  /** When every venue is known, list k gains, in input order, exactly the
      bookings of venue k + 1. */
  lemma {:induction false} PushAllBuckets(memo: seq<seq<DisplayBooking>>, bs: seq<DisplayBooking>)
    requires |memo| == VenueCount
    requires forall i :: 0 <= i < |bs| ==> KnownVenue(bs[i])
    decreases |bs|
    ensures PushAll(memo, bs).Ok?
    ensures forall k :: 0 <= k < VenueCount ==> PushAll(memo, bs).value[k] == memo[k] + Filter(OnVenue(k + 1), bs)
  {
    if |bs| > 0 {
      var memo' := Push(memo, bs[0]);
      assert forall j :: 0 <= j < |bs[1..]| ==> bs[1..][j] == bs[j + 1];
      PushAllBuckets(memo', bs[1..]);
      forall k | 0 <= k < VenueCount
        ensures PushAll(memo, bs).value[k] == memo[k] + Filter(OnVenue(k + 1), bs)
      {
        PushFirst(memo, bs, k);
      }
    }
  }

  /** Each successful push adds one booking to one list, so none is lost or
      duplicated. */
  lemma {:induction false} PushAllCounts(memo: seq<seq<DisplayBooking>>, bs: seq<DisplayBooking>)
    requires |memo| == VenueCount
    decreases |bs|
    ensures PushAll(memo, bs).Ok? ==> Lengths(PushAll(memo, bs).value) == Lengths(memo) + |bs|
  {
    if |bs| > 0 && KnownVenue(bs[0]) {
      var memo' := Push(memo, bs[0]);
      PushAllCounts(memo', bs[1..]);
      LengthsUpdate(memo, bs[0].venueId - 1, bs[0]);
    }
  }

  /** Bucketing yields six lists; list k holds the bookings of venue k + 1 in
      input order; their lengths add up to the number of bookings; a venue
      outside 1..6 is an error. */
  lemma BucketByVenueSpec(bs: seq<DisplayBooking>)
    ensures BucketByVenue(bs).Err? <==> exists i :: 0 <= i < |bs| && !KnownVenue(bs[i])
    ensures BucketByVenue(bs).Ok? ==>
      && |BucketByVenue(bs).value| == VenueCount
      && (forall k :: 0 <= k < VenueCount ==> BucketByVenue(bs).value[k] == Filter(OnVenue(k + 1), bs))
      && Lengths(BucketByVenue(bs).value) == |bs|
  {
    NoBucketsHoldNothing();
    PushAllFails(NoBuckets, bs);
    if forall i :: 0 <= i < |bs| ==> KnownVenue(bs[i]) {
      PushAllBuckets(NoBuckets, bs);
    }
    PushAllCounts(NoBuckets, bs);
  }

  /** What the page stores when a column commits a selection. */
  datatype BookingDataSelection = BookingDataSelection(
    start: Option<int>, end: Option<int>, venueId: int, venueName: string)

  /** The `openBookingModal` callback of column k: the previous record spread
      and overwritten with this column's venue and the committed range. */
  function OpenBookingModal(prev: BookingDataSelection, column: nat, start: Option<int>, end: Option<int>): (r: BookingDataSelection)
    requires column < |Venues|
    ensures r.venueId == column + 1 && r.venueName == Venues[column]
    ensures r.start == start && r.end == end
  {
    prev.(venueName := Venues[column], venueId := column + 1, start := start, end := end)
  }

  /** Column k tags its selection with venue id k + 1 and its own name, which
      is the venue of every booking in bucket k; every field is overwritten, so
      the previous record does not show through. */
  lemma OpenBookingModalTagsColumn(prev: BookingDataSelection, other: BookingDataSelection,
                                   column: nat, start: Option<int>, end: Option<int>, bs: seq<DisplayBooking>)
    requires column < |Venues|
    ensures OpenBookingModal(prev, column, start, end) == OpenBookingModal(other, column, start, end)
    ensures OpenBookingModal(prev, column, start, end).venueName == Venues[column]
    ensures OpenBookingModal(prev, column, start, end).start == start && OpenBookingModal(prev, column, start, end).end == end
    ensures BucketByVenue(bs).Ok? ==> forall b :: b in BucketByVenue(bs).value[column] ==>
      b.venueId == OpenBookingModal(prev, column, start, end).venueId
  {
    BucketByVenueSpec(bs);
  }
}
