/** The drag selection of one venue column
    (components/booking/BookingVenueCol.tsx): `mouseIsDown`,
    `smallerSelected` and `largerSelected`, changed by the cell and column
    mouse handlers and by a mouse-down outside the column. Each handler is a
    pure transition from one rendered state to the next. */
module SelectionMachine {
  import opened Wrappers
  import opened SlotGrid
  import opened CellClassifier

  datatype State = State(mouseIsDown: bool, bounds: Bounds)

  /** Mouse up, bounds at the (50, -1) sentinel. */
  const Initial: State := State(false, InitialBounds)

  /** Mouse events reaching one column: a press on the cell of slot `i`
      (a press on a booking card is a press on the Booked cell beneath),
      the mouse entering the cell of slot `j`, a release inside the grid,
      and a press anywhere outside the column. */
  datatype MouseEvent = CellDown(i: int) | CellOver(j: int) | GridUp | OutsideDown

  /** The `(start, end)` pair handed to `openBookingModal`; `None` stands for
      an `undefined` slot or an Invalid Date. */
  datatype Emission = Emission(start: Option<int>, end: Option<int>)

  datatype Transition = Transition(next: State, emitted: Option<Emission>)

  /** The five renderings of `BookingVenueTimeCell`. */
  datatype CellView = BookedView | UnavailableView | SelectedView | LoggedOutView | InteractiveView

  /** Which rendering a cell gets; only the last carries mouse handlers. */
  function CellViewOf(status: CellStatus, loggedIn: bool): (v: CellView)
    ensures v == InteractiveView <==> loggedIn && status == Available
    ensures status == Booked ==> v == BookedView
    ensures status == Selected ==> v == SelectedView
  {
    if status.Booked? then BookedView
    else if status.CellInPast? || status.CellIsAfterBookingAndSelection? then UnavailableView
    else if status.Selected? then SelectedView
    else if !loggedIn then LoggedOutView
    else InteractiveView
  }

  /** The cell of slot `j` exists and has mouse handlers in this render. */
  predicate HasHandlers(col: Column, sel: Bounds, j: int)
  {
    0 <= j < |col.slots| && CellViewOf(GetCellStatus(col, sel, j).status, col.loggedIn) == InteractiveView
  }

  /** `addMinutes(d, m)`; an `undefined` date gives an Invalid Date. */
  function AddMinutes(d: Option<int>, m: int): Option<int>
  {
    if d.Some? then Some(d.value + m) else None
  }

  /** The cell `onMouseOver`: while the mouse is down, a slot above the lower
      bound becomes the upper bound, any other becomes the lower bound. */
  function Hover(sel: Bounds, j: int): (r: Bounds)
    ensures r.smaller == sel.smaller || r.larger == sel.larger
    ensures r.smaller == j || r.larger == j
    ensures sel.smaller <= sel.larger ==> r.smaller <= r.larger
  {
    if j > sel.smaller then Bounds(sel.smaller, j) else Bounds(j, sel.larger)
  }

  /** One event applied to one rendered state. */
  function Step(col: Column, st: State, ev: MouseEvent): (t: Transition)
    ensures t.emitted.Some? ==> ev.GridUp?
    ensures !ev.OutsideDown? && st.bounds.smaller <= st.bounds.larger ==>
      t.next.bounds.smaller <= t.next.bounds.larger
    ensures ev.GridUp? ==> !t.next.mouseIsDown && t.next.bounds == st.bounds
  {
    match ev
    case CellDown(i) =>
      // the cell handler, when the cell has one, then the column's
      var bounds := if HasHandlers(col, st.bounds, i) then Bounds(i, i) else st.bounds;
      Transition(State(true, bounds), None)
    case CellOver(j) =>
      if st.mouseIsDown && HasHandlers(col, st.bounds, j) then
        Transition(st.(bounds := Hover(st.bounds, j)), None)
      else
        Transition(st, None)
    case GridUp =>
      var emitted :=
        if st.bounds.smaller != InitialFirstSelectedIndex then
          Some(Emission(SlotAt(col.slots, st.bounds.smaller),
                        AddMinutes(SlotAt(col.slots, st.bounds.larger), SlotMinutes)))
        else None;
      Transition(st.(mouseIsDown := false), emitted)
    case OutsideDown =>
      Transition(Initial, None)
  }

  /** Mouse-up clears `mouseIsDown`, keeps both bounds, and emits exactly
      when the lower bound is not the sentinel 50: the lower slot's start and
      thirty minutes after the upper slot's start. */
  lemma ReleaseEmits(col: Column, st: State)
    ensures var t := Step(col, st, GridUp);
      && !t.next.mouseIsDown && t.next.bounds == st.bounds
      && (t.emitted.Some? <==> st.bounds.smaller != InitialFirstSelectedIndex)
      && (t.emitted.Some? && 0 <= st.bounds.smaller <= st.bounds.larger < |col.slots| ==>
            t.emitted.value == Emission(Some(col.slots[st.bounds.smaller]), Some(col.slots[st.bounds.larger] + SlotMinutes)))
  {
  }

  /** A press outside the column forgets the drag: mouse up, sentinel bounds,
      nothing emitted, whatever the state was. */
  lemma OutsideResets(col: Column, st: State)
    ensures Step(col, st, OutsideDown) == Transition(State(false, Bounds(50, -1)), None)
  {
  }

  /** A press on a cell sets the mouse down, and sets both bounds to that
      cell exactly when it has handlers. */
  lemma PressAnchors(col: Column, st: State, i: int)
    ensures Step(col, st, CellDown(i)).next.mouseIsDown
    ensures HasHandlers(col, st.bounds, i) <==>
      (0 <= i < |col.slots| && col.loggedIn && GetCellStatus(col, st.bounds, i).status == Available)
    ensures HasHandlers(col, st.bounds, i) ==> Step(col, st, CellDown(i)).next.bounds == Bounds(i, i)
    ensures !HasHandlers(col, st.bounds, i) ==> Step(col, st, CellDown(i)).next.bounds == st.bounds
  {
  }

  /** Entering a cell changes nothing unless the mouse is down, the user is
      logged in and the cell is Available; then the slot moves the upper
      bound when it lies above the lower bound and the lower bound otherwise. */
  lemma HoverRule(col: Column, st: State, j: int)
    requires 0 <= j < |col.slots|
    ensures var s := GetCellStatus(col, st.bounds, j).status;
      !st.mouseIsDown || !col.loggedIn || s != Available ==> Step(col, st, CellOver(j)).next == st
    ensures var s := GetCellStatus(col, st.bounds, j).status;
      st.mouseIsDown && col.loggedIn && s == Available ==>
        Step(col, st, CellOver(j)).next.bounds ==
          (if j > st.bounds.smaller then Bounds(st.bounds.smaller, j) else Bounds(j, st.bounds.larger))
    ensures Step(col, st, CellOver(j)).emitted == None
  {
  }

  /** The column the machine runs against: at most 50 slots, so the
      sentinel 50 is never a slot, in strictly increasing order. */
  predicate WellFormed(col: Column)
  {
    |col.slots| <= InitialFirstSelectedIndex && Increasing(col.slots)
  }

  /** Slot k exists, no booking covers it and it is not in the past. */
  predicate Free(col: Column, k: int)
  {
    0 <= k < |col.slots| && !Occupied(col.bookings, col.slots[k]) && col.now <= col.slots[k]
  }

  /** The bounds a column can reach: the sentinel; a lower bound alone
      (upper still -1) on a free slot; or an ordered range of slots starting
      at a free slot with no slot covered by a booking. */
  predicate Reachable(col: Column, b: Bounds)
  {
    || b == InitialBounds
    || (b.larger == InitialLastSelectedIndex && Free(col, b.smaller))
    || (&& 0 <= b.smaller <= b.larger < |col.slots| && Free(col, b.smaller)
        && forall k :: b.smaller <= k <= b.larger ==> !Occupied(col.bookings, col.slots[k]))
  }

  /** No slot strictly between two uncovered slots is covered when no booking
      starts strictly between them. */
  lemma {:induction false} NoBookingInside(col: Column, lo: int, hi: int)
    requires Increasing(col.slots)
    requires 0 <= lo < hi < |col.slots|
    requires !Occupied(col.bookings, col.slots[lo]) && !Occupied(col.bookings, col.slots[hi])
    requires forall x :: 0 <= x < |col.bookings| ==> !(col.slots[lo] < col.bookings[x].from < col.slots[hi])
    ensures forall k :: lo <= k <= hi ==> !Occupied(col.bookings, col.slots[k])
  {
    forall k, x | lo < k < hi && 0 <= x < |col.bookings|
      ensures !Occupies(col.bookings[x], col.slots[k])
    {
      assert col.slots[lo] < col.slots[k] < col.slots[hi];
      if col.bookings[x].from <= col.slots[lo] {
        // it ends before slot `lo` starts, since it does not cover it
        assert !Occupies(col.bookings[x], col.slots[lo]);
      } else {
        // it starts no earlier than slot `hi`
        assert col.bookings[x].from >= col.slots[hi];
      }
    }
  }

  /** Hovering a cell that has handlers keeps the bounds reachable. */
  lemma HoverKeepsReachable(col: Column, b: Bounds, j: int)
    requires WellFormed(col) && Reachable(col, b) && HasHandlers(col, b, j)
    ensures Reachable(col, Hover(b, j))
  {
    StatusPriority(col, b, j);
    var anchor := SlotAt(col.slots, b.smaller);
    assert !AnyStartsBetween(col.bookings, anchor, col.slots[j]);
    assert Free(col, j);
    if b != InitialBounds {
      var s := b.smaller;
      if j > s {
        forall x | 0 <= x < |col.bookings|
          ensures !(col.slots[s] < col.bookings[x].from < col.slots[j])
        {
          assert !StartsBetween(col.bookings[x], anchor, col.slots[j]);
        }
        NoBookingInside(col, s, j);
      } else if j < s && b.larger != InitialLastSelectedIndex {
        forall x | 0 <= x < |col.bookings|
          ensures !(col.slots[j] < col.bookings[x].from < col.slots[s])
        {
          assert !StartsBetween(col.bookings[x], anchor, col.slots[j]);
        }
        NoBookingInside(col, j, s);
        assert !InSelection(b, j);
      }
    }
  }

  /** Every event keeps the bounds reachable. */
  lemma StepKeepsReachable(col: Column, st: State, ev: MouseEvent)
    requires WellFormed(col) && Reachable(col, st.bounds)
    ensures Reachable(col, Step(col, st, ev).next.bounds)
  {
    match ev
    case CellDown(i) =>
      if HasHandlers(col, st.bounds, i) {
        StatusPriority(col, st.bounds, i);
      }
    case CellOver(j) =>
      if st.mouseIsDown && HasHandlers(col, st.bounds, j) {
        HoverKeepsReachable(col, st.bounds, j);
      }
    case GridUp =>
    case OutsideDown =>
  }

  /** The state after a sequence of events. */
  function Run(col: Column, st: State, evs: seq<MouseEvent>): State
    decreases |evs|
  {
    if |evs| == 0 then st else Run(col, Step(col, st, evs[0]).next, evs[1..])
  }

  /** Every state the column can reach from its initial state has reachable
      bounds, whatever the events. */
  lemma {:induction false} RunKeepsReachable(col: Column, st: State, evs: seq<MouseEvent>)
    requires WellFormed(col) && Reachable(col, st.bounds)
    ensures Reachable(col, Run(col, st, evs).bounds)
    decreases |evs|
  {
    if |evs| > 0 {
      StepKeepsReachable(col, st, evs[0]);
      RunKeepsReachable(col, Step(col, st, evs[0]).next, evs[1..]);
    }
  }

  /** An event delivered in a given render. "Now", the bookings and the slot
      list are read afresh on every render, while the state survives them. */
  datatype RenderedEvent = RenderedEvent(col: Column, ev: MouseEvent)

  /** The state after a sequence of events spread over several renders. */
  function RunAcross(st: State, evs: seq<RenderedEvent>): State
    decreases |evs|
  {
    if |evs| == 0 then st else RunAcross(Step(evs[0].col, st, evs[0].ev).next, evs[1..])
  }

  /** The shape of the bounds that no render can break: the sentinel, a lower
      bound alone below 50, or an ordered pair of indices below 50. */
  predicate Shaped(b: Bounds)
  {
    || b == InitialBounds
    || (b.larger == InitialLastSelectedIndex && 0 <= b.smaller < InitialFirstSelectedIndex)
    || 0 <= b.smaller <= b.larger < InitialFirstSelectedIndex
  }

  /** The reachable bounds of any one render have that shape. */
  lemma ReachableIsShaped(col: Column, b: Bounds)
    requires WellFormed(col) && Reachable(col, b)
    ensures Shaped(b)
  {
  }

  /** Every event, in whatever render, keeps the bounds shaped. */
  lemma StepKeepsShaped(col: Column, st: State, ev: MouseEvent)
    requires WellFormed(col) && Shaped(st.bounds)
    ensures Shaped(Step(col, st, ev).next.bounds)
  {
  }

  /** Across any number of renders the bounds keep their shape, though not
      their reachability in the current render. */
  lemma {:induction false} RunAcrossKeepsShaped(st: State, evs: seq<RenderedEvent>)
    requires Shaped(st.bounds)
    requires forall k :: 0 <= k < |evs| ==> WellFormed(evs[k].col)
    ensures Shaped(RunAcross(st, evs).bounds)
    decreases |evs|
  {
    if |evs| > 0 {
      StepKeepsShaped(evs[0].col, st, evs[0].ev);
      RunAcrossKeepsShaped(Step(evs[0].col, st, evs[0].ev).next, evs[1..]);
    }
  }

  /** Within one render, the events of `RunAcross` are those of `Run`. */
  lemma {:induction false} RunAcrossOneRender(col: Column, st: State, evs: seq<MouseEvent>, rs: seq<RenderedEvent>)
    requires |rs| == |evs|
    requires forall k :: 0 <= k < |rs| ==> rs[k] == RenderedEvent(col, evs[k])
    ensures RunAcross(st, rs) == Run(col, st, evs)
    decreases |evs|
  {
    if |evs| > 0 {
      RunAcrossOneRender(col, Step(col, st, evs[0]).next, evs[1..], rs[1..]);
    }
  }

  /** The bounds outlive the render that set them. Slot 1 (00:30) is selected
      at midnight; after a re-render at 01:00 a press on slot 0, which is past
      and has no handler, keeps the old bounds, and the release emits
      00:30-01:00, a range that now starts in the past and is no longer
      reachable in this render. */
  lemma StaleRangeAfterNowAdvances()
    ensures var early := Column(TimeIntervals(), [], 0, true);
      var late := Column(TimeIntervals(), [], 60, true);
      var st := RunAcross(Initial, [RenderedEvent(early, CellDown(1)), RenderedEvent(early, GridUp),
                                    RenderedEvent(late, CellDown(0))]);
      && st == State(true, Bounds(1, 1))
      && !Reachable(late, st.bounds)
      && Step(late, st, GridUp).emitted == Some(Emission(Some(30), Some(60)))
      && 30 < late.now
  {
    DaySlots();
    var early := Column(TimeIntervals(), [], 0, true);
    var late := Column(TimeIntervals(), [], 60, true);
    var evs := [RenderedEvent(early, CellDown(1)), RenderedEvent(early, GridUp), RenderedEvent(late, CellDown(0))];
    assert GetCellStatus(early, InitialBounds, 1).status == Available;
    var s1 := Step(early, Initial, CellDown(1)).next;
    assert s1 == State(true, Bounds(1, 1));
    var s2 := Step(early, s1, GridUp).next;
    assert s2 == State(false, Bounds(1, 1));
    assert GetCellStatus(late, Bounds(1, 1), 0).status == CellInPast;
    var s3 := Step(late, s2, CellDown(0)).next;
    assert s3 == State(true, Bounds(1, 1));
    assert evs[1..] == [evs[1], evs[2]] && evs[1..][1..] == [evs[2]] && evs[1..][1..][1..] == [];
    assert RunAcross(s3, []) == s3;
    assert RunAcross(s2, [evs[2]]) == s3;
    assert RunAcross(s1, [evs[1], evs[2]]) == s3;
    assert !Free(late, 1);
  }

  /** Mouse-up that checks the range against the current render: emit only
      for an ordered range of real slots starting at a free slot, with no
      booking covering any of its slot starts. */
  function ReleaseRechecked(col: Column, st: State): (t: Transition)
    ensures t.emitted.Some? <==>
      (&& 0 <= st.bounds.smaller <= st.bounds.larger < |col.slots| && Free(col, st.bounds.smaller)
       && forall k :: st.bounds.smaller <= k <= st.bounds.larger ==> !Occupied(col.bookings, col.slots[k]))
    ensures t.next == st.(mouseIsDown := false)
  {
    var b := st.bounds;
    var emitted :=
      if && 0 <= b.smaller <= b.larger < |col.slots| && Free(col, b.smaller)
         && forall k :: b.smaller <= k <= b.larger ==> !Occupied(col.bookings, col.slots[k])
      then Some(Emission(Some(col.slots[b.smaller]), Some(col.slots[b.larger] + SlotMinutes)))
      else None;
    Transition(st.(mouseIsDown := false), emitted)
  }

  /** Whatever renders came before, the rechecked release emits only proper
      intervals of the current render that start no earlier than its "now",
      with no booking covering any of their slot starts; within one render it emits exactly what the
      original release emits for an ordered range. */
  lemma RecheckedReleaseIsFree(col: Column, st: State)
    requires WellFormed(col)
    ensures var t := ReleaseRechecked(col, st); var s := st.bounds.smaller; var l := st.bounds.larger;
      t.emitted.Some? ==>
        && 0 <= s <= l < |col.slots|
        && t.emitted.value == Emission(Some(col.slots[s]), Some(col.slots[l] + SlotMinutes))
        && col.now <= col.slots[s] < col.slots[l] + SlotMinutes
        && (forall k :: s <= k <= l ==> !Occupied(col.bookings, col.slots[k]) && col.now <= col.slots[k])
    ensures Reachable(col, st.bounds) && st.bounds.smaller <= st.bounds.larger ==>
      ReleaseRechecked(col, st).emitted == Step(col, st, GridUp).emitted
  {
    var b := st.bounds;
    if 0 <= b.smaller <= b.larger < |col.slots| {
      assert col.slots[b.smaller] <= col.slots[b.larger];
    }
  }

  /** From an ordered range, hovering only ever widens the selection: every
      selected slot stays selected. */
  lemma HoverWidens(col: Column, st: State, j: int)
    requires 0 <= st.bounds.smaller <= st.bounds.larger
    ensures var b := Step(col, st, CellOver(j)).next.bounds;
      b.smaller <= st.bounds.smaller && st.bounds.larger <= b.larger
  {
    if st.mouseIsDown && HasHandlers(col, st.bounds, j) {
      StatusPriority(col, st.bounds, j);
    }
  }

  /** Releasing a reachable ordered selection commits a range that starts at
      its lower slot, ends thirty minutes after its upper slot, starts no
      earlier than "now", and has no slot start covered by a booking. */
  lemma CommittedRangeIsFree(col: Column, st: State)
    requires WellFormed(col) && Reachable(col, st.bounds)
    requires st.bounds.smaller <= st.bounds.larger
    ensures var t := Step(col, st, GridUp); var s := st.bounds.smaller; var l := st.bounds.larger;
      && 0 <= s <= l < |col.slots|
      && t.emitted == Some(Emission(Some(col.slots[s]), Some(col.slots[l] + SlotMinutes)))
      && col.now <= col.slots[s]
      && forall k :: s <= k <= l ==> !Occupied(col.bookings, col.slots[k]) && col.now <= col.slots[k]
  {
  }

  /** A reachable state whose upper bound is still -1 selects no slot, yet
      mouse-up emits for it as soon as its lower bound is a real slot. */
  lemma DanglingLowerBound(col: Column, st: State)
    requires WellFormed(col) && Reachable(col, st.bounds)
    requires st.bounds.larger == InitialLastSelectedIndex && st.bounds.smaller != InitialFirstSelectedIndex
    ensures forall i :: 0 <= i < |col.slots| ==> GetCellStatus(col, st.bounds, i).status != Selected
    ensures Step(col, st, GridUp).emitted == Some(Emission(Some(col.slots[st.bounds.smaller]), None))
  {
  }

  /** A press on a slot already in the past has no handler; dragging onto
      the next slot then sets only the lower bound, and releasing emits an
      end that is not a date. The day has its 48 slots and no bookings, the
      user is logged in and it is 00:30. */
  lemma InvalidEndIsReachable()
    ensures var col := Column(TimeIntervals(), [], 30, true);
      Run(col, Initial, [CellDown(0), CellOver(1)]) == State(true, Bounds(1, -1))
      && Step(col, State(true, Bounds(1, -1)), GridUp).emitted == Some(Emission(Some(30), None))
  {
    DaySlots();
    var col := Column(TimeIntervals(), [], 30, true);
    assert GetCellStatus(col, InitialBounds, 0).status == CellInPast;
    var s1 := Step(col, Initial, CellDown(0)).next;
    assert s1 == State(true, InitialBounds);
    assert GetCellStatus(col, InitialBounds, 1).status == Available;
    assert Step(col, s1, CellOver(1)).next == State(true, Bounds(1, -1));
    assert [CellDown(0), CellOver(1)][1..] == [CellOver(1)];
  }

  /** Mouse-up as it should be: emit only for an ordered range of real
      slots, so the sentinel and a dangling lower bound both emit nothing. */
  function ReleaseCorrected(col: Column, st: State): (t: Transition)
    ensures t.emitted.Some? <==> 0 <= st.bounds.smaller <= st.bounds.larger < |col.slots|
    ensures t.next == st.(mouseIsDown := false)
  {
    var b := st.bounds;
    var emitted :=
      if 0 <= b.smaller <= b.larger < |col.slots| then
        Some(Emission(Some(col.slots[b.smaller]), Some(col.slots[b.larger] + SlotMinutes)))
      else None;
    Transition(st.(mouseIsDown := false), emitted)
  }

  /** With the corrected release, every range a reachable state emits is a
      proper interval of free slots: both ends are dates, the start comes
      before the end, and every emission the original release makes from an
      ordered range is the same. */
  lemma CorrectedReleaseIsWellFormed(col: Column, st: State)
    requires WellFormed(col) && Reachable(col, st.bounds)
    ensures var t := ReleaseCorrected(col, st);
      t.emitted.Some? ==>
        && t.emitted.value.start.Some? && t.emitted.value.end.Some?
        && t.emitted.value.start.value < t.emitted.value.end.value
        && col.now <= t.emitted.value.start.value
        && t.emitted == Step(col, st, GridUp).emitted
    ensures ReleaseCorrected(col, st).emitted.None? ==> st.bounds == InitialBounds || st.bounds.larger == InitialLastSelectedIndex
  {
    var b := st.bounds;
    if 0 <= b.smaller <= b.larger < |col.slots| {
      assert col.slots[b.smaller] <= col.slots[b.larger];
    }
  }
}
