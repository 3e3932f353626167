# Venue booking grid: a Dafny model

This project models the booking grid of the venue-booking website.
The page shows one column per venue, and each column shows the 48 half-hour
slots of the viewed day. The model covers how that grid is built and how it
behaves:

- **Slots.** The page builds the slot starts of the day (`timeIntervals`).
- **Bookings.** It maps the backend's bookings to display bookings, moving
  each start one minute earlier, and puts them into six per-venue lists.
- **Classifier.** Each column gives every slot one status (`getCellStatus`):
  Booked, Selected, in the past, blocked by a booking inside the selection,
  or Available.
- **Compaction.** Runs of slots are folded into the blocks the column
  renders: consecutive Booked slots of one `userId` merge, and every other
  slot is its own block.
- **Selection.** A drag-selection state machine (`mouseIsDown`,
  `smallerSelected`, `largerSelected`) is driven by mouse presses, hovers, a
  release and a press outside the column. On release it hands a start/end
  pair to the page, which tags it with the column's venue.
- **Booking cards.** Each booking is drawn as a card over the column. The
  model computes the card's size, top margin, height and top.
- **IG card.** The organisation card derives its heads, its heads line, the
  primary head, the logo path, the invite link and the contact label.
- **Admin form.** The organisation form turns a table row into form values,
  builds its two option lists, and chooses the toast shown after a save.

Instants are whole minutes counted from local midnight of the viewed day.
`Math.round(m / 30)` is `(m + 15) / 30`. Dafny's `/` with a positive divisor
is floor division, so this also holds for negative `m`.

Two values are `undefined` in the source. Indexing the slot list outside its
range gives `Option.None`, and so does `addMinutes` on such a value, which
gives an Invalid Date. A comparison with `None` is false, as `isAfter` is
false with an invalid date.

The selection "no selection" sentinel is kept as the index pair (50, -1),
exactly as the component holds it.

Modules, one per file:

| module | file | what |
|---|---|---|
| `Wrappers` | wrappers.dfy | `Option`, `Result` |
| `Seqs` | seqs.dfy | `filter`, `map` and `join` on sequences, with their laws |
| `SlotGrid` | slot_grid.dfy | `eachMinuteOfInterval` and the day's 48 slots |
| `VenueBookings` | venue_bookings.dfy | backend and display bookings, the mapping, the bucketing, the column's `openBookingModal` |
| `CellClassifier` | cell_classifier.dfy | `getCellStatus` |
| `RunCompaction` | run_compaction.dfy | the block loop with `pushPreviousBlockIntoArray` |
| `SelectionMachine` | selection_machine.dfy | handler gating, the drag handlers as transitions, the reachable-state invariant |
| `BookingCard` | booking_card.dfy | card size, margin, height and top |
| `Organisations` | organisations.dfy | users, memberships, organisations |
| `IgCard` | ig_card.dfy | IG card derivations |
| `OrganisationFormMapping` | organisation_form.dfy | admin form mappers and the success message |

### Behaviour of the selection worth knowing

- **Hover rule.** The selection has no anchor. A hover above
  `smallerSelected` moves `largerSelected`, and any other hover moves
  `smallerSelected`. Pressing slot 4, dragging up to slot 2 and then down to
  slot 6 selects slots 2..6 (`HoverRule`, `HoverWidens`).
- **Mouse-up.** Mouse-up does not reset the selection bounds. It only clears
  `mouseIsDown` and emits (`ReleaseEmits`).
- **Re-renders.** The bounds survive every re-render that does not come from
  a press: new bookings, or "now" moving on to the next half hour. Only a
  press outside the column resets them (`RunAcross`,
  `StaleRangeAfterNowAdvances`). Changing the viewed day takes a press on the
  calendar, which lies outside every column, so it resets the bounds first.
  The page's toggle unmounts the columns, which also discards them.
- **Sentinel.** The "no selection" state is the index pair (50, -1), not a
  separate option value.

## Model

| member | source | states |
|---|---|---|
| SlotGrid.EachMinuteOfInterval | pages/grid.tsx:116-122 | fails exactly for an interval whose start is not before its end or for a step below 1; otherwise a non-empty list whose element k is `start + k*step`, none past `end`, and one more step would pass `end` |
| SlotGrid.TimeIntervals | pages/grid.tsx:112-123 | `timeIntervals` is the 48 slot starts of the day, slot k at 30k minutes after midnight; `DaySlots` restates this for the lemmas that use it |
| SlotGrid.DaySlots | pages/grid.tsx:112-123 | the day has exactly 48 slots; slot k starts 30k minutes after midnight, so slot 0 is 00:00 and the last is 23:30 |
| SlotGrid.SlotsWithinDay | pages/grid.tsx:112-123 | every slot starts inside the viewed day |
| SlotGrid.DaySlotsIncreasing | pages/grid.tsx:116-122 | slots are strictly increasing with a constant 30-minute stride |
| VenueBookings.ToDisplay | pages/grid.tsx:131-138 | the mapping of one booking: an earlier start, the same end and venue, no `userId`; `ToDisplayRoundTrip` shows the one-minute shift is undone by adding it back |
| VenueBookings.ToDisplayRoundTrip | pages/grid.tsx:131-138 | the mapped booking keeps venue and end, starts one minute earlier (undone by adding the minute back) and carries no `userId` |
| VenueBookings.DisplayAll | pages/grid.tsx:130-138 | one display booking per backend booking, in order |
| VenueBookings.PushAll | pages/grid.tsx:142-145 | the `reduce` over the bookings keeps six lists; its failure and contents are stated by `PushAllFails`, `PushAllBuckets` and `PushAllCounts` |
| VenueBookings.BucketByVenue | pages/grid.tsx:125-145 | the bucketing from six empty lists yields six lists; `BucketByVenueSpec` states what each holds |
| VenueBookings.PushAllFails | pages/grid.tsx:142-145 | the `reduce` fails exactly when some booking's venue lies outside 1..6, reporting the first such booking's venue |
| VenueBookings.PushAllBuckets | pages/grid.tsx:142-145 | with known venues, list k gains exactly the bookings of venue k+1, in input order |
| VenueBookings.PushAllCounts | pages/grid.tsx:142-145 | each successful push adds one booking to one list, so the total grows by the number of bookings |
| VenueBookings.BucketByVenueSpec | pages/grid.tsx:125-145 | six lists; list k is the order-preserving filter on venue k+1; their lengths sum to the input length (nothing lost or duplicated); an unknown venue is an error |
| VenueBookings.OpenBookingModal | pages/grid.tsx:232-240 | the column's callback sets venue id k+1, the venue's name and the emitted range; `OpenBookingModalTagsColumn` adds that nothing of the previous record survives |
| VenueBookings.OpenBookingModalTagsColumn | pages/grid.tsx:227-240 | column k's record carries venue id k+1, its own name and the emitted range, whatever the previous record held; every booking in bucket k has that venue id |
| CellClassifier.FindOccupying | components/booking/BookingVenueCol.tsx:224-226 | no result iff no booking covers the instant; otherwise the first covering booking in list order |
| CellClassifier.GetCellStatus | components/booking/BookingVenueCol.tsx:206-238 | a slot is Booked iff some booking covers it, it carries a booking iff Booked, and an Available slot is neither past nor selected; the full priority order is `StatusPriority` |
| CellClassifier.StatusPriority | components/booking/BookingVenueCol.tsx:206-238 | exactly one status per slot, each by its own condition in the order Booked > Selected > CellInPast > CellIsAfterBookingAndSelection > Available; a booking is attached iff the slot is Booked, and it is the first covering one |
| CellClassifier.PastIsStrict | components/booking/BookingVenueCol.tsx:209 | a slot starting exactly at "now" is not in the past; one starting earlier is past unless Booked or Selected |
| CellClassifier.SentinelSelectsNothing | components/booking/BookingVenueCol.tsx:188-190 | with the (50, -1) bounds no slot is Selected or blocked by the selection |
| CellClassifier.NoBookingsNoConflicts | components/booking/BookingVenueCol.tsx:212-236 | without bookings no slot is Booked or blocked and none carries a booking |
| CellClassifier.MappedOccupancy | components/booking/BookingVenueCol.tsx:225 | a mapped booking with a slot-aligned start covers exactly the slots from its backend start up to, not including, its end |
| RunCompaction.UnbookedSingleton | components/booking/BookingVenueCol.tsx:311-312 | a block that is not Booked spans one slot |
| RunCompaction.CompactCells | components/booking/BookingVenueCol.tsx:277-328 | the blocks tile the slots in order, none empty; each is keyed by its last slot and carries that slot's status and booking; inside a block all neighbours are Booked with equal `userId`; every block but the last ends at a status or `userId` change; non-Booked blocks span one slot |
| RunCompaction.TilesCount | components/booking/BookingVenueCol.tsx:283-296 | block sizes of a tiling, such as the blocks of a column, add up to the number of slots covered |
| RunCompaction.TilesCover | components/booking/BookingVenueCol.tsx:277-328 | every slot lies in exactly one block |
| RunCompaction.BlocksExpandToCells | components/booking/BookingVenueCol.tsx:277-328 | expanding the blocks gives back each slot's status and owner |
| RunCompaction.AnonymousBookingsMerge | components/booking/BookingVenueCol.tsx:305 | with bookings mapped without `userId`, any two neighbouring Booked cells of the classified column compare equal, so they share a block |
| SelectionMachine.CellViewOf | components/booking/BookingVenueCol.tsx:146-176 | a cell gets mouse handlers iff the user is logged in and its status is Available |
| SelectionMachine.Hover | components/booking/BookingVenueCol.tsx:258-262 | a hover moves exactly one bound onto the hovered slot and keeps ordered bounds ordered; when it applies is `HoverRule` |
| SelectionMachine.Step | components/booking/BookingVenueCol.tsx:251-263 | only a release emits; every event except the outside press keeps ordered bounds ordered; a release clears the mouse and keeps the bounds |
| SelectionMachine.PressAnchors | components/booking/BookingVenueCol.tsx:251-254 | a press sets the mouse down, and sets both bounds to the slot exactly when the cell has handlers |
| SelectionMachine.HoverRule | components/booking/BookingVenueCol.tsx:256-263 | a hover changes nothing unless the mouse is down, the user is logged in and the cell is Available; then it moves the upper bound for a slot above the lower bound and the lower bound otherwise |
| SelectionMachine.ReleaseEmits | components/booking/BookingVenueCol.tsx:351-360 | release clears the mouse, keeps both bounds, and emits iff the lower bound is not 50, with the lower slot's start and 30 minutes after the upper slot's start |
| SelectionMachine.OutsideResets | components/booking/BookingVenueCol.tsx:199-203 | a press outside the column gives mouse up and bounds (50, -1), from any state |
| SelectionMachine.StepKeepsReachable | components/booking/BookingVenueCol.tsx:251-263 | every event keeps the bounds in the reachable set: the sentinel, a free lower bound alone, or an ordered range of uncovered slots starting at a free slot |
| SelectionMachine.RunKeepsReachable | components/booking/BookingVenueCol.tsx:191-203 | against one rendered column, the invariant holds after any sequence of events |
| SelectionMachine.HoverWidens | components/booking/BookingVenueCol.tsx:256-263 | from an ordered range a hover only widens the selection |
| SelectionMachine.CommittedRangeIsFree | components/booking/BookingVenueCol.tsx:351-360 | against one rendered column, releasing a reachable ordered selection commits a range starting no earlier than that render's "now", with no booking covering any of its slot starts |
| SelectionMachine.DanglingLowerBound | components/booking/BookingVenueCol.tsx:353-358 | a reachable state with upper bound -1 selects nothing, yet release emits with an end that is not a date |
| SelectionMachine.InvalidEndIsReachable | components/booking/BookingVenueCol.tsx:350-358 | a concrete press-then-hover sequence reaches that state, and the release emits `(00:30, Invalid Date)` |
| SelectionMachine.ReleaseCorrected | components/booking/BookingVenueCol.tsx:351-360 | a release that emits iff the bounds are an ordered range of real slots |
| SelectionMachine.CorrectedReleaseIsWellFormed | components/booking/BookingVenueCol.tsx:351-360 | against one rendered column, from a reachable state the corrected release emits only proper intervals starting no earlier than "now", identical to the original release's; it emits nothing only for the sentinel or a dangling lower bound |
| SelectionMachine.ReachableIsShaped | components/booking/BookingVenueCol.tsx:191-193 | the bounds reachable in one render are the sentinel, a lower bound alone below 50, or an ordered pair below 50 |
| SelectionMachine.StepKeepsShaped | components/booking/BookingVenueCol.tsx:199-203 | every event, in any render of at most 50 slots, keeps that shape |
| SelectionMachine.RunAcrossKeepsShaped | components/booking/BookingVenueCol.tsx:191-203 | across any number of renders, each with its own slots, bookings and "now", the bounds keep that shape |
| SelectionMachine.RunAcrossOneRender | components/booking/BookingVenueCol.tsx:191-203 | events all delivered in one render give the state of the single-render run |
| SelectionMachine.StaleRangeAfterNowAdvances | components/booking/BookingVenueCol.tsx:351-360 | bounds set at midnight survive a re-render at 01:00 and a press on a past slot; the release then emits 00:30-01:00, which starts before the new "now" and is not reachable in the new render |
| SelectionMachine.ReleaseRechecked | components/booking/BookingVenueCol.tsx:351-360 | a release that emits iff the bounds are an ordered range of the current render starting at a free slot, with no booking covering any of its slot starts |
| SelectionMachine.RecheckedReleaseIsFree | components/booking/BookingVenueCol.tsx:351-360 | after any history of renders, the rechecked release emits only proper intervals of the current render starting no earlier than its "now", with no booking covering any of their slot starts; in one render it agrees with the original release on reachable ordered ranges |
| BookingCard.RoundToSlots | components/booking/BookingVenueCol.tsx:74-76 | the rounded block count is within half a block of the minutes |
| BookingCard.StartOfDay | components/booking/BookingVenueCol.tsx:80 | the midnight at or before the instant |
| BookingCard.CardLayoutOf | components/booking/BookingVenueCol.tsx:74-89 | the card spans the booking's length rounded to whole half hours (within 15 minutes) and its top margin is the time since the midnight of its start rounded the same way, 0..48 blocks; at the card's font size its top is the offset of that slot and its height the content height of a merged block of `bookingSize` cells; `isBigCard` iff it spans more than one block |
| BookingCard.OffsetAlignsOnlyAtRootFont | components/booking/BookingVenueCol.tsx:72-89 | for a slot a ≥ 1 and cells of non-zero height, its offset at the card's font size 16, which is where a card a blocks down is drawn, equals its offset at the cells' font size iff that size is 16 |
| BookingCard.CardCoversItsSlots | components/booking/BookingVenueCol.tsx:74-89 | a booking from slot a (a ≥ 1) to slot c gets top margin a and size c-a; when the cells use the card's font size 16, its top is the offset of slot a and its height the content height of a merged block of c-a cells; at any other font size its top misses slot a |
| BookingCard.MidnightBookingDrawnBelowGrid | components/booking/BookingVenueCol.tsx:80 | a booking starting at 00:00 is placed 48 blocks down, below the last slot |
| BookingCard.CardInDayCoversItsSlots | components/booking/BookingVenueCol.tsx:74-89 | placed against the viewed day's midnight, every booking from slot a ≥ 0 to slot c gets its card over its own slots when the cells use font size 16, and misses slot a ≥ 1 at any other font size |
| BookingCard.PlacementsAgreeWithinDay | components/booking/BookingVenueCol.tsx:80 | the corrected placement agrees with the original for shifted starts inside the day and puts a 00:00 booking at the top |
| IgCard.IgHeads | components/IGCard.tsx:157 | every head is a head membership of the organisation; `IgHeadsSpec` gives the converse and the order |
| IgCard.IgHeadsSpec | components/IGCard.tsx:157 | heads are the order-preserving filter on `isIGHead`: each is a head membership, every head membership is one, the filter distributes over appending, and heads plus ordinary members count every membership |
| IgCard.HeadsDisplay | components/IGCard.tsx:159-164 | "No IG Heads" without names, otherwise the names joined by ", " (the single-name case included) |
| IgCard.HeadsDisplayIsJoin | components/IGCard.tsx:158-164 | "No IG Heads" without heads; otherwise the names joined by ", ", starting with the first name, with two extra characters per separator |
| IgCard.HeadsLineOfOrganisation | components/IGCard.tsx:157-164 | an organisation without a head membership shows "No IG Heads"; otherwise the line joins its heads' names and starts with the first head's name |
| IgCard.PrimaryIGHead | components/IGCard.tsx:165 | no primary head iff no membership is a head; otherwise the user of the first head membership |
| IgCard.Slug | components/IGCard.tsx:166 | the organisation's slug when set, else the default logo name |
| IgCard.ImageSrc | components/IGCard.tsx:166-167 | "/orgs/", then the slug (the organisation's, or the default when empty), then ".png" |
| IgCard.InviteLink | components/IGCard.tsx:168-170 | the link is empty iff the organisation has no link and no head membership |
| IgCard.InviteLinkSpec | components/IGCard.tsx:168-170 | the organisation's link when set; else the first head's Telegram link; else empty |
| IgCard.ContactLabel | components/IGCard.tsx:47 | never empty: the contact's name, or "No contact found" without a contact or name |
| OrganisationFormMapping.ConvertToOrganisationForm | components/admin/orgs/OrganisationControlForm.tsx:127-131 | fails iff no membership is an IG head; otherwise keeps the row's organisation and memberships |
| OrganisationFormMapping.ConvertHead | components/admin/orgs/OrganisationControlForm.tsx:127-131 | fails exactly when there is no IG head; otherwise keeps the row's fields and `igHead` is the first head membership's user id |
| OrganisationFormMapping.ConvertMembers | components/admin/orgs/OrganisationControlForm.tsx:130 | `otherMembers` are the ordinary members' ids, one per ordinary membership, each belonging to an ordinary membership, and every ordinary member's id is present |
| OrganisationFormMapping.Categories | components/admin/orgs/OrganisationControlForm.tsx:108-113 | one option per key, value and description both the key |
| OrganisationFormMapping.MappedUsers | components/admin/orgs/OrganisationControlForm.tsx:115-120 | one option per user in order, valued by id and described by Telegram user name |
| OrganisationFormMapping.SuccessMessage | components/admin/orgs/OrganisationControlForm.tsx:86-90 | "created" iff the parsed `igHead` is -1, "edited" iff it is not |

## Left out

- **Rendering.** React and Chakra rendering, colours, hover styles and
  transitions are UI with no logic to model. So are `orgIdsToColoursMap`,
  `useIdsToColoursMap`, `isBookedBySelf` and the key and block counters.
- **Outside-click listener.** The DOM wiring of `useOutsideAlerter` is
  browser plumbing. Only its reset effect is modelled, as the `OutsideDown`
  event.
- **Hooks.** `useCurrentHalfHourTime`, `useUserInfo` and
  `useBookingCellStyles` are inputs. "Now" and the login flag are fields of
  `Column`. The cells' font size is the `fontSize` parameter of
  `SlotOffset` and `CellContentHeight`, and the card's is the constant 16.
- **Cell `onClick`.** The `onClick` prop built for cells is never attached by
  `BookingVenueTimeCell`. Clicking a card is UI.
- **Cell height.** The cell height's floating-point pixels and `Math.floor`
  are not modelled. The rem constants of the cell height and border are
  defined in a utilities file that is not part of this model. They are whole
  `nat` parameters, so `CellContentHeight` is exact integer arithmetic.
- **Time zones.** Time zones, daylight saving time, `Date.parse` and ISO
  strings are not modelled. Instants are integer minutes of the viewed day.
- **Network.** Fetching, SWR, PUT, DELETE and POST, the admin page, toasts,
  modals, the clipboard and images are I/O.
- **Column wiring.** The page passes `testBookings` to every column rather
  than the venue buckets. The bucketing is modelled as a function, and this
  wiring is not.
- **Id stringification.** `toString()` of org and user ids is not modelled.
  `DisplayBooking.ig` and `bookedBy` keep the numeric ids.
- **Missing `orgId`.** The backend booking type in the type declarations has
  no `orgId`, yet the page reads one. `BackendBooking` carries it as a
  field.
- **`Number()` parsing.** `Number(values.igHead)` is not modelled.
  `SuccessMessage` takes the parsed number.
- **Default logo name.** `DEFAULT_PNG_NAME` is defined outside this model. It
  is the `defaultPngName` parameter of `Slug` and `ImageSrc`.
- **Category key order.** The order of `Object.keys` is the order of the
  `keys` parameter of `Categories`.
- RunCompaction.CompactCells: requires a non-empty slot list. The source
  reads `timeIntervals[0]` unguarded and the page always passes the 48 slots
  of a day.
- SelectionMachine.StepKeepsReachable: assumes at most 50 slots in
  increasing order (`WellFormed`). This is what the page's 48-slot day
  satisfies. With 51 or more slots, the sentinel 50 would be a real slot.
- SelectionMachine.RunKeepsReachable: holds against one rendered column.
  "Now", the bookings and the slots are read afresh on every render while
  the bounds persist, so across renders only the shape of the bounds is
  kept (`RunAcrossKeepsShaped`), and `StaleRangeAfterNowAdvances` shows
  reachability lost.
- SelectionMachine.CommittedRangeIsFree: holds against one rendered column.
  A range selected in an earlier render can be released later, when it
  starts before "now" (`StaleRangeAfterNowAdvances`).
- SelectionMachine.CorrectedReleaseIsWellFormed: holds against one rendered
  column. Across renders only the rechecked release is free of stale
  ranges (`RecheckedReleaseIsFree`).
- SelectionMachine.Step: React batches state updates and handlers read the
  values of the last render. Each event is therefore applied to one rendered
  state. Two events handled within one render are not modelled.
- BookingCard.CardLayoutOf: `Math.round` is exact only for whole minutes.
  Instants with seconds are not modelled.
- BookingCard.CardLayoutOf: says when `isBigCard` holds, not that the org
  line renders. The page sets `bookedBy` to a string (the user id's
  `toString()`, or a name in its test bookings), so reading
  `bookedBy.org.name` for a big card throws a TypeError. `bookedBy` is kept
  as a number here and the org line is not modelled.
- SelectionMachine.RecheckedReleaseIsFree: states only that no booking
  covers a slot start of the range, as the cells' own test does. A booking
  that starts and ends inside one half hour of the range is not ruled out.
- SelectionMachine.CommittedRangeIsFree: likewise states only that no
  booking covers a slot start of the range.

## Findings

| source | as written | input that shows it | evidently intended | confidence | as-written member | corrected member |
|---|---|---|---|---|---|---|
| components/booking/BookingVenueCol.tsx:353-358 | mouse-up emits whenever `smallerSelected != 50`. A press on a handler-less cell followed by a hover on a free cell leaves `(j, -1)`. Release then calls `openBookingModal(slot j, addMinutes(undefined, 30))`, an Invalid Date end. | logged in, now 00:30, no bookings: press slot 0 (past), hover slot 1, release; emits `(00:30, Invalid Date)` | emit only for an ordered range of real slots | not executed | SelectionMachine.InvalidEndIsReachable | SelectionMachine.CorrectedReleaseIsWellFormed |
| components/booking/BookingVenueCol.tsx:80 with pages/grid.tsx:136 | the card's top margin is measured from `startOfDay(from)`. The page moves every start one minute earlier, so a booking at 00:00 gets `from` = 23:59 of the previous day and a margin of 48 blocks. | backend booking 00:00-01:00: top margin 48, card drawn below the grid | margin measured from the viewed day's midnight, so a 00:00 booking sits at the top | not executed | BookingCard.MidnightBookingDrawnBelowGrid | BookingCard.CardInDayCoversItsSlots |
| components/booking/BookingVenueCol.tsx:351-360 with 183-196 | the bounds persist across renders and only a press outside the column resets them. Any later mouse-up in the column emits the old range, checked against nothing in the current render. | logged in, no bookings: at 00:00 press and release slot 1; after a re-render at 01:00 press slot 0 (past, no handler) and release; emits 00:30-01:00, which starts in the past | a release emits only a range that is free in the current render | not executed | SelectionMachine.StaleRangeAfterNowAdvances | SelectionMachine.RecheckedReleaseIsFree |

A further observation, not claimed as a finding: the page's mapping drops
`userId`. The run compaction therefore merges adjacent bookings of different
users into one block (`RunCompaction.AnonymousBookingsMerge`).
