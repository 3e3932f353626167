/** The day's slot sequence built in pages/grid.tsx with date-fns
    `eachMinuteOfInterval`. Instants are whole minutes counted from local
    midnight of the viewed day. */
module SlotGrid {
  import opened Wrappers

  /** Minutes between two neighbouring slots, the `step` option. */
  const SlotMinutes: int := 30
  /** Number of slots the grid shows for one day. */
  const SlotCount: int := 48
  /** Minutes in a day. */
  const MinutesPerDay: int := 1440
  /** 23:59, the inclusive end of the interval the grid asks for. */
  const DayLastMinute: int := 23 * 60 + 59

  /** The two ways `eachMinuteOfInterval` throws a RangeError. */
  datatype IntervalError = InvalidInterval | InvalidStep

  /** The instants `start, start + step, ...` that do not pass `end`. */
  function Steps(start: int, end: int, step: int): seq<int>
    requires step >= 1
    decreases end - start + 1
  {
    if start > end then [] else [start] + Steps(start + step, end, step)
  }

  /** `eachMinuteOfInterval({start, end}, {step})`: rejects an interval whose
      start is not before its end and a step below one minute, otherwise
      lists every step-th minute from `start` up to and including `end`. */
  function EachMinuteOfInterval(start: int, end: int, step: int): (r: Result<seq<int>, IntervalError>)
    ensures r.Err? <==> start >= end || step < 1
    ensures r.Ok? ==> |r.value| > 0 && start + |r.value| * step > end
    ensures r.Ok? ==> forall k :: 0 <= k < |r.value| ==> r.value[k] == start + k * step && r.value[k] <= end
  {
    if start >= end then Err(InvalidInterval)
    else if step < 1 then Err(InvalidStep)
    else
      StepsShape(start, end, step);
      Ok(Steps(start, end, step))
  }

  /** Contents of `Steps`: element k is `start + k*step`, every element is
      at most `end`, and one more step would pass `end`. */
  lemma {:induction false} StepsShape(start: int, end: int, step: int)
    requires step >= 1 && start <= end
    ensures |Steps(start, end, step)| > 0
    ensures start + |Steps(start, end, step)| * step > end
    ensures forall k :: 0 <= k < |Steps(start, end, step)| ==>
      Steps(start, end, step)[k] == start + k * step && Steps(start, end, step)[k] <= end
    decreases end - start
  {
    var s := Steps(start, end, step);
    if start + step > end {
      assert Steps(start + step, end, step) == [];
      assert s == [start];
    } else {
      StepsShape(start + step, end, step);
      var t := Steps(start + step, end, step);
      assert s == [start] + t;
      MulSucc(|t|, step);
      forall k | 0 < k < |s|
        ensures s[k] == start + k * step
      {
        assert s[k] == t[k - 1] == start + step + (k - 1) * step;
        MulSucc(k - 1, step);
      }
    }
  }

  /** One more step of the stride; used by `StepsShape`. */
  lemma MulSucc(n: int, step: int)
    ensures (n + 1) * step == n * step + step
  {
  }

  /** The slot starts of the viewed day: `timeIntervals`, from 00:00 to 23:59
      in 30-minute steps. The interval is never rejected. */
  function TimeIntervals(): (slots: seq<int>)
    ensures |slots| == SlotCount
    ensures forall k :: 0 <= k < |slots| ==> slots[k] == SlotMinutes * k
  {
    var r := EachMinuteOfInterval(0, DayLastMinute, SlotMinutes);
    assert r.Ok?;
    var n := |r.value|;
    assert r.value[n - 1] == (n - 1) * SlotMinutes <= DayLastMinute;
    assert n * SlotMinutes > DayLastMinute;
    if r.Ok? then r.value else []
  }

  /** The grid has exactly 48 slots, slot k starts at 30*k minutes after
      midnight, so slot 0 is 00:00 and the last slot starts at 23:30. */
  lemma DaySlots()
    ensures |TimeIntervals()| == SlotCount
    ensures forall k :: 0 <= k < SlotCount ==> TimeIntervals()[k] == SlotMinutes * k
    ensures TimeIntervals()[0] == 0 && TimeIntervals()[SlotCount - 1] == 23 * 60 + 30
  {
  }

  /** Every slot starts inside the viewed day. */
  lemma SlotsWithinDay()
    ensures forall k :: 0 <= k < |TimeIntervals()| ==> 0 <= TimeIntervals()[k] < MinutesPerDay
  {
    DaySlots();
  }

  /** Strictly increasing with a constant 30-minute stride. */
  predicate Increasing(slots: seq<int>)
  {
    forall j, k :: 0 <= j < k < |slots| ==> slots[j] < slots[k]
  }

  lemma DaySlotsIncreasing()
    ensures Increasing(TimeIntervals())
    ensures forall k :: 0 <= k < |TimeIntervals()| - 1 ==> TimeIntervals()[k + 1] - TimeIntervals()[k] == SlotMinutes
  {
    DaySlots();
  }
}
