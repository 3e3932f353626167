/** The loop of `getMappedVenueCells` with `pushPreviousBlockIntoArray`
    (components/booking/BookingVenueCol.tsx): classified slots are folded
    into the blocks the column renders. */
module RunCompaction {
  import opened Wrappers
  import opened VenueBookings
  import opened CellClassifier

  /** One rendered block: the index of its last slot (its key), how many
      slots it spans, and the status and booking of that last slot. */
  datatype Block = Block(
    cellIndex: int, numberOfCells: nat, isBooked: bool,
    venueBooking: Option<DisplayBooking>, status: CellStatus)

  /** `venueBooking?.userId`. */
  function OwnerOf(b: Option<DisplayBooking>): Option<int>
  {
    if b.Some? then b.value.userId else None
  }

  /** Two neighbouring slots share a block: both Booked, same `userId`. */
  predicate Joined(a: Cell, b: Cell)
  {
    a.status == Booked && b.status == Booked && OwnerOf(a.venueBooking) == OwnerOf(b.venueBooking)
  }

  /** Index of a block's first slot. */
  function FirstSlot(b: Block): int
  {
    b.cellIndex - b.numberOfCells + 1
  }

  /** The blocks cover slots `0 .. m-1` one after another, none empty. */
  predicate TilesPrefix(blocks: seq<Block>, m: int)
  {
    && (forall k :: 0 <= k < |blocks| ==> blocks[k].numberOfCells >= 1)
    && (forall k :: 0 <= k < |blocks| - 1 ==> FirstSlot(blocks[k + 1]) == blocks[k].cellIndex + 1)
    && (|blocks| == 0 ==> m == 0)
    && (|blocks| > 0 ==> FirstSlot(blocks[0]) == 0 && blocks[|blocks| - 1].cellIndex == m - 1)
  }

  /** A block agrees with the slots it spans: it carries its last slot's
      status and booking, is flagged booked exactly when that status is
      Booked, and every neighbouring pair inside it is joined. */
  predicate Matches(cells: seq<Cell>, b: Block)
  {
    && 0 <= FirstSlot(b) <= b.cellIndex < |cells|
    && b.status == cells[b.cellIndex].status
    && b.venueBooking == cells[b.cellIndex].venueBooking
    && b.isBooked == (b.status == Booked)
    && forall j :: FirstSlot(b) <= j < b.cellIndex ==> Joined(cells[j], cells[j + 1])
  }

  /** A block ends only where its last slot and the next are not joined. */
  predicate EndsRun(cells: seq<Cell>, b: Block)
  {
    0 <= b.cellIndex < |cells| - 1 && !Joined(cells[b.cellIndex], cells[b.cellIndex + 1])
  }

  /** The block `pushPreviousBlockIntoArray` adds when slot `i - 1` closes a
      run of `numberOfCells` slots. */
  function BlockEndingAt(cells: seq<Cell>, i: int, numberOfCells: nat): Block
    requires 1 <= i <= |cells|
  {
    Block(i - 1, numberOfCells, cells[i - 1].status == Booked, cells[i - 1].venueBooking, cells[i - 1].status)
  }

  /** What the loop knows before looking at slot `i`: the blocks so far tile
      the slots before the open run, which is the joined stretch of
      `numberOfCells` slots ending at `i - 1`. */
  predicate LoopState(cells: seq<Cell>, blocks: seq<Block>, i: int, numberOfCells: int)
  {
    && 1 <= i <= |cells|
    && 1 <= numberOfCells <= i
    && (forall j :: i - numberOfCells <= j < i - 1 ==> Joined(cells[j], cells[j + 1]))
    && TilesPrefix(blocks, i - numberOfCells)
    && (forall k :: 0 <= k < |blocks| ==> Matches(cells, blocks[k]))
    && (forall k :: 0 <= k < |blocks| ==> EndsRun(cells, blocks[k]))
  }

  /** Closing the open run yields a tiling of slots `0 .. i-1` whose blocks
      all agree with the slots. */
  lemma PushBlock(cells: seq<Cell>, blocks: seq<Block>, i: int, numberOfCells: int)
    requires LoopState(cells, blocks, i, numberOfCells)
    ensures TilesPrefix(blocks + [BlockEndingAt(cells, i, numberOfCells)], i)
    ensures forall k :: 0 <= k < |blocks| + 1 ==> Matches(cells, (blocks + [BlockEndingAt(cells, i, numberOfCells)])[k])
  {
    var nb := BlockEndingAt(cells, i, numberOfCells);
    assert Matches(cells, nb);
    var bs := blocks + [nb];
    forall k | 0 <= k < |bs| - 1
      ensures FirstSlot(bs[k + 1]) == bs[k].cellIndex + 1
    {
      if k + 1 < |blocks| {
        assert bs[k] == blocks[k] && bs[k + 1] == blocks[k + 1];
      }
    }
  }

  /** Slot `i` extends the open run. */
  lemma ExtendRun(cells: seq<Cell>, blocks: seq<Block>, i: int, numberOfCells: int)
    requires LoopState(cells, blocks, i, numberOfCells) && i < |cells|
    requires Joined(cells[i - 1], cells[i])
    ensures LoopState(cells, blocks, i + 1, numberOfCells + 1)
  {
  }

  /** Slot `i` starts a new run after the block just closed. */
  lemma StartRun(cells: seq<Cell>, blocks: seq<Block>, i: int, numberOfCells: int)
    requires LoopState(cells, blocks, i, numberOfCells) && i < |cells|
    requires !Joined(cells[i - 1], cells[i])
    ensures LoopState(cells, blocks + [BlockEndingAt(cells, i, numberOfCells)], i + 1, 1)
  {
    PushBlock(cells, blocks, i, numberOfCells);
    var bs := blocks + [BlockEndingAt(cells, i, numberOfCells)];
    forall k | 0 <= k < |bs|
      ensures EndsRun(cells, bs[k])
    {
      if k < |blocks| {
        assert bs[k] == blocks[k];
      }
    }
  }

  /** A block that is not Booked spans one slot. */
  lemma UnbookedSingleton(cells: seq<Cell>, b: Block)
    requires Matches(cells, b) && !b.isBooked
    ensures b.numberOfCells == 1
  {
    assert b.numberOfCells > 1 ==> Joined(cells[b.cellIndex - 1], cells[b.cellIndex]);
  }

  /** After the loop, the push of the last run completes the tiling of every
      slot; only the last block may end where the slots end. */
  lemma CloseLastRun(cells: seq<Cell>, blocks: seq<Block>, numberOfCells: int)
    requires LoopState(cells, blocks, |cells|, numberOfCells)
    ensures TilesPrefix(blocks + [BlockEndingAt(cells, |cells|, numberOfCells)], |cells|)
    ensures forall k :: 0 <= k < |blocks| + 1 ==> Matches(cells, (blocks + [BlockEndingAt(cells, |cells|, numberOfCells)])[k])
    ensures forall k :: 0 <= k < |blocks| ==> EndsRun(cells, (blocks + [BlockEndingAt(cells, |cells|, numberOfCells)])[k])
    ensures forall k :: 0 <= k < |blocks| + 1 && !(blocks + [BlockEndingAt(cells, |cells|, numberOfCells)])[k].isBooked ==>
      (blocks + [BlockEndingAt(cells, |cells|, numberOfCells)])[k].numberOfCells == 1
  {
    PushBlock(cells, blocks, |cells|, numberOfCells);
    var all := blocks + [BlockEndingAt(cells, |cells|, numberOfCells)];
    forall k | 0 <= k < |blocks|
      ensures EndsRun(cells, all[k])
    {
      assert all[k] == blocks[k];
    }
    forall k | 0 <= k < |all| && !all[k].isBooked
      ensures all[k].numberOfCells == 1
    {
      UnbookedSingleton(cells, all[k]);
    }
  }

  /** The blocks rendered for one column. A status change or a `userId`
      change ends a block, consecutive Booked slots of one user share a
      block, and every other slot is a block of its own. */
  method CompactCells(cells: seq<Cell>) returns (blocks: seq<Block>)
    requires |cells| > 0
    ensures |blocks| > 0 && TilesPrefix(blocks, |cells|)
    ensures forall k :: 0 <= k < |blocks| ==> Matches(cells, blocks[k])
    ensures forall k :: 0 <= k < |blocks| - 1 ==> EndsRun(cells, blocks[k])
    ensures forall k :: 0 <= k < |blocks| && !blocks[k].isBooked ==> blocks[k].numberOfCells == 1
  {
    blocks := [];
    var numberOfCells: nat := 1;
    var previous := cells[0];
    var i := 1;
    while i < |cells|
      invariant LoopState(cells, blocks, i, numberOfCells)
      invariant previous == cells[i - 1]
    {
      var current := cells[i];
      var push := false;
      if previous.status == Booked {
        if current.status != previous.status {
          push := true;
        } else if OwnerOf(previous.venueBooking) != OwnerOf(current.venueBooking) {
          push := true;
        } else {
          numberOfCells := numberOfCells + 1;
        }
      } else {
        push := true;
      }
      if push {
        StartRun(cells, blocks, i, numberOfCells);
        blocks := blocks + [Block(i - 1, numberOfCells, previous.status == Booked, previous.venueBooking, previous.status)];
        numberOfCells := 1;
      } else {
        ExtendRun(cells, blocks, i, numberOfCells - 1);
      }
      previous := current;
      i := i + 1;
    }
    CloseLastRun(cells, blocks, numberOfCells);
    var last := Block(|cells| - 1, numberOfCells, previous.status == Booked, previous.venueBooking, previous.status);
    assert last == BlockEndingAt(cells, |cells|, numberOfCells);
    blocks := blocks + [last];
  }

  /** Sum of the block sizes. */
  function TotalCells(blocks: seq<Block>): int
  {
    if |blocks| == 0 then 0 else TotalCells(blocks[..|blocks| - 1]) + blocks[|blocks| - 1].numberOfCells
  }

  /** Block sizes add up to the number of slots covered. */
  lemma {:induction false} TilesCount(blocks: seq<Block>, m: int)
    requires TilesPrefix(blocks, m)
    ensures TotalCells(blocks) == m
  {
    if |blocks| > 0 {
      var init := blocks[..|blocks| - 1];
      var last := blocks[|blocks| - 1];
      assert TilesPrefix(init, FirstSlot(last)) by {
        if |init| > 0 {
          assert FirstSlot(blocks[|init|]) == init[|init| - 1].cellIndex + 1;
        }
      }
      TilesCount(init, FirstSlot(last));
    }
  }

  /** Every slot lies in exactly one block. */
  lemma {:induction false} TilesCover(blocks: seq<Block>, m: int, j: int)
    requires TilesPrefix(blocks, m) && 0 <= j < m
    ensures exists k :: 0 <= k < |blocks| && FirstSlot(blocks[k]) <= j <= blocks[k].cellIndex
    ensures forall k1, k2 ::
      (0 <= k1 < |blocks| && 0 <= k2 < |blocks| &&
       FirstSlot(blocks[k1]) <= j <= blocks[k1].cellIndex &&
       FirstSlot(blocks[k2]) <= j <= blocks[k2].cellIndex) ==> k1 == k2
  {
    var init := blocks[..|blocks| - 1];
    var last := blocks[|blocks| - 1];
    assert TilesPrefix(init, FirstSlot(last)) by {
      if |init| > 0 {
        assert FirstSlot(blocks[|init|]) == init[|init| - 1].cellIndex + 1;
      }
    }
    TilesOrdered(blocks, m);
    if j < FirstSlot(last) {
      TilesCover(init, FirstSlot(last), j);
    }
  }

  /** In a tiling, later blocks lie wholly after earlier ones. */
  lemma {:induction false} TilesOrdered(blocks: seq<Block>, m: int)
    requires TilesPrefix(blocks, m)
    ensures forall k1, k2 :: 0 <= k1 < k2 < |blocks| ==> blocks[k1].cellIndex < FirstSlot(blocks[k2])
    ensures forall k :: 0 <= k < |blocks| ==> 0 <= FirstSlot(blocks[k]) && blocks[k].cellIndex < m
  {
    if |blocks| > 0 {
      var init := blocks[..|blocks| - 1];
      var last := blocks[|blocks| - 1];
      assert TilesPrefix(init, FirstSlot(last)) by {
        if |init| > 0 {
          assert FirstSlot(blocks[|init|]) == init[|init| - 1].cellIndex + 1;
        }
      }
      TilesOrdered(init, FirstSlot(last));
    }
  }

  /** Along a chain of joined slots all are Booked by one owner. */
  lemma {:induction false} JoinedChain(cells: seq<Cell>, a: int, b: int)
    requires 0 <= a <= b < |cells|
    requires forall j :: a <= j < b ==> Joined(cells[j], cells[j + 1])
    ensures a < b ==> cells[a].status == Booked && cells[b].status == Booked
    ensures cells[a].status == cells[b].status
    ensures OwnerOf(cells[a].venueBooking) == OwnerOf(cells[b].venueBooking)
    decreases b - a
  {
    if a < b {
      JoinedChain(cells, a + 1, b);
    }
  }

  /** Expanding the blocks gives back, slot by slot, the classified status
      and owner: the block containing slot j carries the status of slot j
      and, for a Booked slot, its `userId`. */
  lemma BlocksExpandToCells(cells: seq<Cell>, blocks: seq<Block>, j: int)
    requires TilesPrefix(blocks, |cells|)
    requires forall k :: 0 <= k < |blocks| ==> Matches(cells, blocks[k])
    requires 0 <= j < |cells|
    ensures exists k :: && 0 <= k < |blocks| && FirstSlot(blocks[k]) <= j <= blocks[k].cellIndex
                        && blocks[k].status == cells[j].status
                        && OwnerOf(blocks[k].venueBooking) == OwnerOf(cells[j].venueBooking)
  {
    TilesCover(blocks, |cells|, j);
    var k :| 0 <= k < |blocks| && FirstSlot(blocks[k]) <= j <= blocks[k].cellIndex;
    assert Matches(cells, blocks[k]);
    JoinedChain(cells, j, blocks[k].cellIndex);
  }

  /** The page's mapping leaves `userId` out of every booking, so in the
      classified column any two neighbouring Booked slots compare equal owners
      and share a block, even when different users booked them. */
  lemma AnonymousBookingsMerge(col: Column, sel: Bounds)
    requires forall k :: 0 <= k < |col.bookings| ==> col.bookings[k].userId == None
    ensures var cells := ColumnCells(col, sel);
      forall j :: 0 <= j < |cells| - 1 && cells[j].status == Booked && cells[j + 1].status == Booked ==>
        Joined(cells[j], cells[j + 1])
  {
    var cells := ColumnCells(col, sel);
    forall j | 0 <= j < |cells| - 1 && cells[j].status == Booked && cells[j + 1].status == Booked
      ensures Joined(cells[j], cells[j + 1])
    {
      StatusPriority(col, sel, j);
      StatusPriority(col, sel, j + 1);
    }
  }
}
