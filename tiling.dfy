/**
 * The slot-tiling loop of `createTimeSlots`: starting at the window start,
 * emit a slot [cursor, cursor + slotDuration) whenever it ends inside the
 * window, then advance the cursor by slotDuration + breakTime, for as long as
 * the cursor lies before the window end.
 */
module SlotTiling {
  import opened AppointmentTypes

  /** The slots the loop emits from `cursor` on (the specification of the loop). */
  function Tiles(calendarId: CalendarId, cursor: Minutes, windowEnd: Minutes, slotDuration: int, breakTime: int): seq<TimeSlot>
    requires cursor < windowEnd ==> slotDuration + breakTime > 0
    decreases windowEnd - cursor
  {
    if cursor >= windowEnd then []
    else
      var rest := Tiles(calendarId, cursor + slotDuration + breakTime, windowEnd, slotDuration, breakTime);
      if cursor + slotDuration <= windowEnd
      then [TimeSlot(calendarId, cursor, cursor + slotDuration, Available)] + rest
      else rest
  }

  /** The cursor after `k` advances. */
  function Cursor(windowStart: Minutes, slotDuration: int, breakTime: int, k: nat): Minutes {
    windowStart + k * (slotDuration + breakTime)
  }

  /** A cursor position at which the loop emits a slot. */
  predicate Fits(cursor: Minutes, windowEnd: Minutes, slotDuration: int) {
    cursor < windowEnd && cursor + slotDuration <= windowEnd
  }

  /** The loop itself, advancing `currentTime` and pushing onto `slots`. */
  method GenerateSlots(calendarId: CalendarId, startTime: Minutes, endTime: Minutes, slotDuration: int, breakTime: int)
    returns (slots: seq<TimeSlot>)
    requires startTime < endTime ==> slotDuration + breakTime > 0
    ensures slots == Tiles(calendarId, startTime, endTime, slotDuration, breakTime)
  {
    slots := [];
    var currentTime := startTime;
    while currentTime < endTime
      invariant currentTime < endTime ==> slotDuration + breakTime > 0
      invariant slots + Tiles(calendarId, currentTime, endTime, slotDuration, breakTime)
             == Tiles(calendarId, startTime, endTime, slotDuration, breakTime)
      decreases endTime - currentTime
    {
      var slotEnd := currentTime + slotDuration;
      if slotEnd <= endTime {
        slots := slots + [TimeSlot(calendarId, currentTime, slotEnd, Available)];
      }
      currentTime := currentTime + slotDuration + breakTime;
    }
  }

  /** Every generated slot lies in the window, lasts `slotDuration`, belongs to the calendar and is AVAILABLE. */
  lemma {:induction false} TilesWithinWindow(calendarId: CalendarId, windowStart: Minutes, windowEnd: Minutes, slotDuration: int, breakTime: int)
    requires windowStart < windowEnd ==> slotDuration + breakTime > 0
    ensures forall t :: t in Tiles(calendarId, windowStart, windowEnd, slotDuration, breakTime) ==>
              && t.calendarId == calendarId
              && t.status == Available
              && t.endTime == t.startTime + slotDuration
              && windowStart <= t.startTime < windowEnd
              && t.endTime <= windowEnd
    decreases windowEnd - windowStart
  {
    if windowStart < windowEnd {
      TilesWithinWindow(calendarId, windowStart + slotDuration + breakTime, windowEnd, slotDuration, breakTime);
    }
  }

  /** An empty or inverted window yields no slots, whatever the duration and break. */
  lemma EmptyWindowNoTiles(calendarId: CalendarId, windowStart: Minutes, windowEnd: Minutes, slotDuration: int, breakTime: int)
    requires windowEnd <= windowStart
    ensures Tiles(calendarId, windowStart, windowEnd, slotDuration, breakTime) == []
  {
  }

  /**
   * Closed form: the k-th slot starts at windowStart + k * (slotDuration + breakTime),
   * and the number of slots is the number of advances k at which a slot fits
   * (those k form a prefix of the naturals).
   */
  lemma {:induction false} TilesClosedForm(calendarId: CalendarId, windowStart: Minutes, windowEnd: Minutes, slotDuration: int, breakTime: int)
    requires slotDuration + breakTime > 0
    ensures var r := Tiles(calendarId, windowStart, windowEnd, slotDuration, breakTime);
            && (forall k: nat :: k < |r| ==> r[k].startTime == Cursor(windowStart, slotDuration, breakTime, k))
            && (forall k: nat :: k < |r| <==> Fits(Cursor(windowStart, slotDuration, breakTime, k), windowEnd, slotDuration))
    decreases windowEnd - windowStart
  {
    var step := slotDuration + breakTime;
    var r := Tiles(calendarId, windowStart, windowEnd, slotDuration, breakTime);
    if windowStart >= windowEnd {
      forall k: nat ensures !Fits(Cursor(windowStart, slotDuration, breakTime, k), windowEnd, slotDuration) {
        assert k * step >= 0;
      }
    } else {
      var next := windowStart + step;
      var rest := Tiles(calendarId, next, windowEnd, slotDuration, breakTime);
      TilesClosedForm(calendarId, next, windowEnd, slotDuration, breakTime);
      forall k: nat ensures Cursor(next, slotDuration, breakTime, k) == Cursor(windowStart, slotDuration, breakTime, k + 1) {
        assert (k + 1) * step == k * step + step;
      }
      if windowStart + slotDuration <= windowEnd {
        assert r == [TimeSlot(calendarId, windowStart, windowStart + slotDuration, Available)] + rest;
        forall k: nat | k < |r| ensures r[k].startTime == Cursor(windowStart, slotDuration, breakTime, k) {
          if k > 0 {
            assert r[k] == rest[k - 1];
            assert Cursor(next, slotDuration, breakTime, k - 1) == Cursor(windowStart, slotDuration, breakTime, k);
          }
        }
        forall k: nat ensures k < |r| <==> Fits(Cursor(windowStart, slotDuration, breakTime, k), windowEnd, slotDuration) {
          if k > 0 {
            assert Cursor(next, slotDuration, breakTime, k - 1) == Cursor(windowStart, slotDuration, breakTime, k);
          }
        }
      } else {
        // No slot fits at the first cursor, hence none fits at any later one.
        assert r == rest;
        forall k: nat ensures !Fits(Cursor(windowStart, slotDuration, breakTime, k), windowEnd, slotDuration) {
          assert k * step >= 0;
        }
        assert !Fits(Cursor(next, slotDuration, breakTime, 0), windowEnd, slotDuration);
      }
    }
  }

  /** Consecutive slots start exactly slotDuration + breakTime apart, so the list is sorted by start. */
  lemma ConsecutiveStartsOneStepApart(calendarId: CalendarId, windowStart: Minutes, windowEnd: Minutes, slotDuration: int, breakTime: int)
    requires slotDuration + breakTime > 0
    ensures var r := Tiles(calendarId, windowStart, windowEnd, slotDuration, breakTime);
            forall i :: 0 <= i < |r| - 1 ==> r[i + 1].startTime == r[i].startTime + slotDuration + breakTime
  {
    var step := slotDuration + breakTime;
    var r := Tiles(calendarId, windowStart, windowEnd, slotDuration, breakTime);
    TilesClosedForm(calendarId, windowStart, windowEnd, slotDuration, breakTime);
    forall i | 0 <= i < |r| - 1 ensures r[i + 1].startTime == r[i].startTime + step {
      assert r[i].startTime == Cursor(windowStart, slotDuration, breakTime, i);
      assert r[i + 1].startTime == Cursor(windowStart, slotDuration, breakTime, i + 1);
      assert (i + 1) * step == i * step + step;
    }
  }

  /** Each slot starts after the previous ones have ended. */
  predicate StrictlySortedDisjoint(r: seq<TimeSlot>) {
    forall i, j :: 0 <= i < j < |r| ==> r[i].startTime < r[j].startTime && r[i].endTime <= r[j].startTime
  }

  /** With a non-negative break, the slots are strictly ordered by start and pairwise non-overlapping. */
  lemma {:induction false} TilesSortedAndDisjoint(calendarId: CalendarId, windowStart: Minutes, windowEnd: Minutes, slotDuration: int, breakTime: int)
    requires slotDuration + breakTime > 0 && breakTime >= 0
    ensures StrictlySortedDisjoint(Tiles(calendarId, windowStart, windowEnd, slotDuration, breakTime))
    decreases windowEnd - windowStart
  {
    var r := Tiles(calendarId, windowStart, windowEnd, slotDuration, breakTime);
    if windowStart < windowEnd {
      var next := windowStart + slotDuration + breakTime;
      var rest := Tiles(calendarId, next, windowEnd, slotDuration, breakTime);
      TilesSortedAndDisjoint(calendarId, next, windowEnd, slotDuration, breakTime);
      TilesWithinWindow(calendarId, next, windowEnd, slotDuration, breakTime);
      if windowStart + slotDuration <= windowEnd {
        assert r == [TimeSlot(calendarId, windowStart, windowStart + slotDuration, Available)] + rest;
        forall i, j | 0 <= i < j < |r| ensures r[i].startTime < r[j].startTime && r[i].endTime <= r[j].startTime {
          assert r[j] == rest[j - 1];
          assert r[j] in rest;
          if i > 0 {
            assert r[i] == rest[i - 1];
          } else {
            assert r[i].startTime == windowStart && r[i].endTime == windowStart + slotDuration;
            assert next <= r[j].startTime;
          }
        }
      } else {
        assert r == rest;
      }
    }
  }

  /** A working day 09:00-17:00 with 60-minute slots and no break has 8 slots, 09:00-10:00 to 16:00-17:00. */
  lemma NineToFiveHourly(calendarId: CalendarId)
    ensures var r := Tiles(calendarId, 9 * 60, 17 * 60, 60, 0);
            && |r| == 8
            && r[0] == TimeSlot(calendarId, 9 * 60, 10 * 60, Available)
            && r[7] == TimeSlot(calendarId, 16 * 60, 17 * 60, Available)
  {
    var r := Tiles(calendarId, 9 * 60, 17 * 60, 60, 0);
    TilesClosedForm(calendarId, 9 * 60, 17 * 60, 60, 0);
    TilesWithinWindow(calendarId, 9 * 60, 17 * 60, 60, 0);
    assert Fits(Cursor(9 * 60, 60, 0, 7), 17 * 60, 60);
    assert !Fits(Cursor(9 * 60, 60, 0, 8), 17 * 60, 60);
    assert r[0] in r && r[7] in r;
  }

  /** 09:00-12:30 with 60-minute slots and a 15-minute break: 09:00, 10:15 and 11:30, and no fourth slot. */
  lemma MorningWithBreaks(calendarId: CalendarId)
    ensures Tiles(calendarId, 9 * 60, 12 * 60 + 30, 60, 15)
         == [TimeSlot(calendarId, 540, 600, Available),
             TimeSlot(calendarId, 615, 675, Available),
             TimeSlot(calendarId, 690, 750, Available)]
  {
    var r := Tiles(calendarId, 9 * 60, 12 * 60 + 30, 60, 15);
    TilesClosedForm(calendarId, 9 * 60, 12 * 60 + 30, 60, 15);
    TilesWithinWindow(calendarId, 9 * 60, 12 * 60 + 30, 60, 15);
    assert Fits(Cursor(540, 60, 15, 2), 750, 60);
    assert !Fits(Cursor(540, 60, 15, 3), 750, 60);
    assert r[0] in r && r[1] in r && r[2] in r;
  }
}
