/**
 * Finding a person in a time slot and exchanging two seats: `pathOfPerson`,
 * `personArrayAtPath`, `withPersonsSwapped` and `withPairsSwapped` of
 * src/model/scheduling.ts.
 *
 * The source deep-clones the schedule and then writes through the arrays that
 * `personArrayAtPath` hands out. Here a schedule is a value, so the clone is
 * the schedule itself and every write produces a new value; a write through
 * one array is seen through the other when both name the same array, because
 * the second array is read back after the first write.
 */
module Swaps {
  import opened Collections
  import opened ScheduleModel

  /** Position of the first occurrence of `x` in `s`. */
  function FirstIndex(s: seq<PersonId>, x: PersonId): (k: nat)
    requires x in s
    ensures k < |s| && s[k] == x && x !in s[..k]
  {
    if s[0] == x then 0
    else
      assert x in s[1..] by { var i :| 0 <= i < |s| && s[i] == x; assert s[1..][i - 1] == x; }
      var k' := FirstIndex(s[1..], x);
      assert s[..k' + 1] == [s[0]] + s[1..][..k'];
      k' + 1
  }

  /** An occurrence with no earlier occurrence is the first one. */
  lemma FirstIndexUnique(s: seq<PersonId>, x: PersonId, k: nat)
    requires k < |s| && s[k] == x && x !in s[..k]
    ensures FirstIndex(s, x) == k
  {}

  /** The path `pathOfPerson` returns: the first seat of `x`, courts before bench. */
  function FirstPath(slot: TimeSlot, iSlot: int, x: PersonId): (path: PersonPath)
    requires x in Seats(slot)
    ensures ValidPath(slot, path) && path.iSlot == iSlot
  {
    PlayingSeatsLength(slot.courts);
    PathAt(slot, iSlot, FirstIndex(Seats(slot), x))
  }

  /** The first seat of `x` holds `x`, no earlier seat does, and it is on a
      court exactly when `x` plays in the slot. */
  lemma FirstPathSeat(slot: TimeSlot, iSlot: int, x: PersonId)
    requires x in Seats(slot)
    ensures var path := FirstPath(slot, iSlot, x);
      && SeatAt(slot, path) == x
      && SeatIndex(slot, path) == FirstIndex(Seats(slot), x)
      && x !in Seats(slot)[..SeatIndex(slot, path)]
      && (path.Playing? <==> x in PlayingSeats(slot.courts))
  {
    var path := FirstPath(slot, iSlot, x);
    var s := Seats(slot);
    var k := FirstIndex(s, x);
    SeatAtIndex(slot, path);
    PlayingSeatsLength(slot.courts);
    var ps := PlayingSeats(slot.courts);
    assert s[..|ps|] == ps;
    if path.Playing? {
      assert ps[k] == x;
    }
  }

  /** Two valid paths into the same slot with the same seat position are equal. */
  lemma SeatIndexInjective(slot: TimeSlot, p: PersonPath, q: PersonPath)
    requires ValidPath(slot, p) && ValidPath(slot, q) && p.iSlot == q.iSlot
    requires SeatIndex(slot, p) == SeatIndex(slot, q)
    ensures p == q
  {}

  /**
   * `pathOfPerson(schedule, iSlot, x)`: searches the courts pair by pair and
   * then the bench, and returns the first seat holding `x`.
   */
  method PathOfPerson(schedule: Schedule, iSlot: int, x: PersonId) returns (r: Result<PersonPath>)
    ensures !(0 <= iSlot < |schedule.timeSlots|) ==> r == Err(NoSuchSlot)
    ensures 0 <= iSlot < |schedule.timeSlots| ==>
      (r.Ok? <==> x in Seats(schedule.timeSlots[iSlot])) && (r.Err? ==> r.error == PersonNotFound)
    ensures r.Ok? ==> (0 <= iSlot < |schedule.timeSlots| && x in Seats(schedule.timeSlots[iSlot]) &&
                       r.value == FirstPath(schedule.timeSlots[iSlot], iSlot, x))
  {
    if !(0 <= iSlot < |schedule.timeSlots|) {
      return Err(NoSuchSlot);
    }
    var slot := schedule.timeSlots[iSlot];
    ghost var seats := Seats(slot);
    PlayingSeatsLength(slot.courts);
    var iCourt := 0;
    while iCourt < |slot.courts|
      invariant 0 <= iCourt <= |slot.courts|
      invariant x !in seats[..4 * iCourt]
    {
      var found := SearchCourt(slot, iSlot, iCourt, x);
      if found.Some? {
        return Ok(found.value);
      }
      iCourt := iCourt + 1;
    }

    var found := SearchBench(slot, iSlot, x);
    if found.Some? {
      return Ok(found.value);
    }
    return Err(PersonNotFound);
  }

  /** The bench loop of `pathOfPerson`, when no court seat holds `x`. */
  method SearchBench(slot: TimeSlot, iSlot: int, x: PersonId) returns (found: Option<PersonPath>)
    requires 4 * |slot.courts| <= |Seats(slot)| && x !in Seats(slot)[..4 * |slot.courts|]
    ensures found.Some? ==> x in Seats(slot) && found.value == FirstPath(slot, iSlot, x)
    ensures found.None? ==> x !in Seats(slot)
  {
    ghost var seats := Seats(slot);
    PlayingSeatsLength(slot.courts);
    var bench := slot.bench;
    var iPerson := 0;
    while iPerson < |bench|
      invariant 0 <= iPerson <= |bench|
      invariant x !in seats[..4 * |slot.courts| + iPerson]
    {
      var k := 4 * |slot.courts| + iPerson;
      assert seats[k] == bench[iPerson];
      if bench[iPerson] == x {
        FoundAt(slot, iSlot, x, OnBench(iSlot, iPerson));
        return Some(OnBench(iSlot, iPerson));
      }
      PrefixSnoc(seats, k);
      iPerson := iPerson + 1;
    }
    assert seats[..4 * |slot.courts| + |bench|] == seats;
    return None;
  }

  /** The two inner loops of `pathOfPerson`: the four seats of court `iCourt`,
      when no earlier seat holds `x`. */
  method SearchCourt(slot: TimeSlot, iSlot: int, iCourt: nat, x: PersonId) returns (found: Option<PersonPath>)
    requires iCourt < |slot.courts| && 4 * iCourt + 4 <= |Seats(slot)|
    requires x !in Seats(slot)[..4 * iCourt]
    ensures found.Some? ==> x in Seats(slot) && found.value == FirstPath(slot, iSlot, x)
    ensures found.None? ==> x !in Seats(slot)[..4 * iCourt + 4]
  {
    ghost var seats := Seats(slot);
    var court := slot.courts[iCourt];
    var iPair := 0;
    while iPair < 2
      invariant 0 <= iPair <= 2
      invariant x !in seats[..4 * iCourt + 2 * iPair]
    {
      var pair := PairAt(court, iPair);
      var iPerson := 0;
      while iPerson < 2
        invariant 0 <= iPerson <= 2
        invariant x !in seats[..4 * iCourt + 2 * iPair + iPerson]
      {
        var k := 4 * iCourt + 2 * iPair + iPerson;
        PlayingSeatsAt(slot.courts, iCourt, 2 * iPair + iPerson);
        assert seats[k] == Member(pair, iPerson);
        if Member(pair, iPerson) == x {
          FoundAt(slot, iSlot, x, Playing(iSlot, iCourt, iPair, iPerson));
          return Some(Playing(iSlot, iCourt, iPair, iPerson));
        }
        PrefixSnoc(seats, k);
        iPerson := iPerson + 1;
      }
      iPair := iPair + 1;
    }
    return None;
  }

  /** A seat holding `x` with no earlier seat holding `x` is the first path. */
  lemma FoundAt(slot: TimeSlot, iSlot: int, x: PersonId, path: PersonPath)
    requires ValidPath(slot, path) && path.iSlot == iSlot
    requires SeatAt(slot, path) == x
    requires SeatIndex(slot, path) <= |Seats(slot)| && x !in Seats(slot)[..SeatIndex(slot, path)]
    ensures x in Seats(slot) && path == FirstPath(slot, iSlot, x)
  {
    SeatAtIndex(slot, path);
    FirstIndexUnique(Seats(slot), x, SeatIndex(slot, path));
    SeatIndexInjective(slot, path, FirstPath(slot, iSlot, x));
  }

  /** A path into the schedule: its slot exists and its seat is in that slot. */
  predicate PathIn(schedule: Schedule, path: PersonPath) {
    0 <= path.iSlot < |schedule.timeSlots| && ValidPath(schedule.timeSlots[path.iSlot], path)
  }

  /** `personArrayAtPath(schedule, path)`: the pair holding a court seat, or
      the bench; the seat is element `path.iPerson` of it. */
  function PersonArrayAtPath(schedule: Schedule, path: PersonPath): (arr: seq<PersonId>)
    requires PathIn(schedule, path)
    ensures path.Playing? ==> |arr| == 2
    ensures path.OnBench? ==> arr == schedule.timeSlots[path.iSlot].bench
    ensures path.iPerson < |arr| && arr[path.iPerson] == SeatAt(schedule.timeSlots[path.iSlot], path)
  {
    var slot := schedule.timeSlots[path.iSlot];
    match path
    case Playing(_, c, p, _) => var pair := PairAt(slot.courts[c], p); [pair.first, pair.second]
    case OnBench(_, _) => slot.bench
  }

  /** The schedule with the array at `path` replaced by `arr`: what writing
      into the array `personArrayAtPath` returned does to the schedule. */
  function WithPersonArrayAtPath(schedule: Schedule, path: PersonPath, arr: seq<PersonId>): Schedule
    requires PathIn(schedule, path)
    requires path.Playing? ==> |arr| == 2
  {
    var slot := schedule.timeSlots[path.iSlot];
    var slot' := match path
      case Playing(_, c, p, _) =>
        var pair' := Pair(arr[0], arr[1]);
        var court' := if p == 0 then slot.courts[c].(pair0 := pair') else slot.courts[c].(pair1 := pair');
        slot.(courts := slot.courts[c := court'])
      case OnBench(_, _) => slot.(bench := arr);
    schedule.(timeSlots := schedule.timeSlots[path.iSlot := slot'])
  }

  /** Writing element `path.iPerson` of the array at `path` writes seat `path`. */
  lemma ArrayWriteIsSeatWrite(schedule: Schedule, path: PersonPath, x: PersonId)
    requires PathIn(schedule, path)
    ensures WithPersonArrayAtPath(schedule, path, PersonArrayAtPath(schedule, path)[path.iPerson := x]) ==
      schedule.(timeSlots := schedule.timeSlots[path.iSlot := WithSeat(schedule.timeSlots[path.iSlot], path, x)])
  {}

  /** The slot with the persons in seats `path0` and `path1` exchanged. */
  function SwapSeats(slot: TimeSlot, path0: PersonPath, path1: PersonPath): (slot': TimeSlot)
    requires ValidPath(slot, path0) && ValidPath(slot, path1)
    ensures |slot'.courts| == |slot.courts| && |slot'.bench| == |slot.bench|
  {
    WithSeatSeats(slot, path0, SeatAt(slot, path1));
    WithSeat(WithSeat(slot, path0, SeatAt(slot, path1)), path1, SeatAt(slot, path0))
  }

  /**
   * The body shared by both swaps once the two paths are known: with
   * `arr0`, `arr1` the arrays at the two paths, `tmp := arr0[i0];
   * arr0[i0] := arr1[i1]; arr1[i1] := tmp` on the cloned schedule.
   */
  method SwapAtPaths(schedule: Schedule, path0: PersonPath, path1: PersonPath) returns (newSchedule: Schedule)
    requires PathIn(schedule, path0) && PathIn(schedule, path1) && path0.iSlot == path1.iSlot
    ensures newSchedule == schedule.(timeSlots := schedule.timeSlots[path0.iSlot :=
      SwapSeats(schedule.timeSlots[path0.iSlot], path0, path1)])
  {
    var slot := schedule.timeSlots[path0.iSlot];
    newSchedule := schedule;
    var arr0 := PersonArrayAtPath(newSchedule, path0);
    var arr1 := PersonArrayAtPath(newSchedule, path1);
    var tmp := arr0[path0.iPerson];
    ArrayWriteIsSeatWrite(newSchedule, path0, arr1[path1.iPerson]);
    newSchedule := WithPersonArrayAtPath(newSchedule, path0, arr0[path0.iPerson := arr1[path1.iPerson]]);
    WithSeatSeats(slot, path0, SeatAt(slot, path1));
    // `arr1` may be the array just written, so it is read again.
    arr1 := PersonArrayAtPath(newSchedule, path1);
    ArrayWriteIsSeatWrite(newSchedule, path1, tmp);
    newSchedule := WithPersonArrayAtPath(newSchedule, path1, arr1[path1.iPerson := tmp]);
  }

  /** Slot `iSlot` with the first seats of `x0` and `x1` exchanged: the
      reference for both swaps. */
  function Swapped(slot: TimeSlot, iSlot: int, x0: PersonId, x1: PersonId): TimeSlot
    requires x0 in Seats(slot) && x1 in Seats(slot)
  {
    SwapSeats(slot, FirstPath(slot, iSlot, x0), FirstPath(slot, iSlot, x1))
  }

  function SwappedSchedule(schedule: Schedule, iSlot: int, x0: PersonId, x1: PersonId): Schedule
    requires 0 <= iSlot < |schedule.timeSlots|
    requires x0 in Seats(schedule.timeSlots[iSlot]) && x1 in Seats(schedule.timeSlots[iSlot])
  {
    schedule.(timeSlots := schedule.timeSlots[iSlot := Swapped(schedule.timeSlots[iSlot], iSlot, x0, x1)])
  }

  /**
   * `withPersonsSwapped(schedule, iSlot, personId0, personId1)`: fails when
   * the slot does not exist or either person is not in it, and otherwise
   * exchanges the two persons' seats in that slot.
   */
  method WithPersonsSwapped(schedule: Schedule, iSlot: int, personId0: PersonId, personId1: PersonId)
    returns (r: Result<Schedule>)
    ensures r.Err? <==> (!(0 <= iSlot < |schedule.timeSlots|) ||
                         personId0 !in Seats(schedule.timeSlots[iSlot]) || personId1 !in Seats(schedule.timeSlots[iSlot]))
    ensures r.Err? ==> r.error == if 0 <= iSlot < |schedule.timeSlots| then PersonNotFound else NoSuchSlot
    ensures r.Ok? ==> r.value == SwappedSchedule(schedule, iSlot, personId0, personId1)
  {
    var path0 := PathOfPerson(schedule, iSlot, personId0);
    if path0.Err? {
      return Err(path0.error);
    }
    var path1 := PathOfPerson(schedule, iSlot, personId1);
    if path1.Err? {
      return Err(path1.error);
    }
    var newSchedule := SwapAtPaths(schedule, path0.value, path1.value);
    return Ok(newSchedule);
  }

  /**
   * `withPairsSwapped(schedule, iSlot, personId0, personId1)`: as
   * `withPersonsSwapped` (it exchanges the two persons, and with them their
   * partners), but fails as well when either person is on the bench.
   */
  method WithPairsSwapped(schedule: Schedule, iSlot: int, personId0: PersonId, personId1: PersonId)
    returns (r: Result<Schedule>)
    ensures !(0 <= iSlot < |schedule.timeSlots|) ==> r == Err(NoSuchSlot)
    ensures 0 <= iSlot < |schedule.timeSlots| ==>
      var slot := schedule.timeSlots[iSlot];
      && (personId0 !in Seats(slot) || personId1 !in Seats(slot) ==> r == Err(PersonNotFound))
      && (personId0 in Seats(slot) && personId1 in Seats(slot) ==>
           (r.Err? <==> personId0 !in PlayingSeats(slot.courts) || personId1 !in PlayingSeats(slot.courts)))
      && (r.Err? ==> r.error in {PersonNotFound, ExpectedPlaying})
    ensures r.Ok? ==> r.value == SwappedSchedule(schedule, iSlot, personId0, personId1)
  {
    var path0 := PathOfPerson(schedule, iSlot, personId0);
    if path0.Err? {
      return Err(path0.error);
    }
    var path1 := PathOfPerson(schedule, iSlot, personId1);
    if path1.Err? {
      return Err(path1.error);
    }
    FirstPathSeat(schedule.timeSlots[iSlot], iSlot, personId0);
    FirstPathSeat(schedule.timeSlots[iSlot], iSlot, personId1);
    if !path0.value.Playing? || !path1.value.Playing? {
      return Err(ExpectedPlaying);
    }
    var newSchedule := SwapAtPaths(schedule, path0.value, path1.value);
    return Ok(newSchedule);
  }

  /** Only the two first seats change: the first seat of `x0` now holds `x1`
      and the first seat of `x1` holds `x0`; the slot keeps its shape. */
  lemma SwappedSeats(slot: TimeSlot, iSlot: int, x0: PersonId, x1: PersonId)
    requires x0 in Seats(slot) && x1 in Seats(slot)
    ensures var slot', k0, k1 := Swapped(slot, iSlot, x0, x1), FirstIndex(Seats(slot), x0), FirstIndex(Seats(slot), x1);
      && |slot'.courts| == |slot.courts| && |slot'.bench| == |slot.bench|
      && Seats(slot') == Seats(slot)[k0 := x1][k1 := x0]
  {
    var path0, path1 := FirstPath(slot, iSlot, x0), FirstPath(slot, iSlot, x1);
    FirstPathSeat(slot, iSlot, x0);
    FirstPathSeat(slot, iSlot, x1);
    var k0, k1 := FirstIndex(Seats(slot), x0), FirstIndex(Seats(slot), x1);
    var mid := WithSeat(slot, path0, x1);
    WithSeatSeats(slot, path0, x1);
    assert Seats(mid) == Seats(slot)[k0 := x1];
    assert ValidPath(mid, path1) && SeatIndex(mid, path1) == k1;
    WithSeatSeats(mid, path1, x0);
    assert SwapSeats(slot, path0, path1) == WithSeat(mid, path1, x0);
  }

  /** A swap keeps the multiset of the slot's people. */
  lemma SwappedPeople(slot: TimeSlot, iSlot: int, x0: PersonId, x1: PersonId)
    requires x0 in Seats(slot) && x1 in Seats(slot)
    ensures multiset(Seats(Swapped(slot, iSlot, x0, x1))) == multiset(Seats(slot))
  {
    SwappedSeats(slot, iSlot, x0, x1);
    var s := Seats(slot);
    var k0, k1 := FirstIndex(s, x0), FirstIndex(s, x1);
    UpdateSwap(s, k0, k1);
  }

  /** A slot is determined by its shape and its seats. */
  lemma SeatsDetermineSlot(a: TimeSlot, b: TimeSlot)
    requires |a.courts| == |b.courts| && |a.bench| == |b.bench| && Seats(a) == Seats(b)
    ensures a == b
  {
    PlayingSeatsLength(a.courts);
    PlayingSeatsLength(b.courts);
    var n := 4 * |a.courts|;
    assert a.bench == Seats(a)[n..] && b.bench == Seats(b)[n..];
    forall c | 0 <= c < |a.courts| ensures a.courts[c] == b.courts[c] {
      forall j | 0 <= j < 4 ensures CourtSeats(a.courts[c])[j] == CourtSeats(b.courts[c])[j] {
        PlayingSeatsAt(a.courts, c, j);
        PlayingSeatsAt(b.courts, c, j);
        assert Seats(a)[4 * c + j] == Seats(b)[4 * c + j];
      }
      assert CourtSeats(a.courts[c]) == CourtSeats(b.courts[c]);
    }
  }

  /** In a sequence without repetition, exchanging the first `x0` and the
      first `x1` puts each at the other's place, and exchanging again restores it. */
  lemma SwapBack(s: seq<PersonId>, x0: PersonId, x1: PersonId)
    requires x0 in s && x1 in s && Distinct(s)
    ensures var k0, k1 := FirstIndex(s, x0), FirstIndex(s, x1);
      var s' := s[k0 := x1][k1 := x0];
      && x0 in s' && x1 in s' && FirstIndex(s', x0) == k1 && FirstIndex(s', x1) == k0
      && s'[k1 := x1][k0 := x0] == s
  {
    var k0, k1 := FirstIndex(s, x0), FirstIndex(s, x1);
    var s' := s[k0 := x1][k1 := x0];
    assert s'[k1] == x0 && s'[k0] == x1;
    forall i | 0 <= i < |s'| && i != k0 && i != k1 ensures s'[i] == s[i] && s[i] != x0 && s[i] != x1 {}
    assert x0 !in s'[..k1] by {
      forall i | 0 <= i < k1 ensures s'[i] != x0 {}
    }
    assert x1 !in s'[..k0] by {
      forall i | 0 <= i < k0 ensures s'[i] != x1 {}
    }
    FirstIndexUnique(s', x0, k1);
    FirstIndexUnique(s', x1, k0);
  }

  /** In a slot where nobody sits twice, swapping the same two persons again
      restores the slot. */
  lemma SwappedTwice(slot: TimeSlot, iSlot: int, x0: PersonId, x1: PersonId)
    requires x0 in Seats(slot) && x1 in Seats(slot) && Distinct(Seats(slot))
    ensures var slot' := Swapped(slot, iSlot, x0, x1);
      x0 in Seats(slot') && x1 in Seats(slot') && Swapped(slot', iSlot, x0, x1) == slot
  {
    var s := Seats(slot);
    var k0, k1 := FirstIndex(s, x0), FirstIndex(s, x1);
    var slot' := Swapped(slot, iSlot, x0, x1);
    SwappedSeats(slot, iSlot, x0, x1);
    var s' := Seats(slot');
    SwapBack(s, x0, x1);
    var slot'' := Swapped(slot', iSlot, x0, x1);
    SwappedSeats(slot', iSlot, x0, x1);
    assert Seats(slot'') == s'[k1 := x1][k0 := x0] == s;
    SeatsDetermineSlot(slot'', slot);
  }

  /** Swapping twice restores a schedule whose slot seats nobody twice. */
  lemma SwappedScheduleTwice(schedule: Schedule, iSlot: int, x0: PersonId, x1: PersonId)
    requires 0 <= iSlot < |schedule.timeSlots|
    requires x0 in Seats(schedule.timeSlots[iSlot]) && x1 in Seats(schedule.timeSlots[iSlot])
    requires Distinct(Seats(schedule.timeSlots[iSlot]))
    ensures var s' := SwappedSchedule(schedule, iSlot, x0, x1);
      x0 in Seats(s'.timeSlots[iSlot]) && x1 in Seats(s'.timeSlots[iSlot]) &&
      SwappedSchedule(s', iSlot, x0, x1) == schedule
  {
    var ts, slot := schedule.timeSlots, schedule.timeSlots[iSlot];
    SwappedTwice(slot, iSlot, x0, x1);
    var slot' := Swapped(slot, iSlot, x0, x1);
    UpdateBack(ts, iSlot, slot');
  }

  /** Overwriting an element and then writing the old one back. */
  lemma UpdateBack<T>(s: seq<T>, i: nat, v: T)
    requires i < |s|
    ensures s[i := v][i := s[i]] == s
  {}

  /** A swap changes slot `iSlot` only. */
  lemma SwappedScheduleElsewhere(schedule: Schedule, iSlot: int, x0: PersonId, x1: PersonId, j: int)
    requires 0 <= iSlot < |schedule.timeSlots|
    requires x0 in Seats(schedule.timeSlots[iSlot]) && x1 in Seats(schedule.timeSlots[iSlot])
    requires 0 <= j < |schedule.timeSlots| && j != iSlot
    ensures var s' := SwappedSchedule(schedule, iSlot, x0, x1);
      s'.nCourts == schedule.nCourts && |s'.timeSlots| == |schedule.timeSlots| &&
      s'.timeSlots[j] == schedule.timeSlots[j]
  {}
}
