/**
 * The schedule value of src/model/scheduling.ts: pairs, courts, time slots and
 * the schedule itself, the failures the engine reports, and the seats of a
 * slot in the order the engine visits them.
 */
module ScheduleModel {
  import opened Collections

  /** Identifier of a pool member (an integer key in the source). */
  type PersonId = int

  /** A doubles team: `[PersonId, PersonId]`. */
  datatype Pair = Pair(first: PersonId, second: PersonId)

  /** The two pairs that play on one court: `[Pair, Pair]`. */
  datatype Court = Court(pair0: Pair, pair1: Pair)

  /** One time slot: who plays on which court, and who sits out. */
  datatype TimeSlot = TimeSlot(courts: seq<Court>, bench: seq<PersonId>)

  datatype Schedule = Schedule(nCourts: int, timeSlots: seq<TimeSlot>)

  /** The exceptions the engine throws, one constructor per `throw` site
      (and per JavaScript TypeError the source runs into). */
  datatype Error =
    | SampleTooSmall         // sampleWithoutInPlace: fewer allowed elements than requested
    | NoPerson               // randomMaximalPerson: no candidate
    | NoPartner              // randomMinimalPartner: no candidate
    | InsufficientSquad      // randomSchedule: fewer people than court places
    | NoSuchSlot             // the slot index does not name a slot (a TypeError in the source)
    | PersonNotFound         // pathOfPerson: the person is not in the slot
    | ExpectedPlaying        // withPairsSwapped: a person is on the bench
    | NoSlots                // squadOfSchedule on a schedule without slots (a TypeError)
    | InconsistentSquads     // squadOfSchedule: two slots hold different people

  datatype Result<T> = Ok(value: T) | Err(error: Error)

  /** A value that may be absent (`undefined` in the source). */
  datatype Option<T> = None | Some(value: T)

  /** `pair[i]` */
  function Member(p: Pair, i: nat): PersonId
    requires i < 2
  {
    if i == 0 then p.first else p.second
  }

  /** `court[i]` */
  function PairAt(c: Court, i: nat): Pair
    requires i < 2
  {
    if i == 0 then c.pair0 else c.pair1
  }

  /** `court[0][0], court[0][1], court[1][0], court[1][1]` */
  function CourtSeats(c: Court): seq<PersonId> {
    [c.pair0.first, c.pair0.second, c.pair1.first, c.pair1.second]
  }

  /** The people on the courts, court by court, seat by seat. */
  function PlayingSeats(courts: seq<Court>): seq<PersonId> {
    if courts == [] then [] else PlayingSeats(courts[..|courts| - 1]) + CourtSeats(courts[|courts| - 1])
  }

  /** The occupants of every seat of a slot: the court seats and then the bench. */
  function Seats(slot: TimeSlot): seq<PersonId> {
    PlayingSeats(slot.courts) + slot.bench
  }

  /** The members of a list of pairs, pair by pair. */
  function PairSeats(pairs: seq<Pair>): seq<PersonId> {
    if pairs == [] then [] else PairSeats(pairs[..|pairs| - 1]) + [pairs[|pairs| - 1].first, pairs[|pairs| - 1].second]
  }

  /** Where a person sits: playing (court, pair, place in pair) or on the bench. */
  datatype PersonPath =
    | Playing(iSlot: int, iCourt: nat, iPair: nat, iPerson: nat)
    | OnBench(iSlot: int, iPerson: nat)

  predicate ValidPath(slot: TimeSlot, path: PersonPath) {
    match path
    case Playing(_, c, p, q) => c < |slot.courts| && p < 2 && q < 2
    case OnBench(_, i) => i < |slot.bench|
  }

  /** Position of the seat `path` in `Seats(slot)`. */
  function SeatIndex(slot: TimeSlot, path: PersonPath): nat
    requires ValidPath(slot, path)
  {
    match path
    case Playing(_, c, p, q) => 4 * c + 2 * p + q
    case OnBench(_, i) => 4 * |slot.courts| + i
  }

  /** The person in seat `path`. */
  function SeatAt(slot: TimeSlot, path: PersonPath): PersonId
    requires ValidPath(slot, path)
  {
    match path
    case Playing(_, c, p, q) => Member(PairAt(slot.courts[c], p), q)
    case OnBench(_, i) => slot.bench[i]
  }

  /** The slot with `x` written into seat `path`. */
  function WithSeat(slot: TimeSlot, path: PersonPath, x: PersonId): TimeSlot
    requires ValidPath(slot, path)
  {
    match path
    case Playing(_, c, p, q) =>
      var court := slot.courts[c];
      var pair := PairAt(court, p);
      var pair' := if q == 0 then pair.(first := x) else pair.(second := x);
      var court' := if p == 0 then court.(pair0 := pair') else court.(pair1 := pair');
      slot.(courts := slot.courts[c := court'])
    case OnBench(_, i) => slot.(bench := slot.bench[i := x])
  }

  /** The seat at position `k` of `Seats(slot)`, as a path into slot `iSlot`. */
  function PathAt(slot: TimeSlot, iSlot: int, k: nat): (path: PersonPath)
    requires k < 4 * |slot.courts| + |slot.bench|
    ensures ValidPath(slot, path) && SeatIndex(slot, path) == k && path.iSlot == iSlot
    ensures path.Playing? <==> k < 4 * |slot.courts|
  {
    if k < 4 * |slot.courts| then
      SeatDigits(k, |slot.courts|);
      Playing(iSlot, k / 4, (k % 4) / 2, k % 2)
    else OnBench(iSlot, k - 4 * |slot.courts|)
  }

  /** A court seat position splits into court, pair and place in the pair. */
  lemma SeatDigits(k: nat, nCourts: nat)
    requires k < 4 * nCourts
    ensures k / 4 < nCourts && (k % 4) / 2 < 2 && k % 2 < 2
    ensures 4 * (k / 4) + 2 * ((k % 4) / 2) + k % 2 == k
  {
    var c, j := k / 4, k % 4;
    assert k == 4 * c + j;
    assert j == 2 * (j / 2) + j % 2;
    assert k % 2 == j % 2 by {
      assert k == 2 * (2 * c + j / 2) + j % 2;
    }
  }

  lemma {:induction false} PlayingSeatsLength(courts: seq<Court>)
    ensures |PlayingSeats(courts)| == 4 * |courts|
  {
    if courts != [] {
      PlayingSeatsLength(courts[..|courts| - 1]);
    }
  }

  lemma {:induction false} PlayingSeatsAt(courts: seq<Court>, c: nat, j: nat)
    requires c < |courts| && j < 4
    ensures 4 * c + j < |PlayingSeats(courts)|
    ensures PlayingSeats(courts)[4 * c + j] == CourtSeats(courts[c])[j]
  {
    PlayingSeatsLength(courts);
    var n := |courts| - 1;
    PlayingSeatsLength(courts[..n]);
    if c < n {
      PlayingSeatsAt(courts[..n], c, j);
    }
  }

  /** Seat `path` of the slot is position `SeatIndex(path)` of its seats. */
  lemma SeatAtIndex(slot: TimeSlot, path: PersonPath)
    requires ValidPath(slot, path)
    ensures SeatIndex(slot, path) < |Seats(slot)|
    ensures Seats(slot)[SeatIndex(slot, path)] == SeatAt(slot, path)
  {
    PlayingSeatsLength(slot.courts);
    if path.Playing? {
      PlayingSeatsAt(slot.courts, path.iCourt, 2 * path.iPair + path.iPerson);
    }
  }

  /** Writing a seat changes exactly that position of the seats and keeps the
      shape of the slot. */
  lemma WithSeatSeats(slot: TimeSlot, path: PersonPath, x: PersonId)
    requires ValidPath(slot, path)
    ensures SeatIndex(slot, path) < |Seats(slot)|
    ensures |WithSeat(slot, path, x).courts| == |slot.courts|
    ensures |WithSeat(slot, path, x).bench| == |slot.bench|
    ensures Seats(WithSeat(slot, path, x)) == Seats(slot)[SeatIndex(slot, path) := x]
  {
    SeatAtIndex(slot, path);
    var slot' := WithSeat(slot, path, x);
    var s, s' := Seats(slot), Seats(slot');
    PlayingSeatsLength(slot.courts);
    PlayingSeatsLength(slot'.courts);
    forall k | 0 <= k < |s| ensures s'[k] == s[SeatIndex(slot, path) := x][k] {
      WithSeatAt(slot, path, x, k);
    }
  }

  /** Position `k` of the seats after writing one seat. */
  lemma WithSeatAt(slot: TimeSlot, path: PersonPath, x: PersonId, k: nat)
    requires ValidPath(slot, path) && k < 4 * |slot.courts| + |slot.bench|
    ensures SeatIndex(slot, path) < |Seats(slot)| && k < |Seats(slot)| && k < |Seats(WithSeat(slot, path, x))|
    ensures Seats(WithSeat(slot, path, x))[k] == Seats(slot)[SeatIndex(slot, path) := x][k]
  {
    SeatAtIndex(slot, path);
    var slot' := WithSeat(slot, path, x);
    PlayingSeatsLength(slot.courts);
    PlayingSeatsLength(slot'.courts);
    if k < 4 * |slot.courts| {
      WithSeatCourtAt(slot, path, x, k / 4, k % 4);
      CourtDigits(k, |slot.courts|);
    }
  }

  /** A court seat position splits into a court and a seat of that court. */
  lemma CourtDigits(k: nat, nCourts: nat)
    requires k < 4 * nCourts
    ensures k / 4 < nCourts && k % 4 < 4 && 4 * (k / 4) + k % 4 == k
  {}

  /** Seat `j` of court `c` after writing one seat. */
  lemma WithSeatCourtAt(slot: TimeSlot, path: PersonPath, x: PersonId, c: nat, j: nat)
    requires ValidPath(slot, path) && c < |slot.courts| && j < 4
    ensures SeatIndex(slot, path) < |Seats(slot)| && 4 * c + j < |Seats(slot)|
    ensures 4 * c + j < |Seats(WithSeat(slot, path, x))|
    ensures Seats(WithSeat(slot, path, x))[4 * c + j] == Seats(slot)[SeatIndex(slot, path) := x][4 * c + j]
  {
    SeatAtIndex(slot, path);
    var slot' := WithSeat(slot, path, x);
    PlayingSeatsLength(slot.courts);
    PlayingSeatsLength(slot'.courts);
    PlayingSeatsAt(slot.courts, c, j);
    PlayingSeatsAt(slot'.courts, c, j);
  }

  lemma {:induction false} PairSeatsAppend(a: seq<Pair>, b: seq<Pair>)
    ensures PairSeats(a + b) == PairSeats(a) + PairSeats(b)
  {
    if b == [] {
      assert a + b == a;
    } else {
      var b' := b[..|b| - 1];
      assert (a + b)[..|a + b| - 1] == a + b';
      PairSeatsAppend(a, b');
    }
  }

  lemma {:induction false} PairSeatsLength(pairs: seq<Pair>)
    ensures |PairSeats(pairs)| == 2 * |pairs|
  {
    if pairs != [] {
      PairSeatsLength(pairs[..|pairs| - 1]);
    }
  }

  /** Pair `i` sits in seats `2i` and `2i + 1`. */
  lemma {:induction false} PairSeatsAt(pairs: seq<Pair>, i: nat)
    requires i < |pairs|
    ensures 2 * i + 1 < |PairSeats(pairs)|
    ensures PairSeats(pairs)[2 * i] == pairs[i].first && PairSeats(pairs)[2 * i + 1] == pairs[i].second
  {
    PairSeatsLength(pairs);
    if i < |pairs| - 1 {
      PairSeatsAt(pairs[..|pairs| - 1], i);
    }
  }
}
