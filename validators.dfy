/**
 * The schedule checks of src/model/scheduling.ts: the squad of a slot and of
 * a schedule, the schedule's statistics, the sitting-out fairness rule and the
 * no-duplicate-pairs rule.
 */
module Validators {
  import opened Collections
  import opened ScheduleModel
  import opened PairKeys

  predicate Sorted(s: seq<int>) {
    forall i, j :: 0 <= i < j < |s| ==> s[i] <= s[j]
  }

  /** Two sorted sequences, the first wholly below the second, concatenate
      to a sorted one. */
  lemma SortedConcat(a: seq<int>, b: seq<int>)
    requires Sorted(a) && Sorted(b)
    requires forall i, k :: 0 <= i < |a| && 0 <= k < |b| ==> a[i] <= b[k]
    ensures Sorted(a + b)
  {
    forall i, k | 0 <= i < k < |a + b| ensures (a + b)[i] <= (a + b)[k] {
      if k < |a| {
        assert (a + b)[i] == a[i] && (a + b)[k] == a[k];
      } else if i >= |a| {
        assert (a + b)[i] == b[i - |a|] && (a + b)[k] == b[k - |a|];
      } else {
        assert (a + b)[i] == a[i] && (a + b)[k] == b[k - |a|];
      }
    }
  }

  /** Inserting `x` at a position between the elements below it and the
      elements above it keeps a sequence sorted. */
  lemma InsertSorted(s: seq<int>, j: nat, x: int)
    requires Sorted(s) && j <= |s|
    requires forall k :: 0 <= k < j ==> s[k] <= x
    requires j < |s| ==> x < s[j]
    ensures Sorted(s[..j] + [x] + s[j..])
  {
    var t := s[..j] + [x] + s[j..];
    InsertedAt(s, j, x);
    forall i, k | 0 <= i < k < |t| ensures t[i] <= t[k] {
      if k < j {
        assert t[i] == s[i] && t[k] == s[k];
      } else if k == j {
        assert t[i] == s[i];
      } else if i < j {
        assert t[i] == s[i] && t[k] == s[k - 1] && s[j] <= s[k - 1];
      } else if i == j {
        assert t[k] == s[k - 1] && s[j] <= s[k - 1];
      } else {
        assert t[i] == s[i - 1] && t[k] == s[k - 1];
      }
    }
  }

  /** Inserting adds one copy of `x`. */
  lemma InsertPermutes(s: seq<int>, j: nat, x: int)
    requires j <= |s|
    ensures multiset(s[..j] + [x] + s[j..]) == multiset(s) + multiset{x}
  {
    assert s == s[..j] + s[j..];
  }

  /** The positions of `s` with `x` inserted at `j`. */
  lemma InsertedAt(s: seq<int>, j: nat, x: int)
    requires j <= |s|
    ensures var t := s[..j] + [x] + s[j..];
      && |t| == |s| + 1 && t[j] == x
      && (forall i :: 0 <= i < j ==> t[i] == s[i])
      && (forall i :: j < i < |t| ==> t[i] == s[i - 1])
  {}

  /** `array.sort((a, b) => a - b)`: ascending numeric order. */
  method SortAscending(xs: seq<PersonId>) returns (sorted: seq<PersonId>)
    ensures Sorted(sorted) && multiset(sorted) == multiset(xs)
  {
    sorted := [];
    var i := 0;
    while i < |xs|
      invariant 0 <= i <= |xs|
      invariant Sorted(sorted) && multiset(sorted) == multiset(xs[..i])
    {
      var x := xs[i];
      var j := 0;
      while j < |sorted| && sorted[j] <= x
        invariant 0 <= j <= |sorted|
        invariant forall k :: 0 <= k < j ==> sorted[k] <= x
      {
        j := j + 1;
      }
      InsertSorted(sorted, j, x);
      InsertPermutes(sorted, j, x);
      sorted := sorted[..j] + [x] + sorted[j..];
      PrefixSnoc(xs, i);
      i := i + 1;
    }
    assert xs[..i] == xs;
  }

  /** Two sorted sequences with the same elements are equal. */
  lemma {:induction false} SortedUnique(a: seq<int>, b: seq<int>)
    requires Sorted(a) && Sorted(b) && multiset(a) == multiset(b)
    ensures a == b
  {
    assert |a| == |multiset(a)| == |multiset(b)| == |b|;
    if a != [] {
      SortedHeads(a, b);
      assert a == [a[0]] + a[1..] && b == [b[0]] + b[1..];
      assert multiset(a[1..]) == multiset(a) - multiset{a[0]};
      assert multiset(b[1..]) == multiset(b) - multiset{b[0]};
      SortedUnique(a[1..], b[1..]);
    }
  }

  /** Both start with the least element. */
  lemma SortedHeads(a: seq<int>, b: seq<int>)
    requires Sorted(a) && Sorted(b) && multiset(a) == multiset(b) && a != [] && b != []
    ensures a[0] == b[0]
  {
    assert a[0] in multiset(b) && b[0] in multiset(a);
    var i :| 0 <= i < |b| && b[i] == a[0];
    var j :| 0 <= j < |a| && a[j] == b[0];
    assert b[0] <= b[i] && a[0] <= a[j];
  }

  /** `squadOfSlot(slot)`: everyone seated in the slot, in ascending order. */
  method SquadOfSlot(slot: TimeSlot) returns (squad: seq<PersonId>)
    ensures Sorted(squad) && multiset(squad) == multiset(Seats(slot))
  {
    var seated: seq<PersonId> := [];
    var i := 0;
    while i < |slot.courts|
      invariant 0 <= i <= |slot.courts|
      invariant seated == PlayingSeats(slot.courts[..i])
    {
      var court := slot.courts[i];
      PrefixOfPrefix(slot.courts, i, i + 1);
      seated := seated + [court.pair0.first, court.pair0.second, court.pair1.first, court.pair1.second];
      i := i + 1;
    }
    assert slot.courts[..i] == slot.courts;
    seated := seated + slot.bench;
    squad := SortAscending(seated);
  }

  /** `sortedSquadsEqual(squad1, squad2)`: same length and the same element
      at every position. */
  function SortedSquadsEqual(squad1: seq<PersonId>, squad2: seq<PersonId>): (r: bool)
    ensures r <==> squad1 == squad2
  {
    |squad1| == |squad2| && forall i :: 0 <= i < |squad1| ==> squad1[i] == squad2[i]
  }

  /** On sorted squads the comparison decides whether they hold the same people. */
  lemma SortedSquadsEqualSamePeople(squad1: seq<PersonId>, squad2: seq<PersonId>)
    requires Sorted(squad1) && Sorted(squad2)
    ensures SortedSquadsEqual(squad1, squad2) <==> multiset(squad1) == multiset(squad2)
  {
    if multiset(squad1) == multiset(squad2) {
      SortedUnique(squad1, squad2);
    }
  }

  /** Every slot seats the same people as slot 0. */
  ghost predicate SameSquads(timeSlots: seq<TimeSlot>)
    requires timeSlots != []
  {
    forall i :: 0 <= i < |timeSlots| ==> multiset(Seats(timeSlots[i])) == multiset(Seats(timeSlots[0]))
  }

  /**
   * `squadOfSchedule(schedule)`: the squad of slot 0, after checking that each
   * later slot has the same squad. Without slots the source runs into a
   * TypeError.
   */
  method SquadOfSchedule(schedule: Schedule) returns (r: Result<seq<PersonId>>)
    ensures schedule.timeSlots == [] ==> r == Err(NoSlots)
    ensures schedule.timeSlots != [] ==>
      (r.Ok? <==> SameSquads(schedule.timeSlots)) && (r.Err? ==> r.error == InconsistentSquads)
    ensures r.Ok? ==> (schedule.timeSlots != [] &&
                       Sorted(r.value) && multiset(r.value) == multiset(Seats(schedule.timeSlots[0])))
  {
    var timeSlots := schedule.timeSlots;
    if timeSlots == [] {
      return Err(NoSlots);
    }
    var squad := SquadOfSlot(timeSlots[0]);
    var i := 1;
    while i < |timeSlots|
      invariant 1 <= i <= |timeSlots|
      invariant forall k :: 0 <= k < i ==> multiset(Seats(timeSlots[k])) == multiset(Seats(timeSlots[0]))
    {
      var checkSquad := SquadOfSlot(timeSlots[i]);
      SortedSquadsEqualSamePeople(checkSquad, squad);
      if !SortedSquadsEqual(checkSquad, squad) {
        return Err(InconsistentSquads);
      }
      i := i + 1;
    }
    return Ok(squad);
  }

  /** The result of `scheduleStats`. */
  datatype Stats = Stats(nSlots: nat, nCourts: nat, nPlaying: nat, nSittingOut: nat, nPersons: nat)

  /** `scheduleStats(schedule)`: the counts of slot 0 and the number of slots.
      The source reads slot 0 without checking that it exists. */
  function ScheduleStats(schedule: Schedule): (stats: Stats)
    requires schedule.timeSlots != []
    ensures var slot := schedule.timeSlots[0];
      && stats.nSlots == |schedule.timeSlots|
      && stats.nCourts == |slot.courts|
      && stats.nPlaying == |PlayingSeats(slot.courts)|
      && stats.nSittingOut == |slot.bench|
      && stats.nPersons == |Seats(slot)|
  {
    var slot := schedule.timeSlots[0];
    var nCourts := |slot.courts|;
    var nPlaying := nCourts * 4;
    var nSittingOut := |slot.bench|;
    PlayingSeatsLength(slot.courts);
    Stats(|schedule.timeSlots|, nCourts, nPlaying, nSittingOut, nPlaying + nSittingOut)
  }

  /** `Math.floor(nSittingOut * nSlots / nPersons)`, exact on integers. With no
      persons there is nobody to compare it with. */
  function FairFloor(stats: Stats): nat {
    if stats.nPersons == 0 then 0 else (stats.nSittingOut * stats.nSlots) / stats.nPersons
  }

  /** `Math.ceil(nSittingOut * nSlots / nPersons)`, exact on integers. */
  function FairCeil(stats: Stats): nat {
    if stats.nPersons == 0 then 0 else (stats.nSittingOut * stats.nSlots + stats.nPersons - 1) / stats.nPersons
  }

  /** The two thresholds are the floor and the ceiling of the fair share
      `nSittingOut * nSlots / nPersons`. */
  lemma FairBounds(stats: Stats)
    requires stats.nPersons > 0
    ensures var a, b := stats.nSittingOut * stats.nSlots, stats.nPersons;
      && FairFloor(stats) * b <= a < (FairFloor(stats) + 1) * b
      && (FairCeil(stats) - 1) * b < a <= FairCeil(stats) * b
  {
    var a, b := stats.nSittingOut * stats.nSlots, stats.nPersons;
    var f, c := a / b, (a + b - 1) / b;
    assert a == f * b + a % b;
    assert a + b - 1 == c * b + (a + b - 1) % b;
    MulSuccessor(f, b);
    MulPredecessor(c, b);
  }

  lemma MulSuccessor(f: int, b: int)
    ensures (f + 1) * b == f * b + b
  {}

  lemma MulPredecessor(c: int, b: int)
    ensures (c - 1) * b == c * b - b
  {}

  /** How often `p` sits out over the given slots. */
  ghost function TimesBenched(timeSlots: seq<TimeSlot>, p: PersonId): nat {
    if timeSlots == [] then 0
    else TimesBenched(timeSlots[..|timeSlots| - 1], p) + multiset(timeSlots[|timeSlots| - 1].bench)[p]
  }

  datatype SubKind = TooFew | TooMany

  /** `{kind: "sitting-out-fairness", personId, subKind}` */
  datatype SittingOutFairnessViolation = SittingOutFairnessViolation(personId: PersonId, subKind: SubKind)

  /** The counter of sitting-out slots has one entry per squad member and
      counts the benches seen so far. */
  ghost predicate CountsBenches(counts: map<PersonId, nat>, squad: seq<PersonId>, timeSlots: seq<TimeSlot>,
                                bench: seq<PersonId>)
  {
    && (forall p :: p in counts <==> p in squad)
    && (forall p :: p in counts ==> counts[p] == TimesBenched(timeSlots, p) + multiset(bench)[p])
  }

  /**
   * `sittingOutFairnessViolations(schedule)`: with the squad checked by
   * `squadOfSchedule`, counts how often each member sits out and flags those
   * below the floor of the fair share as too few and those above its ceiling
   * as too many.
   */
  method SittingOutFairnessViolations(schedule: Schedule) returns (r: Result<seq<SittingOutFairnessViolation>>)
    ensures r.Err? <==> schedule.timeSlots == [] || !SameSquads(schedule.timeSlots)
    ensures r.Err? ==> r.error == (if schedule.timeSlots == [] then NoSlots else InconsistentSquads)
    ensures r.Ok? ==> schedule.timeSlots != [] && Distinct(r.value)
    ensures r.Ok? ==> forall v :: v in r.value ==> v.personId in Seats(schedule.timeSlots[0])
    ensures r.Ok? ==> forall p :: p in Seats(schedule.timeSlots[0]) ==>
      var stats := ScheduleStats(schedule);
      && (SittingOutFairnessViolation(p, TooFew) in r.value <==> TimesBenched(schedule.timeSlots, p) < FairFloor(stats))
      && (SittingOutFairnessViolation(p, TooMany) in r.value <==> TimesBenched(schedule.timeSlots, p) > FairCeil(stats))
  {
    var squadOrErr := SquadOfSchedule(schedule);
    if squadOrErr.Err? {
      return Err(squadOrErr.error);
    }
    var squad := squadOrErr.value;
    var stats := ScheduleStats(schedule);
    var minNSlots := FairFloor(stats);
    var maxNSlots := FairCeil(stats);
    var nSlotsSittingOut := CountSittingOut(schedule.timeSlots, squad);
    // The map iterates its keys in the order they were first inserted.
    var order := Dedup(squad);
    var violations := FlagSittingOut(order, nSlotsSittingOut, minNSlots, maxNSlots);
    SquadMembers(squad, Seats(schedule.timeSlots[0]));
    return Ok(violations);
  }

  /** The counting loops of `sittingOutFairnessViolations`, starting from
      `new Map(squad.map(personId => [personId, 0]))`. */
  method CountSittingOut(timeSlots: seq<TimeSlot>, squad: seq<PersonId>) returns (nSlotsSittingOut: map<PersonId, nat>)
    requires timeSlots != [] && SameSquads(timeSlots)
    requires multiset(squad) == multiset(Seats(timeSlots[0]))
    ensures forall p :: p in nSlotsSittingOut <==> p in squad
    ensures forall p :: p in nSlotsSittingOut ==> nSlotsSittingOut[p] == TimesBenched(timeSlots, p)
  {
    nSlotsSittingOut := map p | p in squad :: 0;
    var i := 0;
    while i < |timeSlots|
      invariant 0 <= i <= |timeSlots|
      invariant CountsBenches(nSlotsSittingOut, squad, timeSlots[..i], [])
    {
      nSlotsSittingOut := CountBench(nSlotsSittingOut, squad, timeSlots, i);
      PrefixOfPrefix(timeSlots, i, i + 1);
      i := i + 1;
    }
    assert timeSlots[..i] == timeSlots;
  }

  /** The inner counting loop: one more slot's bench. */
  method CountBench(counts: map<PersonId, nat>, squad: seq<PersonId>, timeSlots: seq<TimeSlot>, i: nat)
    returns (counts': map<PersonId, nat>)
    requires timeSlots != [] && SameSquads(timeSlots)
    requires multiset(squad) == multiset(Seats(timeSlots[0]))
    requires i < |timeSlots| && CountsBenches(counts, squad, timeSlots[..i], [])
    ensures CountsBenches(counts', squad, timeSlots[..i], timeSlots[i].bench)
  {
    counts' := counts;
    var bench := timeSlots[i].bench;
    var j := 0;
    while j < |bench|
      invariant 0 <= j <= |bench|
      invariant CountsBenches(counts', squad, timeSlots[..i], bench[..j])
    {
      var personId := bench[j];
      BenchedInSquad(timeSlots, squad, i, j);
      if personId !in counts' {
        // "person from bench not found in squad": every slot seats the squad.
        assert false;
      }
      PrefixSnoc(bench, j);
      counts' := counts'[personId := counts'[personId] + 1];
      j := j + 1;
    }
    assert bench[..j] == bench;
  }

  /** The reporting loop of `sittingOutFairnessViolations` over the counter's
      entries. */
  method FlagSittingOut(order: seq<PersonId>, nSlotsSittingOut: map<PersonId, nat>, minNSlots: nat, maxNSlots: nat)
    returns (violations: seq<SittingOutFairnessViolation>)
    requires Distinct(order) && forall p :: p in order ==> p in nSlotsSittingOut
    ensures Distinct(violations)
    ensures forall v :: v in violations ==> v.personId in order
    ensures forall p :: p in order ==>
      && (SittingOutFairnessViolation(p, TooFew) in violations <==> nSlotsSittingOut[p] < minNSlots)
      && (SittingOutFairnessViolation(p, TooMany) in violations <==> nSlotsSittingOut[p] > maxNSlots)
  {
    violations := [];
    var k := 0;
    while k < |order|
      invariant 0 <= k <= |order|
      invariant Distinct(violations)
      invariant forall v :: v in violations ==> v.personId in order[..k]
      invariant forall p :: p in order[..k] ==>
        && (SittingOutFairnessViolation(p, TooFew) in violations <==> nSlotsSittingOut[p] < minNSlots)
        && (SittingOutFairnessViolation(p, TooMany) in violations <==> nSlotsSittingOut[p] > maxNSlots)
    {
      var personId := order[k];
      var nSlots := nSlotsSittingOut[personId];
      NextUnseen(order, k);
      if nSlots < minNSlots {
        DistinctConcat(violations, [SittingOutFairnessViolation(personId, TooFew)]);
        violations := violations + [SittingOutFairnessViolation(personId, TooFew)];
      }
      if nSlots > maxNSlots {
        DistinctConcat(violations, [SittingOutFairnessViolation(personId, TooMany)]);
        violations := violations + [SittingOutFairnessViolation(personId, TooMany)];
      }
      k := k + 1;
    }
    assert order[..k] == order;
  }

  /** The next entry of a distinct sequence has not been visited yet. */
  lemma NextUnseen<T>(order: seq<T>, k: nat)
    requires Distinct(order) && k < |order|
    ensures order[k] !in order[..k] && order[..k + 1] == order[..k] + [order[k]]
  {
    PrefixSnoc(order, k);
    DistinctSlice(order, 0, k + 1);
    DistinctConcat(order[..k], [order[k]]);
  }

  /** Whoever sits out in a slot of a schedule with one squad is in the squad. */
  lemma BenchedInSquad(timeSlots: seq<TimeSlot>, squad: seq<PersonId>, i: nat, j: nat)
    requires timeSlots != [] && SameSquads(timeSlots)
    requires multiset(squad) == multiset(Seats(timeSlots[0]))
    requires i < |timeSlots| && j < |timeSlots[i].bench|
    ensures timeSlots[i].bench[j] in squad
  {
    var slot := timeSlots[i];
    var p := slot.bench[j];
    assert Seats(slot)[|PlayingSeats(slot.courts)| + j] == p;
    assert p in multiset(Seats(slot));
    assert p in multiset(squad);
  }

  /** Sequences with the same multiset have the same members. */
  lemma SquadMembers(a: seq<PersonId>, b: seq<PersonId>)
    requires multiset(a) == multiset(b)
    ensures forall p :: p in a <==> p in b
  {
    forall p ensures p in a <==> p in b {
      assert p in a <==> p in multiset(a);
      assert p in b <==> p in multiset(b);
    }
  }

  /** The pairs of a list of courts in visiting order: each court's first pair,
      then its second. */
  function CourtPairs(courts: seq<Court>): seq<Pair> {
    if courts == [] then [] else CourtPairs(courts[..|courts| - 1]) + [courts[|courts| - 1].pair0, courts[|courts| - 1].pair1]
  }

  /** Every pair of the schedule, slot by slot. */
  function SchedulePairs(timeSlots: seq<TimeSlot>): seq<Pair> {
    if timeSlots == [] then [] else SchedulePairs(timeSlots[..|timeSlots| - 1]) + CourtPairs(timeSlots[|timeSlots| - 1].courts)
  }

  /** Two pairs name the same two people, in either order. */
  predicate SamePeople(p: Pair, q: Pair) {
    multiset{p.first, p.second} == multiset{q.first, q.second}
  }

  /** The key of each pair: two keys agree exactly when their pairs hold the
      same two people. */
  function KeysOf(pairs: seq<Pair>): (keys: seq<string>)
    ensures |keys| == |pairs|
    ensures forall i, j {:trigger SamePeople(pairs[i], pairs[j])} :: 0 <= i < |pairs| && 0 <= j < |pairs| ==>
      (keys[i] == keys[j] <==> SamePeople(pairs[i], pairs[j]))
  {
    KeysAgree(pairs);
    seq(|pairs|, i requires 0 <= i < |pairs| => PairKeyFromIds(pairs[i]))
  }

  lemma KeysAgree(pairs: seq<Pair>)
    ensures forall i, j :: 0 <= i < |pairs| && 0 <= j < |pairs| ==>
      (PairKeyFromIds(pairs[i]) == PairKeyFromIds(pairs[j]) <==> SamePeople(pairs[i], pairs[j]))
  {
    forall i, j | 0 <= i < |pairs| && 0 <= j < |pairs|
      ensures PairKeyFromIds(pairs[i]) == PairKeyFromIds(pairs[j]) <==> SamePeople(pairs[i], pairs[j])
    {
      PairKeyInjective(pairs[i], pairs[j]);
    }
  }

  lemma KeysOfSnoc(pairs: seq<Pair>, pair: Pair)
    ensures KeysOf(pairs + [pair]) == KeysOf(pairs) + [PairKeyFromIds(pair)]
  {
    assert forall i :: 0 <= i < |pairs| ==> (pairs + [pair])[i] == pairs[i];
  }

  /** `{kind: "no-duplicate-pairs", pairKey}` */
  datatype NoDuplicatePairsViolation = NoDuplicatePairsViolation(pairKey: string)

  /** A counter held in a JavaScript `Map`: its keys in insertion order, and
      for each key how often it occurs in `keys`. */
  ghost predicate Tallies<K(!new)>(nTimes: map<K, nat>, order: seq<K>, keys: seq<K>) {
    && order == Dedup(keys)
    && Distinct(order)
    && (forall k :: k in nTimes <==> k in order)
    && (forall k :: multiset(keys)[k] == if k in nTimes then nTimes[k] else 0)
  }

  /** `nTimesPaired.set(pairKey, (nTimesPaired.get(pairKey) ?? 0) + 1)` */
  method CountKey<K(!new)>(nTimes: map<K, nat>, order: seq<K>, key: K, ghost seen: seq<K>)
    returns (nTimes': map<K, nat>, order': seq<K>)
    requires Tallies(nTimes, order, seen)
    ensures Tallies(nTimes', order', seen + [key])
  {
    var n := if key in nTimes then nTimes[key] else 0;
    nTimes' := nTimes[key := n + 1];
    DedupSnoc(seen, key);
    if key in nTimes {
      order' := order;
    } else {
      DistinctConcat(order, [key]);
      order' := order + [key];
    }
  }

  /** The two inner loops of `noDuplicatePairsViolations` over the courts of
      one slot; the loop over the two pairs of a court is unrolled. */
  method CountCourts(nTimesPaired: map<string, nat>, order: seq<string>, courts: seq<Court>, ghost seen: seq<string>)
    returns (nTimesPaired': map<string, nat>, order': seq<string>)
    requires Tallies(nTimesPaired, order, seen)
    ensures Tallies(nTimesPaired', order', seen + CourtKeys(courts))
  {
    nTimesPaired', order' := nTimesPaired, order;
    var iCourt := 0;
    assert seen + CourtKeys(courts[..0]) == seen by {
      assert courts[..0] == [];
    }
    while iCourt < |courts|
      invariant 0 <= iCourt <= |courts|
      invariant Tallies(nTimesPaired', order', seen + CourtKeys(courts[..iCourt]))
    {
      var court := courts[iCourt];
      ghost var before := seen + CourtKeys(courts[..iCourt]);
      PrefixOfPrefix(courts, iCourt, iCourt + 1);
      AppendTwo(seen, CourtKeys(courts[..iCourt]), PairKeyFromIds(court.pair0), PairKeyFromIds(court.pair1));
      nTimesPaired', order' := CountCourt(nTimesPaired', order', court, before);
      iCourt := iCourt + 1;
    }
    assert courts[..iCourt] == courts;
  }

  /** The loop over the two pairs of one court, unrolled. */
  method CountCourt(nTimesPaired: map<string, nat>, order: seq<string>, court: Court, ghost seen: seq<string>)
    returns (nTimesPaired': map<string, nat>, order': seq<string>)
    requires Tallies(nTimesPaired, order, seen)
    ensures Tallies(nTimesPaired', order', seen + [PairKeyFromIds(court.pair0)] + [PairKeyFromIds(court.pair1)])
  {
    nTimesPaired', order' := CountKey(nTimesPaired, order, PairKeyFromIds(court.pair0), seen);
    nTimesPaired', order' := CountKey(nTimesPaired', order', PairKeyFromIds(court.pair1), seen + [PairKeyFromIds(court.pair0)]);
  }

  /** The keys of a list of courts in visiting order. */
  function CourtKeys(courts: seq<Court>): seq<string> {
    if courts == [] then []
    else CourtKeys(courts[..|courts| - 1]) + [PairKeyFromIds(courts[|courts| - 1].pair0), PairKeyFromIds(courts[|courts| - 1].pair1)]
  }

  /** Keying the pairs of some courts after those already seen appends the
      keys of those courts. */
  lemma {:induction false} KeysOfCourts(seen: seq<Pair>, courts: seq<Court>)
    ensures KeysOf(seen + CourtPairs(courts)) == KeysOf(seen) + CourtKeys(courts)
    decreases |courts|
  {
    if courts != [] {
      var init, last := courts[..|courts| - 1], courts[|courts| - 1];
      KeysOfCourts(seen, init);
      var before := seen + CourtPairs(init);
      AppendTwo(seen, CourtPairs(init), last.pair0, last.pair1);
      KeysOfSnoc(before, last.pair0);
      KeysOfSnoc(before + [last.pair0], last.pair1);
      AppendTwo(KeysOf(seen), CourtKeys(init), PairKeyFromIds(last.pair0), PairKeyFromIds(last.pair1));
    }
  }

  /**
   * `noDuplicatePairsViolations(schedule)`: one violation for every pair key
   * met more than once, each reported once.
   */
  method NoDuplicatePairsViolations(schedule: Schedule) returns (violations: seq<NoDuplicatePairsViolation>)
    ensures Distinct(violations)
    ensures forall k :: NoDuplicatePairsViolation(k) in violations <==>
      multiset(KeysOf(SchedulePairs(schedule.timeSlots)))[k] > 1
    ensures violations == [] <==> Distinct(KeysOf(SchedulePairs(schedule.timeSlots)))
    ensures var keys := KeysOf(SchedulePairs(schedule.timeSlots)); violations == Duplicates(Dedup(keys), keys)
  {
    var nTimesPaired, order := CountPairs(schedule.timeSlots);
    violations := FlagDuplicates(order, nTimesPaired, KeysOf(SchedulePairs(schedule.timeSlots)));
    NoDuplicatesIff(KeysOf(SchedulePairs(schedule.timeSlots)), nTimesPaired, order, violations);
  }

  /** The counting loops of `noDuplicatePairsViolations`, starting from an
      empty `Map`. */
  method CountPairs(timeSlots: seq<TimeSlot>) returns (nTimesPaired: map<string, nat>, order: seq<string>)
    ensures Tallies(nTimesPaired, order, KeysOf(SchedulePairs(timeSlots)))
  {
    nTimesPaired, order := map[], [];
    var i := 0;
    assert KeysOf(SchedulePairs(timeSlots[..0])) == [] by {
      assert timeSlots[..0] == [];
    }
    while i < |timeSlots|
      invariant 0 <= i <= |timeSlots|
      invariant Tallies(nTimesPaired, order, KeysOf(SchedulePairs(timeSlots[..i])))
    {
      PrefixOfPrefix(timeSlots, i, i + 1);
      KeysOfCourts(SchedulePairs(timeSlots[..i]), timeSlots[i].courts);
      nTimesPaired, order := CountCourts(nTimesPaired, order, timeSlots[i].courts, KeysOf(SchedulePairs(timeSlots[..i])));
      i := i + 1;
    }
    assert timeSlots[..i] == timeSlots;
  }

  /** The reports, in the order of `order`, for its keys that occur more than
      once in `keys`. */
  ghost function Duplicates(order: seq<string>, keys: seq<string>): seq<NoDuplicatePairsViolation> {
    if order == [] then []
    else
      var key := order[|order| - 1];
      Duplicates(order[..|order| - 1], keys) + if multiset(keys)[key] > 1 then [NoDuplicatePairsViolation(key)] else []
  }

  lemma DuplicatesSnoc(order: seq<string>, k: nat, keys: seq<string>)
    requires k < |order|
    ensures Duplicates(order[..k + 1], keys) ==
      Duplicates(order[..k], keys) + if multiset(keys)[order[k]] > 1 then [NoDuplicatePairsViolation(order[k])] else []
  {
    PrefixOfPrefix(order, k, k + 1);
  }

  /** The reporting loop of `noDuplicatePairsViolations` over the counter's
      entries, in the `Map`'s insertion order. */
  method FlagDuplicates(order: seq<string>, nTimesPaired: map<string, nat>, ghost keys: seq<string>)
    returns (violations: seq<NoDuplicatePairsViolation>)
    requires Distinct(order)
    requires forall k :: k in order ==> k in nTimesPaired && nTimesPaired[k] == multiset(keys)[k]
    ensures Distinct(violations)
    ensures forall key :: NoDuplicatePairsViolation(key) in violations <==> key in order && nTimesPaired[key] > 1
    ensures violations == Duplicates(order, keys)
  {
    violations := [];
    var k := 0;
    while k < |order|
      invariant 0 <= k <= |order|
      invariant Distinct(violations)
      invariant forall key :: NoDuplicatePairsViolation(key) in violations <==>
        key in order[..k] && nTimesPaired[key] > 1
      invariant violations == Duplicates(order[..k], keys)
    {
      var pairKey := order[k];
      NextUnseen(order, k);
      DuplicatesSnoc(order, k, keys);
      if nTimesPaired[pairKey] > 1 {
        DistinctConcat(violations, [NoDuplicatePairsViolation(pairKey)]);
        violations := violations + [NoDuplicatePairsViolation(pairKey)];
      }
      k := k + 1;
    }
    assert order[..k] == order;
  }

  /** The reported keys are the repeated ones, and none are reported exactly
      when no key repeats. */
  lemma NoDuplicatesIff(keys: seq<string>, nTimesPaired: map<string, nat>, order: seq<string>,
                        violations: seq<NoDuplicatePairsViolation>)
    requires Tallies(nTimesPaired, order, keys)
    requires forall key :: NoDuplicatePairsViolation(key) in violations <==> key in order && nTimesPaired[key] > 1
    ensures forall k :: NoDuplicatePairsViolation(k) in violations <==> multiset(keys)[k] > 1
    ensures violations == [] <==> Distinct(keys)
  {
    DistinctIffCounts(keys);
    if violations != [] {
      var v := violations[0];
      assert v in violations;
      assert multiset(keys)[v.pairKey] > 1;
    }
  }

  /** No key repeats exactly when no two pairs hold the same two people. */
  lemma DistinctKeysIff(pairs: seq<Pair>)
    ensures Distinct(KeysOf(pairs)) <==>
      forall i, j :: 0 <= i < j < |pairs| ==> !SamePeople(pairs[i], pairs[j])
  {
    var keys := KeysOf(pairs);
    assert forall i, j :: 0 <= i < j < |pairs| ==> (keys[i] == keys[j] <==> SamePeople(pairs[i], pairs[j]));
  }
}
