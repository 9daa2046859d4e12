/**
 * Greedy pairing and schedule construction of src/model/scheduling.ts:
 * the two selection loops with reservoir tie-breaking, the counters they
 * consult, and `randomSchedule`, which draws one bench per slot, pairs the
 * remaining players and puts the pairs two to a court.
 */
module Pairing {
  import opened Collections
  import opened ScheduleModel
  import opened Sampling
  import opened Bench
  import opened PairKeys

  /**
   * `randomMaximalPerson`: a candidate with the largest count, ties broken by
   * reservoir sampling. A candidate without an entry reads as `undefined` in
   * the source, which compares false with every number, so it is never chosen.
   */
  method RandomMaximalPerson(nTimesFromPerson: map<PersonId, nat>, candidatePlayers: seq<PersonId>, rng: Random)
    returns (r: Result<PersonId>)
    modifies rng
    ensures r.Err? <==> forall c :: c in candidatePlayers ==> c !in nTimesFromPerson
    ensures r.Err? ==> r.error == NoPerson
    ensures r.Ok? ==> r.value in candidatePlayers && r.value in nTimesFromPerson
    ensures r.Ok? ==> forall c :: c in candidatePlayers && c in nTimesFromPerson ==>
      nTimesFromPerson[c] <= nTimesFromPerson[r.value]
  {
    var maxNTimes: int := -1;
    var chosenPersonId: Option<PersonId> := None;
    var nMinimalCandidates: nat := 0;
    var i := 0;
    while i < |candidatePlayers|
      invariant 0 <= i <= |candidatePlayers|
      invariant chosenPersonId.None? <==> forall c :: c in candidatePlayers[..i] ==> c !in nTimesFromPerson
      invariant chosenPersonId.None? ==> maxNTimes == -1
      invariant chosenPersonId.Some? ==> chosenPersonId.value in candidatePlayers[..i]
      invariant chosenPersonId.Some? ==>
        chosenPersonId.value in nTimesFromPerson && nTimesFromPerson[chosenPersonId.value] == maxNTimes
      invariant forall c :: c in candidatePlayers[..i] && c in nTimesFromPerson ==> nTimesFromPerson[c] <= maxNTimes
    {
      var candidate := candidatePlayers[i];
      PrefixSnoc(candidatePlayers, i);
      if candidate in nTimesFromPerson {
        var nTimes := nTimesFromPerson[candidate];
        if nTimes > maxNTimes {
          maxNTimes := nTimes;
          nMinimalCandidates := 0;
        }
        if nTimes == maxNTimes {
          nMinimalCandidates := nMinimalCandidates + 1;
          var j := rng.Below(nMinimalCandidates);
          if j == 0 {
            chosenPersonId := Some(candidate);
          }
        }
      }
      i := i + 1;
    }
    assert candidatePlayers[..i] == candidatePlayers;
    if chosenPersonId.None? {
      return Err(NoPerson);
    }
    return Ok(chosenPersonId.value);
  }

  /**
   * `randomMinimalPartner`: a candidate whose pair with `playerId` has the
   * smallest count, ties broken by reservoir sampling; `None` stands for the
   * source's initial `Infinity`.
   */
  method RandomMinimalPartner(nTimesFromPair: map<PairKey, nat>, playerId: PersonId,
                              candidatePartners: seq<PersonId>, rng: Random)
    returns (r: Result<PersonId>)
    modifies rng
    ensures r.Err? <==> forall c :: c in candidatePartners ==> KeyOf(Pair(playerId, c)) !in nTimesFromPair
    ensures r.Err? ==> r.error == NoPartner
    ensures r.Ok? ==> r.value in candidatePartners && KeyOf(Pair(playerId, r.value)) in nTimesFromPair
    ensures r.Ok? ==> forall c :: c in candidatePartners && KeyOf(Pair(playerId, c)) in nTimesFromPair ==>
      nTimesFromPair[KeyOf(Pair(playerId, r.value))] <= nTimesFromPair[KeyOf(Pair(playerId, c))]
  {
    var minNTimes: Option<nat> := None;
    var chosenPartnerId: Option<PersonId> := None;
    var nMinimalCandidates: nat := 0;
    var i := 0;
    while i < |candidatePartners|
      invariant 0 <= i <= |candidatePartners|
      invariant chosenPartnerId.None? <==> forall c :: c in candidatePartners[..i] ==> KeyOf(Pair(playerId, c)) !in nTimesFromPair
      invariant chosenPartnerId.None? <==> minNTimes.None?
      invariant chosenPartnerId.Some? ==> chosenPartnerId.value in candidatePartners[..i]
      invariant chosenPartnerId.Some? ==>
        && KeyOf(Pair(playerId, chosenPartnerId.value)) in nTimesFromPair
        && minNTimes == Some(nTimesFromPair[KeyOf(Pair(playerId, chosenPartnerId.value))])
      invariant minNTimes.Some? ==> forall c :: c in candidatePartners[..i] && KeyOf(Pair(playerId, c)) in nTimesFromPair ==>
        minNTimes.value <= nTimesFromPair[KeyOf(Pair(playerId, c))]
    {
      var candidate := candidatePartners[i];
      PrefixSnoc(candidatePartners, i);
      var pairKey := KeyOf(Pair(playerId, candidate));
      if pairKey in nTimesFromPair {
        var nTimes := nTimesFromPair[pairKey];
        if minNTimes.None? || nTimes < minNTimes.value {
          minNTimes := Some(nTimes);
          nMinimalCandidates := 0;
        }
        if minNTimes == Some(nTimes) {
          nMinimalCandidates := nMinimalCandidates + 1;
          var j := rng.Below(nMinimalCandidates);
          if j == 0 {
            chosenPartnerId := Some(candidate);
          }
        }
      }
      i := i + 1;
    }
    assert candidatePartners[..i] == candidatePartners;
    if chosenPartnerId.None? {
      return Err(NoPartner);
    }
    return Ok(chosenPartnerId.value);
  }

  /** `zeroNTimesFromPerson`: a zero count for every squad member. */
  method ZeroNTimesFromPerson(squad: seq<PersonId>) returns (nTimes: map<PersonId, nat>)
    ensures forall x :: x in squad ==> x in nTimes
    ensures forall x :: x in nTimes ==> x in squad && nTimes[x] == 0
  {
    nTimes := map[];
    var i := 0;
    while i < |squad|
      invariant 0 <= i <= |squad|
      invariant forall x :: x in squad[..i] ==> x in nTimes
      invariant forall x :: x in nTimes ==> x in squad[..i] && nTimes[x] == 0
    {
      PrefixSnoc(squad, i);
      nTimes := nTimes[squad[i] := 0];
      i := i + 1;
    }
    assert squad[..i] == squad;
  }

  /** Every pair of two different people of `people` has a counter. */
  ghost predicate CoversPairs(nTimes: map<PairKey, nat>, people: seq<PersonId>) {
    forall x, y :: x in people && y in people && x != y ==> KeyOf(Pair(x, y)) in nTimes
  }

  /** The keys of all pairs of two squad positions. */
  ghost function AllPairKeys(squad: seq<PersonId>): set<PairKey> {
    set a, b | 0 <= a < b < |squad| :: KeyOf(Pair(squad[a], squad[b]))
  }

  /** The keys of position `a` with each later position below `bEnd`. */
  ghost function RowKeys(squad: seq<PersonId>, a: nat, bEnd: nat): set<PairKey>
    requires a < |squad| && bEnd <= |squad|
    decreases bEnd
  {
    if bEnd <= a + 1 then {} else RowKeys(squad, a, bEnd - 1) + {KeyOf(Pair(squad[a], squad[bEnd - 1]))}
  }

  /** The keys of every pair whose first position is below `aEnd`. */
  ghost function KeysBefore(squad: seq<PersonId>, aEnd: nat): set<PairKey>
    requires aEnd <= |squad|
  {
    if aEnd == 0 then {} else KeysBefore(squad, aEnd - 1) + RowKeys(squad, aEnd - 1, |squad|)
  }

  lemma {:induction false} RowWitness(squad: seq<PersonId>, a: nat, bEnd: nat, k: PairKey) returns (b: nat)
    requires a < |squad| && bEnd <= |squad| && k in RowKeys(squad, a, bEnd)
    ensures a < b < bEnd && k == KeyOf(Pair(squad[a], squad[b]))
    decreases bEnd
  {
    if k in RowKeys(squad, a, bEnd - 1) {
      b := RowWitness(squad, a, bEnd - 1, k);
    } else {
      b := bEnd - 1;
    }
  }

  lemma {:induction false} KeyInRow(squad: seq<PersonId>, a: nat, b: nat, bEnd: nat)
    requires a < b < bEnd <= |squad|
    ensures KeyOf(Pair(squad[a], squad[b])) in RowKeys(squad, a, bEnd)
    decreases bEnd
  {
    if b < bEnd - 1 {
      KeyInRow(squad, a, b, bEnd - 1);
    }
  }

  lemma {:induction false} BeforeWitness(squad: seq<PersonId>, aEnd: nat, k: PairKey) returns (a: nat, b: nat)
    requires aEnd <= |squad| && k in KeysBefore(squad, aEnd)
    ensures a < b < |squad| && a < aEnd && k == KeyOf(Pair(squad[a], squad[b]))
  {
    if k in KeysBefore(squad, aEnd - 1) {
      a, b := BeforeWitness(squad, aEnd - 1, k);
    } else {
      a := aEnd - 1;
      b := RowWitness(squad, a, |squad|, k);
    }
  }

  lemma {:induction false} KeyInBefore(squad: seq<PersonId>, a: nat, b: nat, aEnd: nat)
    requires a < aEnd <= |squad| && a < b < |squad|
    ensures KeyOf(Pair(squad[a], squad[b])) in KeysBefore(squad, aEnd)
  {
    if a < aEnd - 1 {
      KeyInBefore(squad, a, b, aEnd - 1);
    } else {
      KeyInRow(squad, a, b, |squad|);
    }
  }

  /** The keys the nested loops of `zeroNTimesFromPair` visit are exactly the
      keys of all position pairs, and cover every two different squad members. */
  lemma AllKeysVisited(squad: seq<PersonId>, keys: set<PairKey>)
    requires keys == KeysBefore(squad, |squad|)
    ensures keys == AllPairKeys(squad)
    ensures forall x, y :: x in squad && y in squad && x != y ==> KeyOf(Pair(x, y)) in keys
  {
    forall k | k in KeysBefore(squad, |squad|) ensures k in AllPairKeys(squad) {
      var a, b := BeforeWitness(squad, |squad|, k);
    }
    forall k | k in AllPairKeys(squad) ensures k in KeysBefore(squad, |squad|) {
      var a, b :| 0 <= a < b < |squad| && k == KeyOf(Pair(squad[a], squad[b]));
      KeyInBefore(squad, a, b, |squad|);
    }
    forall x, y | x in squad && y in squad && x != y ensures KeyOf(Pair(x, y)) in AllPairKeys(squad) {
      var a :| 0 <= a < |squad| && squad[a] == x;
      var b :| 0 <= b < |squad| && squad[b] == y;
      assert KeyOf(Pair(x, y)) == KeyOf(Pair(y, x));
    }
  }

  /** Every count of `m` is zero. */
  ghost predicate AllZero<K>(m: map<K, nat>) {
    forall k :: k in m ==> m[k] == 0
  }

  lemma AllZeroAdd<K>(m: map<K, nat>, k: K)
    requires AllZero(m)
    ensures AllZero(m[k := 0]) && m[k := 0].Keys == m.Keys + {k}
  {}

  /** `zeroNTimesFromPair`: a zero count for the key of every two squad
      positions, and for nothing else. */
  method ZeroNTimesFromPair(squad: seq<PersonId>) returns (nTimes: map<PairKey, nat>)
    ensures nTimes.Keys == AllPairKeys(squad) && AllZero(nTimes)
    ensures CoversPairs(nTimes, squad)
  {
    nTimes := map[];
    var i1 := 0;
    while i1 < |squad|
      invariant 0 <= i1 <= |squad|
      invariant nTimes.Keys == KeysBefore(squad, i1) && AllZero(nTimes)
    {
      var id1 := squad[i1];
      var i2 := i1 + 1;
      while i2 < |squad|
        invariant i1 + 1 <= i2 <= |squad|
        invariant nTimes.Keys == KeysBefore(squad, i1) + RowKeys(squad, i1, i2) && AllZero(nTimes)
      {
        var id2 := squad[i2];
        var pairKey := KeyOf(Pair(id1, id2));
        AllZeroAdd(nTimes, pairKey);
        nTimes := nTimes[pairKey := 0];
        i2 := i2 + 1;
      }
      i1 := i1 + 1;
    }
    AllKeysVisited(squad, nTimes.Keys);
  }

  /** How many of `pairs` have the key `k`. */
  ghost function TimesPaired(pairs: seq<Pair>, k: PairKey): nat {
    if pairs == [] then 0
    else TimesPaired(pairs[..|pairs| - 1], k) + (if KeyOf(pairs[|pairs| - 1]) == k then 1 else 0)
  }

  /** `counts` is `base` raised, key by key, by the number of pairs of `pairs`
      with that key. */
  ghost predicate CountsPairs(counts: map<PairKey, nat>, base: map<PairKey, nat>, pairs: seq<Pair>) {
    && counts.Keys == base.Keys
    && forall k :: k in base ==> counts[k] == base[k] + TimesPaired(pairs, k)
  }

  /** Counting one more pair raises its counter, and only its counter, by one. */
  lemma CountPair(base: map<PairKey, nat>, pairs: seq<Pair>, pair: Pair, counts: map<PairKey, nat>)
    requires CountsPairs(counts, base, pairs) && KeyOf(pair) in counts
    ensures CountsPairs(counts[KeyOf(pair) := counts[KeyOf(pair)] + 1], base, pairs + [pair])
  {
    assert (pairs + [pair])[..|pairs|] == pairs;
  }

  /** The two members of a pair whose seats are distinct differ, and sit. */
  lemma PairMembers(pairs: seq<Pair>, i: nat)
    requires i < |pairs| && Distinct(PairSeats(pairs))
    ensures pairs[i].first != pairs[i].second
    ensures pairs[i].first in PairSeats(pairs) && pairs[i].second in PairSeats(pairs)
  {
    PairSeatsAt(pairs, i);
  }

  /** The pairs drawn so far and the pool left are, together, `players0`
      without repetition. */
  ghost predicate Pool(pairs: seq<Pair>, players: seq<PersonId>, players0: seq<PersonId>) {
    && Distinct(PairSeats(pairs) + players)
    && multiset(PairSeats(pairs) + players) == multiset(players0)
  }

  /** One pairing step on the seats: `p1` and `p2` move from the pool to the seats. */
  lemma PoolStep(seats: seq<PersonId>, players: seq<PersonId>, players0: seq<PersonId>, p1: PersonId, p2: PersonId)
    requires Distinct(seats + players) && multiset(seats + players) == multiset(players0)
    requires p1 in players && p2 in Without(players, [p1])
    ensures var rest := Without(Without(players, [p1]), [p2]);
      && Distinct(seats + [p1, p2] + rest)
      && multiset(seats + [p1, p2] + rest) == multiset(players0)
      && |rest| == |players| - 2
  {
    var rest1 := Without(players, [p1]);
    var rest2 := Without(rest1, [p2]);
    DistinctConcat(seats, players);
    WithoutDistinct(players, [p1]);
    PoolCounts(seats, players, p1, p2);
    DistinctPermutation(seats + players, seats + [p1, p2] + rest2);
  }

  /** Moving `p1` and `p2` from the pool to the seats keeps the people. */
  lemma PoolCounts(seats: seq<PersonId>, players: seq<PersonId>, p1: PersonId, p2: PersonId)
    requires Distinct(players) && p1 in players && Distinct(Without(players, [p1])) && p2 in Without(players, [p1])
    ensures var rest := Without(Without(players, [p1]), [p2]);
      && multiset(seats + [p1, p2] + rest) == multiset(seats + players)
      && |rest| == |players| - 2
  {
    var rest1 := Without(players, [p1]);
    var rest2 := Without(rest1, [p2]);
    WithoutExact(players, [p1]);
    WithoutExact(rest1, [p2]);
    assert multiset(players) == multiset(rest2) + multiset{p2} + multiset{p1};
  }

  lemma PairSeatsSnoc(pairs: seq<Pair>, pair: Pair)
    ensures PairSeats(pairs + [pair]) == PairSeats(pairs) + [pair.first, pair.second]
  {
    assert (pairs + [pair])[..|pairs|] == pairs;
  }

  /** One pairing step: `p1` and `p2` leave the pool and join the pairs. */
  lemma PairStep(pairs: seq<Pair>, players: seq<PersonId>, players0: seq<PersonId>, p1: PersonId, p2: PersonId)
    requires Pool(pairs, players, players0)
    requires p1 in players && p2 in Without(players, [p1])
    ensures Pool(pairs + [Pair(p1, p2)], Without(Without(players, [p1]), [p2]), players0)
    ensures |Without(Without(players, [p1]), [p2])| == |players| - 2
  {
    PoolStep(PairSeats(pairs), players, players0, p1, p2);
    PairSeatsSnoc(pairs, Pair(p1, p2));
  }

  /** The pairing loop of `randomSchedule`: `nPairs` pairs drawn from `players0`,
      counting each pair in `nTimesFromPair`. */
  method ChoosePairs(players0: seq<PersonId>, nPairs: nat, nTimesFromPerson: map<PersonId, nat>,
                     nTimesFromPair: map<PairKey, nat>, rng: Random)
    returns (r: Result<seq<Pair>>, nTimesFromPair': map<PairKey, nat>)
    requires Distinct(players0)
    requires forall x :: x in players0 ==> x in nTimesFromPerson
    requires CoversPairs(nTimesFromPair, players0)
    modifies rng
    ensures r.Err? <==> |players0| < 2 * nPairs
    ensures r.Err? ==> r.error == NoPerson || r.error == NoPartner
    ensures r.Ok? ==> |r.value| == nPairs && Distinct(PairSeats(r.value)) && Within(PairSeats(r.value), players0)
    ensures r.Ok? && |players0| == 2 * nPairs ==> multiset(PairSeats(r.value)) == multiset(players0)
    ensures nTimesFromPair'.Keys == nTimesFromPair.Keys
    ensures r.Ok? ==> CountsPairs(nTimesFromPair', nTimesFromPair, r.value)
  {
    var players := players0;
    var pairs: seq<Pair> := [];
    nTimesFromPair' := nTimesFromPair;
    var iPair := 0;
    assert PairSeats(pairs) + players == players0;
    while iPair != nPairs
      invariant 0 <= iPair <= nPairs && |pairs| == iPair
      invariant Pool(pairs, players, players0)
      invariant |players| == |players0| - 2 * iPair
      invariant CountsPairs(nTimesFromPair', nTimesFromPair, pairs)
    {
      var drawn;
      drawn, pairs, players, nTimesFromPair' :=
        PairTurn(pairs, players, players0, nTimesFromPerson, nTimesFromPair, nTimesFromPair', rng);
      if drawn.Err? {
        return Err(drawn.error), nTimesFromPair';
      }
      iPair := iPair + 1;
    }
    FinishPairs(pairs, players, players0);
    r := Ok(pairs);
  }

  /** One turn of the pairing loop: a pair is drawn from the pool, appended to
      the pairs and counted. */
  method PairTurn(pairs: seq<Pair>, players: seq<PersonId>, players0: seq<PersonId>,
                  nTimesFromPerson: map<PersonId, nat>, nTimesFromPair: map<PairKey, nat>,
                  nTimes: map<PairKey, nat>, rng: Random)
    returns (drawn: Result<Pair>, pairs': seq<Pair>, players': seq<PersonId>, nTimes': map<PairKey, nat>)
    requires Pool(pairs, players, players0)
    requires forall x :: x in players0 ==> x in nTimesFromPerson
    requires CoversPairs(nTimesFromPair, players0)
    requires CountsPairs(nTimes, nTimesFromPair, pairs)
    modifies rng
    ensures drawn.Err? <==> |players| < 2
    ensures drawn.Err? ==> drawn.error == NoPerson || drawn.error == NoPartner
    ensures nTimes'.Keys == nTimesFromPair.Keys
    ensures drawn.Ok? ==>
      && pairs' == pairs + [drawn.value]
      && Pool(pairs', players', players0)
      && |players'| == |players| - 2
      && CountsPairs(nTimes', nTimesFromPair, pairs')
  {
    pairs', players', nTimes' := pairs, players, nTimes;
    InPool(pairs, players, players0);
    CoversWithin(nTimesFromPair, nTimes, players, players0);
    drawn := DrawPair(players, nTimesFromPerson, nTimes, rng);
    if drawn.Err? {
      return;
    }
    var pair := drawn.value;
    PairStep(pairs, players, players0, pair.first, pair.second);
    CountPair(nTimesFromPair, pairs, pair, nTimes);
    players' := Without(Without(players, [pair.first]), [pair.second]);
    pairs' := pairs + [pair];
    var pairKey := KeyOf(pair);
    nTimes' := nTimes[pairKey := nTimes[pairKey] + 1];
  }

  /**
   * One pass of the pairing loop's body: the player with the largest count,
   * then the partner of the smallest pair count among the players left.
   */
  method DrawPair(players: seq<PersonId>, nTimesFromPerson: map<PersonId, nat>,
                  nTimesFromPair: map<PairKey, nat>, rng: Random) returns (r: Result<Pair>)
    requires Distinct(players)
    requires forall x :: x in players ==> x in nTimesFromPerson
    requires CoversPairs(nTimesFromPair, players)
    modifies rng
    ensures r.Err? <==> |players| < 2
    ensures r.Err? ==> r.error == NoPerson || r.error == NoPartner
    ensures r.Ok? ==> r.value.first in players && r.value.second in Without(players, [r.value.first])
    ensures r.Ok? ==> KeyOf(r.value) in nTimesFromPair
  {
    SomeoneCounted(players, players, nTimesFromPerson);
    var player1 := RandomMaximalPerson(nTimesFromPerson, players, rng);
    if player1.Err? {
      return Err(player1.error);
    }
    var p1 := player1.value;
    var playersLeft := Without(players, [p1]);
    SomePartnerCounted(p1, players, players, nTimesFromPair, nTimesFromPair);
    var player2 := RandomMinimalPartner(nTimesFromPair, p1, playersLeft, rng);
    if player2.Err? {
      return Err(player2.error);
    }
    return Ok(Pair(p1, player2.value));
  }

  /** A pool inside `players0` is covered by the counters that cover `players0`. */
  lemma CoversWithin(nTimes0: map<PairKey, nat>, nTimes: map<PairKey, nat>, players: seq<PersonId>, players0: seq<PersonId>)
    requires CoversPairs(nTimes0, players0) && Within(players, players0) && nTimes.Keys == nTimes0.Keys
    ensures CoversPairs(nTimes, players)
  {}

  /** The pool holds distinct original players. */
  lemma InPool(pairs: seq<Pair>, players: seq<PersonId>, players0: seq<PersonId>)
    requires Pool(pairs, players, players0)
    ensures Within(players, players0) && Distinct(players)
    ensures forall x :: x in players ==> x in players0
  {
    DistinctConcat(PairSeats(pairs), players);
    forall x | x in players ensures x in players0 {
      assert x in PairSeats(pairs) + players;
      assert multiset(PairSeats(pairs) + players)[x] > 0;
    }
  }

  /** When every candidate has a counter, a nonempty pool has a counted candidate. */
  lemma SomeoneCounted(players: seq<PersonId>, players0: seq<PersonId>, nTimes: map<PersonId, nat>)
    requires Within(players, players0)
    requires forall c :: c in players0 ==> c in nTimes
    ensures |players| > 0 ==> exists c :: c in players && c in nTimes
  {
    if |players| > 0 {
      var c := players[0];
      assert c in players;
    }
  }

  /** Once `p1` is taken from the pool, every partner left has a pair counter,
      so a nonempty remainder has a counted partner. */
  lemma SomePartnerCounted(p1: PersonId, players: seq<PersonId>, players0: seq<PersonId>,
                           nTimes0: map<PairKey, nat>, nTimes: map<PairKey, nat>)
    requires Within(players, players0) && Distinct(players) && p1 in players
    requires CoversPairs(nTimes0, players0) && nTimes.Keys == nTimes0.Keys
    ensures |Without(players, [p1])| == |players| - 1
    ensures |Without(players, [p1])| > 0 ==> exists c :: c in Without(players, [p1]) && KeyOf(Pair(p1, c)) in nTimes
  {
    var left := Without(players, [p1]);
    WithoutExact(players, [p1]);
    if |left| > 0 {
      var c := left[0];
      assert c in left;
      assert c in players0 && p1 in players0 && c != p1;
      assert KeyOf(Pair(p1, c)) in nTimes0;
    }
  }

  lemma FinishPairs(pairs: seq<Pair>, players: seq<PersonId>, players0: seq<PersonId>)
    requires Pool(pairs, players, players0)
    ensures Distinct(PairSeats(pairs)) && Within(PairSeats(pairs), players0)
    ensures players == [] ==> multiset(PairSeats(pairs)) == multiset(players0)
  {
    DistinctConcat(PairSeats(pairs), players);
    forall x | x in PairSeats(pairs) ensures x in players0 {
      assert x in PairSeats(pairs) + players;
      assert multiset(PairSeats(pairs) + players)[x] > 0;
    }
    if players == [] {
      assert PairSeats(pairs) + players == PairSeats(pairs);
    }
  }

  /** Two more pairs of the list are one more court. */
  lemma PairSeatsTwoMore(pairs: seq<Pair>, i: nat)
    requires 2 * i + 2 <= |pairs|
    ensures PairSeats(pairs[..2 * i + 2]) == PairSeats(pairs[..2 * i]) + CourtSeats(Court(pairs[2 * i], pairs[2 * i + 1]))
  {
    assert pairs[..2 * i + 2] == pairs[..2 * i] + [pairs[2 * i]] + [pairs[2 * i + 1]];
    PairSeatsSnoc(pairs[..2 * i], pairs[2 * i]);
    PairSeatsSnoc(pairs[..2 * i] + [pairs[2 * i]], pairs[2 * i + 1]);
  }

  lemma PlayingSeatsSnoc(courts: seq<Court>, court: Court)
    ensures PlayingSeats(courts + [court]) == PlayingSeats(courts) + CourtSeats(court)
  {
    assert (courts + [court])[..|courts|] == courts;
  }

  /** The court loop of `randomSchedule`: the pairs, two to a court, in order. */
  method CourtsOfPairs(pairs: seq<Pair>, nCourts: nat) returns (courtAllocations: seq<Court>)
    requires |pairs| == 2 * nCourts
    ensures |courtAllocations| == nCourts
    ensures forall c :: 0 <= c < nCourts ==> courtAllocations[c] == Court(pairs[2 * c], pairs[2 * c + 1])
    ensures PlayingSeats(courtAllocations) == PairSeats(pairs)
  {
    courtAllocations := [];
    var iCourt := 0;
    while iCourt != nCourts
      invariant 0 <= iCourt <= nCourts && |courtAllocations| == iCourt
      invariant forall c :: 0 <= c < iCourt ==> courtAllocations[c] == Court(pairs[2 * c], pairs[2 * c + 1])
      invariant PlayingSeats(courtAllocations) == PairSeats(pairs[..2 * iCourt])
    {
      var court := Court(pairs[2 * iCourt], pairs[2 * iCourt + 1]);
      PairSeatsTwoMore(pairs, iCourt);
      PlayingSeatsSnoc(courtAllocations, court);
      courtAllocations := courtAllocations + [court];
      iCourt := iCourt + 1;
    }
    assert pairs[..2 * iCourt] == pairs;
  }

  /** A slot as `randomSchedule` makes it: `nCourts` courts, a bench of `nBench`,
      and every one of `people` in exactly one seat. */
  ghost predicate SlotOf(slot: TimeSlot, people: seq<PersonId>, nCourts: nat, nBench: nat) {
    && |slot.courts| == nCourts && |slot.bench| == nBench
    && Distinct(Seats(slot)) && multiset(Seats(slot)) == multiset(people)
  }

  /** The benches of a list of slots. */
  function Benches(timeSlots: seq<TimeSlot>): seq<seq<PersonId>> {
    if timeSlots == [] then [] else Benches(timeSlots[..|timeSlots| - 1]) + [timeSlots[|timeSlots| - 1].bench]
  }

  /** The benches are the slots' benches, slot by slot. */
  lemma {:induction false} BenchesAt(timeSlots: seq<TimeSlot>, i: nat)
    ensures |Benches(timeSlots)| == |timeSlots|
    ensures i < |timeSlots| ==> Benches(timeSlots)[i] == timeSlots[i].bench
  {
    if timeSlots != [] {
      BenchesAt(timeSlots[..|timeSlots| - 1], i);
    }
  }

  /** The slot built from a bench and the pairs drawn from everyone else. */
  lemma SlotFromParts(people: seq<PersonId>, bench: seq<PersonId>, pairs: seq<Pair>, courts: seq<Court>, nCourts: nat)
    requires Distinct(people) && Distinct(bench) && Within(bench, people)
    requires |courts| == nCourts && PlayingSeats(courts) == PairSeats(pairs)
    requires multiset(PairSeats(pairs)) == multiset(Without(people, bench))
    ensures SlotOf(TimeSlot(courts, bench), people, nCourts, |bench|)
  {
    WithoutExact(people, bench);
    var seats := Seats(TimeSlot(courts, bench));
    assert seats == PairSeats(pairs) + bench;
    assert multiset(seats) == multiset(people);
    DistinctPermutation(people, seats);
  }

  /**
   * The body of the slot loop of `randomSchedule` once the bench is drawn:
   * everyone else is paired greedily and the pairs go two to a court. It
   * fails exactly when fewer than `4 * nCourts` people are left to play.
   */
  method FillSlot(people: seq<PersonId>, bench: seq<PersonId>, nCourts: nat,
                  nTimesFromPerson: map<PersonId, nat>, nTimesFromPair: map<PairKey, nat>, rng: Random)
    returns (r: Result<TimeSlot>, nTimesFromPair': map<PairKey, nat>)
    requires Distinct(people) && Distinct(bench) && Within(bench, people)
    requires forall x :: x in people ==> x in nTimesFromPerson
    requires CoversPairs(nTimesFromPair, people)
    modifies rng
    ensures r.Err? <==> |people| < |bench| + 4 * nCourts
    ensures r.Err? ==> r.error == NoPerson || r.error == NoPartner
    ensures r.Ok? ==> r.value.bench == bench && |r.value.courts| == nCourts
    ensures r.Ok? && |people| == |bench| + 4 * nCourts ==> SlotOf(r.value, people, nCourts, |bench|)
    ensures nTimesFromPair'.Keys == nTimesFromPair.Keys
  {
    var players := SetDifference(people, bench);
    WithoutExact(people, bench);
    WithoutDistinct(people, bench);
    CoversWithin(nTimesFromPair, nTimesFromPair, players, people);
    var pairs;
    pairs, nTimesFromPair' := ChoosePairs(players, 2 * nCourts, nTimesFromPerson, nTimesFromPair, rng);
    if pairs.Err? {
      return Err(pairs.error), nTimesFromPair';
    }
    var courtAllocations := CourtsOfPairs(pairs.value, nCourts);
    if |people| == |bench| + 4 * nCourts {
      SlotFromParts(people, bench, pairs.value, courtAllocations, nCourts);
    }
    return Ok(TimeSlot(courtAllocations, bench)), nTimesFromPair';
  }

  /** Every slot built so far is a slot of `people`. */
  ghost predicate SlotsSoFar(timeSlots: seq<TimeSlot>, people: seq<PersonId>, nCourts: nat, nBench: nat)
    decreases |timeSlots|
  {
    timeSlots != [] ==>
      && SlotsSoFar(timeSlots[..|timeSlots| - 1], people, nCourts, nBench)
      && SlotOf(timeSlots[|timeSlots| - 1], people, nCourts, nBench)
  }

  /** Slot `i` of the slots built so far. */
  lemma {:induction false} SlotsSoFarAt(timeSlots: seq<TimeSlot>, people: seq<PersonId>, nCourts: nat, nBench: nat, i: nat)
    requires SlotsSoFar(timeSlots, people, nCourts, nBench) && i < |timeSlots|
    ensures SlotOf(timeSlots[i], people, nCourts, nBench)
    decreases |timeSlots|
  {
    if i < |timeSlots| - 1 {
      SlotsSoFarAt(timeSlots[..|timeSlots| - 1], people, nCourts, nBench, i);
    }
  }

  /** Neighbouring benches share nobody. */
  ghost predicate Rotates(benches: seq<seq<PersonId>>)
    decreases |benches|
  {
    |benches| > 1 ==>
      Rotates(benches[..|benches| - 1]) && Disjoint(benches[|benches| - 2], benches[|benches| - 1])
  }

  /** Benches `i` and `i + 1` of a rotation. */
  lemma {:induction false} RotatesAt(benches: seq<seq<PersonId>>, i: nat)
    requires Rotates(benches) && i + 1 < |benches|
    ensures Disjoint(benches[i], benches[i + 1])
    decreases |benches|
  {
    if i + 2 < |benches| {
      RotatesAt(benches[..|benches| - 1], i);
    }
  }

  /** One more slot. */
  lemma SlotsSnoc(timeSlots: seq<TimeSlot>, slot: TimeSlot, people: seq<PersonId>, nCourts: nat, nBench: nat)
    requires SlotsSoFar(timeSlots, people, nCourts, nBench) && SlotOf(slot, people, nCourts, nBench)
    ensures SlotsSoFar(timeSlots + [slot], people, nCourts, nBench)
  {
    assert (timeSlots + [slot])[..|timeSlots|] == timeSlots;
  }

  /** One more bench: one more call in the trace of the bench generator, and
      one more neighbour to be disjoint from. */
  lemma BenchesSnoc(benches: seq<seq<PersonId>>, bench: seq<PersonId>, people: seq<PersonId>, nBench: nat,
                    queues: seq<seq<PersonId>>, q': seq<PersonId>)
    requires Trace(people, nBench, queues, benches) && Rotates(benches)
    requires BenchStep(people, nBench, queues[|queues| - 1], bench, q')
    requires |benches| > 0 ==> Disjoint(benches[|benches| - 1], bench)
    ensures Trace(people, nBench, queues + [q'], benches + [bench]) && Rotates(benches + [bench])
  {
    TraceSnoc(people, nBench, queues, benches, q', bench);
    assert (benches + [bench])[..|benches|] == benches;
  }

  /** The benches of one more slot. */
  lemma BenchesOfSnoc(timeSlots: seq<TimeSlot>, slot: TimeSlot)
    ensures Benches(timeSlots + [slot]) == Benches(timeSlots) + [slot.bench]
  {
    assert (timeSlots + [slot])[..|timeSlots|] == timeSlots;
  }

  /** Neighbouring slots of a rotating schedule have disjoint benches. */
  lemma RotatingSlots(timeSlots: seq<TimeSlot>)
    requires Rotates(Benches(timeSlots))
    ensures forall i, j :: 0 <= i && j == i + 1 && j < |timeSlots| ==> Disjoint(timeSlots[i].bench, timeSlots[j].bench)
  {
    forall i: nat, j | j == i + 1 && j < |timeSlots| ensures Disjoint(timeSlots[i].bench, timeSlots[j].bench) {
      RotatingSlotAt(timeSlots, i);
    }
  }

  /** Slots `i` and `i + 1` of a rotating schedule have disjoint benches. */
  lemma RotatingSlotAt(timeSlots: seq<TimeSlot>, i: nat)
    requires Rotates(Benches(timeSlots)) && i + 1 < |timeSlots|
    ensures Disjoint(timeSlots[i].bench, timeSlots[i + 1].bench)
  {
    BenchesAt(timeSlots, i);
    BenchesAt(timeSlots, i + 1);
    RotatesAt(Benches(timeSlots), i);
  }

  /** A trace grown by one more call. */
  lemma TraceSnoc(squad: seq<PersonId>, k: nat, queues: seq<seq<PersonId>>, benches: seq<seq<PersonId>>,
                  q': seq<PersonId>, bench: seq<PersonId>)
    requires Trace(squad, k, queues, benches)
    requires BenchStep(squad, k, queues[|queues| - 1], bench, q')
    ensures Trace(squad, k, queues + [q'], benches + [bench])
  {
    assert (queues + [q'])[..|benches| + 1] == queues;
    assert (benches + [bench])[..|benches|] == benches;
  }

  /** The squad without repetition: what the bench generator and the pairing
      draw from, and the squad itself when it has no duplicates. */
  lemma SquadPeople(squad: seq<PersonId>, nTimesFromPerson: map<PersonId, nat>, nTimesFromPair: map<PairKey, nat>)
    requires forall x :: x in squad ==> x in nTimesFromPerson
    requires CoversPairs(nTimesFromPair, squad)
    ensures var people := Dedup(squad);
      && (forall x :: x in people ==> x in nTimesFromPerson)
      && CoversPairs(nTimesFromPair, people)
      && (|people| == |squad| <==> Distinct(squad))
      && (Distinct(squad) ==> people == squad)
  {
    DedupLength(squad);
    if Distinct(squad) {
      DedupOfDistinct(squad);
    }
  }

  /**
   * One pass of the slot loop of `randomSchedule`: the next bench, then the
   * courts of everyone else.
   */
  method NextTimeSlot(benchGenerator: BenchGenerator, nCourts: nat, nTimesFromPerson: map<PersonId, nat>,
                      nTimesFromPair: map<PairKey, nat>, rng: Random)
    returns (r: Result<TimeSlot>, nTimesFromPair': map<PairKey, nat>)
    requires benchGenerator.Valid()
    requires forall x :: x in benchGenerator.squad ==> x in nTimesFromPerson
    requires CoversPairs(nTimesFromPair, benchGenerator.squad)
    modifies benchGenerator, rng
    ensures benchGenerator.Valid()
    ensures benchGenerator.squad == old(benchGenerator.squad) && benchGenerator.nBench == old(benchGenerator.nBench)
    ensures var k, people := benchGenerator.nBench, benchGenerator.squad;
      && (2 * k <= |people| && |people| == k + 4 * nCourts ==> r.Ok?)
      && (old(benchGenerator.benchQueue) == [] && old(benchGenerator.prevBench) == [] && |people| < 2 * k ==> r.Err?)
      && (|people| < k + 4 * nCourts ==> r.Err?)
    ensures r.Err? ==> r.error == SampleTooSmall || r.error == NoPerson || r.error == NoPartner
    ensures r.Ok? ==> r.value.bench == benchGenerator.prevBench && Disjoint(old(benchGenerator.prevBench), r.value.bench)
    ensures r.Ok? ==>
      BenchStep(benchGenerator.squad, benchGenerator.nBench, old(benchGenerator.benchQueue), r.value.bench, benchGenerator.benchQueue)
    ensures r.Ok? && |benchGenerator.squad| == benchGenerator.nBench + 4 * nCourts ==>
      SlotOf(r.value, benchGenerator.squad, nCourts, benchGenerator.nBench)
    ensures nTimesFromPair'.Keys == nTimesFromPair.Keys
  {
    ghost var prev := benchGenerator.prevBench;
    nTimesFromPair' := nTimesFromPair;
    var bench := benchGenerator.Next(rng);
    if bench.Err? {
      return Err(bench.error), nTimesFromPair';
    }
    DisjointSymmetric(bench.value, prev);
    r, nTimesFromPair' := FillSlot(benchGenerator.squad, bench.value, nCourts, nTimesFromPerson, nTimesFromPair, rng);
  }

  /**
   * What the slot loop of `randomSchedule` has built: slots of `people`,
   * benches that rotate, and the trace of the bench generator that drew them
   * from an empty queue.
   */
  ghost predicate Built(timeSlots: seq<TimeSlot>, queues: seq<seq<PersonId>>, people: seq<PersonId>, nCourts: nat, nBench: nat) {
    && queues != [] && queues[0] == []
    && SlotsSoFar(timeSlots, people, nCourts, nBench)
    && Rotates(Benches(timeSlots))
    && Trace(people, nBench, queues, Benches(timeSlots))
  }

  /** The loop invariant of `randomSchedule` kept by one more slot. */
  lemma SlotStep(timeSlots: seq<TimeSlot>, queues: seq<seq<PersonId>>, slot: TimeSlot, q': seq<PersonId>,
                 people: seq<PersonId>, nCourts: nat, nBench: nat)
    requires Built(timeSlots, queues, people, nCourts, nBench)
    requires SlotOf(slot, people, nCourts, nBench)
    requires BenchStep(people, nBench, queues[|queues| - 1], slot.bench, q')
    requires |timeSlots| > 0 ==> Disjoint(timeSlots[|timeSlots| - 1].bench, slot.bench)
    ensures Built(timeSlots + [slot], queues + [q'], people, nCourts, nBench)
  {
    if |timeSlots| > 0 {
      BenchesAt(timeSlots, |timeSlots| - 1);
    }
    SlotsSnoc(timeSlots, slot, people, nCourts, nBench);
    BenchesSnoc(Benches(timeSlots), slot.bench, people, nBench, queues, q');
    BenchesOfSnoc(timeSlots, slot);
  }

  /** What the loop invariant of `randomSchedule` says of the finished schedule. */
  lemma ScheduleDone(timeSlots: seq<TimeSlot>, squad: seq<PersonId>, nCourts: nat, nBench: nat,
                     queues: seq<seq<PersonId>>)
    requires Built(timeSlots, queues, squad, nCourts, nBench)
    ensures forall i :: 0 <= i < |timeSlots| ==> SlotOf(timeSlots[i], squad, nCourts, nBench)
    ensures forall i, j :: 0 <= i && j == i + 1 && j < |timeSlots| ==> Disjoint(timeSlots[i].bench, timeSlots[j].bench)
  {
    RotatingSlots(timeSlots);
    forall i | 0 <= i < |timeSlots| ensures SlotOf(timeSlots[i], squad, nCourts, nBench) {
      SlotsSoFarAt(timeSlots, squad, nCourts, nBench, i);
    }
  }

  /**
   * `randomSchedule(squad, {nCourts, slotNames})` with `nSlots` standing for
   * `slotNames.length`. It fails exactly when the squad is smaller than the
   * court places, or when there is a slot to fill and either the squad holds
   * a duplicate or the first refill of the bench queue cannot be drawn.
   */
  method RandomSchedule(squad: seq<PersonId>, nCourts: nat, nSlots: nat, rng: Random) returns (r: Result<Schedule>)
    modifies rng
    ensures |squad| < 4 * nCourts ==> r == Err(InsufficientSquad)
    ensures r.Ok? <==>
      |squad| >= 4 * nCourts && (nSlots == 0 || (Distinct(squad) && 2 * (|squad| - 4 * nCourts) <= |squad|))
    ensures r.Ok? ==> r.value.nCourts == nCourts && |r.value.timeSlots| == nSlots
    ensures r.Ok? ==> forall i :: 0 <= i < nSlots ==>
      SlotOf(r.value.timeSlots[i], squad, nCourts, |squad| - 4 * nCourts)
    ensures r.Ok? ==> forall i :: 0 <= i < nSlots - 1 ==>
      Disjoint(r.value.timeSlots[i].bench, r.value.timeSlots[i + 1].bench)
    ensures r.Ok? ==> exists queues ::
      && queues != [] && queues[0] == []
      && Trace(squad, |squad| - 4 * nCourts, queues, Benches(r.value.timeSlots))
  {
    var nPlayersPerSlot := 4 * nCourts;
    var nBench := |squad| - nPlayersPerSlot;
    if nBench < 0 {
      return Err(InsufficientSquad);
    }
    var benchGenerator := new BenchGenerator(nBench, squad);
    var nTimesFromPerson := ZeroNTimesFromPerson(squad);
    var nTimesFromPair := ZeroNTimesFromPair(squad);
    var people := Dedup(squad);
    SquadPeople(squad, nTimesFromPerson, nTimesFromPair);
    var timeSlots: seq<TimeSlot> := [];
    ghost var queues: seq<seq<PersonId>> := [[]];
    var iTimeSlot := 0;
    while iTimeSlot != nSlots
      invariant 0 <= iTimeSlot <= nSlots && |timeSlots| == iTimeSlot
      invariant benchGenerator.Valid() && fresh(benchGenerator)
      invariant benchGenerator.squad == people && benchGenerator.nBench == nBench
      invariant iTimeSlot == 0 ==> benchGenerator.benchQueue == [] && benchGenerator.prevBench == []
      invariant iTimeSlot > 0 ==> Distinct(squad) && 2 * nBench <= |squad|
      invariant iTimeSlot > 0 ==> benchGenerator.prevBench == timeSlots[iTimeSlot - 1].bench
      invariant Built(timeSlots, queues, people, nCourts, nBench)
      invariant |queues| == iTimeSlot + 1 && queues[iTimeSlot] == benchGenerator.benchQueue
      invariant CoversPairs(nTimesFromPair, people)
    {
      var slot, counts := NextTimeSlot(benchGenerator, nCourts, nTimesFromPerson, nTimesFromPair, rng);
      if slot.Err? {
        return Err(slot.error);
      }
      CoversWithin(nTimesFromPair, counts, people, people);
      nTimesFromPair := counts;
      SlotStep(timeSlots, queues, slot.value, benchGenerator.benchQueue, people, nCourts, nBench);
      queues := queues + [benchGenerator.benchQueue];
      timeSlots := timeSlots + [slot.value];
      iTimeSlot := iTimeSlot + 1;
    }
    if nSlots > 0 {
      DedupOfDistinct(squad);
    }
    ScheduleDone(timeSlots, squad, nCourts, nBench, queues);
    assert forall i :: 0 <= i < nSlots ==> SlotOf(timeSlots[i], squad, nCourts, |squad| - 4 * nCourts);
    assert Trace(squad, |squad| - 4 * nCourts, queues, Benches(timeSlots));
    r := Ok(Schedule(nCourts, timeSlots));
  }
}
