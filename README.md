# Pickleball schedule engine, modelled in Dafny

This project models the schedule engine of the pickleball scheduler,
`src/model/scheduling.ts`. A **squad** of people is spread over a number of
**time slots**. In each slot, `nCourts` courts host two **pairs** each, and
everyone else sits out on the **bench**. The engine does four things:

- It draws benches from a `BenchGenerator`, which keeps a queue of squad
  permutations. Nobody sits out twice in a row.
- It pairs the players left in each slot greedily. `randomMaximalPerson`
  takes a player with the largest per-person count; since `randomSchedule`
  never raises those counts from zero, this amounts to a player drawn at
  random by reservoir sampling. That player gets the partner they have
  played with least, ties again broken by reservoir sampling.
- It lets a user swap two persons, or two pairs, within a slot. Each swap
  returns a new schedule.
- It checks a schedule for two kinds of violation. One is unfair sitting
  out; the other is a pair that occurs twice.

## Files

- `collections.dfy` (`Collections`) holds sequence helpers:
  - `Distinct`, `Disjoint` and `Within`;
  - `Dedup`, which is `new Set(xs)` in insertion order;
  - `Without`, the set difference in the order of its first argument;
  - `Flatten` and `Copies`.
- `model.dfy` (`ScheduleModel`) holds the schedule value: `Pair`, `Court`,
  `TimeSlot`, `Schedule` and `PersonPath`. It also holds the engine's
  exceptions as `Error`, wrapped in `Result`. A slot's seats are linearised
  court by court, pair by pair, and then the bench. This is the order in
  which `pathOfPerson` visits them.
- `sampling.dfy` (`Sampling`) models `shuffled`, `setDifference`, `setUnion`
  and `sampleWithoutInPlace`. Two classes go with them:
  - `Random` stands for `Math.random`. It is an oracle tape, and every
    property proved holds for every tape.
  - `PersonSet` stands for the JavaScript `Set` that `sampleWithoutInPlace`
    changes in place.
- `bench.dfy` (`Bench`) holds `BenchGenerator` as a class, with its queue
  invariant. It also holds the fair-rotation theorem that the unit test
  states.
- `pairkeys.dfy` (`PairKeys`) models `pairKeyFromIds`, including JavaScript's
  decimal `String(i)`.
- `pairing.dfy` (`Pairing`) models the following, and `randomSchedule` itself:
  - `randomMaximalPerson` and `randomMinimalPartner`;
  - the two zero-counter builders;
  - the pairing loop and the court loop.
- `swaps.dfy` (`Swaps`) models `pathOfPerson`, `personArrayAtPath`,
  `withPersonsSwapped` and `withPairsSwapped`.
- `validators.dfy` (`Validators`) models the following:
  - `squadOfSlot`, `sortedSquadsEqual` and `squadOfSchedule`;
  - `scheduleStats`;
  - `sittingOutFairnessViolations` and `noDuplicatePairsViolations`.

The pair counters of `randomSchedule` are keyed by the datatype `PairKey`,
which holds the two identifiers in ascending order. The source keys them by
the string `pairKeyFromIds`. `PairKeys.KeyStringInjective` shows that the
string determines the datatype, so the two counters agree. The validator
`noDuplicatePairsViolations` keeps the source's string keys.

## Model

| member | source | states |
|---|---|---|
| Sampling.Random.Below | src/model/scheduling.ts:23 | `Math.floor(n * Math.random())` is some number below `n`. It consumes one draw of the tape. |
| Sampling.Shuffled | src/model/scheduling.ts:19-33 | The inside-out shuffle returns a permutation of its input: the multisets are equal. |
| Sampling.SetDifference | src/model/scheduling.ts:57-63 | The result is exactly the members of `a` that are not in `b`, in the order of `a`. |
| Sampling.SetUnion | src/model/scheduling.ts:65-71 | The result is the members of `a` followed by those of `b`, without repetition, in first-insertion order. |
| Sampling.PersonSet.Delete | src/model/scheduling.ts:89 | `xs.delete(x)` removes `x` and keeps every other member in order. |
| Sampling.DeleteAll | src/model/scheduling.ts:88-90 | Deleting each drawn member leaves the old set without the drawn members. |
| Sampling.PrefixOfShuffle | src/model/scheduling.ts:86-87 | The first `n` of a shuffle of the allowed members are `n` distinct allowed members. |
| Sampling.SampleWithoutInPlace | src/model/scheduling.ts:73-92 | It fails, with `SampleTooSmall` and the set untouched, exactly when fewer than `n` members are allowed. Otherwise it returns `n` distinct allowed members and deletes them from the set. |
| Bench.BenchGenerator.constructor | src/model/scheduling.ts:100-105 | The squad is `new Set(squad)`, and both the last bench and the queue are empty. |
| Bench.BenchGenerator.Next | src/model/scheduling.ts:107-135 | The generator keeps its invariant. See the note below the table. |
| Bench.Replenish | src/model/scheduling.ts:109-129 | The refill meets the same invariant and bench guarantees as `Next`. It succeeds when the squad has at least `2 * nBench` members, and fails from a fresh generator when it has fewer. |
| Bench.TraceFromSteps | src/model/scheduling.ts:107-135 | A run of `next()` calls is exactly a chain of single steps. |
| Bench.RotationBlock | src/model/scheduling.ts:109-131 | When `nBench * m` is the squad size, `m` calls that start at an empty queue hand out one permutation of the squad, and leave the queue empty again. |
| Bench.RotationFair | src/model/scheduling.ts:107-135 | After `b` such blocks, the benches hold `b` copies of the squad. |
| Bench.EveryoneBenchedEqually | tests/unit/scheduling.spec.ts:35-57 | Take a fresh generator whose bench size divides the squad size. Over its first `nBench * squadSize` benches, each squad member sits out `nBench * nBench` times, so all sit out equally. Consecutive benches are disjoint, by `Next`. |
| Pairing.RandomMaximalPerson | src/model/scheduling.ts:138-162 | It fails with `NoPerson` exactly when no candidate has a count. Otherwise it returns a counted candidate whose count is greatest among the counted candidates. |
| Pairing.RandomMinimalPartner | src/model/scheduling.ts:164-192 | It fails with `NoPartner` exactly when no candidate has a pair counter with `playerId`. Otherwise it returns a candidate whose pair count is least. |
| Pairing.ZeroNTimesFromPerson | src/model/scheduling.ts:194-200 | Every squad member has a counter, every counter belongs to a squad member, and every count is zero. |
| Pairing.AllKeysVisited | src/model/scheduling.ts:204-211 | The nested loops visit the key of every two squad positions. In particular they visit the key of two different squad members. |
| Pairing.ZeroNTimesFromPair | src/model/scheduling.ts:202-213 | The counters are exactly the keys of all pairs of squad positions, all zero, so every pair of different members is counted. |
| Pairing.CountPair | src/model/scheduling.ts:276-277 | Counting a pair raises its counter by one and leaves every other counter alone. |
| Pairing.DrawPair | src/model/scheduling.ts:270-274 | It fails exactly when fewer than two players remain. Otherwise it returns two different pool members whose pair has a counter. |
| Pairing.PairStep | src/model/scheduling.ts:270-275 | Moving the two drawn players from the pool to the pairs keeps all the people, with nobody twice. The pool shrinks by two. |
| Pairing.PairTurn | src/model/scheduling.ts:269-278 | One turn of the pairing loop appends one pair, keeps the pool invariant and counts the pair. It fails exactly when fewer than two players remain. |
| Pairing.ChoosePairs | src/model/scheduling.ts:269-278 | See the note below the table. |
| Pairing.CourtsOfPairs | src/model/scheduling.ts:279-282 | Court `c` is pairs `2c` and `2c + 1`, so the court seats are the pair seats. |
| Pairing.FillSlot | src/model/scheduling.ts:267-283 | A slot's pairing fails exactly when fewer than `4 * nCourts` people are left off the bench. At the exact squad size, the slot seats every squad member once. |
| Pairing.NextTimeSlot | src/model/scheduling.ts:266-283 | One slot: the bench from `next()`, which is disjoint from the last bench, and the pairs of everyone else. |
| Pairing.SlotStep | src/model/scheduling.ts:265-284 | One more slot keeps the invariant of the slot loop. |
| Pairing.RandomSchedule | src/model/scheduling.ts:215-287 | See the note below the table. |
| PairKeys.IntToString | src/model/scheduling.ts:469 | `String(i)` is a nonempty numeral without `+` that reads back as `i` (`IntOfString`). `IntToStringInjective` gives that it determines `i`; `NatRoundTrip` is its natural-number half. |
| PairKeys.KeyString | src/model/scheduling.ts:469 | The two numerals joined by `+` read back, split at the first `+`, as the key. |
| PairKeys.PlusIndexJoin | src/model/scheduling.ts:469 | In a join of a `+`-free numeral, `+` and another numeral, the first `+` is the joining one. |
| PairKeys.PairKeyFromIds | src/model/scheduling.ts:466-470 | The key reads back as the pair's two identifiers in ascending order. `PairKeySymmetric` and `PairKeyInjective` state that it ignores the order of the pair and identifies the two people. |
| PairKeys.NatRoundTrip | src/model/scheduling.ts:469 | The decimal numeral of a natural number reads back as that number. |
| PairKeys.IntToStringInjective | src/model/scheduling.ts:469 | `String(i)` determines `i`. |
| PairKeys.KeyStringInjective | src/model/scheduling.ts:466-470 | Two keys are spelled alike exactly when they are equal. |
| PairKeys.PairKeySymmetric | src/model/scheduling.ts:466-470 | The key of `[a, b]` is the key of `[b, a]`. |
| PairKeys.KeyOfInjective | src/model/scheduling.ts:466-468 | Two pairs have the same sorted key exactly when they hold the same two people. |
| PairKeys.PairKeyInjective | src/model/scheduling.ts:466-470 | Two pairs have the same `pairKeyFromIds` exactly when they hold the same two people (as multisets). |
| Swaps.FirstPath | src/model/scheduling.ts:295-312 | The first seat holding `x` is a valid path into the slot. |
| Swaps.FirstPathSeat | src/model/scheduling.ts:295-312 | That seat holds `x`, and no earlier seat does. |
| Swaps.SearchCourt | src/model/scheduling.ts:296-304 | The pair and person loops of one court return the first seat of `x`. Failing that, they show that `x` is in none of the court's four seats. |
| Swaps.SearchBench | src/model/scheduling.ts:307-312 | The bench loop returns the first seat of `x`. Failing that, it shows that `x` is in no seat of the slot. |
| Swaps.PathOfPerson | src/model/scheduling.ts:289-315 | It fails with `PersonNotFound` exactly when `x` is not in the slot. Otherwise it returns the first seat of `x`, courts before bench. |
| Swaps.PersonArrayAtPath | src/model/scheduling.ts:340-351 | For a court seat, the array is the two-person pair. For a bench seat, it is the bench. Element `iPerson` is the person in that seat. |
| Swaps.ArrayWriteIsSeatWrite | src/model/scheduling.ts:333-335 | Writing element `iPerson` of the array at a path writes the seat at that path. |
| Swaps.SwapAtPaths | src/model/scheduling.ts:328-337 | The three assignments through the two arrays exchange the two seats of the slot. This holds even when both arrays are the same one. |
| Swaps.WithPersonsSwapped | src/model/scheduling.ts:353-372 | It fails exactly when the slot does not exist or either person is missing. Otherwise its result is the schedule with the two persons' first seats exchanged. |
| Swaps.WithPairsSwapped | src/model/scheduling.ts:317-338 | It is the same swap, but also fails with `ExpectedPlaying` exactly when both persons are present and either of them is on the bench. |
| Swaps.SwappedSeats | src/model/scheduling.ts:317-372 | A swap changes no seat other than the two first seats. The first seat of `x0` then holds `x1`, and the first seat of `x1` holds `x0`. |
| Swaps.SwappedPeople | src/model/scheduling.ts:317-372 | A swap keeps the multiset of the slot's people. |
| Swaps.SwappedTwice | src/model/scheduling.ts:317-372 | In a slot where nobody sits twice, swapping the same two persons again restores the slot. |
| Swaps.SwappedScheduleTwice | src/model/scheduling.ts:317-372 | The same holds for the whole schedule. |
| Swaps.SwappedScheduleElsewhere | src/model/scheduling.ts:317-372 | Every other slot, and `nCourts`, are unchanged. The input schedule, a value, is never changed. |
| Validators.InsertSorted | src/model/scheduling.ts:380 | Inserting an element at its place keeps a sequence sorted. |
| Validators.SortAscending | src/model/scheduling.ts:380 | `sort((a, b) => a - b)` gives an ascending permutation. |
| Validators.SortedUnique | src/model/scheduling.ts:380-390 | Two sorted sequences with the same elements are equal. |
| Validators.SquadOfSlot | src/model/scheduling.ts:374-382 | The result is sorted and holds exactly the slot's seats, court seats and bench alike. |
| Validators.SortedSquadsEqual | src/model/scheduling.ts:384-392 | The element-by-element comparison is true exactly when the two arrays are equal. |
| Validators.SortedSquadsEqualSamePeople | src/model/scheduling.ts:384-392 | On sorted squads, the comparison is true exactly when the squads hold the same people. |
| Validators.SquadOfSchedule | src/model/scheduling.ts:394-402 | It fails with `InconsistentSquads` exactly when some slot seats different people from slot 0. Otherwise it returns slot 0's sorted squad. |
| Validators.ScheduleStats | src/model/scheduling.ts:404-412 | The counts are slot 0's courts, its playing seats, its bench and all of its seats, together with the number of slots. |
| Validators.FairBounds | src/model/scheduling.ts:424-428 | The two thresholds are the floor and the ceiling of the fair share `nSittingOut * nSlots / nPersons`. |
| Validators.CountSittingOut | src/model/scheduling.ts:430-441 | The counter has exactly the squad members as keys, and each count is how often that member sits out. |
| Validators.FlagSittingOut | src/model/scheduling.ts:443-458 | A member is flagged too few exactly when below the floor, and too many exactly when above the ceiling. No flag appears twice. |
| Validators.SittingOutFairnessViolations | src/model/scheduling.ts:420-459 | See the note below the table. |
| Validators.KeysOf | src/model/scheduling.ts:480 | One key per pair; two keys agree exactly when their pairs hold the same two people. |
| Validators.CountKey | src/model/scheduling.ts:481-482 | The `Map` update raises this key's tally by one. The insertion order stays the keys seen in order of first occurrence, so a new key is appended and a known one leaves it unchanged. |
| Validators.CountCourts | src/model/scheduling.ts:478-484 | After the courts of one slot, each key's entry is its number of occurrences among the keys seen so far followed by the slot's keys, court by court, and the insertion order is their order of first occurrence. |
| Validators.KeysOfCourts | src/model/scheduling.ts:478-484 | Keying the pairs of some courts after those already seen appends those courts' keys in visiting order, so the per-slot count continues the count of the whole schedule. |
| Validators.CountPairs | src/model/scheduling.ts:475-485 | After all slots, each key's entry is its number of occurrences among the schedule's pairs. Keys appear in first-occurrence order. |
| Validators.FlagDuplicates | src/model/scheduling.ts:487-493 | A key is reported exactly when its count exceeds one, and once. The reports follow the counter's insertion order (`Duplicates`). |
| Validators.NoDuplicatesIff | src/model/scheduling.ts:472-494 | A key is reported exactly when it repeats, and nothing is reported exactly when no key repeats. |
| Validators.NoDuplicatePairsViolations | src/model/scheduling.ts:472-494 | Each repeated key is reported once, and only repeated keys are reported. The list is empty exactly when no key repeats. The reports come in the order in which the keys first occur among the schedule's pairs. |
| Validators.DistinctKeysIff | src/model/scheduling.ts:466-494 | No key repeats exactly when no two pairs of the schedule hold the same two people. |

Notes on the longer contracts:

- **`Bench.BenchGenerator.Next`.** When the queue holds a whole bench, the
  bench is the front of the queue. Otherwise a permutation of the squad is
  appended first.
  - A bench has `nBench` distinct squad members.
  - It is disjoint from the last bench.
  - It succeeds whenever the squad has at least `2 * nBench` members.
  - From a fresh generator, it fails with `SampleTooSmall` when the squad
    has fewer.
- **`Pairing.ChoosePairs`.** It fails exactly when the pool holds fewer than
  `2 * nPairs` people.
  - Otherwise it returns `nPairs` pairs of distinct pool members.
  - With an exact pool, the pairs use everyone.
  - Each pair counter is raised by the number of pairs with its key.
- **`Pairing.RandomSchedule`.**
  - It fails with `InsufficientSquad` when there are fewer people than
    court places.
  - It succeeds exactly when there are enough people and, if there is a slot
    to fill, the squad has no duplicates and the bench is at most half the
    squad.
  - Each slot seats every squad member exactly once, on `nCourts` courts.
  - Consecutive benches are disjoint.
  - The benches are a run of the bench generator from an empty queue.
- **`Validators.SittingOutFairnessViolations`.**
  - It fails when there are no slots or the squads differ.
  - Otherwise, a squad member is flagged too few exactly when they sit out
    fewer times than the floor of the fair share.
  - They are flagged too many exactly when they sit out more times than its
    ceiling.
  - No violation is listed twice.

## Left out

- `Math.random` is a parameter, an oracle tape read through `Random.Below`. Probability is not modelled: properties hold for every tape. Tie-breaking is therefore not proved uniform, and `shuffled` is not proved uniform either.
- How fairly `randomSchedule` pairs people and seats them is not proved. The greedy choices are proved to pick a maximal and a minimal count, but the result is not proved balanced.
- `deepClone` is not part of this model. A schedule is an immutable value, so the clone is the value itself, and each array write becomes a new value (`WithSeat`). The swaps therefore do not model aliasing between the input and the clone. Aliasing of the two arrays inside the clone is modelled: the second write reads the array again.
- `randomSchedule` takes `nSlots` for `params.slotNames.length` and `nCourts` as a natural number. A negative `nCourts` is not modelled. In the source it makes `nBench` larger than the squad, so with at least one slot the first `benchGenerator.next()` throws "cannot make sample" in `sampleWithoutInPlace`, before any pairing; with no slots the source returns the schedule `{nCourts, timeSlots: []}`.
- JavaScript engine TypeErrors are modelled as error values:
  - `pathOfPerson` with an index that names no slot gives `NoSuchSlot`;
  - `squadOfSchedule` on a schedule without slots gives `NoSlots`.
- Validators.ScheduleStats: requires a slot. The source reads slot 0 unchecked, and its only caller reaches it after `squadOfSchedule` has rejected an empty schedule.
- Validators.SortAscending: the library sort is modelled by insertion sort, and only its result is specified: sorted and a permutation.
- Validators.FairBounds: the fair share is a floating-point quotient in the source, and here exact integer floor and ceiling. They agree whenever the division is exact in floating point.
- Validators.SittingOutFairnessViolations: states a member's violations, not their order. The source lists them in the `Map`'s insertion order, and the model follows that order but does not state it. The source's "person from bench not found in squad" throw is unreachable once the squads are equal, and is an `assert false` branch.
- PairKeys.IntToString: covers integer identifiers only. JavaScript's exponent notation for very large numbers is not modelled, since identifiers are small integers.
- Pairing.RandomSchedule: the pair counters are keyed by `PairKey` rather than by the key string. `PairKeys.KeyStringInjective` shows that the two counters are the same.
- `app.ts`, persistence, the UI components and `utils.ts` are not part of this model.
