# Staking reward statistics, modelled in Dafny

This project models `stats()` of `staking-stats.ts`. That function computes the
LRC staking rewards paid out to the users of a staking pool, from three lists of
pool events:

- stakes;
- reward claims;
- withdrawals.

Each event is a record `(blockNumber, user, amount, type)`. The type codes are
`STAKING = 0`, `CLAIM = 1` and `WITHDRAWAL = 2`.

The computation runs in four stages, and each stage is a module here.

1. **Timeline** (`timeline.dfy`). The three lists are concatenated and sorted.
   The sort key is the block number, and the type code breaks ties within a
   block. `Compare` is the comparator. `Array.sort` is modelled as a stable
   insertion sort. `Merge` is proved to return:
   - a sorted timeline;
   - a permutation of the concatenation;
   - records with equal keys in their input order.
2. **Point fold** (`fold.dfy`). `FoldRecords` is the loop that updates the
   result map. That map is insertion-ordered, as a JavaScript `Map` is, and is
   modelled as a `Ledger`: a key order plus a `map`.
   - Events after `untilBlock` are skipped.
   - A user's first eligible event must be a stake. Otherwise the run stops
     with `MissingStakeRecord`.
   - Stakes and claims add `max(untilBlock - b, blocksOf90Days) * amount`
     points. Claims also add `amount` to the claimed reward.
   - Withdrawals subtract `(untilBlock - b) * amount`, with no floor.

   The loop is proved equal to `FoldSpec`, a fold of `Step` over the timeline.
   `FoldSpec` is in turn characterised, independently of the fold, by per-user
   sums over the timeline (`PointSum`, `ClaimSum`) and by the order of each
   user's first eligible event.
3. **Totals and first-pass filter** (`distribution.dfy`). `Totals` sums the
   points and the claimed rewards, and the pool `extReward` is added to the
   rewards. `FilterFirstPass` keeps the users whose pro-rata share
   `totalReward * point / totalPoints` exceeds what they already claimed.
4. **Second pass** (`distribution.dfy`). The totals are recomputed over the
   kept users. `Distribute` then pays each kept user
   `(share - claimed) / 1e18 - 1`, where the `- 1` is the transfer fee, and
   drops payouts below 1 LRC as dust.

`StakingStats.Stats` (`stats.dfy`) runs these stages one after another. It is
proved equal to `StatsSpec`, the composition of the specification functions,
and `StatsOutcome` states what every run promises.

The constants `untilBlock`, `blocksOf90Days`, `extReward`, the scale `1e18`,
the fee and the dust threshold are fields of `Config`. `SourceConfig` holds the
values that `staking-stats.ts:19-21` and `:163-168` use.

Amounts and points are unbounded integers, and shares are exact `real`s.

The point rule is modelled as the code writes it at
`staking-stats.ts:111-123`: additive point deltas per event.

Two definitions carry the source's formulas, and the contracts below are stated
in terms of them. `PointFold.Delta` is the point change of one event
(`staking-stats.ts:111-122`). `Distribution.NetReward` is a user's payout
before the dust filter, `(share - claimed) / scale - fee`
(`staking-stats.ts:162-165`).

## Model

| member | source | states |
|---|---|---|
| StakingTypes.EventType.Code | staking-stats.ts:28-30 | the type codes are 0, 1 and 2; code 0 is exactly a stake and code 2 exactly a withdrawal |
| Timeline.Compare | staking-stats.ts:97-103 | the comparator is negative, zero or positive exactly when the first record's (block, type) key is below, equal to or above the second's |
| Timeline.Insert | staking-stats.ts:97-103 | inserting a record into the timeline adds exactly that record (multiset union) |
| Timeline.InsertSorted | staking-stats.ts:97-103 | inserting into a sorted timeline keeps it sorted by (block, type) |
| Timeline.InsertStable | staking-stats.ts:97-103 | the inserted record goes in front of the existing records with the same key, so earlier input keeps precedence |
| Timeline.SortRecords | staking-stats.ts:97-103 | the sort returns a sorted permutation of its input in which records with equal keys keep their input order (a stable sort) |
| Timeline.Merge | staking-stats.ts:96-103 | the timeline is sorted by block then type, is a permutation of stakes ++ claims ++ withdrawals, and keeps the concatenation order among equal keys |
| PointFold.LockedBlocks | staking-stats.ts:111-113 | the credited blocks are the blocks left until `untilBlock`, floored at `blocksOf90Days`: at least both, and equal to one of them |
| PointFold.Step | staking-stats.ts:108-133 | one event fails exactly when it is eligible, its user is new and it is not a stake; an event past `untilBlock` changes nothing; a well-formed map stays well-formed |
| PointFold.StepEffect | staking-stats.ts:109-133 | an eligible event moves its user's points by its delta and its claimed reward by the claim amount; a first stake creates the entry with reward 0 and appends the user to the key order; no other user's entry changes |
| PointFold.FoldSpec | staking-stats.ts:106-134 | a successful fold yields a well-formed insertion-ordered map (distinct keys, keys = domain) |
| PointFold.FoldRecords | staking-stats.ts:106-134 | the loop that updates the map in place returns exactly the fold of `Step` over the timeline, including the early stop on a missing stake |
| PointFold.FoldErrPersists | staking-stats.ts:126 | once a prefix of the timeline fails, the whole run fails with the same error |
| PointFold.FoldOkIffStakeFirst | staking-stats.ts:125-126 | the fold succeeds exactly when every user's first eligible event is a stake, and a failure is always a missing-stake error |
| PointFold.FoldSummarises | staking-stats.ts:109-133 | after a successful fold, the map holds exactly the users with an eligible event; each entry is (sum of that user's point deltas, sum of that user's claim amounts); the keys are in order of first eligible event |
| PointFold.FoldIgnoresLateEvents | staking-stats.ts:108 | folding the timeline equals folding only its events at or before `untilBlock` |
| Distribution.Totals | staking-stats.ts:137-142 | the totals loop returns the sum of points, and `extReward` plus the sum of claimed rewards, over the map |
| Distribution.SurvivorsMembers | staking-stats.ts:144-150 | a key survives the first pass exactly when its share `totalReward * point / totalPoints` exceeds its claimed reward; survivors are distinct when the keys are |
| Distribution.FirstPass | staking-stats.ts:144-150 | every kept user has an entry, and every kept entry is the original record of a key of the input map |
| Distribution.FirstPassKeeps | staking-stats.ts:144-150 | the filtered map is well-formed and holds exactly the users whose share exceeds what they claimed |
| Distribution.SurvivorsRanked | staking-stats.ts:145-149 | the filter keeps the order of the input map's keys |
| Distribution.FilterFirstPass | staking-stats.ts:144-150 | the filter loop builds exactly the first-pass map, keys in input order |
| Distribution.Payouts | staking-stats.ts:159-176 | every payout goes to a key of the map, equals `(share - claimed) / scale - fee` for that user and is at least the dust threshold |
| Distribution.PayoutsComplete | staking-stats.ts:159-176 | every user whose net reward reaches the dust threshold is paid |
| Distribution.PayoutsRanked | staking-stats.ts:159-176 | payouts follow the order of the map's keys, so no user is paid twice |
| Distribution.Distribute | staking-stats.ts:159-176 | the result loop produces exactly the specified payouts |
| Distribution.ExcessIsProRata | staking-stats.ts:162 | the shares less the claims, summed over the map, equal `totalReward * Σpoint / totalPoints - Σclaimed` |
| Distribution.Conservation | staking-stats.ts:152-163 | with the totals taken over the same map, the shares less the claims add up to exactly `extReward` |
| Distribution.PayoutsWithinExcess | staking-stats.ts:159-168 | if every user is owed a non-negative amount, the payouts plus one fee each take no more than the summed excess, scaled to tokens |
| Distribution.PayoutBound | staking-stats.ts:152-168 | if every kept user is still owed a non-negative amount in the second pass, the payouts plus fees do not exceed `extReward / scale` |
| StakingStats.DistributeLedger | staking-stats.ts:137-176 | totals, filter, totals again and payouts produce exactly the specified distribution, with a zero-points error on a non-empty map |
| StakingStats.Stats | staking-stats.ts:94-176 | the whole computation returns exactly the composition of merge, fold and distribution |
| StakingStats.SecondPassOutcome | staking-stats.ts:152-176 | the second pass fails exactly when its map is non-empty and its total points are zero, always with the zero-points error, and otherwise pays only its own users, at least the dust threshold, in key order |
| StakingStats.DistributionOutcome | staking-stats.ts:137-176 | the distribution fails exactly when the folded map, or the map the first pass keeps, is non-empty with zero total points, always with the zero-points error, and otherwise pays only users of the folded map, at least the dust threshold, each once, in key order |
| StakingStats.StatsOutcome | staking-stats.ts:94-176 | a run fails with a missing stake exactly when some user's first eligible event is not a stake; otherwise every payout is at least the dust threshold and goes to a user with an eligible event; users are paid once each, in order of their first eligible event |
| StakingStats.OverPayment | staking-stats.ts:144-168 | a concrete map on which the payouts plus fees (6 LRC) exceed a pool of 2 LRC, because the first pass shrinks the second-pass total reward |

## Left out

- Fetching events from the chain (`fetchData`, `staking-stats.ts:32-85`). It uses network calls through a foreign library. The three record lists are parameters of `Stats`.
- Reading the record files (`loadData`, `staking-stats.ts:87-92`) and writing the JSON and CSV results (`:178-187`). These are file I/O.
- `checkResSum` (`:190-197`), `main` and process exit (`:199-207`), and every `console.log`. These are I/O plumbing.
- JavaScript `Number` arithmetic. Amounts and points are exact integers and shares are exact reals. The model therefore does not capture:
  - precision loss on large amounts and products;
  - the float value of `1e24`;
  - `toFixed(3)` rounding of the payout, which is kept as an exact `real`.
- Division by zero total points. JavaScript produces `NaN` or `Infinity`. The model returns `Err(ZeroTotalPoints)` instead. It does so only when the map being divided over is non-empty, since the source divides only inside its loops.
- Timeline.SortRecords: `Array.sort` is a library call, and the model specifies it as a stable sort (the ECMAScript 2019 guarantee), implemented as an insertion sort. A sort without stability would order equal-key records differently.
- Aliasing between `resMap` and `filteredMap`. Both hold the same record objects. Nothing mutates them after the fold, so the model copies entries by value.
- Distribution.PayoutBound: this holds only when every kept user is still owed a non-negative amount under the second-pass totals. It is weaker than the unconditional claim that payouts never exceed the pool.
  - `StakingStats.OverPayment` shows that the unconditional claim fails.
  - The map in that example arises from these events at block 9, with `untilBlock = 10` and `blocksOf90Days = 1`:
    - `a` stakes 1;
    - `b` stakes 1, claims 10 and withdraws 10;
    - `c` stakes 1, claims 100 and withdraws 100.
  - That event-level run is not proved here.
