/**
  The values the staking-reward computation works on: the event records read
  from the staking pool, the run's configuration, the per-user accumulator
  kept in the result map, and the payouts it emits.
 */
module StakingTypes {

  /** An account address; the source keys its maps by the address string. */
  type User = string

  /** The three kinds of pool event, with the numeric codes the source sorts by. */
  datatype EventType = Staking | Claim | Withdrawal {
    function Code(): (c: int)
      ensures 0 <= c <= 2
      ensures c == 0 <==> Staking?
      ensures c == 2 <==> Withdrawal?
    {
      match this
      case Staking => 0
      case Claim => 1
      case Withdrawal => 2
    }
  }

  /** One event of the pool: `amount` in the token's smallest unit. */
  datatype Record = Record(blockNumber: nat, user: User, amount: nat, kind: EventType)

  /**
    The constants of a run. `untilBlock` is the last eligible block,
    `blocksOf90Days` the minimum credited lock duration, `extReward` the pool
    to distribute (smallest units), `scale` the smallest units per token,
    `fee` the flat transfer fee and `dust` the smallest payout (both in tokens).
   */
  datatype Config = Config(
    untilBlock: int,
    blocksOf90Days: int,
    extReward: int,
    scale: real,
    fee: real,
    dust: real)

  /**
    The constants the source runs with: the last eligible block, the 90-day
    floor in blocks, a pool of 1,000,000 LRC (10^24 smallest units), 10^18
    smallest units per LRC, a 1 LRC transfer fee and a 1 LRC dust threshold.
   */
  const SourceConfig := Config(11708702, 586162, 1_000_000_000_000_000_000_000_000,
                               1_000_000_000_000_000_000.0, 1.0, 1.0)

  /** What the result map holds per user: accumulated points and claimed rewards. */
  datatype Entry = Entry(point: int, reward: int)

  /**
    An insertion-ordered map, as a JavaScript `Map` is: `keys` lists the keys
    in the order they were first set, `entries` holds the values.
   */
  datatype Ledger = Ledger(keys: seq<User>, entries: map<User, Entry>) {
    ghost predicate Valid() {
      Distinct(keys) && forall u :: u in entries <==> u in keys
    }
  }

  /** One line of the result: the net reward of `user`, in tokens. */
  datatype Payout = Payout(user: User, reward: real)

  datatype Error =
    | MissingStakeRecord(user: User)  // first eligible event of a user is not a stake
    | ZeroTotalPoints                  // a non-empty map whose points sum to zero

  datatype Result<T> = Ok(value: T) | Err(error: Error)

  ghost predicate Distinct<T>(s: seq<T>) {
    forall i, j :: 0 <= i < j < |s| ==> s[i] != s[j]
  }

  /** `s` lists its elements in strictly increasing `rank`. */
  ghost predicate Ranked<T>(s: seq<T>, rank: T -> int) {
    forall i, j :: 0 <= i < j < |s| ==> rank(s[i]) < rank(s[j])
  }
}
