/**
  The whole reward computation: merge the three record lists, fold them into
  per-user points and claims, total and filter them, total again over the
  survivors and emit the payouts.
 */
module StakingStats {
  import opened StakingTypes
  import opened Timeline
  import opened PointFold
  import opened Distribution

  /**
    The second pass over the filtered map: its own totals, then the payouts.
    Dividing by zero total points over a non-empty map is an error.
   */
  function SecondPass(cfg: Config, F: Ledger): Result<seq<Payout>>
    requires cfg.scale != 0.0
    requires forall k :: k in F.keys ==> k in F.entries
  {
    var totalPoints := SumPoints(F.keys, F.entries);
    var totalReward := cfg.extReward + SumRewards(F.keys, F.entries);
    if F.keys != [] && totalPoints == 0 then Err(ZeroTotalPoints)
    else Ok(Payouts(cfg, F.keys, F.entries, totalPoints, totalReward))
  }

  /** From the folded map to the payouts: totals, the first-pass filter, the second pass. */
  function DistributionSpec(cfg: Config, L: Ledger): Result<seq<Payout>>
    requires cfg.scale != 0.0
    requires forall k :: k in L.keys ==> k in L.entries
  {
    var totalPoints := SumPoints(L.keys, L.entries);
    var totalReward := cfg.extReward + SumRewards(L.keys, L.entries);
    if L.keys != [] && totalPoints == 0 then Err(ZeroTotalPoints)
    else SecondPass(cfg, FirstPass(L, totalPoints, totalReward))
  }

  function StatsSpec(cfg: Config, stakes: seq<Record>, claims: seq<Record>, withdrawals: seq<Record>): Result<seq<Payout>>
    requires cfg.scale != 0.0
  {
    var timeline := Merge(stakes, claims, withdrawals);
    match FoldSpec(cfg, timeline)
    case Err(e) => Err(e)
    case Ok(L) => DistributionSpec(cfg, L)
  }

  /** The computation as the source runs it, stage by stage. */
  method Stats(cfg: Config, stakes: seq<Record>, claims: seq<Record>, withdrawals: seq<Record>)
    returns (res: Result<seq<Payout>>)
    requires cfg.scale != 0.0
    ensures res == StatsSpec(cfg, stakes, claims, withdrawals)
  {
    var allRecords := Merge(stakes, claims, withdrawals);
    var folded := FoldRecords(cfg, allRecords);
    if folded.Err? {
      return Err(folded.error);
    }
    res := DistributeLedger(cfg, folded.value);
  }

  /** The stages after the fold: totals, filter, totals again, payouts. */
  method DistributeLedger(cfg: Config, resMap: Ledger) returns (res: Result<seq<Payout>>)
    requires cfg.scale != 0.0
    requires forall k :: k in resMap.keys ==> k in resMap.entries
    ensures res == DistributionSpec(cfg, resMap)
  {
    var totalPoints, totalReward := Totals(cfg, resMap);
    if resMap.keys != [] && totalPoints == 0 {
      return Err(ZeroTotalPoints);
    }
    var filteredMap := FilterFirstPass(resMap, totalPoints, totalReward);
    assert DistributionSpec(cfg, resMap) == SecondPass(cfg, filteredMap);
    totalPoints, totalReward := Totals(cfg, filteredMap);
    if filteredMap.keys != [] && totalPoints == 0 {
      return Err(ZeroTotalPoints);
    }
    var result := Distribute(cfg, filteredMap, totalPoints, totalReward);
    assert SecondPass(cfg, filteredMap) == Ok(result);
    return Ok(result);
  }

  /**
    The second pass fails exactly on zero total points over a non-empty map;
    otherwise it pays only users of the filtered map, at least the dust
    threshold, in its order.
   */
  lemma SecondPassOutcome(cfg: Config, F: Ledger, rank: User -> int)
    requires cfg.scale != 0.0
    requires forall k :: k in F.keys ==> k in F.entries
    requires Ranked(F.keys, rank)
    ensures var res := SecondPass(cfg, F);
      && (res.Err? <==> F.keys != [] && SumPoints(F.keys, F.entries) == 0)
      && (res.Err? ==> res.error == ZeroTotalPoints)
      && (res.Ok? ==>
            && (forall p :: p in res.value ==> p.reward >= cfg.dust && p.user in F.keys)
            && Ranked(Users(res.value), rank))
  {
    var totalPoints := SumPoints(F.keys, F.entries);
    var totalReward := cfg.extReward + SumRewards(F.keys, F.entries);
    if !(F.keys != [] && totalPoints == 0) {
      var ps := Payouts(cfg, F.keys, F.entries, totalPoints, totalReward);
      assert SecondPass(cfg, F) == Ok(ps);
      PayoutsRanked(cfg, F.keys, F.entries, totalPoints, totalReward, rank);
    }
  }

  /**
    What the distribution promises for any well-formed folded map: it fails
    exactly when the folded map or the map the first pass keeps is non-empty
    with zero total points, every payout is at least the dust threshold and
    goes to a user of the map, and the payouts keep any strict order of the
    map's keys, so no user is paid twice.
   */
  lemma DistributionOutcome(cfg: Config, L: Ledger, rank: User -> int)
    requires cfg.scale != 0.0
    requires forall k :: k in L.keys ==> k in L.entries
    requires Ranked(L.keys, rank)
    ensures var res := DistributionSpec(cfg, L);
      && (res.Err? <==>
            || (L.keys != [] && SumPoints(L.keys, L.entries) == 0)
            || (var F := FirstPass(L, SumPoints(L.keys, L.entries), cfg.extReward + SumRewards(L.keys, L.entries));
                F.keys != [] && SumPoints(F.keys, F.entries) == 0))
      && (res.Err? ==> res.error == ZeroTotalPoints && L.keys != [])
      && (res.Ok? ==>
            && (forall p :: p in res.value ==> p.reward >= cfg.dust && p.user in L.entries)
            && Ranked(Users(res.value), rank))
  {
    var totalPoints := SumPoints(L.keys, L.entries);
    var totalReward := cfg.extReward + SumRewards(L.keys, L.entries);
    if !(L.keys != [] && totalPoints == 0) {
      var F := FirstPass(L, totalPoints, totalReward);
      DistributionIsSecondPass(cfg, L, F);
      SurvivorsRanked(L.keys, L.entries, totalPoints, totalReward, rank);
      SecondPassOutcome(cfg, F, rank);
      assert forall k :: k in F.keys ==> k in L.entries;
    }
  }

  lemma DistributionIsSecondPass(cfg: Config, L: Ledger, F: Ledger)
    requires cfg.scale != 0.0
    requires forall k :: k in L.keys ==> k in L.entries
    requires L.keys != [] ==> SumPoints(L.keys, L.entries) != 0
    requires F == FirstPass(L, SumPoints(L.keys, L.entries), cfg.extReward + SumRewards(L.keys, L.entries))
    ensures DistributionSpec(cfg, L) == SecondPass(cfg, F)
  {
  }

  /**
    What a run promises: it stops with a missing-stake error exactly when some
    user's first eligible event is not a stake; otherwise every payout is at
    least the dust threshold, goes to a user with an eligible event, and the
    payouts list users once each, in the order of their first eligible event
    in the timeline.
   */
  lemma StatsOutcome(cfg: Config, stakes: seq<Record>, claims: seq<Record>, withdrawals: seq<Record>)
    requires cfg.scale != 0.0
    ensures var timeline := Merge(stakes, claims, withdrawals);
      var res := StatsSpec(cfg, stakes, claims, withdrawals);
      && (res.Err? && res.error.MissingStakeRecord? <==> !StakeFirst(cfg, timeline))
      && (res.Ok? ==>
            && (forall p :: p in res.value ==> p.reward >= cfg.dust && p.user in EligibleUsers(cfg, timeline))
            && InFirstEventOrder(cfg, timeline, Users(res.value)))
  {
    var timeline := Merge(stakes, claims, withdrawals);
    FoldOkIffStakeFirst(cfg, timeline);
    if FoldSpec(cfg, timeline).Ok? {
      var L := FoldSpec(cfg, timeline).value;
      FoldSummarises(cfg, timeline);
      var rank := u => FirstIndex(cfg, timeline, u);
      assert Ranked(L.keys, rank);
      DistributionOutcome(cfg, L, rank);
    }
  }

  /**
    The pool bound does not hold without its side condition. Three users with
    one point each, who claimed 0, 10 and 100, and a pool of 2: the first pass
    drops the third user, which shrinks the second-pass total reward from 112
    to 12, so the second user is now owed less than it claimed while the first
    is paid 5 tokens plus a fee of 1, more than the pool of 2.
   */
  lemma OverPayment()
    ensures var cfg := Config(10, 1, 2, 1.0, 1.0, 1.0);
      var L := Ledger(["a", "b", "c"], map["a" := Entry(1, 0), "b" := Entry(1, 10), "c" := Entry(1, 100)]);
      && L.Valid()
      && DistributionSpec(cfg, L) == Ok([Payout("a", 5.0)])
      && Outlay(cfg, [Payout("a", 5.0)]) > cfg.extReward as real / cfg.scale
  {
    var cfg := Config(10, 1, 2, 1.0, 1.0, 1.0);
    var L := Ledger(["a", "b", "c"], map["a" := Entry(1, 0), "b" := Entry(1, 10), "c" := Entry(1, 100)]);
    var F := Ledger(["a", "b"], map["a" := Entry(1, 0), "b" := Entry(1, 10)]);
    OverPaymentFirstPass(L, F);
    OverPaymentSecondPass(cfg, F);
    assert Outlay(cfg, [Payout("a", 5.0)]) == 6.0;
  }

  lemma OverPaymentFirstPass(L: Ledger, F: Ledger)
    requires L == Ledger(["a", "b", "c"], map["a" := Entry(1, 0), "b" := Entry(1, 10), "c" := Entry(1, 100)])
    requires F == Ledger(["a", "b"], map["a" := Entry(1, 0), "b" := Entry(1, 10)])
    ensures L.Valid()
    ensures SumPoints(L.keys, L.entries) == 3 && SumRewards(L.keys, L.entries) == 110
    ensures FirstPass(L, 3, 112) == F
  {
    OverPaymentValid(L);
    OverPaymentSums(L.keys, L.entries);
    OverPaymentSurvivors(L.keys, L.entries);
    assert (map k | k in F.keys :: L.entries[k]) == F.entries;
  }

  lemma OverPaymentValid(L: Ledger)
    requires L == Ledger(["a", "b", "c"], map["a" := Entry(1, 0), "b" := Entry(1, 10), "c" := Entry(1, 100)])
    ensures L.Valid()
  {
  }

  lemma OverPaymentSurvivors(keys: seq<User>, entries: map<User, Entry>)
    requires keys == ["a", "b", "c"]
    requires entries == map["a" := Entry(1, 0), "b" := Entry(1, 10), "c" := Entry(1, 100)]
    ensures Survivors(keys, entries, 3, 112) == ["a", "b"]
  {
    var ab: seq<User> := ["a", "b"];
    var a: seq<User> := ["a"];
    assert keys[..2] == ab && ab[..1] == a && a[..0] == [];
    assert Share(112, 1, 3) > 0.0 && Share(112, 1, 3) > 10.0 && Share(112, 1, 3) <= 100.0;
    assert Survivors(a, entries, 3, 112) == a;
    assert Survivors(ab, entries, 3, 112) == ab;
  }

  lemma OverPaymentSums(keys: seq<User>, entries: map<User, Entry>)
    requires keys == ["a", "b", "c"]
    requires entries == map["a" := Entry(1, 0), "b" := Entry(1, 10), "c" := Entry(1, 100)]
    ensures SumPoints(keys, entries) == 3 && SumRewards(keys, entries) == 110
  {
    var ab: seq<User> := ["a", "b"];
    var a: seq<User> := ["a"];
    assert keys[..2] == ab && ab[..1] == a && a[..0] == [];
    assert SumPoints(a, entries) == 1;
    assert SumPoints(ab, entries) == 2;
    assert SumRewards(a, entries) == 0;
    assert SumRewards(ab, entries) == 10;
  }

  lemma OverPaymentSecondPass(cfg: Config, F: Ledger)
    requires cfg == Config(10, 1, 2, 1.0, 1.0, 1.0)
    requires F == Ledger(["a", "b"], map["a" := Entry(1, 0), "b" := Entry(1, 10)])
    ensures SecondPass(cfg, F) == Ok([Payout("a", 5.0)])
  {
    var a: seq<User> := ["a"];
    assert F.keys[..1] == a && a[..0] == [];
    assert SumPoints(F.keys, F.entries) == 2 && SumRewards(F.keys, F.entries) == 10;
    assert Payouts(cfg, a, F.entries, 2, 12) == [Payout("a", 5.0)];
    assert Payouts(cfg, F.keys, F.entries, 2, 12) == [Payout("a", 5.0)];
  }
}
