/**
  The distribution: totals over the result map, the first-pass filter that
  drops users whose pro-rata share does not exceed what they already
  claimed, and the second pass that pays each remaining user its share less
  its claims, scaled to tokens, less the transfer fee, dropping dust.
 */
module Distribution {
  import opened StakingTypes

  // ---------------------------------------------------------------------------
  // Totals

  /** The points of the users in `keys`. */
  function SumPoints(keys: seq<User>, entries: map<User, Entry>): int
    requires forall k :: k in keys ==> k in entries
  {
    if keys == [] then 0
    else SumPoints(keys[..|keys| - 1], entries) + entries[keys[|keys| - 1]].point
  }

  /** The rewards already claimed by the users in `keys`. */
  function SumRewards(keys: seq<User>, entries: map<User, Entry>): int
    requires forall k :: k in keys ==> k in entries
  {
    if keys == [] then 0
    else SumRewards(keys[..|keys| - 1], entries) + entries[keys[|keys| - 1]].reward
  }

  /** One pass over the map's values: total points, and the pool plus all claimed rewards. */
  method Totals(cfg: Config, L: Ledger) returns (totalPoints: int, totalReward: int)
    requires forall k :: k in L.keys ==> k in L.entries
    ensures totalPoints == SumPoints(L.keys, L.entries)
    ensures totalReward == cfg.extReward + SumRewards(L.keys, L.entries)
  {
    totalPoints := 0;
    totalReward := cfg.extReward;
    for i := 0 to |L.keys|
      invariant totalPoints == SumPoints(L.keys[..i], L.entries)
      invariant totalReward == cfg.extReward + SumRewards(L.keys[..i], L.entries)
    {
      assert L.keys[..i + 1][..i] == L.keys[..i];
      var r := L.entries[L.keys[i]];
      totalPoints := totalPoints + r.point;
      totalReward := totalReward + r.reward;
    }
    assert L.keys[..|L.keys|] == L.keys;
  }

  // ---------------------------------------------------------------------------
  // Shares and the first pass

  /** A user's pro-rata part of `totalReward`, exactly. */
  function Share(totalReward: int, point: int, totalPoints: int): real
    requires totalPoints != 0
  {
    (totalReward * point) as real / totalPoints as real
  }

  /** The users of `keys` whose share exceeds the rewards they already claimed, in order. */
  function Survivors(keys: seq<User>, entries: map<User, Entry>, totalPoints: int, totalReward: int): (kept: seq<User>)
    requires forall k :: k in keys ==> k in entries
    requires keys != [] ==> totalPoints != 0
    ensures forall k :: k in kept ==> k in keys
  {
    if keys == [] then []
    else
      var k := keys[|keys| - 1];
      var kept := Survivors(keys[..|keys| - 1], entries, totalPoints, totalReward);
      assert keys == keys[..|keys| - 1] + [k];
      if Share(totalReward, entries[k].point, totalPoints) > entries[k].reward as real then kept + [k] else kept
  }

  /**
    The filtered map: exactly the users whose share exceeds their claims,
    each with its record unchanged, in the order of the original map.
   */
  function FirstPass(L: Ledger, totalPoints: int, totalReward: int): (F: Ledger)
    requires forall k :: k in L.keys ==> k in L.entries
    requires L.keys != [] ==> totalPoints != 0
    ensures forall k :: k in F.keys ==> k in F.entries
    ensures forall k :: k in F.entries ==> k in L.entries && F.entries[k] == L.entries[k]
  {
    var kept := Survivors(L.keys, L.entries, totalPoints, totalReward);
    Ledger(kept, map k | k in kept :: L.entries[k])
  }

  /** The filter keeps exactly the users whose share exceeds what they claimed, each once. */
  lemma {:induction false} SurvivorsMembers(keys: seq<User>, entries: map<User, Entry>, totalPoints: int, totalReward: int)
    requires forall k :: k in keys ==> k in entries
    requires keys != [] ==> totalPoints != 0
    ensures forall k :: k in Survivors(keys, entries, totalPoints, totalReward) <==>
      k in keys && Share(totalReward, entries[k].point, totalPoints) > entries[k].reward as real
    ensures Distinct(keys) ==> Distinct(Survivors(keys, entries, totalPoints, totalReward))
  {
    if keys != [] {
      var p := keys[..|keys| - 1];
      var k := keys[|keys| - 1];
      assert keys == p + [k];
      SurvivorsMembers(p, entries, totalPoints, totalReward);
    }
  }

  /**
    The filtered map is a well-formed map holding exactly the users of `L`
    whose share exceeds the rewards they already claimed.
   */
  lemma FirstPassKeeps(L: Ledger, totalPoints: int, totalReward: int)
    requires L.Valid()
    requires L.keys != [] ==> totalPoints != 0
    ensures FirstPass(L, totalPoints, totalReward).Valid()
    ensures forall k :: k in L.entries ==>
      (k in FirstPass(L, totalPoints, totalReward).entries <==>
       Share(totalReward, L.entries[k].point, totalPoints) > L.entries[k].reward as real)
  {
    SurvivorsMembers(L.keys, L.entries, totalPoints, totalReward);
  }

  /** The filter keeps any strict order of `keys`. */
  lemma {:induction false} SurvivorsRanked(keys: seq<User>, entries: map<User, Entry>,
                                           totalPoints: int, totalReward: int, rank: User -> int)
    requires forall k :: k in keys ==> k in entries
    requires keys != [] ==> totalPoints != 0
    requires Ranked(keys, rank)
    ensures Ranked(Survivors(keys, entries, totalPoints, totalReward), rank)
  {
    if keys != [] {
      var p := keys[..|keys| - 1];
      var k := keys[|keys| - 1];
      assert keys == p + [k];
      SurvivorsRanked(p, entries, totalPoints, totalReward, rank);
      var kept := Survivors(p, entries, totalPoints, totalReward);
      forall u | u in kept ensures rank(u) < rank(k) {
        assert u in p;
      }
    }
  }

  /** The filter loop of the source, building the filtered map key by key. */
  method FilterFirstPass(L: Ledger, totalPoints: int, totalReward: int) returns (filtered: Ledger)
    requires forall k :: k in L.keys ==> k in L.entries
    requires L.keys != [] ==> totalPoints != 0
    ensures filtered == FirstPass(L, totalPoints, totalReward)
  {
    var keys: seq<User> := [];
    var filteredMap: map<User, Entry> := map[];
    for i := 0 to |L.keys|
      invariant keys == Survivors(L.keys[..i], L.entries, totalPoints, totalReward)
      invariant filteredMap == map k | k in keys :: L.entries[k]
    {
      assert L.keys[..i + 1][..i] == L.keys[..i];
      var k := L.keys[i];
      var r := L.entries[k];
      var reward := Share(totalReward, r.point, totalPoints);
      if reward <= r.reward as real {
        continue;
      }
      filteredMap := filteredMap[k := r];
      keys := keys + [k];
    }
    assert L.keys[..|L.keys|] == L.keys;
    filtered := Ledger(keys, filteredMap);
  }

  // ---------------------------------------------------------------------------
  // The second pass

  /** A user's share less its claims, scaled to tokens, less the transfer fee. */
  function NetReward(cfg: Config, e: Entry, totalPoints: int, totalReward: int): real
    requires totalPoints != 0 && cfg.scale != 0.0
  {
    (Share(totalReward, e.point, totalPoints) - e.reward as real) / cfg.scale - cfg.fee
  }

  function Users(ps: seq<Payout>): (us: seq<User>)
    ensures |us| == |ps|
    ensures forall i :: 0 <= i < |ps| ==> us[i] == ps[i].user
  {
    if ps == [] then [] else Users(ps[..|ps| - 1]) + [ps[|ps| - 1].user]
  }

  /**
    The payouts for `keys`: a user is paid its net reward when that is at
    least the dust threshold, once, in the order of `keys`.
   */
  function Payouts(cfg: Config, keys: seq<User>, entries: map<User, Entry>, totalPoints: int, totalReward: int): (ps: seq<Payout>)
    requires cfg.scale != 0.0
    requires forall k :: k in keys ==> k in entries
    requires keys != [] ==> totalPoints != 0
    ensures forall p :: p in ps ==>
      && p.user in keys
      && p.reward == NetReward(cfg, entries[p.user], totalPoints, totalReward)
      && p.reward >= cfg.dust
  {
    if keys == [] then []
    else
      var k := keys[|keys| - 1];
      var ps := Payouts(cfg, keys[..|keys| - 1], entries, totalPoints, totalReward);
      var net := NetReward(cfg, entries[k], totalPoints, totalReward);
      assert keys == keys[..|keys| - 1] + [k];
      if net < cfg.dust then ps
      else
        var ps' := ps + [Payout(k, net)];
        assert ps'[..|ps'| - 1] == ps;
        ps'
  }

  /** Every user of `keys` whose net reward reaches the dust threshold is paid. */
  lemma {:induction false} PayoutsComplete(cfg: Config, keys: seq<User>, entries: map<User, Entry>,
                                           totalPoints: int, totalReward: int)
    requires cfg.scale != 0.0
    requires forall k :: k in keys ==> k in entries
    requires keys != [] ==> totalPoints != 0
    ensures forall k :: k in keys && NetReward(cfg, entries[k], totalPoints, totalReward) >= cfg.dust ==>
      k in Users(Payouts(cfg, keys, entries, totalPoints, totalReward))
  {
    if keys != [] {
      var p := keys[..|keys| - 1];
      var k := keys[|keys| - 1];
      assert keys == p + [k];
      PayoutsComplete(cfg, p, entries, totalPoints, totalReward);
      PayoutsSnoc(cfg, keys, entries, totalPoints, totalReward);
      UsersSnocPayout(cfg, keys, entries, totalPoints, totalReward);
    }
  }

  /** Payouts keep any strict order of `keys`; in particular no user is paid twice. */
  lemma {:induction false} PayoutsRanked(cfg: Config, keys: seq<User>, entries: map<User, Entry>,
                                         totalPoints: int, totalReward: int, rank: User -> int)
    requires cfg.scale != 0.0
    requires forall k :: k in keys ==> k in entries
    requires keys != [] ==> totalPoints != 0
    requires Ranked(keys, rank)
    ensures Ranked(Users(Payouts(cfg, keys, entries, totalPoints, totalReward)), rank)
  {
    if keys != [] {
      var p := keys[..|keys| - 1];
      var k := keys[|keys| - 1];
      assert keys == p + [k];
      PayoutsRanked(cfg, p, entries, totalPoints, totalReward, rank);
      PayoutsSnoc(cfg, keys, entries, totalPoints, totalReward);
      UsersSnocPayout(cfg, keys, entries, totalPoints, totalReward);
      var us := Users(Payouts(cfg, p, entries, totalPoints, totalReward));
      forall u | u in us ensures rank(u) < rank(k) {
        var i :| 0 <= i < |us| && us[i] == u;
        assert u in p;
      }
    }
  }

  lemma UsersSnocPayout(cfg: Config, keys: seq<User>, entries: map<User, Entry>, totalPoints: int, totalReward: int)
    requires cfg.scale != 0.0
    requires forall k :: k in keys ==> k in entries
    requires keys != [] && totalPoints != 0
    ensures var k := keys[|keys| - 1];
      var p := keys[..|keys| - 1];
      var us := Users(Payouts(cfg, p, entries, totalPoints, totalReward));
      && (forall u :: u in us ==> u in p)
      && Users(Payouts(cfg, keys, entries, totalPoints, totalReward)) ==
         if NetReward(cfg, entries[k], totalPoints, totalReward) < cfg.dust then us else us + [k]
  {
    var k := keys[|keys| - 1];
    var p := keys[..|keys| - 1];
    var ps := Payouts(cfg, p, entries, totalPoints, totalReward);
    PayoutsSnoc(cfg, keys, entries, totalPoints, totalReward);
    var net := NetReward(cfg, entries[k], totalPoints, totalReward);
    if net >= cfg.dust {
      var ps' := ps + [Payout(k, net)];
      assert ps'[..|ps'| - 1] == ps;
    }
    forall u | u in Users(ps) ensures u in p {
      var i :| 0 <= i < |ps| && Users(ps)[i] == u;
      assert ps[i] in ps;
    }
  }

  lemma PayoutsSnoc(cfg: Config, keys: seq<User>, entries: map<User, Entry>, totalPoints: int, totalReward: int)
    requires cfg.scale != 0.0
    requires forall k :: k in keys ==> k in entries
    requires keys != [] && totalPoints != 0
    ensures var k := keys[|keys| - 1];
      var net := NetReward(cfg, entries[k], totalPoints, totalReward);
      var ps := Payouts(cfg, keys[..|keys| - 1], entries, totalPoints, totalReward);
      Payouts(cfg, keys, entries, totalPoints, totalReward) == if net < cfg.dust then ps else ps + [Payout(k, net)]
  {
  }

  /** The result loop of the source. */
  method Distribute(cfg: Config, F: Ledger, totalPoints: int, totalReward: int) returns (result: seq<Payout>)
    requires cfg.scale != 0.0
    requires forall k :: k in F.keys ==> k in F.entries
    requires F.keys != [] ==> totalPoints != 0
    ensures result == Payouts(cfg, F.keys, F.entries, totalPoints, totalReward)
  {
    result := [];
    for i := 0 to |F.keys|
      invariant result == Payouts(cfg, F.keys[..i], F.entries, totalPoints, totalReward)
    {
      PayoutsSnoc(cfg, F.keys[..i + 1], F.entries, totalPoints, totalReward);
      assert F.keys[..i + 1][..i] == F.keys[..i];
      var k := F.keys[i];
      var r := F.entries[k];
      var reward := Share(totalReward, r.point, totalPoints);
      reward := (reward - r.reward as real) / cfg.scale;
      // the transfer fee
      reward := reward - cfg.fee;
      assert reward == NetReward(cfg, r, totalPoints, totalReward);
      // dust
      if reward < cfg.dust {
        continue;
      }
      result := result + [Payout(k, reward)];
    }
    assert F.keys[..|F.keys|] == F.keys;
  }

  // ---------------------------------------------------------------------------
  // Conservation

  /** The shares less the claims, summed over `keys`. */
  function Excess(keys: seq<User>, entries: map<User, Entry>, totalPoints: int, totalReward: int): real
    requires forall k :: k in keys ==> k in entries
    requires totalPoints != 0
  {
    if keys == [] then 0.0
    else
      var e := entries[keys[|keys| - 1]];
      Excess(keys[..|keys| - 1], entries, totalPoints, totalReward) + (Share(totalReward, e.point, totalPoints) - e.reward as real)
  }

  lemma {:induction false} ExcessIsProRata(keys: seq<User>, entries: map<User, Entry>, totalPoints: int, totalReward: int)
    requires forall k :: k in keys ==> k in entries
    requires totalPoints != 0
    ensures Excess(keys, entries, totalPoints, totalReward) ==
      (totalReward * SumPoints(keys, entries)) as real / totalPoints as real - SumRewards(keys, entries) as real
  {
    if keys != [] {
      var p := keys[..|keys| - 1];
      var e := entries[keys[|keys| - 1]];
      ExcessIsProRata(p, entries, totalPoints, totalReward);
      var sum := SumPoints(p, entries);
      assert totalReward * (sum + e.point) == totalReward * sum + totalReward * e.point;
      assert (totalReward * sum) as real / totalPoints as real + (totalReward * e.point) as real / totalPoints as real
          == (totalReward * sum + totalReward * e.point) as real / totalPoints as real;
    }
  }

  /**
    With the totals taken over the same map, the shares less the claims add up
    to exactly the external pool: the claimed rewards are handed back in full
    and the rest is `extReward`.
   */
  lemma Conservation(cfg: Config, F: Ledger)
    requires forall k :: k in F.keys ==> k in F.entries
    requires SumPoints(F.keys, F.entries) != 0
    ensures Excess(F.keys, F.entries, SumPoints(F.keys, F.entries), cfg.extReward + SumRewards(F.keys, F.entries))
      == cfg.extReward as real
  {
    var tp := SumPoints(F.keys, F.entries);
    var tr := cfg.extReward + SumRewards(F.keys, F.entries);
    ExcessIsProRata(F.keys, F.entries, tp, tr);
    assert (tr * tp) as real / tp as real == tr as real;
  }

  /** The sum of the paid rewards. */
  function PayoutSum(ps: seq<Payout>): real {
    if ps == [] then 0.0 else PayoutSum(ps[..|ps| - 1]) + ps[|ps| - 1].reward
  }

  /** What leaves the pool in tokens: the payouts and one transfer fee per payout. */
  function Outlay(cfg: Config, ps: seq<Payout>): real {
    PayoutSum(ps) + |ps| as real * cfg.fee
  }

  lemma OutlaySnoc(cfg: Config, ps: seq<Payout>, x: Payout)
    ensures Outlay(cfg, ps + [x]) == Outlay(cfg, ps) + x.reward + cfg.fee
  {
    var ps' := ps + [x];
    assert ps'[..|ps'| - 1] == ps;
    assert |ps'| as real * cfg.fee == |ps| as real * cfg.fee + cfg.fee;
  }

  lemma DivSplit(a: real, b: real, d: real)
    requires d != 0.0
    ensures (a + b) / d == a / d + b / d
  {
  }

  /**
    When no user of `keys` is owed a negative amount, the payouts plus their
    fees take no more than the excess, in tokens.
   */
  lemma {:induction false} PayoutsWithinExcess(cfg: Config, keys: seq<User>, entries: map<User, Entry>,
                                               totalPoints: int, totalReward: int)
    requires cfg.scale > 0.0
    requires forall k :: k in keys ==> k in entries
    requires totalPoints != 0
    requires forall k :: k in keys ==> Share(totalReward, entries[k].point, totalPoints) >= entries[k].reward as real
    ensures Outlay(cfg, Payouts(cfg, keys, entries, totalPoints, totalReward))
      <= Excess(keys, entries, totalPoints, totalReward) / cfg.scale
  {
    if keys != [] {
      var p := keys[..|keys| - 1];
      var k := keys[|keys| - 1];
      var e := entries[k];
      PayoutsWithinExcess(cfg, p, entries, totalPoints, totalReward);
      PayoutsSnoc(cfg, keys, entries, totalPoints, totalReward);
      var ps := Payouts(cfg, p, entries, totalPoints, totalReward);
      var owed := Share(totalReward, e.point, totalPoints) - e.reward as real;
      var net := NetReward(cfg, e, totalPoints, totalReward);
      var before := Excess(p, entries, totalPoints, totalReward);
      assert Excess(keys, entries, totalPoints, totalReward) == before + owed;
      DivSplit(before, owed, cfg.scale);
      if net >= cfg.dust {
        OutlaySnoc(cfg, ps, Payout(k, net));
        assert net + cfg.fee == owed / cfg.scale;
      } else {
        assert owed >= 0.0;
        assert owed / cfg.scale >= 0.0;
      }
    }
  }

  /**
    The bound on what is paid out: if every user of the filtered map is still
    owed a non-negative amount under the second-pass totals, the payouts plus
    one fee per payout do not exceed the pool in tokens.
   */
  lemma PayoutBound(cfg: Config, F: Ledger)
    requires cfg.scale > 0.0
    requires forall k :: k in F.keys ==> k in F.entries
    requires SumPoints(F.keys, F.entries) != 0
    requires var tp := SumPoints(F.keys, F.entries);
      var tr := cfg.extReward + SumRewards(F.keys, F.entries);
      forall k :: k in F.keys ==> Share(tr, F.entries[k].point, tp) >= F.entries[k].reward as real
    ensures Outlay(cfg, Payouts(cfg, F.keys, F.entries, SumPoints(F.keys, F.entries), cfg.extReward + SumRewards(F.keys, F.entries)))
      <= cfg.extReward as real / cfg.scale
  {
    var tp := SumPoints(F.keys, F.entries);
    var tr := cfg.extReward + SumRewards(F.keys, F.entries);
    Conservation(cfg, F);
    PayoutsWithinExcess(cfg, F.keys, F.entries, tp, tr);
  }
}
