/**
  The per-user point fold: one pass over the timeline that keeps, per user,
  the points earned and the rewards already claimed, in a map whose keys are
  ordered by first insertion.
 */
module PointFold {
  import opened StakingTypes

  /** Only events up to and including `untilBlock` take part. */
  predicate Eligible(cfg: Config, r: Record) {
    r.blockNumber <= cfg.untilBlock
  }

  /** Blocks credited to a stake or claim at block `b`: the blocks left until `untilBlock`, floored at `blocksOf90Days`. */
  function LockedBlocks(cfg: Config, b: int): (blocks: int)
    ensures blocks >= cfg.blocksOf90Days && blocks >= cfg.untilBlock - b
    ensures blocks == cfg.blocksOf90Days || blocks == cfg.untilBlock - b
  {
    var blocks := cfg.untilBlock - b;
    if blocks < cfg.blocksOf90Days then cfg.blocksOf90Days else blocks
  }

  /** The change an event makes to its user's points; a withdrawal's is not floored. */
  function Delta(cfg: Config, r: Record): int {
    if r.kind == Withdrawal then -((cfg.untilBlock - r.blockNumber) * r.amount)
    else LockedBlocks(cfg, r.blockNumber) * r.amount
  }

  /** The change an event makes to its user's claimed reward. */
  function ClaimAmount(r: Record): int {
    if r.kind == Claim then r.amount else 0
  }

  /**
    One turn of the fold. An event past `untilBlock` is skipped; an event of a
    known user adds its delta (and a claim its amount); the first event of a
    user must be a stake and creates the entry.
   */
  function Step(cfg: Config, L: Ledger, r: Record): (res: Result<Ledger>)
    ensures res.Err? <==> Eligible(cfg, r) && r.user !in L.entries && r.kind != Staking
    ensures !Eligible(cfg, r) ==> res == Ok(L)
    ensures res.Ok? && L.Valid() ==> res.value.Valid()
  {
    if !Eligible(cfg, r) then Ok(L)
    else if r.user in L.entries then
      var e := L.entries[r.user];
      Ok(Ledger(L.keys, L.entries[r.user := Entry(e.point + Delta(cfg, r), e.reward + ClaimAmount(r))]))
    else if r.kind == Staking then
      Ok(Ledger(L.keys + [r.user], L.entries[r.user := Entry(Delta(cfg, r), 0)]))
    else
      Err(MissingStakeRecord(r.user))
  }

  /**
    What one eligible event does to the map: its user's points move by the
    event's delta and its claimed reward by the claim amount (a first stake
    creates the entry with no claimed reward and appends the user to the key
    order), and every other user's entry is as it was.
   */
  lemma StepEffect(cfg: Config, L: Ledger, r: Record)
    requires Eligible(cfg, r) && Step(cfg, L, r).Ok?
    ensures var L' := Step(cfg, L, r).value;
      && r.user in L'.entries
      && (r.user in L.entries ==>
            && L'.keys == L.keys
            && L'.entries[r.user].point == L.entries[r.user].point + Delta(cfg, r)
            && L'.entries[r.user].reward == L.entries[r.user].reward + ClaimAmount(r))
      && (r.user !in L.entries ==>
            && r.kind == Staking
            && L'.keys == L.keys + [r.user]
            && L'.entries[r.user] == Entry(LockedBlocks(cfg, r.blockNumber) * r.amount, 0))
      && (forall u :: u != r.user ==>
            && (u in L'.entries <==> u in L.entries)
            && (u in L.entries ==> L'.entries[u] == L.entries[u]))
  {
  }

  /** The fold over the timeline, from an empty map; the first error stops it. */
  function FoldSpec(cfg: Config, s: seq<Record>): (res: Result<Ledger>)
    ensures res.Ok? ==> res.value.Valid()
  {
    if s == [] then Ok(Ledger([], map[]))
    else
      match FoldSpec(cfg, s[..|s| - 1])
      case Err(e) => Err(e)
      case Ok(L) => Step(cfg, L, s[|s| - 1])
  }

  /** The fold as the source runs it: a loop that updates the result map in place. */
  method FoldRecords(cfg: Config, records: seq<Record>) returns (res: Result<Ledger>)
    ensures res == FoldSpec(cfg, records)
  {
    var keys: seq<User> := [];
    var resMap: map<User, Entry> := map[];
    for i := 0 to |records|
      invariant FoldSpec(cfg, records[..i]) == Ok(Ledger(keys, resMap))
    {
      FoldSpecSnoc(cfg, records, i);
      var r := records[i];
      if r.blockNumber > cfg.untilBlock {
        continue;
      }
      if r.user in resMap {
        var record := resMap[r.user];
        var blocks := cfg.untilBlock - r.blockNumber;
        if r.kind == Staking {
          blocks := if blocks < cfg.blocksOf90Days then cfg.blocksOf90Days else blocks;
          record := record.(point := record.point + blocks * r.amount);
        } else if r.kind == Claim {
          blocks := if blocks < cfg.blocksOf90Days then cfg.blocksOf90Days else blocks;
          record := record.(point := record.point + blocks * r.amount, reward := record.reward + r.amount);
        } else {
          record := record.(point := record.point - blocks * r.amount);
        }
        resMap := resMap[r.user := record];
      } else {
        if r.kind != Staking {
          FoldErrPersists(cfg, records, i + 1);
          return Err(MissingStakeRecord(r.user));
        }
        var blocks := cfg.untilBlock - r.blockNumber;
        blocks := if blocks < cfg.blocksOf90Days then cfg.blocksOf90Days else blocks;
        resMap := resMap[r.user := Entry(blocks * r.amount, 0)];
        keys := keys + [r.user];
      }
    }
    assert records[..|records|] == records;
    return Ok(Ledger(keys, resMap));
  }

  /** Folding one more event of the timeline is one more step. */
  lemma FoldSpecSnoc(cfg: Config, s: seq<Record>, i: nat)
    requires i < |s|
    ensures FoldSpec(cfg, s[..i]).Err? ==> FoldSpec(cfg, s[..i + 1]) == FoldSpec(cfg, s[..i])
    ensures FoldSpec(cfg, s[..i]).Ok? ==> FoldSpec(cfg, s[..i + 1]) == Step(cfg, FoldSpec(cfg, s[..i]).value, s[i])
  {
    assert s[..i + 1][..i] == s[..i];
  }

  /** Once the fold has failed on a prefix, it fails with the same error on the whole timeline. */
  lemma {:induction false} FoldErrPersists(cfg: Config, s: seq<Record>, n: nat)
    requires n <= |s|
    requires FoldSpec(cfg, s[..n]).Err?
    ensures FoldSpec(cfg, s) == FoldSpec(cfg, s[..n])
    decreases |s| - n
  {
    if n < |s| {
      var p := s[..|s| - 1];
      assert p[..n] == s[..n];
      FoldErrPersists(cfg, p, n);
    } else {
      assert s[..n] == s;
    }
  }

  // ---------------------------------------------------------------------------
  // Reference definitions over the timeline, independent of the fold

  /** The events of `s` that take part, in order. */
  function EligibleOnly(cfg: Config, s: seq<Record>): (t: seq<Record>)
    ensures forall r :: r in t <==> r in s && Eligible(cfg, r)
  {
    if s == [] then []
    else
      var r := s[|s| - 1];
      var p := EligibleOnly(cfg, s[..|s| - 1]);
      assert s == s[..|s| - 1] + [r];
      if Eligible(cfg, r) then p + [r] else p
  }

  /** The users with at least one eligible event. */
  function EligibleUsers(cfg: Config, s: seq<Record>): set<User> {
    set r | r in s && Eligible(cfg, r) :: r.user
  }

  /** The first eligible event of every user is a stake. */
  ghost predicate StakeFirst(cfg: Config, s: seq<Record>) {
    forall i :: 0 <= i < |s| && Eligible(cfg, s[i]) && s[i].user !in EligibleUsers(cfg, s[..i]) ==>
      s[i].kind == Staking
  }

  /** The points of `u`: the sum of the deltas of its eligible events. */
  function PointSum(cfg: Config, s: seq<Record>, u: User): int {
    if s == [] then 0
    else
      var r := s[|s| - 1];
      PointSum(cfg, s[..|s| - 1], u) + (if Eligible(cfg, r) && r.user == u then Delta(cfg, r) else 0)
  }

  /** The rewards `u` has claimed: the sum of its eligible claim amounts. */
  function ClaimSum(cfg: Config, s: seq<Record>, u: User): int {
    if s == [] then 0
    else
      var r := s[|s| - 1];
      ClaimSum(cfg, s[..|s| - 1], u) + (if Eligible(cfg, r) && r.user == u && r.kind == Claim then r.amount else 0)
  }

  /** The position of the first eligible event of `u` in `s`, or |s| when there is none. */
  function FirstIndex(cfg: Config, s: seq<Record>, u: User): (i: nat)
    ensures i <= |s|
    ensures i < |s| <==> u in EligibleUsers(cfg, s)
    ensures i < |s| ==> s[i].user == u && Eligible(cfg, s[i]) && u !in EligibleUsers(cfg, s[..i])
  {
    if s == [] then 0
    else
      var p := s[..|s| - 1];
      var r := s[|s| - 1];
      assert s == p + [r];
      if u in EligibleUsers(cfg, p) then
        var i := FirstIndex(cfg, p, u);
        assert s[..i] == p[..i];
        i
      else if Eligible(cfg, r) && r.user == u then
        assert s[..|s| - 1] == p;
        |s| - 1
      else
        |s|
  }

  /** What a successful fold over `s` holds. */
  ghost predicate Summarises(cfg: Config, s: seq<Record>, L: Ledger) {
    && L.Valid()
    && (forall u :: u in L.entries <==> u in EligibleUsers(cfg, s))
    && (forall u :: u in L.entries ==> L.entries[u] == Entry(PointSum(cfg, s, u), ClaimSum(cfg, s, u)))
    && InFirstEventOrder(cfg, s, L.keys)
  }

  /** `keys` lists users in the order of their first eligible event in `s`. */
  ghost predicate InFirstEventOrder(cfg: Config, s: seq<Record>, keys: seq<User>) {
    forall i, j :: 0 <= i < j < |keys| ==> FirstIndex(cfg, s, keys[i]) < FirstIndex(cfg, s, keys[j])
  }

  lemma {:induction false} NoEventsNoSums(cfg: Config, s: seq<Record>, u: User)
    requires u !in EligibleUsers(cfg, s)
    ensures PointSum(cfg, s, u) == 0 && ClaimSum(cfg, s, u) == 0
  {
    if s != [] {
      var p := s[..|s| - 1];
      assert s == p + [s[|s| - 1]];
      EligibleUsersSnoc(cfg, p, s[|s| - 1]);
      NoEventsNoSums(cfg, p, u);
    }
  }

  // ---------------------------------------------------------------------------
  // What the fold computes

  lemma EligibleUsersSnoc(cfg: Config, p: seq<Record>, r: Record)
    ensures EligibleUsers(cfg, p + [r]) == EligibleUsers(cfg, p) + (if Eligible(cfg, r) then {r.user} else {})
  {
    var s := p + [r];
    assert forall x :: x in s <==> x in p || x == r;
  }

  lemma StakeFirstSnoc(cfg: Config, p: seq<Record>, r: Record)
    ensures StakeFirst(cfg, p + [r]) <==>
      && StakeFirst(cfg, p)
      && (Eligible(cfg, r) && r.user !in EligibleUsers(cfg, p) ==> r.kind == Staking)
  {
    var s := p + [r];
    assert s[..|p|] == p;
    forall i | 0 <= i < |p| ensures s[..i] == p[..i] && s[i] == p[i] {
    }
  }

  /** The fold fails exactly when some user's first eligible event is not a stake. */
  lemma {:induction false} FoldOkIffStakeFirst(cfg: Config, s: seq<Record>)
    ensures FoldSpec(cfg, s).Ok? <==> StakeFirst(cfg, s)
    ensures FoldSpec(cfg, s).Err? ==> FoldSpec(cfg, s).error.MissingStakeRecord?
  {
    if s == [] {
    } else {
      var p := s[..|s| - 1];
      var r := s[|s| - 1];
      assert s == p + [r];
      FoldOkIffStakeFirst(cfg, p);
      StakeFirstSnoc(cfg, p, r);
      var prev := FoldSpec(cfg, p);
      if prev.Ok? {
        FoldSummarises(cfg, p);
        assert r.user in prev.value.entries <==> r.user in EligibleUsers(cfg, p);
        assert FoldSpec(cfg, s) == Step(cfg, prev.value, r);
      } else {
        assert FoldSpec(cfg, s) == prev;
      }
    }
  }

  /**
    A successful fold holds, for every user with an eligible event and no
    one else, the sum of its point deltas and of its claims, with the users in
    the order of their first eligible event.
   */
  lemma {:induction false} FoldSummarises(cfg: Config, s: seq<Record>)
    requires FoldSpec(cfg, s).Ok?
    ensures Summarises(cfg, s, FoldSpec(cfg, s).value)
  {
    if s != [] {
      var p := s[..|s| - 1];
      var r := s[|s| - 1];
      assert s == p + [r];
      FoldSummarises(cfg, p);
      StepSummarises(cfg, p, r, FoldSpec(cfg, p).value);
    }
  }

  lemma StepSummarises(cfg: Config, p: seq<Record>, r: Record, L: Ledger)
    requires Summarises(cfg, p, L)
    requires Step(cfg, L, r).Ok?
    ensures Summarises(cfg, p + [r], Step(cfg, L, r).value)
  {
    var s := p + [r];
    var L' := Step(cfg, L, r).value;
    SnocFacts(cfg, p, r);
    assert L'.Valid();
    assert forall u :: u in L'.entries <==> u in EligibleUsers(cfg, s);
    forall u | u in L'.entries
      ensures L'.entries[u] == Entry(PointSum(cfg, s, u), ClaimSum(cfg, s, u))
    {
      StepEntry(cfg, p, r, L, u);
    }
    StepKeepsOrder(cfg, p, r, L);
  }

  lemma StepEntry(cfg: Config, p: seq<Record>, r: Record, L: Ledger, u: User)
    requires u in L.entries <==> u in EligibleUsers(cfg, p)
    requires u in L.entries ==> L.entries[u] == Entry(PointSum(cfg, p, u), ClaimSum(cfg, p, u))
    requires Step(cfg, L, r).Ok? && u in Step(cfg, L, r).value.entries
    ensures Step(cfg, L, r).value.entries[u] == Entry(PointSum(cfg, p + [r], u), ClaimSum(cfg, p + [r], u))
  {
    SnocFacts(cfg, p, r);
    if u != r.user || !Eligible(cfg, r) {
    } else if u in L.entries {
    } else {
      NoEventsNoSums(cfg, p, u);
    }
  }

  /** How the reference definitions change when one event is appended. */
  lemma SnocFacts(cfg: Config, p: seq<Record>, r: Record)
    ensures EligibleUsers(cfg, p + [r]) == EligibleUsers(cfg, p) + (if Eligible(cfg, r) then {r.user} else {})
    ensures forall u :: PointSum(cfg, p + [r], u) == PointSum(cfg, p, u) + (if Eligible(cfg, r) && r.user == u then Delta(cfg, r) else 0)
    ensures forall u :: ClaimSum(cfg, p + [r], u) == ClaimSum(cfg, p, u) + (if Eligible(cfg, r) && r.user == u && r.kind == Claim then r.amount else 0)
    ensures forall u :: u in EligibleUsers(cfg, p) ==> FirstIndex(cfg, p + [r], u) == FirstIndex(cfg, p, u)
    ensures Eligible(cfg, r) && r.user !in EligibleUsers(cfg, p) ==> FirstIndex(cfg, p + [r], r.user) == |p|
  {
    assert (p + [r])[..|p|] == p;
    EligibleUsersSnoc(cfg, p, r);
    FirstIndexSnoc(cfg, p, r);
  }

  lemma FirstIndexSnoc(cfg: Config, p: seq<Record>, r: Record)
    ensures forall u :: u in EligibleUsers(cfg, p) ==> FirstIndex(cfg, p + [r], u) == FirstIndex(cfg, p, u)
    ensures Eligible(cfg, r) && r.user !in EligibleUsers(cfg, p) ==> FirstIndex(cfg, p + [r], r.user) == |p|
  {
    assert (p + [r])[..|p|] == p;
  }

  lemma StepKeepsOrder(cfg: Config, p: seq<Record>, r: Record, L: Ledger)
    requires L.Valid()
    requires forall u :: u in L.entries <==> u in EligibleUsers(cfg, p)
    requires InFirstEventOrder(cfg, p, L.keys)
    requires Step(cfg, L, r).Ok?
    ensures InFirstEventOrder(cfg, p + [r], Step(cfg, L, r).value.keys)
  {
    var s := p + [r];
    var keys' := Step(cfg, L, r).value.keys;
    FirstIndexSnoc(cfg, p, r);
    forall i | 0 <= i < |L.keys|
      ensures FirstIndex(cfg, s, L.keys[i]) == FirstIndex(cfg, p, L.keys[i]) < |p|
    {
      assert L.keys[i] in L.entries;
    }
    if Eligible(cfg, r) && r.user !in L.entries {
      assert keys' == L.keys + [r.user];
      assert FirstIndex(cfg, s, r.user) == |p|;
      forall i, j | 0 <= i < j < |keys'|
        ensures FirstIndex(cfg, s, keys'[i]) < FirstIndex(cfg, s, keys'[j])
      {
        assert keys'[i] == L.keys[i];
        if j < |L.keys| {
          assert keys'[j] == L.keys[j];
        }
      }
    } else {
      assert keys' == L.keys;
    }
  }


  /** Events past `untilBlock` change nothing: folding only the eligible ones gives the same result. */
  lemma {:induction false} FoldIgnoresLateEvents(cfg: Config, s: seq<Record>)
    ensures FoldSpec(cfg, s) == FoldSpec(cfg, EligibleOnly(cfg, s))
  {
    if s != [] {
      var p := s[..|s| - 1];
      var r := s[|s| - 1];
      FoldIgnoresLateEvents(cfg, p);
      if Eligible(cfg, r) {
        var e := EligibleOnly(cfg, p);
        assert (e + [r])[..|e + [r]| - 1] == e;
      }
    }
  }
}
