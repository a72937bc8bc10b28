/**
  The chronological merge: the stake, claim and withdrawal records are
  concatenated and sorted by block number, records of one block ordered by
  their type code (stake, then claim, then withdrawal).
 */
module Timeline {
  import opened StakingTypes

  /** The sort key (blockNumber, type code) of `r1` is strictly below that of `r2`. */
  predicate Before(r1: Record, r2: Record) {
    || r1.blockNumber < r2.blockNumber
    || (r1.blockNumber == r2.blockNumber && r1.kind.Code() < r2.kind.Code())
  }

  predicate SameKey(r1: Record, r2: Record) {
    r1.blockNumber == r2.blockNumber && r1.kind == r2.kind
  }

  /** The comparator handed to the sort: negative, zero or positive as `r1` sorts before, with or after `r2`. */
  function Compare(r1: Record, r2: Record): (c: int)
    ensures c < 0 <==> Before(r1, r2)
    ensures c == 0 <==> SameKey(r1, r2)
    ensures c > 0 <==> Before(r2, r1)
  {
    if r1.blockNumber == r2.blockNumber then
      r1.kind.Code() - r2.kind.Code()
    else
      r1.blockNumber - r2.blockNumber
  }

  ghost predicate Sorted(s: seq<Record>) {
    forall i, j :: 0 <= i < j < |s| ==> !Before(s[j], s[i])
  }

  /** The records of `s` with the same sort key as `k`, in their order in `s`. */
  function WithKeyOf(s: seq<Record>, k: Record): seq<Record> {
    if s == [] then [] else Hit(s[0], k) + WithKeyOf(s[1..], k)
  }

  function Hit(r: Record, k: Record): seq<Record> {
    if SameKey(r, k) then [r] else []
  }

  /** Places `r` before the first record of `s` that does not sort strictly before it. */
  function Insert(r: Record, s: seq<Record>): (t: seq<Record>)
    ensures multiset(t) == multiset(s) + multiset{r}
  {
    if s == [] then [r]
    else if Compare(s[0], r) < 0 then
      assert s == [s[0]] + s[1..];
      [s[0]] + Insert(r, s[1..])
    else [r] + s
  }

  lemma {:induction false} InsertSorted(r: Record, s: seq<Record>)
    requires Sorted(s)
    ensures Sorted(Insert(r, s))
  {
    if s != [] && Compare(s[0], r) < 0 {
      var rest := Insert(r, s[1..]);
      InsertSorted(r, s[1..]);
      forall x | x in rest ensures !Before(x, s[0]) {
        assert x in multiset(rest);
      }
    }
  }

  /** Inserting `r` adds it in front of the records of `s` that share its key. */
  lemma {:induction false} InsertStable(r: Record, s: seq<Record>, k: Record)
    ensures WithKeyOf(Insert(r, s), k) == Hit(r, k) + WithKeyOf(s, k)
  {
    if s == [] {
      assert [r][1..] == [];
    } else if Compare(s[0], r) < 0 {
      InsertStable(r, s[1..], k);
      PassOver(s[0], r, Insert(r, s[1..]), s[1..], k);
    } else {
      assert ([r] + s)[1..] == s;
    }
  }

  /** A record `x` that sorts strictly before `r` stays in front of it. */
  lemma PassOver(x: Record, r: Record, rest: seq<Record>, tail: seq<Record>, k: Record)
    requires Before(x, r)
    requires WithKeyOf(rest, k) == Hit(r, k) + WithKeyOf(tail, k)
    ensures WithKeyOf([x] + rest, k) == Hit(r, k) + WithKeyOf([x] + tail, k)
  {
    assert ([x] + rest)[1..] == rest;
    assert ([x] + tail)[1..] == tail;
    var wr, wt := WithKeyOf(rest, k), WithKeyOf(tail, k);
    assert WithKeyOf([x] + rest, k) == Hit(x, k) + wr;
    assert WithKeyOf([x] + tail, k) == Hit(x, k) + wt;
    if SameKey(x, k) {
      assert Hit(r, k) == [];
      assert wr == wt;
    } else {
      assert Hit(x, k) == [];
      assert Hit(x, k) + wr == wr;
      assert Hit(x, k) + wt == wt;
    }
  }

  /**
    A stable sort by `Compare` (insertion sort): the result is ordered by key,
    holds the same records, and records with equal keys keep their input order.
   */
  function SortRecords(s: seq<Record>): (t: seq<Record>)
    ensures Sorted(t)
    ensures multiset(t) == multiset(s)
    ensures forall k :: WithKeyOf(t, k) == WithKeyOf(s, k)
  {
    if s == [] then []
    else
      var rest := SortRecords(s[1..]);
      assert s == [s[0]] + s[1..];
      InsertSorted(s[0], rest);
      assert forall k :: WithKeyOf(Insert(s[0], rest), k) == WithKeyOf(s, k) by {
        forall k ensures WithKeyOf(Insert(s[0], rest), k) == WithKeyOf(s, k) {
          InsertStable(s[0], rest, k);
        }
      }
      Insert(s[0], rest)
  }

  /**
    All records of the three inputs in one timeline: ordered by block number,
    stake before claim before withdrawal within a block, a permutation of the
    concatenation, and records with equal keys in concatenation order.
   */
  function Merge(stakes: seq<Record>, claims: seq<Record>, withdrawals: seq<Record>): (t: seq<Record>)
    ensures Sorted(t)
    ensures multiset(t) == multiset(stakes + claims + withdrawals)
    ensures forall k :: WithKeyOf(t, k) == WithKeyOf(stakes + claims + withdrawals, k)
  {
    SortRecords(stakes + claims + withdrawals)
  }
}
