/** Counting the rebuilt hashes of a claim. The registry counts with two nested loops; what they
    compute is stated here with multisets, sets and the order of arrival. */
module Tally {
  import opened Chain

  datatype Tally = Tally(total: nat, topCount: nat, distinct: nat)

  /** How many attestations carry `h`. */
  function Multiplicity(hs: seq<Hash>, h: Hash): nat {
    multiset(hs)[h]
  }

  function HashSet(hs: seq<Hash>): set<Hash> {
    set h | h in hs
  }

  /** The leader after the first `n` arrivals have been weighed, with the count it holds overall. */
  function Leader(hs: seq<Hash>, n: nat): (Hash, nat)
    requires n <= |hs|
  {
    if n == 0 then (ZERO, 0)
    else
      var best := Leader(hs, n - 1);
      var count := Multiplicity(hs, hs[n - 1]);
      if count > best.1 then (hs[n - 1], count) else best
  }

  function TopHash(hs: seq<Hash>): Hash {
    Leader(hs, |hs|).0
  }

  function TallyOf(hs: seq<Hash>): Tally {
    Tally(|hs|, Leader(hs, |hs|).1, |HashSet(hs)|)
  }

  /** `top` is the first arrival that reaches the largest multiplicity, which is `count`. */
  ghost predicate IsFirstMost(hs: seq<Hash>, n: nat, top: Hash, count: nat)
    requires n <= |hs|
  {
    if n == 0 then top == ZERO && count == 0
    else
      && (forall j | 0 <= j < n :: Multiplicity(hs, hs[j]) <= count)
      && exists i | 0 <= i < n ::
           && hs[i] == top
           && Multiplicity(hs, hs[i]) == count
           && forall j | 0 <= j < i :: Multiplicity(hs, hs[j]) < count
  }

  /** The meaning of a tally, without saying how it is found. */
  ghost predicate IsTally(hs: seq<Hash>, top: Hash, t: Tally) {
    && t.total == |hs|
    && t.distinct == |HashSet(hs)|
    && IsFirstMost(hs, |hs|, top, t.topCount)
  }

  lemma PresentCounts(hs: seq<Hash>, i: nat)
    requires i < |hs|
    ensures Multiplicity(hs, hs[i]) >= 1
  {
    assert hs[i] in multiset(hs);
  }

  lemma {:induction false} LeaderIsFirstMost(hs: seq<Hash>, n: nat)
    requires n <= |hs|
    ensures IsFirstMost(hs, n, Leader(hs, n).0, Leader(hs, n).1)
    decreases n
  {
    if n > 0 {
      LeaderIsFirstMost(hs, n - 1);
      PresentCounts(hs, n - 1);
      var (top, count) := Leader(hs, n - 1);
      if n - 1 > 0 {
        var i :| 0 <= i < n - 1 && hs[i] == top && Multiplicity(hs, hs[i]) == count
                 && forall j | 0 <= j < i :: Multiplicity(hs, hs[j]) < count;
        if Multiplicity(hs, hs[n - 1]) > count {
          assert hs[n - 1] == Leader(hs, n).0;
        }
      } else {
        assert hs[0] == Leader(hs, n).0;
      }
    }
  }

  /** The specification functions mean what a tally is. */
  lemma TallyMeans(hs: seq<Hash>)
    ensures IsTally(hs, TopHash(hs), TallyOf(hs))
  {
    LeaderIsFirstMost(hs, |hs|);
  }

  /** At most one answer fits a list. */
  lemma TallyUnique(hs: seq<Hash>, top: Hash, t: Tally, top': Hash, t': Tally)
    requires IsTally(hs, top, t) && IsTally(hs, top', t')
    ensures top == top' && t == t'
  {
    if hs != [] {
      var i :| 0 <= i < |hs| && hs[i] == top && Multiplicity(hs, hs[i]) == t.topCount
               && forall j | 0 <= j < i :: Multiplicity(hs, hs[j]) < t.topCount;
      var k :| 0 <= k < |hs| && hs[k] == top' && Multiplicity(hs, hs[k]) == t'.topCount
               && forall j | 0 <= j < k :: Multiplicity(hs, hs[j]) < t'.topCount;
      assert Multiplicity(hs, hs[i]) <= t'.topCount && Multiplicity(hs, hs[k]) <= t.topCount;
    }
  }

  lemma PrefixCount(hs: seq<Hash>, n: nat, h: Hash)
    requires n < |hs|
    ensures multiset(hs[..n + 1])[h] == multiset(hs[..n])[h] + if hs[n] == h then 1 else 0
  {
    assert hs[..n + 1] == hs[..n] + [hs[n]];
  }

  /** The set of hashes grows exactly at a first arrival. */
  lemma PrefixDistinct(hs: seq<Hash>, n: nat)
    requires n < |hs|
    ensures |HashSet(hs[..n + 1])| == |HashSet(hs[..n])| + if hs[n] in hs[..n] then 0 else 1
  {
    assert hs[..n + 1] == hs[..n] + [hs[n]];
    assert HashSet(hs[..n + 1]) == HashSet(hs[..n]) + {hs[n]};
  }

  /** The registry's count: two nested loops over the attestations, in order of arrival. */
  method TallyLoop(hashes: seq<Hash>) returns (top: Hash, t: Tally)
    ensures IsTally(hashes, top, t)
    ensures top == TopHash(hashes) && t == TallyOf(hashes)
  {
    var total := |hashes|;
    top := ZERO;
    var topCount := 0;
    var distinct := 0;
    for i := 0 to total
      invariant (top, topCount) == Leader(hashes, i)
      invariant distinct == |HashSet(hashes[..i])|
    {
      var hash := hashes[i];
      var count := 0;
      var firstSeen := true;
      for j := 0 to total
        invariant count == multiset(hashes[..j])[hash]
        invariant firstSeen == (hash !in hashes[..if j < i then j else i])
      {
        PrefixCount(hashes, j, hash);
        if hashes[j] == hash {
          count := count + 1;
          if j < i {
            firstSeen := false;
          }
        }
        assert j < i ==> hashes[..j + 1] == hashes[..j] + [hashes[j]];
      }
      assert hashes[..total] == hashes;
      PrefixDistinct(hashes, i);
      if firstSeen {
        distinct := distinct + 1;
      }
      if count > topCount {
        topCount := count;
        top := hash;
      }
    }
    assert hashes[..total] == hashes;
    t := Tally(total, topCount, distinct);
    TallyMeans(hashes);
  }

  /** Every count is the same for every order of arrival. */
  lemma CountsIgnoreOrder(hs: seq<Hash>, hs': seq<Hash>)
    requires multiset(hs) == multiset(hs')
    ensures TallyOf(hs) == TallyOf(hs')
  {
    assert |hs| == |multiset(hs)| == |multiset(hs')| == |hs'|;
    assert forall h :: h in hs <==> h in multiset(hs);
    assert forall h :: h in hs' <==> h in multiset(hs');
    assert HashSet(hs) == HashSet(hs');
    TallyMeans(hs);
    TallyMeans(hs');
    if hs != [] {
      TopIsHeld(hs);
      TopIsHeld(hs');
      assert TopHash(hs) in multiset(hs') && TopHash(hs') in multiset(hs);
      NoneAbove(hs, TopHash(hs'));
      NoneAbove(hs', TopHash(hs));
    }
  }

  lemma TopIsHeld(hs: seq<Hash>)
    requires hs != []
    ensures TopHash(hs) in hs
    ensures Multiplicity(hs, TopHash(hs)) == TallyOf(hs).topCount
    ensures 1 <= TallyOf(hs).topCount <= |hs|
  {
    TallyMeans(hs);
    assert hs[0] in hs;
    PresentCounts(hs, 0);
    MultiplicityBound(hs, TopHash(hs));
  }

  lemma MultiplicityBound(hs: seq<Hash>, h: Hash)
    ensures Multiplicity(hs, h) <= |hs|
  {
    assert |multiset(hs)| == |hs|;
    assert multiset(hs)[h := 0] <= multiset(hs);
    assert |multiset(hs)[h := 0]| == |hs| - multiset(hs)[h];
  }

  lemma NoneAbove(hs: seq<Hash>, h: Hash)
    ensures Multiplicity(hs, h) <= TallyOf(hs).topCount
  {
    TallyMeans(hs);
    if h in hs {
      var i :| 0 <= i < |hs| && hs[i] == h;
      assert Multiplicity(hs, hs[i]) <= TallyOf(hs).topCount;
    }
  }

  /** One distinct hash means a non-empty, unanimous list, whose hash is the leader. */
  lemma OneDistinctIsUnanimous(hs: seq<Hash>)
    ensures TallyOf(hs).distinct == 1 <==> hs != [] && forall h | h in hs :: h == hs[0]
    ensures TallyOf(hs).distinct == 1 ==> TopHash(hs) == hs[0]
  {
    var s := HashSet(hs);
    if |s| == 1 {
      var x :| x in s;
      assert |s - {x}| == 0;
      assert s == {x};
      assert hs != [];
      assert hs[0] in s;
      assert forall h | h in hs :: h in s;
      TopIsHeld(hs);
    }
    if hs != [] && forall h | h in hs :: h == hs[0] {
      assert s == {hs[0]};
    }
  }

  /** Two different hashes together hold at most everything. */
  lemma TwoHashes(hs: seq<Hash>, a: Hash, b: Hash)
    requires a != b
    ensures Multiplicity(hs, a) + Multiplicity(hs, b) <= |hs|
  {
    var m := multiset(hs);
    assert |m| == |hs|;
    var m1 := m[a := 0];
    assert |m1| == |m| - m[a];
    var m2 := m1[b := 0];
    assert |m2| == |m1| - m1[b];
  }

  /** A strict majority is held by one hash only, the leader, whatever the order of arrival. */
  lemma MajorityIsUnique(hs: seq<Hash>, hs': seq<Hash>, h: Hash)
    requires multiset(hs) == multiset(hs')
    requires 2 * Multiplicity(hs, h) > |hs|
    ensures TopHash(hs) == h && TopHash(hs') == h
  {
    assert |hs| == |multiset(hs)| == |multiset(hs')| == |hs'|;
    LeadsByMajority(hs, h);
    LeadsByMajority(hs', h);
  }

  lemma LeadsByMajority(hs: seq<Hash>, h: Hash)
    requires 2 * Multiplicity(hs, h) > |hs|
    ensures TopHash(hs) == h
  {
    NoneAbove(hs, h);
    assert hs != [] by {
      MultiplicityBound(hs, h);
    }
    TopIsHeld(hs);
    if TopHash(hs) != h {
      TwoHashes(hs, h, TopHash(hs));
    }
  }
}
