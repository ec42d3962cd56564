/** What a verdict means, and that it is permanent. */
module Verdicts {
  import opened Chain
  import opened Tally
  import opened RegistrySpec
  import opened System
  import opened Filings

  /** The window of `c` has run out. */
  predicate Closed(w: World, c: Claim) {
    && c in w.reg.openedAt
    && w.reg.openedAt[c] + w.cfg.attestWindow <= MAX_U32
    && w.reg.openedAt[c] + w.cfg.attestWindow <= w.now
  }

  predicate Final(s: Consensus) {
    s.Insufficient? || s.Verified? || s.Mismatch? || s.Disputed?
  }

  /** Everybody who attested `c` filed `h`. */
  ghost predicate AllFiled(w: World, c: Claim, h: Hash) {
    forall v | (c, v) in w.reg.atts :: w.reg.atts[(c, v)].rebuilt == h
  }

  /** Two attesters of `c` filed different hashes. */
  ghost predicate SomeDiffer(w: World, c: Claim) {
    exists u, v :: (c, u) in w.reg.atts && (c, v) in w.reg.atts && w.reg.atts[(c, u)].rebuilt != w.reg.atts[(c, v)].rebuilt
  }

  lemma AllFiledIsUnanimous(w: World, c: Claim, h: Hash)
    requires CoherentClaim(w, c)
    ensures AllFiled(w, c, h) <==> forall x | x in HashesOf(w.reg, c) :: x == h
  {
    ReadsAll(w, c);
    var vs, hs := AttestersOf(w.reg, c), HashesOf(w.reg, c);
    if AllFiled(w, c, h) {
      forall x | x in hs
        ensures x == h
      {
        var i :| 0 <= i < |hs| && hs[i] == x;
        assert (c, vs[i]) in w.reg.atts;
      }
    }
    if forall x | x in hs :: x == h {
      forall v | (c, v) in w.reg.atts
        ensures w.reg.atts[(c, v)].rebuilt == h
      {
        assert v in vs;
        var i :| 0 <= i < |vs| && vs[i] == v;
        assert hs[i] in hs;
      }
    }
  }

  lemma SomeDifferIsDistinct(w: World, c: Claim)
    requires CoherentClaim(w, c) && c in w.reg.openedAt
    ensures SomeDiffer(w, c) <==> TallyOf(HashesOf(w.reg, c)).distinct != 1
  {
    var hs := HashesOf(w.reg, c);
    ReadsAll(w, c);
    OneDistinctIsUnanimous(hs);
    AllFiledIsUnanimous(w, c, hs[0]);
    if !AllFiled(w, c, hs[0]) {
      var u :| (c, u) in w.reg.atts && w.reg.atts[(c, u)].rebuilt != hs[0];
      var v := AttestersOf(w.reg, c)[0];
      assert (c, v) in w.reg.atts && w.reg.atts[(c, v)].rebuilt == hs[0];
    }
  }

  /** Which of the readings a claim gives: none before its first attestation, Open until its window ends,
      and one of the four final verdicts from then on. */
  lemma ReadingIff(w: World, c: Claim)
    requires Coherent(w)
    ensures ConsensusOf(w, c) == Ok(NoClaim) <==> AttestersOf(w.reg, c) == []
    ensures Reads(w, c, (s: Consensus) => s.Open?) <==>
              c in w.reg.openedAt && w.now < w.reg.openedAt[c] + w.cfg.attestWindow <= MAX_U32
    ensures Reads(w, c, Final) <==> Closed(w, c)
  {
    assert CoherentClaim(w, c);
  }

  /** The counts a reading carries are those of the claim's attestations: how many verifiers attested, how
      many different hashes they filed, and the most that filed one. */
  lemma CountsAreTrue(w: World, c: Claim)
    requires Coherent(w)
    ensures match ConsensusOf(w, c)
            case Ok(Open(t)) => CountsFiled(w, c, t)
            case Ok(Insufficient(t)) => CountsFiled(w, c, t)
            case Ok(Disputed(t)) => CountsFiled(w, c, t)
            case _ => true
  {
    hide CountsFiled, TallyOf, CoherentClaim;
    assert CoherentClaim(w, c);
    if c in w.reg.openedAt {
      FiledHashes(w, c);
    }
  }

  /** The hashes filed about `c`, each once. */
  ghost function FiledSet(w: World, c: Claim): set<Hash> {
    set i | 0 <= i < |AttestersOf(w.reg, c)| && (c, AttestersOf(w.reg, c)[i]) in w.reg.atts :: w.reg.atts[(c, AttestersOf(w.reg, c)[i])].rebuilt
  }

  ghost predicate CountsFiled(w: World, c: Claim, t: Tally) {
    var hs := HashesOf(w.reg, c);
    && t.total == |AttestersOf(w.reg, c)|
    && t.distinct == |FiledSet(w, c)|
    && (forall h :: multiset(hs)[h] <= t.topCount)
    && (exists h :: h in FiledSet(w, c) && multiset(hs)[h] == t.topCount)
  }

  lemma FiledHashes(w: World, c: Claim)
    requires CoherentClaim(w, c) && c in w.reg.openedAt
    ensures FiledSet(w, c) == HashSet(HashesOf(w.reg, c))
    ensures CountsFiled(w, c, TallyOf(HashesOf(w.reg, c)))
  {
    ReadsAll(w, c);
    var vs, hs := AttestersOf(w.reg, c), HashesOf(w.reg, c);
    forall h
      ensures h in FiledSet(w, c) <==> h in HashSet(hs)
    {
      if h in HashSet(hs) {
        var i :| 0 <= i < |hs| && hs[i] == h;
        assert (c, vs[i]) in w.reg.atts;
      }
    }
    forall h
      ensures multiset(hs)[h] <= TallyOf(hs).topCount
    {
      NoneAbove(hs, h);
    }
    TopIsHeld(hs);
  }

  /** Each verdict, said without counting: a closed claim is Insufficient below the quorum;
      Verified when a quorum of distinct verifiers attested and every one of them filed the claim's
      own hash; Mismatch when they all filed one other hash; Disputed when two of them differ. */
  lemma VerdictMeans(w: World, c: Claim)
    requires Coherent(w) && ValidConfig(w.cfg) && Closed(w, c)
    ensures ConsensusOf(w, c).Ok? && Final(ConsensusOf(w, c).value)
    ensures var s := ConsensusOf(w, c).value;
            var vs := AttestersOf(w.reg, c);
            && Distinct(vs)
            && (s.Insufficient? <==> |vs| < w.cfg.quorum)
            && (s.Verified? <==> |vs| >= w.cfg.quorum && AllFiled(w, c, c.wasm))
            && (s.Mismatch? <==> |vs| >= w.cfg.quorum && exists h :: h != c.wasm && AllFiled(w, c, h))
            && (s.Disputed? <==> |vs| >= w.cfg.quorum && SomeDiffer(w, c))
  {
    assert CoherentClaim(w, c);
    ReadsAll(w, c);
    var hs := HashesOf(w.reg, c);
    OneDistinctIsUnanimous(hs);
    SomeDifferIsDistinct(w, c);
    AllFiledIsUnanimous(w, c, c.wasm);
    AllFiledIsUnanimous(w, c, hs[0]);
    assert hs[0] in hs;
    if TallyOf(hs).distinct != 1 {
      forall h
        ensures !AllFiled(w, c, h)
      {
        AllFiledIsUnanimous(w, c, h);
      }
    } else {
      forall h | AllFiled(w, c, h)
        ensures h == hs[0]
      {
        AllFiledIsUnanimous(w, c, h);
      }
    }
  }

  /** What is filed about a closed claim never changes again. */
  lemma ClosedIsFrozen(w: World, calls: seq<Call>, c: Claim)
    requires Coherent(w) && Closed(w, c)
    ensures var w' := Run(w, calls);
            && Closed(w', c)
            && AttestersOf(w'.reg, c) == AttestersOf(w.reg, c)
            && AttestationsOf(w'.reg, c) == AttestationsOf(w.reg, c)
            && (forall v | (c, v) in w.reg.atts :: (c, v) in w'.reg.atts && w'.reg.atts[(c, v)] == w.reg.atts[(c, v)])
  {
    RunExtends(w, calls, c);
    RunFixed(w, calls);
  }

  predicate Reads(w: World, c: Claim, P: Consensus -> bool) {
    ConsensusOf(w, c).Ok? && P(ConsensusOf(w, c).value)
  }

  /** The verdict of a claim cannot be read exactly when its window would end beyond the last `u32`
      ledger; reading is never refused otherwise. */
  lemma UnreadableIff(w: World, c: Claim)
    ensures ConsensusOf(w, c).Trap? <==> c in w.reg.openedAt && w.reg.openedAt[c] + w.cfg.attestWindow > MAX_U32
    ensures !ConsensusOf(w, c).Err?
  {
  }

  /** A claim nobody attested stays so, unless the transaction is its first attestation: then it is
      open with one attestation, or, if its window would end beyond the last `u32` ledger, its
      verdict cannot be read. */
  lemma NoClaimOnlyOpens(w: World, call: Call, c: Claim)
    requires Coherent(w) && ConsensusOf(w, c) == Ok(NoClaim)
    ensures var first := call.op.Attest? && call.op.claim == c && Exec(w, call).Ok?;
            match ConsensusOf(Step(w, call), c)
            case Ok(NoClaim) => !first
            case Ok(Open(t)) => first && t.total == 1 && t.distinct == 1 && t.topCount == 1 && w.now + w.cfg.attestWindow <= MAX_U32
            case Trap(_) => first && w.now + w.cfg.attestWindow > MAX_U32
            case _ => false
  {
    assert CoherentClaim(w, c);
    StepFixed(w, call);
    if call.op.Attest? && Exec(w, call).Ok? {
      FirstAttestation(w, call.auth, call.op.verifier, call.op.claim, call.op.rebuilt, c);
    }
  }

  lemma FirstAttestation(w: World, auth: set<Address>, v: Address, d: Claim, rebuilt: Hash, c: Claim)
    requires Coherent(w) && c !in w.reg.openedAt && RegistrySpec.Attest(w, auth, v, d, rebuilt).Ok?
    ensures var w' := RegistrySpec.Attest(w, auth, v, d, rebuilt).value;
            && w'.now == w.now && w'.cfg == w.cfg
            && (c in w'.reg.openedAt <==> c == d)
            && (c == d ==> w'.reg.openedAt[c] == w.now && HashesOf(w'.reg, c) == [rebuilt])
    ensures TallyOf([rebuilt]).total == 1 && TallyOf([rebuilt]).distinct == 1 && TallyOf([rebuilt]).topCount == 1
  {
    AttestEffect(w, auth, v, d, rebuilt);
    assert CoherentClaim(w, c);
    TallyOfOne(rebuilt);
    var w' := RegistrySpec.Attest(w, auth, v, d, rebuilt).value;
    if c == d {
      assert AttestersOf(w'.reg, c) == [v];
      CollectAll(w'.reg.atts, c, [v]);
      assert HashesOf(w'.reg, c) == [rebuilt];
    }
  }

  lemma TallyOfOne(h: Hash)
    ensures TallyOf([h]) == Tally(1, 1, 1)
  {
    OneDistinctIsUnanimous([h]);
    TopIsHeld([h]);
    MultiplicityBound([h], h);
  }

  /** A final verdict is reached only through Open: in every run from NoClaim to one of the four, the
      claim was open at some point in between. */
  lemma {:induction false} FinalOnlyThroughOpen(w: World, calls: seq<Call>, c: Claim)
    requires Coherent(w) && ConsensusOf(w, c) == Ok(NoClaim)
    requires Reads(Run(w, calls), c, Final)
    ensures exists k :: 0 < k < |calls| && Reads(Run(w, calls[..k]), c, (s: Consensus) => s.Open?)
    decreases |calls|
  {
    hide Step, Exec, ConsensusOf, Coherent;
    var w1 := Step(w, calls[0]);
    StepCoherent(w, calls[0]);
    NoClaimOnlyOpens(w, calls[0], c);
    assert calls[..1] == [calls[0]] && calls[..1][1..] == [];
    assert Run(w, calls[..1]) == w1;
    if ConsensusOf(w1, c) == Ok(NoClaim) {
      FinalOnlyThroughOpen(w1, calls[1..], c);
      var k :| 0 < k < |calls[1..]| && Reads(Run(w1, calls[1..][..k]), c, (s: Consensus) => s.Open?);
      assert calls[..k + 1][1..] == calls[1..][..k];
    } else if ConsensusOf(w1, c).Ok? {
      assert Reads(Run(w, calls[..1]), c, (s: Consensus) => s.Open?);
    } else {
      UnreadableStays(w1, calls[1..], c);
    }
  }

  lemma UnreadableStays(w: World, calls: seq<Call>, c: Claim)
    requires Coherent(w) && ConsensusOf(w, c).Trap?
    ensures ConsensusOf(Run(w, calls), c) == ConsensusOf(w, c)
  {
    RunExtends(w, calls, c);
    RunFixed(w, calls);
  }

  /** A claim goes from NoClaim to Open to one of the four final verdicts, and a final verdict is
      never changed by anything anybody does later. A claim whose window would end beyond the last
      `u32` ledger has no readable verdict, then or ever. */
  lemma VerdictIsPermanent(w: World, calls: seq<Call>, c: Claim)
    requires Coherent(w)
    ensures var later := ConsensusOf(Run(w, calls), c);
            match ConsensusOf(w, c)
            case Ok(NoClaim) =>
              Reads(Run(w, calls), c, Final) ==>
                exists k :: 0 < k < |calls| && Reads(Run(w, calls[..k]), c, (s: Consensus) => s.Open?)
            case Ok(Open(t)) =>
              && later.Ok?
              && (Final(later.value) || (later.value.Open? && later.value.tally.total >= t.total))
            case same => later == same
  {
    hide Run, Exec;
    var w' := Run(w, calls);
    RunExtends(w, calls, c);
    RunFixed(w, calls);
    assert CoherentClaim(w, c);
    if ConsensusOf(w, c) == Ok(NoClaim) {
      if Reads(w', c, Final) {
        FinalOnlyThroughOpen(w, calls, c);
      }
    } else if c in w.reg.openedAt {
      assert |HashesOf(w.reg, c)| <= |HashesOf(w'.reg, c)|;
    }
  }

  /** One attestation that differs from the claim's hash rules out Verified forever. */
  lemma OneDissentRulesOutVerified(w: World, calls: seq<Call>, c: Claim, v: Address)
    requires Coherent(w) && ValidConfig(w.cfg)
    requires (c, v) in w.reg.atts && w.reg.atts[(c, v)].rebuilt != c.wasm
    ensures ConsensusOf(Run(w, calls), c) != Ok(Verified)
  {
    var w' := Run(w, calls);
    RunExtends(w, calls, c);
    RunFixed(w, calls);
    assert CoherentClaim(w', c);
    assert (c, v) in w'.reg.atts && w'.reg.atts[(c, v)].rebuilt != c.wasm;
    if Closed(w', c) {
      VerdictMeans(w', c);
    }
  }
}
