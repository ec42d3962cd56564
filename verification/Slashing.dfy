/** Who can be slashed, over whole runs. */
module Slashing {
  import opened Chain
  import opened Tally
  import opened RegistrySpec
  import opened System
  import opened Filings
  import opened Verdicts
  import opened Solvency
  import opened SlashMath
  import T = TokenSpec
  import F = TokenFacts
  import Sums

  /** More than half of the attesters of `c` filed `h`. */
  predicate Majority(w: World, c: Claim, h: Hash) {
    2 * Multiplicity(HashesOf(w.reg, c), h) > |HashesOf(w.reg, c)|
  }

  /** `v` attested a closed, quorate claim and filed something else than a strict majority did. */
  ghost predicate Outvoted(w: World, c: Claim, v: Address) {
    && Closed(w, c)
    && |AttestersOf(w.reg, c)| >= w.cfg.quorum
    && (c, v) in w.reg.atts
    && exists h :: Majority(w, c, h) && w.reg.atts[(c, v)].rebuilt != h
  }

  /** A strict majority, if there is one, is held by the leader. */
  lemma MajorityLeads(w: World, c: Claim)
    requires CoherentClaim(w, c)
    ensures forall h :: Majority(w, c, h) ==> h == TopHash(HashesOf(w.reg, c))
    ensures |AttestersOf(w.reg, c)| > 0 ==>
              (Majority(w, c, TopHash(HashesOf(w.reg, c))) <==> 2 * TallyOf(HashesOf(w.reg, c)).topCount > |AttestersOf(w.reg, c)|)
  {
    ReadsAll(w, c);
    var hs := HashesOf(w.reg, c);
    forall h | Majority(w, c, h)
      ensures h == TopHash(hs)
    {
      LeadsByMajority(hs, h);
    }
    if hs != [] {
      TopIsHeld(hs);
    }
  }

  /** A slash is allowed exactly for an outvoted attester that was not slashed on this claim before, if
      the majority can be doubled in a `u32`. */
  lemma MaySlashExact(w: World, c: Claim, v: Address)
    requires Coherent(w) && ValidConfig(w.cfg)
    ensures MaySlash(w, c, v) == Ok(()) <==>
              && Outvoted(w, c, v)
              && (c, v) !in w.reg.slashed
              && 2 * TallyOf(HashesOf(w.reg, c)).topCount <= MAX_U32
  {
    assert CoherentClaim(w, c);
    ReadsAll(w, c);
    MajorityLeads(w, c);
    var hs := HashesOf(w.reg, c);
    if hs != [] {
      TopIsHeld(hs);
    }
  }

  /** A strict majority of a quorum filed one hash on `c`, and its window has closed. */
  ghost predicate Settled(w: World, c: Claim) {
    Closed(w, c) && |AttestersOf(w.reg, c)| >= w.cfg.quorum && exists h :: Majority(w, c, h)
  }

  /** What each refusal of a slash says, exactly, as long as the numbers it adds fit a `u32`. */
  lemma SlashRefusals(w: World, c: Claim, v: Address)
    requires Coherent(w) && ValidConfig(w.cfg)
    requires c in w.reg.openedAt ==> w.reg.openedAt[c] + w.cfg.attestWindow <= MAX_U32
    requires 2 * TallyOf(HashesOf(w.reg, c)).topCount <= MAX_U32
    ensures var r := MaySlash(w, c, v);
            && (r == Err(ClaimNotDecided) <==> !Settled(w, c))
            && (r == Err(NotAttested) <==> Settled(w, c) && (c, v) !in w.reg.atts)
            && (r == Err(NotDissenter) <==>
                  Settled(w, c) && (c, v) in w.reg.atts && Majority(w, c, w.reg.atts[(c, v)].rebuilt))
            && (r == Err(AlreadySlashed) <==> Outvoted(w, c, v) && (c, v) in w.reg.slashed)
            && (r == Ok(()) <==> Outvoted(w, c, v) && (c, v) !in w.reg.slashed)
  {
    hide TallyOf, TopHash, HashesOf;
    assert CoherentClaim(w, c);
    MajorityLeads(w, c);
    DecidedIff(w, c);
    if Settled(w, c) {
      OneMajority(w, c);
    }
  }

  lemma OneMajority(w: World, c: Claim)
    requires CoherentClaim(w, c) && c in w.reg.openedAt && exists h :: Majority(w, c, h)
    ensures Majority(w, c, TopHash(HashesOf(w.reg, c)))
    ensures forall h :: Majority(w, c, h) <==> h == TopHash(HashesOf(w.reg, c))
  {
    MajorityLeads(w, c);
  }

  lemma DecidedIff(w: World, c: Claim)
    requires Coherent(w) && ValidConfig(w.cfg)
    requires c in w.reg.openedAt ==> w.reg.openedAt[c] + w.cfg.attestWindow <= MAX_U32
    requires 2 * TallyOf(HashesOf(w.reg, c)).topCount <= MAX_U32
    ensures Decided(w, c) == Ok(Settled(w, c))
  {
    assert CoherentClaim(w, c);
    ReadsAll(w, c);
    MajorityLeads(w, c);
    var hs := HashesOf(w.reg, c);
    if hs != [] {
      TopIsHeld(hs);
    }
  }

  lemma MaySlashImplies(w: World, c: Claim, v: Address)
    requires Coherent(w) && ValidConfig(w.cfg) && MaySlash(w, c, v) == Ok(())
    ensures Outvoted(w, c, v) && (c, v) !in w.reg.slashed
  {
    assert CoherentClaim(w, c);
    ReadsAll(w, c);
    MajorityLeads(w, c);
  }

  /** Whoever can be slashed stands against a claim that is disputed, not one that is green. */
  lemma OutvotedIsDisputed(w: World, c: Claim, v: Address)
    requires Coherent(w) && ValidConfig(w.cfg) && Outvoted(w, c, v)
    ensures ConsensusOf(w, c).Ok? && ConsensusOf(w, c).value.Disputed?
  {
    assert CoherentClaim(w, c);
    ReadsAll(w, c);
    var hs := HashesOf(w.reg, c);
    var h :| Majority(w, c, h) && w.reg.atts[(c, v)].rebuilt != h;
    LeadsByMajority(hs, h);
    TopIsHeld(hs);
    var i :| 0 <= i < |hs| && hs[i] == h;
    var u := AttestersOf(w.reg, c)[i];
    assert (c, u) in w.reg.atts && w.reg.atts[(c, u)].rebuilt == h;
    VerdictMeans(w, c);
  }

  /** Being outvoted is permanent. */
  lemma StaysOutvoted(w: World, calls: seq<Call>, c: Claim, v: Address)
    requires Coherent(w) && Outvoted(w, c, v)
    ensures Outvoted(Run(w, calls), c, v)
  {
    ClosedIsFrozen(w, calls, c);
    RunFixed(w, calls);
    var h :| Majority(w, c, h) && w.reg.atts[(c, v)].rebuilt != h;
    assert Majority(Run(w, calls), c, h);
  }

  /** Everyone marked as slashed was outvoted. */
  ghost predicate Fair(w: World) {
    forall p | p in w.reg.slashed :: Outvoted(w, p.0, p.1)
  }

  lemma StepFair(w: World, call: Call)
    requires Coherent(w) && ValidConfig(w.cfg) && Fair(w)
    ensures Fair(Step(w, call))
  {
    var w' := Step(w, call);
    StepFixed(w, call);
    assert Run(w, [call]) == w' by {
      assert [call][1..] == [];
    }
    if call.op.Slash? && Exec(w, call).Ok? {
      FilingFixed(w, call.auth, call.op.verifier, call.op.claim, ZERO);
      MaySlashImplies(w, call.op.claim, call.op.verifier);
    }
    forall p | p in w'.reg.slashed
      ensures Outvoted(w', p.0, p.1)
    {
      assert Outvoted(w, p.0, p.1);
      StaysOutvoted(w, [call], p.0, p.1);
    }
  }

  lemma {:induction false} RunFair(w: World, calls: seq<Call>)
    requires Coherent(w) && ValidConfig(w.cfg) && Fair(w)
    ensures Coherent(Run(w, calls)) && Fair(Run(w, calls))
    decreases |calls|
  {
    if calls != [] {
      StepFair(w, calls[0]);
      StepCoherent(w, calls[0]);
      StepFixed(w, calls[0]);
      RunFair(Step(w, calls[0]), calls[1..]);
    }
  }

  // ---- the slashed are a minority -----------------------------------------------------

  /** Those of the first `n` listed verifiers who filed something else than `h`. */
  function Dissenters(vs: seq<Address>, hs: seq<Hash>, h: Hash, n: nat): set<Address>
    requires n <= |vs| == |hs|
  {
    set i | 0 <= i < n && hs[i] != h :: vs[i]
  }

  lemma {:induction false} DissentersCount(vs: seq<Address>, hs: seq<Hash>, h: Hash, n: nat)
    requires n <= |vs| == |hs|
    ensures |Dissenters(vs, hs, h, n)| + multiset(hs[..n])[h] <= n
    decreases n
  {
    if n > 0 {
      DissentersCount(vs, hs, h, n - 1);
      PrefixCount(hs, n - 1, h);
      var before, after := Dissenters(vs, hs, h, n - 1), Dissenters(vs, hs, h, n);
      if hs[n - 1] == h {
        assert after == before;
      } else {
        assert after == before + {vs[n - 1]};
      }
    }
  }

  /** Everyone slashed on `c`. */
  function SlashedOn(r: Records, c: Claim): set<Address> {
    set p | p in r.slashed && p.0 == c :: p.1
  }

  lemma SubsetSize<X>(a: set<X>, b: set<X>)
    requires a <= b
    ensures |a| <= |b|
  {
    assert b == a + (b - a);
  }

  /** In every reachable state: whoever was slashed on a claim attested it inside its window, with a
      hash a strict majority did not file; the claim is disputed; and those slashed are fewer than
      half of its attesters. */
  lemma OnlyAMinorityIsSlashed(cfg: Config, self: Address, admin: Address, now: nat, calls: seq<Call>, c: Claim)
    requires ValidConfig(cfg)
    ensures var w := Run(Genesis(cfg, self, admin, now), calls);
            && (forall v | v in SlashedOn(w.reg, c) ::
                  && Outvoted(w, c, v)
                  && w.reg.openedAt[c] <= w.reg.atts[(c, v)].ledger < w.reg.openedAt[c] + cfg.attestWindow
                  && ConsensusOf(w, c).Ok? && ConsensusOf(w, c).value.Disputed?)
            && (SlashedOn(w.reg, c) != {} ==> 2 * |SlashedOn(w.reg, c)| < |AttestersOf(w.reg, c)|)
  {
    var g := Genesis(cfg, self, admin, now);
    GenesisCoherent(cfg, self, admin, now);
    RunFair(g, calls);
    RunFixed(g, calls);
    FairMeans(Run(g, calls), c);
  }

  lemma FairMeans(w: World, c: Claim)
    requires Coherent(w) && ValidConfig(w.cfg) && Fair(w)
    ensures forall v | v in SlashedOn(w.reg, c) ::
              && Outvoted(w, c, v)
              && w.reg.openedAt[c] <= w.reg.atts[(c, v)].ledger < w.reg.openedAt[c] + w.cfg.attestWindow
              && ConsensusOf(w, c).Ok? && ConsensusOf(w, c).value.Disputed?
    ensures SlashedOn(w.reg, c) != {} ==> 2 * |SlashedOn(w.reg, c)| < |AttestersOf(w.reg, c)|
  {
    assert CoherentClaim(w, c);
    ReadsAll(w, c);
    var vs, hs := AttestersOf(w.reg, c), HashesOf(w.reg, c);
    var top := TopHash(hs);
    MajorityLeads(w, c);
    forall v | v in SlashedOn(w.reg, c)
      ensures Outvoted(w, c, v) && ConsensusOf(w, c).Ok? && ConsensusOf(w, c).value.Disputed?
      ensures w.reg.openedAt[c] <= w.reg.atts[(c, v)].ledger < w.reg.openedAt[c] + w.cfg.attestWindow
      ensures v in Dissenters(vs, hs, top, |vs|) && Majority(w, c, top)
    {
      assert (c, v) in w.reg.slashed;
      assert Outvoted(w, (c, v).0, (c, v).1);
      OutvotedIsDisputed(w, c, v);
      var i :| 0 <= i < |vs| && vs[i] == v;
      assert hs[i] != top;
    }
    SubsetSize(SlashedOn(w.reg, c), Dissenters(vs, hs, top, |vs|));
    DissentersCount(vs, hs, top, |vs|);
    assert hs[..|vs|] == hs;
  }

  // ---- once, and in any order ---------------------------------------------------------

  /** How often a run slashed `v` on `c`. */
  function TimesSlashed(w: World, calls: seq<Call>, c: Claim, v: Address): nat
    decreases |calls|
  {
    if calls == [] then 0
    else
      (if calls[0].op == Op.Slash(c, v) && Exec(w, calls[0]).Ok? then 1 else 0) +
      TimesSlashed(Step(w, calls[0]), calls[1..], c, v)
  }

  lemma SlashMarks(w: World, call: Call)
    ensures (call.op.Slash? && Exec(w, call).Ok?) ==>
              && (call.op.claim, call.op.verifier) !in w.reg.slashed
              && Step(w, call).reg.slashed == w.reg.slashed + {(call.op.claim, call.op.verifier)}
    ensures !(call.op.Slash? && Exec(w, call).Ok?) ==> Step(w, call).reg.slashed == w.reg.slashed
  {
    StepFixed(w, call);
    if call.op.Slash? && Exec(w, call).Ok? {
      FilingFixed(w, call.auth, call.op.verifier, call.op.claim, ZERO);
    }
  }

  /** A verifier is slashed at most once on a claim, however often and by whomever it is tried. */
  lemma {:induction false} SlashedAtMostOnce(w: World, calls: seq<Call>, c: Claim, v: Address)
    ensures TimesSlashed(w, calls, c, v) <= if (c, v) in w.reg.slashed then 0 else 1
    ensures TimesSlashed(w, calls, c, v) == 1 <==> (c, v) !in w.reg.slashed && (c, v) in Run(w, calls).reg.slashed
    ensures w.reg.slashed <= Run(w, calls).reg.slashed
    decreases |calls|
  {
    hide Exec;
    if calls != [] {
      var call := calls[0];
      SlashMarks(w, call);
      SlashedAtMostOnce(Step(w, call), calls[1..], c, v);
    }
  }

  /** The state once `amount` of the registry's balance is burned and `v` is left with `left`. */
  function After(w: World, c: Claim, v: Address, amount: int, left: StakeInfo): World {
    w.(tok := w.tok.(balances := w.tok.balances[w.self := Held(w) - amount]), reg := MarkSlashed(w.reg, c, v, left))
  }

  /** A punishment depends on the punished stake alone, as long as the balance covers it. */
  lemma PunishFrame(w: World, w': World, c: Claim, v: Address)
    requires Sound(w) && Punish(w, c, v).Ok?
    requires w'.cfg == w.cfg && w'.self == w.self && StakeOf(w'.reg, v) == StakeOf(w.reg, v)
    requires Punish(w, c, v).value.1 <= Held(w') <= Held(w)
    ensures var b := Punish(w, c, v).value.1;
            var left := TakeFrom(StakeOf(w.reg, v), b);
            && left.Ok?
            && Punish(w', c, v) == Ok((After(w', c, v, b, left.value), b))
  {
    PunishEffect(w, c, v);
  }

  /** Two punishments of different verifiers leave the same state in either order. */
  lemma AfterCommutes(w: World, c: Claim, u: Address, a: int, lu: StakeInfo, v: Address, b: int, lv: StakeInfo)
    requires u != v
    ensures After(After(w, c, u, a, lu), c, v, b, lv) == After(After(w, c, v, b, lv), c, u, a, lu)
  {
    var h := Held(w);
    var m, s := w.tok.balances, w.self;
    assert m[s := h - a][s := h - a - b] == m[s := h - b][s := h - b - a];
    var k := w.reg.stakes;
    assert k[u := lu][v := lv] == k[v := lv][u := lu];
    var d := w.reg.slashed;
    assert d + {(c, u)} + {(c, v)} == d + {(c, v)} + {(c, u)};
    assert Held(After(w, c, u, a, lu)) == h - a;
    assert Held(After(w, c, v, b, lv)) == h - b;
    assert After(After(w, c, u, a, lu), c, v, b, lv).reg == After(After(w, c, v, b, lv), c, u, a, lu).reg;
    assert After(After(w, c, u, a, lu), c, v, b, lv).tok == After(After(w, c, v, b, lv), c, u, a, lu).tok;
  }

  lemma MaySlashAfter(w: World, c: Claim, u: Address, a: int, lu: StakeInfo, v: Address)
    requires u != v
    ensures MaySlash(After(w, c, u, a, lu), c, v) == MaySlash(w, c, v)
    ensures StakeOf(After(w, c, u, a, lu).reg, v) == StakeOf(w.reg, v)
    ensures Held(After(w, c, u, a, lu)) == Held(w) - a
  {
    assert HashesOf(After(w, c, u, a, lu).reg, c) == HashesOf(w.reg, c);
  }

  lemma OwedTwo(w: World, u: Address, v: Address)
    requires Sound(w) && u != v
    ensures Total(StakeOf(w.reg, u)) + Total(StakeOf(w.reg, v)) <= Owed(w)
  {
    var h := Holdings(w.reg.stakes);
    Sums.SumOfTwo(h, u, v);
    assert Sums.Get(h, u) == Total(StakeOf(w.reg, u));
    assert Sums.Get(h, v) == Total(StakeOf(w.reg, v));
  }

  /** Both shares together are covered by what the registry holds. */
  lemma BothCovered(w: World, c: Claim, u: Address, v: Address)
    requires Solvent(w) && u != v && Punish(w, c, u).Ok? && Punish(w, c, v).Ok?
    ensures 0 < Punish(w, c, u).value.1 && 0 < Punish(w, c, v).value.1
    ensures Punish(w, c, u).value.1 + Punish(w, c, v).value.1 <= Held(w)
  {
    PunishEffect(w, c, u);
    PunishEffect(w, c, v);
    OwedTwo(w, u, v);
  }

  /** Slashing `v` after `u` takes what slashing `v` takes. */
  lemma SlashSecond(w: World, c: Claim, u: Address, v: Address)
    requires Sound(w) && u != v
    requires RegistrySpec.Slash(w, c, u).Ok? && RegistrySpec.Slash(w, c, v).Ok?
    requires 0 < Punish(w, c, u).value.1 && 0 < Punish(w, c, v).value.1
    requires Punish(w, c, u).value.1 + Punish(w, c, v).value.1 <= Held(w)
    ensures var (wu, a) := RegistrySpec.Slash(w, c, u).value;
            var b := RegistrySpec.Slash(w, c, v).value.1;
            var lu, lv := TakeFrom(StakeOf(w.reg, u), a), TakeFrom(StakeOf(w.reg, v), b);
            && lu.Ok? && lv.Ok?
            && RegistrySpec.Slash(wu, c, v) == Ok((After(After(w, c, u, a, lu.value), c, v, b, lv.value), b))
  {
    PunishFrame(w, w, c, u);
    var (wu, a) := Punish(w, c, u).value;
    var lu := TakeFrom(StakeOf(w.reg, u), a).value;
    assert wu == After(w, c, u, a, lu);
    MaySlashAfter(w, c, u, a, lu, v);
    PunishFrame(w, wu, c, v);
  }

  /** Two slashes on one claim commute: same amounts, same state, in either order. */
  lemma SlashesCommute(w: World, c: Claim, u: Address, v: Address)
    requires Solvent(w) && u != v
    requires RegistrySpec.Slash(w, c, u).Ok? && RegistrySpec.Slash(w, c, v).Ok?
    ensures var (wu, a) := RegistrySpec.Slash(w, c, u).value;
            var (wv, b) := RegistrySpec.Slash(w, c, v).value;
            && RegistrySpec.Slash(wu, c, v).Ok? && RegistrySpec.Slash(wv, c, u).Ok?
            && RegistrySpec.Slash(wu, c, v).value.1 == b
            && RegistrySpec.Slash(wv, c, u).value.1 == a
            && RegistrySpec.Slash(wu, c, v).value.0 == RegistrySpec.Slash(wv, c, u).value.0
  {
    BothCovered(w, c, u, v);
    var a, b := RegistrySpec.Slash(w, c, u).value.1, RegistrySpec.Slash(w, c, v).value.1;
    SlashSecond(w, c, u, v);
    SlashSecond(w, c, v, u);
    AfterCommutes(w, c, u, a, TakeFrom(StakeOf(w.reg, u), a).value, v, b, TakeFrom(StakeOf(w.reg, v), b).value);
  }
}
