/** The good run exists: a quorum can stake, attest, and see its claim verified. */
module Attainable {
  import opened Chain
  import opened Tally
  import opened RegistrySpec
  import opened System
  import F = Filings
  import V = Verdicts
  import S = Solvency
  import T = TokenSpec
  import TF = TokenFacts

  /** The `i`-th verifier. */
  function Verifier(i: nat): Address {
    Account(i)
  }

  /** One more verifier: it is given the minimum stake, stakes it, and attests that it rebuilt the claim's
      own hash. */
  function Joining(w: World, i: nat, c: Claim): seq<Call>
    requires 0 < w.cfg.minStake <= MAX_I128
  {
    [Call({w.tok.admin}, Op.Mint(Verifier(i), w.cfg.minStake)),
     Call({Verifier(i)}, Op.Stake(Verifier(i), w.cfg.minStake)),
     Call({Verifier(i)}, Op.Attest(Verifier(i), c, c.wasm))]
  }

  /** The first `n` verifiers, one after another. */
  function Joined(w: World, n: nat, c: Claim): seq<Call>
    requires 0 < w.cfg.minStake <= MAX_I128
  {
    if n == 0 then [] else Joined(w, n - 1, c) + Joining(w, n - 1, c)
  }

  /** The chain after `n` verifiers have joined: they are the claim's attesters, in order, they all filed
      its hash at ledger `start`, and nobody else has touched it or has a stake. */
  ghost predicate AfterJoining(g: World, w: World, n: nat, c: Claim) {
    && w.cfg == g.cfg && w.self == g.self && w.now == g.now && w.tok.admin == g.tok.admin
    && F.Coherent(w) && S.Sound(w)
    && T.BalanceOf(w.tok, w.self) == n * w.cfg.minStake
    && (forall i: nat | i >= n :: T.BalanceOf(w.tok, Verifier(i)) == 0 && StakeOf(w.reg, Verifier(i)) == StakeInfo(0, 0, 0))
    && |AttestersOf(w.reg, c)| == n
    && (forall i | 0 <= i < n :: AttestersOf(w.reg, c)[i] == Verifier(i))
    && V.AllFiled(w, c, c.wasm)
    && (c in w.reg.openedAt ==> w.reg.openedAt[c] == g.now)
  }

  /** What joining needs of the deployment. */
  predicate Roomy(g: World, n: nat) {
    && ValidConfig(g.cfg)
    && g.now + g.cfg.attestWindow <= MAX_U32
    && n * g.cfg.minStake <= MAX_I128
    && g.self.Contract? && g.tok.admin != g.self
  }

  /** The balance after the mint, and the state it leaves. */
  lemma MintStep(g: World, w: World, n: nat, i: nat, c: Claim) returns (w1: World)
    requires AfterJoining(g, w, i, c) && Roomy(g, n) && i < n
    ensures Step(w, Joining(g, i, c)[0]) == w1
    ensures w1.reg == w.reg && w1.cfg == w.cfg && w1.self == w.self && w1.now == w.now && w1.tok.admin == w.tok.admin
    ensures S.Sound(w1)
    ensures T.BalanceOf(w1.tok, Verifier(i)) == w.cfg.minStake
    ensures forall a | a != Verifier(i) :: T.BalanceOf(w1.tok, a) == T.BalanceOf(w.tok, a)
  {
    hide F.Coherent, V.AllFiled;
    var call := Joining(g, i, c)[0];
    TF.MintExact(w.tok, call.auth, Verifier(i), w.cfg.minStake);
    S.StepSound(w, call);
    w1 := Step(w, call);
  }

  lemma Times(i: int, n: int, m: int)
    requires i < n && m > 0
    ensures i * m + m <= n * m
    ensures (i + 1) * m == i * m + m
  {
    NonNegativeProduct(n - i - 1, m);
    assert n * m == (i + 1) * m + (n - i - 1) * m;
  }

  lemma NonNegativeProduct(k: int, m: int)
    requires k >= 0 && m >= 0
    ensures k * m >= 0
  {
  }

  /** The transfer into the registry fits. */
  lemma StakeStep(g: World, w: World, w1: World, n: nat, i: nat, c: Claim) returns (w2: World)
    requires Roomy(g, n) && i < n && g.cfg == w1.cfg && g.self == w1.self && S.Sound(w1)
    requires T.BalanceOf(w1.tok, Verifier(i)) == w1.cfg.minStake && StakeOf(w1.reg, Verifier(i)) == StakeInfo(0, 0, 0)
    requires T.BalanceOf(w1.tok, w1.self) == i * w1.cfg.minStake
    ensures Step(w1, Joining(g, i, c)[1]) == w2
    ensures w2.reg == w1.reg.(stakes := w1.reg.stakes[Verifier(i) := StakeInfo(w1.cfg.minStake, 0, 0)])
    ensures w2.cfg == w1.cfg && w2.self == w1.self && w2.now == w1.now && w2.tok.admin == w1.tok.admin
    ensures S.Sound(w2)
    ensures T.BalanceOf(w2.tok, w2.self) == (i + 1) * w2.cfg.minStake
    ensures forall a | a != Verifier(i) && a != w1.self :: T.BalanceOf(w2.tok, a) == T.BalanceOf(w1.tok, a)
  {
    var call, v, m := Joining(g, i, c)[1], Verifier(i), w1.cfg.minStake;
    Times(i, n, m);
    MoveFits(w1.tok, call.auth + {w1.self}, v, w1.self, m);
    S.StakeIs(w1, call.auth, v, m);
    S.StepSound(w1, call);
    w2 := Step(w1, call);
  }

  /** A covered transfer to a receiver with room succeeds. */
  lemma MoveFits(t: T.Token, auth: set<Address>, from: Address, to: Address, amount: int)
    requires TF.NonNegative(t) && from in auth && from != to && 0 <= amount <= T.BalanceOf(t, from) <= MAX_I128
    requires T.BalanceOf(t, to) + amount <= MAX_I128
    ensures T.Transfer(t, auth, from, to, amount).Ok?
    ensures var t' := T.Transfer(t, auth, from, to, amount).value;
            && t'.admin == t.admin
            && T.BalanceOf(t', to) == T.BalanceOf(t, to) + amount
            && forall a | a != from && a != to :: T.BalanceOf(t', a) == T.BalanceOf(t, a)
  {
    TF.SpendEffect(t, from, amount);
    var s := T.Spend(t, from, amount).value;
    assert T.BalanceOf(s, to) == T.BalanceOf(t, to);
    TF.ReceiveEffect(s, to, amount);
    TF.TransferEffect(t, auth, from, to, amount);
  }

  /** The attestation of a staked newcomer goes through, also when others have opened the claim. */
  lemma AttestStep(g: World, w: World, w2: World, n: nat, i: nat, c: Claim) returns (w3: World)
    requires AfterJoining(g, w, i, c) && Roomy(g, n) && i < n
    requires w2.cfg == w.cfg && w2.self == w.self && w2.now == w.now && w2.tok.admin == w.tok.admin && S.Sound(w2)
    requires w2.reg == w.reg.(stakes := w.reg.stakes[Verifier(i) := StakeInfo(w.cfg.minStake, 0, 0)])
    ensures Step(w2, Joining(g, i, c)[2]) == w3
    ensures w3.tok == w2.tok && w3.cfg == w.cfg && w3.self == w.self && w3.now == w.now && w3.reg.stakes == w2.reg.stakes
    ensures F.Coherent(w3) && S.Sound(w3)
    ensures AttestersOf(w3.reg, c) == AttestersOf(w.reg, c) + [Verifier(i)]
    ensures V.AllFiled(w3, c, c.wasm)
    ensures c in w3.reg.openedAt && w3.reg.openedAt[c] == g.now
  {
    hide S.Sound;
    var call, v := Joining(g, i, c)[2], Verifier(i);
    F.LaterCoherent(w, w2);
    F.AttestExact(w2, call.auth, v, c, c.wasm);
    assert v !in AttestersOf(w2.reg, c);
    F.AttestAdds(w2, call.auth, v, c, c.wasm);
    F.StepCoherent(w2, call);
    S.StepSound(w2, call);
    w3 := Step(w2, call);
  }

  lemma OneJoins(g: World, w: World, n: nat, i: nat, c: Claim)
    requires AfterJoining(g, w, i, c) && Roomy(g, n) && i < n
    ensures AfterJoining(g, Run(w, Joining(g, i, c)), i + 1, c)
  {
    hide Step, S.Sound, F.Coherent, V.AllFiled;
    var w1 := MintStep(g, w, n, i, c);
    var w2 := StakeStep(g, w, w1, n, i, c);
    var w3 := AttestStep(g, w, w2, n, i, c);
    ThreeSteps(w, Joining(g, i, c));
    assert forall k: nat | k > i :: Verifier(k) != Verifier(i);
  }

  lemma ThreeSteps(w: World, calls: seq<Call>)
    requires |calls| == 3
    ensures Run(w, calls) == Step(Step(Step(w, calls[0]), calls[1]), calls[2])
  {
    hide Step;
    var w1 := Step(w, calls[0]);
    var w2 := Step(w1, calls[1]);
    assert calls[1..][1..] == [calls[2]] && calls[1..][0] == calls[1] && [calls[2]][1..] == [];
    assert Run(w2, [calls[2]]) == Run(Step(w2, calls[2]), []) == Step(w2, calls[2]);
    assert Run(w1, calls[1..]) == Run(w2, [calls[2]]);
  }

  lemma {:induction false} AllJoin(g: World, n: nat, k: nat, c: Claim)
    requires AfterJoining(g, g, 0, c) && Roomy(g, n) && k <= n
    ensures AfterJoining(g, Run(g, Joined(g, k, c)), k, c)
    decreases k
  {
    hide AfterJoining, Joining;
    if k > 0 {
      AllJoin(g, n, k - 1, c);
      RunCut(g, Joined(g, k - 1, c), Joining(g, k - 1, c));
      OneJoins(g, Run(g, Joined(g, k - 1, c)), n, k - 1, c);
    }
  }

  lemma GenesisIsEmpty(cfg: Config, self: Address, admin: Address, now: nat, c: Claim)
    requires ValidConfig(cfg) && now <= MAX_U32
    ensures var g := Genesis(cfg, self, admin, now); AfterJoining(g, g, 0, c)
  {
    F.GenesisCoherent(cfg, self, admin, now);
    S.GenesisBooks(cfg, self, admin, now);
  }

  /** From every deployment whose quorum of minimum stakes fits an `i128`, and whose clock leaves room for a
      window: a quorum of verifiers can stake and attest one claim, one after another, and when its
      window has passed the claim reads Verified. */
  lemma VerifiedIsReached(cfg: Config, self: Address, admin: Address, now: nat, c: Claim)
    requires Roomy(Genesis(cfg, self, admin, now), cfg.quorum)
    ensures var g := Genesis(cfg, self, admin, now);
            var calls := Joined(g, cfg.quorum, c) + [Call({}, Op.Advance(cfg.attestWindow))];
            && External(g, calls)
            && |AttestersOf(Run(g, calls).reg, c)| == cfg.quorum
            && ConsensusOf(Run(g, calls), c) == Ok(Verified)
  {
    hide AfterJoining, Joined;
    var g := Genesis(cfg, self, admin, now);
    var close := Call({}, Op.Advance(cfg.attestWindow));
    GenesisIsEmpty(cfg, self, admin, now, c);
    AllJoin(g, cfg.quorum, cfg.quorum, c);
    JoinedIsExternal(g, cfg.quorum, c);
    var w := Run(g, Joined(g, cfg.quorum, c));
    RunCut(g, Joined(g, cfg.quorum, c), [close]);
    assert [close][1..] == [];
    assert Run(w, [close]) == Step(w, close);
    TheWindowPasses(g, w, c, close);
  }

  lemma TheWindowPasses(g: World, w: World, c: Claim, close: Call)
    requires AfterJoining(g, w, g.cfg.quorum, c) && Roomy(g, g.cfg.quorum)
    requires close == Call({}, Op.Advance(g.cfg.attestWindow))
    ensures |AttestersOf(Step(w, close).reg, c)| == g.cfg.quorum && ConsensusOf(Step(w, close), c) == Ok(Verified)
  {
    hide ConsensusOf, F.CoherentClaim;
    var w' := Step(w, close);
    F.StepCoherent(w, close);
    assert w'.reg == w.reg && w'.now == w.now + w.cfg.attestWindow;
    OpenedByAttesters(w, c);
    V.VerdictMeans(w', c);
  }

  lemma OpenedByAttesters(w: World, c: Claim)
    requires F.Coherent(w) && AttestersOf(w.reg, c) != []
    ensures c in w.reg.openedAt
  {
    assert F.CoherentClaim(w, c);
  }

  lemma {:induction false} JoinedIsExternal(g: World, n: nat, c: Claim)
    requires 0 < g.cfg.minStake <= MAX_I128 && g.self.Contract? && g.tok.admin != g.self
    ensures forall i | 0 <= i < |Joined(g, n, c)| :: g.self !in Joined(g, n, c)[i].auth
    decreases n
  {
    if n > 0 {
      JoinedIsExternal(g, n - 1, c);
    }
  }
}
