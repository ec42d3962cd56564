/** What is filed about a claim stays coherent in every run: the window, the list of attesters and
    the attestations belong together. */
module Filings {
  import opened Chain
  import opened Tally
  import opened RegistrySpec
  import opened System

  predicate Distinct(vs: seq<Address>) {
    forall i, j | 0 <= i < j < |vs| :: vs[i] != vs[j]
  }

  /** Every listed verifier has its own attestation, filed between the first one and `now`, inside
      the window, and in order. */
  predicate Filed(r: Records, c: Claim, vs: seq<Address>, start: nat, window: nat, now: nat) {
    && (forall i | 0 <= i < |vs| ::
          && (c, vs[i]) in r.atts
          && r.atts[(c, vs[i])].verifier == vs[i]
          && start <= r.atts[(c, vs[i])].ledger <= now
          && r.atts[(c, vs[i])].ledger < start + window)
    && (forall i, j | 0 <= i < j < |vs| :: r.atts[(c, vs[i])].ledger <= r.atts[(c, vs[j])].ledger)
  }

  /** A claim is opened exactly when somebody attested it; its list has no duplicates and names
      exactly those with an attestation; the first one opened the window. */
  ghost predicate CoherentClaim(w: World, c: Claim) {
    var r := w.reg;
    var vs := AttestersOf(r, c);
    && (c in r.openedAt <==> vs != [])
    && Distinct(vs)
    && (forall v :: v in vs <==> (c, v) in r.atts)
    && (c in r.openedAt ==>
          && Filed(r, c, vs, r.openedAt[c], w.cfg.attestWindow, w.now)
          && r.atts[(c, vs[0])].ledger == r.openedAt[c]
          && r.openedAt[c] <= w.now)
  }

  ghost predicate Coherent(w: World) {
    && w.cfg.attestWindow > 0
    && forall c :: CoherentClaim(w, c)
  }

  /** Reading the list drops nothing: one attestation a verifier, in order of arrival. */
  lemma {:induction false} CollectAll(atts: map<(Claim, Address), Attestation>, c: Claim, vs: seq<Address>)
    requires forall v | v in vs :: (c, v) in atts
    ensures |Collect(atts, c, vs)| == |vs|
    ensures forall i | 0 <= i < |vs| :: Collect(atts, c, vs)[i] == atts[(c, vs[i])]
    decreases |vs|
  {
    if vs != [] {
      CollectAll(atts, c, vs[..|vs| - 1]);
    }
  }

  /** An attestation of somebody who is not on the list does not change what the list reads. */
  lemma {:induction false} CollectFrame(atts: map<(Claim, Address), Attestation>, atts': map<(Claim, Address), Attestation>, c: Claim, vs: seq<Address>)
    requires forall v | v in vs :: ((c, v) in atts <==> (c, v) in atts') && ((c, v) in atts ==> atts[(c, v)] == atts'[(c, v)])
    ensures Collect(atts', c, vs) == Collect(atts, c, vs)
    decreases |vs|
  {
    if vs != [] {
      CollectFrame(atts, atts', c, vs[..|vs| - 1]);
    }
  }

  /** In a coherent state the attestations of a claim are the records of its attesters, in order. */
  lemma ReadsAll(w: World, c: Claim)
    requires CoherentClaim(w, c)
    ensures var vs, records := AttestersOf(w.reg, c), AttestationsOf(w.reg, c);
            && |records| == |vs| == |HashesOf(w.reg, c)|
            && (forall i | 0 <= i < |vs| ::
                  (c, vs[i]) in w.reg.atts && records[i] == w.reg.atts[(c, vs[i])] && HashesOf(w.reg, c)[i] == records[i].rebuilt)
  {
    CollectAll(w.reg.atts, c, AttestersOf(w.reg, c));
  }

  /** Keeping what is filed, while the clock moves on, keeps it coherent. */
  lemma LaterCoherent(w: World, w': World)
    requires Coherent(w) && SameFilings(w.reg, w'.reg) && w'.cfg == w.cfg && w.now <= w'.now
    ensures Coherent(w')
  {
    forall c
      ensures CoherentClaim(w', c)
    {
      assert CoherentClaim(w, c);
    }
  }

  /** A successful `attest`: the claim is open, the verifier is new, and one record is added. */
  lemma AttestEffect(w: World, auth: set<Address>, v: Address, c: Claim, rebuilt: Hash)
    requires Coherent(w) && RegistrySpec.Attest(w, auth, v, c, rebuilt).Ok?
    ensures var w' := RegistrySpec.Attest(w, auth, v, c, rebuilt).value;
            && v in auth && StakeOf(w.reg, v).staked >= w.cfg.minStake
            && w' == w.(reg := PutAttestation(w.reg, w.now, c, v, rebuilt))
            && v !in AttestersOf(w.reg, c)
            && (c in w.reg.openedAt ==> w.now < w.reg.openedAt[c] + w.cfg.attestWindow <= MAX_U32)
  {
    assert CoherentClaim(w, c);
  }

  /** When an attestation succeeds: exactly for an authorized verifier whose stake is at least the
      minimum, that is not on the claim's list yet, while the claim's window, if it has one, is open;
      being opened by others does not stand in the way. And what each refusal says, exactly. */
  lemma AttestExact(w: World, auth: set<Address>, v: Address, c: Claim, rebuilt: Hash)
    requires Coherent(w)
    ensures var r := RegistrySpec.Attest(w, auth, v, c, rebuilt);
            var active := StakeOf(w.reg, v).staked >= w.cfg.minStake;
            var close := if c in w.reg.openedAt then w.reg.openedAt[c] + w.cfg.attestWindow else w.now + 1;
            && (r.Ok? <==> v in auth && active && v !in AttestersOf(w.reg, c) && (c in w.reg.openedAt ==> w.now < close <= MAX_U32))
            && (r == Trap(Unauthorized) <==> v !in auth)
            && (r == Err(NotActive) <==> v in auth && !active)
            && (r == Trap(U32Overflow) <==> v in auth && active && c in w.reg.openedAt && close > MAX_U32)
            && (r == Err(WindowClosed) <==> v in auth && active && c in w.reg.openedAt && close <= MAX_U32 && close <= w.now)
            && (r == Err(AlreadyAttested) <==>
                  v in auth && active && v in AttestersOf(w.reg, c) && w.now < close && (c in w.reg.openedAt ==> close <= MAX_U32))
  {
    assert CoherentClaim(w, c);
  }

  /** What it leaves: the verifier at the end of the claim's list with its hash and the ledger, the
      window opened if it was not, and everything else as it was. */
  lemma AttestAdds(w: World, auth: set<Address>, v: Address, c: Claim, rebuilt: Hash)
    requires RegistrySpec.Attest(w, auth, v, c, rebuilt).Ok?
    ensures var w' := RegistrySpec.Attest(w, auth, v, c, rebuilt).value;
            && w'.tok == w.tok && w'.cfg == w.cfg && w'.self == w.self && w'.now == w.now
            && w'.reg.stakes == w.reg.stakes && w'.reg.slashed == w.reg.slashed
            && AttestersOf(w'.reg, c) == AttestersOf(w.reg, c) + [v]
            && (forall d | d != c :: AttestersOf(w'.reg, d) == AttestersOf(w.reg, d))
            && w'.reg.atts == w.reg.atts[(c, v) := Attestation(v, rebuilt, w.now)]
            && w'.reg.openedAt == (if c in w.reg.openedAt then w.reg.openedAt else w.reg.openedAt[c := w.now])
  {
  }

  lemma AttestCoherentHere(w: World, v: Address, c: Claim, rebuilt: Hash)
    requires Coherent(w) && v !in AttestersOf(w.reg, c)
    requires c in w.reg.openedAt ==> w.now < w.reg.openedAt[c] + w.cfg.attestWindow
    ensures CoherentClaim(w.(reg := PutAttestation(w.reg, w.now, c, v, rebuilt)), c)
  {
    assert CoherentClaim(w, c);
    var r := w.reg;
    var r' := PutAttestation(r, w.now, c, v, rebuilt);
    var vs, vs' := AttestersOf(r, c), AttestersOf(r', c);
    assert vs' == vs + [v];
    assert forall u :: u in vs' <==> u in vs || u == v;
    assert forall i | 0 <= i < |vs| :: vs'[i] == vs[i] && vs[i] in vs;
    assert vs == [] ==> r'.openedAt[c] == w.now;
    assert vs != [] ==> vs'[0] == vs[0];
  }

  lemma AttestCoherentElsewhere(w: World, v: Address, c: Claim, rebuilt: Hash, d: Claim)
    requires Coherent(w) && d != c
    ensures CoherentClaim(w.(reg := PutAttestation(w.reg, w.now, c, v, rebuilt)), d)
  {
    assert CoherentClaim(w, d);
    var r := w.reg;
    var r' := PutAttestation(r, w.now, c, v, rebuilt);
    assert AttestersOf(r', d) == AttestersOf(r, d);
    assert forall u :: (d, u) in r'.atts <==> (d, u) in r.atts;
    assert forall u | (d, u) in r.atts :: r'.atts[(d, u)] == r.atts[(d, u)];
  }

  lemma StepCoherent(w: World, call: Call)
    requires Coherent(w)
    ensures Coherent(Step(w, call))
  {
    StepFixed(w, call);
    if call.op.Attest? && Exec(w, call).Ok? {
      var v, c, rebuilt := call.op.verifier, call.op.claim, call.op.rebuilt;
      AttestEffect(w, call.auth, v, c, rebuilt);
      var w' := RegistrySpec.Attest(w, call.auth, v, c, rebuilt).value;
      forall d
        ensures CoherentClaim(w', d)
      {
        if d == c {
          AttestCoherentHere(w, v, c, rebuilt);
        } else {
          AttestCoherentElsewhere(w, v, c, rebuilt, d);
        }
      }
    } else {
      LaterCoherent(w, Step(w, call));
    }
  }

  /** What one transaction does to what is filed about `c`: nothing, or one record more while the
      window is open. */
  ghost predicate Extends(w: World, w': World, c: Claim) {
    && (c in w.reg.openedAt ==> c in w'.reg.openedAt && w'.reg.openedAt[c] == w.reg.openedAt[c])
    && AttestersOf(w.reg, c) <= AttestersOf(w'.reg, c)
    && AttestationsOf(w.reg, c) <= AttestationsOf(w'.reg, c)
    && (forall v | (c, v) in w.reg.atts :: (c, v) in w'.reg.atts && w'.reg.atts[(c, v)] == w.reg.atts[(c, v)])
    && (c in w.reg.openedAt && (w.now >= w.reg.openedAt[c] + w.cfg.attestWindow || w.reg.openedAt[c] + w.cfg.attestWindow > MAX_U32) ==>
          && AttestersOf(w'.reg, c) == AttestersOf(w.reg, c)
          && AttestationsOf(w'.reg, c) == AttestationsOf(w.reg, c))
  }

  lemma StepExtends(w: World, call: Call, c: Claim)
    requires Coherent(w)
    ensures Extends(w, Step(w, call), c)
  {
    StepFixed(w, call);
    if call.op.Attest? && Exec(w, call).Ok? {
      AttestExtends(w, call.auth, call.op.verifier, call.op.claim, call.op.rebuilt, c);
    }
  }

  lemma AttestExtends(w: World, auth: set<Address>, v: Address, d: Claim, rebuilt: Hash, c: Claim)
    requires Coherent(w) && RegistrySpec.Attest(w, auth, v, d, rebuilt).Ok?
    ensures Extends(w, RegistrySpec.Attest(w, auth, v, d, rebuilt).value, c)
  {
    AttestEffect(w, auth, v, d, rebuilt);
    assert CoherentClaim(w, c);
    var r, r' := w.reg, PutAttestation(w.reg, w.now, d, v, rebuilt);
    CollectFrame(r.atts, r'.atts, c, AttestersOf(r, c));
    if d == c {
      var vs := AttestersOf(r, c);
      assert (vs + [v])[..|vs|] == vs;
      assert AttestationsOf(r', c) == AttestationsOf(r, c) + [r'.atts[(c, v)]];
    }
  }

  lemma {:induction false} RunExtends(w: World, calls: seq<Call>, c: Claim)
    requires Coherent(w)
    ensures Coherent(Run(w, calls)) && Extends(w, Run(w, calls), c)
    decreases |calls|
  {
    if calls != [] {
      var w1 := Step(w, calls[0]);
      StepFixed(w, calls[0]);
      StepCoherent(w, calls[0]);
      StepExtends(w, calls[0], c);
      RunExtends(w1, calls[1..], c);
    }
  }

  lemma GenesisCoherent(cfg: Config, self: Address, admin: Address, now: nat)
    requires ValidConfig(cfg)
    ensures Coherent(Genesis(cfg, self, admin, now))
  {
  }

  /** In every reachable state the records of every claim belong together, and reading a claim's
      attestations returns one for each listed attester, in order. */
  lemma FilingsAreCoherent(cfg: Config, self: Address, admin: Address, now: nat, calls: seq<Call>, c: Claim)
    requires ValidConfig(cfg)
    ensures var w := Run(Genesis(cfg, self, admin, now), calls);
            && CoherentClaim(w, c)
            && |AttestationsOf(w.reg, c)| == |AttestersOf(w.reg, c)|
            && forall i | 0 <= i < |AttestersOf(w.reg, c)| :: AttestationsOf(w.reg, c)[i].verifier == AttestersOf(w.reg, c)[i]
  {
    var g := Genesis(cfg, self, admin, now);
    GenesisCoherent(cfg, self, admin, now);
    RunExtends(g, calls, c);
    assert CoherentClaim(Run(g, calls), c);
    ReadsAll(Run(g, calls), c);
  }
}
