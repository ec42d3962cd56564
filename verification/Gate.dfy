/** The deposit gate: which claims it asks about, how it ranks the answers, and what it decides. */
module GateSpec {
  import opened Chain
  import opened RegistrySpec
  import Tally

  datatype Option<+T> = None | Some(value: T)

  datatype Tone = Good | Blocked | WaitingTone | Danger | UnknownTone

  datatype Decision = Decision(allow: bool, tone: Tone)

  /** What one configured or discovered claim was found to be. A claim that could not be read counts
      as `NoClaim`. */
  datatype Result = Result(state: Consensus, digest: Hash, readable: bool)

  /** The answer for a contract; `None` in `best` when nothing was asked about. */
  datatype Answer = Unavailable | Checked(decision: Decision, state: Consensus, best: Option<Hash>, wasm: Hash)

  predicate Allows(a: Answer) {
    a.Checked? && a.decision.allow
  }

  function Decide(s: Consensus): Decision {
    match s
    case Verified => Decision(true, Good)
    case NoClaim => Decision(false, Blocked)
    case Open(_) => Decision(false, WaitingTone)
    case Insufficient(_) => Decision(false, WaitingTone)
    case Mismatch => Decision(false, Danger)
    case Disputed(_) => Decision(false, Danger)
  }

  /** How much a state tells a depositor. */
  function Rank(s: Consensus): nat {
    match s
    case NoClaim => 0
    case Open(_) => 1
    case Insufficient(_) => 2
    case Disputed(_) => 3
    case Mismatch => 4
    case Verified => 5
  }

  /** The reduction over the results, the first argument winning ties. */
  function Best(results: seq<Result>): Result
    requires results != []
  {
    if |results| == 1 then results[0]
    else
      var a := Best(results[..|results| - 1]);
      var b := results[|results| - 1];
      if Rank(b.state) > Rank(a.state) then b else a
  }

  function BestOf(results: seq<Result>, wasm: Hash): Answer {
    if results == [] then Checked(Decide(NoClaim), NoClaim, None, wasm)
    else
      var best := Best(results);
      Checked(Decide(best.state), best.state, Some(best.digest), wasm)
  }

  /** The reduction picks the first of the highest-ranked results. */
  lemma {:induction false} BestIsFirstOfTheHighest(results: seq<Result>) returns (i: nat)
    requires results != []
    ensures i < |results| && Best(results) == results[i]
    ensures forall j | 0 <= j < |results| :: Rank(results[j].state) <= Rank(results[i].state)
    ensures forall j | 0 <= j < i :: Rank(results[j].state) < Rank(results[i].state)
    decreases |results|
  {
    var n := |results| - 1;
    if n == 0 {
      i := 0;
    } else {
      i := BestIsFirstOfTheHighest(results[..n]);
      if Rank(results[n].state) > Rank(results[i].state) {
        i := n;
      }
    }
  }

  /** The answer carries the state and the digest of that result, and the hash asked about; with nothing
      to ask it names none. */
  lemma AnswerNamesTheBest(results: seq<Result>, wasm: Hash)
    ensures BestOf(results, wasm).wasm == wasm
    ensures results == [] ==> BestOf(results, wasm).best == None && BestOf(results, wasm).state == NoClaim
    ensures results != [] ==>
              exists i :: 0 <= i < |results|
                && BestOf(results, wasm).best == Some(results[i].digest) && BestOf(results, wasm).state == results[i].state
                && (forall j | 0 <= j < |results| :: Rank(results[j].state) <= Rank(results[i].state))
                && (forall j | 0 <= j < i :: Rank(results[j].state) < Rank(results[i].state))
  {
    if results != [] {
      var i := BestIsFirstOfTheHighest(results);
    }
  }

  /** The order in which states outrank each other. */
  lemma RanksAscend(t: Tally.Tally)
    ensures Rank(NoClaim) < Rank(Open(t)) < Rank(Insufficient(t)) < Rank(Disputed(t)) < Rank(Mismatch) < Rank(Verified)
  {
  }

  /** The gate opens if and only if some claim asked about is verified. */
  lemma AllowIffSomeVerified(results: seq<Result>, wasm: Hash)
    ensures Allows(BestOf(results, wasm)) <==> exists i :: 0 <= i < |results| && results[i].state == Verified
  {
    if results != [] {
      var i := BestIsFirstOfTheHighest(results);
      if j :| 0 <= j < |results| && results[j].state == Verified {
        assert Rank(results[j].state) <= Rank(results[i].state);
      }
    }
  }

  predicate Has(results: seq<Result>, P: Consensus -> bool) {
    exists i :: 0 <= i < |results| && P(results[i].state)
  }

  /** What the depositor is told, claim by claim: green if some claim is verified; otherwise danger if
      one was found wrong or disputed; otherwise waiting if one is undecided; and blocked only if
      nothing at all is known. */
  lemma ToneMeans(results: seq<Result>, wasm: Hash)
    ensures var tone := BestOf(results, wasm).decision.tone;
            var good := Has(results, (s: Consensus) => s.Verified?);
            var bad := Has(results, (s: Consensus) => s.Mismatch? || s.Disputed?);
            var undecided := Has(results, (s: Consensus) => s.Open? || s.Insufficient?);
            && (tone == Good <==> good)
            && (tone == Danger <==> bad && !good)
            && (tone == WaitingTone <==> undecided && !bad && !good)
            && (tone == Blocked <==> forall i | 0 <= i < |results| :: results[i].state == NoClaim)
  {
    if results != [] {
      var i := BestIsFirstOfTheHighest(results);
      assert forall j | 0 <= j < |results| :: Rank(results[j].state) <= Rank(results[i].state);
    }
  }

  /** The order in which claims come back changes neither the decision nor the kind of answer. */
  lemma OrderDoesNotMatter(results: seq<Result>, shuffled: seq<Result>, wasm: Hash)
    requires multiset(results) == multiset(shuffled)
    ensures BestOf(shuffled, wasm).decision == BestOf(results, wasm).decision
    ensures Rank(BestOf(shuffled, wasm).state) == Rank(BestOf(results, wasm).state)
  {
    assert |results| == |multiset(results)| == |multiset(shuffled)| == |shuffled|;
    if results != [] {
      var i := BestIsFirstOfTheHighest(results);
      var j := BestIsFirstOfTheHighest(shuffled);
      assert results[i] in multiset(shuffled) && shuffled[j] in multiset(results);
      var k :| 0 <= k < |shuffled| && shuffled[k] == results[i];
      var l :| 0 <= l < |results| && results[l] == shuffled[j];
    }
  }

  // ---- which claims are asked about ----------------------------------------------------

  /** What the event reader makes of one registry event. */
  datatype Sighting = Attested(claim: Claim) | Other | Unparsable

  datatype Source = ChainEvents | ConfiguredBuild

  datatype Candidate = Candidate(digest: Hash, source: Source)

  /** The digests `events` names for `wasm`, each once, in order of first sight. */
  function DigestsFor(events: seq<Sighting>, wasm: Hash): seq<Hash> {
    if events == [] then []
    else
      var seen := DigestsFor(events[..|events| - 1], wasm);
      var e := events[|events| - 1];
      if e.Attested? && e.claim.wasm == wasm && e.claim.digest !in seen then seen + [e.claim.digest] else seen
  }

  lemma {:induction false} DigestsForIsExact(events: seq<Sighting>, wasm: Hash)
    ensures var ds := DigestsFor(events, wasm);
            && (forall d :: d in ds <==> exists i :: 0 <= i < |events| && events[i].Attested? && events[i].claim == Claim(wasm, d))
            && forall i, j | 0 <= i < j < |ds| :: ds[i] != ds[j]
    decreases |events|
  {
    if events != [] {
      var n := |events| - 1;
      DigestsForIsExact(events[..n], wasm);
      var ds, seen := DigestsFor(events, wasm), DigestsFor(events[..n], wasm);
      forall d
        ensures d in ds <==> exists i :: 0 <= i < |events| && events[i].Attested? && events[i].claim == Claim(wasm, d)
      {
        if d in seen {
          var i :| 0 <= i < n && events[..n][i].Attested? && events[..n][i].claim == Claim(wasm, d);
          assert events[i].claim == Claim(wasm, d);
        }
        if i :| 0 <= i < |events| && events[i].Attested? && events[i].claim == Claim(wasm, d) {
          if i < n {
            assert events[..n][i].claim == Claim(wasm, d);
          }
        }
      }
    }
  }

  /** What is seen first comes first: more events only add digests at the end. */
  lemma {:induction false} FirstSeenFirst(events: seq<Sighting>, k: nat, wasm: Hash)
    requires k <= |events|
    ensures DigestsFor(events[..k], wasm) <= DigestsFor(events, wasm)
    decreases |events| - k
  {
    if k == |events| {
      assert events[..k] == events;
    } else {
      assert events[..k + 1][..k] == events[..k];
      FirstSeenFirst(events, k + 1, wasm);
    }
  }

  function FromEvents(ds: seq<Hash>): seq<Candidate> {
    seq(|ds|, i requires 0 <= i < |ds| => Candidate(ds[i], ChainEvents))
  }

  /** Discovered claims first; a configured build is added only if nothing discovered names it. */
  function Candidates(discovered: Option<seq<Hash>>, descriptor: Option<Hash>): seq<Candidate> {
    var found := if discovered.Some? then discovered.value else [];
    if descriptor.Some? && descriptor.value !in found
    then FromEvents(found) + [Candidate(descriptor.value, ConfiguredBuild)]
    else FromEvents(found)
  }

  /** The gate asks about `d`. */
  predicate Asked(cs: seq<Candidate>, d: Hash) {
    exists i :: 0 <= i < |cs| && cs[i].digest == d
  }

  /** Who is asked about: what the scan found, if it succeeded, and the configured build; nothing else.
      The source says events exactly for what was found. What was found comes first and in order, and
      the configured build is last if it adds anything. */
  lemma CandidatesExact(discovered: Option<seq<Hash>>, descriptor: Option<Hash>)
    ensures var found := if discovered.Some? then discovered.value else [];
            var cs := Candidates(discovered, descriptor);
            && (forall d: Hash :: Asked(cs, d) <==> d in found || descriptor == Some(d))
            && (forall i | 0 <= i < |cs| :: cs[i].source == ChainEvents <==> cs[i].digest in found)
            && |found| <= |cs| <= |found| + 1
            && (forall i | 0 <= i < |found| :: cs[i].digest == found[i])
  {
    var found := if discovered.Some? then discovered.value else [];
    var cs := Candidates(discovered, descriptor);
    forall d | d in found || descriptor == Some(d)
      ensures Asked(cs, d)
    {
      if d in found {
        var i :| 0 <= i < |found| && found[i] == d;
        assert cs[i].digest == d;
      } else {
        assert cs[|cs| - 1].digest == d;
      }
    }
  }
}

/** The gate as it runs, one read after another. */
module GateContract {
  import opened Chain
  import opened RegistrySpec
  import opened GateSpec

  /** What the chain says a contract executes. */
  datatype Executable = Unreachable | Absent | StellarAsset | Wasm(hash: Hash)

  /** Folds a page of events into distinct claims. */
  method ClaimsForHash(events: seq<Sighting>, wasm: Hash) returns (digests: seq<Hash>)
    ensures digests == DigestsFor(events, wasm)
  {
    digests := [];
    for i := 0 to |events|
      invariant digests == DigestsFor(events[..i], wasm)
    {
      assert events[..i + 1][..i] == events[..i];
      if events[i].Attested? && events[i].claim.wasm == wasm && events[i].claim.digest !in digests {
        digests := digests + [events[i].claim.digest];
      }
    }
    assert events[..|events|] == events;
  }

  /** The map from digests to candidates, filled step by step and read off in insertion order. */
  method ClaimsFor(discovered: Option<seq<Hash>>, descriptor: Option<Hash>) returns (candidates: seq<Candidate>)
    requires discovered.Some? ==> forall i, j | 0 <= i < j < |discovered.value| :: discovered.value[i] != discovered.value[j]
    ensures candidates == Candidates(discovered, descriptor)
    ensures forall i, j | 0 <= i < j < |candidates| :: candidates[i].digest != candidates[j].digest
  {
    var byDigest: map<Hash, Candidate> := map[];
    var order: seq<Hash> := [];
    if discovered.Some? {
      for i := 0 to |discovered.value|
        invariant order == discovered.value[..i]
        invariant byDigest.Keys == set d | d in order
        invariant forall d | d in byDigest :: byDigest[d] == Candidate(d, ChainEvents)
      {
        assert discovered.value[..i + 1] == discovered.value[..i] + [discovered.value[i]];
        order := order + [discovered.value[i]];
        byDigest := byDigest[discovered.value[i] := Candidate(discovered.value[i], ChainEvents)];
      }
    }
    ghost var found := order;
    assert found == if discovered.Some? then discovered.value else [];
    if descriptor.Some? && descriptor.value !in byDigest {
      order := order + [descriptor.value];
      byDigest := byDigest[descriptor.value := Candidate(descriptor.value, ConfiguredBuild)];
    }
    candidates := seq(|order|, i requires 0 <= i < |order| => byDigest[order[i]]);
  }

  /** What asking about candidate `i` showed: the state of the chain then, or a failure. */
  datatype Probe = Failed | Saw(world: World)

  function ResultOf(wasm: Hash, candidate: Candidate, probe: Probe): Result {
    match probe
    case Failed => Result(NoClaim, candidate.digest, false)
    case Saw(w) =>
      match ConsensusOf(w, Claim(wasm, candidate.digest))
      case Ok(s) => Result(s, candidate.digest, true)
      case _ => Result(NoClaim, candidate.digest, false)
  }

  /** A result carries the state that was read, and `NoClaim` if none was. */
  lemma ResultMeans(wasm: Hash, candidate: Candidate, probe: Probe)
    ensures var r := ResultOf(wasm, candidate, probe);
            && r.digest == candidate.digest
            && (r.readable <==> probe.Saw? && ConsensusOf(probe.world, Claim(wasm, candidate.digest)).Ok?)
            && (r.readable ==> ConsensusOf(probe.world, Claim(wasm, candidate.digest)) == Ok(r.state))
            && (!r.readable ==> r.state == NoClaim)
  {
  }

  function ResultsOf(wasm: Hash, candidates: seq<Candidate>, probes: seq<Probe>): seq<Result>
    requires |probes| == |candidates|
  {
    seq(|candidates|, i requires 0 <= i < |candidates| => ResultOf(wasm, candidates[i], probes[i]))
  }

  function Verdict(executable: Executable, candidates: seq<Candidate>, probes: seq<Probe>): Answer
    requires |probes| == |candidates|
  {
    if executable.Wasm? then BestOf(ResultsOf(executable.hash, candidates, probes), executable.hash) else Unavailable
  }

  /** One check of one contract. Each candidate is read when its turn comes, so the chain may have
      moved between two reads. */
  method CheckContract(executable: Executable, candidates: seq<Candidate>, probes: seq<Probe>) returns (answer: Answer)
    requires |probes| == |candidates|
    ensures answer == Verdict(executable, candidates, probes)
  {
    if !executable.Wasm? {
      return Unavailable;
    }
    var results: seq<Result> := [];
    for i := 0 to |candidates|
      invariant |results| == i
      invariant forall j | 0 <= j < i :: results[j] == ResultOf(executable.hash, candidates[j], probes[j])
    {
      var state, readable := NoClaim, false;
      if probes[i].Saw? {
        var consensus := ConsensusOf(probes[i].world, Claim(executable.hash, candidates[i].digest));
        if consensus.Ok? {
          state, readable := consensus.value, true;
        }
      }
      results := results + [Result(state, candidates[i].digest, readable)];
    }
    assert results == ResultsOf(executable.hash, candidates, probes);
    answer := BestOf(results, executable.hash);
  }

  datatype Deposit = Refused | BadAmount | Sent(amount: int)

  /** A deposit asks the gate again before anything is built: nothing is sent on an answer that does
      not allow it. */
  method Supply(recheck: Answer, amount: Option<int>) returns (deposit: Deposit)
    ensures deposit.Sent? <==> Allows(recheck) && amount.Some?
    ensures deposit.Sent? ==> Some(deposit.amount) == amount
    ensures deposit == Refused <==> !Allows(recheck)
  {
    if !Allows(recheck) {
      return Refused;
    }
    if amount.None? {
      return BadAmount;
    }
    deposit := Sent(amount.value);
  }
}

/** What an open gate says of the chain, now and later. */
module GateOnChain {
  import opened Chain
  import opened RegistrySpec
  import opened System
  import opened GateSpec
  import G = GateContract
  import F = Filings
  import V = Verdicts

  /** A quorum of distinct verifiers rebuilt exactly the bytes `wasm`, and the window has closed. */
  ghost predicate Backed(w: World, c: Claim) {
    && V.Closed(w, c)
    && F.Distinct(AttestersOf(w.reg, c))
    && |AttestersOf(w.reg, c)| >= w.cfg.quorum
    && forall v | v in AttestersOf(w.reg, c) ::
         (c, v) in w.reg.atts && w.reg.atts[(c, v)].rebuilt == c.wasm
  }

  lemma BackedIsVerified(w: World, c: Claim)
    requires F.Coherent(w) && ValidConfig(w.cfg)
    ensures Backed(w, c) <==> ConsensusOf(w, c) == Ok(Verified)
  {
    assert F.CoherentClaim(w, c);
    if V.Closed(w, c) {
      V.VerdictMeans(w, c);
    }
  }

  /** Every successful read was of some state the chain passed through from `w0` on. */
  ghost predicate ReadsOf(w0: World, probes: seq<G.Probe>) {
    forall i | 0 <= i < |probes| && probes[i].Saw? :: exists calls :: probes[i].world == Run(w0, calls)
  }

  lemma ProbeIsSound(w0: World, probes: seq<G.Probe>, i: nat)
    requires F.Coherent(w0) && ValidConfig(w0.cfg) && ReadsOf(w0, probes)
    requires i < |probes| && probes[i].Saw?
    ensures F.Coherent(probes[i].world) && ValidConfig(probes[i].world.cfg)
  {
    var calls :| probes[i].world == Run(w0, calls);
    F.RunExtends(w0, calls, Claim(ZERO, ZERO));
    RunFixed(w0, calls);
  }

  /** An answer that opens the gate means: for one candidate, at the moment it was read, the window had
      closed and at least a quorum of distinct verifiers had all rebuilt the very bytes the contract
      runs; and that is still so, and still reads as verified, after anything anybody does later.
      A deposit acting on it cannot be acting on a verdict that has gone stale. */
  lemma AllowMeansBackedForGood(w0: World, executable: G.Executable, candidates: seq<Candidate>, probes: seq<G.Probe>) returns (i: nat)
    requires F.Coherent(w0) && ValidConfig(w0.cfg) && |probes| == |candidates| && ReadsOf(w0, probes)
    requires Allows(G.Verdict(executable, candidates, probes))
    ensures executable.Wasm? && i < |candidates| && probes[i].Saw?
    ensures var c := Claim(executable.hash, candidates[i].digest);
            && Backed(probes[i].world, c)
            && forall calls :: Backed(Run(probes[i].world, calls), c) && ConsensusOf(Run(probes[i].world, calls), c) == Ok(Verified)
  {
    var results := G.ResultsOf(executable.hash, candidates, probes);
    AllowIffSomeVerified(results, executable.hash);
    i :| 0 <= i < |results| && results[i].state == Verified;
    var c := Claim(executable.hash, candidates[i].digest);
    var w := probes[i].world;
    ProbeIsSound(w0, probes, i);
    BackedIsVerified(w, c);
    forall calls
      ensures Backed(Run(w, calls), c) && ConsensusOf(Run(w, calls), c) == Ok(Verified)
    {
      StaysBacked(w, calls, c);
    }
  }

  lemma StaysBacked(w: World, calls: seq<Call>, c: Claim)
    requires F.Coherent(w) && ValidConfig(w.cfg) && Backed(w, c)
    ensures Backed(Run(w, calls), c) && ConsensusOf(Run(w, calls), c) == Ok(Verified)
  {
    V.ClosedIsFrozen(w, calls, c);
    F.RunExtends(w, calls, c);
    RunFixed(w, calls);
    BackedIsVerified(Run(w, calls), c);
  }

  /** The other way: a claim that was verified when the check began, is among the candidates and can be
      read, opens the gate, whatever the other candidates read and whenever each was read. */
  lemma VerifiedOpensTheGate(w0: World, wasm: Hash, candidates: seq<Candidate>, probes: seq<G.Probe>, i: nat)
    requires F.Coherent(w0) && ValidConfig(w0.cfg) && |probes| == |candidates| && ReadsOf(w0, probes)
    requires i < |candidates| && probes[i].Saw?
    requires ConsensusOf(w0, Claim(wasm, candidates[i].digest)) == Ok(Verified)
    ensures Allows(G.Verdict(G.Wasm(wasm), candidates, probes))
  {
    var c := Claim(wasm, candidates[i].digest);
    var calls :| probes[i].world == Run(w0, calls);
    BackedIsVerified(w0, c);
    StaysBacked(w0, calls, c);
    var results := G.ResultsOf(wasm, candidates, probes);
    assert results[i].state == Verified;
    AllowIffSomeVerified(results, wasm);
  }

  /** With the scan failed altogether, a configured build whose claim is verified and readable opens the
      gate. */
  lemma ConfiguredBuildOpensTheGate(w: World, wasm: Hash, d: Hash)
    requires ConsensusOf(w, Claim(wasm, d)) == Ok(Verified)
    ensures var candidates := Candidates(None, Some(d));
            candidates == [Candidate(d, ConfiguredBuild)] && Allows(G.Verdict(G.Wasm(wasm), candidates, [G.Saw(w)]))
  {
    var candidates := Candidates(None, Some(d));
    assert candidates == [Candidate(d, ConfiguredBuild)];
    var results := G.ResultsOf(wasm, candidates, [G.Saw(w)]);
    assert results[0].state == Verified;
    AllowIffSomeVerified(results, wasm);
  }

  /** And in general: whatever was discovered or not, the gate opens exactly when a digest that was
      discovered or configured is verified, if all can be read. */
  lemma GateAsksWhatItShould(w: World, wasm: Hash, discovered: Option<seq<Hash>>, descriptor: Option<Hash>)
    ensures var candidates := Candidates(discovered, descriptor);
            Allows(G.Verdict(G.Wasm(wasm), candidates, seq(|candidates|, _ => G.Saw(w)))) <==>
              exists d :: ((discovered.Some? && d in discovered.value) || descriptor == Some(d)) && ConsensusOf(w, Claim(wasm, d)) == Ok(Verified)
  {
    hide ConsensusOf;
    var candidates := Candidates(discovered, descriptor);
    var results := G.ResultsOf(wasm, candidates, seq(|candidates|, _ => G.Saw(w)));
    AllowIffSomeVerified(results, wasm);
    CandidatesExact(discovered, descriptor);
    if i :| 0 <= i < |results| && results[i].state == Verified {
      assert ConsensusOf(w, Claim(wasm, candidates[i].digest)) == Ok(Verified);
    }
    if d :| ((discovered.Some? && d in discovered.value) || descriptor == Some(d)) && ConsensusOf(w, Claim(wasm, d)) == Ok(Verified) {
      assert Asked(candidates, d);
      var i :| 0 <= i < |candidates| && candidates[i].digest == d;
      assert results[i].state == Verified;
    }
  }

  /** Every attestation filed for `wasm` shows up among the events. */
  ghost predicate ScanIsComplete(w: World, wasm: Hash, events: seq<Sighting>) {
    forall c: Claim, v: Address | c.wasm == wasm && (c, v) in w.reg.atts ::
      exists i :: 0 <= i < |events| && events[i].Attested? && events[i].claim == c
  }

  /** End to end, at one state of the chain: with the events of the registry at hand and every claim
      readable, the gate opens exactly when some claim for the contract's bytes is verified, and a
      configured build or a forged event can neither open nor close it. */
  lemma GateIsExact(w: World, wasm: Hash, events: seq<Sighting>, descriptor: Option<Hash>)
    requires F.Coherent(w) && ValidConfig(w.cfg) && ScanIsComplete(w, wasm, events)
    ensures var candidates := Candidates(Some(DigestsFor(events, wasm)), descriptor);
            Allows(G.Verdict(G.Wasm(wasm), candidates, seq(|candidates|, _ => G.Saw(w)))) <==>
              exists d :: ConsensusOf(w, Claim(wasm, d)) == Ok(Verified)
  {
    var digests := DigestsFor(events, wasm);
    var candidates := Candidates(Some(digests), descriptor);
    var probes := seq(|candidates|, _ => G.Saw(w));
    var results := G.ResultsOf(wasm, candidates, probes);
    AllowIffSomeVerified(results, wasm);
    if i :| 0 <= i < |results| && results[i].state == Verified {
      assert ConsensusOf(w, Claim(wasm, candidates[i].digest)) == Ok(Verified);
    }
    if d :| ConsensusOf(w, Claim(wasm, d)) == Ok(Verified) {
      var c := Claim(wasm, d);
      BackedIsVerified(w, c);
      var v := AttestersOf(w.reg, c)[0];
      assert v in AttestersOf(w.reg, c) && (c, v) in w.reg.atts;
      DigestsForIsExact(events, wasm);
      assert d in digests;
      var i :| 0 <= i < |digests| && digests[i] == d;
      assert candidates[i] == Candidate(d, ChainEvents);
      assert results[i].state == Verified;
    }
  }
}
