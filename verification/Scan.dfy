/** From the events the registry publishes, as bytes, to the claims the gate asks about. */
module Scan {
  import opened Chain
  import opened RegistrySpec
  import opened System
  import opened GateSpec
  import G = GateContract
  import O = GateOnChain
  import F = Filings
  import B = ClaimLayout
  import H = Hex
  import P = ClaimPrograms
  import X = Xdr
  import R = XdrReader

  // ---- hashes as bytes -----------------------------------------------------------------

  function BigEndian(n: nat, k: nat): (b: B.Bytes)
    ensures |b| == k
  {
    if k == 0 then [] else BigEndian(n / 256, k - 1) + [n % 256]
  }

  function BytesValue(b: B.Bytes): nat {
    if b == [] then 0 else BytesValue(b[..|b| - 1]) * 256 + b[|b| - 1]
  }

  function Power256(k: nat): nat {
    if k == 0 then 1 else 256 * Power256(k - 1)
  }

  lemma {:induction false} BigEndianRoundTrip(n: nat, k: nat)
    requires n < Power256(k)
    ensures BytesValue(BigEndian(n, k)) == n
    decreases k
  {
    if k > 0 {
      BigEndianRoundTrip(n / 256, k - 1);
      var b := BigEndian(n, k);
      assert b[..|b| - 1] == BigEndian(n / 256, k - 1);
    }
  }

  lemma {:induction false} BytesValueBound(b: B.Bytes)
    ensures BytesValue(b) < Power256(|b|)
    decreases |b|
  {
    if b != [] {
      BytesValueBound(b[..|b| - 1]);
    }
  }

  lemma {:induction false} PowerAdds(m: nat, n: nat)
    ensures Power256(m + n) == Power256(m) * Power256(n)
    decreases n
  {
    if n > 0 {
      PowerAdds(m, n - 1);
      Reorder(Power256(m), Power256(n - 1));
    }
  }

  lemma Reorder(x: nat, y: nat)
    ensures 256 * (x * y) == x * (256 * y)
  {
  }

  lemma ThirtyTwoBytes()
    ensures Power256(32) == 0x1_0000000000000000_0000000000000000_0000000000000000_0000000000000000
  {
    assert Power256(2) == 0x1_0000;
    PowerAdds(2, 2);
    PowerAdds(4, 4);
    PowerAdds(8, 8);
    PowerAdds(16, 16);
  }

  function HashBytes(h: Hash): B.Bytes32 {
    BigEndian(h, 32)
  }

  function HashOf(b: B.Bytes32): Hash {
    BytesValueBound(b);
    ThirtyTwoBytes();
    BytesValue(b)
  }

  lemma HashRoundTrip(h: Hash)
    ensures HashOf(HashBytes(h)) == h
  {
    ThirtyTwoBytes();
    BigEndianRoundTrip(h, 32);
  }

  // ---- events --------------------------------------------------------------------------

  datatype Raw = Raw(topics: seq<B.Bytes>, value: B.Bytes)

  /** What the gate makes of one event. A wasm hash is compared as lower-case text, so other text never
      matches; a digest that does not read as thirty-two bytes cannot be asked about. */
  function Sight(js: X.Js, raw: Raw): Sighting {
    match R.ClaimFromEvent(js, raw.topics, raw.value)
    case Unparsable => Sighting.Unparsable
    case NotAnAttestation => Other
    case Claimed(wasm, digest, _, _) =>
      match (P.Hex32(wasm), P.ReadHex32(digest))
      case (Some(w), Some(d)) => if H.LowerAll(wasm) == wasm then Attested(Claim(HashOf(w), HashOf(d))) else Other
      case _ => Other
  }

  function Sights(js: X.Js, raws: seq<Raw>): seq<Sighting> {
    seq(|raws|, i requires 0 <= i < |raws| => Sight(js, raws[i]))
  }

  /** The event of one attestation; `key` gives the bytes of an address. */
  function Publish(key: Address -> B.Bytes32, v: Address, c: Claim, rebuilt: Hash): Raw {
    var verifier := if v.Account? then X.Account(key(v)) else X.Contract(key(v));
    Raw(R.AttestedTopics(verifier, HashBytes(c.wasm)), R.AttestedValue(HashBytes(c.digest), HashBytes(rebuilt)))
  }

  /** The attestation events of a run, in order. */
  function Published(key: Address -> B.Bytes32, w: World, calls: seq<Call>): seq<Raw>
    decreases |calls|
  {
    if calls == [] then []
    else
      var op := calls[0].op;
      (if op.Attest? && Exec(w, calls[0]).Ok? then [Publish(key, op.verifier, op.claim, op.rebuilt)] else [])
      + Published(key, Step(w, calls[0]), calls[1..])
  }

  lemma LowerHexReads(b: B.Bytes32)
    ensures P.Hex32(H.ToHex(b)) == B.Some(b) && P.ReadHex32(H.ToHex(b)) == B.Some(b) && H.LowerAll(H.ToHex(b)) == H.ToHex(b)
  {
    H.UnhexToHex(b);
    H.ToHexUnhex(H.ToHex(b));
    P.StrictIsLenient(H.ToHex(b));
  }

  lemma {:induction false} BigEndianOfValue(b: B.Bytes)
    ensures BigEndian(BytesValue(b), |b|) == b
    decreases |b|
  {
    if b != [] {
      var n := |b| - 1;
      BigEndianOfValue(b[..n]);
      SplitByte(BytesValue(b[..n]), b[n]);
      assert BytesValue(b) == BytesValue(b[..n]) * 256 + b[n];
      assert b == b[..n] + [b[n]];
    }
  }

  lemma SplitByte(v: nat, last: B.Byte)
    ensures (v * 256 + last) / 256 == v && (v * 256 + last) % 256 == last
  {
  }

  /** An event is seen as an attestation of a claim exactly when the scan reads it as one whose wasm hash is
      that hash in lower-case hex and whose digest reads as that digest. */
  lemma SightIff(js: X.Js, raw: Raw, c: Claim)
    ensures var seen := R.ClaimFromEvent(js, raw.topics, raw.value);
            Sight(js, raw) == Attested(c) <==>
              seen.Claimed? && seen.wasm == H.ToHex(HashBytes(c.wasm)) && P.ReadHex32(seen.digest) == B.Some(HashBytes(c.digest))
  {
    hide R.ClaimFromEvent, P.ReadHex32, HashOf;
    var seen := R.ClaimFromEvent(js, raw.topics, raw.value);
    HashRoundTrip(c.wasm);
    HashRoundTrip(c.digest);
    LowerHexReads(HashBytes(c.wasm));
    if seen.Claimed? && P.Hex32(seen.wasm).Some? && P.ReadHex32(seen.digest).Some? {
      H.ToHexUnhex(seen.wasm);
      BytesOfHash(P.Hex32(seen.wasm).value);
      BytesOfHash(P.ReadHex32(seen.digest).value);
    }
  }

  lemma BytesOfHash(b: B.Bytes32)
    ensures HashBytes(HashOf(b)) == b
  {
    BigEndianOfValue(b);
  }

  /** The gate sees a published attestation as the claim it was filed under. */
  lemma SightOfPublished(js: X.Js, key: Address -> B.Bytes32, v: Address, c: Claim, rebuilt: Hash)
    requires R.PlainText(js)
    ensures Sight(js, Publish(key, v, c, rebuilt)) == Attested(c)
  {
    hide R.PlainText, R.ClaimFromEvent, R.AttestedTopics, R.AttestedValue, H.ToHex, P.Hex32, P.ReadHex32, HashOf, HashBytes, H.LowerAll;
    var verifier := if v.Account? then X.Account(key(v)) else X.Contract(key(v));
    R.EventReadsBack(js, verifier, HashBytes(c.wasm), HashBytes(c.digest), HashBytes(rebuilt));
    LowerHexReads(HashBytes(c.wasm));
    LowerHexReads(HashBytes(c.digest));
    HashRoundTrip(c.wasm);
    HashRoundTrip(c.digest);
  }

  lemma StepPublishes(w: World, call: Call, c: Claim, v: Address)
    requires F.Coherent(w) && (c, v) in Step(w, call).reg.atts && (c, v) !in w.reg.atts
    ensures call.op.Attest? && Exec(w, call).Ok? && call.op.claim == c && call.op.verifier == v
  {
    StepFixed(w, call);
    if call.op.Attest? && Exec(w, call).Ok? {
      F.AttestEffect(w, call.auth, call.op.verifier, call.op.claim, call.op.rebuilt);
    }
  }

  /** Every attestation on record after a run was on record before it or is among its events. */
  lemma {:induction false} AttestationsArePublished(key: Address -> B.Bytes32, w: World, calls: seq<Call>, c: Claim, v: Address)
    requires F.Coherent(w) && (c, v) in Run(w, calls).reg.atts && (c, v) !in w.reg.atts
    ensures exists rebuilt :: Publish(key, v, c, rebuilt) in Published(key, w, calls)
    decreases |calls|
  {
    hide Exec, Step, Publish, F.Coherent;
    if calls != [] {
      var w1 := Step(w, calls[0]);
      F.StepCoherent(w, calls[0]);
      if (c, v) in w1.reg.atts {
        StepPublishes(w, calls[0], c, v);
        assert Publish(key, v, c, calls[0].op.rebuilt) in Published(key, w, calls);
      } else {
        AttestationsArePublished(key, w1, calls[1..], c, v);
        var rebuilt :| Publish(key, v, c, rebuilt) in Published(key, w1, calls[1..]);
        assert Publish(key, v, c, rebuilt) in Published(key, w, calls);
      }
    }
  }

  /** The scan got every event of the run that is about `wasm`, among whatever else. */
  ghost predicate Fetched(key: Address -> B.Bytes32, w: World, calls: seq<Call>, wasm: Hash, raws: seq<Raw>) {
    forall v, c: Claim, rebuilt | c.wasm == wasm && Publish(key, v, c, rebuilt) in Published(key, w, calls) ::
      Publish(key, v, c, rebuilt) in raws
  }

  /** A scan that got the bytes of those events is complete: every attestation filed for `wasm` is seen
      as its claim. */
  lemma FetchedIsComplete(js: X.Js, key: Address -> B.Bytes32, w: World, calls: seq<Call>, wasm: Hash, raws: seq<Raw>)
    requires R.PlainText(js) && F.Coherent(w) && w.reg.atts == map[]
    requires Fetched(key, w, calls, wasm, raws)
    ensures O.ScanIsComplete(Run(w, calls), wasm, Sights(js, raws))
  {
    hide Publish, Sight, Run, Published, F.Coherent, R.PlainText;
    forall c: Claim, v: Address | c.wasm == wasm && (c, v) in Run(w, calls).reg.atts
      ensures exists i :: 0 <= i < |raws| && Sights(js, raws)[i].Attested? && Sights(js, raws)[i].claim == c
    {
      AttestationsArePublished(key, w, calls, c, v);
      var rebuilt :| Publish(key, v, c, rebuilt) in Published(key, w, calls);
      SightOfPublished(js, key, v, c, rebuilt);
      var i :| 0 <= i < |raws| && raws[i] == Publish(key, v, c, rebuilt);
      assert Sights(js, raws)[i] == Attested(c);
    }
  }

  /** End to end, from bytes: after any run of the two contracts from their deployment, a gate that
      fetched the encoded events about a contract's wasm hash, and can read every claim, opens exactly
      when some claim for that hash is verified on chain. */
  lemma GateIsExactOnBytes(js: X.Js, key: Address -> B.Bytes32, cfg: Config, self: Address, admin: Address, now: nat, calls: seq<Call>,
                           wasm: Hash, raws: seq<Raw>, descriptor: Option<Hash>)
    requires R.PlainText(js) && ValidConfig(cfg)
    requires Fetched(key, Genesis(cfg, self, admin, now), calls, wasm, raws)
    ensures var w := Run(Genesis(cfg, self, admin, now), calls);
            var candidates := Candidates(Some(DigestsFor(Sights(js, raws), wasm)), descriptor);
            Allows(G.Verdict(G.Wasm(wasm), candidates, seq(|candidates|, _ => G.Saw(w)))) <==>
              exists d :: ConsensusOf(w, Claim(wasm, d)) == Ok(Verified)
  {
    hide Run, Sights, Fetched, R.PlainText, O.ScanIsComplete, DigestsFor, Candidates, ConsensusOf;
    var g := Genesis(cfg, self, admin, now);
    F.GenesisCoherent(cfg, self, admin, now);
    F.RunExtends(g, calls, Claim(wasm, ZERO));
    RunFixed(g, calls);
    FetchedIsComplete(js, key, g, calls, wasm, raws);
    O.GateIsExact(Run(g, calls), wasm, Sights(js, raws), descriptor);
  }
}
