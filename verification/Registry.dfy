/** The verifier registry as functions on the two contracts' storage: stake, attest, consensus,
    slash. A function returns what the invocation leaves behind, or how it refuses or aborts. */
module RegistrySpec {
  import opened Chain
  import opened Tally
  import T = TokenSpec

  const BPS_DENOMINATOR: int := 10_000
  const MIN_QUORUM: int := 3

  datatype Config = Config(
    minStake: int,
    quorum: nat,
    attestWindow: nat,
    unbondPeriod: nat,
    slashBps: nat)

  /** What the constructor accepts. */
  predicate ValidConfig(c: Config) {
    && 0 < c.minStake <= MAX_I128
    && MIN_QUORUM <= c.quorum <= MAX_U32
    && 0 < c.attestWindow <= c.unbondPeriod <= MAX_U32
    && 0 < c.slashBps <= BPS_DENOMINATOR
  }

  datatype StakeInfo = StakeInfo(staked: int, unbonding: int, releaseLedger: nat)

  /** What an attestation is filed under. */
  datatype Claim = Claim(wasm: Hash, digest: Hash)

  datatype Attestation = Attestation(verifier: Address, rebuilt: Hash, ledger: nat)

  datatype Consensus =
    | NoClaim
    | Open(tally: Tally)
    | Insufficient(tally: Tally)
    | Verified
    | Mismatch
    | Disputed(tally: Tally)

  /** The registry's persistent records. */
  datatype Records = Records(
    stakes: map<Address, StakeInfo>,
    openedAt: map<Claim, nat>,
    attesters: map<Claim, seq<Address>>,
    atts: map<(Claim, Address), Attestation>,
    slashed: set<(Claim, Address)>)

  /** Both contracts, on one ledger. `self` is the registry's own address. */
  datatype World = World(cfg: Config, self: Address, now: nat, tok: T.Token, reg: Records)

  // ---- reading -------------------------------------------------------------------------

  function StakeOf(r: Records, v: Address): StakeInfo {
    if v in r.stakes then r.stakes[v] else StakeInfo(0, 0, 0)
  }

  function AttestersOf(r: Records, c: Claim): seq<Address> {
    if c in r.attesters then r.attesters[c] else []
  }

  /** The attestations of the listed verifiers, in order; a verifier without a record is skipped. */
  function Collect(atts: map<(Claim, Address), Attestation>, c: Claim, vs: seq<Address>): seq<Attestation> {
    if vs == [] then []
    else
      var rest := Collect(atts, c, vs[..|vs| - 1]);
      var v := vs[|vs| - 1];
      if (c, v) in atts then rest + [atts[(c, v)]] else rest
  }

  function AttestationsOf(r: Records, c: Claim): seq<Attestation> {
    Collect(r.atts, c, AttestersOf(r, c))
  }

  function Hashes(atts: seq<Attestation>): (hs: seq<Hash>)
    ensures |hs| == |atts|
    ensures forall i | 0 <= i < |hs| :: hs[i] == atts[i].rebuilt
  {
    seq(|atts|, i requires 0 <= i < |atts| => atts[i].rebuilt)
  }

  function HashesOf(r: Records, c: Claim): seq<Hash> {
    Hashes(AttestationsOf(r, c))
  }

  /** The verdict on a closed set of hashes. */
  function Verdict(cfg: Config, wasm: Hash, hs: seq<Hash>): Consensus {
    var t := TallyOf(hs);
    if t.total < cfg.quorum then Insufficient(t)
    else if t.distinct == 1 then
      if TopHash(hs) == wasm then Verified else Mismatch
    else Disputed(t)
  }

  function ConsensusOf(w: World, c: Claim): Outcome<Consensus> {
    if c !in w.reg.openedAt then Ok(NoClaim)
    else
      var closes :- U32(w.reg.openedAt[c] + w.cfg.attestWindow);
      if w.now < closes then Ok(Open(TallyOf(HashesOf(w.reg, c))))
      else Ok(Verdict(w.cfg, c.wasm, HashesOf(w.reg, c)))
  }

  // ---- staking -------------------------------------------------------------------------

  function PutStake(w: World, v: Address, info: StakeInfo): World {
    w.(reg := w.reg.(stakes := w.reg.stakes[v := info]))
  }

  /** The verifier's authorization covers the transfer the registry makes in its name. */
  function Stake(w: World, auth: set<Address>, v: Address, amount: int): Outcome<World> {
    if v !in auth then Trap(Unauthorized)
    else if amount <= 0 then Err(InvalidAmount)
    else
      var tok :- T.Transfer(w.tok, auth + {w.self}, v, w.self, amount);
      var info := StakeOf(w.reg, v);
      var staked :- I128(info.staked + amount);
      Ok(PutStake(w.(tok := tok), v, info.(staked := staked)))
  }

  function RequestUnstake(w: World, auth: set<Address>, v: Address, amount: int): Outcome<World> {
    var info := StakeOf(w.reg, v);
    if v !in auth then Trap(Unauthorized)
    else if amount <= 0 then Err(InvalidAmount)
    else if amount > info.staked then Err(InsufficientStake)
    else
      var staked :- I128(info.staked - amount);
      var unbonding :- I128(info.unbonding + amount);
      var release :- U32(w.now + w.cfg.unbondPeriod);
      Ok(PutStake(w, v, StakeInfo(staked, unbonding, release)))
  }

  function Withdraw(w: World, auth: set<Address>, v: Address): Outcome<(World, int)> {
    var info := StakeOf(w.reg, v);
    if v !in auth then Trap(Unauthorized)
    else if info.unbonding <= 0 then Err(NothingToWithdraw)
    else if w.now < info.releaseLedger then Err(StillUnbonding)
    else
      var w1 := PutStake(w, v, info.(unbonding := 0));
      var tok :- T.Transfer(w1.tok, auth + {w.self}, w.self, v, info.unbonding);
      Ok((w1.(tok := tok), info.unbonding))
  }

  // ---- attesting -----------------------------------------------------------------------

  /** Write one attestation; the first one on a claim also opens its window. */
  function PutAttestation(r: Records, now: nat, c: Claim, v: Address, rebuilt: Hash): Records {
    r.(openedAt := if c in r.openedAt then r.openedAt else r.openedAt[c := now],
       atts := r.atts[(c, v) := Attestation(v, rebuilt, now)],
       attesters := r.attesters[c := AttestersOf(r, c) + [v]])
  }

  function Attest(w: World, auth: set<Address>, v: Address, c: Claim, rebuilt: Hash): Outcome<World> {
    if v !in auth then Trap(Unauthorized)
    else if StakeOf(w.reg, v).staked < w.cfg.minStake then Err(NotActive)
    else
      var closed :- if c in w.reg.openedAt then Closes(w, c) else Ok(false);
      if closed then Err(WindowClosed)
      else if (c, v) in w.reg.atts then Err(AlreadyAttested)
      else Ok(w.(reg := PutAttestation(w.reg, w.now, c, v, rebuilt)))
  }

  /** Whether the window of an opened claim has closed. */
  function Closes(w: World, c: Claim): Outcome<bool>
    requires c in w.reg.openedAt
  {
    var closes :- U32(w.reg.openedAt[c] + w.cfg.attestWindow);
    Ok(w.now >= closes)
  }

  // ---- slashing ------------------------------------------------------------------------

  /** The share a slash takes from `total`. */
  function SlashAmount(total: int, bps: nat): int {
    TruncatedQuotient(total * bps, BPS_DENOMINATOR)
  }

  function Min(a: int, b: int): int {
    if a <= b then a else b
  }

  /** The stake after `amount` was taken, from the active part first. */
  function TakeFrom(info: StakeInfo, amount: int): Outcome<StakeInfo> {
    var fromStaked := Min(amount, info.staked);
    var staked :- I128(info.staked - fromStaked);
    var rest :- I128(amount - fromStaked);
    var unbonding :- I128(info.unbonding - rest);
    Ok(StakeInfo(staked, unbonding, info.releaseLedger))
  }

  /** Whether the claim is decided, so that someone may be slashed on it. */
  function Decided(w: World, c: Claim): Outcome<bool> {
    if c !in w.reg.openedAt then Ok(false)
    else
      var closed :- Closes(w, c);
      if !closed then Ok(false)
      else
        var t := TallyOf(HashesOf(w.reg, c));
        if t.total < w.cfg.quorum then Ok(false)
        else
          var twice :- U32(2 * t.topCount);
          Ok(twice > t.total)
  }

  /** Whether `v` may be slashed on `c`: the refusals come in this order. */
  function MaySlash(w: World, c: Claim, v: Address): Outcome<()> {
    var decided :- Decided(w, c);
    if !decided then Err(ClaimNotDecided)
    else if (c, v) !in w.reg.atts then Err(NotAttested)
    else if w.reg.atts[(c, v)].rebuilt == TopHash(HashesOf(w.reg, c)) then Err(NotDissenter)
    else if (c, v) in w.reg.slashed then Err(AlreadySlashed)
    else Ok(())
  }

  /** The share of `info` a slash takes, computed in `i128`. */
  function ShareOf(info: StakeInfo, bps: nat): Outcome<int> {
    var total :- I128(info.staked + info.unbonding);
    var scaled :- I128(total * bps);
    Ok(TruncatedQuotient(scaled, BPS_DENOMINATOR))
  }

  /** Take the share, mark the pair, burn the tokens. */
  function Punish(w: World, c: Claim, v: Address): Outcome<(World, int)> {
    var info := StakeOf(w.reg, v);
    var amount :- ShareOf(info, w.cfg.slashBps);
    if amount <= 0 then Err(NothingToSlash)
    else
      var left :- TakeFrom(info, amount);
      var tok :- T.Burn(w.tok, {w.self}, w.self, amount);
      Ok((w.(tok := tok, reg := MarkSlashed(w.reg, c, v, left)), amount))
  }

  function MarkSlashed(r: Records, c: Claim, v: Address, left: StakeInfo): Records {
    r.(stakes := r.stakes[v := left], slashed := r.slashed + {(c, v)})
  }

  function Slash(w: World, c: Claim, v: Address): Outcome<(World, int)> {
    var _ :- MaySlash(w, c, v);
    Punish(w, c, v)
  }
}
