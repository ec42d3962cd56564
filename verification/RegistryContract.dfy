/** The registry contract itself, and the host that runs transactions against both contracts. */
module RegistryContract {
  import opened Chain
  import opened Tally
  import opened TokenContract
  import opened RegistrySpec
  import Filings
  import Sys = System

  class Registry {
    const token: VrfyToken
    const self: Address
    const cfg: Config
    var stakes: map<Address, StakeInfo>
    var openedAt: map<Claim, nat>
    var attesters: map<Claim, seq<Address>>
    var atts: map<(Claim, Address), Attestation>
    var slashed: set<(Claim, Address)>

    /** The deployer checks the parameters; there is no setter afterwards. */
    static method CheckConfig(minStake: i128, quorum: u32, attestWindow: u32, unbondPeriod: u32, slashBps: u32) returns (r: Outcome<Config>)
      ensures r.Ok? <==> 0 < minStake && 3 <= quorum && 0 < attestWindow <= unbondPeriod && 0 < slashBps <= 10_000
      ensures r.Ok? <==> ValidConfig(Config(minStake, quorum, attestWindow, unbondPeriod, slashBps))
      ensures r.Ok? ==> r.value == Config(minStake, quorum, attestWindow, unbondPeriod, slashBps)
      ensures !r.Ok? ==> r == Err(InvalidConfig)
    {
      if minStake <= 0
         || quorum < MIN_QUORUM
         || attestWindow == 0
         || unbondPeriod < attestWindow
         || slashBps == 0
         || slashBps > BPS_DENOMINATOR
      {
        return Err(InvalidConfig);
      }
      r := Ok(Config(minStake, quorum, attestWindow, unbondPeriod, slashBps));
    }

    constructor (token: VrfyToken, self: Address, cfg: Config)
      ensures this.token == token && this.self == self && this.cfg == cfg
      ensures Stored() == Records(map[], map[], map[], map[], {})
    {
      this.token := token;
      this.self := self;
      this.cfg := cfg;
      stakes, openedAt, attesters, atts, slashed := map[], map[], map[], map[], {};
    }

    ghost function Stored(): Records
      reads this
    {
      Records(stakes, openedAt, attesters, atts, slashed)
    }

    ghost function Value(now: nat): World
      reads this, token
    {
      World(cfg, self, now, token.Value(), Stored())
    }

    method ReadStake(v: Address) returns (info: StakeInfo)
      ensures info == StakeOf(Stored(), v)
    {
      if v in stakes {
        info := stakes[v];
      } else {
        info := StakeInfo(0, 0, 0);
      }
    }

    method Stake(auth: set<Address>, now: nat, v: Address, amount: int) returns (r: Outcome<()>)
      modifies this`stakes, token
      ensures r == RegistrySpec.Stake(old(Value(now)), auth, v, amount).Status()
      ensures r.Ok? ==> Value(now) == RegistrySpec.Stake(old(Value(now)), auth, v, amount).value
      ensures r.Err? ==> Value(now) == old(Value(now))
    {
      if v !in auth {
        return Trap(Unauthorized);
      }
      if amount <= 0 {
        return Err(InvalidAmount);
      }
      var _ :- token.Transfer(auth + {self}, v, self, amount);
      var info := ReadStake(v);
      var staked :- I128(info.staked + amount);
      stakes := stakes[v := info.(staked := staked)];
      r := Ok(());
    }

    method RequestUnstake(auth: set<Address>, now: nat, v: Address, amount: int) returns (r: Outcome<()>)
      modifies this`stakes
      ensures r == RegistrySpec.RequestUnstake(old(Value(now)), auth, v, amount).Status()
      ensures r.Ok? ==> Value(now) == RegistrySpec.RequestUnstake(old(Value(now)), auth, v, amount).value
      ensures !r.Ok? ==> Value(now) == old(Value(now))
    {
      if v !in auth {
        return Trap(Unauthorized);
      }
      if amount <= 0 {
        return Err(InvalidAmount);
      }
      var info := ReadStake(v);
      if amount > info.staked {
        return Err(InsufficientStake);
      }
      var staked :- I128(info.staked - amount);
      var unbonding :- I128(info.unbonding + amount);
      var release :- U32(now + cfg.unbondPeriod);
      stakes := stakes[v := StakeInfo(staked, unbonding, release)];
      r := Ok(());
    }

    method Withdraw(auth: set<Address>, now: nat, v: Address) returns (r: Outcome<int>)
      modifies this`stakes, token
      ensures r.Status() == RegistrySpec.Withdraw(old(Value(now)), auth, v).Status()
      ensures r.Ok? ==> RegistrySpec.Withdraw(old(Value(now)), auth, v).value == (Value(now), r.value)
      ensures r.Err? ==> Value(now) == old(Value(now))
    {
      if v !in auth {
        return Trap(Unauthorized);
      }
      var info := ReadStake(v);
      if info.unbonding <= 0 {
        return Err(NothingToWithdraw);
      }
      if now < info.releaseLedger {
        return Err(StillUnbonding);
      }
      var amount := info.unbonding;
      stakes := stakes[v := info.(unbonding := 0)];
      var _ :- token.Transfer(auth + {self}, self, v, amount);
      r := Ok(amount);
    }

    /** A refused `attest` changes nothing, even without the host undoing anything, although the
        window is opened before the duplicate check: an unopened claim has no attestation. */
    method Attest(auth: set<Address>, now: nat, v: Address, c: Claim, rebuilt: Hash) returns (r: Outcome<()>)
      requires Filings.Coherent(Value(now))
      modifies this`openedAt, this`atts, this`attesters
      ensures r == RegistrySpec.Attest(old(Value(now)), auth, v, c, rebuilt).Status()
      ensures r.Ok? ==> Value(now) == RegistrySpec.Attest(old(Value(now)), auth, v, c, rebuilt).value
      ensures !r.Ok? ==> Value(now) == old(Value(now))
    {
      if v !in auth {
        return Trap(Unauthorized);
      }
      var info := ReadStake(v);
      if info.staked < cfg.minStake {
        return Err(NotActive);
      }
      assert Filings.CoherentClaim(Value(now), c);
      if c in openedAt {
        var closes :- U32(openedAt[c] + cfg.attestWindow);
        if now >= closes {
          return Err(WindowClosed);
        }
      } else {
        openedAt := openedAt[c := now];
      }
      if (c, v) in atts {
        return Err(AlreadyAttested);
      }
      atts := atts[(c, v) := Attestation(v, rebuilt, now)];
      var list := [];
      if c in attesters {
        list := attesters[c];
      }
      list := list + [v];
      attesters := attesters[c := list];
      r := Ok(());
    }

    method ReadAttestations(c: Claim) returns (out: seq<Attestation>)
      ensures out == AttestationsOf(Stored(), c)
    {
      var list := [];
      if c in attesters {
        list := attesters[c];
      }
      out := [];
      for i := 0 to |list|
        invariant out == Collect(atts, c, list[..i])
      {
        assert list[..i + 1][..i] == list[..i];
        var v := list[i];
        if (c, v) in atts {
          out := out + [atts[(c, v)]];
        }
      }
      assert list[..|list|] == list;
    }

    method ConsensusOf(now: nat, c: Claim) returns (r: Outcome<Consensus>)
      ensures r == RegistrySpec.ConsensusOf(Value(now), c)
    {
      if c !in openedAt {
        return Ok(NoClaim);
      }
      var list := ReadAttestations(c);
      var top, tally := TallyLoop(Hashes(list));
      var closes :- U32(openedAt[c] + cfg.attestWindow);
      if now < closes {
        r := Ok(Open(tally));
      } else if tally.total < cfg.quorum {
        r := Ok(Insufficient(tally));
      } else if tally.distinct == 1 {
        if top == c.wasm {
          r := Ok(Verified);
        } else {
          r := Ok(Mismatch);
        }
      } else {
        r := Ok(Disputed(tally));
      }
    }

    /** The checks a slash passes before it touches any stake. */
    method CheckSlash(now: nat, c: Claim, v: Address) returns (r: Outcome<()>)
      ensures r == MaySlash(Value(now), c, v)
    {
      if c !in openedAt {
        return Err(ClaimNotDecided);
      }
      var closes :- U32(openedAt[c] + cfg.attestWindow);
      if now < closes {
        return Err(ClaimNotDecided);
      }
      var list := ReadAttestations(c);
      var top, tally := TallyLoop(Hashes(list));
      if tally.total < cfg.quorum {
        return Err(ClaimNotDecided);
      }
      var twice :- U32(2 * tally.topCount);
      if twice <= tally.total {
        return Err(ClaimNotDecided);
      }
      if (c, v) !in atts {
        return Err(NotAttested);
      }
      if atts[(c, v)].rebuilt == top {
        return Err(NotDissenter);
      }
      if (c, v) in slashed {
        return Err(AlreadySlashed);
      }
      r := Ok(());
    }

    method Slash(now: nat, c: Claim, v: Address) returns (r: Outcome<int>)
      modifies this`stakes, this`slashed, token
      ensures r.Status() == RegistrySpec.Slash(old(Value(now)), c, v).Status()
      ensures r.Ok? ==> RegistrySpec.Slash(old(Value(now)), c, v).value == (Value(now), r.value)
      ensures r.Err? ==> Value(now) == old(Value(now))
    {
      hide MaySlash;
      var _ :- CheckSlash(now, c, v);
      r := TakeShare(now, c, v);
    }

    /** The token aborts; it has no refusals. */
    static lemma BurnIsNotRefused(t: T.Token, auth: set<Address>, from: Address)
      ensures forall amount :: !T.Burn(t, auth, from, amount).Err?
    {
    }

    method TakeShare(now: nat, c: Claim, v: Address) returns (r: Outcome<int>)
      modifies this`stakes, this`slashed, token
      ensures r.Status() == Punish(old(Value(now)), c, v).Status()
      ensures r.Ok? ==> Punish(old(Value(now)), c, v).value == (Value(now), r.value)
      ensures r.Err? ==> Value(now) == old(Value(now))
    {
      hide T.Burn;
      BurnIsNotRefused(token.Value(), {self}, self);
      var info := ReadStake(v);
      var total :- I128(info.staked + info.unbonding);
      var scaled :- I128(total * cfg.slashBps);
      var amount := TruncatedQuotient(scaled, BPS_DENOMINATOR);
      if amount <= 0 {
        return Err(NothingToSlash);
      }
      var fromStaked := Min(amount, info.staked);
      var staked :- I128(info.staked - fromStaked);
      var rest :- I128(amount - fromStaked);
      var unbonding :- I128(info.unbonding - rest);
      stakes := stakes[v := StakeInfo(staked, unbonding, info.releaseLedger)];
      slashed := slashed + {(c, v)};
      var _ :- token.Burn({self}, self, amount);
      r := Ok(amount);
    }
  }

  /** The ledger and the host: one transaction at a time, undone unless it returns. */
  class Host {
    const registry: Registry
    var now: nat

    constructor (registry: Registry, now: nat)
      ensures this.registry == registry && this.now == now
    {
      this.registry := registry;
      this.now := now;
    }

    ghost function Value(): World
      reads this, registry, registry.token
    {
      registry.Value(now)
    }

    method CallToken(call: Sys.Call) returns (r: Outcome<int>)
      requires call.op.Mint? || call.op.SetAdmin? || call.op.Approve? || call.op.Transfer? || call.op.TransferFrom? || call.op.Burn? || call.op.BurnFrom?
      modifies registry.token
      ensures r.Status() == Sys.Exec(old(Value()), call).Status()
      ensures r.Ok? ==> Sys.Exec(old(Value()), call).value == (Value(), r.value)
    {
      hide T.Mint, T.SetAdmin, T.Approve, T.Transfer, T.TransferFrom, T.Burn, T.BurnFrom;
      var token := registry.token;
      var s;
      match call.op {
        case Mint(to, amount) => s := token.Mint(call.auth, to, amount);
        case SetAdmin(a) => s := token.SetAdmin(call.auth, a);
        case Approve(from, spender, amount, live) => s := token.Approve(call.auth, now, from, spender, amount, live);
        case Transfer(from, to, amount) => s := token.Transfer(call.auth, from, to, amount);
        case TransferFrom(spender, from, to, amount) => s := token.TransferFrom(call.auth, now, spender, from, to, amount);
        case Burn(from, amount) => s := token.Burn(call.auth, from, amount);
        case BurnFrom(spender, from, amount) => s := token.BurnFrom(call.auth, now, spender, from, amount);
      }
      var _ :- s;
      r := Ok(0);
    }

    method CallRegistry(call: Sys.Call) returns (r: Outcome<int>)
      requires Filings.Coherent(Value())
      requires call.op.Stake? || call.op.RequestUnstake? || call.op.Withdraw? || call.op.Attest? || call.op.Slash?
      modifies registry, registry.token
      ensures r.Status() == Sys.Exec(old(Value()), call).Status()
      ensures r.Ok? ==> Sys.Exec(old(Value()), call).value == (Value(), r.value)
    {
      hide RegistrySpec.Stake, RegistrySpec.RequestUnstake, RegistrySpec.Withdraw, RegistrySpec.Attest, RegistrySpec.Slash;
      match call.op {
        case Withdraw(v) => r := registry.Withdraw(call.auth, now, v);
        case Slash(c, v) => r := registry.Slash(now, c, v);
        case Stake(v, amount) => var _ :- registry.Stake(call.auth, now, v, amount); r := Ok(0);
        case RequestUnstake(v, amount) => var _ :- registry.RequestUnstake(call.auth, now, v, amount); r := Ok(0);
        case Attest(v, c, rebuilt) => var _ :- registry.Attest(call.auth, now, v, c, rebuilt); r := Ok(0);
      }
    }

    /** Run one transaction; unless it returns, put everything it wrote back. */
    method Execute(call: Sys.Call) returns (r: Outcome<int>)
      requires Filings.Coherent(Value())
      modifies this`now, registry, registry.token
      ensures Value() == Sys.Step(old(Value()), call)
      ensures r.Status() == Sys.Exec(old(Value()), call).Status()
      ensures r.Ok? ==> r.value == Sys.Exec(old(Value()), call).value.1
    {
      hide T.Mint, T.SetAdmin, T.Approve, T.Transfer, T.TransferFrom, T.Burn, T.BurnFrom;
      hide RegistrySpec.Stake, RegistrySpec.RequestUnstake, RegistrySpec.Withdraw, RegistrySpec.Attest, RegistrySpec.Slash, Filings.Coherent;
      var token := registry.token;
      var admin, balances, allowances := token.admin, token.balances, token.allowances;
      var stakes, openedAt, attesters, atts, slashed :=
        registry.stakes, registry.openedAt, registry.attesters, registry.atts, registry.slashed;
      match call.op {
        case Advance(n) =>
          var later := U32(now + n);
          if later.Ok? {
            now := later.value;
            r := Ok(0);
          } else {
            r := Trap(U32Overflow);
          }
        case Stake(_, _) => r := CallRegistry(call);
        case RequestUnstake(_, _) => r := CallRegistry(call);
        case Withdraw(_) => r := CallRegistry(call);
        case Attest(_, _, _) => r := CallRegistry(call);
        case Slash(_, _) => r := CallRegistry(call);
        case _ => r := CallToken(call);
      }
      if !r.Ok? {
        token.admin, token.balances, token.allowances := admin, balances, allowances;
        registry.stakes, registry.openedAt, registry.attesters, registry.atts, registry.slashed :=
          stakes, openedAt, attesters, atts, slashed;
      }
    }
  }
}
