/** Money over whole runs of both contracts: the token's supply, what the registry holds, and what
    it owes its verifiers. */
module Solvency {
  import opened Chain
  import opened Sums
  import opened RegistrySpec
  import opened System
  import opened SlashMath
  import T = TokenSpec
  import F = TokenFacts

  function Total(info: StakeInfo): int {
    info.staked + info.unbonding
  }

  /** What the registry owes each verifier. */
  function Holdings(stakes: map<Address, StakeInfo>): map<Address, int> {
    map v | v in stakes :: Total(stakes[v])
  }

  ghost function Owed(w: World): int {
    Sum(Holdings(w.reg.stakes))
  }

  ghost function Supply(w: World): int {
    F.Supply(w.tok)
  }

  function Held(w: World): int {
    T.BalanceOf(w.tok, w.self)
  }

  /** What every transaction keeps: a valid configuration, a `u32` clock, no negative amount
      anywhere, and no allowance out of the registry's own balance. */
  ghost predicate Sound(w: World) {
    && ValidConfig(w.cfg)
    && w.now <= MAX_U32
    && F.NonNegative(w.tok)
    && (forall k | k in w.tok.allowances && k.0 == w.self :: w.tok.allowances[k].amount == 0)
    && (forall v | v in w.reg.stakes :: 0 <= w.reg.stakes[v].staked && 0 <= w.reg.stakes[v].unbonding)
  }

  /** Tokens a transaction creates. */
  function Minted(w: World, call: Call): int {
    if call.op.Mint? && Exec(w, call).Ok? then call.op.amount else 0
  }

  /** Tokens a transaction destroys: a burn, or the burn inside a slash. */
  function Burned(w: World, call: Call): int {
    match Exec(w, call)
    case Ok(r) =>
      if call.op.Burn? || call.op.BurnFrom? then call.op.amount
      else if call.op.Slash? then r.1
      else 0
    case _ => 0
  }

  /** Tokens a transaction sends or mints to the registry outside of staking. */
  function Gift(w: World, call: Call): int {
    if !Exec(w, call).Ok? then 0
    else match call.op
      case Mint(to, amount) => if to == w.self then amount else 0
      case Transfer(_, to, amount) => if to == w.self then amount else 0
      case TransferFrom(_, _, to, amount) => if to == w.self then amount else 0
      case _ => 0
  }

  /** From `w` to `w'` the supply moved by what was minted and burned, and the registry's surplus
      over what it owes moved by gifts alone. */
  ghost predicate Books(w: World, w': World, minted: int, burned: int, gift: int) {
    && Sound(w')
    && Supply(w') == Supply(w) + minted - burned
    && Held(w') - Owed(w') == Held(w) - Owed(w) + gift
  }

  ghost predicate Accounts(w: World, call: Call) {
    Books(w, Step(w, call), Minted(w, call), Burned(w, call), Gift(w, call))
  }

  lemma HoldingsPut(stakes: map<Address, StakeInfo>, v: Address, info: StakeInfo)
    ensures Holdings(stakes[v := info]) == Holdings(stakes)[v := Total(info)]
  {
  }

  /** Rewriting one verifier's stake moves what is owed by the change of that stake. */
  lemma OwedPut(stakes: map<Address, StakeInfo>, v: Address, info: StakeInfo)
    ensures Sum(Holdings(stakes[v := info])) ==
            Sum(Holdings(stakes)) - (if v in stakes then Total(stakes[v]) else 0) + Total(info)
  {
    HoldingsPut(stakes, v, info);
    SumPut(Holdings(stakes), v, Total(info));
  }

  /** The registry's debt after a transaction that rewrote one stake. */
  lemma OwedAfter(w: World, w': World, v: Address, info: StakeInfo)
    requires w'.reg.stakes == w.reg.stakes[v := info]
    ensures Owed(w') == Owed(w) - Total(StakeOf(w.reg, v)) + Total(info)
  {
    OwedPut(w.reg.stakes, v, info);
    assert Owed(w') == Sum(Holdings(w.reg.stakes[v := info]));
    assert Owed(w) == Sum(Holdings(w.reg.stakes));
    assert Total(StakeOf(w.reg, v)) == (if v in w.reg.stakes then Total(w.reg.stakes[v]) else 0);
  }

  lemma OwedBound(w: World, v: Address)
    requires Sound(w)
    ensures 0 <= Total(StakeOf(w.reg, v)) <= Owed(w)
  {
    SumBounds(Holdings(w.reg.stakes));
    assert v in w.reg.stakes ==> v in Holdings(w.reg.stakes) && Holdings(w.reg.stakes)[v] <= Owed(w);
  }

  /** A token operation leaves the registry's records alone. */
  lemma TokenBooks(w: World, tok: T.Token, minted: int, burned: int, gift: int)
    requires Sound(w) && F.NonNegative(tok)
    requires forall k | k in tok.allowances && k.0 == w.self :: tok.allowances[k].amount == 0
    requires F.Supply(tok) == Supply(w) + minted - burned
    requires T.BalanceOf(tok, w.self) == Held(w) + gift
    ensures Books(w, w.(tok := tok), minted, burned, gift)
  {
  }

  lemma MintStep(w: World, auth: set<Address>, to: Address, amount: int)
    requires Sound(w) && T.Mint(w.tok, auth, to, amount).Ok?
    ensures Books(w, w.(tok := T.Mint(w.tok, auth, to, amount).value), amount, 0, if to == w.self then amount else 0)
  {
    F.ReceiveEffect(w.tok, to, amount);
    TokenBooks(w, T.Mint(w.tok, auth, to, amount).value, amount, 0, if to == w.self then amount else 0);
  }

  lemma ApproveStep(w: World, auth: set<Address>, from: Address, spender: Address, amount: i128, live: nat)
    requires Sound(w) && w.self !in auth && T.Approve(w.tok, auth, w.now, from, spender, amount, live).Ok?
    ensures Books(w, w.(tok := T.Approve(w.tok, auth, w.now, from, spender, amount, live).value), 0, 0, 0)
  {
    TokenBooks(w, T.Approve(w.tok, auth, w.now, from, spender, amount, live).value, 0, 0, 0);
  }

  lemma TransferStep(w: World, auth: set<Address>, from: Address, to: Address, amount: int)
    requires Sound(w) && w.self !in auth && T.Transfer(w.tok, auth, from, to, amount).Ok?
    ensures Books(w, w.(tok := T.Transfer(w.tok, auth, from, to, amount).value), 0, 0, if to == w.self then amount else 0)
  {
    F.TransferEffect(w.tok, auth, from, to, amount);
    TokenBooks(w, T.Transfer(w.tok, auth, from, to, amount).value, 0, 0, if to == w.self then amount else 0);
  }

  lemma BurnStep(w: World, auth: set<Address>, from: Address, amount: int)
    requires Sound(w) && w.self !in auth && T.Burn(w.tok, auth, from, amount).Ok?
    ensures Books(w, w.(tok := T.Burn(w.tok, auth, from, amount).value), 0, amount, 0)
  {
    F.BurnEffect(w.tok, auth, from, amount);
    TokenBooks(w, T.Burn(w.tok, auth, from, amount).value, 0, amount, 0);
  }

  /** Nobody can spend from the registry's balance through an allowance. */
  lemma NoAllowanceFromSelf(w: World, spender: Address)
    requires Sound(w)
    ensures T.ReadAllowance(w.tok, w.now, w.self, spender).amount == 0
  {
    assert (w.self, spender) in w.tok.allowances ==> (w.self, spender).0 == w.self;
  }

  lemma AllowancesFromSelf(w: World, from: Address, spender: Address, amount: int)
    requires Sound(w) && amount >= 0 && T.SpendAllowance(w.tok, w.now, from, spender, amount).Ok?
    ensures var a := T.SpendAllowance(w.tok, w.now, from, spender, amount).value.allowances;
            forall k | k in a && k.0 == w.self :: a[k].amount == 0
    ensures from == w.self ==> amount == 0
  {
    NoAllowanceFromSelf(w, spender);
  }

  lemma TransferFromStep(w: World, auth: set<Address>, spender: Address, from: Address, to: Address, amount: int)
    requires Sound(w) && T.TransferFrom(w.tok, auth, w.now, spender, from, to, amount).Ok?
    ensures Books(w, w.(tok := T.TransferFrom(w.tok, auth, w.now, spender, from, to, amount).value), 0, 0, if to == w.self then amount else 0)
  {
    F.TransferFromEffect(w.tok, auth, w.now, spender, from, to, amount);
    AllowancesFromSelf(w, from, spender, amount);
    TokenBooks(w, T.TransferFrom(w.tok, auth, w.now, spender, from, to, amount).value, 0, 0, if to == w.self then amount else 0);
  }

  lemma BurnFromStep(w: World, auth: set<Address>, spender: Address, from: Address, amount: int)
    requires Sound(w) && T.BurnFrom(w.tok, auth, w.now, spender, from, amount).Ok?
    ensures Books(w, w.(tok := T.BurnFrom(w.tok, auth, w.now, spender, from, amount).value), 0, amount, 0)
  {
    F.BurnFromEffect(w.tok, auth, w.now, spender, from, amount);
    AllowancesFromSelf(w, from, spender, amount);
    TokenBooks(w, T.BurnFrom(w.tok, auth, w.now, spender, from, amount).value, 0, amount, 0);
  }

  /** A transaction that rewrote one stake with non-negative amounts kept the state sound. */
  lemma SoundAfterStake(w: World, w': World, v: Address, info: StakeInfo)
    requires Sound(w) && F.NonNegative(w'.tok) && w'.tok.allowances == w.tok.allowances
    requires w'.cfg == w.cfg && w'.self == w.self && w'.now == w.now
    requires w'.reg.stakes == w.reg.stakes[v := info] && info.staked >= 0 && info.unbonding >= 0
    ensures Sound(w')
  {
  }

  /** If it also moved the same amount in or out of the registry's balance, the surplus is as it
      was. */
  lemma StakeBooks(w: World, w': World, v: Address, info: StakeInfo, burned: int)
    requires Sound(w')
    requires w'.reg.stakes == w.reg.stakes[v := info]
    requires Held(w') == Held(w) - Total(StakeOf(w.reg, v)) + Total(info)
    requires Supply(w') == Supply(w) - burned
    ensures Books(w, w', 0, burned, 0)
  {
    OwedAfter(w, w', v, info);
  }

  lemma StakeStep(w: World, auth: set<Address>, v: Address, amount: int)
    requires Sound(w) && w.self !in auth && RegistrySpec.Stake(w, auth, v, amount).Ok?
    ensures Books(w, RegistrySpec.Stake(w, auth, v, amount).value, 0, 0, 0)
  {
    var w' := RegistrySpec.Stake(w, auth, v, amount).value;
    F.TransferEffect(w.tok, auth + {w.self}, v, w.self, amount);
    assert T.Transfer(w.tok, auth + {w.self}, v, w.self, amount) == Ok(w'.tok);
    var info := StakeOf(w.reg, v);
    SoundAfterStake(w, w', v, info.(staked := info.staked + amount));
    StakeBooks(w, w', v, info.(staked := info.staked + amount), 0);
  }

  lemma UnstakeStep(w: World, auth: set<Address>, v: Address, amount: int)
    requires Sound(w) && RegistrySpec.RequestUnstake(w, auth, v, amount).Ok?
    ensures Books(w, RegistrySpec.RequestUnstake(w, auth, v, amount).value, 0, 0, 0)
  {
    var w' := RegistrySpec.RequestUnstake(w, auth, v, amount).value;
    var info := StakeOf(w.reg, v);
    var info' := StakeInfo(info.staked - amount, info.unbonding + amount, w.now + w.cfg.unbondPeriod);
    SoundAfterStake(w, w', v, info');
    StakeBooks(w, w', v, info', 0);
  }

  lemma WithdrawStep(w: World, auth: set<Address>, v: Address)
    requires Sound(w) && w.self !in auth && RegistrySpec.Withdraw(w, auth, v).Ok?
    ensures Books(w, RegistrySpec.Withdraw(w, auth, v).value.0, 0, 0, 0)
  {
    var w' := RegistrySpec.Withdraw(w, auth, v).value.0;
    var info := StakeOf(w.reg, v);
    F.TransferEffect(w.tok, auth + {w.self}, w.self, v, info.unbonding);
    assert T.Transfer(w.tok, auth + {w.self}, w.self, v, info.unbonding) == Ok(w'.tok);
    SoundAfterStake(w, w', v, info.(unbonding := 0));
    StakeBooks(w, w', v, info.(unbonding := 0), 0);
  }

  /** The share a slash takes of a sound stake. */
  lemma ShareExact(info: StakeInfo, bps: nat)
    requires info.staked >= 0 && info.unbonding >= 0 && bps <= BPS_DENOMINATOR
    ensures ShareOf(info, bps).Ok? ==>
              && ShareOf(info, bps).value == SlashAmount(Total(info), bps)
              && 0 <= ShareOf(info, bps).value <= Total(info) <= MAX_I128
    ensures Total(info) <= MAX_I128 / BPS_DENOMINATOR ==> ShareOf(info, bps).Ok?
    ensures !ShareOf(info, bps).Ok? ==> ShareOf(info, bps) == Trap(I128Overflow)
  {
    var total := info.staked + info.unbonding;
    SlashAmountBounds(total, bps);
    ScaledBounds(total, bps);
    if total <= MAX_I128 && total * bps <= MAX_I128 {
      assert ShareOf(info, bps) == Ok(SlashAmount(total, bps));
    }
  }

  lemma ScaledBounds(total: int, bps: nat)
    requires total >= 0 && bps <= BPS_DENOMINATOR
    ensures 0 <= total * bps <= total * BPS_DENOMINATOR
  {
  }

  /** What a successful slash does to the two contracts. */
  lemma PunishEffect(w: World, c: Claim, v: Address)
    requires Sound(w) && Punish(w, c, v).Ok?
    ensures var (w', amount) := Punish(w, c, v).value;
            var info := StakeOf(w.reg, v);
            && amount == SlashAmount(Total(info), w.cfg.slashBps)
            && 0 < amount <= Total(info) <= MAX_I128
            && TakeFrom(info, amount).Ok?
            && w' == w.(tok := w'.tok, reg := MarkSlashed(w.reg, c, v, TakeFrom(info, amount).value))
            && T.Burn(w.tok, {w.self}, w.self, amount) == Ok(w'.tok)
  {
    ShareExact(StakeOf(w.reg, v), w.cfg.slashBps);
  }

  lemma SlashStep(w: World, c: Claim, v: Address)
    requires Sound(w) && Punish(w, c, v).Ok?
    ensures Books(w, Punish(w, c, v).value.0, 0, Punish(w, c, v).value.1, 0)
  {
    var (w', amount) := Punish(w, c, v).value;
    PunishEffect(w, c, v);
    F.BurnEffect(w.tok, {w.self}, w.self, amount);
    var info := StakeOf(w.reg, v);
    TakeFromExact(info, amount);
    SoundAfterStake(w, w', v, TakeFrom(info, amount).value);
    StakeBooks(w, w', v, TakeFrom(info, amount).value, amount);
  }

  lemma SetAdminStep(w: World, a: Address)
    requires Sound(w)
    ensures Books(w, w.(tok := w.tok.(admin := a)), 0, 0, 0)
  {
    TokenBooks(w, w.tok.(admin := a), 0, 0, 0);
  }

  lemma SameBooks(w: World)
    requires Sound(w)
    ensures Books(w, w, 0, 0, 0)
  {
  }

  lemma AttestStep(w: World, auth: set<Address>, v: Address, c: Claim, rebuilt: Hash)
    requires Sound(w) && RegistrySpec.Attest(w, auth, v, c, rebuilt).Ok?
    ensures Books(w, RegistrySpec.Attest(w, auth, v, c, rebuilt).value, 0, 0, 0)
  {
  }

  lemma AdvanceStep(w: World, n: nat)
    requires Sound(w) && w.now + n <= MAX_U32
    ensures Books(w, w.(now := w.now + n), 0, 0, 0)
  {
  }

  /** Every transaction by anyone keeps the books. */
  lemma EveryStepAccounts(w: World, call: Call)
    requires Sound(w) && w.self !in call.auth
    ensures Accounts(w, call)
  {
    hide Books, Sound, T.Mint, T.Approve, T.Transfer, T.TransferFrom, T.Burn, T.BurnFrom;
    hide RegistrySpec.Stake, RegistrySpec.RequestUnstake, RegistrySpec.Withdraw, Punish, MaySlash;
    var auth := call.auth;
    if Exec(w, call).Ok? {
      match call.op
      case Mint(to, amount) => MintStep(w, auth, to, amount);
      case SetAdmin(a) => SetAdminStep(w, a);
      case Approve(from, spender, amount, live) => ApproveStep(w, auth, from, spender, amount, live);
      case Transfer(from, to, amount) => TransferStep(w, auth, from, to, amount);
      case TransferFrom(spender, from, to, amount) => TransferFromStep(w, auth, spender, from, to, amount);
      case Burn(from, amount) => BurnStep(w, auth, from, amount);
      case BurnFrom(spender, from, amount) => BurnFromStep(w, auth, spender, from, amount);
      case Stake(v, amount) => StakeStep(w, auth, v, amount);
      case RequestUnstake(v, amount) => UnstakeStep(w, auth, v, amount);
      case Withdraw(v) => WithdrawStep(w, auth, v);
      case Slash(c, v) => SlashStep(w, c, v);
      case Attest(v, c, rebuilt) => AttestStep(w, auth, v, c, rebuilt);
      case Advance(n) => AdvanceStep(w, n);
    }
    SameBooks(w);
  }

  lemma StepSound(w: World, call: Call)
    requires Sound(w) && w.self !in call.auth
    ensures Sound(Step(w, call))
  {
    EveryStepAccounts(w, call);
  }

  // ---- whole runs ----------------------------------------------------------------------

  function MintedIn(w: World, calls: seq<Call>): int
    decreases |calls|
  {
    if calls == [] then 0 else Minted(w, calls[0]) + MintedIn(Step(w, calls[0]), calls[1..])
  }

  function BurnedIn(w: World, calls: seq<Call>): int
    decreases |calls|
  {
    if calls == [] then 0 else Burned(w, calls[0]) + BurnedIn(Step(w, calls[0]), calls[1..])
  }

  function GiftsIn(w: World, calls: seq<Call>): int
    decreases |calls|
  {
    if calls == [] then 0 else Gift(w, calls[0]) + GiftsIn(Step(w, calls[0]), calls[1..])
  }

  lemma {:induction false} RunAccounts(w: World, calls: seq<Call>)
    requires Sound(w) && External(w, calls)
    ensures var w' := Run(w, calls);
            && Sound(w')
            && Supply(w') == Supply(w) + MintedIn(w, calls) - BurnedIn(w, calls)
            && Held(w') - Owed(w') == Held(w) - Owed(w) + GiftsIn(w, calls)
            && GiftsIn(w, calls) >= 0
    decreases |calls|
  {
    hide Exec, Minted, Burned, Gift, Sound, Supply, Held, Owed;
    if calls != [] {
      EveryStepAccounts(w, calls[0]);
      StepFixed(w, calls[0]);
      RunAccounts(Step(w, calls[0]), calls[1..]);
      GiftNonNegative(w, calls[0]);
    }
  }

  lemma RunSound(w: World, calls: seq<Call>)
    requires Sound(w) && External(w, calls)
    ensures Sound(Run(w, calls))
  {
    RunAccounts(w, calls);
  }

  lemma GiftNonNegative(w: World, call: Call)
    ensures Gift(w, call) >= 0
  {
  }

  /** Conservation: after any run, the balances add up to what was minted minus what was burned,
      and none of them is negative. */
  lemma SupplyIsMintedMinusBurned(cfg: Config, self: Address, admin: Address, now: nat, calls: seq<Call>)
    requires ValidConfig(cfg) && now <= MAX_U32
    requires External(Genesis(cfg, self, admin, now), calls)
    ensures var g := Genesis(cfg, self, admin, now);
            var w := Run(g, calls);
            && Supply(w) == MintedIn(g, calls) - BurnedIn(g, calls)
            && F.NonNegative(w.tok)
  {
    RunAccounts(Genesis(cfg, self, admin, now), calls);
  }

  lemma GenesisBooks(cfg: Config, self: Address, admin: Address, now: nat)
    requires ValidConfig(cfg) && now <= MAX_U32
    ensures var g := Genesis(cfg, self, admin, now); Sound(g) && Held(g) == 0 && Owed(g) == 0
  {
    assert Holdings(map[]) == map[];
  }

  /** Solvency: after any run, what the registry holds is what it owes its verifiers plus whatever
      was sent or minted to it directly, and nobody may spend from its balance. */
  lemma RegistryIsSolvent(cfg: Config, self: Address, admin: Address, now: nat, calls: seq<Call>)
    requires ValidConfig(cfg) && now <= MAX_U32
    requires External(Genesis(cfg, self, admin, now), calls)
    ensures var g := Genesis(cfg, self, admin, now);
            var w := Run(g, calls);
            && Sound(w)
            && Held(w) == Owed(w) + GiftsIn(g, calls)
            && Held(w) >= Owed(w) >= 0
            && (forall v :: 0 <= Total(StakeOf(w.reg, v)) <= Held(w))
            && (forall spender :: T.ReadAllowance(w.tok, w.now, w.self, spender).amount == 0)
  {
    hide Run, Sound, Held, Owed, Total, StakeOf, Genesis, GiftsIn, External, T.ReadAllowance;
    var g := Genesis(cfg, self, admin, now);
    var w := Run(g, calls);
    GenesisBooks(cfg, self, admin, now);
    RunAccounts(g, calls);
    OwedBound(w, self);
    forall v
      ensures 0 <= Total(StakeOf(w.reg, v)) <= Held(w)
    {
      OwedBound(w, v);
    }
    forall spender
      ensures T.ReadAllowance(w.tok, w.now, w.self, spender).amount == 0
    {
      NoAllowanceFromSelf(w, spender);
    }
  }

  /** A state in which the registry covers what it owes. */
  ghost predicate Solvent(w: World) {
    Sound(w) && Held(w) >= Owed(w)
  }

  /** Withdrawing what has finished unbonding always pays out: while the supply fits an `i128`, the
      only answers are the two refusals and the full amount. */
  lemma WithdrawPaysOut(w: World, auth: set<Address>, v: Address)
    requires Solvent(w) && Supply(w) <= MAX_I128 && v in auth
    ensures var info := StakeOf(w.reg, v);
            match RegistrySpec.Withdraw(w, auth, v)
            case Err(e) =>
              || (e == NothingToWithdraw && info.unbonding == 0)
              || (e == StillUnbonding && info.unbonding > 0 && w.now < info.releaseLedger)
            case Ok((w', amount)) =>
              && amount == info.unbonding > 0 && w.now >= info.releaseLedger
              && StakeOf(w'.reg, v) == info.(unbonding := 0)
              && F.Shifted(w.tok, w'.tok, w.self, amount, v, amount)
            case Trap(_) => false
  {
    hide F.Supply, F.Shifted, F.NonNegative, T.Transfer, T.BalanceOf, Owed, RegistrySpec.Withdraw, PutStake, StakeOf;
    OwedBound(w, v);
    StakeNonNegative(w, v);
    WithdrawIs(w, auth, v);
    var info := StakeOf(w.reg, v);
    if info.unbonding > 0 {
      F.TransferExact(w.tok, auth + {w.self}, w.self, v, info.unbonding);
      F.TransferEffect(w.tok, auth + {w.self}, w.self, v, info.unbonding);
    }
  }

  /** Staking succeeds exactly for an authorized verifier and a positive amount it holds; it moves the
      amount to the registry and adds it to the active stake, and touches nothing else. */
  lemma StakeExact(w: World, auth: set<Address>, v: Address, amount: int)
    requires Solvent(w) && Supply(w) <= MAX_I128 && v != w.self
    ensures var r := RegistrySpec.Stake(w, auth, v, amount);
            && (r.Ok? <==> v in auth && 0 < amount <= T.BalanceOf(w.tok, v))
            && (r == Err(InvalidAmount) <==> v in auth && amount <= 0)
            && (r.Ok? ==>
                  && F.Shifted(w.tok, r.value.tok, v, amount, w.self, amount)
                  && r.value.reg == w.reg.(stakes := w.reg.stakes[v := StakeOf(w.reg, v).(staked := StakeOf(w.reg, v).staked + amount)])
                  && r.value.cfg == w.cfg && r.value.now == w.now && r.value.self == w.self)
  {
    hide T.Transfer, T.BalanceOf, F.NonNegative, F.Supply, F.Shifted, Held, Owed, Sound, StakeOf, RegistrySpec.Stake;
    StakeIsHeld(w, v);
    SoundIsNonNegative(w);
    StakeIs(w, auth, v, amount);
    if v in auth && amount > 0 {
      F.TransferExact(w.tok, auth + {w.self}, v, w.self, amount);
      F.TransferEffect(w.tok, auth + {w.self}, v, w.self, amount);
      if amount <= T.BalanceOf(w.tok, v) {
        SumFits(StakeOf(w.reg, v), amount);
      }
    }
  }

  /** Staking is its two refusals, or the transfer and the sum. */
  lemma StakeIs(w: World, auth: set<Address>, v: Address, amount: int)
    ensures var r, sent := RegistrySpec.Stake(w, auth, v, amount), T.Transfer(w.tok, auth + {w.self}, v, w.self, amount);
            var info := StakeOf(w.reg, v);
            if v !in auth then r == Trap(Unauthorized)
            else if amount <= 0 then r == Err(InvalidAmount)
            else
              && (r.Ok? <==> sent.Ok? && I128(info.staked + amount).Ok?)
              && (r.Err? ==> sent == Outcome<T.Token>.Err(r.error))
              && (r.Ok? ==> r.value == w.(tok := sent.value, reg := w.reg.(stakes := w.reg.stakes[v := info.(staked := info.staked + amount)])))
  {
    hide T.Transfer;
  }

  lemma SoundIsNonNegative(w: World)
    requires Sound(w)
    ensures F.NonNegative(w.tok)
  {
  }

  lemma SumFits(info: StakeInfo, amount: int)
    requires 0 <= info.staked && 0 <= info.unbonding && 0 < amount && Total(info) + amount <= MAX_I128
    ensures I128(info.staked + amount) == Ok(info.staked + amount)
  {
  }

  /** Starting to unstake succeeds exactly for an authorized verifier and a positive amount it has staked,
      while the release ledger fits a `u32`; it moves the amount from the active to the unbonding
      stake, and the release of everything that is unbonding to one period from now. */
  lemma RequestUnstakeExact(w: World, auth: set<Address>, v: Address, amount: int)
    requires Solvent(w) && Supply(w) <= MAX_I128
    ensures var r := RegistrySpec.RequestUnstake(w, auth, v, amount);
            var info := StakeOf(w.reg, v);
            && (r.Ok? <==> v in auth && 0 < amount <= info.staked && w.now + w.cfg.unbondPeriod <= MAX_U32)
            && (r == Err(InvalidAmount) <==> v in auth && amount <= 0)
            && (r == Err(InsufficientStake) <==> v in auth && amount > 0 && amount > info.staked)
            && (r.Ok? ==>
                  r.value == w.(reg := w.reg.(stakes := w.reg.stakes[v :=
                    StakeInfo(info.staked - amount, info.unbonding + amount, w.now + w.cfg.unbondPeriod)])))
  {
    hide T.BalanceOf, F.NonNegative, F.Supply, Owed, Sound, StakeOf;
    StakeIsHeld(w, v);
    var info := StakeOf(w.reg, v);
    if 0 < amount <= info.staked {
      PartsFit(info, amount);
    }
  }

  /** A withdrawal is its two refusals, or the transfer of the whole unbonding amount. */
  lemma WithdrawIs(w: World, auth: set<Address>, v: Address)
    requires v in auth
    ensures var info := StakeOf(w.reg, v);
            var sent := T.Transfer(w.tok, auth + {w.self}, w.self, v, info.unbonding);
            if info.unbonding <= 0 then RegistrySpec.Withdraw(w, auth, v) == Err(NothingToWithdraw)
            else if w.now < info.releaseLedger then RegistrySpec.Withdraw(w, auth, v) == Err(StillUnbonding)
            else
              sent.Ok? ==>
                && RegistrySpec.Withdraw(w, auth, v).Ok?
                && var (w', amount) := RegistrySpec.Withdraw(w, auth, v).value;
                   amount == info.unbonding && w'.tok == sent.value && StakeOf(w'.reg, v) == info.(unbonding := 0)
  {
    hide T.Transfer;
  }

  lemma StakeNonNegative(w: World, v: Address)
    requires Sound(w)
    ensures 0 <= StakeOf(w.reg, v).staked && 0 <= StakeOf(w.reg, v).unbonding
  {
  }

  /** A slash never fails for lack of tokens to burn: once it is allowed, the only answers are the
      share rounded down, a refusal because that is nothing, and an overflow, which needs a stake
      beyond `i128::MAX / 10000`. */
  lemma SlashIsCovered(w: World, c: Claim, v: Address)
    requires Solvent(w) && Supply(w) <= MAX_I128
    ensures var share := SlashAmount(Total(StakeOf(w.reg, v)), w.cfg.slashBps);
            match Punish(w, c, v)
            case Ok((_, amount)) => amount == share > 0
            case Err(e) => e == NothingToSlash && share == 0
            case Trap(p) => p == I128Overflow && Total(StakeOf(w.reg, v)) > MAX_I128 / BPS_DENOMINATOR
  {
    OwedBound(w, v);
    F.SupplyBounds(w.tok, w.self, w.self);
    var info := StakeOf(w.reg, v);
    ShareExact(info, w.cfg.slashBps);
    SlashAmountBounds(Total(info), w.cfg.slashBps);
    var share := SlashAmount(Total(info), w.cfg.slashBps);
    TakeFromExact(info, share);
    F.BurnEffect(w.tok, {w.self}, w.self, share);
  }

  /** A verifier's stake is part of what the registry holds, next to what the verifier holds. */
  lemma StakeIsHeld(w: World, v: Address)
    requires Solvent(w)
    ensures 0 <= Total(StakeOf(w.reg, v)) <= Held(w) <= Supply(w)
    ensures 0 <= StakeOf(w.reg, v).staked && 0 <= StakeOf(w.reg, v).unbonding
    ensures v != w.self ==> Total(StakeOf(w.reg, v)) + T.BalanceOf(w.tok, v) <= Supply(w)
  {
    OwedBound(w, v);
    F.SupplyBounds(w.tok, w.self, v);
    F.SupplyBounds(w.tok, v, w.self);
  }

  lemma StakeFits(w: World, auth: set<Address>, v: Address, amount: int)
    requires F.NonNegative(w.tok) && Supply(w) <= MAX_I128 && v != w.self
    requires 0 <= Total(StakeOf(w.reg, v)) && 0 <= StakeOf(w.reg, v).unbonding && 0 <= StakeOf(w.reg, v).staked
    requires Total(StakeOf(w.reg, v)) + T.BalanceOf(w.tok, v) <= Supply(w)
    ensures RegistrySpec.Stake(w, auth, v, amount) != Trap(I128Overflow)
  {
    hide F.NonNegative, F.Supply, T.Transfer, T.BalanceOf, StakeOf, PutStake;
    assert I128(StakeOf(w.reg, v).staked + amount).Ok? || amount > T.BalanceOf(w.tok, v) || amount <= 0;
    if v in auth && amount > 0 {
      F.TransferExact(w.tok, auth + {w.self}, v, w.self, amount);
    }
  }

  lemma UnstakeFits(w: World, auth: set<Address>, v: Address, amount: int)
    requires 0 <= StakeOf(w.reg, v).staked && 0 <= StakeOf(w.reg, v).unbonding
    requires Total(StakeOf(w.reg, v)) <= MAX_I128
    ensures RegistrySpec.RequestUnstake(w, auth, v, amount) != Trap(I128Overflow)
  {
    hide StakeOf, PutStake;
    var info := StakeOf(w.reg, v);
    if 0 < amount <= info.staked {
      PartsFit(info, amount);
    }
  }

  lemma PartsFit(info: StakeInfo, amount: int)
    requires 0 <= info.staked && 0 <= info.unbonding && Total(info) <= MAX_I128 && 0 < amount <= info.staked
    ensures I128(info.staked - amount).Ok? && I128(info.unbonding + amount).Ok?
  {
  }

  lemma TransferFits(t: T.Token, auth: set<Address>, from: Address, to: Address, amount: int)
    requires F.NonNegative(t) && F.Supply(t) <= MAX_I128
    ensures T.Transfer(t, auth, from, to, amount) != Trap(I128Overflow)
    ensures T.Burn(t, auth, from, amount) != Trap(I128Overflow)
  {
    F.SupplyBounds(t, from, from);
    F.BurnEffect(t, auth, from, amount);
    if from in auth && amount >= 0 {
      F.TransferExact(t, auth, from, to, amount);
    }
  }

  lemma AllowanceFits(t: T.Token, auth: set<Address>, now: nat, spender: Address, from: Address, to: Address, amount: int)
    requires F.NonNegative(t) && F.Supply(t) <= MAX_I128
    ensures T.TransferFrom(t, auth, now, spender, from, to, amount) != Trap(I128Overflow)
    ensures T.BurnFrom(t, auth, now, spender, from, amount) != Trap(I128Overflow)
  {
    if spender in auth && amount >= 0 {
      F.SpendAllowanceEffect(t, now, from, spender, amount);
      var a := T.SpendAllowance(t, now, from, spender, amount);
      if a.Ok? {
        TransferFits(a.value, {from}, from, to, amount);
      } else {
        assert (from, spender) in t.allowances ==> t.allowances[(from, spender)].amount <= MAX_I128;
      }
    }
  }

  lemma TokenFits(w: World, call: Call)
    requires F.NonNegative(w.tok) && Supply(w) <= MAX_I128
    requires call.op.Mint? || call.op.SetAdmin? || call.op.Approve? || call.op.Transfer? || call.op.TransferFrom? || call.op.Burn? || call.op.BurnFrom?
    ensures Exec(w, call) == Trap(I128Overflow) ==>
              call.op.Mint? && T.BalanceOf(w.tok, call.op.to) + call.op.amount > MAX_I128
  {
    var auth := call.auth;
    match call.op
    case Mint(to, amount) =>
      if amount >= 0 {
        F.ReceiveEffect(w.tok, to, amount);
      }
    case Transfer(from, to, amount) => TransferFits(w.tok, auth, from, to, amount);
    case Burn(from, amount) => TransferFits(w.tok, auth, from, from, amount);
    case TransferFrom(spender, from, to, amount) => AllowanceFits(w.tok, auth, w.now, spender, from, to, amount);
    case BurnFrom(spender, from, amount) => AllowanceFits(w.tok, auth, w.now, spender, from, from, amount);
    case _ =>
  }

  /** While the supply is at most `i128::MAX / 10000`, the only transaction that can overflow an
      `i128` is a mint, and only one that would take its receiver beyond `i128::MAX`. */
  lemma NoOverflow(w: World, call: Call)
    requires Solvent(w) && w.self !in call.auth
    requires Supply(w) <= MAX_I128 / BPS_DENOMINATOR
    ensures Exec(w, call) == Trap(I128Overflow) ==>
              call.op.Mint? && T.BalanceOf(w.tok, call.op.to) + call.op.amount > MAX_I128
  {
    match call.op
    case Stake(v, amount) => StakeCallFits(w, call.auth, v, amount);
    case RequestUnstake(v, amount) =>
      StakeIsHeld(w, v);
      UnstakeFits(w, call.auth, v, amount);
    case Withdraw(v) => WithdrawFits(w, call.auth, v);
    case Slash(c, v) => SlashFits(w, c, v);
    case Attest(v, c, rebuilt) => AttestFits(w, call.auth, v, c, rebuilt);
    case Advance(_) =>
    case _ => TokenFits(w, call);
  }

  lemma StakeCallFits(w: World, auth: set<Address>, v: Address, amount: int)
    requires Solvent(w) && w.self !in auth && Supply(w) <= MAX_I128
    ensures RegistrySpec.Stake(w, auth, v, amount) != Trap(I128Overflow)
  {
    if v in auth {
      StakeIsHeld(w, v);
      StakeFits(w, auth, v, amount);
    }
  }

  lemma WithdrawFits(w: World, auth: set<Address>, v: Address)
    requires Solvent(w) && Supply(w) <= MAX_I128
    ensures RegistrySpec.Withdraw(w, auth, v) != Trap(I128Overflow)
  {
    if v in auth {
      WithdrawPaysOut(w, auth, v);
    }
  }

  lemma AttestFits(w: World, auth: set<Address>, v: Address, c: Claim, rebuilt: Hash)
    ensures RegistrySpec.Attest(w, auth, v, c, rebuilt) != Trap(I128Overflow)
  {
  }

  lemma MaySlashFits(w: World, c: Claim, v: Address)
    ensures MaySlash(w, c, v) != Trap(I128Overflow)
  {
  }

  lemma SlashFits(w: World, c: Claim, v: Address)
    requires Solvent(w) && Supply(w) <= MAX_I128 / BPS_DENOMINATOR
    ensures RegistrySpec.Slash(w, c, v) != Trap(I128Overflow)
  {
    hide Punish, MaySlash, StakeOf, SlashAmount;
    StakeIsHeld(w, v);
    SlashIsCovered(w, c, v);
    MaySlashFits(w, c, v);
  }
}
