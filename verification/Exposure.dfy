/** Stake stays exposed to slashing until every claim it backs has closed. */
module Exposure {
  import opened Chain
  import opened RegistrySpec
  import opened System
  import opened Filings
  import opened Solvency
  import opened SlashMath
  import T = TokenSpec

  /** The stake that cannot leave the registry before ledger `close`. */
  function Exposed(info: StakeInfo, close: nat): int {
    info.staked + if info.releaseLedger >= close then info.unbonding else 0
  }

  /** What a transaction slashes from `v`. */
  function Taken(w: World, call: Call, v: Address): int {
    match Exec(w, call)
    case Ok(r) => if call.op.Slash? && call.op.verifier == v then r.1 else 0
    case _ => 0
  }

  function TakenIn(w: World, calls: seq<Call>, v: Address): int
    decreases |calls|
  {
    if calls == [] then 0 else Taken(w, calls[0], v) + TakenIn(Step(w, calls[0]), calls[1..], v)
  }

  /** `v` withdraws at `close` or later. */
  predicate LateWithdrawal(w: World, call: Call, v: Address, close: nat) {
    call.op == Op.Withdraw(v) && Exec(w, call).Ok? && w.now >= close
  }

  predicate NoLateWithdrawal(w: World, calls: seq<Call>, v: Address, close: nat)
    decreases |calls|
  {
    calls == [] || (!LateWithdrawal(w, calls[0], v, close) && NoLateWithdrawal(Step(w, calls[0]), calls[1..], v, close))
  }

  /** What each registry entry point does to the stake of `v`. */
  lemma StakeAfter(w: World, call: Call, v: Address)
    requires Sound(w) && Exec(w, call).Ok?
    ensures var info, info' := StakeOf(w.reg, v), StakeOf(Step(w, call).reg, v);
            match call.op
            case Stake(u, amount) => info' == if u == v then info.(staked := info.staked + amount) else info
            case RequestUnstake(u, amount) =>
              info' == if u == v then StakeInfo(info.staked - amount, info.unbonding + amount, w.now + w.cfg.unbondPeriod) else info
            case Withdraw(u) => info' == if u == v then info.(unbonding := 0) else info
            case Slash(c, u) => true
            case _ => info' == info
  {
  }

  lemma StakeAfterSlash(w: World, c: Claim, u: Address, v: Address)
    requires Sound(w) && Punish(w, c, u).Ok?
    ensures var info, info' := StakeOf(w.reg, v), StakeOf(Punish(w, c, u).value.0.reg, v);
            var amount := Punish(w, c, u).value.1;
            if u != v then info' == info
            else
              && amount == SlashAmount(Total(info), w.cfg.slashBps)
              && 0 < amount <= Total(info)
              && Total(info') == Total(info) - amount
              && info'.releaseLedger == info.releaseLedger
              && 0 <= info'.staked <= info.staked && 0 <= info'.unbonding <= info.unbonding
  {
    PunishEffect(w, c, u);
    TakeFromExact(StakeOf(w.reg, u), Punish(w, c, u).value.1);
  }

  /** One transaction lowers the exposed stake by no more than what it slashes, unless it is a
      withdrawal after `close`. */
  lemma ExposureStep(w: World, call: Call, v: Address, close: nat)
    requires Sound(w) && close <= w.now + w.cfg.unbondPeriod
    requires !LateWithdrawal(w, call, v, close)
    ensures Exposed(StakeOf(Step(w, call).reg, v), close) >= Exposed(StakeOf(w.reg, v), close) - Taken(w, call, v)
  {
    assert v in w.reg.stakes ==> w.reg.stakes[v].unbonding >= 0 && w.reg.stakes[v].staked >= 0;
    if Exec(w, call).Ok? {
      if call.op.Slash? {
        StakeAfterSlash(w, call.op.claim, call.op.verifier, v);
      } else {
        StakeAfter(w, call, v);
      }
    }
  }

  lemma {:induction false} ExposureRun(w: World, calls: seq<Call>, v: Address, close: nat)
    requires Sound(w) && External(w, calls) && close <= w.now + w.cfg.unbondPeriod
    requires NoLateWithdrawal(w, calls, v, close)
    ensures Exposed(StakeOf(Run(w, calls).reg, v), close) >= Exposed(StakeOf(w.reg, v), close) - TakenIn(w, calls, v)
    decreases |calls|
  {
    hide Exec, Exposed, Taken, LateWithdrawal, Sound;
    if calls != [] {
      StepSound(w, calls[0]);
      StepFixed(w, calls[0]);
      ExposureStep(w, calls[0], v, close);
      ExposureRun(Step(w, calls[0]), calls[1..], v, close);
    }
  }

  /** Before `close` there is no late withdrawal. */
  lemma {:induction false} NoneLateBeforeClose(w: World, calls: seq<Call>, v: Address, close: nat)
    requires Run(w, calls).now < close
    ensures NoLateWithdrawal(w, calls, v, close)
    decreases |calls|
  {
    if calls != [] {
      RunFixed(w, calls);
      NoneLateBeforeClose(Step(w, calls[0]), calls[1..], v, close);
    }
  }

  /** Attesting takes the minimum stake, none of which can leave before the claim closes. */
  lemma AttestingExposes(w: World, auth: set<Address>, v: Address, c: Claim, rebuilt: Hash)
    requires Sound(w) && Coherent(w) && RegistrySpec.Attest(w, auth, v, c, rebuilt).Ok?
    ensures var w1 := RegistrySpec.Attest(w, auth, v, c, rebuilt).value;
            && Sound(w1) && w1.cfg == w.cfg && w1.self == w.self && w1.now == w.now
            && c in w1.reg.openedAt
            && w1.reg.openedAt[c] + w.cfg.attestWindow <= w1.now + w.cfg.unbondPeriod
            && Exposed(StakeOf(w1.reg, v), w1.reg.openedAt[c] + w.cfg.attestWindow) >= w.cfg.minStake
  {
    AttestEffect(w, auth, v, c, rebuilt);
    assert CoherentClaim(w, c);
    var w1 := RegistrySpec.Attest(w, auth, v, c, rebuilt).value;
    assert w1.reg.stakes == w.reg.stakes && w1.tok == w.tok;
    assert v in w.reg.stakes ==> w.reg.stakes[v].unbonding >= 0;
  }

  lemma ExposedIsPart(info: StakeInfo, close: nat)
    requires info.staked >= 0 && info.unbonding >= 0
    ensures Total(info) >= Exposed(info, close) >= 0
  {
  }

  lemma SoundStake(w: World, v: Address)
    requires Sound(w)
    ensures StakeOf(w.reg, v).staked >= 0 && StakeOf(w.reg, v).unbonding >= 0
  {
    assert v in w.reg.stakes ==> w.reg.stakes[v].unbonding >= 0;
  }

  /** At least `floor` remains of the stake of `v` that cannot leave before `close`. */
  ghost predicate StillExposed(w: World, v: Address, close: nat, floor: int) {
    && Exposed(StakeOf(w.reg, v), close) >= floor
    && Total(StakeOf(w.reg, v)) >= floor
  }

  lemma StaysExposed(w1: World, calls: seq<Call>, v: Address, close: nat, floor: int)
    requires Sound(w1) && External(w1, calls) && close <= w1.now + w1.cfg.unbondPeriod
    requires Exposed(StakeOf(w1.reg, v), close) >= floor
    ensures Run(w1, calls).now < close ==> NoLateWithdrawal(w1, calls, v, close)
    ensures NoLateWithdrawal(w1, calls, v, close) ==>
              StillExposed(Run(w1, calls), v, close, floor - TakenIn(w1, calls, v))
  {
    if Run(w1, calls).now < close {
      NoneLateBeforeClose(w1, calls, v, close);
    }
    if NoLateWithdrawal(w1, calls, v, close) {
      ExposureRun(w1, calls, v, close);
      RunSound(w1, calls);
      SoundStake(Run(w1, calls), v);
      ExposedIsPart(StakeOf(Run(w1, calls).reg, v), close);
    }
  }

  /** From the moment `v` attests `c`, whatever anybody does next: until the claim closes, and after
      that until `v` withdraws, at least the minimum stake remains that cannot leave before the
      close, less what was slashed from `v` since. */
  lemma SlashableUntilClose(w: World, auth: set<Address>, v: Address, c: Claim, rebuilt: Hash, calls: seq<Call>)
    requires Sound(w) && Coherent(w) && RegistrySpec.Attest(w, auth, v, c, rebuilt).Ok?
    requires External(w, calls)
    ensures var w1 := RegistrySpec.Attest(w, auth, v, c, rebuilt).value;
            && c in w1.reg.openedAt
            && var close := w1.reg.openedAt[c] + w.cfg.attestWindow;
            && (Run(w1, calls).now < close ==> NoLateWithdrawal(w1, calls, v, close))
            && (NoLateWithdrawal(w1, calls, v, close) ==>
                  StillExposed(Run(w1, calls), v, close, w.cfg.minStake - TakenIn(w1, calls, v)))
  {
    hide RegistrySpec.Attest, Exposed, StillExposed, Sound, Coherent, Run, NoLateWithdrawal, TakenIn;
    AttestingExposes(w, auth, v, c, rebuilt);
    var w1 := RegistrySpec.Attest(w, auth, v, c, rebuilt).value;
    StaysExposed(w1, calls, v, w1.reg.openedAt[c] + w.cfg.attestWindow, w.cfg.minStake);
  }

  /** So the first slash of `v`, on this claim or any other, coming before `v` withdraws after the
      close, takes at least the share of the minimum stake. */
  lemma FirstSlashTakesTheMinimumShare(w: World, auth: set<Address>, v: Address, c: Claim, rebuilt: Hash, calls: seq<Call>, d: Claim)
    requires Sound(w) && Coherent(w) && RegistrySpec.Attest(w, auth, v, c, rebuilt).Ok?
    requires External(w, calls)
    requires var w1 := RegistrySpec.Attest(w, auth, v, c, rebuilt).value;
             && c in w1.reg.openedAt
             && NoLateWithdrawal(w1, calls, v, w1.reg.openedAt[c] + w.cfg.attestWindow)
             && TakenIn(w1, calls, v) == 0
    ensures var w2 := Run(RegistrySpec.Attest(w, auth, v, c, rebuilt).value, calls);
            && SlashAmount(Total(StakeOf(w2.reg, v)), w.cfg.slashBps) >= w.cfg.minStake * w.cfg.slashBps / BPS_DENOMINATOR
            && (RegistrySpec.Slash(w2, d, v).Ok? ==>
                  RegistrySpec.Slash(w2, d, v).value.1 >= w.cfg.minStake * w.cfg.slashBps / BPS_DENOMINATOR)
  {
    hide RegistrySpec.Attest, RegistrySpec.Slash, Sound, Coherent, Run, NoLateWithdrawal, TakenIn, External, Exposed, StakeOf, SlashAmount;
    var w1 := RegistrySpec.Attest(w, auth, v, c, rebuilt).value;
    AttestingExposes(w, auth, v, c, rebuilt);
    SlashableUntilClose(w, auth, v, c, rebuilt, calls);
    AttestKeepsExternal(w, auth, v, c, rebuilt, calls);
    RunFixed(w1, calls);
    RunSound(w1, calls);
    SoundConfig(w);
    ShareOfAtLeast(Run(w1, calls), d, v, w.cfg.minStake);
  }

  lemma AttestKeepsExternal(w: World, auth: set<Address>, v: Address, c: Claim, rebuilt: Hash, calls: seq<Call>)
    requires External(w, calls) && RegistrySpec.Attest(w, auth, v, c, rebuilt).Ok?
    ensures External(RegistrySpec.Attest(w, auth, v, c, rebuilt).value, calls)
  {
    FilingFixed(w, auth, v, c, rebuilt);
  }

  lemma SoundConfig(w: World)
    requires Sound(w)
    ensures 0 < w.cfg.minStake && w.cfg.slashBps <= BPS_DENOMINATOR
  {
  }

  /** A stake of at least `floor` is slashed by at least the share of `floor`. */
  lemma ShareOfAtLeast(w: World, d: Claim, v: Address, floor: int)
    requires Sound(w) && 0 <= floor <= Total(StakeOf(w.reg, v)) && w.cfg.slashBps <= BPS_DENOMINATOR
    ensures SlashAmount(Total(StakeOf(w.reg, v)), w.cfg.slashBps) >= floor * w.cfg.slashBps / BPS_DENOMINATOR
    ensures RegistrySpec.Slash(w, d, v).Ok? ==>
              RegistrySpec.Slash(w, d, v).value.1 >= floor * w.cfg.slashBps / BPS_DENOMINATOR
  {
    hide SlashAmount, Sound, StakeOf, MaySlash, Punish;
    SlashAmountMonotone(floor, Total(StakeOf(w.reg, v)), w.cfg.slashBps);
    SlashAmountBounds(floor, w.cfg.slashBps);
    if Punish(w, d, v).Ok? {
      PunishEffect(w, d, v);
    }
  }

  // ---- many slashes --------------------------------------------------------------------

  /** The transaction adds to the stake of `v` or withdraws from it. */
  predicate Touches(w: World, call: Call, v: Address) {
    Exec(w, call).Ok? && (call.op.Stake? || call.op.Withdraw?) && call.op.verifier == v
  }

  predicate Hits(w: World, call: Call, v: Address) {
    Exec(w, call).Ok? && call.op.Slash? && call.op.verifier == v
  }

  /** In this run `v` neither adds stake nor withdraws any. */
  predicate Untouched(w: World, calls: seq<Call>, v: Address)
    decreases |calls|
  {
    calls == [] || (!Touches(w, calls[0], v) && Untouched(Step(w, calls[0]), calls[1..], v))
  }

  function SlashesOf(w: World, calls: seq<Call>, v: Address): nat
    decreases |calls|
  {
    if calls == [] then 0
    else (if Hits(w, calls[0], v) then 1 else 0) + SlashesOf(Step(w, calls[0]), calls[1..], v)
  }

  /** Slashes add up. */
  lemma {:induction false} AfterMore(total: int, bps: nat, k: nat, n: nat)
    ensures AfterSlashes(AfterSlashes(total, bps, k), bps, n) == AfterSlashes(total, bps, k + n)
  {
    if n > 0 {
      AfterMore(total, bps, k, n - 1);
    }
  }

  lemma TotalStep(w: World, call: Call, v: Address)
    requires Sound(w) && !Touches(w, call, v)
    ensures Hits(w, call, v) ==>
              Total(StakeOf(Step(w, call).reg, v)) ==
              Total(StakeOf(w.reg, v)) - SlashAmount(Total(StakeOf(w.reg, v)), w.cfg.slashBps)
    ensures !Hits(w, call, v) ==> Total(StakeOf(Step(w, call).reg, v)) == Total(StakeOf(w.reg, v))
  {
    hide Exec, Sound, StakeOf, SlashAmount, Punish;
    if Exec(w, call).Ok? {
      if call.op.Slash? {
        SlashPunishes(w, call);
        StakeAfterSlash(w, call.op.claim, call.op.verifier, v);
      } else {
        StakeAfter(w, call, v);
      }
    }
  }

  lemma SlashPunishes(w: World, call: Call)
    requires call.op.Slash? && Exec(w, call).Ok?
    ensures Punish(w, call.op.claim, call.op.verifier) == Exec(w, call)
  {
  }

  /** The whole stake of `v`. */
  function Whole(w: World, v: Address): int {
    Total(StakeOf(w.reg, v))
  }

  lemma AfterNone(total: int, bps: nat)
    ensures AfterSlashes(total, bps, 0) == total
  {
  }

  lemma WholeStep(w: World, call: Call, v: Address) returns (k: nat)
    requires Sound(w) && !Touches(w, call, v)
    ensures k == if Hits(w, call, v) then 1 else 0
    ensures Whole(Step(w, call), v) == AfterSlashes(Whole(w, v), w.cfg.slashBps, k)
  {
    hide Exec, SlashAmount, Hits, StakeOf;
    TotalStep(w, call, v);
    if Hits(w, call, v) {
      k := 1;
      assert AfterSlashes(Whole(w, v), w.cfg.slashBps, 0) == Whole(w, v);
    } else {
      k := 0;
    }
  }

  /** Over a run in which `v` adds and withdraws nothing, its whole stake shrinks by slashes alone,
      one rounded-down share each, however its active and unbonding parts move. */
  lemma {:induction false} StakeAfterManySlashes(w: World, calls: seq<Call>, v: Address)
    requires Sound(w) && External(w, calls) && Untouched(w, calls, v)
    ensures Whole(Run(w, calls), v) == AfterSlashes(Whole(w, v), w.cfg.slashBps, SlashesOf(w, calls, v))
    decreases |calls|
  {
    hide Exec, SlashAmount, AfterSlashes, Hits, Touches, StakeOf, Sound;
    if calls == [] {
      AfterNone(Whole(w, v), w.cfg.slashBps);
    } else {
      StepSound(w, calls[0]);
      StepFixed(w, calls[0]);
      StakeAfterManySlashes(Step(w, calls[0]), calls[1..], v);
      var k := WholeStep(w, calls[0], v);
      AfterMore(Whole(w, v), w.cfg.slashBps, k, SlashesOf(Step(w, calls[0]), calls[1..], v));
      assert SlashesOf(w, calls, v) == k + SlashesOf(Step(w, calls[0]), calls[1..], v);
    }
  }

  /** Hence `n` slashes leave `R` of `T` with `T * (10000 - b)^n <= R * 10000^n` and
      `b * R * 10000^n < b * T * (10000 - b)^n + 10000^(n + 1)`. */
  lemma SlashedStakeBounds(w: World, calls: seq<Call>, v: Address)
    requires Sound(w) && External(w, calls) && Untouched(w, calls, v)
    ensures Shrunk(Whole(w, v), Whole(Run(w, calls), v), w.cfg.slashBps, SlashesOf(w, calls, v))
  {
    StakeAfterManySlashes(w, calls, v);
    SoundStake(w, v);
    ShrunkBy(Whole(w, v), Whole(Run(w, calls), v), w.cfg.slashBps, SlashesOf(w, calls, v));
  }

  lemma ShrunkBy(t: int, r: int, bps: nat, n: nat)
    requires t >= 0 && 0 < bps <= BPS_DENOMINATOR && r == AfterSlashes(t, bps, n)
    ensures Shrunk(t, r, bps, n)
  {
    ManySlashes(t, bps, n);
  }
}
