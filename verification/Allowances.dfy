/** What an allowance lets a spender move over a whole run. */
module Allowances {
  import opened Chain
  import opened RegistrySpec
  import opened System
  import opened Solvency
  import T = TokenSpec
  import F = TokenFacts

  /** What a transaction moved out of `from` on the strength of `spender`'s allowance. */
  function Drawn(w: World, call: Call, from: Address, spender: Address): int {
    if !Exec(w, call).Ok? then 0
    else match call.op
      case TransferFrom(s, f, _, amount) => if s == spender && f == from then amount else 0
      case BurnFrom(s, f, amount) => if s == spender && f == from then amount else 0
      case _ => 0
  }

  function DrawnIn(w: World, calls: seq<Call>, from: Address, spender: Address): int
    decreases |calls|
  {
    if calls == [] then 0
    else Drawn(w, calls[0], from, spender) + DrawnIn(Step(w, calls[0]), calls[1..], from, spender)
  }

  predicate Reapproves(call: Call, from: Address, spender: Address) {
    call.op.Approve? && call.op.from == from && call.op.spender == spender
  }

  /** The registry's own entry points leave every allowance alone. */
  lemma RegistryKeepsAllowances(w: World, call: Call)
    requires Sound(w)
    requires call.op.Stake? || call.op.RequestUnstake? || call.op.Withdraw? || call.op.Attest? || call.op.Slash?
    ensures Step(w, call).tok.allowances == w.tok.allowances
  {
    hide T.Transfer, T.Burn, MaySlash, Punish;
    match call.op
    case Stake(v, amount) => F.TransferEffect(w.tok, call.auth + {w.self}, v, w.self, amount);
    case Withdraw(v) => F.TransferEffect(w.tok, call.auth + {w.self}, w.self, v, StakeOf(w.reg, v).unbonding);
    case Slash(c, v) =>
      if Punish(w, c, v).Ok? {
        PunishEffect(w, c, v);
        F.BurnEffect(w.tok, {w.self}, w.self, Punish(w, c, v).value.1);
      }
    case _ =>
  }

  lemma TokenKeepsAllowance(w: World, call: Call, from: Address, spender: Address)
    requires Sound(w) && !Reapproves(call, from, spender)
    requires call.op.Mint? || call.op.SetAdmin? || call.op.Transfer? || call.op.Burn? || call.op.Approve? || call.op.Advance?
    ensures T.Stored(Step(w, call).tok, from, spender) == T.Stored(w.tok, from, spender)
  {
    match call.op
    case Mint(to, amount) =>
      if amount >= 0 {
        F.ReceiveEffect(w.tok, to, amount);
      }
    case Transfer(f, to, amount) => F.TransferEffect(w.tok, call.auth, f, to, amount);
    case Burn(f, amount) => F.BurnEffect(w.tok, call.auth, f, amount);
    case _ =>
  }

  lemma TransferFromDraws(w: World, call: Call, from: Address, spender: Address)
    requires Sound(w) && call.op.TransferFrom?
    ensures Draws(w, call, from, spender)
  {
    hide T.TransferFrom, T.SpendAllowance, T.ReadAllowance;
    var s, f, amount := call.op.spender, call.op.from, call.op.amount;
    F.TransferFromEffect(w.tok, call.auth, w.now, s, f, call.op.to, amount);
    if amount >= 0 {
      F.SpendAllowanceEffect(w.tok, w.now, f, s, amount);
    }
  }

  lemma BurnFromDraws(w: World, call: Call, from: Address, spender: Address)
    requires Sound(w) && call.op.BurnFrom?
    ensures Draws(w, call, from, spender)
  {
    hide T.BurnFrom, T.SpendAllowance, T.ReadAllowance;
    var s, f, amount := call.op.spender, call.op.from, call.op.amount;
    F.BurnFromEffect(w.tok, call.auth, w.now, s, f, amount);
    if amount >= 0 {
      F.SpendAllowanceEffect(w.tok, w.now, f, s, amount);
    }
  }

  /** The stored allowance falls by exactly what is drawn on it, and nothing is drawn once it has
      expired. */
  ghost predicate Draws(w: World, call: Call, from: Address, spender: Address) {
    var s, s' := T.Stored(w.tok, from, spender), T.Stored(Step(w, call).tok, from, spender);
    && s'.amount == s.amount - Drawn(w, call, from, spender)
    && s'.liveUntil == s.liveUntil
    && Drawn(w, call, from, spender) >= 0
    && (Drawn(w, call, from, spender) > 0 ==> w.now <= s.liveUntil)
  }

  lemma DrawStep(w: World, call: Call, from: Address, spender: Address)
    requires Sound(w) && !Reapproves(call, from, spender)
    ensures Draws(w, call, from, spender)
  {
    if call.op.TransferFrom? {
      TransferFromDraws(w, call, from, spender);
    } else if call.op.BurnFrom? {
      BurnFromDraws(w, call, from, spender);
    } else {
      assert Drawn(w, call, from, spender) == 0;
      if call.op.Stake? || call.op.RequestUnstake? || call.op.Withdraw? || call.op.Attest? || call.op.Slash? {
        RegistryKeepsAllowances(w, call);
      } else {
        TokenKeepsAllowance(w, call, from, spender);
      }
    }
  }

  /** The budget: until `from` approves `spender` anew, everything drawn in a run comes off the
      stored allowance, so it is at most what was approved; and nothing is drawn after expiry. */
  lemma {:induction false} AllowanceIsABudget(w: World, calls: seq<Call>, from: Address, spender: Address)
    requires Sound(w) && External(w, calls)
    requires forall i | 0 <= i < |calls| :: !Reapproves(calls[i], from, spender)
    ensures var s, s' := T.Stored(w.tok, from, spender), T.Stored(Run(w, calls).tok, from, spender);
            && DrawnIn(w, calls, from, spender) == s.amount - s'.amount
            && 0 <= DrawnIn(w, calls, from, spender) <= s.amount
            && s'.liveUntil == s.liveUntil
            && (w.now > s.liveUntil ==> DrawnIn(w, calls, from, spender) == 0)
    decreases |calls|
  {
    if calls == [] {
      assert (from, spender) in w.tok.allowances ==> w.tok.allowances[(from, spender)].amount >= 0;
    } else {
      StepSound(w, calls[0]);
      StepFixed(w, calls[0]);
      DrawStep(w, calls[0], from, spender);
      AllowanceIsABudget(Step(w, calls[0]), calls[1..], from, spender);
    }
  }
}
