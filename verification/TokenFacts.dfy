/** What the token's operations do to balances, supply and allowances. */
module TokenFacts {
  import opened Chain
  import opened Sums
  import opened TokenSpec

  /** Everything anybody holds. */
  ghost function Supply(t: Token): int {
    Sum(t.balances)
  }

  /** No balance and no allowance is negative, and an allowance is an `i128`. */
  ghost predicate NonNegative(t: Token) {
    && (forall a | a in t.balances :: 0 <= t.balances[a])
    && (forall k | k in t.allowances :: 0 <= t.allowances[k].amount <= MAX_I128)
  }

  /** `amount` arrived at `to` and left `from`, where given; nobody else's balance changed. */
  ghost predicate Shifted(t: Token, t': Token, from: Address, sent: int, to: Address, received: int) {
    forall a :: BalanceOf(t', a) ==
                BalanceOf(t, a) - (if a == from then sent else 0) + (if a == to then received else 0)
  }

  lemma ReceiveEffect(t: Token, a: Address, amount: int)
    requires NonNegative(t) && amount >= 0
    ensures Receive(t, a, amount).Ok? <==> BalanceOf(t, a) + amount <= MAX_I128
    ensures !Receive(t, a, amount).Ok? ==> Receive(t, a, amount) == Trap(I128Overflow)
    ensures Receive(t, a, amount).Ok? ==>
              var t' := Receive(t, a, amount).value;
              && NonNegative(t') && t'.allowances == t.allowances && t'.admin == t.admin
              && Shifted(t, t', a, 0, a, amount)
              && Supply(t') == Supply(t) + amount
  {
    SumPut(t.balances, a, BalanceOf(t, a) + amount);
  }

  lemma SpendEffect(t: Token, a: Address, amount: int)
    requires NonNegative(t) && amount >= 0
    ensures Spend(t, a, amount).Ok? <==> amount <= BalanceOf(t, a) <= MAX_I128 + amount
    ensures !Spend(t, a, amount).Ok? && BalanceOf(t, a) <= MAX_I128 ==> Spend(t, a, amount) == Trap(InsufficientBalance)
    ensures Spend(t, a, amount).Ok? ==>
              var t' := Spend(t, a, amount).value;
              && NonNegative(t') && t'.allowances == t.allowances && t'.admin == t.admin
              && Shifted(t, t', a, amount, a, 0)
              && Supply(t') == Supply(t) - amount
  {
    SumPut(t.balances, a, BalanceOf(t, a) - amount);
  }

  /** A transfer moves the amount and keeps the supply, also when sender and receiver are one. */
  lemma TransferEffect(t: Token, auth: set<Address>, from: Address, to: Address, amount: int)
    requires NonNegative(t)
    ensures Transfer(t, auth, from, to, amount).Ok? ==>
              var t' := Transfer(t, auth, from, to, amount).value;
              && from in auth && 0 <= amount <= BalanceOf(t, from)
              && NonNegative(t') && t'.allowances == t.allowances && t'.admin == t.admin
              && Shifted(t, t', from, amount, to, amount)
              && Supply(t') == Supply(t)
  {
    if from in auth && amount >= 0 {
      SpendEffect(t, from, amount);
      var s := Spend(t, from, amount);
      if s.Ok? {
        ReceiveEffect(s.value, to, amount);
      }
    }
  }

  /** Nobody holds more than the supply, nor do two holders together. */
  lemma SupplyBounds(t: Token, a: Address, b: Address)
    requires NonNegative(t)
    ensures 0 <= BalanceOf(t, a) <= Supply(t)
    ensures a != b ==> BalanceOf(t, a) + BalanceOf(t, b) <= Supply(t)
  {
    SumBounds(t.balances);
    if a != b {
      SumOfTwo(t.balances, a, b);
    }
  }

  /** While the supply fits an `i128`, an authorized transfer succeeds exactly when it is covered. */
  lemma TransferExact(t: Token, auth: set<Address>, from: Address, to: Address, amount: int)
    requires NonNegative(t) && Supply(t) <= MAX_I128 && from in auth && amount >= 0
    ensures Transfer(t, auth, from, to, amount).Ok? <==> amount <= BalanceOf(t, from)
    ensures !Transfer(t, auth, from, to, amount).Ok? ==>
              Transfer(t, auth, from, to, amount) == Trap(InsufficientBalance)
  {
    SupplyBounds(t, from, to);
    SpendEffect(t, from, amount);
    var s := Spend(t, from, amount);
    if s.Ok? {
      SupplyBounds(t, to, from);
      ReceiveEffect(s.value, to, amount);
      assert BalanceOf(s.value, to) == BalanceOf(t, to) - if to == from then amount else 0;
    }
  }

  lemma BurnEffect(t: Token, auth: set<Address>, from: Address, amount: int)
    requires NonNegative(t)
    ensures Burn(t, auth, from, amount).Ok? ==>
              var t' := Burn(t, auth, from, amount).value;
              && from in auth && 0 <= amount <= BalanceOf(t, from)
              && NonNegative(t') && t'.allowances == t.allowances && t'.admin == t.admin
              && Shifted(t, t', from, amount, from, 0)
              && Supply(t') == Supply(t) - amount
    ensures from in auth && 0 <= amount <= BalanceOf(t, from) <= MAX_I128 ==> Burn(t, auth, from, amount).Ok?
  {
    if from in auth && amount >= 0 {
      SpendEffect(t, from, amount);
    }
  }

  /** Spending an allowance takes the amount off what is stored, never more than what is live, and
      never runs into the check that refuses to write an expired allowance. */
  lemma SpendAllowanceEffect(t: Token, now: nat, from: Address, spender: Address, amount: int)
    requires NonNegative(t) && amount >= 0
    ensures SpendAllowance(t, now, from, spender, amount) != Trap(AllowanceExpired)
    ensures SpendAllowance(t, now, from, spender, amount).Ok? ==>
              var t' := SpendAllowance(t, now, from, spender, amount).value;
              && amount <= ReadAllowance(t, now, from, spender).amount
              && (amount > 0 ==> now <= Stored(t, from, spender).liveUntil)
              && NonNegative(t') && t'.balances == t.balances && t'.admin == t.admin
              && Stored(t', from, spender).amount == Stored(t, from, spender).amount - amount
              && Stored(t', from, spender).liveUntil == Stored(t, from, spender).liveUntil
              && forall f, s | (f, s) != (from, spender) :: Stored(t', f, s) == Stored(t, f, s)
  {
  }

  lemma TransferFromEffect(t: Token, auth: set<Address>, now: nat, spender: Address, from: Address, to: Address, amount: int)
    requires NonNegative(t)
    ensures TransferFrom(t, auth, now, spender, from, to, amount) != Trap(AllowanceExpired)
    ensures TransferFrom(t, auth, now, spender, from, to, amount).Ok? ==>
              var t' := TransferFrom(t, auth, now, spender, from, to, amount).value;
              && spender in auth && 0 <= amount <= ReadAllowance(t, now, from, spender).amount
              && NonNegative(t') && t'.admin == t.admin
              && SpendAllowance(t, now, from, spender, amount).Ok?
              && t'.allowances == SpendAllowance(t, now, from, spender, amount).value.allowances
              && Shifted(t, t', from, amount, to, amount)
              && Supply(t') == Supply(t)
  {
    if spender in auth && amount >= 0 {
      SpendAllowanceEffect(t, now, from, spender, amount);
      var a := SpendAllowance(t, now, from, spender, amount);
      if a.Ok? {
        SpendEffect(a.value, from, amount);
        var s := Spend(a.value, from, amount);
        if s.Ok? {
          ReceiveEffect(s.value, to, amount);
        }
      }
    }
  }

  lemma BurnFromEffect(t: Token, auth: set<Address>, now: nat, spender: Address, from: Address, amount: int)
    requires NonNegative(t)
    ensures BurnFrom(t, auth, now, spender, from, amount) != Trap(AllowanceExpired)
    ensures BurnFrom(t, auth, now, spender, from, amount).Ok? ==>
              var t' := BurnFrom(t, auth, now, spender, from, amount).value;
              && spender in auth && 0 <= amount <= ReadAllowance(t, now, from, spender).amount
              && NonNegative(t') && t'.admin == t.admin
              && SpendAllowance(t, now, from, spender, amount).Ok?
              && t'.allowances == SpendAllowance(t, now, from, spender, amount).value.allowances
              && Shifted(t, t', from, amount, from, 0)
              && Supply(t') == Supply(t) - amount
  {
    if spender in auth && amount >= 0 {
      SpendAllowanceEffect(t, now, from, spender, amount);
      var a := SpendAllowance(t, now, from, spender, amount);
      if a.Ok? {
        SpendEffect(a.value, from, amount);
      }
    }
  }
  // ---- exactly when each operation succeeds, and what it stores ------------------------

  /** What may still be moved: the stored amount through its last ledger, and nothing after it. */
  lemma AllowanceReads(t: Token, now: nat, from: Address, spender: Address)
    ensures var s := Stored(t, from, spender);
            && (now <= s.liveUntil ==> ReadAllowance(t, now, from, spender).amount == s.amount)
            && (now > s.liveUntil ==> ReadAllowance(t, now, from, spender).amount == 0)
            && ((from, spender) !in t.allowances ==> ReadAllowance(t, now, from, spender).amount == 0)
  {
  }

  /** An approval stores exactly the amount and the last ledger it names, for that pair alone; it takes
      the owner's authorization, no negative amount, and no positive one that has already expired. */
  lemma ApproveExact(t: Token, auth: set<Address>, now: nat, from: Address, spender: Address, amount: int, live: nat)
    ensures var r := Approve(t, auth, now, from, spender, amount, live);
            && (r.Ok? <==> from in auth && amount >= 0 && (amount == 0 || now <= live))
            && (r == Trap(Unauthorized) <==> from !in auth)
            && (r.Ok? ==>
                  && r.value.balances == t.balances && r.value.admin == t.admin
                  && Stored(r.value, from, spender).amount == amount && Stored(r.value, from, spender).liveUntil == live
                  && forall f, s | (f, s) != (from, spender) :: Stored(r.value, f, s) == Stored(t, f, s))
  {
  }

  /** Minting takes the administrator and room for the amount, and gives it to the receiver alone. */
  lemma MintExact(t: Token, auth: set<Address>, to: Address, amount: int)
    requires NonNegative(t)
    ensures var r := Mint(t, auth, to, amount);
            && (r.Ok? <==> t.admin in auth && amount >= 0 && BalanceOf(t, to) + amount <= MAX_I128)
            && (r.Ok? ==>
                  && r.value.admin == t.admin && r.value.allowances == t.allowances
                  && BalanceOf(r.value, to) == BalanceOf(t, to) + amount
                  && forall a | a != to :: BalanceOf(r.value, a) == BalanceOf(t, a))
  {
    if amount >= 0 {
      ReceiveEffect(t, to, amount);
    }
  }

  lemma SetAdminExact(t: Token, auth: set<Address>, newAdmin: Address)
    ensures var r := SetAdmin(t, auth, newAdmin);
            && (r.Ok? <==> t.admin in auth)
            && (r.Ok? ==> r.value.admin == newAdmin && r.value.balances == t.balances && r.value.allowances == t.allowances)
  {
  }

  /** While the supply fits an `i128`: spending, transferring and burning succeed exactly when the right
      party authorized them and balance, and allowance where one is used, cover the amount. */
  lemma SpendersExact(t: Token, auth: set<Address>, now: nat, spender: Address, from: Address, to: Address, amount: int)
    requires NonNegative(t) && Supply(t) <= MAX_I128
    ensures Transfer(t, auth, from, to, amount).Ok? <==> from in auth && 0 <= amount <= BalanceOf(t, from)
    ensures Burn(t, auth, from, amount).Ok? <==> from in auth && 0 <= amount <= BalanceOf(t, from)
    ensures TransferFrom(t, auth, now, spender, from, to, amount).Ok? <==>
              spender in auth && 0 <= amount <= BalanceOf(t, from) && amount <= ReadAllowance(t, now, from, spender).amount
    ensures BurnFrom(t, auth, now, spender, from, amount).Ok? <==>
              spender in auth && 0 <= amount <= BalanceOf(t, from) && amount <= ReadAllowance(t, now, from, spender).amount
  {
    hide Supply, Transfer, Burn, TransferFrom, BurnFrom;
    SupplyBounds(t, from, from);
    DirectExact(t, auth, from, to, amount);
    DrawnExact(t, auth, now, spender, from, to, amount);
  }

  lemma DirectExact(t: Token, auth: set<Address>, from: Address, to: Address, amount: int)
    requires NonNegative(t) && Supply(t) <= MAX_I128
    ensures Transfer(t, auth, from, to, amount).Ok? <==> from in auth && 0 <= amount <= BalanceOf(t, from)
    ensures Burn(t, auth, from, amount).Ok? <==> from in auth && 0 <= amount <= BalanceOf(t, from)
  {
    hide Supply, NonNegative;
    SupplyBounds(t, from, from);
    BurnEffect(t, auth, from, amount);
    if from in auth && amount >= 0 {
      TransferExact(t, auth, from, to, amount);
    }
  }

  lemma AllowanceCovers(t: Token, now: nat, from: Address, spender: Address, amount: int)
    requires NonNegative(t) && amount >= 0
    ensures SpendAllowance(t, now, from, spender, amount).Ok? <==> amount <= ReadAllowance(t, now, from, spender).amount
    ensures SpendAllowance(t, now, from, spender, amount).Ok? ==>
              var t' := SpendAllowance(t, now, from, spender, amount).value; NonNegative(t') && t'.balances == t.balances
  {
    SpendAllowanceEffect(t, now, from, spender, amount);
  }

  lemma DrawnExact(t: Token, auth: set<Address>, now: nat, spender: Address, from: Address, to: Address, amount: int)
    requires NonNegative(t) && Supply(t) <= MAX_I128
    ensures TransferFrom(t, auth, now, spender, from, to, amount).Ok? <==>
              spender in auth && 0 <= amount <= BalanceOf(t, from) && amount <= ReadAllowance(t, now, from, spender).amount
    ensures BurnFrom(t, auth, now, spender, from, amount).Ok? <==>
              spender in auth && 0 <= amount <= BalanceOf(t, from) && amount <= ReadAllowance(t, now, from, spender).amount
  {
    hide ReadAllowance, SpendAllowance, NonNegative;
    if spender in auth && amount >= 0 {
      AllowanceCovers(t, now, from, spender, amount);
      var s := SpendAllowance(t, now, from, spender, amount);
      if s.Ok? {
        assert Supply(s.value) == Supply(t) && BalanceOf(s.value, from) == BalanceOf(t, from);
        DirectExact(s.value, {from}, from, to, amount);
      }
    }
  }
}
