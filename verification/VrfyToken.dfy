/** The VRFY token as functions on its storage: what one invocation leaves behind, or how it
    aborts. */
module TokenSpec {
  import opened Chain

  datatype Allowance = Allowance(amount: int, liveUntil: nat)

  datatype Token = Token(
    admin: Address,
    balances: map<Address, int>,
    allowances: map<(Address, Address), Allowance>)

  function BalanceOf(t: Token, a: Address): int {
    if a in t.balances then t.balances[a] else 0
  }

  /** The stored allowance, whether or not it has expired. */
  function Stored(t: Token, from: Address, spender: Address): Allowance {
    if (from, spender) in t.allowances then t.allowances[(from, spender)] else Allowance(0, 0)
  }

  /** What `spender` may still move: nothing once the allowance has expired. */
  function ReadAllowance(t: Token, now: nat, from: Address, spender: Address): Allowance {
    var s := Stored(t, from, spender);
    if s.liveUntil < now then Allowance(0, s.liveUntil) else s
  }

  function WriteAllowance(t: Token, now: nat, from: Address, spender: Address, amount: int, liveUntil: nat): Outcome<Token> {
    if amount > 0 && liveUntil < now then Trap(AllowanceExpired)
    else Ok(t.(allowances := t.allowances[(from, spender) := Allowance(amount, liveUntil)]))
  }

  function SpendAllowance(t: Token, now: nat, from: Address, spender: Address, amount: int): Outcome<Token> {
    var a := ReadAllowance(t, now, from, spender);
    if a.amount < amount then Trap(InsufficientAllowance)
    else if amount > 0 then
      var left :- I128(a.amount - amount);
      WriteAllowance(t, now, from, spender, left, a.liveUntil)
    else Ok(t)
  }

  function Receive(t: Token, a: Address, amount: int): Outcome<Token> {
    var b :- I128(BalanceOf(t, a) + amount);
    Ok(t.(balances := t.balances[a := b]))
  }

  function Spend(t: Token, a: Address, amount: int): Outcome<Token> {
    if BalanceOf(t, a) < amount then Trap(InsufficientBalance)
    else
      var b :- I128(BalanceOf(t, a) - amount);
      Ok(t.(balances := t.balances[a := b]))
  }

  /** `require_auth`, then the sign check every amount passes. */
  function Admit(t: Token, auth: set<Address>, who: Address, amount: int): Outcome<Token> {
    if who !in auth then Trap(Unauthorized)
    else if amount < 0 then Trap(NegativeAmount)
    else Ok(t)
  }

  function Mint(t: Token, auth: set<Address>, to: Address, amount: int): Outcome<Token> {
    if amount < 0 then Trap(NegativeAmount)
    else if t.admin !in auth then Trap(Unauthorized)
    else Receive(t, to, amount)
  }

  function SetAdmin(t: Token, auth: set<Address>, newAdmin: Address): Outcome<Token> {
    if t.admin !in auth then Trap(Unauthorized) else Ok(t.(admin := newAdmin))
  }

  function Approve(t: Token, auth: set<Address>, now: nat, from: Address, spender: Address, amount: int, liveUntil: nat): Outcome<Token> {
    var t0 :- Admit(t, auth, from, amount);
    WriteAllowance(t0, now, from, spender, amount, liveUntil)
  }

  function Transfer(t: Token, auth: set<Address>, from: Address, to: Address, amount: int): Outcome<Token> {
    var t0 :- Admit(t, auth, from, amount);
    var t1 :- Spend(t0, from, amount);
    Receive(t1, to, amount)
  }

  function TransferFrom(t: Token, auth: set<Address>, now: nat, spender: Address, from: Address, to: Address, amount: int): Outcome<Token> {
    var t0 :- Admit(t, auth, spender, amount);
    var t1 :- SpendAllowance(t0, now, from, spender, amount);
    var t2 :- Spend(t1, from, amount);
    Receive(t2, to, amount)
  }

  function Burn(t: Token, auth: set<Address>, from: Address, amount: int): Outcome<Token> {
    var t0 :- Admit(t, auth, from, amount);
    Spend(t0, from, amount)
  }

  function BurnFrom(t: Token, auth: set<Address>, now: nat, spender: Address, from: Address, amount: int): Outcome<Token> {
    var t0 :- Admit(t, auth, spender, amount);
    var t1 :- SpendAllowance(t0, now, from, spender, amount);
    Spend(t1, from, amount)
  }
}

/** The token contract itself: storage changed write by write. An invocation that aborts may have
    written part of its changes; undoing them is the host's business (see `Host` in System.dfy). */
module TokenContract {
  import opened Chain
  import T = TokenSpec

  class VrfyToken {
    var admin: Address
    var balances: map<Address, int>
    var allowances: map<(Address, Address), T.Allowance>

    constructor (admin: Address)
      ensures Value() == T.Token(admin, map[], map[])
    {
      this.admin := admin;
      balances := map[];
      allowances := map[];
    }

    ghost function Value(): T.Token
      reads this
    {
      T.Token(admin, balances, allowances)
    }

    method ReadBalance(a: Address) returns (b: int)
      ensures b == T.BalanceOf(Value(), a)
    {
      b := 0;
      if a in balances {
        b := balances[a];
      }
    }

    method ReceiveBalance(a: Address, amount: int) returns (r: Outcome<()>)
      modifies this`balances
      ensures r == T.Receive(old(Value()), a, amount).Status()
      ensures Value() == if r.Ok? then T.Receive(old(Value()), a, amount).value else old(Value())
    {
      var balance := ReadBalance(a);
      var sum :- I128(balance + amount);
      balances := balances[a := sum];
      r := Ok(());
    }

    method SpendBalance(a: Address, amount: int) returns (r: Outcome<()>)
      modifies this`balances
      ensures r == T.Spend(old(Value()), a, amount).Status()
      ensures Value() == if r.Ok? then T.Spend(old(Value()), a, amount).value else old(Value())
    {
      var balance := ReadBalance(a);
      if balance < amount {
        return Trap(InsufficientBalance);
      }
      var rest :- I128(balance - amount);
      balances := balances[a := rest];
      r := Ok(());
    }

    method ReadAllowance(now: nat, from: Address, spender: Address) returns (a: T.Allowance)
      ensures a == T.ReadAllowance(Value(), now, from, spender)
    {
      if (from, spender) in allowances {
        var stored := allowances[(from, spender)];
        if stored.liveUntil < now {
          a := T.Allowance(0, stored.liveUntil);
        } else {
          a := stored;
        }
      } else {
        a := T.Allowance(0, 0);
      }
    }

    method WriteAllowance(now: nat, from: Address, spender: Address, amount: int, liveUntil: nat) returns (r: Outcome<()>)
      modifies this`allowances
      ensures r == T.WriteAllowance(old(Value()), now, from, spender, amount, liveUntil).Status()
      ensures Value() == if r.Ok? then T.WriteAllowance(old(Value()), now, from, spender, amount, liveUntil).value else old(Value())
    {
      if amount > 0 && liveUntil < now {
        return Trap(AllowanceExpired);
      }
      allowances := allowances[(from, spender) := T.Allowance(amount, liveUntil)];
      r := Ok(());
    }

    method SpendAllowance(now: nat, from: Address, spender: Address, amount: int) returns (r: Outcome<()>)
      modifies this`allowances
      ensures r == T.SpendAllowance(old(Value()), now, from, spender, amount).Status()
      ensures Value() == if r.Ok? then T.SpendAllowance(old(Value()), now, from, spender, amount).value else old(Value())
    {
      var a := ReadAllowance(now, from, spender);
      if a.amount < amount {
        return Trap(InsufficientAllowance);
      }
      if amount > 0 {
        var left :- I128(a.amount - amount);
        r := WriteAllowance(now, from, spender, left, a.liveUntil);
      } else {
        r := Ok(());
      }
    }

    method Mint(auth: set<Address>, to: Address, amount: int) returns (r: Outcome<()>)
      modifies this
      ensures r == T.Mint(old(Value()), auth, to, amount).Status()
      ensures r.Ok? ==> Value() == T.Mint(old(Value()), auth, to, amount).value
    {
      if amount < 0 {
        return Trap(NegativeAmount);
      }
      if admin !in auth {
        return Trap(Unauthorized);
      }
      r := ReceiveBalance(to, amount);
    }

    method SetAdmin(auth: set<Address>, newAdmin: Address) returns (r: Outcome<()>)
      modifies this
      ensures r == T.SetAdmin(old(Value()), auth, newAdmin).Status()
      ensures r.Ok? ==> Value() == T.SetAdmin(old(Value()), auth, newAdmin).value
    {
      if admin !in auth {
        return Trap(Unauthorized);
      }
      admin := newAdmin;
      r := Ok(());
    }

    method Admit(auth: set<Address>, who: Address, amount: int) returns (r: Outcome<()>)
      ensures r == T.Admit(Value(), auth, who, amount).Status()
    {
      if who !in auth {
        return Trap(Unauthorized);
      }
      if amount < 0 {
        return Trap(NegativeAmount);
      }
      r := Ok(());
    }

    method Approve(auth: set<Address>, now: nat, from: Address, spender: Address, amount: int, liveUntil: nat) returns (r: Outcome<()>)
      modifies this
      ensures r == T.Approve(old(Value()), auth, now, from, spender, amount, liveUntil).Status()
      ensures r.Ok? ==> Value() == T.Approve(old(Value()), auth, now, from, spender, amount, liveUntil).value
    {
      var _ :- Admit(auth, from, amount);
      r := WriteAllowance(now, from, spender, amount, liveUntil);
    }

    method Transfer(auth: set<Address>, from: Address, to: Address, amount: int) returns (r: Outcome<()>)
      modifies this
      ensures r == T.Transfer(old(Value()), auth, from, to, amount).Status()
      ensures r.Ok? ==> Value() == T.Transfer(old(Value()), auth, from, to, amount).value
    {
      var _ :- Admit(auth, from, amount);
      var _ :- SpendBalance(from, amount);
      r := ReceiveBalance(to, amount);
    }

    method TransferFrom(auth: set<Address>, now: nat, spender: Address, from: Address, to: Address, amount: int) returns (r: Outcome<()>)
      modifies this
      ensures r == T.TransferFrom(old(Value()), auth, now, spender, from, to, amount).Status()
      ensures r.Ok? ==> Value() == T.TransferFrom(old(Value()), auth, now, spender, from, to, amount).value
    {
      var _ :- Admit(auth, spender, amount);
      var _ :- SpendAllowance(now, from, spender, amount);
      var _ :- SpendBalance(from, amount);
      r := ReceiveBalance(to, amount);
    }

    method Burn(auth: set<Address>, from: Address, amount: int) returns (r: Outcome<()>)
      modifies this
      ensures r == T.Burn(old(Value()), auth, from, amount).Status()
      ensures r.Ok? ==> Value() == T.Burn(old(Value()), auth, from, amount).value
    {
      var _ :- Admit(auth, from, amount);
      r := SpendBalance(from, amount);
    }

    method BurnFrom(auth: set<Address>, now: nat, spender: Address, from: Address, amount: int) returns (r: Outcome<()>)
      modifies this
      ensures r == T.BurnFrom(old(Value()), auth, now, spender, from, amount).Status()
      ensures r.Ok? ==> Value() == T.BurnFrom(old(Value()), auth, now, spender, from, amount).value
    {
      var _ :- Admit(auth, spender, amount);
      var _ :- SpendAllowance(now, from, spender, amount);
      r := SpendBalance(from, amount);
    }
  }
}
