/** Both contracts as one transition system: every state-changing entry point, called by anyone,
    and the ledger moving on. */
module System {
  import opened Chain
  import opened RegistrySpec
  import T = TokenSpec

  datatype Op =
    // the token
    | Mint(to: Address, amount: i128)
    | SetAdmin(newAdmin: Address)
    | Approve(from: Address, spender: Address, amount: i128, liveUntil: u32)
    | Transfer(from: Address, to: Address, amount: i128)
    | TransferFrom(spender: Address, from: Address, to: Address, amount: i128)
    | Burn(from: Address, amount: i128)
    | BurnFrom(spender: Address, from: Address, amount: i128)
    // the registry
    | Stake(verifier: Address, amount: i128)
    | RequestUnstake(verifier: Address, amount: i128)
    | Withdraw(verifier: Address)
    | Attest(verifier: Address, claim: Claim, rebuilt: Hash)
    | Slash(claim: Claim, verifier: Address)
    // the ledger
    | Advance(ledgers: nat)

  /** One transaction: what it does, and the addresses that authorized it. */
  datatype Call = Call(auth: set<Address>, op: Op)

  function Deliver(w: World, tok: Outcome<T.Token>): Outcome<(World, int)> {
    var t :- tok;
    Ok((w.(tok := t), 0))
  }

  function Keep(w: Outcome<World>): Outcome<(World, int)> {
    var w' :- w;
    Ok((w', 0))
  }

  /** What a transaction returns: the new state and the amount the entry point reports, if any. */
  function Exec(w: World, call: Call): Outcome<(World, int)> {
    var auth := call.auth;
    match call.op
    case Mint(to, amount) => Deliver(w, T.Mint(w.tok, auth, to, amount))
    case SetAdmin(a) => Deliver(w, T.SetAdmin(w.tok, auth, a))
    case Approve(from, spender, amount, live) => Deliver(w, T.Approve(w.tok, auth, w.now, from, spender, amount, live))
    case Transfer(from, to, amount) => Deliver(w, T.Transfer(w.tok, auth, from, to, amount))
    case TransferFrom(spender, from, to, amount) => Deliver(w, T.TransferFrom(w.tok, auth, w.now, spender, from, to, amount))
    case Burn(from, amount) => Deliver(w, T.Burn(w.tok, auth, from, amount))
    case BurnFrom(spender, from, amount) => Deliver(w, T.BurnFrom(w.tok, auth, w.now, spender, from, amount))
    case Stake(v, amount) => Keep(RegistrySpec.Stake(w, auth, v, amount))
    case RequestUnstake(v, amount) => Keep(RegistrySpec.RequestUnstake(w, auth, v, amount))
    case Withdraw(v) => RegistrySpec.Withdraw(w, auth, v)
    case Attest(v, c, rebuilt) => Keep(RegistrySpec.Attest(w, auth, v, c, rebuilt))
    case Slash(c, v) => RegistrySpec.Slash(w, c, v)
    case Advance(n) =>
      var now :- U32(w.now + n);
      Ok((w.(now := now), 0))
  }

  /** The host keeps what a transaction did only when it returned. */
  function Step(w: World, call: Call): World {
    match Exec(w, call)
    case Ok(r) => r.0
    case _ => w
  }

  function Run(w: World, calls: seq<Call>): World
    decreases |calls|
  {
    if calls == [] then w else Run(Step(w, calls[0]), calls[1..])
  }

  /** The registry's address signs nothing from outside: a contract authorizes only by calling. */
  predicate External(w: World, calls: seq<Call>) {
    forall i | 0 <= i < |calls| :: w.self !in calls[i].auth
  }

  /** Two freshly deployed contracts. */
  function Genesis(cfg: Config, self: Address, admin: Address, now: nat): World {
    World(cfg, self, now, T.Token(admin, map[], map[]), Records(map[], map[], map[], map[], {}))
  }

  /** What is filed about claims. */
  ghost predicate SameFilings(r: Records, r': Records) {
    r'.openedAt == r.openedAt && r'.attesters == r.attesters && r'.atts == r.atts
  }

  ghost predicate Fixed(w: World, w': World) {
    w'.cfg == w.cfg && w'.self == w.self && w'.now == w.now
  }

  lemma StakingFixed(w: World, auth: set<Address>, v: Address, amount: int)
    ensures RegistrySpec.Stake(w, auth, v, amount).Ok? ==>
              var w' := RegistrySpec.Stake(w, auth, v, amount).value;
              Fixed(w, w') && SameFilings(w.reg, w'.reg) && w'.reg.slashed == w.reg.slashed
    ensures RegistrySpec.RequestUnstake(w, auth, v, amount).Ok? ==>
              var w' := RegistrySpec.RequestUnstake(w, auth, v, amount).value;
              Fixed(w, w') && SameFilings(w.reg, w'.reg) && w'.reg.slashed == w.reg.slashed
    ensures RegistrySpec.Withdraw(w, auth, v).Ok? ==>
              var w' := RegistrySpec.Withdraw(w, auth, v).value.0;
              Fixed(w, w') && SameFilings(w.reg, w'.reg) && w'.reg.slashed == w.reg.slashed
  {
  }

  lemma FilingFixed(w: World, auth: set<Address>, v: Address, c: Claim, rebuilt: Hash)
    ensures RegistrySpec.Attest(w, auth, v, c, rebuilt).Ok? ==>
              var w' := RegistrySpec.Attest(w, auth, v, c, rebuilt).value;
              Fixed(w, w') && w'.reg.slashed == w.reg.slashed && w'.reg.stakes == w.reg.stakes && w'.tok == w.tok
    ensures RegistrySpec.Punish(w, c, v).Ok? ==>
              var w' := RegistrySpec.Punish(w, c, v).value.0;
              Fixed(w, w') && SameFilings(w.reg, w'.reg) && w'.reg.slashed == w.reg.slashed + {(c, v)}
  {
  }

  /** A transaction changes neither the parameters nor the registry's address, never turns the clock
      back, files nothing unless it attests, and marks nobody slashed unless it slashes. */
  lemma StepFixed(w: World, call: Call)
    ensures var w' := Step(w, call);
            && w'.cfg == w.cfg
            && w'.self == w.self
            && w.now <= w'.now
            && (w'.now == w.now || (call.op.Advance? && w'.now == w.now + call.op.ledgers))
            && (call.op.Attest? || SameFilings(w.reg, w'.reg))
            && (call.op.Slash? || w'.reg.slashed == w.reg.slashed)
  {
    match call.op
    case Stake(v, amount) => StakingFixed(w, call.auth, v, amount);
    case RequestUnstake(v, amount) => StakingFixed(w, call.auth, v, amount);
    case Withdraw(v) => StakingFixed(w, call.auth, v, 0);
    case Attest(v, c, rebuilt) => FilingFixed(w, call.auth, v, c, rebuilt);
    case Slash(c, v) => FilingFixed(w, call.auth, v, c, ZERO);
    case _ =>
  }

  /** A token transaction goes through exactly when the token's entry point does, and leaves the token
      as that does and the registry's records alone. */
  lemma TokenTransactions(w: World, auth: set<Address>, a: Address, b: Address, c: Address, amount: i128, live: u32)
    ensures Reaches(w, Call(auth, Op.Mint(a, amount)), T.Mint(w.tok, auth, a, amount))
    ensures Reaches(w, Call(auth, Op.SetAdmin(a)), T.SetAdmin(w.tok, auth, a))
    ensures Reaches(w, Call(auth, Op.Approve(a, b, amount, live)), T.Approve(w.tok, auth, w.now, a, b, amount, live))
    ensures Reaches(w, Call(auth, Op.Transfer(a, b, amount)), T.Transfer(w.tok, auth, a, b, amount))
    ensures Reaches(w, Call(auth, Op.TransferFrom(a, b, c, amount)), T.TransferFrom(w.tok, auth, w.now, a, b, c, amount))
    ensures Reaches(w, Call(auth, Op.Burn(a, amount)), T.Burn(w.tok, auth, a, amount))
    ensures Reaches(w, Call(auth, Op.BurnFrom(a, b, amount)), T.BurnFrom(w.tok, auth, w.now, a, b, amount))
  {
    hide T.Mint, T.SetAdmin, T.Approve, T.Transfer, T.TransferFrom, T.Burn, T.BurnFrom;
  }

  predicate Reaches(w: World, call: Call, tok: Outcome<T.Token>) {
    && (Exec(w, call).Ok? <==> tok.Ok?)
    && Step(w, call) == if tok.Ok? then w.(tok := tok.value) else w
  }

  lemma {:induction false} RunFixed(w: World, calls: seq<Call>)
    ensures var w' := Run(w, calls); w'.cfg == w.cfg && w'.self == w.self && w.now <= w'.now
    decreases |calls|
  {
    if calls != [] {
      StepFixed(w, calls[0]);
      RunFixed(Step(w, calls[0]), calls[1..]);
    }
  }

  /** A run can be cut anywhere. */
  lemma {:induction false} RunCut(w: World, first: seq<Call>, second: seq<Call>)
    ensures Run(w, first + second) == Run(Run(w, first), second)
    decreases |first|
  {
    if first == [] {
      assert first + second == second;
    } else {
      assert (first + second)[1..] == first[1..] + second;
      RunCut(Step(w, first[0]), first[1..], second);
    }
  }
}
