/** The attestation outbox as a value: rows in order of their ids, and what each database call and
    each recorded attempt makes of them. */
module OutboxSpec {
  import opened Chain
  import opened RegistrySpec

  const MAX_ATTEMPTS: int := 10
  const RETRY_BASE: int := 5
  const RETRY_CAP: int := 300

  datatype Status = Pending | Submitted | Rejected

  datatype Option<+T> = None | Some(value: T)

  /** What a row's last error says. */
  datatype Reason = NoError | Refused(error: Error) | GaveUp | WillRetry

  /** One queued attestation. Its id is its position: rows are never deleted. */
  datatype Row = Row(
    verification: int,
    claim: Claim,
    rebuilt: Hash,
    status: Status,
    attempts: nat,
    lastError: Reason,
    nextAttemptAt: int)

  /** What one submission reported to the worker. */
  datatype Report = Landed | Permanent(error: Error) | Transient

  predicate Queued(rows: seq<Row>, verification: int) {
    exists i | 0 <= i < |rows| :: rows[i].verification == verification
  }

  function Enqueue(rows: seq<Row>, clock: int, verification: int, claim: Claim, rebuilt: Hash): seq<Row> {
    if Queued(rows, verification) then rows
    else rows + [Row(verification, claim, rebuilt, Pending, 0, NoError, clock)]
  }

  predicate IsDue(row: Row, clock: int) {
    row.status == Pending && row.nextAttemptAt <= clock
  }

  /** The row the worker takes next: the oldest one that is due. */
  ghost predicate IsNext(rows: seq<Row>, clock: int, id: nat) {
    && id < |rows|
    && IsDue(rows[id], clock)
    && forall j | 0 <= j < id :: !IsDue(rows[j], clock)
  }

  /** Seconds to wait after the `attempts`-th attempt: the shift is clamped, the product capped. */
  function Backoff(attempts: int): int {
    var clamped := if attempts < 1 then 1 else if attempts > 32 then 32 else attempts;
    Min(RETRY_BASE * Power(2, clamped - 1), RETRY_CAP)
  }

  function Power(b: int, n: nat): int {
    if n == 0 then 1 else b * Power(b, n - 1)
  }

  function Finish(rows: seq<Row>, id: nat, status: Status, why: Reason): seq<Row>
    requires id < |rows|
  {
    rows[id := rows[id].(status := status, lastError := why, attempts := rows[id].attempts + 1)]
  }

  function RetryLater(rows: seq<Row>, id: nat, clock: int, delay: int): seq<Row>
    requires id < |rows|
  {
    rows[id := rows[id].(lastError := WillRetry, attempts := rows[id].attempts + 1, nextAttemptAt := clock + delay)]
  }

  /** The rows once the outcome of an attempt on row `id` is written down. */
  function Record(rows: seq<Row>, id: nat, clock: int, report: Report): seq<Row>
    requires id < |rows|
  {
    match report
    case Landed => Finish(rows, id, Submitted, NoError)
    case Permanent(e) => Finish(rows, id, Rejected, Refused(e))
    case Transient =>
      var next := rows[id].attempts + 1;
      if next >= MAX_ATTEMPTS then Finish(rows, id, Rejected, GaveUp)
      else RetryLater(rows, id, clock, Backoff(next))
  }

  lemma {:induction false} PowerGrows(n: nat)
    ensures Power(2, n) >= n + 1
  {
    if n > 0 {
      PowerGrows(n - 1);
    }
  }

  lemma {:induction false} PowerMonotone(m: nat, n: nat)
    requires m <= n
    ensures Power(2, m) <= Power(2, n)
    decreases n - m
  {
    if m < n {
      PowerGrows(m);
      PowerMonotone(m + 1, n);
    }
  }

  /** The clamped, capped schedule is `min(5 * 2^(n-1), 300)` for every attempt number, and never
      shortens. */
  lemma BackoffIsCappedDoubling(n: nat)
    requires n >= 1
    ensures Backoff(n) == if 5 * Power(2, n - 1) <= 300 then 5 * Power(2, n - 1) else 300
    ensures 5 <= Backoff(n) <= Backoff(n + 1) <= 300
  {
    PowerGrows(n - 1);
    PowerMonotone(n - 1, n);
    var m: nat := if n <= 32 then n else 32;
    SixDoublings(m - 1);
    if n >= 32 {
      PowerGrows(31);
      PowerMonotone(6, 31);
      PowerMonotone(31, n - 1);
      PowerMonotone(31, n);
      SixDoublings(6);
    }
  }

  lemma SixDoublings(k: nat)
    ensures Power(2, 6) == 64
  {
    assert Power(2, 3) == 8;
    assert Power(2, 6) == 2 * (2 * (2 * Power(2, 3)));
  }

  /** What queueing does: a verification already queued changes nothing; any other gets a row at the end
      that is pending, never attempted, and due at once. */
  lemma EnqueueExact(rows: seq<Row>, clock: int, verification: int, claim: Claim, rebuilt: Hash)
    ensures var after := Enqueue(rows, clock, verification, claim, rebuilt);
            && rows <= after
            && ((exists i :: 0 <= i < |rows| && rows[i].verification == verification) <==> after == rows)
            && (after != rows ==>
                  && |after| == |rows| + 1
                  && var row := after[|rows|];
                     row.verification == verification && row.claim == claim && row.rebuilt == rebuilt
                     && row.status == Pending && row.attempts == 0 && row.lastError == NoError
                     && forall t :: IsDue(row, t) <==> t >= clock)
  {
  }

  /** What recording makes of a pending row, whatever was reported: submitted exactly for a landing,
      refused exactly for a permanent refusal, given up exactly at the tenth attempt that came to
      nothing, and otherwise pending again, due exactly once the delay has passed. */
  lemma RecordExact(rows: seq<Row>, id: nat, clock: int, report: Report)
    requires id < |rows| && rows[id].status == Pending
    ensures var was, row := rows[id], Record(rows, id, clock, report)[id];
            && row.attempts == was.attempts + 1
            && (row.status == Submitted <==> report == Landed)
            && (row.status == Submitted ==> row.lastError == NoError)
            && (forall e :: row.lastError == Refused(e) <==> report == Permanent(e))
            && (row.status == Rejected <==> report.Permanent? || (report == Transient && was.attempts + 1 >= 10))
            && (row.lastError == GaveUp <==> report == Transient && was.attempts + 1 >= 10)
            && (row.status == Pending <==> report == Transient && was.attempts + 1 < 10)
            && (row.status == Pending ==>
                  forall t :: IsDue(row, t) <==> t >= clock + if 5 * Power(2, was.attempts) <= 300 then 5 * Power(2, was.attempts) else 300)
  {
    BackoffIsCappedDoubling(rows[id].attempts + 1);
  }

  // ---- the retry budget ----------------------------------------------------------------

  /** Attempts a row still has. */
  function Left(row: Row): int {
    if row.status == Pending then MAX_ATTEMPTS - row.attempts else 0
  }

  function Budget(rows: seq<Row>): int {
    if rows == [] then 0 else Budget(rows[..|rows| - 1]) + Left(rows[|rows| - 1])
  }

  /** A pending row has at most nine recorded attempts. */
  predicate Bounded(rows: seq<Row>) {
    forall i | 0 <= i < |rows| ::
      if rows[i].status == Pending then rows[i].attempts < MAX_ATTEMPTS else 1 <= rows[i].attempts <= MAX_ATTEMPTS
  }

  lemma {:induction false} BudgetPut(rows: seq<Row>, id: nat, row: Row)
    requires id < |rows|
    ensures Budget(rows[id := row]) == Budget(rows) - Left(rows[id]) + Left(row)
    decreases |rows|
  {
    var n := |rows| - 1;
    if id == n {
      assert rows[id := row][..n] == rows[..n];
    } else {
      assert rows[id := row][..n] == rows[..n][id := row];
      BudgetPut(rows[..n], id, row);
    }
  }

  lemma {:induction false} BudgetNonNegative(rows: seq<Row>)
    requires Bounded(rows)
    ensures Budget(rows) >= 0
    decreases |rows|
  {
    if rows != [] {
      BudgetNonNegative(rows[..|rows| - 1]);
    }
  }

  /** Every recorded attempt uses up budget, whatever it reported. */
  lemma RecordSpends(rows: seq<Row>, id: nat, clock: int, report: Report)
    requires Bounded(rows) && id < |rows| && rows[id].status == Pending
    ensures Bounded(Record(rows, id, clock, report))
    ensures Budget(Record(rows, id, clock, report)) < Budget(rows)
  {
    var after := Record(rows, id, clock, report);
    assert after == rows[id := after[id]];
    BudgetPut(rows, id, after[id]);
  }

  lemma EnqueueAdds(rows: seq<Row>, clock: int, verification: int, claim: Claim, rebuilt: Hash)
    requires Bounded(rows)
    ensures var after := Enqueue(rows, clock, verification, claim, rebuilt);
            && Bounded(after)
            && Budget(after) == Budget(rows) + MAX_ATTEMPTS * (|after| - |rows|)
  {
    var after := Enqueue(rows, clock, verification, claim, rebuilt);
    assert |after| > |rows| ==> after[..|after| - 1] == rows;
  }
}

/** The outbox table, behind its mutex, and the attestor that drives it. */
module OutboxContract {
  import opened Chain
  import opened RegistrySpec
  import opened OutboxSpec

  class AttestationTable {
    var rows: seq<Row>

    constructor ()
      ensures rows == []
    {
      rows := [];
    }

    /** `INSERT OR IGNORE` on the unique verification id. */
    method EnqueueAttestation(clock: int, verification: int, claim: Claim, rebuilt: Hash) returns (id: Option<nat>)
      modifies this
      ensures rows == Enqueue(old(rows), clock, verification, claim, rebuilt)
      ensures id == if Queued(old(rows), verification) then None else Some(|old(rows)|)
    {
      for i := 0 to |rows|
        invariant rows == old(rows)
        invariant forall j | 0 <= j < i :: rows[j].verification != verification
      {
        if rows[i].verification == verification {
          return None;
        }
      }
      id := Some(|rows|);
      rows := rows + [Row(verification, claim, rebuilt, Pending, 0, NoError, clock)];
    }

    method DueAttestation(clock: int) returns (id: Option<nat>)
      ensures id.Some? ==> IsNext(rows, clock, id.value)
      ensures id.None? ==> forall i | 0 <= i < |rows| :: !IsDue(rows[i], clock)
    {
      for i := 0 to |rows|
        invariant forall j | 0 <= j < i :: !IsDue(rows[j], clock)
      {
        if IsDue(rows[i], clock) {
          return Some(i);
        }
      }
      id := None;
    }

    method FinishAttestation(id: nat, status: Status, why: Reason)
      requires id < |rows|
      modifies this
      ensures rows == Finish(old(rows), id, status, why)
    {
      rows := rows[id := rows[id].(status := status, lastError := why, attempts := rows[id].attempts + 1)];
    }

    method AttestationRetryLater(id: nat, clock: int, delay: int) returns (attempts: nat)
      requires id < |rows|
      modifies this
      ensures rows == RetryLater(old(rows), id, clock, delay)
      ensures attempts == rows[id].attempts == old(rows)[id].attempts + 1
    {
      rows := rows[id := rows[id].(lastError := WillRetry, attempts := rows[id].attempts + 1, nextAttemptAt := clock + delay)];
      attempts := rows[id].attempts;
    }
  }

  /** What the attestor makes of a finished job's report: a claim, or no claim to attest. */
  datatype FromReport = NoClaimFormed | Formed(claim: Claim, rebuilt: Hash)

  class Attestor {
    const db: AttestationTable

    constructor (db: AttestationTable)
      ensures this.db == db
    {
      this.db := db;
    }

    /** A report that forms no claim queues nothing; a failed insert is swallowed; repeating the call
        queues nothing more. */
    method Enqueue(clock: int, verification: int, report: FromReport, writes: bool)
      modifies db
      ensures report.NoClaimFormed? || !writes ==> db.rows == old(db.rows)
      ensures report.Formed? && writes ==>
                db.rows == OutboxSpec.Enqueue(old(db.rows), clock, verification, report.claim, report.rebuilt)
    {
      if report.Formed? && writes {
        var _ := db.EnqueueAttestation(clock, verification, report.claim, report.rebuilt);
      }
    }

    /** The bookkeeping after one submission. If the write fails nothing changes and the row comes
        round again. Rescheduling also reads the attempt count back: should only that read fail, the
        row is rescheduled all the same and yet the outcome is reported as not recorded. */
    method Attempt(clock: int, id: nat, report: Report, writes: bool, readsBack: bool) returns (recorded: bool)
      requires id < |db.rows|
      modifies db
      ensures db.rows == if writes then Record(old(db.rows), id, clock, report) else old(db.rows)
      ensures recorded <==> writes && (readsBack || !report.Transient? || old(db.rows)[id].attempts + 1 >= MAX_ATTEMPTS)
      ensures writes && !recorded ==> db.rows[id].status == old(db.rows)[id].status && !IsDue(db.rows[id], clock)
    {
      if !writes {
        return false;
      }
      recorded := true;
      match report {
        case Landed => db.FinishAttestation(id, Submitted, NoError);
        case Permanent(e) => db.FinishAttestation(id, Rejected, Refused(e));
        case Transient =>
          var next := db.rows[id].attempts + 1;
          if next >= MAX_ATTEMPTS {
            db.FinishAttestation(id, Rejected, GaveUp);
          } else {
            BackoffIsCappedDoubling(next);
            var _ := db.AttestationRetryLater(id, clock, Backoff(next));
            recorded := readsBack;
          }
      }
    }

    /** One turn of the worker: take the oldest due row, submit it, write down what came back. Progress
        is claimed exactly when that was written and, for a row rescheduled, its count read back. */
    method Turn(clock: int, submit: Row -> Report, writes: bool, readsBack: bool) returns (progress: bool)
      modifies db
      ensures (forall i | 0 <= i < |old(db.rows)| :: !IsDue(old(db.rows)[i], clock)) ==> db.rows == old(db.rows) && !progress
      ensures forall id: nat | IsNext(old(db.rows), clock, id) ::
                db.rows == if writes then Record(old(db.rows), id, clock, submit(old(db.rows)[id])) else old(db.rows)
      ensures forall id: nat | IsNext(old(db.rows), clock, id) ::
                progress <==>
                  writes && (readsBack || !submit(old(db.rows)[id]).Transient? || old(db.rows)[id].attempts + 1 >= MAX_ATTEMPTS)
    {
      var next := db.DueAttestation(clock);
      if next.None? {
        return false;
      }
      progress := Attempt(clock, next.value, submit(db.rows[next.value]), writes, readsBack);
    }
  }

  /** The failing outcome at a concrete input: one fresh row, a transient failure, a reschedule that is
      written and a count that is not read back. The row has changed and the answer is `false`. */
  method RescheduledYetNotRecorded(claim: Claim, rebuilt: Hash) returns (before: seq<Row>, after: seq<Row>, recorded: bool)
    ensures !recorded
    ensures before == [Row(1, claim, rebuilt, Pending, 0, NoError, 0)]
    ensures after == [Row(1, claim, rebuilt, Pending, 1, WillRetry, RETRY_BASE)]
  {
    var db := new AttestationTable();
    var attestor := new Attestor(db);
    var _ := db.EnqueueAttestation(0, 1, claim, rebuilt);
    before := db.rows;
    BackoffIsCappedDoubling(1);
    recorded := attestor.Attempt(0, 0, Transient, true, false);
    after := db.rows;
  }
}

/** The outbox, its worker and the chain together: any interleaving of enqueues, the worker's steps,
    lost outcome writes, restarts, transactions that land late, other people's transactions and
    time. */
module Delivery {
  import opened Chain
  import opened RegistrySpec
  import opened OutboxSpec
  import opened System
  import T = TokenSpec
  import Filings
  import Verdicts

  /** A transaction the verifier has signed and sent. */
  datatype Tx = Tx(claim: Claim, rebuilt: Hash)

  /** The row in the worker's hands, and what its submission reported, once it has. */
  datatype Work = Work(id: nat, report: Option<Report>)

  /** `flight` holds what was sent and may still land, or never. */
  datatype State = State(chain: World, rows: seq<Row>, flight: seq<Tx>, clock: int, busy: Option<Work>)

  /** How one submission goes. */
  datatype Fate =
    | Answered     // executed, and the answer seen
    | LandsUnseen  // executed, but the client was killed or timed out
    | Floats       // sent, and may be executed later
    | Lost         // never reached the network

  /** Anything may happen between the worker's three steps: taking a row, submitting it, and writing
      down what came back. */
  datatype Event =
    | Queue(verification: int, claim: Claim, rebuilt: Hash)
    | Take
    | Submit(fate: Fate)
    | Note(recorded: bool)
    | Restart
    | Settle(index: nat)
    | Elsewhere(call: Call)
    | Tick(seconds: nat)

  function TxOf(row: Row): Tx {
    Tx(row.claim, row.rebuilt)
  }

  function AttestCall(me: Address, tx: Tx): Call {
    Call({me}, Op.Attest(me, tx.claim, tx.rebuilt))
  }

  /** The answer the worker reads off a client that ran to its end: a contract error is permanent,
      an abort of the host is not. */
  function Answer(chain: World, me: Address, tx: Tx): Report {
    match Exec(chain, AttestCall(me, tx))
    case Ok(_) => Landed
    case Err(e) => Permanent(e)
    case Trap(_) => Transient
  }

  function AfterSubmit(s: State, me: Address, id: nat, fate: Fate): State
    requires id < |s.rows|
  {
    var tx := TxOf(s.rows[id]);
    var report := if fate.Answered? then Answer(s.chain, me, tx) else Transient;
    s.(chain := if fate.Answered? || fate.LandsUnseen? then Step(s.chain, AttestCall(me, tx)) else s.chain,
       flight := if fate.Floats? then s.flight + [tx] else s.flight,
       busy := Some(Work(id, Some(report))))
  }

  function AfterNote(s: State, id: nat, report: Report, recorded: bool): State
    requires id < |s.rows|
  {
    s.(rows := if recorded then Record(s.rows, id, s.clock, report) else s.rows, busy := None)
  }

  /** One event. `s'` is not a function of `s`: which row is next is stated, not computed. */
  ghost predicate Next(s: State, me: Address, e: Event, s': State) {
    match e
    case Queue(verification, claim, rebuilt) => s' == s.(rows := Enqueue(s.rows, s.clock, verification, claim, rebuilt))
    case Take => s.busy.None? && exists id :: IsNext(s.rows, s.clock, id) && s' == s.(busy := Some(Work(id, None)))
    case Submit(fate) =>
      && s.busy.Some? && s.busy.value.report.None? && s.busy.value.id < |s.rows|
      && s' == AfterSubmit(s, me, s.busy.value.id, fate)
    case Note(recorded) =>
      && s.busy.Some? && s.busy.value.report.Some? && s.busy.value.id < |s.rows|
      && s' == AfterNote(s, s.busy.value.id, s.busy.value.report.value, recorded)
    case Restart => s' == s.(busy := None)
    case Settle(i) =>
      && i < |s.flight|
      && s' == s.(chain := Step(s.chain, AttestCall(me, s.flight[i])), flight := s.flight[..i] + s.flight[i + 1..])
    case Elsewhere(call) => s.chain.self !in call.auth && s' == s.(chain := Step(s.chain, call))
    case Tick(n) => s' == s.(clock := s.clock + n)
  }

  /** A run: the states an interleaving passes through. */
  ghost predicate Trace(me: Address, states: seq<State>, events: seq<Event>) {
    && |states| == |events| + 1
    && forall i | 0 <= i < |events| :: Next(states[i], me, events[i], states[i + 1])
  }

  /** An empty outbox and an idle worker. */
  predicate Start(s: State) {
    s.rows == [] && s.flight == [] && s.busy.None?
  }

  /** `me` has attested the row's claim with the row's hash. */
  predicate OnChain(w: World, me: Address, row: Row) {
    (row.claim, me) in w.reg.atts && w.reg.atts[(row.claim, me)].rebuilt == row.rebuilt
  }

  /** A refusal is the truth about the chain. */
  predicate Justified(w: World, me: Address, claim: Claim, e: Error) {
    && (e == AlreadyAttested ==> (claim, me) in w.reg.atts)
    && (e == WindowClosed ==> Verdicts.Closed(w, claim))
  }

  predicate Meaningful(w: World, me: Address, row: Row) {
    && (row.status == Submitted ==> OnChain(w, me, row))
    && (row.status == Rejected ==>
          row.lastError == GaveUp || (row.lastError.Refused? && Justified(w, me, row.claim, row.lastError.error)))
  }

  /** No submitted row carries `claim`. */
  predicate Unclaimed(rows: seq<Row>, claim: Claim) {
    forall i | 0 <= i < |rows| :: rows[i].status == Submitted ==> rows[i].claim != claim
  }

  /** The worker's row is pending, and what it holds to be written is true. */
  predicate Busy(s: State) {
    s.busy.Some? ==> s.busy.value.id < |s.rows| && s.rows[s.busy.value.id].status == Pending
  }

  predicate Holding(w: World, rows: seq<Row>, me: Address, busy: Option<Work>) {
    busy.Some? && busy.value.report.Some? && busy.value.id < |rows| ==>
      var row := rows[busy.value.id];
      match busy.value.report.value
      case Landed => OnChain(w, me, row) && Unclaimed(rows, row.claim)
      case Permanent(e) => Justified(w, me, row.claim, e)
      case Transient => true
  }

  predicate RowsTrue(w: World, rows: seq<Row>, me: Address) {
    && (forall i | 0 <= i < |rows| :: Meaningful(w, me, rows[i]))
    && (forall i, j | 0 <= i < j < |rows| ::
          && rows[i].verification != rows[j].verification
          && (rows[i].status == Submitted && rows[j].status == Submitted ==> rows[i].claim != rows[j].claim))
  }

  predicate GivenUpAtTen(rows: seq<Row>) {
    forall i | 0 <= i < |rows| :: rows[i].lastError == GaveUp ==> rows[i].status == Rejected && rows[i].attempts == 10
  }

  lemma RecordKeepsTen(rows: seq<Row>, id: nat, clock: int, report: Report)
    requires GivenUpAtTen(rows) && Bounded(rows) && id < |rows| && rows[id].status == Pending
    ensures GivenUpAtTen(Record(rows, id, clock, report))
  {
    hide Record;
    RecordExact(rows, id, clock, report);
    RecordChangesOneRow(rows, id, clock, report);
  }

  /** What every event keeps. */
  ghost predicate Delivered(s: State, me: Address) {
    && Filings.Coherent(s.chain)
    && Bounded(s.rows)
    && GivenUpAtTen(s.rows)
    && RowsTrue(s.chain, s.rows, me)
    && Busy(s)
    && Holding(s.chain, s.rows, me, s.busy)
  }

  /** Chain activity of anybody takes nothing away from what the rows say. */
  lemma ChainMovesOn(w: World, me: Address, call: Call, row: Row)
    requires Filings.Coherent(w)
    ensures OnChain(w, me, row) ==> OnChain(Step(w, call), me, row)
    ensures forall e :: Justified(w, me, row.claim, e) ==> Justified(Step(w, call), me, row.claim, e)
    ensures Meaningful(w, me, row) ==> Meaningful(Step(w, call), me, row)
  {
    Filings.StepExtends(w, call, row.claim);
    StepFixed(w, call);
  }

  lemma ChainStep(s: State, me: Address, call: Call)
    requires Delivered(s, me)
    ensures Delivered(s.(chain := Step(s.chain, call)), me)
  {
    hide Exec, Step, OnChain, Justified, Meaningful, Filings.Coherent;
    Filings.StepCoherent(s.chain, call);
    forall i | 0 <= i < |s.rows|
      ensures Meaningful(Step(s.chain, call), me, s.rows[i])
    {
      ChainMovesOn(s.chain, me, call, s.rows[i]);
    }
    if s.busy.Some? {
      ChainMovesOn(s.chain, me, call, s.rows[s.busy.value.id]);
    }
  }

  /** What the worker learns from an answer is so: landed means attested now and not before; refused
      as a duplicate means attested; refused as too late means closed. */
  lemma AnswerIsTrue(chain: World, me: Address, tx: Tx)
    requires Filings.Coherent(chain)
    ensures var after := Step(chain, AttestCall(me, tx));
            match Answer(chain, me, tx)
            case Landed =>
              && (tx.claim, me) !in chain.reg.atts
              && (tx.claim, me) in after.reg.atts && after.reg.atts[(tx.claim, me)].rebuilt == tx.rebuilt
            case Permanent(e) =>
              && after == chain
              && (e == AlreadyAttested ==> (tx.claim, me) in chain.reg.atts)
              && (e == WindowClosed ==> Verdicts.Closed(chain, tx.claim))
            case Transient => after == chain
  {
  }

  /** And what the worker hears is what the registry does: a landing exactly when the verifier is active,
      has not attested the claim, and its window is open or not yet opened. */
  lemma AnswerExact(chain: World, me: Address, tx: Tx)
    requires Filings.Coherent(chain)
    ensures var active := StakeOf(chain.reg, me).staked >= chain.cfg.minStake;
            var open := tx.claim in chain.reg.openedAt ==>
                          chain.now < chain.reg.openedAt[tx.claim] + chain.cfg.attestWindow <= MAX_U32;
            && (Answer(chain, me, tx) == Landed <==> active && open && me !in AttestersOf(chain.reg, tx.claim))
            && (Answer(chain, me, tx) == Permanent(NotActive) <==> !active)
            && (Answer(chain, me, tx) == Permanent(WindowClosed) <==> active && Verdicts.Closed(chain, tx.claim))
            && (Answer(chain, me, tx) == Permanent(AlreadyAttested) <==> active && open && me in AttestersOf(chain.reg, tx.claim))
  {
    hide RegistrySpec.Attest;
    Filings.AttestExact(chain, {me}, me, tx.claim, tx.rebuilt);
    assert Filings.CoherentClaim(chain, tx.claim);
  }

  /** What each fate of a submission does: an execution, seen or not, happens on chain; only a seen one is
      reported as what it was; and what floats is executed whenever it settles, with the same effect. */
  lemma FateExact(s: State, me: Address, fate: Fate, s': State)
    requires s.busy.Some? && s.busy.value.id < |s.rows| && Next(s, me, Submit(fate), s')
    ensures var call := AttestCall(me, TxOf(s.rows[s.busy.value.id]));
            && s'.rows == s.rows && s'.clock == s.clock
            && s'.chain == (if fate == Answered || fate == LandsUnseen then Step(s.chain, call) else s.chain)
            && s'.busy == Some(Work(s.busy.value.id, Some(if fate == Answered then Answer(s.chain, me, TxOf(s.rows[s.busy.value.id])) else Transient)))
            && (fate == Floats ==> Next(s', me, Settle(|s.flight|), s'.(chain := Step(s'.chain, call), flight := s.flight)))
            && (fate != Floats ==> s'.flight == s.flight)
  {
    hide Step, Answer;
    if fate == Floats {
      var n := |s.flight|;
      assert s'.flight[..n] + s'.flight[n + 1..] == s.flight;
    }
  }

  lemma SubmitKeeps(s: State, me: Address, fate: Fate)
    requires Delivered(s, me) && s.busy.Some? && s.busy.value.report.None?
    ensures Delivered(AfterSubmit(s, me, s.busy.value.id, fate), me)
  {
    hide Exec, Step, Answer, Filings.Coherent, Verdicts.Closed;
    var row := s.rows[s.busy.value.id];
    var tx := TxOf(row);
    ChainStep(s, me, AttestCall(me, tx));
    AnswerIsTrue(s.chain, me, tx);
    if fate.Answered? && Answer(s.chain, me, tx) == Landed {
      forall i | 0 <= i < |s.rows| && s.rows[i].status == Submitted
        ensures s.rows[i].claim != row.claim
      {
        assert Meaningful(s.chain, me, s.rows[i]);
      }
    }
  }

  /** Recording touches one row, and of that row neither what was asked nor what is attested. */
  lemma RecordChangesOneRow(rows: seq<Row>, id: nat, clock: int, report: Report)
    requires id < |rows|
    ensures var after := Record(rows, id, clock, report);
            && |after| == |rows|
            && (forall j | 0 <= j < |rows| && j != id :: after[j] == rows[j])
            && after[id].verification == rows[id].verification
            && after[id].claim == rows[id].claim && after[id].rebuilt == rows[id].rebuilt
            && (after[id].status == Submitted ==> report == Landed || rows[id].status == Submitted)
            && (after[id].status == Rejected && rows[id].status == Pending ==>
                  after[id].lastError == match report case Permanent(e) => Refused(e) case _ => GaveUp)
  {
  }

  /** Writing down a true report keeps the rows true. */
  lemma RecordKeepsTrue(w: World, rows: seq<Row>, me: Address, id: nat, clock: int, report: Report)
    requires RowsTrue(w, rows, me) && id < |rows| && rows[id].status == Pending
    requires Holding(w, rows, me, Some(Work(id, Some(report))))
    ensures RowsTrue(w, Record(rows, id, clock, report), me)
  {
    hide Record, OnChain, Justified;
    RecordChangesOneRow(rows, id, clock, report);
    var after := Record(rows, id, clock, report);
    MeansTheSame(w, me, rows[id], after[id]);
    forall i | 0 <= i < |after|
      ensures Meaningful(w, me, after[i])
    {
      assert Meaningful(w, me, rows[i]);
    }
  }

  lemma MeansTheSame(w: World, me: Address, row: Row, row': Row)
    requires row'.claim == row.claim && row'.rebuilt == row.rebuilt
    ensures OnChain(w, me, row') <==> OnChain(w, me, row)
  {
  }

  lemma NoteKeeps(s: State, me: Address, recorded: bool)
    requires Delivered(s, me) && s.busy.Some? && s.busy.value.report.Some?
    ensures Delivered(AfterNote(s, s.busy.value.id, s.busy.value.report.value, recorded), me)
  {
    hide Record, Filings.Coherent, RowsTrue, GivenUpAtTen, Bounded;
    RecordKeepsTen(s.rows, s.busy.value.id, s.clock, s.busy.value.report.value);
    RecordSpends(s.rows, s.busy.value.id, s.clock, s.busy.value.report.value);
    RecordKeepsTrue(s.chain, s.rows, me, s.busy.value.id, s.clock, s.busy.value.report.value);
  }

  /** Rows added at the end, not yet attempted, are true. */
  lemma QueueKeepsTrue(w: World, me: Address, rows: seq<Row>, clock: int, verification: int, claim: Claim, rebuilt: Hash)
    requires RowsTrue(w, rows, me)
    ensures var after := Enqueue(rows, clock, verification, claim, rebuilt);
            && RowsTrue(w, after, me)
            && rows <= after
            && (GivenUpAtTen(rows) ==> GivenUpAtTen(after))
            && forall i | |rows| <= i < |after| :: after[i].status == Pending
  {
    hide OnChain, Justified;
    var after := Enqueue(rows, clock, verification, claim, rebuilt);
    forall i | 0 <= i < |after|
      ensures Meaningful(w, me, after[i])
    {
      assert i < |rows| ==> Meaningful(w, me, rows[i]);
    }
  }

  /** Writing down what the worker holds: a landing leaves the row submitted, a refusal leaves it
      rejected, and anything else either pending or, at the tenth attempt, given up. */
  lemma NoteExact(s: State, me: Address, s': State)
    requires Busy(s) && Next(s, me, Note(true), s')
    ensures var id, report := s.busy.value.id, s.busy.value.report.value;
            && s'.busy.None? && |s'.rows| == |s.rows|
            && s'.rows[id].attempts == s.rows[id].attempts + 1
            && (s'.rows[id].status == Submitted <==> report == Landed)
            && (s'.rows[id].status == Rejected <==> report.Permanent? || (report == Transient && s.rows[id].attempts + 1 >= 10))
            && (forall j | 0 <= j < |s.rows| && j != id :: s'.rows[j] == s.rows[j])
  {
    hide Record;
    var id, report := s.busy.value.id, s.busy.value.report.value;
    RecordExact(s.rows, id, s.clock, report);
    RecordChangesOneRow(s.rows, id, s.clock, report);
  }

  lemma QueueKeeps(s: State, me: Address, verification: int, claim: Claim, rebuilt: Hash)
    requires Delivered(s, me)
    ensures Delivered(s.(rows := Enqueue(s.rows, s.clock, verification, claim, rebuilt)), me)
  {
    hide Filings.Coherent, OnChain, Justified, Enqueue, RowsTrue;
    EnqueueAdds(s.rows, s.clock, verification, claim, rebuilt);
    QueueKeepsTrue(s.chain, me, s.rows, s.clock, verification, claim, rebuilt);
  }

  lemma NextKeeps(s: State, me: Address, e: Event, s': State)
    requires Delivered(s, me) && Next(s, me, e, s')
    ensures Delivered(s', me)
  {
    hide Exec, Step, AfterSubmit, AfterNote, Enqueue, Filings.Coherent, RowsTrue;
    match e
    case Queue(verification, claim, rebuilt) => QueueKeeps(s, me, verification, claim, rebuilt);
    case Submit(fate) => SubmitKeeps(s, me, fate);
    case Note(recorded) => NoteKeeps(s, me, recorded);
    case Settle(i) => ChainStep(s, me, AttestCall(me, s.flight[i]));
    case Elsewhere(call) => ChainStep(s, me, call);
    case _ =>
  }

  lemma NextStaysBusy(s: State, me: Address, e: Event, s': State)
    requires Busy(s) && Next(s, me, e, s')
    ensures Busy(s')
  {
    hide Exec, Step, Answer, Record;
  }

  /** A row that is submitted or rejected is never taken again and never changes; a row never loses
      its verification, claim or hash. */
  lemma NextSettlesRows(s: State, me: Address, e: Event, s': State)
    requires Busy(s) && Next(s, me, e, s')
    ensures |s.rows| <= |s'.rows|
    ensures forall i | 0 <= i < |s.rows| ::
              && (s.rows[i].status != Pending ==> s'.rows[i] == s.rows[i])
              && s'.rows[i].verification == s.rows[i].verification
              && s'.rows[i].claim == s.rows[i].claim && s'.rows[i].rebuilt == s.rows[i].rebuilt
  {
    hide Exec, Step, Answer;
  }

  lemma {:induction false} RunSettlesRows(me: Address, states: seq<State>, events: seq<Event>, k: nat)
    requires Trace(me, states, events) && k <= |events|
    requires forall i | 0 <= i < |states| :: Busy(states[i])
    ensures var s, s' := states[k], states[|events|];
            && |s.rows| <= |s'.rows|
            && forall i | 0 <= i < |s.rows| :: s.rows[i].status != Pending ==> s'.rows[i] == s.rows[i]
    decreases |events| - k
  {
    hide Next, Busy;
    if k < |events| {
      NextSettlesRows(states[k], me, events[k], states[k + 1]);
      RunSettlesRows(me, states, events, k + 1);
    }
  }

  lemma {:induction false} RunStaysBusy(me: Address, states: seq<State>, events: seq<Event>, k: nat)
    requires Trace(me, states, events) && Busy(states[0]) && k <= |events|
    ensures Busy(states[k])
    decreases k
  {
    hide Next, Busy;
    if k > 0 {
      RunStaysBusy(me, states, events, k - 1);
      NextStaysBusy(states[k - 1], me, events[k - 1], states[k]);
    }
  }

  lemma {:induction false} RunKeeps(me: Address, states: seq<State>, events: seq<Event>, k: nat)
    requires Trace(me, states, events) && Delivered(states[0], me) && k <= |events|
    ensures Delivered(states[k], me)
    decreases k
  {
    hide Next, Delivered;
    if k > 0 {
      RunKeeps(me, states, events, k - 1);
      NextKeeps(states[k - 1], me, events[k - 1], states[k]);
    }
  }

  lemma StartIsDelivered(s: State, me: Address)
    requires Start(s) && Filings.Coherent(s.chain)
    ensures Delivered(s, me)
  {
  }

  /** Exactly once, whatever crashes: in every run from an empty outbox, every submitted row's claim
      is on chain with the hash the row carries; no two rows stand for one verification and no two
      submitted rows carry the same claim; the chain lists the verifier at most once a claim; a row
      refused as a duplicate has its claim on chain; a row given up on was attempted ten times; and a
      row that is no longer pending stays as it is for the rest of the run. */
  lemma ExactlyOnce(me: Address, states: seq<State>, events: seq<Event>, k: nat)
    requires Trace(me, states, events) && Start(states[0]) && Filings.Coherent(states[0].chain)
    requires k <= |events|
    ensures var s := states[k];
            && (forall i | 0 <= i < |s.rows| && s.rows[i].status == Submitted :: OnChain(s.chain, me, s.rows[i]))
            && (forall i, j | 0 <= i < j < |s.rows| ::
                  && s.rows[i].verification != s.rows[j].verification
                  && (s.rows[i].status == Submitted && s.rows[j].status == Submitted ==> s.rows[i].claim != s.rows[j].claim))
            && (forall i | 0 <= i < |s.rows| ::
                  s.rows[i].status == Rejected && s.rows[i].lastError == Refused(AlreadyAttested) ==> (s.rows[i].claim, me) in s.chain.reg.atts)
            && (forall i | 0 <= i < |s.rows| && s.rows[i].lastError == GaveUp :: s.rows[i].status == Rejected && s.rows[i].attempts == 10)
            && (forall c :: Filings.Distinct(AttestersOf(s.chain.reg, c)))
            && |s.rows| <= |states[|events|].rows|
            && (forall i | 0 <= i < |s.rows| && s.rows[i].status != Pending ::
                  states[|events|].rows[i] == s.rows[i] && !IsDue(s.rows[i], s.clock))
  {
    hide Next, OnChain;
    StartIsDelivered(states[0], me);
    RunKeeps(me, states, events, k);
    forall i | 0 <= i < |states|
      ensures Busy(states[i])
    {
      RunStaysBusy(me, states, events, i);
    }
    RunSettlesRows(me, states, events, k);
    var s := states[k];
    forall i | 0 <= i < |s.rows|
      ensures Meaningful(s.chain, me, s.rows[i])
    {
    }
    forall c
      ensures Filings.Distinct(AttestersOf(s.chain.reg, c))
    {
      assert Filings.CoherentClaim(s.chain, c);
    }
  }

  // ---- retries end ---------------------------------------------------------------------

  /** Attempts whose outcome was written down. */
  function Recorded(events: seq<Event>): nat {
    if events == [] then 0
    else Recorded(events[..|events| - 1]) + if events[|events| - 1] == Note(true) then 1 else 0
  }

  lemma NextSpends(s: State, me: Address, e: Event, s': State)
    requires Bounded(s.rows) && Busy(s) && Next(s, me, e, s')
    ensures Bounded(s'.rows)
    ensures Budget(s'.rows) <= Budget(s.rows) + MAX_ATTEMPTS * (|s'.rows| - |s.rows|) - if e == Note(true) then 1 else 0
  {
    hide Exec, Step, Budget, Record, Bounded, Answer;
    match e
    case Queue(verification, claim, rebuilt) => EnqueueAdds(s.rows, s.clock, verification, claim, rebuilt);
    case Note(recorded) =>
      RecordSpends(s.rows, s.busy.value.id, s.clock, s.busy.value.report.value);
      RecordChangesOneRow(s.rows, s.busy.value.id, s.clock, s.busy.value.report.value);
    case _ =>
  }

  lemma {:induction false} RunSpends(me: Address, states: seq<State>, events: seq<Event>)
    requires Trace(me, states, events) && Bounded(states[0].rows) && Busy(states[0])
    ensures Bounded(states[|events|].rows)
    ensures Recorded(events) + Budget(states[|events|].rows) <=
            Budget(states[0].rows) + MAX_ATTEMPTS * (|states[|events|].rows| - |states[0].rows|)
    decreases |events|
  {
    hide Next, Bounded, Budget, Busy;
    var n := |events|;
    if n > 0 {
      RunSpends(me, states[..n], events[..n - 1]);
      assert states[..n][n - 1] == states[n - 1];
      RunStaysBusy(me, states, events, n - 1);
      NextSpends(states[n - 1], me, events[n - 1], states[n]);
    }
  }

  /** Retrying ends: from an empty outbox at most ten attempts are ever recorded for each row
      queued, so an endpoint that never answers is not asked forever. */
  lemma RetriesEnd(me: Address, states: seq<State>, events: seq<Event>)
    requires Trace(me, states, events) && Start(states[0])
    ensures Recorded(events) <= 10 * |states[|events|].rows|
    ensures forall i | 0 <= i < |states[|events|].rows| ::
              states[|events|].rows[i].status == Pending ==> states[|events|].rows[i].attempts <= 9
  {
    hide Next;
    RunSpends(me, states, events);
    BudgetNonNegative(states[|events|].rows);
  }

  /** The worker's own steps, and time. */
  predicate Working(e: Event) {
    e.Take? || e.Submit? || e.Note? || e.Tick?
  }

  predicate SomeDue(s: State) {
    exists i :: 0 <= i < |s.rows| && IsDue(s.rows[i], s.clock)
  }

  predicate SomePending(rows: seq<Row>) {
    exists i :: 0 <= i < |rows| && rows[i].status == Pending
  }

  /** Steps already taken towards the next recorded attempt. */
  function Progress(s: State): nat {
    if s.busy.Some? then (if s.busy.value.report.Some? then 3 else 2) else if SomeDue(s) then 1 else 0
  }

  lemma {:induction false} FirstDue(rows: seq<Row>, clock: int, n: nat) returns (id: nat)
    requires n < |rows| && IsDue(rows[n], clock)
    ensures IsNext(rows, clock, id)
  {
    id := n;
    if j :| 0 <= j < n && IsDue(rows[j], clock) {
      id := FirstDue(rows, clock, j);
    }
  }

  lemma {:induction false} PendingLeaves(rows: seq<Row>, i: nat)
    requires Bounded(rows) && i < |rows| && rows[i].status == Pending
    ensures Budget(rows) >= 1
    decreases |rows|
  {
    var n := |rows| - 1;
    if i < n {
      PendingLeaves(rows[..n], i);
    } else {
      BudgetNonNegative(rows[..n]);
    }
  }

  lemma TraceCons(me: Address, s: State, e: Event, states: seq<State>, events: seq<Event>)
    requires Trace(me, states, events) && Next(s, me, e, states[0])
    ensures Trace(me, [s] + states, [e] + events)
  {
    hide Next;
    forall i | 0 <= i < |events| + 1
      ensures Next(([s] + states)[i], me, ([e] + events)[i], ([s] + states)[i + 1])
    {
      if i > 0 {
        assert Next(states[i - 1], me, events[i - 1], states[i]);
      }
    }
  }

  /** The next of the worker's steps while a row is pending: it keeps what the schedule needs, and
      either records an attempt or gets one step closer to it. */
  lemma WorkerStep(me: Address, s: State, fate: Fate) returns (e: Event, s': State)
    requires Bounded(s.rows) && Busy(s) && (s.busy.Some? || SomePending(s.rows))
    ensures Next(s, me, e, s') && Working(e) && Bounded(s'.rows) && Busy(s') && |s'.rows| == |s.rows|
    ensures (e.Submit? ==> e.fate == fate) && (e.Note? ==> e.recorded)
    ensures Budget(s.rows) >= 1
    ensures if e.Note? then Budget(s'.rows) < Budget(s.rows) && Progress(s) == 3
            else Budget(s'.rows) == Budget(s.rows) && Progress(s') == Progress(s) + 1
  {
    hide Budget, Record, Bounded, Exec, Step, Answer;
    if s.busy.Some? {
      var id := s.busy.value.id;
      PendingLeaves(s.rows, id);
      if s.busy.value.report.Some? {
        var report := s.busy.value.report.value;
        RecordSpends(s.rows, id, s.clock, report);
        RecordChangesOneRow(s.rows, id, s.clock, report);
        e, s' := Note(true), AfterNote(s, id, report, true);
      } else {
        e, s' := Submit(fate), AfterSubmit(s, me, id, fate);
      }
    } else {
      var i :| 0 <= i < |s.rows| && s.rows[i].status == Pending;
      PendingLeaves(s.rows, i);
      if SomeDue(s) {
        var n :| 0 <= n < |s.rows| && IsDue(s.rows[n], s.clock);
        var id := FirstDue(s.rows, s.clock, n);
        e, s' := Take, s.(busy := Some(Work(id, None)));
      } else {
        var wait := s.rows[i].nextAttemptAt - s.clock;
        e, s' := Tick(wait), s.(clock := s.clock + wait);
        assert IsDue(s'.rows[i], s'.clock);
      }
    }
  }

  /** The outbox can always be emptied: from every state, whatever fate each submission meets, as long
      as outcomes are written down, the worker's own steps bring every row to its end, four for each
      attempt the rows have left at the most. */
  lemma {:induction false} RowsCanFinish(me: Address, s: State, fate: State -> Fate) returns (states: seq<State>, events: seq<Event>)
    requires Bounded(s.rows) && Busy(s)
    ensures Trace(me, states, events) && states[0] == s
    ensures forall i | 0 <= i < |events| ::
              Working(events[i]) && (events[i].Submit? ==> events[i].fate == fate(states[i])) && (events[i].Note? ==> events[i].recorded)
    ensures |events| + Progress(s) <= 4 * Budget(s.rows)
    ensures var last := states[|events|];
            last.busy.None? && !SomePending(last.rows) && |last.rows| == |s.rows|
    decreases 4 * Budget(s.rows) - Progress(s)
  {
    hide Next, Budget, Bounded, Busy;
    BudgetNonNegative(s.rows);
    if s.busy.None? && !SomePending(s.rows) {
      states, events := [s], [];
    } else {
      var e, s' := WorkerStep(me, s, fate(s));
      BudgetNonNegative(s'.rows);
      var rest, more := RowsCanFinish(me, s', fate);
      TraceCons(me, s, e, rest, more);
      states, events := [s] + rest, [e] + more;
    }
  }

  // ---- a landing that goes unseen ------------------------------------------------------

  /** The answer to a retry of an attestation that already landed. It is never a second landing; it
      says "already attested" exactly while the verifier is still active and the window still open,
      because the registry checks those two first. Otherwise the row ends as rejected for another
      reason although its claim is on chain. */
  lemma RetryOfALanding(chain: World, me: Address, tx: Tx)
    requires Filings.Coherent(chain) && (tx.claim, me) in chain.reg.atts
    ensures Answer(chain, me, tx) != Landed
    ensures Step(chain, AttestCall(me, tx)) == chain
    ensures tx.claim in chain.reg.openedAt
    ensures Answer(chain, me, tx) == Permanent(AlreadyAttested) <==>
              && StakeOf(chain.reg, me).staked >= chain.cfg.minStake
              && chain.now < chain.reg.openedAt[tx.claim] + chain.cfg.attestWindow <= MAX_U32
    ensures Answer(chain, me, tx) == Permanent(NotActive) <==> StakeOf(chain.reg, me).staked < chain.cfg.minStake
    ensures Answer(chain, me, tx) == Permanent(WindowClosed) <==>
              StakeOf(chain.reg, me).staked >= chain.cfg.minStake && Verdicts.Closed(chain, tx.claim)
  {
    assert Filings.CoherentClaim(chain, tx.claim);
  }

  /** `me` can attest the unopened claim `c`, and there is time for its window. */
  predicate Ready(w: World, me: Address, c: Claim) {
    && w.self != me
    && StakeOf(w.reg, me).staked >= w.cfg.minStake
    && c !in w.reg.openedAt && (c, me) !in w.reg.atts
    && w.now + w.cfg.attestWindow <= MAX_U32
  }

  /** The other answer is reached from every chain on which the verifier can attest: the attestation
      lands unseen, the window closes, and the retry is refused as too late. The row ends as rejected
      for that reason although its claim is on chain with its hash. */
  lemma LateRetryIsRejected(w: World, me: Address, c: Claim, rebuilt: Hash) returns (states: seq<State>, events: seq<Event>)
    requires Filings.Coherent(w) && Ready(w, me, c)
    ensures Trace(me, states, events) && Start(states[0]) && states[0].chain == w
    ensures var s := states[|events|];
            && |s.rows| == 1
            && s.rows[0].claim == c && s.rows[0].rebuilt == rebuilt
            && s.rows[0].status == Rejected && s.rows[0].lastError == Refused(WindowClosed)
            && OnChain(s.chain, me, s.rows[0])
  {
    hide Exec, Step, Answer, Next, Filings.Coherent;
    var row := Row(1, c, rebuilt, Pending, 0, NoError, 0);
    var late := row.(attempts := 1, lastError := WillRetry, nextAttemptAt := RETRY_BASE);
    var done := late.(status := Rejected, attempts := 2, lastError := Refused(WindowClosed));
    var w1 := Step(w, AttestCall(me, Tx(c, rebuilt)));
    var close := Call({}, Op.Advance(w.cfg.attestWindow));
    var w2 := Step(w1, close);
    FirstLands(w, me, Tx(c, rebuilt));
    events := [Queue(1, c, rebuilt), Take, Submit(LandsUnseen), Note(true), Elsewhere(close), Tick(RETRY_BASE),
               Take, Submit(Answered), Note(true)];
    var s0 := State(w, [], [], 0, None);
    var s1 := s0.(rows := [row]);
    var s2 := s1.(busy := Some(Work(0, None)));
    var s3 := s2.(chain := w1, busy := Some(Work(0, Some(Transient))));
    var s4 := s3.(rows := [late], busy := None);
    var s5 := s4.(chain := w2);
    var s6 := s5.(clock := RETRY_BASE);
    var s7 := s6.(busy := Some(Work(0, None)));
    var s8 := s7.(busy := Some(Work(0, Some(Permanent(WindowClosed)))));
    var s9 := s8.(rows := [done], busy := None);
    states := [s0, s1, s2, s3, s4, s5, s6, s7, s8, s9];
    FirstHalf(me, s0, s1, s2, s3, s4, row, late);
    SecondHalf(me, s4, s5, s6, s7, s8, s9, close, late, done);
  }

  lemma FirstLands(w: World, me: Address, tx: Tx)
    requires Filings.Coherent(w) && Ready(w, me, tx.claim)
    ensures var w1 := Step(w, AttestCall(me, tx));
            var w2 := Step(w1, Call({}, Op.Advance(w.cfg.attestWindow)));
            && w1.self == w.self && (tx.claim, me) in w1.reg.atts && w1.reg.atts[(tx.claim, me)].rebuilt == tx.rebuilt
            && w2.reg == w1.reg
            && Answer(w2, me, tx) == Permanent(WindowClosed) && Step(w2, AttestCall(me, tx)) == w2
  {
    assert Filings.CoherentClaim(w, tx.claim);
  }

  lemma FirstHalf(me: Address, s0: State, s1: State, s2: State, s3: State, s4: State, row: Row, late: Row)
    requires Start(s0) && s0.clock == 0
    requires row == Row(1, row.claim, row.rebuilt, Pending, 0, NoError, 0)
    requires late == row.(attempts := 1, lastError := WillRetry, nextAttemptAt := RETRY_BASE)
    requires s1 == s0.(rows := [row]) && s2 == s1.(busy := Some(Work(0, None)))
    requires s3 == s2.(chain := Step(s0.chain, AttestCall(me, TxOf(row))), busy := Some(Work(0, Some(Transient))))
    requires s4 == s3.(rows := [late], busy := None)
    ensures Next(s0, me, Queue(1, row.claim, row.rebuilt), s1)
    ensures Next(s1, me, Take, s2) && Next(s2, me, Submit(LandsUnseen), s3) && Next(s3, me, Note(true), s4)
  {
    hide Exec, Step;
    BackoffIsCappedDoubling(1);
    assert IsNext(s1.rows, s1.clock, 0);
  }

  lemma SecondHalf(me: Address, s4: State, s5: State, s6: State, s7: State, s8: State, s9: State, close: Call, late: Row, done: Row)
    requires s4.rows == [late] && s4.busy.None? && s4.clock == 0 && s4.chain.self !in close.auth
    requires late.status == Pending && late.attempts == 1 && late.nextAttemptAt == RETRY_BASE
    requires done == late.(status := Rejected, attempts := 2, lastError := Refused(WindowClosed))
    requires s5 == s4.(chain := Step(s4.chain, close)) && s6 == s5.(clock := RETRY_BASE)
    requires s7 == s6.(busy := Some(Work(0, None)))
    requires s8 == s7.(busy := Some(Work(0, Some(Permanent(WindowClosed))))) && s9 == s8.(rows := [done], busy := None)
    requires Answer(s5.chain, me, TxOf(late)) == Permanent(WindowClosed) && Step(s5.chain, AttestCall(me, TxOf(late))) == s5.chain
    ensures Next(s4, me, Elsewhere(close), s5) && Next(s5, me, Tick(RETRY_BASE), s6) && Next(s6, me, Take, s7)
    ensures Next(s7, me, Submit(Answered), s8) && Next(s8, me, Note(true), s9)
  {
    hide Exec, Step, Answer;
    assert IsNext(s6.rows, s6.clock, 0);
  }

  /** And the run that goes well: from every chain on which the verifier can attest, the row is queued,
      taken, submitted and answered, and ends as submitted with its claim on chain. */
  lemma PromptAttemptIsSubmitted(w: World, me: Address, c: Claim, rebuilt: Hash) returns (states: seq<State>, events: seq<Event>)
    requires Filings.Coherent(w) && Ready(w, me, c)
    ensures Trace(me, states, events) && Start(states[0]) && states[0].chain == w
    ensures var s := states[|events|];
            && |s.rows| == 1
            && s.rows[0].claim == c && s.rows[0].rebuilt == rebuilt && s.rows[0].status == Submitted
            && OnChain(s.chain, me, s.rows[0])
  {
    hide Exec, Step, Answer, Filings.Coherent;
    var row := Row(1, c, rebuilt, Pending, 0, NoError, 0);
    var tx := Tx(c, rebuilt);
    FirstLands(w, me, tx);
    AnswerExact(w, me, tx);
    Unattested(w, me, c);
    events := [Queue(1, c, rebuilt), Take, Submit(Answered), Note(true)];
    var s0 := State(w, [], [], 0, None);
    var s1 := s0.(rows := [row]);
    var s2 := s1.(busy := Some(Work(0, None)));
    var s3 := s2.(chain := Step(w, AttestCall(me, tx)), busy := Some(Work(0, Some(Landed))));
    var s4 := s3.(rows := [row.(status := Submitted, attempts := 1)], busy := None);
    states := [s0, s1, s2, s3, s4];
    assert IsNext(s1.rows, s1.clock, 0);
    assert Next(s0, me, events[0], s1) && Next(s1, me, events[1], s2) && Next(s2, me, events[2], s3) && Next(s3, me, events[3], s4);
  }

  lemma Unattested(w: World, me: Address, c: Claim)
    requires Filings.Coherent(w) && Ready(w, me, c)
    ensures me !in AttestersOf(w.reg, c)
  {
    assert Filings.CoherentClaim(w, c);
  }

  /** Such a chain is two transactions away from a fresh deployment: the administrator mints the minimum
      stake to the verifier, who stakes it. */
  lemma ReadyIsReached(cfg: Config, self: Address, me: Address, now: nat, c: Claim)
    requires ValidConfig(cfg) && now + cfg.attestWindow <= MAX_U32 && me != self
    ensures var w := Run(Genesis(cfg, self, me, now), [Call({me}, Op.Mint(me, cfg.minStake)), Call({me}, Op.Stake(me, cfg.minStake))]);
            Filings.Coherent(w) && Ready(w, me, c)
  {
    var g := Genesis(cfg, self, me, now);
    var mint, stake := Call({me}, Op.Mint(me, cfg.minStake)), Call({me}, Op.Stake(me, cfg.minStake));
    var calls := [mint, stake];
    Filings.GenesisCoherent(cfg, self, me, now);
    Filings.RunExtends(g, calls, c);
    assert calls[1..] == [stake] && [stake][1..] == [];
    var w1 := g.(tok := g.tok.(balances := map[me := cfg.minStake]));
    assert Step(g, mint) == w1;
    assert Step(w1, stake).reg == g.reg.(stakes := map[me := StakeInfo(cfg.minStake, 0, 0)]);
    assert Run(w1, [stake]) == Run(Step(w1, stake), []) == Step(w1, stake);
    assert Run(g, calls) == Run(w1, [stake]);
  }
}
