/** The service as a whole: its jobs, its outbox, and the chain. What stands on chain in its verifier's
    name comes from a report. */
module Provenance {
  import opened Chain
  import opened RegistrySpec
  import opened OutboxSpec
  import opened System
  import D = Delivery
  import F = Filings
  import J = JobsSpec

  datatype Service = Service(jobs: J.State, out: D.State)

  /** `claims` says, of each job, what its report forms, if it forms a claim. */
  type Claims = nat -> D.Tx

  datatype Event = Job(job: J.Event) | Outbox(outbox: D.Event)

  /** The job takes the step that queues its attestation, and the insert succeeds. */
  predicate Enqueues(s: J.State, e: J.Event) {
    && e.Advance? && e.index < |s.tasks| && s.tasks[e.index].Written? && e.ok
    && s.tasks[e.index].outcome.Reported? && s.tasks[e.index].outcome.formsClaim
  }

  function AfterJob(claims: Claims, s: Service, e: J.Event): D.State {
    if e.Restart? then s.out.(busy := None)
    else if Enqueues(s.jobs, e) then
      var id := s.jobs.tasks[e.index].id;
      s.out.(rows := Enqueue(s.out.rows, s.out.clock, id, claims(id).claim, claims(id).rebuilt))
    else s.out
  }

  /** One event of either. Rows are queued by jobs alone, and nobody else has the verifier's key. */
  ghost predicate Next(me: Address, claims: Claims, s: Service, e: Event, s': Service) {
    match e
    case Job(j) => s' == Service(J.Next(s.jobs, j), AfterJob(claims, s, j))
    case Outbox(o) =>
      && !o.Queue? && !o.Restart? && (o.Elsewhere? ==> me !in o.call.auth)
      && s'.jobs == s.jobs && D.Next(s.out, me, o, s'.out)
  }

  ghost predicate Trace(me: Address, claims: Claims, states: seq<Service>, events: seq<Event>) {
    && |states| == |events| + 1
    && forall i | 0 <= i < |events| :: Next(me, claims, states[i], events[i], states[i + 1])
  }

  /** A fresh service whose verifier has attested nothing. */
  ghost predicate Start(me: Address, s: Service) {
    && s.jobs == J.EMPTY && D.Start(s.out) && F.Coherent(s.out.chain)
    && forall c :: (c, me) !in s.out.chain.reg.atts
  }

  /** The row was queued by a job, for the claim its report forms. */
  predicate FromJob(queued: set<nat>, claims: Claims, row: Row) {
    row.verification >= 0 && row.verification in queued && D.TxOf(row) == claims(row.verification)
  }

  predicate FromRow(rows: seq<Row>, tx: D.Tx) {
    exists i :: 0 <= i < |rows| && D.TxOf(rows[i]) == tx
  }

  /** Every transaction sent, and every attestation of the verifier, carries what some row carries. */
  ghost predicate Sourced(w: World, me: Address, rows: seq<Row>, flight: seq<D.Tx>) {
    && (forall i | 0 <= i < |flight| :: FromRow(rows, flight[i]))
    && (forall c | (c, me) in w.reg.atts :: FromRow(rows, D.Tx(c, w.reg.atts[(c, me)].rebuilt)))
  }

  ghost predicate Kept(me: Address, claims: Claims, s: Service) {
    && J.Orderly(s.jobs)
    && D.Delivered(s.out, me)
    && (forall i | 0 <= i < |s.out.rows| :: FromJob(s.jobs.queued, claims, s.out.rows[i]))
    && Sourced(s.out.chain, me, s.out.rows, s.out.flight)
  }

  lemma QueuedGrows(s: J.State, e: J.Event)
    ensures s.queued <= J.Next(s, e).queued
    ensures Enqueues(s, e) ==> s.tasks[e.index].id in J.Next(s, e).queued
  {
  }

  /** A transaction adds no attestation of the verifier but the one it was signed for. */
  lemma StepSourced(w: World, me: Address, call: Call, rows: seq<Row>, flight: seq<D.Tx>)
    requires F.Coherent(w) && Sourced(w, me, rows, flight)
    requires me in call.auth ==> exists tx :: FromRow(rows, tx) && call == D.AttestCall(me, tx)
    ensures Sourced(Step(w, call), me, rows, flight)
  {
    hide FromRow, Exec;
    var w' := Step(w, call);
    forall c | (c, me) in w'.reg.atts
      ensures FromRow(rows, D.Tx(c, w'.reg.atts[(c, me)].rebuilt))
    {
      if (c, me) in w.reg.atts {
        F.StepExtends(w, call, c);
      } else {
        NewAttestation(w, call, c, me);
      }
    }
  }

  lemma NewAttestation(w: World, call: Call, c: Claim, v: Address)
    requires F.Coherent(w) && (c, v) in Step(w, call).reg.atts && (c, v) !in w.reg.atts
    ensures v in call.auth && call.op == Op.Attest(v, c, Step(w, call).reg.atts[(c, v)].rebuilt)
  {
    StepFixed(w, call);
    if call.op.Attest? && Exec(w, call).Ok? {
      F.AttestEffect(w, call.auth, call.op.verifier, call.op.claim, call.op.rebuilt);
    }
  }

  /** The same rows, or more, are still where everything comes from. */
  lemma MoreRowsSource(w: World, me: Address, rows: seq<Row>, more: seq<Row>, flight: seq<D.Tx>)
    requires Sourced(w, me, rows, flight) && |rows| <= |more|
    requires forall i | 0 <= i < |rows| :: D.TxOf(more[i]) == D.TxOf(rows[i])
    ensures Sourced(w, me, more, flight)
  {
    forall tx | FromRow(rows, tx)
      ensures FromRow(more, tx)
    {
      var i :| 0 <= i < |rows| && D.TxOf(rows[i]) == tx;
      assert D.TxOf(more[i]) == tx;
    }
  }

  lemma OutboxSourced(me: Address, s: D.State, e: D.Event, s': D.State)
    requires D.Delivered(s, me) && D.Next(s, me, e, s') && !e.Queue? && (e.Elsewhere? ==> me !in e.call.auth)
    requires Sourced(s.chain, me, s.rows, s.flight)
    ensures Sourced(s'.chain, me, s'.rows, s'.flight)
  {
    hide Sourced, Exec, Step, Record, F.Coherent, D.RowsTrue, D.Holding, D.Answer;
    match e
    case Submit(fate) =>
      var id := s.busy.value.id;
      var tx := D.TxOf(s.rows[id]);
      assert FromRow(s.rows, tx);
      StepSourced(s.chain, me, D.AttestCall(me, tx), s.rows, s.flight);
      FlightGrows(s.chain, me, s.rows, s.flight, tx);
    case Note(recorded) =>
      var work := s.busy.value;
      D.RecordChangesOneRow(s.rows, work.id, s.clock, work.report.value);
      MoreRowsSource(s.chain, me, s.rows, s'.rows, s.flight);
    case Settle(i) =>
      FlightLands(s.chain, me, s.rows, s.flight, i);
      StepSourced(s.chain, me, D.AttestCall(me, s.flight[i]), s.rows, s'.flight);
    case Elsewhere(call) => StepSourced(s.chain, me, call, s.rows, s.flight);
    case _ =>
  }

  lemma FlightGrows(w: World, me: Address, rows: seq<Row>, flight: seq<D.Tx>, tx: D.Tx)
    requires Sourced(w, me, rows, flight) && FromRow(rows, tx)
    ensures Sourced(w, me, rows, flight + [tx])
  {
  }

  lemma FlightLands(w: World, me: Address, rows: seq<Row>, flight: seq<D.Tx>, i: nat)
    requires Sourced(w, me, rows, flight) && i < |flight|
    ensures FromRow(rows, flight[i]) && Sourced(w, me, rows, flight[..i] + flight[i + 1..])
  {
  }

  lemma JobKeeps(me: Address, claims: Claims, s: Service, j: J.Event, s': Service)
    requires Kept(me, claims, s) && s' == Service(J.Next(s.jobs, j), AfterJob(claims, s, j))
    ensures Kept(me, claims, s')
  {
    hide J.Orderly, J.Next, D.Delivered, Sourced;
    J.NextOrderly(s.jobs, j);
    QueuedGrows(s.jobs, j);
    if j.Restart? {
      D.NextKeeps(s.out, me, D.Restart, s'.out);
    } else if Enqueues(s.jobs, j) {
      var id := s.jobs.tasks[j.index].id;
      D.QueueKeeps(s.out, me, id, claims(id).claim, claims(id).rebuilt);
      MoreRowsSource(s.out.chain, me, s.out.rows, s'.out.rows, s.out.flight);
    }
  }

  lemma NextKept(me: Address, claims: Claims, s: Service, e: Event, s': Service)
    requires Kept(me, claims, s) && Next(me, claims, s, e, s')
    ensures Kept(me, claims, s')
  {
    match e
    case Job(j) => JobKeeps(me, claims, s, j, s');
    case Outbox(o) => OutboxKeeps(me, claims, s, o, s');
  }

  lemma OutboxKeeps(me: Address, claims: Claims, s: Service, o: D.Event, s': Service)
    requires Kept(me, claims, s) && Next(me, claims, s, Outbox(o), s')
    ensures Kept(me, claims, s')
  {
    hide J.Orderly, D.Next, Sourced, D.RowsTrue, D.Holding, F.Coherent, Bounded;
    D.NextKeeps(s.out, me, o, s'.out);
    OutboxSourced(me, s.out, o, s'.out);
    D.NextSettlesRows(s.out, me, o, s'.out);
    SameRows(me, s.out, o, s'.out);
    forall i | 0 <= i < |s'.out.rows|
      ensures FromJob(s'.jobs.queued, claims, s'.out.rows[i])
    {
      assert FromJob(s.jobs.queued, claims, s.out.rows[i]);
    }
  }

  lemma SameRows(me: Address, s: D.State, e: D.Event, s': D.State)
    requires D.Next(s, me, e, s') && !e.Queue?
    ensures |s'.rows| == |s.rows|
  {
    hide Exec, Step, D.Answer;
  }

  lemma {:induction false} RunKept(me: Address, claims: Claims, states: seq<Service>, events: seq<Event>, k: nat)
    requires Trace(me, claims, states, events) && Start(me, states[0]) && k <= |events|
    ensures Kept(me, claims, states[k])
    decreases k
  {
    hide Next, Kept;
    if k == 0 {
      StartKept(me, claims, states[0]);
    } else {
      RunKept(me, claims, states, events, k - 1);
      NextKept(me, claims, states[k - 1], events[k - 1], states[k]);
    }
  }

  lemma StartKept(me: Address, claims: Claims, s: Service)
    requires Start(me, s)
    ensures Kept(me, claims, s)
  {
    J.EmptyOrderly();
    D.StartIsDelivered(s.out, me);
  }

  /** In every run of the service, whatever crashes: each attestation of its verifier on chain carries
      the claim and the hash that the report of one of its jobs formed; that job's build returned the
      report, and its row says verified or mismatch unless the write of that row was lost. */
  lemma AttestationsComeFromReports(me: Address, claims: Claims, states: seq<Service>, events: seq<Event>, k: nat, c: Claim)
    requires Trace(me, claims, states, events) && Start(me, states[0]) && k <= |events|
    requires (c, me) in states[k].out.chain.reg.atts
    ensures var s := states[k];
            exists id: nat ::
              && claims(id) == D.Tx(c, s.out.chain.reg.atts[(c, me)].rebuilt)
              && id < |s.jobs.rows| && id in s.jobs.queued
              && id in s.jobs.results && s.jobs.results[id].Reported? && s.jobs.results[id].formsClaim
              && (s.jobs.rows[id] == J.Verified <==> s.jobs.results[id].verified && id !in s.jobs.everLost)
              && (s.jobs.rows[id] == J.Mismatch <==> !s.jobs.results[id].verified && id !in s.jobs.everLost)
  {
    hide Next, D.Delivered;
    RunKept(me, claims, states, events, k);
    var s := states[k];
    var i :| 0 <= i < |s.out.rows| && D.TxOf(s.out.rows[i]) == D.Tx(c, s.out.chain.reg.atts[(c, me)].rebuilt);
    assert FromJob(s.jobs.queued, claims, s.out.rows[i]);
    var id: nat := s.out.rows[i].verification;
    assert J.RowTrue(s.jobs, id);
  }
}
