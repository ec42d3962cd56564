/** The life of a verification job: admission, build slots, the database row, the counters. A state
    holds what is durable and what one process holds; a task is a job holding an admission permit. */
module JobsSpec {
  const MAX_OUTSTANDING_JOBS: int := 16
  const MAX_CONCURRENT_BUILDS: int := 2

  datatype Status = Pending | Verified | Mismatch | Errored

  /** How a build ends: with a report, which may or may not form a claim, or without one. */
  datatype Outcome = Reported(verified: bool, formsClaim: bool) | Failed

  datatype Metrics = Metrics(submitted: int, inFlight: int, verified: int, mismatch: int, errored: int)

  /** Where a job stands. Every counter is bumped by an operation of its own, so the two bumps of an
      acceptance and the two of a completion are separate stages. */
  datatype Stage =
    | Resolving
    | Inserted(id: nat)
    | HalfAccepted(id: nat)
    | Waiting(id: nat)
    | Building(id: nat)
    | Built(id: nat, outcome: Outcome)
    | Written(id: nat, outcome: Outcome)
    | Enqueued(id: nat, outcome: Outcome)
    | HalfFinished(id: nat, outcome: Outcome)
    | Counted(id: nat)

  /** `rows` and `queued` are durable; `lost` holds the rows whose final write failed in this
      process, `everLost` in any; `results` what each job's build returned; `finished` the outcomes
      this process has counted. */
  datatype State = State(
    rows: seq<Status>,
    queued: set<nat>,
    tasks: seq<Stage>,
    admission: int,
    slots: int,
    metrics: Metrics,
    lost: set<nat>,
    everLost: set<nat>,
    results: map<nat, Outcome>,
    finished: seq<Outcome>)

  datatype Event =
    | Arrive
    | Advance(index: nat, ok: bool, outcome: Outcome)
    | Restart

  const IDLE: Metrics := Metrics(0, 0, 0, 0, 0)

  const EMPTY: State := State([], {}, [], MAX_OUTSTANDING_JOBS, MAX_CONCURRENT_BUILDS, IDLE, {}, {}, map[], [])

  function StatusOf(outcome: Outcome): Status {
    match outcome
    case Reported(verified, _) => if verified then Verified else Mismatch
    case Failed => Errored
  }

  function Swept(rows: seq<Status>): seq<Status> {
    seq(|rows|, i requires 0 <= i < |rows| => if rows[i] == Pending then Errored else rows[i])
  }

  function Pendings(rows: seq<Status>): nat {
    if rows == [] then 0 else Pendings(rows[..|rows| - 1]) + if rows[|rows| - 1] == Pending then 1 else 0
  }

  function Bump(m: Metrics, outcome: Outcome): Metrics {
    match StatusOf(outcome)
    case Verified => m.(verified := m.verified + 1)
    case Mismatch => m.(mismatch := m.mismatch + 1)
    case _ => m.(errored := m.errored + 1)
  }

  /** Builds among `os` that reproduced the hash. */
  function Passes(os: seq<Outcome>): nat {
    if os == [] then 0 else Passes(os[..|os| - 1]) + match os[|os| - 1] case Reported(true, _) => 1 case _ => 0
  }

  /** Builds among `os` that reported another hash. */
  function Misses(os: seq<Outcome>): nat {
    if os == [] then 0 else Misses(os[..|os| - 1]) + match os[|os| - 1] case Reported(false, _) => 1 case _ => 0
  }

  /** Builds among `os` that gave no report. */
  function Failures(os: seq<Outcome>): nat {
    if os == [] then 0 else Failures(os[..|os| - 1]) + match os[|os| - 1] case Failed => 1 case _ => 0
  }

  function Drop(tasks: seq<Stage>, i: nat): seq<Stage>
    requires i < |tasks|
  {
    tasks[..i] + tasks[i + 1..]
  }

  /** The next thing the task at `i` does. `ok` says whether a call it makes succeeds; `outcome` is
      what a build returns. */
  function Move(s: State, i: nat, ok: bool, outcome: Outcome): State
    requires i < |s.tasks|
  {
    match s.tasks[i]
    case Resolving =>
      if ok then s.(rows := s.rows + [Pending], tasks := s.tasks[i := Inserted(|s.rows|)])
      else s.(tasks := Drop(s.tasks, i), admission := s.admission + 1)
    case Inserted(id) =>
      s.(metrics := s.metrics.(submitted := s.metrics.submitted + 1), tasks := s.tasks[i := HalfAccepted(id)])
    case HalfAccepted(id) =>
      s.(metrics := s.metrics.(inFlight := s.metrics.inFlight + 1), tasks := s.tasks[i := Waiting(id)])
    case Waiting(id) =>
      if s.slots > 0 then s.(slots := s.slots - 1, tasks := s.tasks[i := Building(id)]) else s
    case Building(id) =>
      s.(slots := s.slots + 1, tasks := s.tasks[i := Built(id, outcome)],
         results := s.results[id := outcome])
    case Built(id, o) =>
      var t := s.(tasks := s.tasks[i := Written(id, o)]);
      if ok && id < |s.rows| then t.(rows := s.rows[id := StatusOf(o)])
      else t.(lost := s.lost + {id}, everLost := s.everLost + {id})
    case Written(id, o) =>
      s.(tasks := s.tasks[i := Enqueued(id, o)],
         queued := if ok && o.Reported? && o.formsClaim then s.queued + {id} else s.queued)
    case Enqueued(id, o) =>
      s.(metrics := s.metrics.(inFlight := s.metrics.inFlight - 1), tasks := s.tasks[i := HalfFinished(id, o)])
    case HalfFinished(id, o) =>
      s.(metrics := Bump(s.metrics, o), finished := s.finished + [o], tasks := s.tasks[i := Counted(id)])
    case Counted(id) =>
      s.(tasks := Drop(s.tasks, i), admission := s.admission + 1)
  }

  function Next(s: State, e: Event): State {
    match e
    case Arrive =>
      if s.admission > 0 then s.(tasks := s.tasks + [Resolving], admission := s.admission - 1) else s
    case Advance(i, ok, outcome) => if i < |s.tasks| then Move(s, i, ok, outcome) else s
    case Restart =>
      // The old process and all it held is gone; the new one sweeps before it serves.
      s.(rows := Swept(s.rows), tasks := [], admission := MAX_OUTSTANDING_JOBS, slots := MAX_CONCURRENT_BUILDS,
         metrics := IDLE, finished := [], lost := {})
  }

  function Run(s: State, events: seq<Event>): State
    decreases |events|
  {
    if events == [] then s else Next(Run(s, events[..|events| - 1]), events[|events| - 1])
  }

  // ---- sums over the live tasks --------------------------------------------------------

  function Total(tasks: seq<Stage>, weight: Stage -> int): int {
    if tasks == [] then 0 else Total(tasks[..|tasks| - 1], weight) + weight(tasks[|tasks| - 1])
  }

  lemma {:induction false} TotalPut(tasks: seq<Stage>, weight: Stage -> int, i: nat, t: Stage)
    requires i < |tasks|
    ensures Total(tasks[i := t], weight) == Total(tasks, weight) - weight(tasks[i]) + weight(t)
    decreases |tasks|
  {
    var n := |tasks| - 1;
    if i == n {
      assert tasks[i := t][..n] == tasks[..n];
    } else {
      assert tasks[i := t][..n] == tasks[..n][i := t];
      TotalPut(tasks[..n], weight, i, t);
    }
  }

  lemma {:induction false} TotalDrop(tasks: seq<Stage>, weight: Stage -> int, i: nat)
    requires i < |tasks|
    ensures Total(Drop(tasks, i), weight) == Total(tasks, weight) - weight(tasks[i])
    decreases |tasks|
  {
    var n := |tasks| - 1;
    if i == n {
      assert Drop(tasks, i) == tasks[..n];
    } else {
      assert Drop(tasks, i)[..n - 1] == Drop(tasks[..n], i);
      TotalDrop(tasks[..n], weight, i);
    }
  }

  lemma TotalAdd(tasks: seq<Stage>, weight: Stage -> int, t: Stage)
    ensures Total(tasks + [t], weight) == Total(tasks, weight) + weight(t)
  {
    assert (tasks + [t])[..|tasks|] == tasks;
  }

  lemma {:induction false} TotalBounds(tasks: seq<Stage>, weight: Stage -> int, i: nat)
    requires forall t :: 0 <= weight(t) <= 1
    ensures 0 <= Total(tasks, weight) <= |tasks|
    ensures i < |tasks| ==> Total(tasks, weight) >= weight(tasks[i])
    ensures Total(tasks, weight) > 0 ==> exists j | 0 <= j < |tasks| :: weight(tasks[j]) == 1
    decreases |tasks|
  {
    if tasks != [] {
      var n := |tasks| - 1;
      TotalBounds(tasks[..n], weight, i);
      if Total(tasks[..n], weight) > 0 {
        var j :| 0 <= j < n && weight(tasks[..n][j]) == 1;
        assert weight(tasks[j]) == 1;
      } else if Total(tasks, weight) > 0 {
        assert weight(tasks[n]) == 1;
      }
    }
  }

  const BUILDS: Stage -> int := (t: Stage) => if t.Building? then 1 else 0

  /** Counted as in flight. */
  const FLIES: Stage -> int :=
    (t: Stage) => if t.Waiting? || t.Building? || t.Built? || t.Written? || t.Enqueued? then 1 else 0

  /** Counted as submitted, and its outcome not counted yet. */
  const OWED: Stage -> int :=
    (t: Stage) => if t.HalfAccepted? || t.Waiting? || t.Building? || t.Built? || t.Written? || t.Enqueued? || t.HalfFinished?
         then 1 else 0

  /** Between the two counter operations of an acceptance or a completion. */
  const BETWEEN: Stage -> int := (t: Stage) => if t.HalfAccepted? || t.HalfFinished? then 1 else 0

  /** Still has the final write of row `id` ahead of it. */
  function Owns(id: nat): Stage -> int {
    (t: Stage) => if (t.Inserted? || t.HalfAccepted? || t.Waiting? || t.Building? || t.Built?) && t.id == id then 1 else 0
  }

  /** Whether the row is pending and some job is still to write it. */
  predicate Awaited(s: State, id: nat) {
    id < |s.rows| && s.rows[id] == Pending && id !in s.lost
  }

  /** What a live task knows of its own row. */
  predicate TaskTrue(s: State, t: Stage) {
    && (!t.Resolving? ==> t.id < |s.rows|)
    && (t.Built? || t.Written? || t.Enqueued? ==> Gave(s, t.id, t.outcome))
    && ((t.Written? || t.Enqueued?) ==>
          && (s.rows[t.id] != Pending || t.id in s.lost)
          && (t.outcome.Reported? ==> s.rows[t.id] in {Verified, Mismatch} || t.id in s.lost))
  }

  /** The build of job `id` returned `outcome`. */
  predicate Gave(s: State, id: nat, outcome: Outcome) {
    id in s.results && s.results[id] == outcome
  }

  predicate FormedClaim(s: State, id: nat) {
    id in s.results && s.results[id].Reported? && s.results[id].formsClaim
  }

  /** What a row that says so says of its build. */
  predicate StatusTrue(s: State, id: nat) {
    && (id < |s.rows| && s.rows[id] == Verified ==> Gave(s, id, Reported(true, true)) || Gave(s, id, Reported(true, false)))
    && (id < |s.rows| && s.rows[id] == Mismatch ==> Gave(s, id, Reported(false, true)) || Gave(s, id, Reported(false, false)))
  }

  predicate RowTrue(s: State, id: nat) {
    && (id in s.queued ==> id < |s.rows| && FormedClaim(s, id) && (s.rows[id] in {Verified, Mismatch} || id in s.everLost))
    && StatusTrue(s, id)
    && (id in s.lost ==> id < |s.rows| && s.rows[id] == Pending)
    && (id in s.everLost ==> id < |s.rows| && (s.rows[id] == Errored || (s.rows[id] == Pending && id in s.lost)))
  }

  /** Counting: what the semaphores and counters say of the live tasks. */
  predicate Counts(s: State) {
    && s.admission + |s.tasks| == MAX_OUTSTANDING_JOBS && s.admission >= 0
    && s.slots + Total(s.tasks, BUILDS) == MAX_CONCURRENT_BUILDS && s.slots >= 0
    && s.metrics.inFlight == Total(s.tasks, FLIES)
    && s.metrics.submitted == s.metrics.verified + s.metrics.mismatch + s.metrics.errored + Total(s.tasks, OWED)
    && s.metrics.verified == Passes(s.finished)
    && s.metrics.mismatch == Misses(s.finished)
    && s.metrics.errored == Failures(s.finished)
  }

  /** Ownership: a row that is pending and not lost has exactly one live job still to write it, and
      no other row has any. */
  ghost predicate Owned(s: State) {
    forall id: nat {:trigger Owns(id)} :: Total(s.tasks, Owns(id)) == if Awaited(s, id) then 1 else 0
  }

  ghost predicate Truthful(s: State) {
    && (forall i | 0 <= i < |s.tasks| :: TaskTrue(s, s.tasks[i]))
    && (forall id: nat :: RowTrue(s, id))
    && s.lost <= s.everLost
  }

  ghost predicate Orderly(s: State) {
    Counts(s) && Owned(s) && Truthful(s)
  }

  lemma MoveCounts(s: State, i: nat, ok: bool, outcome: Outcome)
    requires Counts(s) && i < |s.tasks|
    ensures Counts(Move(s, i, ok, outcome))
  {
    hide Total, Passes, Misses, Failures;
    var s' := Move(s, i, ok, outcome);
    TotalBounds(s.tasks, BUILDS, i);
    if s.tasks[i].HalfFinished? {
      OneMore(s.finished, s.tasks[i].outcome);
    }
    if |s'.tasks| < |s.tasks| {
      TotalDrop(s.tasks, BUILDS, i);
      TotalDrop(s.tasks, FLIES, i);
      TotalDrop(s.tasks, OWED, i);
    } else {
      var t := s'.tasks[i];
      assert s'.tasks == s.tasks[i := t];
      TotalPut(s.tasks, BUILDS, i, t);
      TotalPut(s.tasks, FLIES, i, t);
      TotalPut(s.tasks, OWED, i, t);
      TotalBounds(s'.tasks, BUILDS, i);
    }
  }

  lemma OneMore(os: seq<Outcome>, o: Outcome)
    ensures Passes(os + [o]) == Passes(os) + if o.Reported? && o.verified then 1 else 0
    ensures Misses(os + [o]) == Misses(os) + if o.Reported? && !o.verified then 1 else 0
    ensures Failures(os + [o]) == Failures(os) + if o.Failed? then 1 else 0
  {
    assert (os + [o])[..|os|] == os;
  }

  lemma MoveOwns(s: State, i: nat, ok: bool, outcome: Outcome, id: nat)
    requires Owned(s) && i < |s.tasks| && (forall id: nat :: RowTrue(s, id))
    ensures var s' := Move(s, i, ok, outcome);
            Total(s'.tasks, Owns(id)) == if Awaited(s', id) then 1 else 0
  {
    hide Total;
    var s' := Move(s, i, ok, outcome);
    assert Total(s.tasks, Owns(id)) == if Awaited(s, id) then 1 else 0;
    assert RowTrue(s, id);
    TotalBounds(s.tasks, Owns(id), i);
    if |s'.tasks| < |s.tasks| {
      TotalDrop(s.tasks, Owns(id), i);
    } else {
      var t := s'.tasks[i];
      assert s'.tasks == s.tasks[i := t];
      TotalPut(s.tasks, Owns(id), i, t);
    }
  }

  lemma OwnerAwaits(s: State, i: nat)
    requires Owned(s) && i < |s.tasks| && (s.tasks[i].Building? || s.tasks[i].Built?)
    ensures Awaited(s, s.tasks[i].id)
  {
    var id := s.tasks[i].id;
    TotalBounds(s.tasks, Owns(id), i);
    assert Total(s.tasks, Owns(id)) >= 1;
  }

  /** No two live jobs are to write the same row. */
  lemma OneOwner(s: State, i: nat, k: nat)
    requires Owned(s) && i < |s.tasks| && k < |s.tasks| && i != k
    requires (s.tasks[i].Building? || s.tasks[i].Built?) && (s.tasks[k].Building? || s.tasks[k].Built?)
    ensures s.tasks[i].id != s.tasks[k].id
  {
    var id := s.tasks[i].id;
    TotalPut(s.tasks, Owns(id), i, Resolving);
    TotalBounds(s.tasks[i := Resolving], Owns(id), k);
    assert Total(s.tasks, Owns(id)) <= 1;
  }

  lemma MoveTrueOfOthers(s: State, i: nat, ok: bool, outcome: Outcome, t: Stage)
    requires i < |s.tasks| && TaskTrue(s, t)
    requires s.tasks[i].Building? || s.tasks[i].Built? ==> Awaited(s, s.tasks[i].id)
    requires s.tasks[i].Building? && t.Built? ==> s.tasks[i].id != t.id
    ensures TaskTrue(Move(s, i, ok, outcome), t)
  {
  }

  lemma MoveTrueOfItself(s: State, i: nat, ok: bool, outcome: Outcome)
    requires i < |s.tasks| && TaskTrue(s, s.tasks[i])
    requires |Move(s, i, ok, outcome).tasks| == |s.tasks|
    ensures TaskTrue(Move(s, i, ok, outcome), Move(s, i, ok, outcome).tasks[i])
  {
  }

  lemma MoveTrueOfRow(s: State, i: nat, ok: bool, outcome: Outcome, id: nat)
    requires i < |s.tasks| && TaskTrue(s, s.tasks[i]) && RowTrue(s, id)
    requires s.tasks[i].Building? || s.tasks[i].Built? ==> Awaited(s, s.tasks[i].id)
    requires s.lost <= s.everLost
    ensures RowTrue(Move(s, i, ok, outcome), id)
  {
  }

  lemma MoveTruthful(s: State, i: nat, ok: bool, outcome: Outcome)
    requires Owned(s) && Truthful(s) && i < |s.tasks|
    ensures Truthful(Move(s, i, ok, outcome))
  {
    hide Total, Owned, TaskTrue;
    var s' := Move(s, i, ok, outcome);
    if s.tasks[i].Building? || s.tasks[i].Built? {
      OwnerAwaits(s, i);
    }
    forall k | 0 <= k < |s.tasks| && k != i && s.tasks[i].Building? && s.tasks[k].Built?
      ensures s.tasks[i].id != s.tasks[k].id
    {
      OneOwner(s, i, k);
    }
    forall j | 0 <= j < |s'.tasks|
      ensures TaskTrue(s', s'.tasks[j])
    {
      if |s'.tasks| < |s.tasks| {
        var k := if j < i then j else j + 1;
        assert s'.tasks[j] == s.tasks[k];
        MoveTrueOfOthers(s, i, ok, outcome, s.tasks[k]);
      } else if j != i {
        assert s'.tasks[j] == s.tasks[j];
        MoveTrueOfOthers(s, i, ok, outcome, s.tasks[j]);
      } else {
        MoveTrueOfItself(s, i, ok, outcome);
      }
    }
    forall id: nat
      ensures RowTrue(s', id)
    {
      MoveTrueOfRow(s, i, ok, outcome, id);
    }
  }

  lemma NextOrderly(s: State, e: Event)
    requires Orderly(s)
    ensures Orderly(Next(s, e))
  {
    hide Total;
    match e
    case Arrive =>
      var s' := Next(s, e);
      TotalAdd(s.tasks, BUILDS, Resolving);
      TotalAdd(s.tasks, FLIES, Resolving);
      TotalAdd(s.tasks, OWED, Resolving);
      forall id: nat
        ensures Total(s'.tasks, Owns(id)) == if Awaited(s', id) then 1 else 0
      {
        TotalAdd(s.tasks, Owns(id), Resolving);
        assert Total(s.tasks, Owns(id)) == if Awaited(s, id) then 1 else 0;
      }
      forall id: nat
        ensures RowTrue(s', id)
      {
        assert RowTrue(s, id);
      }
    case Advance(i, ok, outcome) =>
      if i < |s.tasks| {
        MoveCounts(s, i, ok, outcome);
        MoveTruthful(s, i, ok, outcome);
        forall id: nat
          ensures var s' := Move(s, i, ok, outcome);
                  Total(s'.tasks, Owns(id)) == if Awaited(s', id) then 1 else 0
        {
          MoveOwns(s, i, ok, outcome, id);
        }
      }
    case Restart => RestartOrderly(s);
  }

  lemma RestartOrderly(s: State)
    requires Orderly(s)
    ensures Orderly(Next(s, Restart))
  {
    var s' := Next(s, Restart);
    forall id: nat
      ensures RowTrue(s', id)
    {
      assert RowTrue(s, id);
    }
  }

  lemma {:induction false} RunOrderly(events: seq<Event>)
    ensures Orderly(Run(EMPTY, events))
    decreases |events|
  {
    hide Next, Orderly;
    if events == [] {
      EmptyOrderly();
    } else {
      RunOrderly(events[..|events| - 1]);
      NextOrderly(Run(EMPTY, events[..|events| - 1]), events[|events| - 1]);
    }
  }

  lemma EmptyOrderly()
    ensures Orderly(EMPTY)
  {
  }

  /** Rows are touched in two places only: a request that resolves adds a pending one, and the write that
      ends a job sets its own. A job is queued in one. */
  lemma OnlyTheseTouch(s: State, i: nat, ok: bool, outcome: Outcome)
    requires i < |s.tasks|
    ensures var s', was := Move(s, i, ok, outcome), s.tasks[i];
            && (was.Resolving? && ok ==> s'.rows == s.rows + [Pending] && s'.tasks == s.tasks[i := Inserted(|s.rows|)])
            && (was.Resolving? && !ok ==> s' == s.(tasks := Drop(s.tasks, i), admission := s.admission + 1))
            && (!(was.Resolving? && ok) && !(was.Built? && ok) ==> s'.rows == s.rows)
            && (s'.queued == if was.Written? && ok && was.outcome.Reported? && was.outcome.formsClaim then s.queued + {was.id} else s.queued)
            && (s'.lost == if was.Built? && (!ok || was.id >= |s.rows|) then s.lost + {was.id} else s.lost)
            && (s'.results == if was.Building? then s.results[was.id := outcome] else s.results)
  {
  }

  /** In every interleaving of requests, job steps and restarts: at most sixteen jobs hold permits, at
      most two build; the gauge lies between zero and the permits held; each outcome counter is the
      number of finished builds with that outcome; and the counters add up, but for the jobs caught
      between the two operations of one acceptance or one completion. */
  lemma LimitsHold(events: seq<Event>)
    ensures var s := Run(EMPTY, events);
            && |s.tasks| <= 16
            && s.admission == 16 - |s.tasks|
            && 0 <= Total(s.tasks, BUILDS) <= 2
            && s.slots == 2 - Total(s.tasks, BUILDS)
            && 0 <= s.metrics.inFlight <= |s.tasks|
            && s.metrics.verified == Passes(s.finished)
            && s.metrics.mismatch == Misses(s.finished)
            && s.metrics.errored == Failures(s.finished)
            && s.metrics.submitted - s.metrics.inFlight - s.metrics.verified - s.metrics.mismatch - s.metrics.errored
               == Total(s.tasks, BETWEEN)
  {
    hide Run;
    RunOrderly(events);
    var s := Run(EMPTY, events);
    TotalBounds(s.tasks, BUILDS, 0);
    TotalBounds(s.tasks, FLIES, 0);
    OwedSplits(s.tasks);
  }

  /** A request is let in exactly when fewer than sixteen jobs hold permits; nothing else about the
      service changes by it. */
  lemma AdmittedIffRoom(events: seq<Event>)
    ensures var s := Run(EMPTY, events);
            Next(s, Arrive) == if |s.tasks| < 16 then s.(tasks := s.tasks + [Resolving], admission := 15 - |s.tasks|) else s
  {
    hide Run;
    LimitsHold(events);
  }

  lemma {:induction false} OwedSplits(tasks: seq<Stage>)
    ensures Total(tasks, OWED) == Total(tasks, FLIES) + Total(tasks, BETWEEN)
    decreases |tasks|
  {
    if tasks != [] {
      OwedSplits(tasks[..|tasks| - 1]);
    }
  }

  /** A row reads pending exactly while one live job is still to write it, or its write failed in this
      process. Right after a restart no row is pending. */
  lemma PendingMeansLive(events: seq<Event>, id: nat)
    requires id < |Run(EMPTY, events).rows|
    ensures var s := Run(EMPTY, events);
            && (s.rows[id] == Pending <==> id in s.lost || exists i | 0 <= i < |s.tasks| :: Owns(id)(s.tasks[i]) == 1)
            && Total(s.tasks, Owns(id)) <= 1
            && Next(s, Restart).rows[id] != Pending
  {
    hide Run;
    RunOrderly(events);
    var s := Run(EMPTY, events);
    assert RowTrue(s, id);
    TotalBounds(s.tasks, Owns(id), 0);
    assert Total(s.tasks, Owns(id)) == if Awaited(s, id) then 1 else 0;
    if i :| 0 <= i < |s.tasks| && Owns(id)(s.tasks[i]) == 1 {
      TotalBounds(s.tasks, Owns(id), i);
    }
  }

  /** A row says verified only if its build reproduced the hash, and mismatch only if its build reported
      another one. */
  lemma StatusesAreTrue(events: seq<Event>, id: nat)
    requires id < |Run(EMPTY, events).rows|
    ensures var s := Run(EMPTY, events);
            && (s.rows[id] == Verified ==> id in s.results && s.results[id].Reported? && s.results[id].verified)
            && (s.rows[id] == Mismatch ==> id in s.results && s.results[id].Reported? && !s.results[id].verified)
  {
    hide Run;
    RunOrderly(events);
    assert RowTrue(Run(EMPTY, events), id);
  }

  /** The write that ends a job stores what its build returned: the three statuses, one for each way a
      build can end. */
  lemma WriteStores(s: State, i: nat, id: nat, outcome: Outcome, unused: Outcome)
    requires i < |s.tasks| && s.tasks[i] == Built(id, outcome) && id < |s.rows|
    ensures var s' := Move(s, i, true, unused);
            && (s'.rows[id] == Verified <==> outcome.Reported? && outcome.verified)
            && (s'.rows[id] == Mismatch <==> outcome.Reported? && !outcome.verified)
            && (s'.rows[id] == Errored <==> outcome.Failed?)
            && |s'.rows| == |s.rows| && (forall k | 0 <= k < |s.rows| && k != id :: s'.rows[k] == s.rows[k])
            && Move(s, i, false, unused).rows == s.rows
  {
  }

  /** Only a job whose build returned a report that forms a claim is ever queued for attestation. Its
      row says verified if and only if the build reproduced the hash and the write was never lost,
      mismatch if and only if it did not and the write was never lost, and failed if and only if the
      write was lost in a process that is gone. */
  lemma OnlyReportsAreQueued(events: seq<Event>, id: nat)
    requires id in Run(EMPTY, events).queued
    ensures var s := Run(EMPTY, events);
            && id < |s.rows|
            && id in s.results && s.results[id].Reported? && s.results[id].formsClaim
            && (s.rows[id] == Verified <==> s.results[id].verified && id !in s.everLost)
            && (s.rows[id] == Mismatch <==> !s.results[id].verified && id !in s.everLost)
            && (s.rows[id] == Errored <==> id in s.everLost && id !in s.lost)
            && (s.rows[id] == Pending <==> id in s.lost)
  {
    hide Run;
    RunOrderly(events);
    assert RowTrue(Run(EMPTY, events), id);
  }

  /** The exception is real: the report's write fails, its attestation is queued all the same, and the
      next restart marks the job as failed. */
  lemma QueuedYetErrored() returns (events: seq<Event>)
    ensures var s := Run(EMPTY, events);
            0 in s.queued && |s.rows| == 1 && s.rows[0] == Errored
  {
    hide Run;
    assert Run(EMPTY, []) == EMPTY by {
      RunNothing();
    }
    var report := Reported(true, true);
    var yes, no := Advance(0, true, report), Advance(0, false, report);
    var start := EMPTY.(rows := [Pending], admission := MAX_OUTSTANDING_JOBS - 1);
    var s1 := EMPTY.(admission := MAX_OUTSTANDING_JOBS - 1, tasks := [Resolving]);
    var s2 := start.(tasks := [Inserted(0)]);
    var s3 := start.(tasks := [HalfAccepted(0)], metrics := Metrics(1, 0, 0, 0, 0));
    var s4 := start.(tasks := [Waiting(0)], metrics := Metrics(1, 1, 0, 0, 0));
    var s5 := s4.(tasks := [Building(0)], slots := MAX_CONCURRENT_BUILDS - 1);
    var s6 := s4.(tasks := [Built(0, report)], results := map[0 := report]);
    var s7 := s6.(tasks := [Written(0, report)], lost := {0}, everLost := {0});
    var s8 := s7.(tasks := [Enqueued(0, report)], queued := {0});
    events := [];
    events := Push(events, EMPTY, Arrive, s1);
    events := Push(events, s1, yes, s2);
    events := Push(events, s2, yes, s3);
    events := Push(events, s3, yes, s4);
    events := Push(events, s4, yes, s5);
    events := Push(events, s5, yes, s6);
    events := Push(events, s6, no, s7);
    events := Push(events, s7, yes, s8);
    events := Push(events, s8, Restart, Next(s8, Restart));
  }

  lemma Push(events: seq<Event>, s: State, e: Event, s': State) returns (more: seq<Event>)
    requires Run(EMPTY, events) == s && Next(s, e) == s'
    ensures more == events + [e] && Run(EMPTY, more) == s'
  {
    RunPush(events, e);
    more := events + [e];
  }

  lemma RunNothing()
    ensures Run(EMPTY, []) == EMPTY
  {
  }

  lemma RunPush(events: seq<Event>, e: Event)
    ensures Run(EMPTY, events + [e]) == Next(Run(EMPTY, events), e)
  {
    assert (events + [e])[..|events|] == events;
  }

  /** A row that is no longer pending keeps its status for good, restarts included. */
  lemma NextSettles(s: State, e: Event, id: nat)
    requires Orderly(s) && id < |s.rows| && s.rows[id] != Pending
    ensures id < |Next(s, e).rows| && Next(s, e).rows[id] == s.rows[id]
  {
    if e.Advance? && e.index < |s.tasks| && s.tasks[e.index].Built? {
      OwnerAwaits(s, e.index);
    }
  }

  lemma {:induction false} SettledIsFinal(events: seq<Event>, more: seq<Event>, id: nat)
    requires id < |Run(EMPTY, events).rows| && Run(EMPTY, events).rows[id] != Pending
    ensures id < |Run(EMPTY, events + more).rows|
    ensures Run(EMPTY, events + more).rows[id] == Run(EMPTY, events).rows[id]
    decreases |more|
  {
    hide Next, Orderly;
    if more == [] {
      assert events + more == events;
    } else {
      var init, e := more[..|more| - 1], more[|more| - 1];
      assert events + more == (events + init) + [e];
      SettledIsFinal(events, init, id);
      RunOrderly(events + init);
      RunPush(events + init, e);
      NextSettles(Run(EMPTY, events + init), e, id);
    }
  }

  // ---- no job is stuck -----------------------------------------------------------------

  /** Steps a task still has to take. */
  const REMAINING: Stage -> int :=
    (t: Stage) =>
         match t
         case Resolving => 10 case Inserted(_) => 9 case HalfAccepted(_) => 8 case Waiting(_) => 7
         case Building(_) => 6 case Built(_, _) => 5 case Written(_, _) => 4 case Enqueued(_, _) => 3
         case HalfFinished(_, _) => 2 case Counted(_) => 1

  function Work(s: State): int {
    Total(s.tasks, REMAINING)
  }

  lemma {:induction false} WorkIsPositive(tasks: seq<Stage>)
    ensures |tasks| <= Total(tasks, REMAINING) <= 10 * |tasks|
    decreases |tasks|
  {
    if tasks != [] {
      WorkIsPositive(tasks[..|tasks| - 1]);
    }
  }

  /** Every move brings the work to do down, except a job waiting while both slots are taken. */
  lemma MoveWorks(s: State, i: nat, ok: bool, outcome: Outcome)
    requires i < |s.tasks|
    ensures Work(Move(s, i, ok, outcome)) < Work(s) || (s.tasks[i].Waiting? && s.slots <= 0 && Move(s, i, ok, outcome) == s)
  {
    hide Total;
    var s' := Move(s, i, ok, outcome);
    if |s'.tasks| < |s.tasks| {
      TotalDrop(s.tasks, REMAINING, i);
    } else {
      TotalPut(s.tasks, REMAINING, i, s'.tasks[i]);
      assert s'.tasks == s.tasks[i := s'.tasks[i]];
    }
  }

  /** While a job is live some job can move: nobody waits for a slot that nobody will free. */
  lemma SomeoneCanMove(s: State, ok: Stage -> bool, outcome: Stage -> Outcome) returns (i: nat)
    requires Counts(s) && s.tasks != []
    ensures i < |s.tasks| && Work(Move(s, i, ok(s.tasks[i]), outcome(s.tasks[i]))) < Work(s)
  {
    hide Work, Move;
    if s.slots > 0 || !s.tasks[0].Waiting? {
      i := 0;
    } else {
      TotalBounds(s.tasks, BUILDS, 0);
      i :| 0 <= i < |s.tasks| && BUILDS(s.tasks[i]) == 1;
    }
    MoveWorks(s, i, ok(s.tasks[i]), outcome(s.tasks[i]));
  }

  /** Each event moves a live job, and what it meets is what `ok` and `outcome` say of the job as it
      stands. */
  predicate Follows(s: State, events: seq<Event>, ok: Stage -> bool, outcome: Stage -> Outcome)
    decreases |events|
  {
    events == [] ||
    (var e := events[0];
     && e.Advance? && e.index < |s.tasks|
     && e.ok == ok(s.tasks[e.index]) && e.outcome == outcome(s.tasks[e.index])
     && Follows(Next(s, e), events[1..], ok, outcome))
  }

  /** From every reachable state the live jobs can all be brought to their end, whatever each job's
      build returns and whichever of its calls fail, in at most ten moves a job; all permits are then
      back. */
  lemma {:induction false} JobsCanFinish(s: State, ok: Stage -> bool, outcome: Stage -> Outcome) returns (events: seq<Event>)
    requires Orderly(s)
    ensures Follows(s, events, ok, outcome)
    ensures |events| <= Work(s) <= 10 * |s.tasks|
    ensures Finished(s, events).tasks == [] && Finished(s, events).admission == MAX_OUTSTANDING_JOBS
    ensures Finished(s, events).slots == MAX_CONCURRENT_BUILDS
    decreases Work(s)
  {
    hide Orderly;
    WorkIsPositive(s.tasks);
    if s.tasks == [] {
      events := [];
      EmptyHands(s);
    } else {
      CountsOf(s);
      var i := SomeoneCanMove(s, ok, outcome);
      var e := Advance(i, ok(s.tasks[i]), outcome(s.tasks[i]));
      NextOrderly(s, e);
      WorkIsPositive(Next(s, e).tasks);
      var rest := JobsCanFinish(Next(s, e), ok, outcome);
      events := [e] + rest;
      assert events[1..] == rest;
    }
  }

  /** One job alone, from the moment it waits for a slot: seven moves later it is gone, both permits are
      back, its row is written if the write succeeded, and one outcome is counted. */
  lemma JobAlone(s: State, id: nat, ok: bool, outcome: Outcome)
    requires s.tasks == [Waiting(id)] && s.slots > 0 && id < |s.rows|
    ensures var e := Advance(0, ok, outcome);
            var s' := Finished(s, Times(e, 7));
            && s'.tasks == [] && s'.admission == s.admission + 1 && s'.slots == s.slots
            && s'.metrics == CountedOnce(s.metrics, outcome)
            && s'.rows == (if ok then s.rows[id := match outcome case Reported(true, _) => Verified case Reported(false, _) => Mismatch case Failed => Errored] else s.rows)
            && s'.queued == (if ok && outcome.Reported? && outcome.formsClaim then s.queued + {id} else s.queued)
  {
    hide Finished, Bump, Times, Move;
    BumpCounts(s.metrics.(inFlight := s.metrics.inFlight - 1), outcome);
    var written := UntilTheWrite(s, id, ok, outcome);
    AfterTheWrite(written, id, ok, outcome);
  }

  /** One job less in flight, and one outcome more. */
  function CountedOnce(m: Metrics, outcome: Outcome): Metrics {
    m.(inFlight := m.inFlight - 1,
       verified := m.verified + match outcome case Reported(true, _) => 1 case _ => 0,
       mismatch := m.mismatch + match outcome case Reported(false, _) => 1 case _ => 0,
       errored := m.errored + match outcome case Failed => 1 case _ => 0)
  }

  lemma BumpCounts(m: Metrics, outcome: Outcome)
    ensures Bump(m, outcome) == CountedOnce(m.(inFlight := m.inFlight + 1), outcome)
  {
  }

  lemma UntilTheWrite(s: State, id: nat, ok: bool, outcome: Outcome) returns (written: State)
    requires s.tasks == [Waiting(id)] && s.slots > 0 && id < |s.rows|
    ensures Finished(s, Times(Advance(0, ok, outcome), 7)) == Finished(written, Times(Advance(0, ok, outcome), 4))
    ensures written.tasks == [Written(id, outcome)] && written.slots == s.slots && written.admission == s.admission
    ensures written.metrics == s.metrics && written.queued == s.queued
    ensures written.rows == if ok then s.rows[id := StatusOf(outcome)] else s.rows
  {
    hide Finished, StatusOf, Times;
    var e := Advance(0, ok, outcome);
    var s1 := s.(tasks := [Building(id)], slots := s.slots - 1);
    var s2 := s.(tasks := [Built(id, outcome)], results := s.results[id := outcome]);
    written := if ok then s2.(tasks := [Written(id, outcome)], rows := s.rows[id := StatusOf(outcome)])
               else s2.(tasks := [Written(id, outcome)], lost := s.lost + {id}, everLost := s.everLost + {id});
    Unroll(s, e, 6);
    Unroll(s1, e, 5);
    Unroll(s2, e, 4);
    assert Next(s, e) == s1;
    assert Next(s1, e) == s2;
    assert Next(s2, e) == written;
  }

  lemma AfterTheWrite(s: State, id: nat, ok: bool, outcome: Outcome)
    requires s.tasks == [Written(id, outcome)]
    ensures Finished(s, Times(Advance(0, ok, outcome), 4)) ==
            s.(tasks := [], admission := s.admission + 1, finished := s.finished + [outcome],
               metrics := Bump(s.metrics.(inFlight := s.metrics.inFlight - 1), outcome),
               queued := if ok && outcome.Reported? && outcome.formsClaim then s.queued + {id} else s.queued)
  {
    hide Finished, Bump, Times;
    var e := Advance(0, ok, outcome);
    var s1 := s.(tasks := [Enqueued(id, outcome)],
                 queued := if ok && outcome.Reported? && outcome.formsClaim then s.queued + {id} else s.queued);
    var s2 := s1.(tasks := [HalfFinished(id, outcome)], metrics := s.metrics.(inFlight := s.metrics.inFlight - 1));
    var s3 := s2.(tasks := [Counted(id)], metrics := Bump(s2.metrics, outcome), finished := s.finished + [outcome]);
    var s4 := s3.(tasks := [], admission := s.admission + 1);
    Unroll(s, e, 3);
    Unroll(s1, e, 2);
    Unroll(s2, e, 1);
    Unroll(s3, e, 0);
    assert Next(s, e) == s1;
    assert Next(s1, e) == s2;
    assert Next(s2, e) == s3;
    assert Next(s3, e) == s4;
    FinishedNothing(s4);
  }

  function Times(e: Event, n: nat): seq<Event> {
    seq(n, _ => e)
  }

  lemma FinishedNothing(s: State)
    ensures Finished(s, []) == s
  {
  }

  lemma Unroll(s: State, e: Event, n: nat)
    ensures Finished(s, Times(e, n + 1)) == Finished(Next(s, e), Times(e, n))
    ensures Times(e, 0) == []
  {
    assert Times(e, n + 1)[1..] == Times(e, n);
  }

  lemma CountsOf(s: State)
    requires Orderly(s)
    ensures Counts(s)
  {
  }

  lemma EmptyHands(s: State)
    requires Orderly(s) && s.tasks == []
    ensures s.admission == MAX_OUTSTANDING_JOBS && s.slots == MAX_CONCURRENT_BUILDS
  {
  }

  /** A run read from its front. */
  function Finished(s: State, events: seq<Event>): State
    decreases |events|
  {
    if events == [] then s else Finished(Next(s, events[0]), events[1..])
  }
}

/** The pieces of the service that change in place. */
module JobsContract {
  import opened JobsSpec

  class Counters {
    var value: Metrics

    constructor ()
      ensures value == IDLE
    {
      value := IDLE;
    }

    method OnAccepted()
      modifies this
      ensures value == old(value).(submitted := old(value).submitted + 1, inFlight := old(value).inFlight + 1)
    {
      value := value.(submitted := value.submitted + 1);
      value := value.(inFlight := value.inFlight + 1);
    }

    method OnFinished(outcome: Outcome)
      modifies this
      ensures value.submitted == old(value).submitted && value.inFlight == old(value).inFlight - 1
      ensures value.verified == old(value).verified + if outcome.Reported? && outcome.verified then 1 else 0
      ensures value.mismatch == old(value).mismatch + if outcome.Reported? && !outcome.verified then 1 else 0
      ensures value.errored == old(value).errored + if outcome.Failed? then 1 else 0
      ensures value == CountedOnce(old(value), outcome)
    {
      value := value.(inFlight := value.inFlight - 1);
      match outcome {
        case Reported(true, _) => value := value.(verified := value.verified + 1);
        case Reported(false, _) => value := value.(mismatch := value.mismatch + 1);
        case Failed => value := value.(errored := value.errored + 1);
      }
    }
  }

  class Semaphore {
    var available: nat

    constructor (permits: nat)
      ensures available == permits
    {
      available := permits;
    }

    method TryAcquire() returns (ok: bool)
      modifies this
      ensures ok == (old(available) > 0)
      ensures available == if ok then old(available) - 1 else old(available)
    {
      ok := available > 0;
      if ok {
        available := available - 1;
      }
    }

    method Release()
      modifies this
      ensures available == old(available) + 1
    {
      available := available + 1;
    }
  }

  class VerificationTable {
    var rows: seq<Status>

    constructor ()
      ensures rows == []
    {
      rows := [];
    }

    method InsertPending() returns (id: nat)
      modifies this
      ensures id == |old(rows)| && rows == old(rows) + [Pending]
    {
      id := |rows|;
      rows := rows + [Pending];
    }

    /** An update of a row that is not there changes nothing. */
    method Complete(id: nat, status: Status)
      modifies this
      ensures rows == if id < |old(rows)| then old(rows)[id := status] else old(rows)
    {
      if id < |rows| {
        rows := rows[id := status];
      }
    }

    method Fail(id: nat)
      modifies this
      ensures rows == if id < |old(rows)| then old(rows)[id := Errored] else old(rows)
    {
      Complete(id, Errored);
    }

    /** The startup sweep. */
    method FailOrphanedPending() returns (count: nat)
      modifies this
      ensures rows == Swept(old(rows))
      ensures |rows| == |old(rows)|
      ensures forall i | 0 <= i < |rows| :: rows[i] == if old(rows)[i] == Pending then Errored else old(rows)[i]
      ensures count == Pendings(old(rows))
    {
      count := 0;
      ghost var was := rows;
      for i := 0 to |rows|
        invariant |rows| == |was|
        invariant forall j | 0 <= j < i :: rows[j] == if was[j] == Pending then Errored else was[j]
        invariant forall j | i <= j < |rows| :: rows[j] == was[j]
        invariant count == Pendings(was[..i])
      {
        assert was[..i + 1] == was[..i] + [was[i]];
        if rows[i] == Pending {
          rows := rows[i := Errored];
          count := count + 1;
        }
      }
      assert was[..|was|] == was && rows == Swept(was);
    }
  }

  /** `start_verification` up to its answer, and `run_job`, on the shared parts. */
  class Service {
    const admission: Semaphore
    const slots: Semaphore
    const metrics: Counters
    const db: VerificationTable

    constructor ()
      ensures fresh(admission) && fresh(slots) && fresh(metrics) && fresh(db) && admission != slots
      ensures admission.available == MAX_OUTSTANDING_JOBS && slots.available == MAX_CONCURRENT_BUILDS
      ensures metrics.value == IDLE && db.rows == []
    {
      admission := new Semaphore(MAX_OUTSTANDING_JOBS);
      slots := new Semaphore(MAX_CONCURRENT_BUILDS);
      metrics := new Counters();
      db := new VerificationTable();
    }

    /** Admission: full means refused before anything else is touched; a lookup that fails gives the
        permit back. */
    method StartVerification(resolves: bool) returns (id: int)
      requires admission != slots
      modifies admission, metrics, db
      ensures old(admission.available) == 0 || !resolves ==>
                id == -1 && db.rows == old(db.rows) && metrics.value == old(metrics.value) && admission.available == old(admission.available)
      ensures old(admission.available) > 0 && resolves ==>
                && id == |old(db.rows)| && db.rows == old(db.rows) + [Pending]
                && admission.available == old(admission.available) - 1
                && metrics.value == old(metrics.value).(submitted := old(metrics.value).submitted + 1, inFlight := old(metrics.value).inFlight + 1)
    {
      var ok := admission.TryAcquire();
      if !ok {
        return -1;
      }
      if !resolves {
        admission.Release();
        return -1;
      }
      id := db.InsertPending();
      metrics.OnAccepted();
    }

    /** One job from its slot to its end, alone: whatever its build returns and whether or not its
        write succeeds, both permits are back, the gauge is down by one, and it is queued for
        attestation exactly with a report that forms a claim. */
    method RunJob(id: nat, outcome: Outcome, writes: bool) returns (queued: bool)
      requires admission != slots && slots.available > 0
      modifies admission, slots, metrics, db
      ensures admission.available == old(admission.available) + 1 && slots.available == old(slots.available)
      ensures metrics.value == CountedOnce(old(metrics.value), outcome)
      ensures writes && id < |old(db.rows)| ==>
                db.rows == old(db.rows)[id := if outcome.Failed? then Errored else if outcome.verified then Verified else Mismatch]
      ensures !writes || id >= |old(db.rows)| ==> db.rows == old(db.rows)
      ensures queued <==> outcome.Reported? && outcome.formsClaim
    {
      var acquired := slots.TryAcquire();
      slots.Release();
      match outcome {
        case Reported(verified, formsClaim) =>
          if writes {
            db.Complete(id, if verified then Verified else Mismatch);
          }
          queued := formsClaim;
        case Failed =>
          if writes {
            db.Fail(id);
          }
          queued := false;
      }
      metrics.OnFinished(outcome);
      admission.Release();
    }
  }
}
