/**
 * The shape of `processOutbox`'s drain, apart from what an upload does: at
 * most `MaxBatch` steps, each taking the earliest due row and then deleting
 * it (a delivery, or a span text that no longer decodes) or rescheduling it
 * with the default backoff. What happens to a row's upload at step `k` is the
 * `attempt` function of a `DrainEnv`; the client supplies it.
 *
 * The drain itself is written over any step function; the facts about it are
 * proved for every step function that keeps the per-step facts, and the
 * outbox's own step is shown to keep them.
 */
module Drain {
  import opened Wrappers
  import opened Outbox

  /** At most this many rows per `processOutbox` call. */
  const MaxBatch: nat := 10

  /** A step's outcome: the table afterwards and the deliveries it adds. */
  datatype Turned = Turned(after: seq<Row>, delivered: nat)

  /**
   * A drain's outcome: its success count, the table it leaves, and the step
   * at which it stopped (`MaxBatch` when it used every step).
   */
  datatype Drained = Drained(count: nat, rest: seq<Row>, stoppedAt: nat)

  /** What happened to the row handed out by one drain step. */
  datatype Delivery = Undecodable | Delivered | Deferred

  /**
   * Everything a drain depends on besides the table: each step's fate for a
   * row's span text, the clock readings, and each step's jitter fraction.
   * Step `k` reads the clock twice: `picked[k]` when `nextAttempt` picks a
   * row, and `failed[k]` when `markFailure` reschedules it after the upload.
   */
  datatype DrainEnv = DrainEnv(
    attempt: (nat, string) -> Delivery,
    picked: seq<real>,
    failed: seq<real>,
    jitters: seq<real>)

  /** One jitter fraction per step, each in `[0, MaxJitter]`. */
  predicate JittersOk(jitters: seq<real>) {
    |jitters| == MaxBatch && forall i :: 0 <= i < |jitters| ==> 0.0 <= jitters[i] <= MaxJitter
  }

  /**
   * One pair of clock readings per step, in the order they are taken: the
   * clock does not run backwards during a drain.
   */
  predicate ReadingsOk(picked: seq<real>, failed: seq<real>) {
    && |picked| == MaxBatch && |failed| == MaxBatch
    && (forall k :: 0 <= k < MaxBatch ==> picked[k] <= failed[k])
    && (forall k :: 0 <= k < MaxBatch - 1 ==> failed[k] <= picked[k + 1])
  }

  predicate EnvOk(env: DrainEnv) {
    JittersOk(env.jitters) && ReadingsOk(env.picked, env.failed)
  }

  function Min(a: nat, b: nat): nat {
    if a <= b then a else b
  }

  /** The jitter fraction step `k` draws. */
  function JitterAt(env: DrainEnv, k: nat): real {
    if k < |env.jitters| then env.jitters[k] else 0.0
  }

  /** The clock reading `nextAttempt` takes at step `k`. */
  function PickedAt(env: DrainEnv, k: nat): real {
    if k < |env.picked| then env.picked[k] else 0.0
  }

  /** The clock reading `markFailure` takes at step `k`. */
  function FailedAt(env: DrainEnv, k: nat): real {
    if k < |env.failed| then env.failed[k] else 0.0
  }

  /** The first reading of a drain, when it begins. */
  function Start(env: DrainEnv): real {
    PickedAt(env, 0)
  }

  /** The latest reading at which a drain may pick a row. */
  function Last(env: DrainEnv): real {
    PickedAt(env, MaxBatch - 1)
  }

  /** Readings taken in order do not decrease, from one step to any later one. */
  lemma ReadingsRise(env: DrainEnv, i: nat, j: nat)
    requires EnvOk(env) && i <= j < MaxBatch
    ensures PickedAt(env, i) <= PickedAt(env, j) <= FailedAt(env, j)
  {
  }

  /**
   * One drain step on the row `nextAttempt` handed out: the table afterwards
   * and how many deliveries it adds. An undecodable row is deleted without an
   * upload and not counted, a delivered row is deleted and counted, and any
   * other outcome reschedules the row with the default backoff from the
   * step's second clock reading.
   */
  function Step(env: DrainEnv, rows: seq<Row>, k: nat, e: Entry): Turned {
    match env.attempt(k, e.spanJson)
    case Undecodable => Turned(Remove(rows, e.id), 0)
    case Delivered => Turned(Remove(rows, e.id), 1)
    case Deferred => Turned(Reschedule(rows, e.id, FailedAt(env, k), DefaultBackoff, JitterAt(env, k)), 0)
  }

  /**
   * A step function: from the table and the step number, nothing when no row
   * is due, and otherwise the table after handling the row `nextAttempt`
   * hands out, with the deliveries that added.
   */
  type StepFn = (seq<Row>, nat) -> Option<Turned>

  type Rows = seq<Row>

  function StepOf(env: DrainEnv): StepFn {
    (rows: seq<Row>, k: nat) =>
      match NextEntry(rows, PickedAt(env, k))
      case None => None
      case Some(e) => Some(Step(env, rows, k, e))
  }

  /**
   * The drain from step `k` on, with `count` deliveries so far: the success
   * count it returns and the table it leaves. It stops after `MaxBatch`
   * steps or when no row is due.
   */
  function DrainFrom(step: StepFn, rows: seq<Row>, k: nat, count: nat): Drained
    decreases MaxBatch - k
  {
    if k >= MaxBatch then Drained(count, rows, k)
    else
      match step(rows, k)
      case None => Drained(count, rows, k)
      case Some(next) => DrainFrom(step, next.after, k + 1, count + next.delivered)
  }

  /** Row `y` comes from a row of `rows` with the same id, digest and text and no more tries. */
  predicate DescendsFrom(y: Row, rows: seq<Row>) {
    exists x :: x in rows && x.id == y.id && x.digest == y.digest && x.spanJson == y.spanJson && x.tries <= y.tries
  }

  // ---------------------------------------------------------------------------
  // One step
  // ---------------------------------------------------------------------------

  /** The row a step works on is the earliest due one, and its id names it. */
  lemma StepRow(rows: seq<Row>, now: real) returns (i: nat)
    requires NextEntry(rows, now).Some?
    ensures IsEarliestDue(rows, now, i)
    ensures NextEntry(rows, now).value.id == rows[i].id
    ensures NextEntry(rows, now).value.spanJson == rows[i].spanJson
  {
    i := EarliestDue(rows, now).value;
  }

  /**
   * When some row is due at `t`, the earliest row due at any later `u` was
   * already due at `t`: a row falling due in between is never picked ahead
   * of one that was waiting.
   */
  lemma EarliestWasDue(rows: seq<Row>, t: real, u: real, i: nat)
    requires t <= u && IsEarliestDue(rows, u, i)
    requires DueCount(rows, t) > 0
    ensures IsDue(rows[i], t)
  {
    var j :| 0 <= j < |rows| && IsDue(rows[j], t);
    assert IsDue(rows[j], u);
  }

  /** A row is handed out at `u` whenever one was due at an earlier `t`. */
  lemma DueStaysDue(rows: seq<Row>, t: real, u: real)
    requires t <= u && DueCount(rows, t) > 0
    ensures NextEntry(rows, u).Some?
  {
    var j :| 0 <= j < |rows| && IsDue(rows[j], t);
    assert IsDue(rows[j], u);
  }

  /** Deleting the due row `i` keeps the constraints and takes one row, a due one, away. */
  lemma DeleteStep(rows: seq<Row>, i: nat, now: real)
    requires UniqueKeys(rows) && i < |rows| && IsDue(rows[i], now)
    ensures UniqueKeys(Remove(rows, rows[i].id))
    ensures DueCount(Remove(rows, rows[i].id), now) == DueCount(rows, now) - 1
    ensures |Remove(rows, rows[i].id)| + 1 == |rows|
  {
    RemoveKeepsUnique(rows, rows[i].id);
    DueCountRemove(rows, i, now);
    RemoveOne(rows, i);
  }

  /**
   * Rescheduling the row `i`, due at `t`, from a reading `at` no earlier than
   * `t` keeps the constraints and takes the row out of the set due at `t`.
   */
  lemma DeferStep(rows: seq<Row>, i: nat, t: real, at: real, jitter: real)
    requires UniqueKeys(rows) && i < |rows| && IsDue(rows[i], t) && t <= at
    requires 0.0 <= jitter <= MaxJitter
    ensures UniqueKeys(Reschedule(rows, rows[i].id, at, DefaultBackoff, jitter))
    ensures Reschedule(rows, rows[i].id, at, DefaultBackoff, jitter) == rows[i := Retried(rows[i], at, DefaultBackoff, jitter)]
    ensures !IsDue(Retried(rows[i], at, DefaultBackoff, jitter), at)
    ensures DueCount(Reschedule(rows, rows[i].id, at, DefaultBackoff, jitter), t) == DueCount(rows, t) - 1
  {
    var id := rows[i].id;
    var next := Reschedule(rows, id, at, DefaultBackoff, jitter);
    assert HasId(rows, id);
    assert IndexOfId(rows, id).value == i;
    RescheduleKeepsUnique(rows, id, at, DefaultBackoff, jitter);
    FailedRowNotDue(rows, id, at, DefaultBackoff, jitter);
    DueCountReplace(rows, i, next[i], t);
  }

  /**
   * The step facts the drain's counts rest on, at one table and step: the
   * step goes on whenever a row is due, and then keeps the constraints,
   * takes one row out of the due set if it has any, and deletes a row for
   * each delivery it counts.
   */
  ghost predicate CountsAt(step: StepFn, ok: Rows -> bool, due: Rows -> nat, rows: seq<Row>, k: nat) {
    k < MaxBatch && ok(rows) ==>
      && (due(rows) > 0 ==> step(rows, k).Some?)
      && (step(rows, k).Some? ==>
            && ok(step(rows, k).value.after)
            && due(step(rows, k).value.after) == due(rows) - Min(1, due(rows))
            && step(rows, k).value.delivered <= 1
            && |step(rows, k).value.after| + step(rows, k).value.delivered <= |rows|)
  }

  /** The step leaves the rows that are not due at `later` where they were. */
  ghost predicate IdleAt(step: StepFn, ok: Rows -> bool, later: real, rows: seq<Row>, k: nat) {
    k < MaxBatch && ok(rows) && step(rows, k).Some? ==>
      forall x :: x in rows && !IsDue(x, later) ==> x in step(rows, k).value.after
  }

  /** The step adds no row: each row afterwards is an earlier one, perhaps retried. */
  ghost predicate DescendAt(step: StepFn, ok: Rows -> bool, rows: seq<Row>, k: nat) {
    k < MaxBatch && ok(rows) && step(rows, k).Some? ==>
      forall y :: y in step(rows, k).value.after ==> DescendsFrom(y, rows)
  }

  ghost predicate StepsCount(step: StepFn, ok: Rows -> bool, due: Rows -> nat) {
    forall rows, k: nat :: CountsAt(step, ok, due, rows, k)
  }

  ghost predicate StepsKeepIdle(step: StepFn, ok: Rows -> bool, later: real) {
    forall rows, k: nat :: IdleAt(step, ok, later, rows, k)
  }

  ghost predicate StepsDescend(step: StepFn, ok: Rows -> bool) {
    forall rows, k: nat :: DescendAt(step, ok, rows, k)
  }

  /** The number of rows of a table due at `now`, as a function of the table. */
  function DueIn(now: real): Rows -> nat {
    rows => DueCount(rows, now)
  }

  /**
   * The outbox's step keeps the table's constraints, takes one row out of
   * the set due when the drain began (if that set is not empty), and deletes
   * a row for each delivery it counts.
   */
  lemma StepCounts(env: DrainEnv, rows: seq<Row>, k: nat, e: Entry)
    requires EnvOk(env) && k < MaxBatch
    requires UniqueKeys(rows)
    requires NextEntry(rows, PickedAt(env, k)) == Some(e)
    ensures UniqueKeys(Step(env, rows, k, e).after)
    ensures DueCount(Step(env, rows, k, e).after, Start(env))
         == DueCount(rows, Start(env)) - Min(1, DueCount(rows, Start(env)))
    ensures Step(env, rows, k, e).delivered <= 1
    ensures |Step(env, rows, k, e).after| + Step(env, rows, k, e).delivered <= |rows|
  {
    var t0, p, f := Start(env), PickedAt(env, k), FailedAt(env, k);
    var next := Step(env, rows, k, e).after;
    ReadingsRise(env, 0, k);
    var i := StepRow(rows, p);
    var t := if DueCount(rows, t0) > 0 then t0 else p;
    if DueCount(rows, t0) > 0 {
      EarliestWasDue(rows, t0, p, i);
    }
    if env.attempt(k, e.spanJson) == Deferred {
      DeferStep(rows, i, t, f, env.jitters[k]);
      if DueCount(rows, t0) == 0 {
        forall j | 0 <= j < |next| ensures !IsDue(next[j], t0) {
          if j != i {
            assert next[j] == rows[j];
          }
        }
      }
    } else {
      DeleteStep(rows, i, t);
      if DueCount(rows, t0) == 0 {
        RemoveMembers(rows, e.id);
        forall j | 0 <= j < |next| ensures !IsDue(next[j], t0) {
          assert next[j] in rows;
        }
      }
    }
  }

  /** The outbox's step leaves every row not due at the drain's last reading where it was. */
  lemma StepKeepsIdle(env: DrainEnv, rows: seq<Row>, k: nat, e: Entry)
    requires EnvOk(env) && k < MaxBatch
    requires UniqueKeys(rows)
    requires NextEntry(rows, PickedAt(env, k)) == Some(e)
    ensures forall x :: x in rows && !IsDue(x, Last(env)) ==> x in Step(env, rows, k, e).after
  {
    var p := PickedAt(env, k);
    ReadingsRise(env, k, MaxBatch - 1);
    var i := StepRow(rows, p);
    var next := Step(env, rows, k, e).after;
    if env.attempt(k, e.spanJson) == Deferred {
      DeferStep(rows, i, p, FailedAt(env, k), env.jitters[k]);
      forall x | x in rows && !IsDue(x, Last(env)) ensures x in next {
        var a :| 0 <= a < |rows| && rows[a] == x;
        assert a != i && next[a] == x;
      }
    } else {
      RemoveMembers(rows, e.id);
    }
  }

  /** The outbox's step adds no row. */
  lemma StepDescends(env: DrainEnv, rows: seq<Row>, k: nat, e: Entry)
    requires EnvOk(env) && k < MaxBatch
    requires UniqueKeys(rows)
    requires NextEntry(rows, PickedAt(env, k)) == Some(e)
    ensures forall y :: y in Step(env, rows, k, e).after ==> DescendsFrom(y, rows)
  {
    var p := PickedAt(env, k);
    ReadingsRise(env, k, k);
    var i := StepRow(rows, p);
    var next := Step(env, rows, k, e).after;
    if env.attempt(k, e.spanJson) == Deferred {
      DeferStep(rows, i, p, FailedAt(env, k), env.jitters[k]);
      forall y | y in next ensures DescendsFrom(y, rows) {
        var a :| 0 <= a < |next| && next[a] == y;
        assert rows[a] in rows;
      }
    } else {
      RemoveMembers(rows, e.id);
      forall y | y in next ensures DescendsFrom(y, rows) {
        assert y in rows;
      }
    }
  }

  /** The outbox's step function at one table: nothing when `nextAttempt` finds no row, else `Step` on the row it finds. */
  lemma StepOfAt(env: DrainEnv, rows: seq<Row>, k: nat)
    ensures NextEntry(rows, PickedAt(env, k)).None? ==> StepOf(env)(rows, k).None?
    ensures NextEntry(rows, PickedAt(env, k)).Some? ==>
      StepOf(env)(rows, k) == Some(Step(env, rows, k, NextEntry(rows, PickedAt(env, k)).value))
  {
  }

  /** No row is handed out exactly when none is due. */
  lemma NoEntryWhenNoneDue(rows: seq<Row>, now: real)
    ensures NextEntry(rows, now).None? <==> DueCount(rows, now) == 0
  {
  }

  /**
   * The outbox's step function keeps all three kinds of step facts, with
   * the due set taken when the drain begins and the idle rows those not due
   * at its last reading.
   */
  lemma OutboxStepSound(env: DrainEnv)
    requires EnvOk(env)
    ensures StepsCount(StepOf(env), UniqueKeys, DueIn(Start(env)))
    ensures StepsKeepIdle(StepOf(env), UniqueKeys, Last(env))
    ensures StepsDescend(StepOf(env), UniqueKeys)
  {
    var step := StepOf(env);
    forall rows, k: nat
      ensures CountsAt(step, UniqueKeys, DueIn(Start(env)), rows, k)
      ensures IdleAt(step, UniqueKeys, Last(env), rows, k)
      ensures DescendAt(step, UniqueKeys, rows, k)
    {
      if k < MaxBatch && UniqueKeys(rows) {
        if DueCount(rows, Start(env)) > 0 {
          ReadingsRise(env, 0, k);
          DueStaysDue(rows, Start(env), PickedAt(env, k));
        }
        if NextEntry(rows, PickedAt(env, k)).Some? {
          var e := NextEntry(rows, PickedAt(env, k)).value;
          assert step(rows, k) == Some(Step(env, rows, k, e));
          StepCounts(env, rows, k, e);
          StepKeepsIdle(env, rows, k, e);
          StepDescends(env, rows, k, e);
        }
      }
    }
  }

  // ---------------------------------------------------------------------------
  // The whole drain
  // ---------------------------------------------------------------------------

  /** One step of the drain, unfolded: what the loop of `processOutbox` follows. */
  lemma DrainUnfold(step: StepFn, rows: seq<Row>, k: nat, count: nat)
    requires k < MaxBatch && step(rows, k).Some?
    ensures DrainFrom(step, rows, k, count)
         == DrainFrom(step, step(rows, k).value.after, k + 1, count + step(rows, k).value.delivered)
  {
  }

  /** With no row due, or no step left, the drain stops where it is. */
  lemma DrainStops(step: StepFn, rows: seq<Row>, k: nat, count: nat)
    requires k >= MaxBatch || step(rows, k).None?
    ensures DrainFrom(step, rows, k, count) == Drained(count, rows, k)
  {
  }

  /**
   * A drain from step `k` stops at some step from `k` to `MaxBatch`, and
   * before `MaxBatch` only where its step function finds nothing to do.
   */
  lemma {:induction false} DrainEnds(step: StepFn, rows: seq<Row>, k: nat, count: nat)
    requires k <= MaxBatch
    ensures k <= DrainFrom(step, rows, k, count).stoppedAt <= MaxBatch
    ensures DrainFrom(step, rows, k, count).stoppedAt < MaxBatch ==>
      step(DrainFrom(step, rows, k, count).rest, DrainFrom(step, rows, k, count).stoppedAt).None?
    decreases MaxBatch - k
  {
    if k < MaxBatch && step(rows, k).Some? {
      var next := step(rows, k).value;
      DrainEnds(step, next.after, k + 1, count + next.delivered);
      DrainUnfold(step, rows, k, count);
    } else {
      DrainStops(step, rows, k, count);
    }
  }

  /** Each step keeps the table's constraints, so the drain does too. */
  lemma {:induction false} DrainKeepsUnique(step: StepFn, ok: Rows -> bool, due: Rows -> nat, rows: seq<Row>, k: nat, count: nat)
    requires StepsCount(step, ok, due) && ok(rows) && k <= MaxBatch
    ensures ok(DrainFrom(step, rows, k, count).rest)
    decreases MaxBatch - k
  {
    assert CountsAt(step, ok, due, rows, k);
    if k < MaxBatch && step(rows, k).Some? {
      var next := step(rows, k).value;
      DrainKeepsUnique(step, ok, due, next.after, k + 1, count + next.delivered);
      DrainUnfold(step, rows, k, count);
    } else {
      DrainStops(step, rows, k, count);
    }
  }

  /**
   * Each step removes one row from the due set while it has any, and a step
   * always goes on while it does, so a drain takes `min(MaxBatch, due rows)`
   * rows out of it.
   */
  lemma {:induction false} DrainDue(step: StepFn, ok: Rows -> bool, due: Rows -> nat, rows: seq<Row>, k: nat, count: nat)
    requires StepsCount(step, ok, due) && ok(rows) && k <= MaxBatch
    ensures due(DrainFrom(step, rows, k, count).rest) == due(rows) - Min(MaxBatch - k, due(rows))
    decreases MaxBatch - k
  {
    assert CountsAt(step, ok, due, rows, k);
    if k < MaxBatch && step(rows, k).Some? {
      var next := step(rows, k).value;
      DrainDue(step, ok, due, next.after, k + 1, count + next.delivered);
      DrainUnfold(step, rows, k, count);
    } else {
      DrainStops(step, rows, k, count);
    }
  }

  /** The drain's count is the number of deliveries, at most one per step. */
  lemma {:induction false} DrainCountBounded(step: StepFn, ok: Rows -> bool, due: Rows -> nat, rows: seq<Row>, k: nat, count: nat)
    requires StepsCount(step, ok, due) && ok(rows) && k <= MaxBatch
    ensures count <= DrainFrom(step, rows, k, count).count
    ensures DrainFrom(step, rows, k, count).count <= count + (MaxBatch - k)
    decreases MaxBatch - k
  {
    assert CountsAt(step, ok, due, rows, k);
    if k < MaxBatch && step(rows, k).Some? {
      var next := step(rows, k).value;
      assert next.delivered <= 1;
      DrainCountBounded(step, ok, due, next.after, k + 1, count + next.delivered);
      DrainUnfold(step, rows, k, count);
    } else {
      DrainStops(step, rows, k, count);
    }
  }

  /** Each delivery the drain counts deleted a row. */
  lemma {:induction false} DrainCountsDeletes(step: StepFn, ok: Rows -> bool, due: Rows -> nat, rows: seq<Row>, k: nat, count: nat)
    requires StepsCount(step, ok, due) && ok(rows) && k <= MaxBatch
    ensures |DrainFrom(step, rows, k, count).rest| + DrainFrom(step, rows, k, count).count <= |rows| + count
    decreases MaxBatch - k
  {
    assert CountsAt(step, ok, due, rows, k);
    if k < MaxBatch && step(rows, k).Some? {
      var next := step(rows, k).value;
      DrainCountsDeletes(step, ok, due, next.after, k + 1, count + next.delivered);
      DrainUnfold(step, rows, k, count);
    } else {
      DrainStops(step, rows, k, count);
    }
  }

  /** Rows that are not due at `later` are all still there at the drain's end. */
  lemma {:induction false} DrainKeepsIdle(step: StepFn, ok: Rows -> bool, due: Rows -> nat, later: real, rows: seq<Row>, k: nat, count: nat)
    requires StepsCount(step, ok, due) && StepsKeepIdle(step, ok, later) && ok(rows) && k <= MaxBatch
    ensures forall x :: x in rows && !IsDue(x, later) ==> x in DrainFrom(step, rows, k, count).rest
    decreases MaxBatch - k
  {
    assert CountsAt(step, ok, due, rows, k) && IdleAt(step, ok, later, rows, k);
    if k < MaxBatch && step(rows, k).Some? {
      var next := step(rows, k).value;
      DrainKeepsIdle(step, ok, due, later, next.after, k + 1, count + next.delivered);
      DrainUnfold(step, rows, k, count);
    } else {
      DrainStops(step, rows, k, count);
    }
  }

  /** No row appears during a drain: each row at its end descends from one at its start. */
  lemma {:induction false} DrainDescends(step: StepFn, ok: Rows -> bool, due: Rows -> nat, rows: seq<Row>, k: nat, count: nat)
    requires StepsCount(step, ok, due) && StepsDescend(step, ok) && ok(rows) && k <= MaxBatch
    ensures forall y :: y in DrainFrom(step, rows, k, count).rest ==> DescendsFrom(y, rows)
    decreases MaxBatch - k
  {
    var after := DrainFrom(step, rows, k, count).rest;
    assert CountsAt(step, ok, due, rows, k) && DescendAt(step, ok, rows, k);
    if k < MaxBatch && step(rows, k).Some? {
      var next := step(rows, k).value;
      DrainDescends(step, ok, due, next.after, k + 1, count + next.delivered);
      DrainUnfold(step, rows, k, count);
      forall y | y in after ensures DescendsFrom(y, rows) {
        var x :| x in next.after && x.id == y.id && x.digest == y.digest && x.spanJson == y.spanJson && x.tries <= y.tries;
        assert DescendsFrom(x, rows);
      }
    } else {
      DrainStops(step, rows, k, count);
      forall y | y in after ensures DescendsFrom(y, rows) {
        assert y in rows;
      }
    }
  }

  /**
   * What one `processOutbox` call does to the table, whatever its uploads
   * return and however the clock moves forward during it. Of the rows due
   * when it begins it takes `min(MaxBatch, due rows)` out of the due set, so
   * it leaves such rows behind only after `MaxBatch` steps; when it stops
   * earlier, nothing is due at the step where it stops; it counts at most
   * `MaxBatch` deliveries, each of which deleted a row; rows not due even at
   * its last reading stay as they were; and it adds no row and keeps the
   * table's constraints. Readings after the step where it stops are never
   * taken, so the idle rows may be read at the last reading actually taken.
   */
  lemma DrainOutbox(env: DrainEnv, rows: seq<Row>)
    requires EnvOk(env) && UniqueKeys(rows)
    ensures UniqueKeys(DrainFrom(StepOf(env), rows, 0, 0).rest)
    ensures DrainFrom(StepOf(env), rows, 0, 0).count <= MaxBatch
    ensures |DrainFrom(StepOf(env), rows, 0, 0).rest| + DrainFrom(StepOf(env), rows, 0, 0).count <= |rows|
    ensures DueCount(DrainFrom(StepOf(env), rows, 0, 0).rest, Start(env))
         == DueCount(rows, Start(env)) - Min(MaxBatch, DueCount(rows, Start(env)))
    ensures var d := DrainFrom(StepOf(env), rows, 0, 0);
      d.stoppedAt <= MaxBatch && (d.stoppedAt < MaxBatch ==> DueCount(d.rest, PickedAt(env, d.stoppedAt)) == 0)
    ensures forall x :: x in rows && !IsDue(x, Last(env)) ==> x in DrainFrom(StepOf(env), rows, 0, 0).rest
    ensures forall y :: y in DrainFrom(StepOf(env), rows, 0, 0).rest ==> DescendsFrom(y, rows)
  {
    var step := StepOf(env);
    var due := DueIn(Start(env));
    OutboxStepSound(env);
    DrainKeepsUnique(step, UniqueKeys, due, rows, 0, 0);
    DrainDue(step, UniqueKeys, due, rows, 0, 0);
    DrainCountBounded(step, UniqueKeys, due, rows, 0, 0);
    DrainCountsDeletes(step, UniqueKeys, due, rows, 0, 0);
    DrainKeepsIdle(step, UniqueKeys, due, Last(env), rows, 0, 0);
    DrainDescends(step, UniqueKeys, due, rows, 0, 0);
    DrainEnds(step, rows, 0, 0);
    var d := DrainFrom(step, rows, 0, 0);
    if d.stoppedAt < MaxBatch {
      StepOfAt(env, d.rest, d.stoppedAt);
      NoEntryWhenNoneDue(d.rest, PickedAt(env, d.stoppedAt));
    }
  }
}
