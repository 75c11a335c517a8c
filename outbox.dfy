/**
 * The durable retry queue behind span delivery.
 *
 * The `outbox` table is a sequence of rows in insertion order (SQLite's row
 * order); `id` is the primary key and `digest` is unique. The `kv` table is a
 * map from key to stored text. The clock and the random jitter fraction are
 * parameters: `now` in seconds and `jitter` in [0, 0.3].
 */
module Outbox {
  import opened Wrappers

  datatype Row = Row(id: string, digest: string, spanJson: string, tries: nat, nextAttemptAt: real)

  /** What `nextAttempt` hands to a caller. */
  datatype Entry = Entry(id: string, digest: string, spanJson: string, tries: nat)

  function EntryOf(row: Row): Entry {
    Entry(row.id, row.digest, row.spanJson, row.tries)
  }

  /** The only failure the model keeps: a UNIQUE or PRIMARY KEY constraint. */
  datatype StoreError = ConstraintViolation

  /** The cap on one backoff, thirty minutes. */
  const MaxBackoff: real := 1800.0
  /** `markFailure`'s default base delay, and the one `markFailed` stands for. */
  const DefaultBackoff: real := 60.0
  /** The largest jitter fraction `Double.random(in: 0...0.3)` draws. */
  const MaxJitter: real := 0.3

  predicate HasId(rows: seq<Row>, id: string) {
    exists i :: 0 <= i < |rows| && rows[i].id == id
  }

  predicate HasDigest(rows: seq<Row>, digest: string) {
    exists i :: 0 <= i < |rows| && rows[i].digest == digest
  }

  /** The table constraints: no two rows share an id or a digest. */
  predicate UniqueKeys(rows: seq<Row>) {
    forall i, j :: 0 <= i < j < |rows| ==> rows[i].id != rows[j].id && rows[i].digest != rows[j].digest
  }

  predicate IsDue(row: Row, now: real) {
    row.nextAttemptAt <= now
  }

  // ---------------------------------------------------------------------------
  // The row `nextAttempt` picks
  // ---------------------------------------------------------------------------

  /**
   * Row `i` is the one `WHERE next_attempt_at <= now ORDER BY next_attempt_at
   * LIMIT 1` yields: due, no due row is earlier, and among rows due at the
   * same instant it comes first (the index on `next_attempt_at` orders ties
   * by row id, which is insertion order).
   */
  predicate IsEarliestDue(rows: seq<Row>, now: real, i: int) {
    && 0 <= i < |rows|
    && IsDue(rows[i], now)
    && (forall j :: 0 <= j < |rows| && IsDue(rows[j], now) ==> rows[i].nextAttemptAt <= rows[j].nextAttemptAt)
    && (forall j :: 0 <= j < i && IsDue(rows[j], now) ==> rows[i].nextAttemptAt < rows[j].nextAttemptAt)
  }

  /** The index of the earliest due row, scanning the table in order. */
  function EarliestDue(rows: seq<Row>, now: real): (r: Option<nat>)
    ensures r.None? <==> forall j :: 0 <= j < |rows| ==> !IsDue(rows[j], now)
    ensures r.Some? ==> IsEarliestDue(rows, now, r.value)
    decreases |rows|
  {
    if |rows| == 0 then None
    else
      var n := |rows| - 1;
      var prev := EarliestDue(rows[..n], now);
      assert forall j :: 0 <= j < n ==> rows[..n][j] == rows[j];
      if !IsDue(rows[n], now) then prev
      else if prev.None? || rows[n].nextAttemptAt < rows[prev.value].nextAttemptAt then Some(n)
      else prev
  }

  lemma EarliestDueUnique(rows: seq<Row>, now: real, i: int, k: int)
    requires IsEarliestDue(rows, now, i) && IsEarliestDue(rows, now, k)
    ensures i == k
  {
  }

  /** `nextAttempt`'s answer, as a function of the table. */
  function NextEntry(rows: seq<Row>, now: real): Option<Entry> {
    var e := EarliestDue(rows, now);
    if e.Some? then Some(EntryOf(rows[e.value])) else None
  }

  // ---------------------------------------------------------------------------
  // Deleting and rescheduling rows
  // ---------------------------------------------------------------------------

  /** `DELETE FROM outbox WHERE id = ?`. */
  function Remove(rows: seq<Row>, id: string): (r: seq<Row>)
    ensures |r| <= |rows|
    ensures !HasId(r, id)
  {
    if |rows| == 0 then []
    else if rows[0].id == id then Remove(rows[1..], id)
    else [rows[0]] + Remove(rows[1..], id)
  }

  /** The rows left are exactly the rows with another id. */
  lemma {:induction false} RemoveMembers(rows: seq<Row>, id: string)
    ensures forall x :: x in Remove(rows, id) <==> x in rows && x.id != id
  {
    if |rows| > 0 {
      RemoveMembers(rows[1..], id);
      assert rows == [rows[0]] + rows[1..];
    }
  }

  /** Deleting a row that is not there changes nothing. */
  lemma {:induction false} RemoveAbsent(rows: seq<Row>, id: string)
    requires !HasId(rows, id)
    ensures Remove(rows, id) == rows
  {
    if |rows| > 0 {
      assert !HasId(rows[1..], id) by {
        forall i | 0 <= i < |rows[1..]| ensures rows[1..][i].id != id {
          assert rows[1..][i] == rows[i + 1];
        }
      }
      RemoveAbsent(rows[1..], id);
    }
  }

  /** `markSuccess` is idempotent. */
  lemma RemoveIdempotent(rows: seq<Row>, id: string)
    ensures Remove(Remove(rows, id), id) == Remove(rows, id)
  {
    RemoveAbsent(Remove(rows, id), id);
  }

  /** With unique ids, deleting a present id removes exactly one row and keeps the others in order. */
  lemma {:induction false} RemoveOne(rows: seq<Row>, i: int)
    requires UniqueKeys(rows) && 0 <= i < |rows|
    ensures Remove(rows, rows[i].id) == rows[..i] + rows[i + 1..]
  {
    var id := rows[i].id;
    if i == 0 {
      assert !HasId(rows[1..], id) by {
        forall j | 0 <= j < |rows[1..]| ensures rows[1..][j].id != id {
          assert rows[1..][j] == rows[j + 1];
        }
      }
      RemoveAbsent(rows[1..], id);
    } else {
      var tail := rows[1..];
      assert UniqueKeys(tail) by {
        forall a, b | 0 <= a < b < |tail| ensures tail[a].id != tail[b].id && tail[a].digest != tail[b].digest {
          assert tail[a] == rows[a + 1] && tail[b] == rows[b + 1];
        }
      }
      assert tail[i - 1] == rows[i];
      RemoveOne(tail, i - 1);
      assert rows[0].id != id;
      assert rows[..i] == [rows[0]] + tail[..i - 1];
      assert rows[i + 1..] == tail[i..];
    }
  }

  lemma DeleteAtKeepsUnique(rows: seq<Row>, i: int)
    requires UniqueKeys(rows) && 0 <= i < |rows|
    ensures UniqueKeys(rows[..i] + rows[i + 1..])
  {
    var r := rows[..i] + rows[i + 1..];
    assert forall a :: 0 <= a < i ==> r[a] == rows[a];
    assert forall a :: i <= a < |r| ==> r[a] == rows[a + 1];
  }

  lemma RemoveKeepsUnique(rows: seq<Row>, id: string)
    requires UniqueKeys(rows)
    ensures UniqueKeys(Remove(rows, id))
  {
    if HasId(rows, id) {
      var i :| 0 <= i < |rows| && rows[i].id == id;
      RemoveOne(rows, i);
      DeleteAtKeepsUnique(rows, i);
    } else {
      RemoveAbsent(rows, id);
    }
  }

  /** 2^n, exactly. */
  function Pow2(n: nat): (p: real)
    ensures p >= 1.0
  {
    if n == 0 then 1.0 else 2.0 * Pow2(n - 1)
  }

  /** `min(backoffSeconds * pow(2, newTries), 1800)`. */
  function BackoffBase(backoff: real, newTries: nat): (b: real)
    ensures b <= MaxBackoff
    ensures backoff > 0.0 ==> b > 0.0
    ensures backoff * Pow2(newTries) <= MaxBackoff ==> b == backoff * Pow2(newTries)
    ensures backoff * Pow2(newTries) > MaxBackoff ==> b == MaxBackoff
  {
    var raw := backoff * Pow2(newTries);
    if raw <= MaxBackoff then raw else MaxBackoff
  }

  /** The base delay plus a jitter that is the drawn fraction of it. */
  function RetryDelay(backoff: real, newTries: nat, jitter: real): real {
    var base := BackoffBase(backoff, newTries);
    base + jitter * base
  }

  /** The delay lies between the base and 1.3 times the base, so never over 39 minutes. */
  lemma DelayBounds(backoff: real, newTries: nat, jitter: real)
    requires backoff >= 0.0 && 0.0 <= jitter <= MaxJitter
    ensures var base := BackoffBase(backoff, newTries);
      && base <= RetryDelay(backoff, newTries, jitter) <= (1.0 + MaxJitter) * base
      && RetryDelay(backoff, newTries, jitter) <= (1.0 + MaxJitter) * MaxBackoff
  {
    var p := Pow2(newTries);
    var base := BackoffBase(backoff, newTries);
    assert backoff * p >= 0.0;
    assert base >= 0.0;
    MulNonNegative(MaxJitter - jitter, base);
    MulNonNegative(jitter, base);
  }

  lemma MulNonNegative(x: real, y: real)
    requires x >= 0.0 && y >= 0.0
    ensures x * y >= 0.0
  {
  }

  /** The first retry waits twice the base backoff: the exponent is the new try count. */
  lemma FirstRetryDoubles(backoff: real)
    requires 0.0 <= backoff <= 900.0
    ensures BackoffBase(backoff, 1) == 2.0 * backoff
    ensures RetryDelay(DefaultBackoff, 1, 0.0) == 120.0
  {
  }

  /** A row after one more failure at `now`. */
  function Retried(row: Row, now: real, backoff: real, jitter: real): (r: Row)
    ensures r.id == row.id && r.digest == row.digest && r.spanJson == row.spanJson
    ensures r.tries == row.tries + 1
  {
    row.(tries := row.tries + 1, nextAttemptAt := now + RetryDelay(backoff, row.tries + 1, jitter))
  }

  /** The position of the row with this id, if there is one. */
  function IndexOfId(rows: seq<Row>, id: string): (r: Option<nat>)
    ensures r.None? <==> !HasId(rows, id)
    ensures r.Some? ==> r.value < |rows| && rows[r.value].id == id
  {
    if |rows| == 0 then None
    else if rows[0].id == id then Some(0)
    else
      var rest := IndexOfId(rows[1..], id);
      assert forall j :: 0 <= j < |rows| - 1 ==> rows[1..][j] == rows[j + 1];
      if rest.Some? then Some(rest.value + 1) else None
  }

  /** `markFailure`'s effect on the table. */
  function Reschedule(rows: seq<Row>, id: string, now: real, backoff: real, jitter: real): (r: seq<Row>)
    ensures |r| == |rows|
    ensures !HasId(rows, id) ==> r == rows
    ensures HasId(rows, id) ==>
      var i := IndexOfId(rows, id).value;
      r == rows[i := Retried(rows[i], now, backoff, jitter)]
  {
    var i := IndexOfId(rows, id);
    if i.None? then rows else rows[i.value := Retried(rows[i.value], now, backoff, jitter)]
  }

  lemma RescheduleKeepsUnique(rows: seq<Row>, id: string, now: real, backoff: real, jitter: real)
    requires UniqueKeys(rows)
    ensures UniqueKeys(Reschedule(rows, id, now, backoff, jitter))
  {
    var r := Reschedule(rows, id, now, backoff, jitter);
    forall a, b | 0 <= a < b < |r| ensures r[a].id != r[b].id && r[a].digest != r[b].digest {
      assert r[a].id == rows[a].id && r[a].digest == rows[a].digest;
      assert r[b].id == rows[b].id && r[b].digest == rows[b].digest;
    }
  }

  /** With a positive backoff the failed row is not due again at the same instant. */
  lemma FailedRowNotDue(rows: seq<Row>, id: string, now: real, backoff: real, jitter: real)
    requires HasId(rows, id) && backoff > 0.0 && 0.0 <= jitter <= MaxJitter
    ensures var i := IndexOfId(rows, id).value;
      && !IsDue(Reschedule(rows, id, now, backoff, jitter)[i], now)
      && Reschedule(rows, id, now, backoff, jitter)[i].nextAttemptAt <= now + (1.0 + MaxJitter) * MaxBackoff
  {
    var i := IndexOfId(rows, id).value;
    DelayBounds(backoff, rows[i].tries + 1, jitter);
  }

  // ---------------------------------------------------------------------------
  // Counting due rows
  // ---------------------------------------------------------------------------

  function DueCount(rows: seq<Row>, now: real): (n: nat)
    ensures n <= |rows|
    ensures n == 0 <==> forall j :: 0 <= j < |rows| ==> !IsDue(rows[j], now)
  {
    if |rows| == 0 then 0
    else
      assert forall j :: 0 <= j < |rows| - 1 ==> rows[1..][j] == rows[j + 1];
      (if IsDue(rows[0], now) then 1 else 0) + DueCount(rows[1..], now)
  }

  lemma {:induction false} DueCountSplit(a: seq<Row>, b: seq<Row>, now: real)
    ensures DueCount(a + b, now) == DueCount(a, now) + DueCount(b, now)
  {
    if |a| > 0 {
      assert (a + b)[1..] == a[1..] + b;
      DueCountSplit(a[1..], b, now);
    } else {
      assert a + b == b;
    }
  }

  /** Replacing a due row by one that is not due leaves one due row fewer. */
  lemma DueCountReplace(rows: seq<Row>, i: int, row: Row, now: real)
    requires 0 <= i < |rows| && IsDue(rows[i], now) && !IsDue(row, now)
    ensures DueCount(rows[i := row], now) == DueCount(rows, now) - 1
  {
    assert rows == rows[..i] + [rows[i]] + rows[i + 1..];
    assert rows[i := row] == rows[..i] + [row] + rows[i + 1..];
    DueCountSplit(rows[..i] + [rows[i]], rows[i + 1..], now);
    DueCountSplit(rows[..i], [rows[i]], now);
    DueCountSplit(rows[..i] + [row], rows[i + 1..], now);
    DueCountSplit(rows[..i], [row], now);
  }

  /** Deleting a due row leaves one due row fewer. */
  lemma DueCountRemove(rows: seq<Row>, i: int, now: real)
    requires UniqueKeys(rows) && 0 <= i < |rows| && IsDue(rows[i], now)
    ensures DueCount(Remove(rows, rows[i].id), now) == DueCount(rows, now) - 1
  {
    RemoveOne(rows, i);
    assert rows == rows[..i] + [rows[i]] + rows[i + 1..];
    DueCountSplit(rows[..i] + [rows[i]], rows[i + 1..], now);
    DueCountSplit(rows[..i], [rows[i]], now);
    DueCountSplit(rows[..i], rows[i + 1..], now);
  }

  // ---------------------------------------------------------------------------
  // OutboxStore
  // ---------------------------------------------------------------------------

  class OutboxStore {
    var rows: seq<Row>
    var kv: map<string, string>

    predicate Valid()
      reads this
    {
      UniqueKeys(rows)
    }

    /** A store over freshly created, empty tables. */
    constructor()
      ensures Valid() && rows == [] && kv == map[]
    {
      rows := [];
      kv := map[];
    }

    /**
     * `enqueue`: insert a row with no tries, due at once. The insert violates
     * a constraint, and leaves the table as it was, exactly when the id or
     * the digest is already present.
     */
    method Enqueue(spanId: string, digest: string, spanJson: string, now: real) returns (r: Outcome<StoreError>)
      requires Valid()
      modifies this
      ensures Valid()
      ensures r.Pass? <==> !HasId(old(rows), spanId) && !HasDigest(old(rows), digest)
      ensures r.Pass? ==> rows == old(rows) + [Row(spanId, digest, spanJson, 0, now)]
      ensures r.Fail? ==> rows == old(rows)
      ensures kv == old(kv)
    {
      if HasId(rows, spanId) || HasDigest(rows, digest) {
        return Fail(ConstraintViolation);
      }
      rows := rows + [Row(spanId, digest, spanJson, 0, now)];
      r := Pass;
    }

    /**
     * `nextAttempt`: the earliest due row, or nothing when no row is due.
     * It reads the table and changes nothing.
     */
    method NextAttempt(now: real) returns (e: Option<Entry>)
      ensures e.None? <==> forall j :: 0 <= j < |rows| ==> !IsDue(rows[j], now)
      ensures e.Some? ==> exists i :: IsEarliestDue(rows, now, i) && e.value == EntryOf(rows[i])
      ensures e == NextEntry(rows, now)
    {
      var best: Option<nat> := None;
      var i := 0;
      while i < |rows|
        invariant 0 <= i <= |rows|
        invariant best == EarliestDue(rows[..i], now)
      {
        assert rows[..i + 1][..i] == rows[..i];
        if IsDue(rows[i], now) && (best.None? || rows[i].nextAttemptAt < rows[best.value].nextAttemptAt) {
          best := Some(i);
        }
        i := i + 1;
      }
      assert rows[..i] == rows;
      e := if best.Some? then Some(EntryOf(rows[best.value])) else None;
    }

    /** `markSuccess`: delete the row with this id, if any. */
    method MarkSuccess(spanId: string)
      requires Valid()
      modifies this
      ensures Valid()
      ensures rows == Remove(old(rows), spanId)
      ensures kv == old(kv)
    {
      RemoveKeepsUnique(rows, spanId);
      rows := Remove(rows, spanId);
    }

    /**
     * `markFailure`: on the row with this id, one more try and the next
     * attempt pushed back by the capped exponential backoff plus jitter; an
     * unknown id is ignored.
     */
    method MarkFailure(spanId: string, backoffSeconds: real, now: real, jitter: real)
      requires Valid()
      requires 0.0 <= jitter <= MaxJitter
      modifies this
      ensures Valid()
      ensures rows == Reschedule(old(rows), spanId, now, backoffSeconds, jitter)
      ensures kv == old(kv)
    {
      RescheduleKeepsUnique(rows, spanId, now, backoffSeconds, jitter);
      var found := IndexOfId(rows, spanId);
      if found.None? {
        return;
      }
      var i := found.value;
      var row := rows[i];
      var newTries := row.tries + 1;
      var baseBackoff := BackoffBase(backoffSeconds, newTries);
      var jitterSeconds := jitter * baseBackoff;
      assert Retried(row, now, backoffSeconds, jitter) == row.(tries := newTries, nextAttemptAt := now + (baseBackoff + jitterSeconds));
      rows := rows[i := row.(tries := newTries, nextAttemptAt := now + (baseBackoff + jitterSeconds))];
    }

    /** `pendingCount`: every row, due or not. */
    method PendingCount() returns (n: nat)
      ensures n == |rows|
    {
      n := |rows|;
    }

    /** `setValue`: insert the key, or overwrite its value. */
    method SetValue(value: string, key: string)
      modifies this
      ensures kv == old(kv)[key := value]
      ensures rows == old(rows)
    {
      kv := kv[key := value];
    }

    /** `getValue`: the stored value, or nothing for a key never set. */
    method GetValue(key: string) returns (v: Option<string>)
      ensures key in kv <==> v.Some?
      ensures v.Some? ==> v.value == kv[key]
    {
      if key in kv {
        v := Some(kv[key]);
      } else {
        v := None;
      }
    }
  }

  /**
   * Enqueue then `markFailure` with the default backoff: the row is still
   * pending but no longer due, as in the outbox tests.
   */
  lemma FailureDefersOnlyRow(id: string, digest: string, json: string, now: real, jitter: real)
    requires 0.0 <= jitter <= MaxJitter
    ensures var rows := Reschedule([Row(id, digest, json, 0, now)], id, now, DefaultBackoff, jitter);
      && |rows| == 1
      && rows[0].tries == 1
      && NextEntry(rows, now).None?
      && NextEntry([Row(id, digest, json, 0, now)], now) == Some(Entry(id, digest, json, 0))
  {
    var rows := [Row(id, digest, json, 0, now)];
    assert HasId(rows, id) by { assert rows[0].id == id; }
    FailedRowNotDue(rows, id, now, DefaultBackoff, jitter);
  }

  /** A failure never changes the pending count, and a success on a present id lowers it by one. */
  lemma PendingCountEffects(rows: seq<Row>, i: int, now: real, backoff: real, jitter: real)
    requires UniqueKeys(rows) && 0 <= i < |rows|
    ensures |Reschedule(rows, rows[i].id, now, backoff, jitter)| == |rows|
    ensures |Remove(rows, rows[i].id)| == |rows| - 1
  {
    RemoveOne(rows, i);
  }
}
