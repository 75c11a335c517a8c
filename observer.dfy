/**
 * The menu-bar app's activity observer: while running it records each
 * change of frontmost (app, window) as an "activity" span, with window titles
 * that mention a sensitive word replaced by a placeholder, and hands the span
 * to the notary service.
 *
 * Which app and window are in front, the clock's ISO-8601 text and the span
 * id are parameters. The notification observer and the poll timer are
 * installed and removed together; `listening` says whether they are.
 */
module Observer {
  import opened Wrappers
  import opened Envelope

  /** The words whose presence in a window title hides the title. */
  const RedactionPatterns: seq<string> :=
    ["password", "credit card", "ssn", "social security", "private", "confidential"]

  const Redacted: string := "[REDACTED]"
  const UnknownApp: string := "Unknown"

  // ---------------------------------------------------------------------------
  // Redaction
  // ---------------------------------------------------------------------------

  /** `Character.lowercased()` on ASCII letters; every other character is kept. */
  function LowerChar(c: char): char {
    if 'A' <= c <= 'Z' then (c as int - 'A' as int + 'a' as int) as char else c
  }

  function Lowercased(s: string): (r: string)
    ensures |r| == |s|
    ensures forall i :: 0 <= i < |s| ==> r[i] == LowerChar(s[i])
  {
    seq(|s|, i requires 0 <= i < |s| => LowerChar(s[i]))
  }

  /** The pattern occurs in the text at position `i`. */
  predicate OccursAt(text: string, pattern: string, i: int) {
    0 <= i <= |text| - |pattern| && text[i..i + |pattern|] == pattern
  }

  /** `text.contains(pattern)`: the pattern occurs at some position. */
  predicate Contains(text: string, pattern: string) {
    exists i :: 0 <= i <= |text| - |pattern| && OccursAt(text, pattern, i)
  }

  /** The lowered title contains one of the patterns. */
  predicate Sensitive(text: string) {
    exists p :: p in RedactionPatterns && Contains(Lowercased(text), p)
  }

  /** The loop over the patterns, in order, stopping at the first that occurs. */
  function FirstMatch(lower: string, patterns: seq<string>): (r: bool)
    ensures r <==> exists p :: p in patterns && Contains(lower, p)
  {
    if patterns == [] then false
    else if Contains(lower, patterns[0]) then true
    else FirstMatch(lower, patterns[1..])
  }

  /** `redactSensitiveInfo`: the placeholder when the title is sensitive, the title itself otherwise. */
  function RedactSensitiveInfo(text: string): string {
    if FirstMatch(Lowercased(text), RedactionPatterns) then Redacted else text
  }

  /** The placeholder mentions none of the patterns. */
  lemma PlaceholderNotSensitive()
    ensures !Sensitive(Redacted)
  {
    var lower := Lowercased(Redacted);
    assert lower == "[redacted]";
    forall p | p in RedactionPatterns ensures !Contains(lower, p) {
      forall i ensures !OccursAt(lower, p, i) {
        if 0 <= i <= |lower| - |p| {
          assert lower[i..i + |p|][0] == lower[i];
          assert p[0] in "pcsc";
        }
      }
    }
  }

  /**
   * A title is replaced by the placeholder exactly when its lowered text
   * contains a pattern, and kept unchanged otherwise; what comes out is
   * never sensitive, so redacting twice is redacting once.
   */
  lemma RedactMeaning(text: string)
    ensures Sensitive(text) ==> RedactSensitiveInfo(text) == Redacted
    ensures !Sensitive(text) ==> RedactSensitiveInfo(text) == text
    ensures !Sensitive(RedactSensitiveInfo(text))
    ensures RedactSensitiveInfo(RedactSensitiveInfo(text)) == RedactSensitiveInfo(text)
  {
    PlaceholderNotSensitive();
  }

  /** Case does not matter: a title and its lowered form are redacted alike. */
  lemma RedactIgnoresCase(text: string)
    ensures Sensitive(text) <==> Sensitive(Lowercased(text))
  {
    assert Lowercased(Lowercased(text)) == Lowercased(text);
  }

  // ---------------------------------------------------------------------------
  // The activity span
  // ---------------------------------------------------------------------------

  /** The `input` of an activity span. */
  function ActivityInput(app: string, window: string): map<string, Payload> {
    map["app_name" := AnyString(app), "window_title" := AnyString(window)]
  }

  /** `createActivitySpan(app:window:)`, with the id and the timestamp text as parameters. */
  function CreateActivitySpan(id: string, app: string, window: string, ts: string): SpanEnvelope {
    SpanEnvelope(id, "activity", "observer:menubar@1.0.0", "focused", "device:local", "complete",
                 Some(ActivityInput(app, window)), Some(map[]), SpanMetadata(None, None, None, ts),
                 "private", None, None)
  }

  /** The window title an activity span carries. */
  predicate CarriesCleanTitle(span: SpanEnvelope) {
    && span.input.Some?
    && "window_title" in span.input.value
    && span.input.value["window_title"].AnyString?
    && !Sensitive(span.input.value["window_title"].s)
  }

  /** An activity span built from a redacted title carries no sensitive title, and encodes. */
  lemma ActivitySpanSendable(id: string, app: string, window: string, ts: string)
    ensures var span := CreateActivitySpan(id, app, RedactSensitiveInfo(window), ts);
      CarriesCleanTitle(span) && SpanToJson(span).Ok?
  {
    ActivitySpanSound(id, app, window, ts);
  }

  /**
   * An activity span built from a redacted title carries no sensitive title,
   * is unsigned, names no tenant, owner or device, and survives the JSON
   * round trip `sendSpan` puts it through.
   */
  lemma ActivitySpanSound(id: string, app: string, window: string, ts: string)
    ensures var span := CreateActivitySpan(id, app, RedactSensitiveInfo(window), ts);
      && CarriesCleanTitle(span)
      && span.input.value["app_name"] == AnyString(app)
      && span.digest.None? && span.signature.None?
      && span.metadata == SpanMetadata(None, None, None, ts)
      && SpanToJson(span).Ok?
      && SpanFromJson(SpanToJson(span).value) == Ok(span)
  {
    RedactMeaning(window);
    var span := CreateActivitySpan(id, app, RedactSensitiveInfo(window), ts);
    assert FieldsFaithful(span.input) && FieldsFaithful(span.output);
    SpanRoundTrip(span);
  }

  /** No span of the list carries a sensitive window title. */
  predicate AllClean(spans: seq<SpanEnvelope>) {
    forall i :: 0 <= i < |spans| ==> CarriesCleanTitle(spans[i])
  }

  /** No pair of the list is followed by itself. */
  predicate NoRepeats(pairs: seq<(string, string)>) {
    forall i :: 0 <= i < |pairs| - 1 ==> pairs[i] != pairs[i + 1]
  }

  lemma AllCleanAppend(spans: seq<SpanEnvelope>, span: SpanEnvelope)
    requires AllClean(spans) && CarriesCleanTitle(span)
    ensures AllClean(spans + [span])
  {
    assert forall i :: 0 <= i < |spans| ==> (spans + [span])[i] == spans[i];
  }

  lemma NoRepeatsAppend(pairs: seq<(string, string)>, pair: (string, string))
    requires NoRepeats(pairs) && (pairs != [] ==> pairs[|pairs| - 1] != pair)
    ensures NoRepeats(pairs + [pair])
  {
    assert forall i :: 0 <= i < |pairs| ==> (pairs + [pair])[i] == pairs[i];
  }

  // ---------------------------------------------------------------------------
  // ActivityObserver
  // ---------------------------------------------------------------------------

  class ActivityObserver {
    var isRunning: bool
    /** The workspace notification observer and the poll timer are installed. */
    var listening: bool
    var lastActivity: Option<(string, string)>
    /** The spans handed to the XPC connection, oldest first. */
    var sent: seq<SpanEnvelope>
    /** Whether the weak XPC connection is still there. */
    const connected: bool
    /** The (app, window) pairs recorded so far, oldest first. */
    ghost var recorded: seq<(string, string)>

    /**
     * Running exactly while listening; the last activity is the last pair
     * recorded; no pair is recorded twice in a row; and nothing sent carries
     * a sensitive window title.
     */
    ghost predicate Valid()
      reads this
    {
      && isRunning == listening
      && (recorded == [] ==> lastActivity.None?)
      && (recorded != [] ==> lastActivity == Some(recorded[|recorded| - 1]))
      && NoRepeats(recorded)
      && AllClean(sent)
      && |sent| <= |recorded|
    }

    constructor(connected: bool)
      ensures Valid() && !isRunning && lastActivity.None? && sent == [] && this.connected == connected
    {
      this.connected := connected;
      isRunning := false;
      listening := false;
      lastActivity := None;
      sent := [];
      recorded := [];
    }

    /** `start()`: a no-op while running; otherwise start listening. */
    method Start()
      requires Valid()
      modifies this`isRunning, this`listening
      ensures Valid() && isRunning
      ensures old(isRunning) ==> listening == old(listening)
    {
      if isRunning {
        return;
      }
      isRunning := true;
      listening := true;
    }

    /** `stop()`: a no-op while stopped; otherwise stop listening. */
    method Stop()
      requires Valid()
      modifies this`isRunning, this`listening
      ensures Valid() && !isRunning
      ensures !old(isRunning) ==> listening == old(listening)
    {
      if !isRunning {
        return;
      }
      isRunning := false;
      listening := false;
    }

    /** `sendSpan(_:)`: encode the span and pass it to the connection, if there is one. */
    method SendSpan(span: SpanEnvelope)
      modifies this`sent
      ensures sent == if connected && SpanToJson(span).Ok? then old(sent) + [span] else old(sent)
    {
      var encoded := SpanToJson(span);
      if encoded.Err? || !connected {
        return;
      }
      sent := sent + [span];
    }

    /**
     * `recordActivity(app:window:)`: the same pair as last time records
     * nothing; a new pair becomes the last activity, unredacted, and one span
     * with the redacted title is sent.
     */
    method RecordActivity(app: string, window: string, id: string, ts: string)
      requires Valid()
      modifies this`lastActivity, this`sent, this`recorded
      ensures Valid()
      ensures old(lastActivity) == Some((app, window)) ==>
        lastActivity == old(lastActivity) && sent == old(sent) && recorded == old(recorded)
      ensures old(lastActivity) != Some((app, window)) ==>
        && lastActivity == Some((app, window))
        && recorded == old(recorded) + [(app, window)]
        && sent == old(sent) + (if connected then [CreateActivitySpan(id, app, RedactSensitiveInfo(window), ts)] else [])
    {
      if lastActivity == Some((app, window)) {
        return;
      }
      NoRepeatsAppend(recorded, (app, window));
      lastActivity := Some((app, window));
      recorded := recorded + [(app, window)];
      var redactedWindow := RedactSensitiveInfo(window);
      var span := CreateActivitySpan(id, app, redactedWindow, ts);
      ActivitySpanSendable(id, app, window, ts);
      AllCleanAppend(sent, span);
      SendSpan(span);
    }

    /**
     * `pollActivity()`: nothing while stopped; otherwise record the
     * frontmost app (by its name, or "Unknown") and the front window's title
     * (or "") when there is a frontmost app.
     */
    method PollActivity(frontApp: Option<Option<string>>, windowTitle: Option<string>, id: string, ts: string)
      requires Valid()
      modifies this`lastActivity, this`sent, this`recorded
      ensures Valid()
      ensures !isRunning || frontApp.None? ==>
        lastActivity == old(lastActivity) && sent == old(sent) && recorded == old(recorded)
      ensures isRunning && frontApp.Some? ==>
        var pair := (frontApp.value.GetOr(UnknownApp), windowTitle.GetOr(""));
        && lastActivity == Some(pair)
        && recorded == old(recorded) + (if old(lastActivity) != Some(pair) then [pair] else [])
        && sent == old(sent) + (if connected && old(lastActivity) != Some(pair)
                                then [CreateActivitySpan(id, pair.0, RedactSensitiveInfo(pair.1), ts)] else [])
    {
      if !isRunning {
        return;
      }
      if frontApp.Some? {
        RecordActivity(frontApp.value.GetOr(UnknownApp), windowTitle.GetOr(""), id, ts);
      }
    }

    /**
     * `handleAppActivation(_:)`: a notification that carries an app records
     * it, as the poll does; this handler does not look at `isRunning`.
     */
    method HandleAppActivation(app: Option<Option<string>>, windowTitle: Option<string>, id: string, ts: string)
      requires Valid()
      modifies this`lastActivity, this`sent, this`recorded
      ensures Valid()
      ensures app.None? ==> lastActivity == old(lastActivity) && sent == old(sent) && recorded == old(recorded)
      ensures app.Some? ==>
        var pair := (app.value.GetOr(UnknownApp), windowTitle.GetOr(""));
        && lastActivity == Some(pair)
        && recorded == old(recorded) + (if old(lastActivity) != Some(pair) then [pair] else [])
        && sent == old(sent) + (if connected && old(lastActivity) != Some(pair)
                                then [CreateActivitySpan(id, pair.0, RedactSensitiveInfo(pair.1), ts)] else [])
    {
      if app.Some? {
        RecordActivity(app.value.GetOr(UnknownApp), windowTitle.GetOr(""), id, ts);
      }
    }
  }
}
