/**
 * The immutable status event (events/models.py). A Dafny datatype value
 * cannot be assigned to after construction, which is what the frozen
 * dataclass promises.
 *
 * The event's `timestamp` is kept as its display text (the
 * "%Y-%m-%d %H:%M:%S" rendering both formatters print); date parsing and
 * formatting are not part of this model.
 */
module Models {
  import opened Optional
  import opened Text

  /** The two values of `event_type`; no other value can be built. */
  datatype EventType = New | Updated

  datatype StatusEvent = StatusEvent(
    provider: string,
    product: string,
    status: string,
    message: string,
    timestamp: string,
    incidentId: string,
    eventType: EventType)

  /** The wire spelling of an event type. */
  function EventTypeName(t: EventType): (s: string)
    ensures s == "new" || s == "updated"
    ensures s == "updated" <==> t == Updated
  {
    match t
    case New => "new"
    case Updated => "updated"
  }

  /** Reads a change type back; exactly "new" and "updated" are event types. */
  function ParseEventType(s: string): (r: Option<EventType>)
    ensures r.Some? <==> s == "new" || s == "updated"
    ensures r.Some? ==> EventTypeName(r.value) == s
  {
    if s == "new" then Some(New)
    else if s == "updated" then Some(Updated)
    else None
  }

  /** Naming an event type and reading the name back gives the same type. */
  lemma EventTypeRoundTrip(t: EventType)
    ensures ParseEventType(EventTypeName(t)) == Some(t)
  {
  }

  /** No field contains a line break. */
  predicate SingleLineFields(e: StatusEvent) {
    && '\n' !in e.provider && '\n' !in e.product && '\n' !in e.status
    && '\n' !in e.message && '\n' !in e.timestamp
  }

  /**
   * `formatted_output()`: a heading line with the timestamp, provider and
   * product, then an indented status line. The status line always ends in a
   * space followed by the message, even when the message is empty.
   */
  function FormattedOutput(e: StatusEvent): string {
    var head := "[" + e.timestamp + "] Product: " + e.provider + " - " + e.product;
    var body := "  Status: " + e.status + " " + e.message;
    head + "\n" + body
  }

  /**
   * Whatever the fields hold, the output opens with the heading and a line
   * break and closes with the status line, whose message always follows a
   * space, even when the message is empty.
   */
  lemma FormattedOutputEnds(e: StatusEvent)
    ensures StartsWith(FormattedOutput(e), "[" + e.timestamp + "] Product: " + e.provider + " - " + e.product + "\n")
    ensures EndsWith(FormattedOutput(e), "  Status: " + e.status + " " + e.message)
  {
    var head := "[" + e.timestamp + "] Product: " + e.provider + " - " + e.product;
    var body := "  Status: " + e.status + " " + e.message;
    ConcatAffixes(head + "\n", body);
  }

  /** `__str__` is exactly `formatted_output()`. */
  function Str(e: StatusEvent): (r: string)
    ensures r == FormattedOutput(e)
  {
    FormattedOutput(e)
  }

  /** When no field holds a line break the output is exactly two lines: the heading and the status line. */
  lemma FormattedOutputLines(e: StatusEvent)
    requires SingleLineFields(e)
    ensures Split(FormattedOutput(e), '\n') ==
      ["[" + e.timestamp + "] Product: " + e.provider + " - " + e.product,
       "  Status: " + e.status + " " + e.message]
  {
    var head := "[" + e.timestamp + "] Product: " + e.provider + " - " + e.product;
    var body := "  Status: " + e.status + " " + e.message;
    assert '\n' !in head;
    assert '\n' !in body;
    assert FormattedOutput(e) == head + ['\n'] + body;
    SplitAround(head, '\n', body);
    SplitWhole(body, '\n');
  }

  /** The second line of `formatted_output()` reads "Status: ..." once its indentation is stripped. */
  lemma StatusLineStripped(e: StatusEvent)
    ensures StartsWith(Strip("  Status: " + e.status + " " + e.message), "Status:")
  {
    var rest := " " + e.status + " " + e.message;
    assert "  Status: " + e.status + " " + e.message == "  " + "Status:" + rest;
    StripKeepsFront("  ", "Status:", rest);
  }
}
