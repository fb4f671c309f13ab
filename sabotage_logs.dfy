/**
 * Sabotage-resistance logging (ai_identity/sabotage_logs.py): a logger keeps
 * the events it is told about, in the order it was told.
 */
module SabotageLogs {
  class SabotageLogger {
    /** `events`: every logged event, oldest first. */
    var events: seq<string>

    /** The dataclass constructor: the events given, or none. */
    constructor (initial: seq<string> := [])
      ensures events == initial
    {
      events := initial;
    }

    /** `log`: append one event. */
    method Log(event: string)
      modifies this
      ensures events == old(events) + [event]
    {
      events := events + [event];
    }
  }

  /** Events come back in the order they were logged. */
  method LogsInOrder() returns (events: seq<string>)
    ensures events == ["anomaly", "intrusion"]
  {
    var logger := new SabotageLogger();
    logger.Log("anomaly");
    logger.Log("intrusion");
    events := logger.events;
  }

  /** Each logger has its own list: logging to one leaves another empty. */
  method LoggersAreIsolated() returns (firstEvents: seq<string>, secondEvents: seq<string>)
    ensures firstEvents == ["issue"]
    ensures secondEvents == []
  {
    var first := new SabotageLogger();
    var second := new SabotageLogger();
    first.Log("issue");
    firstEvents := first.events;
    secondEvents := second.events;
  }

  /** Logging a list of events one by one appends exactly that list. */
  method LogAll(logger: SabotageLogger, batch: seq<string>)
    modifies logger
    ensures logger.events == old(logger.events) + batch
  {
    for i := 0 to |batch|
      invariant logger.events == old(logger.events) + batch[..i]
    {
      logger.Log(batch[i]);
      assert batch[..i + 1] == batch[..i] + [batch[i]];
    }
    assert batch[..|batch|] == batch;
  }
}
