/**
 * The certificate action log: a text file of one JSON record per line, only
 * ever appended to by logAction (api/index.php) and read by api/history.php.
 * JSON encoding is abstracted away: a line either holds a log record, is
 * blank, or is text that does not decode to a (truthy) value.
 */
module Audit {
  import opened Wrappers

  datatype Action = Create | Revoke

  /**
   * One log record. `timestamp` is the second at which it was written, as
   * strtotime reads back the 'Y-m-d H:i:s' text that date() wrote.
   */
  datatype AuditEntry = AuditEntry(
    id: string,
    timestamp: int,
    username: string,
    action: Action,
    certificateName: string)

  datatype Line = Blank | Record(entry: AuditEntry) | Unparsable(text: string)

  /** json_decode of a line, None when the result is falsy (null, false, 0, "", []). */
  function Decode(line: Line): Option<AuditEntry> {
    match line
    case Record(e) => Some(e)
    case _ => None
  }

  /** The log file on disk; it does not exist until the first record is appended. */
  class LogFile {
    var present: bool
    var lines: seq<Line>

    ghost predicate Valid()
      reads this
    {
      !present ==> lines == []
    }

    /** No log has been written yet. */
    constructor ()
      ensures Valid() && !present && lines == []
    {
      present := false;
      lines := [];
    }

    /**
     * logAction: creates the file if needed and appends exactly one
     * newline-terminated record; what was written before is left as it was.
     * `id` stands for uniqid() and `timestamp` for the current time.
     */
    method LogAction(action: Action, certificateName: string, username: string, id: string, timestamp: int)
      modifies this
      ensures Valid() && present
      ensures lines == old(lines) + [Record(AuditEntry(id, timestamp, username, action, certificateName))]
    {
      present := true;
      lines := lines + [Record(AuditEntry(id, timestamp, username, action, certificateName))];
    }
  }
}
