/**
 * The history endpoint (api/history.php): reads the action log, keeps every
 * line that decodes to a record and orders the records newest first.
 */
module History {
  import opened Wrappers
  import opened Audit

  /** The decoded records of the log's lines, in file order; blank and undecodable lines dropped. */
  function Kept(lines: seq<Line>): seq<AuditEntry>
    decreases |lines|
  {
    if |lines| == 0 then []
    else
      var last := lines[|lines| - 1];
      Kept(lines[..|lines| - 1]) + (match Decode(last) case Some(e) => [e] case None => [])
  }

  /** Newest first: timestamps never increase along the sequence. */
  predicate NewestFirst(h: seq<AuditEntry>) {
    forall i, j :: 0 <= i < j < |h| ==> h[i].timestamp >= h[j].timestamp
  }

  /**
   * Places `e` into a newest-first sequence ahead of the first record that is
   * not newer than it, so that records with equal timestamps keep the order
   * in which they were inserted.
   */
  function Insert(e: AuditEntry, h: seq<AuditEntry>): (r: seq<AuditEntry>)
    requires NewestFirst(h)
    ensures NewestFirst(r)
    ensures multiset(r) == multiset(h) + multiset{e}
    ensures r[0] == e || r[0] == h[0]
    decreases |h|
  {
    if |h| == 0 || h[0].timestamp <= e.timestamp then
      [e] + h
    else
      var tail := Insert(e, h[1..]);
      assert h == [h[0]] + h[1..];
      assert h[0].timestamp >= tail[0].timestamp;
      [h[0]] + tail
  }

  /** usort by strtotime($b['timestamp']) - strtotime($a['timestamp']): the same records, newest first. */
  function SortNewestFirst(h: seq<AuditEntry>): (r: seq<AuditEntry>)
    ensures NewestFirst(r)
    ensures multiset(r) == multiset(h)
    decreases |h|
  {
    if |h| == 0 then []
    else
      assert h == [h[0]] + h[1..];
      Insert(h[0], SortNewestFirst(h[1..]))
  }

  /**
   * The endpoint: a missing log gives an empty history; otherwise every line
   * that decodes contributes one entry and the entries are sorted newest first.
   * The log is only read.
   */
  method ReadHistory(log: LogFile) returns (history: seq<AuditEntry>)
    ensures NewestFirst(history)
    ensures !log.present ==> history == []
    ensures log.present ==> multiset(history) == multiset(Kept(log.lines))
  {
    history := [];
    if log.present {
      var lines := log.lines;
      for i := 0 to |lines|
        invariant history == Kept(lines[..i])
      {
        assert lines[..i + 1][..i] == lines[..i];
        var entry := Decode(lines[i]);
        if entry.Some? {
          history := history + [entry.value];
        }
      }
      assert lines[..|lines|] == lines;
    }
    history := SortNewestFirst(history);
  }

  /** Reading a log in two parts reads each part in turn. */
  lemma {:induction false} KeptConcat(a: seq<Line>, b: seq<Line>)
    ensures Kept(a + b) == Kept(a) + Kept(b)
    decreases |b|
  {
    if |b| == 0 {
      assert a + b == a;
    } else {
      var b' := b[..|b| - 1];
      assert (a + b)[..|a + b| - 1] == a + b';
      KeptConcat(a, b');
    }
  }

  /**
   * The log is append-only, so history only grows: every entry read before
   * any further lines are appended is still read afterwards.
   */
  lemma HistoryOnlyGrows(lines: seq<Line>, more: seq<Line>)
    ensures multiset(SortNewestFirst(Kept(lines))) <= multiset(SortNewestFirst(Kept(lines + more)))
  {
    KeptConcat(lines, more);
  }

  /** An action that logAction appended shows up in the next read of the history. */
  lemma LoggedActionIsRead(lines: seq<Line>, e: AuditEntry)
    ensures e in SortNewestFirst(Kept(lines + [Record(e)]))
  {
    var all := lines + [Record(e)];
    assert all[..|all| - 1] == lines;
    assert Kept(all) == Kept(lines) + [e];
    assert e in multiset(Kept(all));
  }
}
