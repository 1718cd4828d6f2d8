/**
 * The revocation check over the certificate authority's text database
 * (OpenSSL's index.txt): newline-separated records whose fields are separated
 * by tabs. The check reads field 0 as the status flag and looks for the
 * certificate name inside field 4.
 */
module Ledger {
  import opened Text

  /** Status flag of a revoked record. */
  const RevokedFlag: string := "R"

  /** The lines of the ledger, as explode("\n", ...) gives them. */
  function Lines(ledger: string): seq<string> {
    Split(ledger, '\n')
  }

  /** One ledger line that marks `certName` revoked. */
  predicate LineRevokes(line: string, certName: string) {
    && !IsPhpEmpty(line)
    && var fields := Split(line, '\t');
    && |fields| >= 5
    && fields[0] == RevokedFlag
    && Contains(fields[4], certName)
  }

  /** Some line of the ledger marks `certName` revoked. */
  predicate Revoked(ledger: string, certName: string) {
    exists i :: 0 <= i < |Lines(ledger)| && LineRevokes(Lines(ledger)[i], certName)
  }

  /**
   * isRevoked: scans the lines in order, skips the empty ones and returns
   * true at the first revoked record whose field 4 contains `certName`. A
   * ledger that cannot be read is passed in as "".
   */
  method IsRevoked(ledger: string, certName: string) returns (revoked: bool)
    ensures revoked <==> Revoked(ledger, certName)
  {
    var lines := Split(ledger, '\n');
    for i := 0 to |lines|
      invariant forall k :: 0 <= k < i ==> !LineRevokes(lines[k], certName)
    {
      var line := lines[i];
      if IsPhpEmpty(line) {
        continue;
      }
      var fields := Split(line, '\t');
      if |fields| >= 5 && fields[0] == RevokedFlag && Contains(fields[4], certName) {
        assert LineRevokes(Lines(ledger)[i], certName);
        return true;
      }
    }
    return false;
  }

  /** Lines are judged one by one: a ledger made of two parts revokes what either part revokes. */
  lemma {:induction false} RevokedConcat(a: string, b: string, certName: string)
    ensures Revoked(a + "\n" + b, certName) <==> Revoked(a, certName) || Revoked(b, certName)
  {
    SplitConcat(a, b, '\n');
    var la, lb := Lines(a), Lines(b);
    assert Lines(a + "\n" + b) == la + lb;
    if Revoked(a, certName) {
      var i :| 0 <= i < |la| && LineRevokes(la[i], certName);
      assert (la + lb)[i] == la[i];
    }
    if Revoked(b, certName) {
      var i :| 0 <= i < |lb| && LineRevokes(lb[i], certName);
      assert (la + lb)[|la| + i] == lb[i];
    }
  }

  /** A single line is revoking exactly when LineRevokes says so. */
  lemma SingleLine(line: string, certName: string)
    requires '\n' !in line
    ensures Revoked(line, certName) <==> LineRevokes(line, certName)
  {
    SplitFree(line, '\n');
    assert Lines(line)[0] == line;
  }

  /**
   * A malformed or non-matching line appended to the ledger changes nothing:
   * it neither hides the records before it nor revokes anything itself.
   */
  lemma BadLineIgnored(ledger: string, bad: string, certName: string)
    requires '\n' !in bad
    requires !LineRevokes(bad, certName)
    ensures Revoked(ledger + "\n" + bad, certName) <==> Revoked(ledger, certName)
  {
    RevokedConcat(ledger, bad, certName);
    SingleLine(bad, certName);
  }

  /**
   * A ledger holding one record, written as tab-separated fields, revokes
   * `certName` exactly when the record has at least five fields, its status
   * is "R" and its field 4 contains `certName`.
   */
  lemma RecordRevokes(fields: seq<string>, certName: string)
    requires |fields| >= 1
    requires forall i :: 0 <= i < |fields| ==> '\t' !in fields[i] && '\n' !in fields[i]
    ensures Revoked(Join(fields, '\t'), certName)
        <==> |fields| >= 5 && fields[0] == RevokedFlag && Contains(fields[4], certName)
  {
    var line := Join(fields, '\t');
    NoNewlineInJoin(fields);
    SingleLine(line, certName);
    SplitJoin(fields, '\t');
    if |fields| >= 2 {
      assert line == fields[0] + "\t" + Join(fields[1..], '\t');
      assert line[|fields[0]|] == '\t';
      assert !IsPhpEmpty(line);
    }
  }

  lemma {:induction false} NoNewlineInJoin(fields: seq<string>)
    requires forall i :: 0 <= i < |fields| ==> '\n' !in fields[i]
    ensures '\n' !in Join(fields, '\t')
    decreases |fields|
  {
    if |fields| > 1 {
      NoNewlineInJoin(fields[1..]);
    }
  }

  /**
   * A revoked record whose field 4 is "CN=" followed by the certificate's name
   * marks that certificate revoked, whatever columns 1 to 3 and the rest of
   * field 4 hold, as long as they contain no tab and no newline.
   */
  lemma RevokedBySubject(c1: string, c2: string, c3: string, name: string, tail: string)
    requires '\t' !in c1 && '\t' !in c2 && '\t' !in c3 && '\t' !in name && '\t' !in tail
    requires '\n' !in c1 && '\n' !in c2 && '\n' !in c3 && '\n' !in name && '\n' !in tail
    ensures Revoked("R\t" + c1 + "\t" + c2 + "\t" + c3 + "\tCN=" + name + tail, name)
  {
    var subject := "CN=" + name + tail;
    SubjectHolds(name, tail);
    var fields := [RevokedFlag, c1, c2, c3, subject];
    JoinFive(RevokedFlag, c1, c2, c3, subject);
    assert "R\t" + c1 + "\t" + c2 + "\t" + c3 + "\tCN=" + name + tail
        == RevokedFlag + "\t" + c1 + "\t" + c2 + "\t" + c3 + "\t" + subject;
    RecordRevokes(fields, name);
  }

  /** "CN=" + name + tail contains the name and, like its parts, no tab or newline. */
  lemma SubjectHolds(name: string, tail: string)
    requires '\t' !in name && '\t' !in tail && '\n' !in name && '\n' !in tail
    ensures var subject := "CN=" + name + tail;
            '\t' !in subject && '\n' !in subject && Contains(subject, name)
  {
    var subject := "CN=" + name + tail;
    ContainsAt(subject, name);
    assert name <= subject[3..];
  }

  /** Joining five fields with tabs. */
  lemma JoinFive(f0: string, f1: string, f2: string, f3: string, f4: string)
    ensures Join([f0, f1, f2, f3, f4], '\t') == f0 + "\t" + f1 + "\t" + f2 + "\t" + f3 + "\t" + f4
  {
    var fields := [f0, f1, f2, f3, f4];
    assert fields[1..][1..][1..][1..] == [f4];
    assert Join(fields[3..], '\t') == f3 + "\t" + f4;
    assert Join(fields[2..], '\t') == f2 + "\t" + (f3 + "\t" + f4);
    assert Join(fields[1..], '\t') == f1 + "\t" + (f2 + "\t" + (f3 + "\t" + f4));
  }

  /**
   * The name test is a substring test, so revoking a certificate also reports
   * revoked every certificate whose name is part of its name (revoking
   * "api.example.com" marks "example.com" too).
   */
  lemma RevokedPart(ledger: string, name: string, part: string)
    requires Revoked(ledger, name) && Contains(name, part)
    ensures Revoked(ledger, part)
  {
    var i :| 0 <= i < |Lines(ledger)| && LineRevokes(Lines(ledger)[i], name);
    ContainsTransitive(Split(Lines(ledger)[i], '\t')[4], name, part);
    assert LineRevokes(Lines(ledger)[i], part);
  }
}
