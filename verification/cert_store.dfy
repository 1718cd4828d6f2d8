/**
 * The client's certificate store (src/stores/certificateStore.ts): the
 * certificates and the action history it keeps in the browser, seeded with
 * sample certificates and changed locally by create and revoke. Dates are
 * milliseconds since the epoch; `now` stands for Date.now() and `stamp` for
 * Date.now().toString(). The samples are dated from `loadTime`, the moment
 * the store module was loaded, not the moment they are fetched.
 */
module CertStore {
  import opened Wrappers

  const DayMs: int := 24 * 60 * 60 * 1000

  datatype Certificate = Certificate(
    id: string,
    name: string,
    domain: string,
    issuedDate: int,
    expiryDate: int,
    isRevoked: bool,
    revokedBy: Option<string>,
    revokedDate: Option<int>)

  datatype Action = Create | Revoke

  datatype HistoryEntry = HistoryEntry(
    id: string,
    action: Action,
    certificateName: string,
    username: string,
    timestamp: int)

  /** The three sample certificates shown when the store is empty; the second is revoked. */
  function SampleCertificates(loadTime: int): seq<Certificate> {
    [ Certificate("1", "example.com", "example.com", loadTime - 30 * DayMs, loadTime + 335 * DayMs, false, None, None),
      Certificate("2", "api.example.com", "api.example.com", loadTime - 60 * DayMs, loadTime + 305 * DayMs, true,
                  Some("admin"), Some(loadTime - 5 * DayMs)),
      Certificate("3", "dev.example.com", "dev.example.com", loadTime - 15 * DayMs, loadTime + 350 * DayMs, false, None, None) ]
  }

  /**
   * certificates.map(...): every certificate with the id is marked revoked by
   * `username` at `now`; the others are left as they are.
   */
  function MarkRevoked(certs: seq<Certificate>, id: string, username: string, now: int): (r: seq<Certificate>)
    ensures |r| == |certs|
    ensures forall i :: 0 <= i < |certs| && certs[i].id != id ==> r[i] == certs[i]
    ensures forall i :: 0 <= i < |certs| && certs[i].id == id ==>
              r[i] == certs[i].(isRevoked := true, revokedBy := Some(username), revokedDate := Some(now))
    decreases |certs|
  {
    if |certs| == 0 then []
    else
      var c := certs[0];
      var head := if c.id == id then c.(isRevoked := true, revokedBy := Some(username), revokedDate := Some(now)) else c;
      [head] + MarkRevoked(certs[1..], id, username, now)
  }

  /** certificates.find(cert => cert.id === id): the first certificate with the id, if any. */
  function FindById(certs: seq<Certificate>, id: string): (r: Option<Certificate>)
    ensures r.None? <==> forall i :: 0 <= i < |certs| ==> certs[i].id != id
    ensures r.Some? ==> exists i :: 0 <= i < |certs| && certs[i] == r.value && r.value.id == id
                                    && forall j :: 0 <= j < i ==> certs[j].id != id
    decreases |certs|
  {
    if |certs| == 0 then None
    else if certs[0].id == id then Some(certs[0])
    else
      var r := FindById(certs[1..], id);
      assert forall i :: 1 <= i < |certs| ==> certs[i] == certs[1..][i - 1];
      if r.Some? then
        assert exists i :: 1 <= i < |certs| && certs[i] == r.value && forall j :: 0 <= j < i ==> certs[j].id != id by {
          var k :| 0 <= k < |certs[1..]| && certs[1..][k] == r.value && r.value.id == id
                   && forall j :: 0 <= j < k ==> certs[1..][j].id != id;
          assert certs[k + 1] == r.value;
          assert forall j :: 1 <= j < k + 1 ==> certs[j].id != id by {
            forall j | 1 <= j < k + 1 ensures certs[j].id != id {
              assert certs[j] == certs[1..][j - 1];
            }
          }
        }
        r
      else
        r
  }

  /** Revoking the same id twice with the same user and time is the same as revoking it once. */
  lemma MarkRevokedIdempotent(certs: seq<Certificate>, id: string, username: string, now: int)
    ensures MarkRevoked(MarkRevoked(certs, id, username, now), id, username, now) == MarkRevoked(certs, id, username, now)
  {
    var once := MarkRevoked(certs, id, username, now);
    var twice := MarkRevoked(once, id, username, now);
    assert forall i :: 0 <= i < |certs| ==> twice[i] == once[i];
  }

  /**
   * After a revocation of an id some certificate has, the certificate that a
   * lookup of that id finds is revoked, by that user and at that time.
   */
  lemma {:induction false} RevokedIsFound(certs: seq<Certificate>, id: string, username: string, now: int)
    requires FindById(certs, id).Some?
    ensures var found := FindById(MarkRevoked(certs, id, username, now), id);
            && found.Some?
            && found.value == FindById(certs, id).value.(isRevoked := true, revokedBy := Some(username),
                                                         revokedDate := Some(now))
    decreases |certs|
  {
    var r := MarkRevoked(certs, id, username, now);
    assert r[1..] == MarkRevoked(certs[1..], id, username, now);
    if certs[0].id != id {
      RevokedIsFound(certs[1..], id, username, now);
    }
  }

  /** No certificate goes from revoked back to active between two versions of the list. */
  ghost predicate RevocationsKept(before: seq<Certificate>, after: seq<Certificate>) {
    && |before| <= |after|
    && forall i :: 0 <= i < |before| && before[i].isRevoked ==> after[i].isRevoked
  }

  class CertificateStore {
    var certificates: seq<Certificate>
    var history: seq<HistoryEntry>

    constructor ()
      ensures certificates == [] && history == []
    {
      certificates := [];
      history := [];
    }

    /** fetchCertificates: sets the samples only when there are no certificates; history is left alone. */
    method FetchCertificates(loadTime: int)
      modifies this
      ensures certificates == if old(certificates) == [] then SampleCertificates(loadTime) else old(certificates)
      ensures history == old(history)
      ensures RevocationsKept(old(certificates), certificates)
    {
      if |certificates| == 0 {
        certificates := SampleCertificates(loadTime);
      }
    }

    /**
     * addCertificate: appends one active certificate valid for 365 days and one
     * "create" history entry; everything already stored is kept.
     */
    method AddCertificate(name: string, domain: string, username: string, stamp: string, now: int)
      modifies this
      ensures certificates == old(certificates) + [Certificate(stamp, name, domain, now, now + 365 * DayMs, false, None, None)]
      ensures history == old(history) + [HistoryEntry(stamp, Create, name, username, now)]
      ensures RevocationsKept(old(certificates), certificates)
    {
      var newCertificate := Certificate(stamp, name, domain, now, now + 365 * DayMs, false, None, None);
      var historyEntry := HistoryEntry(stamp, Create, name, username, now);
      certificates := certificates + [newCertificate];
      history := history + [historyEntry];
    }

    /**
     * revokeCertificate: with an id no certificate has, nothing changes.
     * Otherwise every certificate with the id is marked revoked (again, if it
     * already was) and one "revoke" entry naming the first of them is appended.
     */
    method RevokeCertificate(id: string, username: string, stamp: string, now: int)
      modifies this
      ensures FindById(old(certificates), id).None? ==>
                certificates == old(certificates) && history == old(history)
      ensures FindById(old(certificates), id).Some? ==>
                && certificates == MarkRevoked(old(certificates), id, username, now)
                && history == old(history)
                     + [HistoryEntry(stamp, Revoke, FindById(old(certificates), id).value.name, username, now)]
      ensures RevocationsKept(old(certificates), certificates)
    {
      var updatedCertificates := MarkRevoked(certificates, id, username, now);
      var revokedCert := FindById(certificates, id);
      if revokedCert.Some? {
        var historyEntry := HistoryEntry(stamp, Revoke, revokedCert.value.name, username, now);
        certificates := updatedCertificates;
        history := history + [historyEntry];
      }
    }
  }
}
