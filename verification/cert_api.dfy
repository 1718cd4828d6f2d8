/**
 * The certificate endpoint (api/index.php): routing, the listing that
 * cross-references the authority's certificate directory with its revocation
 * ledger, and the create and revoke handlers that run an external script and
 * log each successful action.
 *
 * The directory is given as the base names glob() enumerates, in order, and
 * the parsed contents of each file as a map (a file missing from the map is
 * one openssl_x509_parse could not read). The external script is not run: its
 * exit code and output lines are inputs, and the handlers report which
 * command they would have run. escapeshellarg is a parameter.
 */
module CertApi {
  import opened Wrappers
  import opened Text
  import opened Http
  import opened Audit
  import Ledger

  // ------------------------------------------------------------------
  // Routing

  datatype Endpoint = ListRoute | CreateRoute | RevokeRoute | NoRoute

  /** The path with every "/api" deleted and the surrounding slashes trimmed. */
  function EndpointName(path: string): string {
    Trim(RemoveAll(path, "/api"), '/')
  }

  function Route(path: string): Endpoint {
    match EndpointName(path)
    case "certificates" => ListRoute
    case "certificate/create" => CreateRoute
    case "certificate/revoke" => RevokeRoute
    case _ => NoRoute
  }

  /**
   * A path "/api/" + name, with or without a trailing slash, is routed by
   * `name` itself when `name` has no slash at either end and no "/api" inside.
   */
  lemma UnderApi(name: string)
    requires |name| > 0 && name[0] != '/' && name[0] != 'a' && name[|name| - 1] != '/'
    requires forall k :: 0 < k < |name| ==> name[k] != 'a' || name[k - 1] != '/'
    ensures EndpointName("/api/" + name) == name
    ensures EndpointName("/api/" + name + "/") == name
  {
    var rest, rest' := "/" + name, "/" + name + "/";
    NoApiAfterSlash(name);
    NoApiAfterSlash(name + "/");
    assert rest' == "/" + (name + "/");
    AfterApi(rest);
    AfterApi(rest');
    TrimSlashes(name);
    ApiSlash(name);
  }

  lemma ApiSlash(name: string)
    ensures "/api/" + name == "/api" + ("/" + name)
    ensures "/api/" + name + "/" == "/api" + ("/" + name + "/")
  {
  }

  /** With no "/api" after the prefix, the endpoint is the rest of the path, trimmed. */
  lemma AfterApi(rest: string)
    requires RemoveAll(rest, "/api") == rest
    ensures EndpointName("/api" + rest) == Trim(rest, '/')
  {
    ApiPrefixDeleted(rest);
  }

  lemma TrimSlashes(name: string)
    requires |name| > 0 && name[0] != '/' && name[|name| - 1] != '/'
    ensures Trim("/" + name, '/') == name
    ensures Trim("/" + name + "/", '/') == name
  {
    var s, s' := "/" + name, "/" + name + "/";
    assert Leading(s, '/') == 1 by {
      assert s[1..] == name;
    }
    assert s[1..] == name;
    assert Leading(s', '/') == 1 by {
      assert s'[1..] == name + "/";
    }
    assert s'[1..] == name + "/";
    assert Trailing(name + "/", '/') == 1 by {
      assert (name + "/")[..|name|] == name;
    }
    assert s'[1..|s'| - 1] == name;
  }

  lemma ApiPrefixDeleted(rest: string)
    requires RemoveAll(rest, "/api") == rest
    ensures RemoveAll("/api" + rest, "/api") == rest
  {
    assert ("/api" + rest)[4..] == rest;
  }

  lemma NoApiAfterSlash(name: string)
    requires |name| > 0 && name[0] != 'a'
    requires forall k :: 0 < k < |name| ==> name[k] != 'a' || name[k - 1] != '/'
    ensures RemoveAll("/" + name, "/api") == "/" + name
  {
    var rest := "/" + name;
    forall k | 0 < k < |rest| ensures rest[k] != 'a' || rest[k - 1] != '/' {
      assert rest[k] == name[k - 1];
      if k > 1 {
        assert rest[k - 1] == name[k - 2];
        assert name[k - 1] != 'a' || name[k - 2] != '/';
      } else {
        assert rest[1] == name[0];
      }
    }
    NoApiInside(rest);
  }

  lemma {:induction false} NoApiInside(s: string)
    requires forall k :: 0 < k < |s| ==> s[k] != 'a' || s[k - 1] != '/'
    ensures RemoveAll(s, "/api") == s
    decreases |s|
  {
    if |s| > 0 {
      assert !("/api" <= s) by {
        if |s| >= 4 {
          assert s[1] != 'a' || s[0] != '/';
        }
      }
      NoApiInside(s[1..]);
      assert s == [s[0]] + s[1..];
    }
  }

  // ------------------------------------------------------------------
  // Listing

  const CertSuffix: string := ".cert.pem"

  /** The authority's own certificates, never listed. */
  predicate IsAuthorityFile(baseName: string) {
    || baseName == "intermediate.cert.pem"
    || baseName == "ca.cert.pem"
    || baseName == "ca-chain.cert.pem"
    || baseName == "ocsp.cert.pem"
  }

  /** str_replace('.cert.pem', '', baseName). */
  function CertName(baseName: string): string {
    RemoveAll(baseName, CertSuffix)
  }

  /** What openssl_x509_parse yields that the listing reads. */
  datatype X509Info = X509Info(validFrom: Option<int>, validTo: Option<int>, commonName: Option<string>)

  /** One listed certificate; the dates are the time_t values that date() formats. */
  datatype CertRecord = CertRecord(
    id: string,
    name: string,
    domain: string,
    issuedDate: int,
    expiryDate: int,
    isRevoked: bool)

  function InfoOf(baseName: string, parsed: map<string, X509Info>): X509Info {
    if baseName in parsed then parsed[baseName] else X509Info(None, None, None)
  }

  /** The record built for one non-authority file. */
  function Describe(baseName: string, parsed: map<string, X509Info>, ledger: string): CertRecord {
    var name := CertName(baseName);
    var info := InfoOf(baseName, parsed);
    CertRecord(name, name, info.commonName.GetOr(""), info.validFrom.GetOr(0), info.validTo.GetOr(0),
               Ledger.Revoked(ledger, name))
  }

  /** The records of the listing, one per non-authority file, in enumeration order. */
  function Listing(files: seq<string>, parsed: map<string, X509Info>, ledger: string): seq<CertRecord>
    decreases |files|
  {
    if |files| == 0 then []
    else
      var last := files[|files| - 1];
      Listing(files[..|files| - 1], parsed, ledger)
        + (if IsAuthorityFile(last) then [] else [Describe(last, parsed, ledger)])
  }

  /**
   * getCertificates: walks the files in order, skips the authority's own
   * certificates and appends one record per remaining file.
   */
  method GetCertificates(files: seq<string>, parsed: map<string, X509Info>, ledger: string)
    returns (certificates: seq<CertRecord>)
    ensures certificates == Listing(files, parsed, ledger)
  {
    certificates := [];
    for i := 0 to |files|
      invariant certificates == Listing(files[..i], parsed, ledger)
    {
      assert files[..i + 1][..i] == files[..i];
      var baseName := files[i];
      if IsAuthorityFile(baseName) {
        continue;
      }
      var certName := CertName(baseName);
      var info := InfoOf(baseName, parsed);
      var isRevoked := Ledger.IsRevoked(ledger, certName);
      var validTo := if info.validTo.Some? then info.validTo.value else 0;
      var validFrom := if info.validFrom.Some? then info.validFrom.value else 0;
      var commonName := "";
      if info.commonName.Some? {
        commonName := info.commonName.value;
      }
      certificates := certificates + [CertRecord(certName, certName, commonName, validFrom, validTo, isRevoked)];
    }
    assert files[..|files|] == files;
  }

  /** The listing follows the directory's order: listing two runs of files lists each in turn. */
  lemma {:induction false} ListingConcat(a: seq<string>, b: seq<string>, parsed: map<string, X509Info>, ledger: string)
    ensures Listing(a + b, parsed, ledger) == Listing(a, parsed, ledger) + Listing(b, parsed, ledger)
    decreases |b|
  {
    if |b| == 0 {
      assert a + b == a;
    } else {
      var b' := b[..|b| - 1];
      assert (a + b)[..|a + b| - 1] == a + b';
      ListingConcat(a, b', parsed, ledger);
    }
  }

  /**
   * A record is listed exactly when it describes some file of the directory
   * that is not one of the authority's four certificates.
   */
  lemma {:induction false} ListingMembers(files: seq<string>, parsed: map<string, X509Info>, ledger: string, r: CertRecord)
    ensures r in Listing(files, parsed, ledger)
        <==> exists f :: f in files && !IsAuthorityFile(f) && r == Describe(f, parsed, ledger)
    decreases |files|
  {
    if |files| > 0 {
      var init := files[..|files| - 1];
      var last := files[|files| - 1];
      ListingMembers(init, parsed, ledger, r);
      assert files == init + [last];
      if exists f :: f in files && !IsAuthorityFile(f) && r == Describe(f, parsed, ledger) {
        var f :| f in files && !IsAuthorityFile(f) && r == Describe(f, parsed, ledger);
        if f != last {
          assert f in init;
        }
      }
    }
  }

  /**
   * A file named after a stem in which ".cert.pem" does not occur is listed
   * under that stem as both id and name.
   */
  lemma CertNameOfStem(stem: string)
    requires !Contains(stem, CertSuffix)
    ensures CertName(stem + CertSuffix) == stem
  {
    var s := stem + CertSuffix;
    var n := |CertSuffix|;
    forall i | 0 <= i < |stem|
      ensures !(CertSuffix <= s[i..])
    {
      if CertSuffix <= s[i..] {
        if i + n <= |stem| {
          assert stem[i..][..n] == s[i..][..n];
          ContainsAt(stem, CertSuffix);
          assert false;
        } else {
          // The occurrence would reach into the appended suffix, making a proper
          // suffix of ".cert.pem" equal to a prefix of it, and none is.
          SuffixHasNoBorder(|stem| - i);
          assert false;
        }
      }
    }
    RemoveAllStripsSuffix(stem, CertSuffix);
  }

  lemma SuffixHasNoBorder(k: int)
    requires 0 < k < |CertSuffix|
    ensures CertSuffix[k..] != CertSuffix[..|CertSuffix| - k]
  {
    assert CertSuffix[k..][0] == CertSuffix[k];
    if k == 5 {
      assert CertSuffix[k..][1] != CertSuffix[1];
    } else {
      assert CertSuffix[k..][0] != CertSuffix[0];
    }
  }

  /** The listing's record for a missing or unparsable certificate carries the defaults. */
  lemma UnparsedDefaults(baseName: string, parsed: map<string, X509Info>, ledger: string)
    requires baseName !in parsed
    requires !IsAuthorityFile(baseName)
    ensures Listing([baseName], parsed, ledger)
         == [CertRecord(CertName(baseName), CertName(baseName), "", 0, 0, Ledger.Revoked(ledger, CertName(baseName)))]
  {
    var none: seq<string> := []; assert [baseName][..0] == none;
  }

  /**
   * A directory holding `stem`.cert.pem, with a ledger holding a revoked
   * record whose field 4 starts with "CN=" and `stem`, lists `stem` as revoked,
   * whatever the record's other columns hold.
   */
  lemma RevokedCertificateListed(stem: string, parsed: map<string, X509Info>,
                                 c1: string, c2: string, c3: string, tail: string)
    requires !Contains(stem, CertSuffix)
    requires !IsAuthorityFile(stem + CertSuffix)
    requires '\t' !in c1 && '\t' !in c2 && '\t' !in c3 && '\t' !in stem && '\t' !in tail
    requires '\n' !in c1 && '\n' !in c2 && '\n' !in c3 && '\n' !in stem && '\n' !in tail
    ensures var listed := Listing([stem + CertSuffix], parsed,
                                  "R\t" + c1 + "\t" + c2 + "\t" + c3 + "\tCN=" + stem + tail);
            |listed| == 1 && listed[0].id == stem && listed[0].isRevoked
  {
    var file := stem + CertSuffix;
    CertNameOfStem(stem);
    Ledger.RevokedBySubject(c1, c2, c3, stem, tail);
    var none: seq<string> := []; assert [file][..0] == none;
  }

  // ------------------------------------------------------------------
  // Create and revoke

  const CreateScript: string := "/root/scripts/create_cert.sh"
  const RevokeScript: string := "/root/scripts/revoke_cert.sh"

  /** A command line: the script and its (escaped) arguments; stderr joins stdout. */
  datatype Command = Command(script: string, args: seq<string>)

  /** What exec() hands back: the exit status and the captured output lines. */
  datatype ExecResult = ExecResult(exitCode: int, output: seq<string>)

  datatype Body =
    | Certificates(certificates: seq<CertRecord>)
    | Error(error: string)
    | ErrorWithOutput(error: string, output: string)
    | Success(message: string)
    | NoBody

  datatype Reply = Reply(status: int, body: Body)

  const MethodNotAllowed := Reply(405, Error("Method not allowed"))

  /**
   * What createCertificate does, with the log going from (`before`,
   * `wasPresent`) to (`after`, `present`): it checks the method, then that
   * domain and additionalParam are present, both before anything runs and
   * without touching the log; only then it escapes both and runs the script.
   * A non-zero exit gives 500 with the output lines joined by newlines and no
   * log write; exit status 0 logs exactly one "create" record naming the
   * escaped domain, by the given user or "system".
   */
  ghost predicate CreateOutcome(httpMethod: string, data: RequestData, escape: string -> string,
                                exec: ExecResult, id: string, now: int, reply: Reply, ran: Option<Command>,
                                before: seq<Line>, wasPresent: bool, after: seq<Line>, present: bool)
  {
    if httpMethod != "POST" then
      reply == MethodNotAllowed && ran == None && after == before && present == wasPresent
    else if !(Isset(data, "domain") && Isset(data, "additionalParam")) then
      && reply == Reply(400, Error("Missing required parameters")) && ran == None
      && after == before && present == wasPresent
    else
      var domain := escape(data.value["domain"]);
      && ran == Some(Command(CreateScript, [domain, escape(data.value["additionalParam"])]))
      && if exec.exitCode != 0 then
           && reply == Reply(500, ErrorWithOutput("Failed to create certificate", Join(exec.output, '\n')))
           && after == before && present == wasPresent
         else
           && reply == Reply(200, Success("Certificate created successfully"))
           && present
           && after == before + [Record(AuditEntry(id, now, FieldOr(data, "username", "system"), Create, domain))]
  }

  /** createCertificate, with the outcome CreateOutcome describes. */
  method CreateCertificate(log: LogFile, httpMethod: string, data: RequestData, escape: string -> string,
                           exec: ExecResult, id: string, now: int)
    returns (reply: Reply, ran: Option<Command>)
    requires log.Valid()
    modifies log
    ensures log.Valid()
    ensures CreateOutcome(httpMethod, data, escape, exec, id, now, reply, ran,
                          old(log.lines), old(log.present), log.lines, log.present)
  {
    if httpMethod != "POST" {
      return MethodNotAllowed, None;
    }
    if !Isset(data, "domain") || !Isset(data, "additionalParam") {
      return Reply(400, Error("Missing required parameters")), None;
    }
    var domain := escape(data.value["domain"]);
    var additionalParam := escape(data.value["additionalParam"]);
    var username := if Isset(data, "username") then data.value["username"] else "system";
    ran := Some(Command(CreateScript, [domain, additionalParam]));
    if exec.exitCode != 0 {
      return Reply(500, ErrorWithOutput("Failed to create certificate", Join(exec.output, '\n'))), ran;
    }
    log.LogAction(Create, domain, username, id, now);
    reply := Reply(200, Success("Certificate created successfully"));
  }

  /**
   * What revokeCertificate does, with the log going from (`before`,
   * `wasPresent`) to (`after`, `present`): it checks the method, then that id
   * is present, both before anything runs and without touching the log; only
   * then it escapes the id and runs the script. A non-zero exit gives 500 with
   * the joined output and no log write; exit status 0 logs exactly one
   * "revoke" record naming the escaped id, by the given user or "system".
   */
  ghost predicate RevokeOutcome(httpMethod: string, data: RequestData, escape: string -> string,
                                exec: ExecResult, id: string, now: int, reply: Reply, ran: Option<Command>,
                                before: seq<Line>, wasPresent: bool, after: seq<Line>, present: bool)
  {
    if httpMethod != "POST" then
      reply == MethodNotAllowed && ran == None && after == before && present == wasPresent
    else if !Isset(data, "id") then
      reply == Reply(400, Error("Missing certificate ID")) && ran == None && after == before && present == wasPresent
    else
      var certId := escape(data.value["id"]);
      && ran == Some(Command(RevokeScript, [certId]))
      && if exec.exitCode != 0 then
           && reply == Reply(500, ErrorWithOutput("Failed to revoke certificate", Join(exec.output, '\n')))
           && after == before && present == wasPresent
         else
           && reply == Reply(200, Success("Certificate revoked successfully"))
           && present
           && after == before + [Record(AuditEntry(id, now, FieldOr(data, "username", "system"), Revoke, certId))]
  }

  /** revokeCertificate, with the outcome RevokeOutcome describes. */
  method RevokeCertificate(log: LogFile, httpMethod: string, data: RequestData, escape: string -> string,
                           exec: ExecResult, id: string, now: int)
    returns (reply: Reply, ran: Option<Command>)
    requires log.Valid()
    modifies log
    ensures log.Valid()
    ensures RevokeOutcome(httpMethod, data, escape, exec, id, now, reply, ran,
                          old(log.lines), old(log.present), log.lines, log.present)
  {
    if httpMethod != "POST" {
      return MethodNotAllowed, None;
    }
    if !Isset(data, "id") {
      return Reply(400, Error("Missing certificate ID")), None;
    }
    var certId := escape(data.value["id"]);
    var username := if Isset(data, "username") then data.value["username"] else "system";
    ran := Some(Command(RevokeScript, [certId]));
    if exec.exitCode != 0 {
      return Reply(500, ErrorWithOutput("Failed to revoke certificate", Join(exec.output, '\n'))), ran;
    }
    log.LogAction(Revoke, certId, username, id, now);
    reply := Reply(200, Success("Certificate revoked successfully"));
  }

  /**
   * The router: OPTIONS is answered 200 at once. Otherwise only the three
   * known endpoints reach a handler, each with the outcome that handler
   * promises; anything else is answered 404 without running anything or
   * touching the log.
   */
  method Serve(log: LogFile, path: string, httpMethod: string, data: RequestData,
               files: seq<string>, parsed: map<string, X509Info>, ledger: string,
               escape: string -> string, exec: ExecResult, id: string, now: int)
    returns (reply: Reply, ran: Option<Command>)
    requires log.Valid()
    modifies log
    ensures log.Valid()
    ensures httpMethod == "OPTIONS" ==> reply == Reply(200, NoBody) && ran == None && unchanged(log)
    ensures httpMethod != "OPTIONS" && Route(path) == NoRoute ==>
              reply == Reply(404, Error("Endpoint not found")) && ran == None && unchanged(log)
    ensures httpMethod != "OPTIONS" && Route(path) == ListRoute ==>
              reply == Reply(200, Certificates(Listing(files, parsed, ledger))) && ran == None && unchanged(log)
    ensures httpMethod != "OPTIONS" && Route(path) == CreateRoute ==>
              CreateOutcome(httpMethod, data, escape, exec, id, now, reply, ran,
                            old(log.lines), old(log.present), log.lines, log.present)
    ensures httpMethod != "OPTIONS" && Route(path) == RevokeRoute ==>
              RevokeOutcome(httpMethod, data, escape, exec, id, now, reply, ran,
                            old(log.lines), old(log.present), log.lines, log.present)
    ensures ran.Some? ==> Route(path) in {CreateRoute, RevokeRoute} && httpMethod == "POST"
    ensures log.lines != old(log.lines) ==> ran.Some? && exec.exitCode == 0 && |log.lines| == |old(log.lines)| + 1
  {
    if httpMethod == "OPTIONS" {
      return Reply(200, NoBody), None;
    }
    match Route(path)
    case ListRoute =>
      var certificates := GetCertificates(files, parsed, ledger);
      reply, ran := Reply(200, Certificates(certificates)), None;
    case CreateRoute =>
      reply, ran := CreateCertificate(log, httpMethod, data, escape, exec, id, now);
    case RevokeRoute =>
      reply, ran := RevokeCertificate(log, httpMethod, data, escape, exec, id, now);
    case NoRoute =>
      reply, ran := Reply(404, Error("Endpoint not found")), None;
  }
}
