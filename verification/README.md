# Certificate management backend and client stores, modelled in Dafny

The system manages the certificates issued by a small OpenSSL certificate
authority. A PHP backend lists the issued certificates. It marks each one
revoked or not from the authority's text database (`index.txt`). It creates
and revokes certificates by running shell scripts, and logs every successful
action to an append-only file. A second endpoint reads that log back as a
history, newest first. A third keeps a JSON file of user accounts with hashed
passwords: list, login, add and delete. On the client, two stores hold the
same kind of data in the browser: the certificate store (certificates and a
history) and the authentication store (accounts and the session).

The model has one module per source area:

| module | file | models |
|---|---|---|
| `Text` | text.dfy | the PHP string primitives used: `explode`/`implode`, `strpos` as a substring test, `str_replace` with `''`, `trim`, `empty()` |
| `Ledger` | ledger.dfy | `isRevoked` over the authority's database |
| `Audit` | audit.dfy | the action log file and `logAction` |
| `Http` | http.dfy | the decoded request body and `isset` |
| `CertApi` | cert_api.dfy | api/index.php: routing, the listing, create and revoke |
| `History` | history.dfy | api/history.php |
| `UsersApi` | users_api.dfy | api/users.php |
| `CertStore` | cert_store.dfy | src/stores/certificateStore.ts |
| `Auth` | auth_store.dfy | src/stores/authStore.ts |

Files that the source updates in place are classes:
- the log file is `Audit.LogFile`;
- the user file is `UsersApi.UserFile`;
- the two client stores are `CertStore.CertificateStore` and `Auth.AuthStore`.

Their methods state the whole new state. The searches and the build-up loops
of the source are methods with loops. Each is proved against a specification
function, and the properties of those functions are proved as lemmas.

Several things the source gets from outside are inputs to the model:
- the outcome of running a script: exit code and output lines;
- the parsed contents of each certificate file;
- the file names `glob` enumerates;
- the current time;
- the generated ids;
- the password hashes.

`escapeshellarg` and `password_verify` are function parameters.

## Model

| member | source | states |
|---|---|---|
| CertApi.UnderApi | api/index.php:19-37 | a request path "/api/NAME" or "/api/NAME/" reaches the endpoint NAME when NAME is non-empty, has no slash at either end, does not start with "a" and has no "/a" inside (which covers the three real endpoints) |
| CertApi.Serve | api/index.php:13-37 | OPTIONS is answered 200 at once with nothing run or logged; otherwise "certificates" answers 200 with the listing, "certificate/create" and "certificate/revoke" have exactly the outcome of their handlers (CreateOutcome, RevokeOutcome), and any other endpoint gets 404 "Endpoint not found" with nothing run and the log untouched; a command runs only on a POST to create or revoke; the log changes only by one line after an exit status 0 |
| Ledger.IsRevoked | api/index.php:92-108 | the loop answers true exactly when some line of the ledger is non-empty (PHP `empty`) and has at least five tab-separated fields, field 0 is "R" and field 4 contains the name |
| Ledger.RevokedConcat | api/index.php:95-105 | lines are judged independently: a ledger made of two parts joined by a newline revokes a name iff either part does |
| Ledger.SingleLine | api/index.php:97-104 | a ledger of one line revokes a name exactly when that line does |
| Ledger.BadLineIgnored | api/index.php:98-102 | adding a line that is empty or has fewer than five fields never changes the verdict |
| Ledger.RecordRevokes | api/index.php:99-102 | a single tab-separated record revokes a name iff it has at least five fields, status "R" and the name inside field 4 |
| Ledger.RevokedBySubject | api/index.php:99-102 | a record "R", c1, c2, c3, "CN=" + name + tail revokes that name, for any columns c1 to c3 and any tail free of tabs and newlines |
| Ledger.RevokedPart | api/index.php:102 | the name test is a substring test: whatever revokes a name also revokes every part of that name |
| CertApi.GetCertificates | api/index.php:40-89 | the loop builds exactly the listing: one record per non-authority file, in enumeration order, with the revocation flag from the ledger |
| CertApi.ListingConcat | api/index.php:46-53 | the listing follows the directory order: listing two runs of files lists each in turn |
| CertApi.ListingMembers | api/index.php:48-53 | a record is listed iff it describes some file of the directory other than the four authority certificates |
| CertApi.CertNameOfStem | api/index.php:56 | deleting ".cert.pem" from "STEM.cert.pem" gives STEM when ".cert.pem" does not occur in STEM |
| CertApi.UnparsedDefaults | api/index.php:67-85 | a certificate that cannot be parsed is still listed, with domain "" and both dates 0 |
| CertApi.RevokedCertificateListed | api/index.php:56-85 | a certificate file STEM.cert.pem and a ledger record "R", c1, c2, c3, "CN=" + STEM + tail give one record with id STEM, flagged revoked, for any tab- and newline-free columns |
| CertApi.CreateCertificate | api/index.php:111-150 | keeps the log invariant (an absent log has no lines); 405 for non-POST and 400 when domain or additionalParam is missing, both before anything runs and without a log write; otherwise it runs the create script on the escaped arguments; a non-zero exit gives 500 with the output lines joined by "\n" and no log write; exit 0 appends exactly one "create" record naming the escaped domain, user defaulting to "system" |
| CertApi.RevokeCertificate | api/index.php:153-191 | keeps the log invariant (an absent log has no lines); 405 for non-POST and 400 when id is missing, before anything runs; otherwise it runs the revoke script on the escaped id; non-zero exit gives 500 with the joined output and no log write; exit 0 appends exactly one "revoke" record naming the escaped id, user defaulting to "system" |
| Audit.LogFile.LogAction | api/index.php:194-213 | creates the log if needed and appends exactly one record with the given id, time, user, action and name; earlier lines are kept as they were |
| Text.JoinSplit | api/index.php:95 | joining the pieces of an `explode` with the same delimiter gives back the text |
| Text.SplitJoin | api/index.php:99 | splitting a join of delimiter-free pieces gives back the pieces |
| Text.SplitConcat | api/index.php:95 | splitting "a + d + b" splits a and b separately |
| Text.ContainsAt | api/index.php:102 | the `strpos(...) !== false` test holds iff the needle starts at some position |
| Text.ContainsTransitive | api/index.php:102 | a text inside a text inside the haystack is inside the haystack |
| Text.RemoveAllStripsSuffix | api/index.php:56 | deleting a pattern from "stem + pattern" leaves the stem when the pattern starts nowhere inside the stem |
| Text.Trim | api/index.php:20 | `trim` returns a middle slice of the text, all of whose removed characters are the trimmed one and whose ends are not |
| History.ReadHistory | api/history.php:19-38 | a missing log gives an empty history; otherwise the result holds exactly the decoded records of the log (as a multiset), newest first; the log is only read |
| History.Insert | api/history.php:34-36 | inserting a record into a newest-first sequence keeps it newest first and adds exactly that record |
| History.SortNewestFirst | api/history.php:34-36 | the sorted history is newest first and a permutation of its input |
| History.KeptConcat | api/history.php:23-30 | lines are decoded independently: reading a log in two parts reads each in turn |
| History.HistoryOnlyGrows | api/history.php:19-38 | appending lines to the log never loses an entry from the history |
| History.LoggedActionIsRead | api/history.php:23-36 | a record appended by logAction appears in the next history |
| UsersApi.UserFile.SeedDefaults | api/users.php:28-45 | writes the two default accounts (ids "1" admin and "2" user) only when the file does not exist; an existing file is untouched |
| UsersApi.HandleRequest | api/users.php:13-70 | OPTIONS is answered 200 at once, before seeding, with the file untouched; every other request works on the seeded accounts: GET lists them without passwords, POST to "login" has exactly login's outcome and leaves them alone, any other POST has exactly addUser's outcome, DELETE exactly deleteUser's, and any other method gives 405 |
| UsersApi.GetUsers | api/users.php:73-85 | every stored account, in the same order, without its password |
| UsersApi.Login | api/users.php:88-126 | 400 without username or password; 200 with the account (no password) iff the first account with that username accepts the password; otherwise 401 with the same message for unknown user and wrong password |
| UsersApi.AddUser | api/users.php:129-189 | never 403; in order 400 missing fields, 400 invalid role, 400 username taken, each leaving the file unchanged; otherwise exactly one account appended at the end and the reply shows it without password |
| UsersApi.DeleteUser | api/users.php:192-240 | never 403; 400 without id; 404 with the file unchanged when no account has the id; otherwise only the first account with that id is removed, the others kept in order |
| CertStore.CertificateStore.FetchCertificates | src/stores/certificateStore.ts:67-74 | sets the three samples only when there are no certificates; history untouched; no revocation undone |
| CertStore.CertificateStore.AddCertificate | src/stores/certificateStore.ts:76-102 | appends exactly one active certificate valid for 365 days and one "create" entry for it; nothing else changes |
| CertStore.CertificateStore.RevokeCertificate | src/stores/certificateStore.ts:104-135 | an unknown id changes nothing; otherwise every certificate with the id is revoked by the user, and one "revoke" entry naming the first of them is appended; no revocation is ever undone |
| CertStore.MarkRevoked | src/stores/certificateStore.ts:107-117 | same length; certificates with the id become revoked by the user at the time, all others are unchanged |
| CertStore.FindById | src/stores/certificateStore.ts:119 | none iff no certificate has the id; otherwise the first certificate with it |
| CertStore.MarkRevokedIdempotent | src/stores/certificateStore.ts:107-117 | revoking the same id again, by the same user at the same time, changes nothing more |
| CertStore.RevokedIsFound | src/stores/certificateStore.ts:107-121 | after a revocation of a known id, the certificate found under that id is the first match, revoked by that user at that time |
| Auth.AuthStore.Initialize | src/stores/authStore.ts:34-40 | sets up the two initial accounts only when there are none; the session is untouched |
| Auth.AuthStore.Login | src/stores/authStore.ts:42-59 | succeeds iff some account matches both username and password; then the session holds the first match without its password and the flag is set; failure changes nothing |
| Auth.AuthStore.Logout | src/stores/authStore.ts:61-63 | nobody signed in and the flag cleared; accounts untouched |
| Auth.AuthStore.AddUser | src/stores/authStore.ts:65-75 | exactly one account appended at the end, with no duplicate-username check |
| Auth.AuthStore.DeleteUser | src/stores/authStore.ts:77-86 | nothing changes when the id is the signed-in user's; otherwise every account with the id is removed and the rest kept in order; the signed-in user's account is never removed |
| Auth.FindCredentials | src/stores/authStore.ts:45-49 | none iff no account matches both username and password; otherwise the first match |
| Auth.WithoutId | src/stores/authStore.ts:85 | exactly the accounts without the id remain, never more than before |
| Auth.WithoutIdConcat | src/stores/authStore.ts:85 | filtering two parts filters each in turn |
| Auth.WithoutAbsentId | src/stores/authStore.ts:85 | deleting an id no account has changes nothing |

Every method of `Auth.AuthStore` requires and keeps `Valid()`: the
authenticated flag is set exactly when a user is signed in
(src/stores/authStore.ts:30-31).

## Left out

- File and network I/O is not modelled: `glob`, `file_get_contents`, `file_put_contents`, `mkdir`, `file_exists`. The directory listing, the ledger text, the log lines and the user file are values or object fields.
- Checking for the private key (api/index.php:60-61) is left out; its result is never used.
- `openssl_x509_parse` is not modelled. Its result is a map from file name to the three fields read. A file missing from the map is one that could not be parsed.
- Running a script (`exec`) is an input: the exit code and the output lines. The handlers return the command they would run.
- `escapeshellarg` is an opaque function parameter; its quoting rules are not modelled.
- Hashing is not modelled. `password_hash` gives hashes passed in as values, and `password_verify` is a function parameter.
- JSON encoding and decoding are abstracted:
  - a log line is a record, a blank line, or text that does not decode to a truthy value;
  - a request body is a string map, or None when it is not an object.
  - As a result, a log line that decodes to a truthy non-record value (such as `1`) counts as undecodable here, although PHP would keep it.
- Dates are not formatted or parsed. The server's times are the seconds `strtotime` reads back, the client's are milliseconds, and ids are string parameters.
- Headers and CORS are not modelled. The OPTIONS early exit is modelled for api/index.php and api/users.php; for api/history.php it is not, and History.ReadHistory models every other request.
- All clock reads within one client store call are taken at one instant. The source reads the clock separately for the certificate id, its dates and the history entry (src/stores/certificateStore.ts:81-95, 113-127). So the model's equalities between the new certificate's id and the history entry's id, and between its expiry and its issue date plus 365 days, hold only when the clock does not tick within the call.
- Concurrent writers to the log and user file are not modelled.
- Browser persistence (`persist`, localStorage) is not modelled.
- History.SortNewestFirst: `usort` works in place on the array. Here it is a function on the sequence, an insertion sort proved newest-first and a permutation. The order it gives to records with equal timestamps is not claimed to be PHP's.
- Behaviour worth noting, as the code has it:
  - a certificate that cannot be parsed is listed with defaults, not skipped;
  - required request fields are only tested for presence (`isset`), not for non-emptiness;
  - the server has no check against deleting one's own account; only the client store has it;
  - the revocation test reads field 4, which in OpenSSL's own `index.txt` layout is the file-name column; the subject is column 5.
