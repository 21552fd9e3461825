# Verified models of the jw-agent cores

jw-agent is a host-management agent: a daemon that moves files over SFTP, hands out terminal
sessions, keeps one-time claims and TOTP enrollments in a database, limits authentication
attempts, streams the progress of operations, and inventories configuration trees. This
project models the parts whose correctness depends on whole runs or on two machines agreeing,
and proves what they promise.

To verify the project with Dafny 4.11: `dafny verify dfyconfig.toml`.

## Layout

| module | what it models |
|---|---|
| `Wrappers`, `Order`, `Text` | results, comparisons and sorting, text splitting and the home-scope test |
| `Remote` | an SFTP server that may refuse or lose any request, and whose error replies may hide an effect |
| `SftpClient` | the client: request ids, chunked reads and writes, inspection, the atomic upload |
| `SftpCodec`, `SftpCursor` | the payload formats as parsers and encoders, and the cursor that decodes them |
| `UploadAudit`, `UploadRuns`, `UploadLease` | the audit rows of uploads, whole runs with lost storage calls and restarts, and the audited upload, which is proved to be such a run |
| `FileBroker`, `TerminalBroker` | the session brokers under any interleaving of their locked sections |
| `Claims`, `Totp`, `AuthLedger`, `AuthRuns`, `AuthOutcomes`, `AuthStore` | claim and enrollment tables, their transactions, what every reachable database satisfies, what each transaction means for its caller, and the service object |
| `Base32` | the encoder of secrets and recovery codes, its inverse, and the display grouping |
| `RateLimiter` | fixed windows and the sliding bound they give |
| `EventStream` | the resumable stream of operation stages |
| `SemVer` | version precedence, the accepted grammar, and the changelog order |
| `TreeWalk` | the bounded walk over a configuration tree |

## How the model reads the source

- An object whose methods update its fields is a class with those fields; a locked section is
  one method. Each state machine also exists as a function on values with one case per locked
  section or transaction, the methods are proved to take its steps, and the theorems over runs
  are proved about the function.
- A database transaction works on a copy that replaces the database when it commits.
- A text is the sequence of its UTF-8 bytes, one character per byte. Digests are injective.
  Tokens, digests of tokens, session bindings and origins are numbers; what matters of their
  text, such as its shape, is a flag. The random tokens and session ids of the two brokers are
  fresh; nothing is assumed about the tokens and enrollment ids of the ledger.
- Time is an argument. HMAC is an arbitrary function from a secret and a step to a code.
- The remote server answers a request with any reply its kind allows, or with nothing. A
  positive reply tells the truth. A refusal may hide an effect, except on a `faithful` server.
  No one else changes the files during an upload.

Two promises do not hold as stated, and the project says exactly when they do.

- "A policy other than disabled implies an active enrollment": `update_additional_auth_policy`
  looks at the provider before its transaction, so a recovery reset can fall in between
  (`AuthRuns.PolicyCanLoseItsEnrollment`). One operation keeps the promise if and only if it is
  not a commit of such a policy while no enrollment is active (`AuthRuns.BackedStep`). A run
  keeps it throughout if and only if each such commit comes while some subject has activated an
  enrollment and not reset it (`AuthRuns.PolicyIsBackedExactly`). For the commit that belongs to
  a check the promise holds whenever the subject of the check made no reset in between
  (`AuthRuns.CommitOfACheck`).
- "A revoked login uploads nothing more": `issue` does not look again at revocations when it
  registers the session it opened, so a login that is revoked meanwhile can still upload
  (`FileBroker.RevokedLoginCanReturn`). Plans that are pending at the revoke never begin
  (`FileBroker.RevokedPlansNeverBegin`). Later uploads of the login begin only through a session
  of the login registered after the revoke (`FileBroker.BeginAfterRevokeNeedsRegister`), and
  such a registration is enough while the session still authenticates
  (`FileBroker.RegisterEnablesBegin`).

## Model

| member | source | states |
|---|---|---|
| `Text.HomeScopeIsComponentPrefix` | crates/jw-agentd/src/sftp_protocol.rs:385-401 | for every home and canonical path, the textual test of `resolve` holds exactly when the components of the home are a prefix of the components of the path |
| `Text.ChildInHome` | crates/jw-agentd/src/sftp_protocol.rs:285-289 | appending a name to a directory in scope stays in scope and adds exactly one component |
| `SftpClient.UploadStaysInHome` | crates/jw-agentd/src/sftp_protocol.rs:200-220 | target and temporary file of an admitted upload are direct children of a directory whose components extend those of the home |
| `SftpClient.TemporaryIsFresh` | crates/jw-agentd/src/sftp_protocol.rs:200-203 | the temporary path can be neither the target nor its directory |
| `Remote.Server.Exchange` | crates/jw-agentd/src/sftp_protocol.rs:665-733 | one request leads to one delivery under the request's id or another, with at most the effect of that request |
| `SftpClient.Client.Request` | crates/jw-agentd/src/sftp_protocol.rs:665-731 | a reply is accepted only under the id of its own request, ids never repeat, every request is logged with whether it was answered positively, and one that was not is counted as a fault with its reason |
| `SftpClient.Client.RealpathRaw` | crates/jw-agentd/src/sftp_protocol.rs:403-425 | a success is the server's canonical path; nothing changes |
| `SftpClient.Client.StatRaw` | crates/jw-agentd/src/sftp_protocol.rs:427-451 | attributes describe the entry the path leads to; nothing changes |
| `SftpClient.Client.LstatRaw` | crates/jw-agentd/src/sftp_protocol.rs:427-451 | attributes describe the entry itself, `not_found` means that there is none, and every other failure is a fault |
| `SftpClient.Client.OpenTemporary` | crates/jw-agentd/src/sftp_protocol.rs:534-548 | a handle means that the file did not exist and was created empty with the requested mode |
| `SftpClient.Client.ReadHandle` | crates/jw-agentd/src/sftp_protocol.rs:335-383 | under any pattern of short reads a success is exactly the content of the file and within the limit; without a fault an error means that the file is longer; the loop ends against any server |
| `SftpClient.Client.ReadChunk` | crates/jw-agentd/src/sftp_protocol.rs:345-381 | one round returns a non-empty piece of the content at the offset, or the end of the file |
| `SftpClient.OverwriteInChunks` | crates/jw-agentd/src/sftp_protocol.rs:550-568 | writing chunk after chunk at increasing offsets is one write of all the bytes |
| `SftpClient.Client.WriteChunk` | crates/jw-agentd/src/sftp_protocol.rs:550-568 | one round overwrites its piece or reports a fault; no other file changes at any moment |
| `SftpClient.Client.WriteHandle` | crates/jw-agentd/src/sftp_protocol.rs:550-568 | a success sent exactly the chunks of 32 KiB at increasing offsets, each acknowledged, and overwrites the file with all the bytes; no other file changes at any moment, also on an error |
| `SftpClient.Client.FsyncHandle` | crates/jw-agentd/src/sftp_protocol.rs:570-578 | sends exactly one fsync, changes nothing, and fails exactly with a fault |
| `SftpClient.Client.CloseHandle` | crates/jw-agentd/src/sftp_protocol.rs:652-663 | sends exactly one close and changes no file |
| `SftpClient.Client.Rename` | crates/jw-agentd/src/sftp_protocol.rs:580-589 | a success replaced the target; an error may hide the replacement, unless the server is faithful |
| `SftpClient.Client.RemoveIfPresent` | crates/jw-agentd/src/sftp_protocol.rs:591-605 | a success means that the file is gone, whether or not it was there |
| `SftpClient.Client.CleanupTemporary` | crates/jw-agentd/src/sftp_protocol.rs:607-613 | asks for the removal; the original reason is returned exactly when the temporary file is gone |
| `SftpClient.Client.Resolve` | crates/jw-agentd/src/sftp_protocol.rs:385-401 | a success is a canonical path inside the home; without a fault an error says which check failed |
| `SftpClient.Client.ReadCanonicalFile` | crates/jw-agentd/src/sftp_protocol.rs:255-272 | a success, and any result without a fault, is what kind, size and content of the file say; nothing changes |
| `SftpClient.Client.ReadWhole` | crates/jw-agentd/src/sftp_protocol.rs:268-271 | what was opened is read and closed, whatever the reading led to; nothing changes |
| `SftpClient.Client.InspectUpload` | crates/jw-agentd/src/sftp_protocol.rs:274-333 | a success, and any result without a fault, is what the files say about the target and its directory |
| `SftpClient.Client.Fill` | crates/jw-agentd/src/sftp_protocol.rs:207-213 | a success sent the chunks, then one acknowledged fsync, then one acknowledged close, and the file holds exactly the bytes; otherwise the error is that of the first failure, and the handle was closed all the same |
| `SftpClient.Client.FillOrRemove` | crates/jw-agentd/src/sftp_protocol.rs:207-216 | a file that could not be filled is asked to be removed, and the error says whether it is gone |
| `SftpClient.Client.StoreTemporary` | crates/jw-agentd/src/sftp_protocol.rs:204-216 | a success created the temporary file exclusively, wrote it in full, flushed and closed it, in this order and with nothing in between; a failure leaves every other file as it was at every moment, and the temporary file asked to be removed |
| `SftpClient.Client.RenameAndInspect` | crates/jw-agentd/src/sftp_protocol.rs:218-221 | the rename happened or did not, whatever was reported, and an answered inspection says which |
| `SftpClient.Client.Publish` | crates/jw-agentd/src/sftp_protocol.rs:218-241 | the verdict is the truth about the target, in each of the verified, refused and doubtful cases |
| `SftpClient.Client.Conclude` | crates/jw-agentd/src/sftp_protocol.rs:222-241 | content that was seen in place is a success; a refused rename with the old content in place is that refusal; everything else is left to a human; and no error is returned without asking for the removal of the temporary file |
| `SftpClient.Recognised` | crates/jw-agentd/src/sftp_protocol.rs:218-239 | an inspection that was answered tells a rename that happened from one that did not |
| `SftpClient.Client.Withdraw` | crates/jw-agentd/src/sftp_protocol.rs:233-241 | asks for the removal in both cases; the target is untouched, and a plain refusal is returned only when the temporary file is gone |
| `SftpClient.Client.AtomicUpload` | crates/jw-agentd/src/sftp_protocol.rs:181-242 | `Ok` means the target holds exactly the bytes with the expected mode, private to its owner if it is new; every error but `manual_recovery_required` leaves it as before; after every single request it is old or complete; no other path but the temporary one changes; nothing is renamed that was not created, written in full, flushed and closed right before; once created, the temporary file is asked to be removed before any error, and is gone except in the named cases; a rename that is the only fault is recognised as done or refused; refused uploads send no mutating request; without faults the admission checks alone decide |
| `SftpClient.Client.CheckAdmission` | crates/jw-agentd/src/sftp_protocol.rs:188-199 | the checks before the first change find what `Admit` says of the files, and change nothing |
| `SftpClient.AdmittedExactly` | crates/jw-agentd/src/sftp_protocol.rs:188-199 | an upload is admitted exactly for a supported server, at most 8 MiB, a well-formed suffix, a path of a file in a directory inside the home, and a target that is as expected |
| `SftpClient.AdmittedAsExpected` | crates/jw-agentd/src/sftp_protocol.rs:196-199 | an admitted upload found nothing, or a regular file with exactly the expected content and permissions; a new file is to be readable and writable by its owner alone |
| `SftpCodec.AttrsForward` | crates/jw-agentd/src/sftp_protocol.rs:856-901 | for every combination of flags, parsing encoded attributes returns them and leaves exactly what follows (section 5 of draft-ietf-secsh-filexfer-02) |
| `SftpCodec.AttrsBackward` | crates/jw-agentd/src/sftp_protocol.rs:856-901 | whatever `parse_attrs` accepts is an encoding followed by what it leaves |
| `SftpCodec.AnnouncedAreBits` | crates/jw-agentd/src/sftp_protocol.rs:856-894 | the fields read are those of bits 0 to 3 and 31 of the flag word |
| `SftpCodec.KnownAreBits` | crates/jw-agentd/src/sftp_protocol.rs:858-865 | a flag word is accepted exactly when bits 4 to 30 are clear |
| `SftpCodec.AttrsAccepted` | crates/jw-agentd/src/sftp_protocol.rs:443-448 | an attribute response is accepted exactly when it is an encoding |
| `SftpCodec.AttrsRoundTrip` | crates/jw-agentd/src/sftp_protocol.rs:443-448 | an encoded attribute response is read as its kept fields |
| `SftpCodec.NamesRoundTrip` | crates/jw-agentd/src/sftp_protocol.rs:813-828 | every name list within the limit is read as its kept fields (section 7 of draft-ietf-secsh-filexfer-02) |
| `SftpCodec.NamesAccepted` | crates/jw-agentd/src/sftp_protocol.rs:813-828 | a name payload is accepted exactly when it is the encoding of such a list |
| `SftpCodec.NamesPrefixFree` | crates/jw-agentd/src/sftp_protocol.rs:813-828 | no proper prefix and no extension of an accepted name payload is accepted |
| `SftpCodec.StatusRoundTrip` | crates/jw-agentd/src/sftp_protocol.rs:903-910 | an encoded status is read as its code |
| `SftpCodec.StatusAccepted` | crates/jw-agentd/src/sftp_protocol.rs:903-910 | a status payload is accepted exactly when it is an encoding |
| `SftpCodec.StatusPrefixFree` | crates/jw-agentd/src/sftp_protocol.rs:903-910 | no proper prefix and no extension of an accepted status payload is accepted |
| `SftpCodec.VersionAccepted` | crates/jw-agentd/src/sftp_protocol.rs:830-854 | a version response is accepted with a result exactly when it encodes version 3 and at most 32 extensions with UTF-8 names that announce that result |
| `SftpCodec.BytesForward` | crates/jw-agentd/src/sftp_protocol.rs:976-981 | what `push_bytes` writes is read back and exactly consumed |
| `SftpCursor.Cursor.TakeBytes` | crates/jw-agentd/src/sftp_protocol.rs:787-798 | takes the next bytes, or fails and stays where it is |
| `SftpCursor.Cursor.ReadNumber` | crates/jw-agentd/src/sftp_protocol.rs:761-775 | reads the big-endian value of the next bytes |
| `SftpCursor.Cursor.ReadBytes` | crates/jw-agentd/src/sftp_protocol.rs:777-781 | does what the length-prefixed parser does to the remaining bytes |
| `SftpCursor.Cursor.ReadString` | crates/jw-agentd/src/sftp_protocol.rs:783-785 | refuses bytes that are not UTF-8 (section 4 of RFC 3629) |
| `SftpCursor.Cursor.ReadAttrs` | crates/jw-agentd/src/sftp_protocol.rs:856-901 | does what the attribute parser does to the remaining bytes |
| `SftpCursor.Cursor.ReadEntries` | crates/jw-agentd/src/sftp_protocol.rs:884-892 | the loop over extended attributes parses exactly that many entries |
| `SftpCursor.Cursor.ReadNames` | crates/jw-agentd/src/sftp_protocol.rs:819-825 | the loop over names parses exactly that many and keeps the shown fields |
| `SftpCursor.Cursor.ReadExtensions` | crates/jw-agentd/src/sftp_protocol.rs:835-852 | the loop over extensions reads to the end within its budget and notes the two in use |
| `SftpCursor.DecodeNames` | crates/jw-agentd/src/sftp_protocol.rs:813-828 | the cursor code computes the name parser |
| `SftpCursor.DecodeAttrs` | crates/jw-agentd/src/sftp_protocol.rs:443-448 | the cursor code computes the attribute parser |
| `SftpCursor.DecodeStatus` | crates/jw-agentd/src/sftp_protocol.rs:903-910 | the cursor code computes the status parser |
| `SftpCursor.DecodeVersion` | crates/jw-agentd/src/sftp_protocol.rs:830-854 | the cursor code computes the version parser |
| `UploadAudit.Store.RecordFinish` | crates/jw-agentd/src/session.rs:296-322 | a reported success wrote exactly the final state and note over an open row; otherwise the row may be written or not; no other row changes |
| `UploadAudit.Store.RecordPlan` | crates/jw-agentd/src/session.rs:236-274 | the same for the row of a new plan, which never replaces one |
| `UploadAudit.Store.RecordStart` | crates/jw-agentd/src/session.rs:276-294 | the same for the start, which needs a planned row |
| `UploadRuns.AuditTruth` | crates/jw-agentd/src/file_session.rs:625-749 | in every run of the machine, with storage calls lost at will and restarts anywhere, a verified row means the planned content and mode are in place, a failed row means the target is as it was, and the target is never a mixture |
| `UploadRuns.RowsMoveForward` | crates/jw-agentd/src/session.rs:236-322 | over every run a row only moves from planned to applying to one final state, and a final row never changes |
| `UploadRuns.StepMovesForward` | crates/jw-agentd/src/session.rs:236-322 | the same for one step |
| `UploadRuns.DoubtIsRecorded` | crates/jw-agentd/src/file_session.rs:149-174 | when storage calls succeed, an upload that is over has a final row, and one dropped or killed while sending ends as a manual check |
| `UploadRuns.RestartSettles` | crates/jw-agentd/src/session.rs:688-701 | after a restart no row is open: one that was applying is a manual check, one that was only planned has failed |
| `UploadLease.AuditedUpload.TellsTheTruth` | crates/jw-agentd/src/file_session.rs:625-749 | the same for the stored row and the file on the server of any audited upload, without a condition on the upload protocol |
| `UploadLease.AuditedUpload.Apply` | crates/jw-agentd/src/file_session.rs:625-704 | refused, with the note of the first failing check and without a single request, exactly when the session is not active, length or digest differ from the plan, or no suffix could be drawn; otherwise the states that the target takes on the server, request by request, and the report of the protocol's own result are steps the machine allows; the caller is told of success exactly when the row is verified, and succeeds when the upload is admitted and nothing goes wrong |
| `UploadLease.AuditedUpload.Send` | crates/jw-agentd/src/file_session.rs:657-668 | what the upload protocol did to the target is added to the run, state by state, and the run ends with the file as it is on the server |
| `UploadLease.AuditedUpload.Transmit` | crates/jw-agentd/src/sftp_protocol.rs:181-242 | after every request the target of the plan is old or complete, and the result is true of it |
| `UploadLease.AuditedUpload.Report` | crates/jw-agentd/src/file_session.rs:669-703 | the state and note written are those of the result, the caller hears a storage error until they are stored, and no other row changes |
| `UploadLease.AuditedUpload.Refuse` | crates/jw-agentd/src/file_session.rs:706-749 | a refusal before the upload writes a failed row with its note; the lease counts as finished only when it is stored |
| `UploadLease.AuditedUpload.MakePlan` | crates/jw-agentd/src/file_session.rs:352-367 | a plan exists exactly when its row was reported as stored |
| `UploadLease.AuditedUpload.AbandonPlan` | crates/jw-agentd/src/file_session.rs:149-159 | a plan that is dropped is written as failed if storage allows it |
| `UploadLease.AuditedUpload.BeginUpload` | crates/jw-agentd/src/file_session.rs:437-447 | a lease exists exactly when the start was reported as stored; otherwise the plan is abandoned |
| `UploadLease.AuditedUpload.Drop` | crates/jw-agentd/src/file_session.rs:161-174 | dropping an unfinished lease writes a manual check over an open row, and dropping a finished one writes nothing |
| `UploadLease.AuditedUpload.Reopen` | crates/jw-agentd/src/session.rs:688-701 | a restart at any moment is a step of the machine and leaves no row open |
| `UploadLease.CutAnywhere` | crates/jw-agentd/src/file_session.rs:161-174 | the request may be dropped or the daemon killed after any state of the target, with the rest still landing: that too is a run of the machine |
| `UploadLease.TouchesArePossible` | crates/jw-agentd/src/sftp_protocol.rs:181-242 | from a leased or cut upload, any sequence of old or complete states of the target extends the run and ends with the last of them |
| `FileBroker.EveryInterleavingIsValid` | crates/jw-agentd/src/file_session.rs:177-536 | under any interleaving of the locked sections: at most 8 sessions, at most one per login, no revoked session registered, at most one pending plan per file session, and every issued plan is pending, begun exactly once, or abandoned |
| `FileBroker.BeginsAreAuthorised` | crates/jw-agentd/src/file_session.rs:414-448 | an upload begins only through a pending plan, for the session and login that made it, while that session is registered and unexpired, and the plan is then gone |
| `FileBroker.RevokedPlansNeverBegin` | crates/jw-agentd/src/file_session.rs:479-499 | a plan of the login that is pending when the login is revoked never begins an upload, whatever follows |
| `FileBroker.BeginAfterRevokeNeedsRegister` | crates/jw-agentd/src/file_session.rs:234-261 | after a revoke, whatever follows, an upload of the login begins only through a session of the login that was registered after the revoke |
| `FileBroker.RegisterEnablesBegin` | crates/jw-agentd/src/file_session.rs:248-261 | such a registration is enough: a plan made and begun through it begins an upload while the session still authenticates |
| `FileBroker.RevokedLoginCanReturn` | crates/jw-agentd/src/file_session.rs:234-261 | a login that uploads after it was revoked while its session was being opened |
| `FileBroker.RevokeOutcome` | crates/jw-agentd/src/file_session.rs:479-499 | a revoke takes exactly the sessions, plans and reservations of its login; those of every other login stay, and exactly the removed ones are flagged and abandoned |
| `FileBroker.CleanupOutcome` | crates/jw-agentd/src/file_session.rs:880-899 | a clean-up takes exactly the sessions that no longer authenticate and the plans whose time is over or whose session is gone |
| `FileBroker.ReserveOutcome` | crates/jw-agentd/src/file_session.rs:188-207 | a reservation is made exactly when the login has no session and none opening, and fewer than eight are open or opening |
| `FileBroker.RegisterOutcome` | crates/jw-agentd/src/file_session.rs:236-258 | a session is registered exactly when its login has none and fewer than eight are open |
| `FileBroker.AddPlanOutcome` | crates/jw-agentd/src/file_session.rs:384-400 | a plan is added exactly when its session is registered and has none |
| `FileBroker.BeginOutcome` | crates/jw-agentd/src/file_session.rs:424-447 | a plan begins exactly when it is there for this session and login, has not lapsed, and its start was recorded |
| `FileBroker.CloseOutcome` | crates/jw-agentd/src/file_session.rs:450-477 | closing takes exactly the session of its own login, ingress and origin |
| `FileBroker.ExpireOutcome` | crates/jw-agentd/src/file_session.rs:512-536 | expiring takes exactly the one session that no longer authenticates |
| `FileBroker.AcquireOutcome` | crates/jw-agentd/src/file_session.rs:286-309 | a session is handed out exactly for its own login, ingress and origin while it authenticates |
| `FileBroker.OthersKeepOpening` | crates/jw-agentd/src/file_session.rs:269-273 | dropping the reservations of one login keeps those of all others, as often as they occur |
| `FileBroker.Broker.ReserveOpening` | crates/jw-agentd/src/file_session.rs:188-207 | reserves a slot exactly when the login has no session and none opening and fewer than eight are open or opening |
| `FileBroker.Broker.ReleaseOpening` | crates/jw-agentd/src/file_session.rs:269-273 | gives the reservation back and keeps those of other logins |
| `FileBroker.Broker.RegisterSession` | crates/jw-agentd/src/file_session.rs:236-258 | registers the session exactly when its login has none and the limit allows it, and otherwise revokes it |
| `FileBroker.Broker.AddUploadPlan` | crates/jw-agentd/src/file_session.rs:380-405 | adds the plan exactly when its session is registered and has none, and otherwise abandons it |
| `FileBroker.Broker.BeginUpload` | crates/jw-agentd/src/file_session.rs:414-448 | takes the plan out of the table whatever the checks say, begins it exactly when they pass, and otherwise abandons it |
| `FileBroker.Broker.CloseSession` | crates/jw-agentd/src/file_session.rs:450-477 | removes the session exactly for its own login, ingress and origin; its plans stay until the next clean-up |
| `FileBroker.Broker.RevokeSession` | crates/jw-agentd/src/file_session.rs:479-499 | removes exactly the sessions, plans and reservations of the login, sets the flags of exactly those sessions and abandons exactly those plans; everything of other logins stays |
| `FileBroker.Broker.RevokeEveryone` | crates/jw-agentd/src/file_session.rs:501-510 | nothing stays registered, planned or opening |
| `FileBroker.Broker.AcquireSession` | crates/jw-agentd/src/file_session.rs:275-309 | hands out the session exactly for its own login, ingress and origin while it authenticates, and removes one that does not |
| `FileBroker.Broker.ExpireSession` | crates/jw-agentd/src/file_session.rs:512-536 | removes the session exactly if it no longer authenticates, and nothing else |
| `FileBroker.Broker.CleanupExpired` | crates/jw-agentd/src/file_session.rs:880-899 | removes exactly the sessions and plans that expired and the plans of sessions that are gone |
| `TerminalBroker.EveryRunIsValid` | crates/jw-agentd/src/terminal.rs:101-242 | in every run active entries and live leases correspond one to one, a login has at most one of ticket or active entry, tickets and entries are each at most 8, and a ticket grants at most one lease |
| `TerminalBroker.LeaseNeedsItsTicket` | crates/jw-agentd/src/terminal.rs:147-197 | a lease is granted only by an unexpired ticket of the same login, ingress and origin |
| `TerminalBroker.SameSize` | crates/jw-agentd/src/terminal.rs:79-90 | there are as many live leases as active entries |
| `TerminalBroker.RevokeIsFinal` | crates/jw-agentd/src/terminal.rs:199-218 | after a revoke of a login or of all, whatever follows, no ticket that it took ever grants a lease |
| `TerminalBroker.CancelledStays` | crates/jw-agentd/src/terminal.rs:199-218 | a revoked live terminal stays cancelled over every run |
| `TerminalBroker.TicketLives` | crates/jw-agentd/src/terminal.rs:101-242 | whatever runs after its issue, a ticket is in the table exactly if no step presented, expired, revoked or cleaned it up |
| `TerminalBroker.IssuedTicketGrants` | crates/jw-agentd/src/terminal.rs:147-197 | a ticket that was issued grants its lease to its own login, ingress and origin exactly if no step took it, its time is not over, and fewer than eight terminals exist |
| `TerminalBroker.IssueOutcome` | crates/jw-agentd/src/terminal.rs:101-145 | an issue removes the overdue tickets and no other, and adds the new one exactly when login and limits allow it |
| `TerminalBroker.ConsumeOutcome` | crates/jw-agentd/src/terminal.rs:147-197 | a consumption spends its ticket, removes the overdue ones and no other, and enters the lease it grants |
| `TerminalBroker.VerdictOutcome` | crates/jw-agentd/src/terminal.rs:163-180 | exactly when a ticket is expired, invalid, refused as busy, or granted |
| `TerminalBroker.RevokeOutcome` | crates/jw-agentd/src/terminal.rs:199-209 | a revoke takes exactly the tickets of its login and notifies exactly its terminal |
| `TerminalBroker.Broker.IssueTicket` | crates/jw-agentd/src/terminal.rs:101-145 | issues exactly when the login has neither ticket nor terminal and the limits allow it; unexpired tickets of others stay |
| `TerminalBroker.Broker.ConsumeTicket` | crates/jw-agentd/src/terminal.rs:147-197 | spends the ticket whatever the verdict, decides exactly by ticket, time, login and limit, and leaves the unexpired tickets of others |
| `TerminalBroker.Broker.Drop` | crates/jw-agentd/src/terminal.rs:79-90 | frees the entry of this lease and no other |
| `TerminalBroker.Broker.Expire` | crates/jw-agentd/src/terminal.rs:224-241 | exactly this ticket is gone |
| `TerminalBroker.Broker.Revoke` | crates/jw-agentd/src/terminal.rs:199-209 | removes the tickets and cancels the live terminal of the login, and nothing of others |
| `TerminalBroker.Broker.RevokeEveryone` | crates/jw-agentd/src/terminal.rs:211-218 | removes all tickets and cancels every live terminal |
| `Totp.MatchStep` | crates/jw-agentd/src/totp.rs:650-675 | the loop over the three candidate steps settles on the last match |
| `Totp.MatchWindow` | crates/jw-agentd/src/totp.rs:650-675 | an accepted code belongs to a step within one of the clock and at most two behind the last, and any code of such a step is accepted while the clock is sound |
| `Totp.MatchIsExact` | crates/jw-agentd/src/totp.rs:650-675 | with a sound clock a code is matched to exactly the step it stands for, the next before the previous before the current one, or is invalid; with an unsound one it is a clock rollback |
| `Totp.HistoryIsReplayFree` | crates/jw-agentd/src/totp.rs:650-689 | every code accepted under one enrollment is the code of a step within one of the clock, at most two behind every earlier one, and no two share a step (section 5.2 of RFC 6238) |
| `Totp.AcceptKeeps` | crates/jw-agentd/src/totp.rs:676-705 | reserving a step keeps used steps, last step and history in agreement |
| `Totp.ConfirmedRow` | crates/jw-agentd/src/totp.rs:204-236 | a confirmed row keeps its first step, and becomes active only with the code of the step right after it, before it expires |
| `Totp.InsertKeeps` | crates/jw-agentd/src/totp.rs:114-150 | a new enrollment replaces a pending one with everything that belonged to it |
| `Totp.DeleteKeeps` | crates/jw-agentd/migrations/0005_totp.sql:18-32 | deletions with their cascades keep the tables in agreement |
| `Claims.ConsumeBothKeeps` | crates/jw-agentd/src/session.rs:460-500 | consuming both claims in one transaction keeps each bound, unexpired and spent once |
| `AuthLedger.StepKeeps` | crates/jw-agentd/src/session.rs:334-505 | every operation, refused or not, keeps the invariants of all tables and undoes nothing recorded before |
| `AuthLedger.RunKeeps` | crates/jw-agentd/src/totp.rs:90-429 | so does every run |
| `AuthRuns.ClaimsAreConsumedOnce` | crates/jw-agentd/src/session.rs:433-505 | in every reachable database every consumption of a reauth claim was the only one of its claim, before its expiry, for its own session, uid, purpose and context |
| `AuthRuns.ConsumedClaimWasUsed` | crates/jw-agentd/src/session.rs:446-470 | every claim that is marked consumed was consumed by one recorded transaction, at that time and for its binding |
| `AuthRuns.AdditionalIsConsumedBeside` | crates/jw-agentd/src/session.rs:471-499 | a consumed additional claim was consumed in the transaction that consumed its operation claim, and it is the only one |
| `AuthRuns.ClaimsStaySpent` | crates/jw-agentd/src/session.rs:334-366 | over every run no claim is rebound, extended or revived and no consumption undone |
| `AuthRuns.StepsAreNeverReplayed` | crates/jw-agentd/src/totp.rs:650-705 | in every reachable database every code accepted under an enrollment, the first included, is the code of a step of its secret within one of the clock, at most two behind every earlier one, and no step is accepted twice |
| `AuthRuns.StoredStepsAreTheAccepted` | crates/jw-agentd/src/totp.rs:691-705 | the stored last step is the largest accepted one and the stored used steps are exactly the accepted ones |
| `AuthRuns.LastStepNeverDecreases` | crates/jw-agentd/src/totp.rs:691-705 | over every run the last step of an enrollment never decreases |
| `AuthRuns.ActiveWasConfirmedTwice` | crates/jw-agentd/src/totp.rs:197-236 | an active enrollment accepted the codes of two consecutive steps of its own secret before it expired |
| `AuthRuns.EnrollmentIdsAreUnique` | crates/jw-agentd/src/totp.rs:114-150 | in every run no two subjects share an enrollment id, whatever ids are drawn |
| `AuthRuns.EnrollmentLastsUntilReset` | crates/jw-agentd/src/totp.rs:372-428 | an active enrollment is still there after any run if and only if its subject did not reset it |
| `AuthRuns.PolicyIsBackedExactly` | crates/jw-agentd/src/session.rs:368-412 | throughout a run a policy other than disabled implies an active enrollment if and only if each commit of such a policy comes while some subject has activated an enrollment and not reset it |
| `AuthRuns.BackedStep` | crates/jw-agentd/src/session.rs:368-412 | one operation keeps the policy backed if and only if it does not commit such a policy while no enrollment is active |
| `AuthRuns.CommitOfACheck` | crates/jw-agentd/src/session.rs:375-412 | the commit of a check puts the checked target into force; without a reset by its subject in between the policy is backed, and with one it is backed exactly when some enrollment is active |
| `AuthRuns.EnrolledIsActive` | crates/jw-agentd/src/totp.rs:184-253 | in every run a subject has an active enrollment exactly when they confirmed one and did not reset it since |
| `AuthRuns.ActiveStep` | crates/jw-agentd/src/totp.rs:184-253 | only a second confirmation activates an enrollment, and only a reset of its own subject ends it |
| `AuthRuns.PolicyCanLoseItsEnrollment` | crates/jw-agentd/src/session.rs:379-388 | a run that ends with a policy in force and no enrollment |
| `AuthStore.Store.ConsumeOperationClaims` | crates/jw-agentd/src/session.rs:433-505 | succeeds exactly when every claim it names is usable, and then all of them are consumed; a refusal changes nothing |
| `AuthStore.Store.ConsumeTransaction` | crates/jw-agentd/src/session.rs:446-504 | the sequence of updates on the copy computes the transaction |
| `AuthStore.Store.MatchAndReserve` | crates/jw-agentd/src/totp.rs:650-689 | the step is matched and reserved, or refused as a replay |
| `AuthStore.Store.ConfirmEnrollment` | crates/jw-agentd/src/totp.rs:184-253 | succeeds exactly for an administrator at the recovery console with an acceptable code before the expiry, the second time for the step after the first; a success uses up the step, and the enrollment is active exactly when it was the second code |
| `AuthStore.Store.IssueOperationClaim` | crates/jw-agentd/src/totp.rs:255-323 | succeeds exactly beside a usable operation claim of the same session, subject and plan for a verifiable code, uses up its step, and leaves a claim that can be used beside that operation claim during five minutes and for nothing else |
| `AuthStore.Store.VerifyDirectContext` | crates/jw-agentd/src/totp.rs:325-358 | succeeds exactly for an active enrollment, a readable key, a well-formed code and context, and a sound clock by which the code stands for an unused step, which is then used up |
| `AuthStore.Store.BeginEnrollment` | crates/jw-agentd/src/totp.rs:90-182 | succeeds exactly for an administrator at the recovery console other than root, without an active enrollment, with a usable claim and an id no one else has; a success spends the claim and leaves a pending enrollment with no used step, and the rows of other subjects as they were |
| `AuthStore.Store.RecoveryReset` | crates/jw-agentd/src/totp.rs:360-429 | a success spends an unused recovery code and the claim and removes enrollment, used steps, recovery codes, additional claims and policy together; a refusal changes nothing |
| `AuthOutcomes.IssueReauthOutcome` | crates/jw-agentd/src/session.rs:334-366 | a new claim can be used for its own binding during five minutes and for nothing else; an existing digest is refused; no other claim changes |
| `AuthOutcomes.CheckOutcome` | crates/jw-agentd/src/session.rs:376-388 | passes exactly for an administrator whose provider is ready or who disables the policy, changes no table, and a commit right after it leaves the policy at the target and backed by an enrollment |
| `AuthStore.Store.CommitAdditionalAuthPolicy` | crates/jw-agentd/src/session.rs:389-412 | succeeds exactly with a passed check and a usable claim for that very target, spends both and sets the policy; a refusal changes nothing |
| `AuthOutcomes.RestartOutcome` | crates/jw-agentd/src/session.rs:731-743 | after a restart exactly the unspent and unexpired additional claims and the active or unexpired enrollments are left, unchanged, and reauth claims and policy survive |
| `AuthOutcomes.ConsumeOutcome` | crates/jw-agentd/src/session.rs:433-505 | both claims or neither: the request succeeds exactly when all it names can be consumed, and changes nothing else; the error of the first claim hides that of the second |
| `AuthOutcomes.SpentIsUseless` | crates/jw-agentd/src/session.rs:446-470 | a spent claim can be used for nothing, at any time |
| `AuthOutcomes.BeginOutcome` | crates/jw-agentd/src/totp.rs:90-182 | exactly when an enrollment begins; it is pending for ten minutes, has nothing used and exactly the given recovery codes, all unused |
| `AuthOutcomes.ConfirmOutcome` | crates/jw-agentd/src/totp.rs:184-253 | exactly when a confirmation succeeds; the first code is remembered, and the second activates only for the very next step and before the expiry |
| `AuthOutcomes.VerifyOutcome` | crates/jw-agentd/src/totp.rs:325-358 | succeeds exactly when the active enrollment accepts the code, which stood for an unused step by a sound clock and is used now; nothing else changes |
| `AuthOutcomes.IssueAdditionalOutcome` | crates/jw-agentd/src/totp.rs:255-323 | exactly when an additional claim is issued; the operation claim is not spent and no other claim changes |
| `AuthOutcomes.AdditionalIsUsable` | crates/jw-agentd/src/session.rs:471-499 | a new additional claim can be used beside its own operation claim, for its own session, subject and plan, during five minutes, and for nothing else |
| `AuthOutcomes.PairIsConsumable` | crates/jw-agentd/src/session.rs:433-505 | an operation claim and the additional claim issued beside it can be consumed together, whatever ran since, exactly until the first of them expires, as long as neither was spent nor the second ended |
| `AuthOutcomes.ClaimLives` | crates/jw-agentd/src/session.rs:334-366 | whatever runs after its issue, a claim can be used exactly for its own binding, until its five minutes are over, as long as no operation spent it |
| `AuthOutcomes.VerifyRefusal` | crates/jw-agentd/src/totp.rs:325-358 | which error a refused verification gets, in the order of its checks; a used code is told apart from a wrong one |
| `AuthOutcomes.ResetOutcome` | crates/jw-agentd/src/totp.rs:360-429 | succeeds exactly for an administrator at the recovery console with an unused recovery code and a usable claim, and leaves the rows of other subjects as they were |
| `AuthOutcomes.CommitOutcome` | crates/jw-agentd/src/session.rs:389-412 | exactly when a policy is committed; it is the checked target, the claim is spent for that target, and the check is gone |
| `Base32.Encode` | crates/jw-agentd/src/totp.rs:829-848 | the loop with the 32-bit accumulator emits exactly the 5-bit groups of section 6 of RFC 4648, without padding, for every byte string |
| `Base32.Regroup` | crates/jw-agentd/src/totp.rs:834-842 | shifting values through the truncating register loses no pending bit |
| `Base32.Decode` | crates/jw-agentd/src/totp.rs:1069-1087 | computes the complete octets of the text, or refuses a foreign character |
| `Base32.DecodeEncode` | crates/jw-agentd/src/totp.rs:829-848 | decoding an encoded byte string returns it |
| `Base32.EncodeInjective` | crates/jw-agentd/src/totp.rs:829-848 | different byte strings have different texts |
| `Base32.RecoveryCodeRoundTrip` | crates/jw-agentd/src/totp.rs:772-799 | the grouping of a recovery code is undone by the normalisation before its digest |
| `Base32.Normalise` | crates/jw-agentd/src/totp.rs:789-799 | the loop skips separators and upper-cases the rest |
| `RateLimiter.RateLimit` | crates/jw-agentd/src/api.rs:2719-2792 | for calls in time order any span of 60 seconds holds at most 12 accepted attempts for a subject, 40 for a source and 120 overall, and neither table exceeds 2048 keys |
| `RateLimiter.RateLimitIsReached` | crates/jw-agentd/src/api.rs:2719-2792 | the bounds are exact: two full bursts one window apart are accepted whole, so 120, 40 and 12 are reached |
| `RateLimiter.SlidingBound` | crates/jw-agentd/src/api.rs:2757-2792 | fixed windows of one limit allow at most twice the limit in any span of their length |
| `RateLimiter.ConsumeOutcome` | crates/jw-agentd/src/api.rs:2719-2743 | a call is accepted exactly when all three counters have room; they are charged in order, and one that refuses leaves the earlier charges standing; no other counter changes |
| `RateLimiter.RefusedCallsAreCharged` | crates/jw-agentd/src/api.rs:2733-2742 | of many calls at once from one source for one subject six are accepted, and yet the source has been charged twenty and the server sixty of them |
| `RateLimiter.InsistenceLocksOut` | crates/jw-agentd/src/api.rs:2733-2742 | so twenty such calls refuse everyone behind the source, and sixty everyone, for the rest of the window |
| `RateLimiter.QuietCallIsAccepted` | crates/jw-agentd/src/api.rs:2745-2755 | a call one window after all others is accepted |
| `RateLimiter.Limiter.Attempt` | crates/jw-agentd/src/api.rs:2719-2743 | accepts exactly when all three counters have room and charges them in order, also when a later one refuses; no other counter changes |
| `EventStream.SequencesIncrease` | crates/jw-agentd/src/api.rs:2237-2250 | for any receipts the queued sequence numbers strictly increase from the client's |
| `EventStream.DeliveredIncreases` | crates/jw-agentd/src/api.rs:2272-2312 | so do the delivered ones |
| `EventStream.QueuedAreTheStages` | crates/jw-agentd/src/api.rs:2237-2262 | with ordered receipts that only grow, the queue received exactly the stages after the client's number |
| `EventStream.LifeQueuesTheStages` | crates/jw-agentd/src/api.rs:2237-2312 | the same for a stream that ends in an error |
| `EventStream.DeliveredIsPrefix` | crates/jw-agentd/src/api.rs:2275-2312 | what was delivered is a prefix of what was queued |
| `EventStream.AnswersAreSteps` | crates/jw-agentd/src/api.rs:2275-2312 | however long the stream waits before it asks and before it is answered, every answered receipt becomes a step, in order, and nothing else does |
| `EventStream.FailuresAreSteps` | crates/jw-agentd/src/api.rs:2284-2296 | a window that is over and a request that failed each end the stream, and a turn without an answer takes no step |
| `EventStream.AnsweredStreamDelivers` | crates/jw-agentd/src/api.rs:2275-2312 | a stream that was answered growing receipts and has delivered all it queued has delivered exactly the stages of the last one after the client's number, and is at its end exactly when that one is terminal |
| `EventStream.ResumeLosesNothing` | crates/jw-agentd/src/api.rs:2332-2341 | for any chain of visits, each cut after any stage or ended by an error and resumed from the last id that reached the client: what reached it in all, followed by what is still to come after its last id, is exactly the stages of the final receipt after its first id |
| `EventStream.FailureQueuesNoStage` | crates/jw-agentd/src/api.rs:2264-2269 | a failure ends the stream and takes nothing back |
| `EventStream.FinishedIsComplete` | crates/jw-agentd/src/api.rs:2275-2283 | a stream that ended without a failure delivered every stage of its terminal receipt |
| `EventStream.OperationEventStream.RecordReceipt` | crates/jw-agentd/src/api.rs:2237-2250 | the loop queues what the model's step queues |
| `EventStream.OperationEventStream.PollNext` | crates/jw-agentd/src/api.rs:2275-2312 | turns once per input while nothing is queued and the stream is open, every turn taking the step its input says; delivers queued events in order, ends only when all were delivered, and is pending only when the inputs are used up, the request is unanswered or the delay still runs |
| `EventStream.OperationEventStream.TakeTurn` | crates/jw-agentd/src/api.rs:2284-2310 | one turn takes the step of its input: a receipt, a failure, a request, or none |
| `SemVer.NumericCmpIsNatural` | xtask/src/release_policy.rs:151-153 | comparing numerals by length and then as text is comparing unbounded naturals |
| `SemVer.PrecedenceIsSection11` | xtask/src/release_policy.rs:93-107 | on well-formed versions `precedence_cmp` is the precedence of section 11 of Semantic Versioning 2.0.0, in all three outcomes |
| `SemVer.PrereleaseCmpIsSection11` | xtask/src/release_policy.rs:155-170 | `prerelease_cmp` orders identifier lists by the first difference, the shorter first |
| `SemVer.PrecedenceIsTotalPreorder` | xtask/src/release_policy.rs:93-107 | `precedence_cmp` is reflexive, flips when swapped, and composes |
| `SemVer.ParseRender` | xtask/src/release_policy.rs:35-87 | every text of sections 2, 9 and 10 of Semantic Versioning 2.0.0 is accepted and read as its parts |
| `SemVer.ParseIsTheGrammar` | xtask/src/release_policy.rs:35-87 | nothing else is accepted, and what is returned is well-formed |
| `SemVer.PrereleaseCompare` | xtask/src/release_policy.rs:155-170 | the early-return loop computes the comparison |
| `SemVer.PrecedenceCompare` | xtask/src/release_policy.rs:93-107 | the early-return loop computes the comparison |
| `SemVer.OutOfOrder` | xtask/src/release_policy.rs:349-356 | the reported neighbours are exactly the misplaced ones, and there are none exactly when every release comes before every older one |
| `SemVer.NeighboursSuffice` | xtask/src/release_policy.rs:349-356 | neighbours strictly decrease if and only if all pairs do |
| `TreeWalk.WalkFindsTheFiles` | crates/jw-agentd/src/service_config_inventory.rs:159-188 | the full walk finds exactly the regular files reachable through readable directories within the depth |
| `TreeWalk.WalkAscends` | crates/jw-agentd/src/service_config_inventory.rs:171-187 | the walk is in strictly ascending path order |
| `TreeWalk.EntriesCompareAsPaths` | crates/jw-agentd/src/service_config_inventory.rs:167-171 | sorting the paths of a directory is sorting its names |
| `TreeWalk.Collector.Collect` | crates/jw-agentd/src/service_config_inventory.rs:159-188 | the early-stopping walk returns exactly the first files of the full walk, one more than the limit |
| `TreeWalk.Observe` | crates/jw-agentd/src/service_config_inventory.rs:114-118 | for any limits, walk, sort and truncation give the first files of the full walk and whether there are more |
| `TreeWalk.ObserveTree` | crates/jw-agentd/src/service_config_inventory.rs:114-118 | the same for 256 entries and depth 5 |
| `TreeWalk.KeptAreTheSmallest` | crates/jw-agentd/src/service_config_inventory.rs:114-118 | the kept files are the smallest, and `truncated` says exactly whether a file is missing |
| `Order.SortAscends` | crates/jw-agentd/src/service_config_inventory.rs:171-171 | sorting distinct items puts them in strictly ascending order |

## Left out

- HTTP handlers, headers, cookies, process spawning, terminals and sockets: they would add only plumbing around the cores.
- SFTP packet framing, partial reads of the pipe and timeouts: a packet arrives whole or the request is lost.
- SFTP directory listing and text reads: they repeat the request pattern of the modelled operations.
- Other writers: nobody else changes the remote files while an upload runs.
- Cryptography: SHA-256 is injective, HMAC is an arbitrary function, encryption of secrets at rest is only the flag whether they can be decrypted.
- Session lifecycle, roles at login and the revocation of login sessions by a recovery reset: sessions are opaque numbers in the ledger.
- Database errors inside the ledger's transactions: a transaction commits or changes nothing; lost storage calls are modelled for the upload audit only.
- The shape of enrollment ids and the audit events of the TOTP service: they decide nothing in the ledger.
- TreeWalk.Observe: requires distinct names within a directory, which file systems guarantee and the source does not check.
- The branch of `push_stage` for a stage that cannot be serialised (crates/jw-agentd/src/api.rs:2260): the type of a stage has no value for which serialisation fails.
- Base32.Decode: the two loops of the source share one register routine, and the text is checked before its values are shifted in.
- SemVer.ParseIsTheGrammar: does not say which error message a refused text gets.
- Changelog headings, dates, links and categories: text checks without an order to prove.
- Memory layout, locking primitives and cancellation inside the brokers: each locked section is one atomic step.
