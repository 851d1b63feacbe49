# Masqman in Dafny

Masqman is a proxy between MySQL clients and a MySQL server. A browser user is
issued a one-time MySQL credential; a client that logs in with it gets an
upstream connection of its own, on which only reads and a few set-up statements
are run, and whose results are masked before the client sees them. This project
models the parts of the proxy that carry state, loops and arithmetic, and proves
what the proxy relies on them for. `dafny verify dfyconfig.toml` checks all of it.

The form of the model follows the program. Objects whose methods change their
fields are classes (`Result`, `ForwardingHandler`, `DeferredForwardingHandler`,
`PolicyHandler`, `SessionAuthenticationHandler`, `StaticPolicy`, `Store`,
`TimeBuckets`, `FileLogger`), scanning loops are methods with loops, and
concurrent protocols are state machines over all schedules. Each method is tied
to a function of its inputs or of the old state, and the promises are lemmas
about those functions.

## What is modelled

* **One client connection** (`Trace`, `Forwarding`, `Deferred`, `Policy`,
  `Connection`). The upstream connections, the audit log, the credential store and
  the client are a `World` that may answer anything and whose ghost `trace` records
  everything done to it with its answer. What a method returns is tied to those
  answers. `Trace.Safe` says which event may follow which history;
  every handler method keeps the trace safe, and `ServeConn` proves it of every
  run from the accepted connection to the return, along with the marks
  (`Trace.Marks`) that exactly the answered callbacks and the handled commands leave. What a safe trace means is
  proved separately: nothing reaches a closed upstream, the first terminal error
  is final, no work follows the loss of an audit record, a selected database is
  allowed and, with one authentication, the last name accepted, a query that is
  run is within the size limit and runs under its own classification, and every
  upstream is closed exactly once.
* **Results** (`TextRow`, `Masking`, `Resultset`, `Forwarding`). Rows are bytes in
  the format of the MySQL client/server protocol (length-encoded integers of
  "Integer Types", rows of "Text Resultset Row"), with its 1, 3, 4 and 9 byte
  prefixes and the 0xfb NULL marker. Parsing and formatting single values is
  the wire library's business and is a parameter, `Library`. `Released` is what a
  client may be given of an upstream result; the handler gives exactly that, and
  `Visible` says, on rules and expression contexts, which columns it shows.
* **One-time credentials** (`Otp`, `OtpLaws`, `OtpStore`, `Race`). The store keeps
  credentials whose counters and password bytes change in place, and sliding
  windows of times in arrays that are compacted in place and appended to.
  `OtpStore` proves it against `Otp.Step`; `OtpLaws` compares every answer with the
  complete history of calls; `Race` lets any number of connections interleave on
  one store.
* **The accept loop** (`Server`). `ServeContext`'s accept loop, cancellation
  goroutine and handlers are interleaved step by step around the slot channel, the
  mutex, the active map and the wait group.
* **Lexers** (`Normalize`, `NormalizeLaws`, `NormalizeTwice`, `NormalizeBytes`,
  `Lexer`, `LexerLaws`, `ScanLaws`, `TokenEnds`). The audit log's statement
  normaliser and the classifier's scanners, each proved against a function on
  tokens or pieces, whose beginnings and ends `TokenEnds` describes by position.
* **Audit log rotation** (`AuditLog`). The active file and its backups on a disk
  whose every operation may fail.

## Where the obvious claim is false

* `NormalizeStatement` is not idempotent: dropping the comment from `--/**/x`
  leaves `-- x`, which is itself a comment, and so does the space written for a
  vertical tab after `--`. `NormalizeTwice.IdempotentIff` says exactly which
  statements a second pass over the code points changes. A byte of code from 0x80
  up is written as two bytes, and each of those as two more by the next pass
  (`NormalizeBytes.AccentIsEncoded`, `NormalizeBytes.AccentGrows`).
  `NormalizeBytes.LoggedTwiceIff` has the exact condition on the bytes returned.
* An unterminated block comment leaves its last character to be scanned as code by
  the inline loops but not by `skipBlockComment`: `LexerLaws.LeakedCharacter`.
  `LexerLaws.SameCodeIff` says exactly which statements the two kinds of scanner
  see alike.
* `hasTrailingStatementTerminator` misses a semicolon that `normalize` leaves at the
  end when it comes from a quoted name or is followed by a name or by a blank only
  `strings.Fields` knows (`ScanLaws.TerminatorCanBeMissed`);
  `ScanLaws.TerminatorEndsNormalizedIff` has the exact condition.
* The test for executable comments also fires on a quoted name
  (`ScanLaws.NameLooksExecutable`); `ScanLaws.ExecutableIff` says exactly when.
* The masking index joins schema and table with a dot. `Masking.DottedNamesCollide`
  gives two tables that share a key, and `Masking.IndexAgreesExactlyWhenClosed` the
  configurations for which that does no harm.
* A result with rows but no columns is not masked (`Resultset.NoColumnsMeansNoMasking`).
  `Resultset.ConfinedIffColumns`: masking confines what a client learns exactly when
  there are columns.
* A query answered without the upstream is logged with the masked-field count of
  the query forwarded before it (`Policy.ForwardThenLocal`), which need not be zero
  (`Resultset.OneCellMasked`).
* A second authentication success on one connection leaves the first upstream
  open (`Trace.SecondActivationLeaks`); without one, nothing is left open. It also
  replays on the second upstream the name kept before the first, although another
  may have been accepted since (`Trace.StaleReplay`, `Trace.SelectedNameIff`).
* `Close` before activation leaves the deferred handler open
  (`Deferred.DeferredForwardingHandler.Close`).

## Model

| member | source | states |
|---|---|---|
| TextRow.RowRoundTrip | internal/mysqlproxy/forwarding_handler.go:457-493 | decoding the encoding of any row of nullable byte strings, whatever follows it, gives the row back |
| TextRow.ReadPrefixRoundTrip | internal/mysqlproxy/forwarding_handler.go:457-463 | every length reads back through its 1, 3, 4 or 9 byte prefix, with the rest untouched |
| TextRow.PrefixShape | internal/mysqlproxy/forwarding_handler.go:457-463 | a length up to 250 is its own prefix, and any other is a marker, 0xfc, 0xfd or 0xfe, and the length in the fewest of 2, 3 or 8 bytes that hold it |
| TextRow.LittleEndianRoundTrip | internal/mysqlproxy/forwarding_handler.go:457-463 | a number that fits the width is recovered from its little-endian bytes |
| TextRow.NullMarkerUnambiguous | internal/mysqlproxy/forwarding_handler.go:457-463 | a cell's encoding starts with 0xfb exactly when the cell is NULL |
| TextRow.EncodingInjective | internal/mysqlproxy/forwarding_handler.go:482-493 | two rows of the same width with the same bytes are the same row |
| Masking.StaticPolicy.constructor | internal/masking/policy.go:74-100 | the built index allows a field exactly when a linear scan finds a rule with its joined key, or a global column name, that grants it |
| Masking.StaticPolicy.AddTableRule | internal/masking/policy.go:149-166 | adding one rule extends what the maps hold by what that rule grants and nothing else |
| Masking.StaticPolicy.AddColumnNames | internal/masking/policy.go:86-98 | every name of the list is added in lower case, and nothing else |
| Masking.IndexIsKeyScan | internal/masking/policy.go:128-147 | an index built from a configuration allows a field exactly when a linear scan of the rules by joined key does |
| Masking.DotFreeIndexIsScan | internal/masking/policy.go:128-170 | with dot-free schema names the index agrees with a case-insensitive scan by schema, table and column |
| Masking.DottedNamesCollide | internal/masking/policy.go:168-170 | a rule for schema a, table b.c also unmasks schema a.b, table c |
| Masking.IndexAgreesExactlyWhenClosed | internal/masking/policy.go:128-170 | index and scan agree on every field if and only if each grant holds for every way of cutting its key at a dot |
| Masking.SameKeyIff | internal/masking/policy.go:168-170 | two dot-free schemas give the same key exactly when schema and table agree up to case |
| Masking.VerdictIgnoresRuleOrder | internal/masking/policy.go:74-100 | configurations with the same rules in another order allow the same fields |
| Masking.AddingRulesKeepsAllowed | internal/masking/policy.go:74-147 | adding rules never turns an allowed field into a masked one |
| Masking.MaskHidesValue | internal/masking/policy.go:104-126 | a mask keeps NULLs, and of a field that is not allowed shows nothing else of the value |
| Masking.MasksFitTheirFamily | internal/masking/policy.go:112-125 | each mask is a value of its family: the digit 0, a date of zeroes, a time of zeroes, the two with a space between them, or nothing; the mask of text is none of these |
| Resultset.ReleasedCell | internal/mysqlproxy/forwarding_handler.go:324-373 | every cell of a released result is NULL where the upstream's is, the upstream's own value where a rule allows the column or its expression may be shown, and the mask of its type everywhere else |
| Resultset.ExpressionCell | internal/mysqlproxy/forwarding_handler.go:357-373 | of a column without origin, a safe builtin, a COUNT(*) and a literal of an operational read reach the client as they are, and of anything else, a literal of another read included, only whether it is NULL |
| Resultset.ConfinedByRules | internal/mysqlproxy/forwarding_handler.go:282-373 | when no context is a safe builtin, a COUNT(*) or a literal of an operational read, or their number is not that of the columns, two results that agree in NULLs and in the columns a rule allows are released as the same bytes and values |
| Resultset.FamilyIff | internal/mysqlproxy/forwarding_handler.go:521-557 | which MySQL types each type family holds, with the binary flag telling strings apart |
| Resultset.AdmittedIff | internal/mysqlproxy/forwarding_handler.go:130-176 | a result with columns passes the checks before masking exactly when it is the only one, not of a set-up statement, not streaming under a limit, encodable, and has no more rows and bytes than the limits |
| Resultset.ReleasedIff | internal/mysqlproxy/forwarding_handler.go:177-188 | an admitted result is released exactly when it is not streaming, every row can be read, masked, written and read again, and the masked rows have no more bytes than the limit |
| Resultset.MaskedRowDecodes | internal/mysqlproxy/forwarding_handler.go:324-355 | a masked row's bytes decode to exactly the masked cells, its values are the parse of its bytes, and its count is the number of changed cells |
| Resultset.ReleasedKeepsShape | internal/mysqlproxy/forwarding_handler.go:112-188 | a released result keeps row count, columns and NULLs of the upstream's, is within both limits after masking, is not a set-up result, has no more-results flag, and its values parse its rows |
| Resultset.MaskedCountIsDifferingCells | internal/mysqlproxy/forwarding_handler.go:324-355 | the masked-field count is the number of positions in which released and upstream cells differ |
| Resultset.OneCellMasked | internal/mysqlproxy/forwarding_handler.go:339-345 | a one-cell result for which one masked cell is logged |
| Resultset.MaskingConfines | internal/mysqlproxy/forwarding_handler.go:282-373 | two upstream results with columns that agree in NULLs and in every visible column are released as the same bytes and values |
| Resultset.ConfinedIffColumns | internal/mysqlproxy/forwarding_handler.go:282-373 | for every library, policy and decision, all look-alike results with given columns are released as the same rows if and only if there is a column |
| Resultset.NoColumnsMeansNoMasking | internal/mysqlproxy/forwarding_handler.go:289-291 | without columns, under any policy, limits and decision, a result is released as it was admitted with no masked cell counted, and refused after that only while it is streaming under a policy |
| Forwarding.RowDataFromValues | internal/mysqlproxy/forwarding_handler.go:482-493 | the loop builds the encoding of the row's formatted cells, or fails when a cell cannot be formatted |
| Forwarding.RowDatasFromValues | internal/mysqlproxy/forwarding_handler.go:469-480 | all rows are encoded, or none when one cannot be |
| Forwarding.Result.Normalize | internal/mysqlproxy/forwarding_handler.go:389-399 | a result set with any content loses its streaming marks; every other field stays |
| Forwarding.Result.EnsureBuffered | internal/mysqlproxy/forwarding_handler.go:425-437 | raw rows are made from values only when there are none, and it fails exactly when a value cannot be formatted |
| Forwarding.AcceptRow | internal/mysqlproxy/forwarding_handler.go:211-229 | a row is refused for the row limit, its format or the byte limit, in that order, or accepted with its encoding |
| Forwarding.ReadRows | internal/mysqlproxy/forwarding_handler.go:208-231 | reading ends with all rows, or at the first one that is over a limit or cannot be formatted, and takes at most one row over the row limit |
| Forwarding.ExecuteBoundedSelect | internal/mysqlproxy/forwarding_handler.go:200-243 | the error is that of the first refused row or else the upstream's, it succeeds exactly when reading everything and then checking would, with the same rows, and takes at most one row over the row limit |
| Forwarding.StoppedRowsAreRefused | internal/mysqlproxy/forwarding_handler.go:212-223 | a stream that was stopped would have been refused after reading all of it |
| Forwarding.RefusedIffUnfit | internal/mysqlproxy/forwarding_handler.go:208-231 | some row is refused while reading exactly when the whole result cannot be formatted or is over a limit |
| Forwarding.NothingAfterFailure | internal/mysqlproxy/forwarding_handler.go:200-243 | a streamed query fails exactly when reading first and checking then gives nothing, and nothing is delivered of a query that fails |
| Forwarding.EndingIff | internal/mysqlproxy/forwarding_handler.go:112-188 | for every answer of the upstream, the session goes on exactly when the client got no error or the upstream's own MySQL error; with an error it gets no result and no cell is counted, and without one exactly what may be released of what was delivered |
| Forwarding.ForwardingHandler.UseDB | internal/mysqlproxy/forwarding_handler.go:99-110 | the upstream's answer is the caller's; a MySQL error leaves the upstream open, any other error closes it and becomes terminal, and a closed handler sends nothing |
| Forwarding.ForwardingHandler.Execute | internal/mysqlproxy/forwarding_handler.go:190-198 | exactly one execution reaches the upstream, under the decision in force, row by row if and only if a limit is set and the upstream streams; error and result are those of its recorded answer |
| Forwarding.ForwardingHandler.HandleQuery | internal/mysqlproxy/forwarding_handler.go:112-188 | from the recorded answer of the one execution follow the client's error and result, whether the upstream is closed and with which terminal error, and the masked count |
| Forwarding.ForwardingHandler.MaskResult | internal/mysqlproxy/forwarding_handler.go:282-322 | masking succeeds exactly when every row parses and formats, and replaces rows and values by the masked ones |
| Forwarding.ForwardingHandler.MaskAllRows | internal/mysqlproxy/forwarding_handler.go:302-316 | the row loop yields the masked form of every row and adds up the changed cells |
| Forwarding.ForwardingHandler.MaskOneRow | internal/mysqlproxy/forwarding_handler.go:324-355 | a row is formatted, masked cell by cell, encoded and parsed again, and the changed cells are counted |
| Forwarding.ForwardingHandler.Close | internal/mysqlproxy/forwarding_handler.go:253-260 | the upstream is closed by the first call only |
| Forwarding.ForwardingHandler.CloseTerminal | internal/mysqlproxy/forwarding_handler.go:270-276 | the first terminal error is kept |
| Deferred.DeferredForwardingHandler.Activate | internal/mysqlproxy/deferred_session_handler.go:109-128 | the kept database, if any, is selected before the upstream becomes active, and nothing but an error of that or a closed session makes it fail; every failure closes the new upstream and leaves the session as it was |
| Deferred.SelectOrClose | internal/mysqlproxy/deferred_session_handler.go:117-123 | a database is selected on a fresh upstream, which is closed exactly when that fails |
| Deferred.DeferredForwardingHandler.UseDB | internal/mysqlproxy/deferred_session_handler.go:152-168 | before activation the name is kept, afterwards it is sent and its answer returned; exactly an error that is not a MySQL error ends the session |
| Deferred.DeferredForwardingHandler.HandleQuery | internal/mysqlproxy/deferred_session_handler.go:170-182 | the query runs once, on the active upstream, and the client gets what its answer allows; whatever closes the upstream ends the session with that error |
| Deferred.DeferredForwardingHandler.Close | internal/mysqlproxy/deferred_session_handler.go:130-138 | closes the active upstream; before activation it leaves the handler open |
| Deferred.DeferredForwardingHandler.CloseTerminal | internal/mysqlproxy/deferred_session_handler.go:140-150 | the session is closed for good whether or not it was active, and keeps its first error |
| Deferred.DeferredForwardingHandler.Deactivate | internal/mysqlproxy/deferred_session_handler.go:203-209 | drops the upstream and records an error unless there was one |
| Trace.NothingAfterClose | internal/mysqlproxy/forwarding_handler.go:99-115 | in every run, nothing is done to an upstream after its close, so it is closed at most once |
| Trace.FirstTerminalIsLast | internal/mysqlproxy/client_connection.go:100-118 | in every run, no command is handled and no other terminal error recorded after the first |
| Trace.NoCommandAfterLoss | internal/mysqlproxy/client_connection.go:100-106 | in every run, no command is handled once the client could not be reached |
| Trace.NoWorkAfterLogLoss | internal/mysqlproxy/policy_handler.go:195-204 | in every run, after a query record was lost no upstream is activated, used or queried |
| Trace.ExecutedQueriesAreSendable | internal/mysqlproxy/policy_handler.go:91-133 | in every run, an executed query is within the size limit and runs under its own allowed classification |
| Trace.SelectedNameIff | internal/mysqlproxy/deferred_session_handler.go:109-168 | in every run, a database sent upstream is on the allow list, and is the last accepted name if and only if it goes to the active upstream or no name was accepted since the one kept for replay |
| Trace.SelectedNameIsLastAccepted | internal/mysqlproxy/deferred_session_handler.go:109-168 | in every run that opens one upstream, a database sent to it, replay included, is the last accepted name |
| Trace.AllSelectionsAreLast | internal/mysqlproxy/deferred_session_handler.go:109-168 | the same of all selections of a run, from the set of upstreams known at its end |
| Trace.ActivatedOnItsDatabase | internal/mysqlproxy/deferred_session_handler.go:109-128 | in every run, the first upstream becomes active only after the last accepted name was selected on it without an error |
| Trace.StaleReplay | internal/mysqlproxy/deferred_session_handler.go:116-125 | with a second activation a run can send the name kept before the first one after another was accepted |
| Trace.EveryUpstreamClosedOnce | internal/mysqlproxy/client_connection.go:92-118 | at the end of a run an upstream was closed exactly once if and only if no second activation replaced it, and always when there is at most one activation |
| Trace.AllClosedOnce | internal/mysqlproxy/client_connection.go:92-118 | with nothing replaced, every opened upstream was closed exactly once |
| Trace.SecondActivationLeaks | internal/mysqlproxy/deferred_session_handler.go:116-125 | two activations leave the first upstream open at the end |
| Policy.DecimalRoundTrip | internal/mysqlproxy/policy_handler.go:232 | decimal digits, without a zero in front, write the number they were made from |
| Policy.SynthesizedCell | internal/mysqlproxy/policy_handler.go:225-240 | the synthesised answer is one row of one cell, which reads as the configured limit |
| Policy.ReplyClass | internal/mysqlproxy/policy_handler.go:206-216 | a query is logged as the proxy's error exactly when the upstream fell silent or sent an unwritable row, and as a MySQL error for the upstream's own errors and every refusal |
| Policy.PolicyHandler.UseDB | internal/mysqlproxy/policy_handler.go:79-85 | only a name on the allow list goes any further; then it is sent to the active upstream, whose answer is returned, or kept for replay |
| Policy.PolicyHandler.AuditQuery | internal/mysqlproxy/policy_handler.go:169-193 | one record with the normalised statement, the session's identity and the current masked count |
| Policy.PolicyHandler.AuditOrClose | internal/mysqlproxy/policy_handler.go:195-204 | a record that cannot be written ends the session for good |
| Policy.PolicyHandler.AnswerLocally | internal/mysqlproxy/policy_handler.go:91-118 | oversized, rejected and synthesised queries reach no upstream, get their own error or the limit, are logged with the masked count the handler already held, and keep it |
| Policy.PolicyHandler.Forward | internal/mysqlproxy/policy_handler.go:119-133 | a forwarded query is logged with the masked count and error class of its own answer before that is returned, and its result is returned whenever it may be released and the record is written |
| Policy.PolicyHandler.HandleQuery | internal/mysqlproxy/policy_handler.go:91-133 | each query makes exactly one log attempt, runs once on the active upstream if and only if it is not answered here, and the client gets exactly its reply when the record is written and a refusal otherwise |
| Policy.PolicyHandler.LocalIff | internal/mysqlproxy/policy_handler.go:91-118 | a query is answered here exactly when it may not go upstream or asks for the packet limit of a proxy that has one |
| Policy.PolicyHandler.RecordTells | internal/mysqlproxy/policy_handler.go:169-216 | a record names the session's user, the query's normal form and classification, and the class of exactly the error the client was told |
| Policy.PolicyHandler.HandledMarks | internal/mysqlproxy/policy_handler.go:91-133 | handling a query adds one logged statement, its own normal form, when queries are logged, and nothing else the client asked for |
| Policy.ForwardThenLocal | internal/mysqlproxy/policy_handler.go:91-133 | a query answered locally after a forwarded one is logged with the number of cells masked in the other's result |
| Connection.SessionAuthenticationHandler.OnAuthSuccess | internal/mysqlproxy/session_authentication_handler.go:123-129 | when TLS is required and missing nothing is opened, consumed or logged; otherwise as RecordAuthSuccess |
| Connection.SessionAuthenticationHandler.RecordAuthSuccess | internal/mysqlproxy/session_authentication_handler.go:136-159 | an attempt connects, replays, consumes and logs, in that order, and fails exactly at the first of these that fails, closing what it opened; a successful one leaves exactly one new upstream active, for the user whose credential this attempt consumed |
| Connection.SessionAuthenticationHandler.ConsumeAuthSuccess | internal/mysqlproxy/authentication_handler.go:81-98 | the name given, or the one looked up last when it is empty, is consumed while an upstream is active, and then forgotten by the login cache |
| Connection.SessionAuthenticationHandler.AuditAuth | internal/mysqlproxy/session_authentication_handler.go:161-174 | an authentication is logged when there is a log, and an allowed one, once written, is what later query records are attributed to |
| Connection.SessionAuthenticationHandler.OnAuthFailure | internal/mysqlproxy/session_authentication_handler.go:131-134 | a failed authentication is counted against the name given, or looked up last, and then logged as refused |
| Connection.Answer | internal/mysqlproxy/session_authentication_handler.go:117-159 | what each handshake callback does to the outside, and with which error it ends: a name is accepted exactly when allowed, a lookup never fails, an authentication is one whole attempt or counts as a failure |
| Connection.NewConn | internal/mysqlproxy/client_connection.go:92-98 | whatever order the handshake callbacks come in, they are answered one by one up to the first that fails, which a lookup never does and an allowed name only after an authentication; at most one authentication success leaves no upstream behind |
| Connection.HandleCommand | internal/mysqlproxy/client_connection.go:100-107 | a command starts, then a query is handled as PolicyHandler.HandleQuery does, a name accepted exactly when it is allowed, and nothing else done; the answer is then sent or the client lost |
| Connection.CommandLoop | internal/mysqlproxy/client_connection.go:100-118 | the commands are handled in order, each leaving its own marks, until the client is lost or quits, the session has ended or no command is left; every exit closes the session |
| Connection.ServeConn | internal/mysqlproxy/client_connection.go:76-119 | every run is safe and leaves only replaced upstreams open; its commands, accepted names and logged statements are, in order, exactly those of the callbacks answered and the commands handled, which stop only for cause; with at most one authentication success each opened upstream is closed exactly once, and every database selected upstream is the last accepted name |
| Connection.NewClientSession | internal/mysqlproxy/session_authentication_handler.go:45-74 | the session starts consistent and inactive, with every handler holding the configured rules, limits, masking policy, audit log and TLS requirement |
| Otp.SinceSince | internal/otp/store.go:260-307 | compacting a window twice is compacting it once with the later start |
| Otp.AppendedAfterPruned | internal/otp/store.go:167-168 | looking at a window before adding to it changes nothing |
| OtpLaws.NoBucketIsEmpty | internal/otp/store.go:269-272 | after any calls no stored bucket is empty |
| OtpLaws.BucketsAnswerAsHistory | internal/otp/store.go:260-307 | a bucket compacted any number of times answers every later question as the complete history would |
| OtpLaws.WindowLimit | internal/otp/store.go:278-285 | times admitted one by one under a limit never exceed it in any closed interval of window length |
| OtpLaws.IssuanceLimitHolds | internal/otp/store.go:142-171 | for every sequence of calls and every user or session, no interval of window length holds more issues than the limit |
| OtpLaws.IssueIff | internal/otp/store.go:142-171 | after every sequence of calls, a credential is issued exactly when user and browser session each have fewer than their limit of issues in the window and both tokens were drawn; it is then the tokens drawn, until now plus the lifetime |
| OtpLaws.ConsumeIff | internal/otp/store.go:213-234 | Consume succeeds exactly when the latest issue of the name is unconsumed, unexpired and has fewer failures than the limit, and returns the issued user; it reports a lock exactly when only the failures are in the way |
| OtpLaws.LookupIff | internal/otp/store.go:175-210 | material is handed out exactly when the credential could be consumed and the source has fewer recent failures than its limit; it is the password drawn for the issue, with its user and expiry |
| OtpLaws.OneUsePerIssue | internal/otp/store.go:230-233 | between two uses of a name it was issued anew |
| OtpStore.Compact | internal/otp/store.go:263-268 | in-place filtering leaves exactly the times of the window, in order, at the front |
| OtpStore.Append | internal/otp/store.go:167-168 | appending keeps the times and adds one, in place or in a larger copy |
| OtpStore.TimeBuckets.KeepRecent | internal/otp/store.go:287-307 | one bucket is compacted or dropped, all others stay, and the count is the window's |
| OtpStore.TimeBuckets.KeepRecentAndAppend | internal/otp/store.go:243 | one bucket becomes its window with the new time, all others stay |
| OtpStore.WithDefaults | internal/otp/store.go:95-139 | every positive setting stays and every other one becomes its default: ten minutes, or 5, 20, 10 and 5 |
| OtpStore.ClearBytes | internal/otp/store.go:318-322 | every byte becomes zero |
| OtpStore.CredentialTable.Put | internal/otp/store.go:162-166 | one entry is set, with a password array of its own |
| OtpStore.CredentialTable.Drop | internal/otp/store.go:230-231 | one entry is cleared and removed, all others stay |
| OtpStore.CredentialTable.CountFailure | internal/otp/store.go:245-251 | one entry's failures grow and it locks at the limit, all others stay |
| OtpStore.Store.constructor | internal/otp/store.go:130-138 | a new store is empty |
| OtpStore.Store.Issue | internal/otp/store.go:142-171 | contents and answer are those of the specification step |
| OtpStore.Store.IssuanceLimited | internal/otp/store.go:147-150 | the session's window is looked at only when the user is under the limit |
| OtpStore.Store.PendingCredential | internal/otp/store.go:175-210 | contents and answer are those of the specification step, and the material is a fresh copy outside the store |
| OtpStore.Store.Consume | internal/otp/store.go:213-234 | contents and answer are those of the specification step |
| OtpStore.Store.RecordFailure | internal/otp/store.go:238-254 | contents and answer are those of the specification step |
| OtpStore.GetCredential | internal/mysqlproxy/authentication_handler.go:44-65 | the client is checked against the issued password, and clearing the material leaves the store as the lookup left it |
| Race.InvAlways | internal/mysqlproxy/session_authentication_handler.go:136-159 | in every interleaving claims are grounded in the connection's own Consume and differ, and upstreams are open only while needed |
| Race.WinnerIsIssuedUser | internal/mysqlproxy/session_authentication_handler.go:144-156 | a connection that used a credential up is backed by an Issue to the user it is known as |
| Race.OneSessionPerIssue | internal/otp/store.go:213-234 | no two connections are backed by the same Issue |
| Race.LosersAreClosed | internal/mysqlproxy/session_authentication_handler.go:145-155 | in every interleaving a connection holds an open upstream exactly from linking until it is refused or has ended |
| Race.UseDecides | internal/mysqlproxy/session_authentication_handler.go:144-149 | with its upstream open, a connection either takes over the usable credential or ends refused with the upstream closed |
| Race.FirstUseWins | internal/mysqlproxy/session_authentication_handler.go:144-149 | of two connections that use one live name up, the first is known as its user and the upstream of the second is closed |
| Race.PromptUseSucceeds | internal/mysqlproxy/session_authentication_handler.go:136-159 | whoever is issued a credential and uses it at once is authenticated |
| Race.AlwaysAStep | internal/mysqlproxy/session_authentication_handler.go:136-159 | a connection that is not refused or over can always go on |
| Race.FailuresAreCounted | internal/mysqlproxy/authentication_handler.go:100-106 | the failures held against a live credential are exactly the failed authentications of its name since it was issued |
| Race.FailedNameIsNotClaimed | internal/otp/store.go:238-254 | a name that has failed as often as the limit since its issue is claimed by no connection, whose upstream is closed |
| Race.StepDecides | internal/mysqlproxy/session_authentication_handler.go:131-159 | where every other step leads, and that an upstream is open after it exactly when the connection goes on; a failed authentication is counted against the name given or looked up last |
| Server.InvAlways | internal/mysqlproxy/server.go:139-207 | tokens, wait group, active map, mutex, loop and sweep fit together in every interleaving |
| Server.SlotsAreHolders | internal/mysqlproxy/server.go:177-188 | tokens equal holders, never exceed the maximum, and receiving one never blocks |
| Server.ArrivalIff | internal/mysqlproxy/server.go:177-183 | in every reachable state, an accepted connection is closed at once if and only if as many slots as the maximum are held, and gets a slot otherwise |
| Server.GivenUpOnlyWhenCancelled | internal/mysqlproxy/server.go:185-192 | a connection that got a slot is turned away only after a cancellation |
| Server.GoneBecause | internal/mysqlproxy/server.go:167-207 | until a cancellation, every connection that is gone was served or arrived while all slots were held |
| Server.ServesUpToMax | internal/mysqlproxy/server.go:167-207 | as many connections as there are slots can be in service at once |
| Server.MutualExclusion | internal/mysqlproxy/server.go:150-155 | at most one goroutine is under the mutex |
| Server.SweepIsFinal | internal/mysqlproxy/server.go:147-158 | after the sweep every active connection is closed and none is ever added |
| Server.NothingLeftOnReturn | internal/mysqlproxy/server.go:145-146 | on return no handler runs, no slot is held, nothing is active, and every accepted connection is closed |
| Server.ForcedStepsEnd | internal/mysqlproxy/server.go:167-206 | every step that does not wait for the outside world brings shutdown nearer |
| Server.NeverStuck | internal/mysqlproxy/server.go:139-207 | after a cancellation some such step is possible until everything has ended |
| Server.ShutdownCompletes | internal/mysqlproxy/server.go:139-207 | however those steps are scheduled after a cancellation, they end, and end with ServeContext returned |
| Normalize.NormalizeStatement | internal/audit/logger.go:209-280 | the scanning loop returns the UTF-8 bytes of the token-level normal form |
| Normalize.ScanToken | internal/audit/logger.go:216-277 | one round reads one token and appends the bytes that writing it gives |
| Normalize.WriteToken | internal/audit/logger.go:282-294 | a placeholder is written once for adjacent literals, with at most one space before it |
| Normalize.TrimSpaceOfUtf8 | internal/audit/logger.go:279 | trimming blanks off the bytes is trimming them off the code points |
| NormalizeLaws.OutputForm | internal/audit/logger.go:209-294 | every output is free of digits, quotes and #, has only single interior spaces, and is not changed by the final trim |
| NormalizeLaws.OutputIsCode | internal/audit/logger.go:216-277 | but for spaces and question marks, the output is the code of the statement, every character of it and nothing else, in order |
| NormalizeLaws.DoubledPlaceholderIff | internal/audit/logger.go:282-294 | the output has ?? exactly when a bare question mark directly follows a literal or another one, so never without a question mark in the input |
| NormalizeLaws.SkeletonDecides | internal/audit/logger.go:216-277 | token streams that differ only in literal bodies and closed comments normalise alike |
| NormalizeLaws.ReplaceToken | internal/audit/logger.go:216-277 | replacing a literal or comment by another of its kind, anywhere a token starts, does not change the output |
| NormalizeLaws.LiteralBodyIsHidden | internal/audit/logger.go:235-250 | what a closed quoted literal holds never reaches the log |
| NormalizeLaws.NumberIsHidden | internal/audit/logger.go:251-256 | which number is written never reaches the log |
| TokenEnds.TokensCover | internal/audit/logger.go:216-277 | the tokens of a statement, put together, are the statement |
| TokenEnds.OpensCommentIff | internal/audit/logger.go:216-234 | a comment begins exactly with #, /* or two dashes and one of five blanks |
| TokenEnds.SpaceIff | internal/audit/logger.go:262-268 | the blanks are eight characters of Latin-1 |
| TokenEnds.NumericByteIff | internal/audit/logger.go:296-302 | a number goes on with digits, letters, points and underscores |
| TokenEnds.LineRestIff | internal/audit/logger.go:216-223 | a line comment ends before the next line feed, or with the text |
| TokenEnds.BlockRestIff | internal/audit/logger.go:224-231 | a block comment ends after the first closing marker, and without one before the last character |
| TokenEnds.QuoteRestIff | internal/audit/logger.go:239-250 | a literal ends after the first quote with an even number of backslashes before it, and without one at the end |
| NormalizeTwice.FixedPointIff | internal/audit/logger.go:209-280 | before encoding, a statement's code points are left alone exactly when it is plain, well spaced and opens no comment |
| NormalizeTwice.OutputOpensIff | internal/audit/logger.go:216-294 | the output opens a comment exactly when two dashes among the statement's tokens are followed by a comment or blank and later by a token that is written |
| NormalizeTwice.IdempotentIff | internal/audit/logger.go:209-280 | before encoding, a second pass over the code points changes them if and only if two dashes of code are followed by a comment or blank and later by another token |
| NormalizeBytes.LoggedTwiceIff | internal/audit/logger.go:209-280 | for every byte string, normalising the returned bytes again leaves them alone if and only if no code token is a byte from 0x80 up and no two dashes of code are followed by a comment or blank and later by another token |
| NormalizeBytes.LoggedAsIsIff | internal/audit/logger.go:209-280 | a byte string is returned as it is exactly when it is ASCII, plain, well spaced and opens no comment |
| NormalizeBytes.LoggedAlikeIff | internal/audit/logger.go:274 | the encoding tells different outputs apart, so two byte strings are logged alike exactly when they normalise alike |
| NormalizeBytes.EncodedIsNotFixed | internal/audit/logger.go:274 | no output beyond ASCII comes back from a second pass over its encoding |
| NormalizeBytes.AccentIsEncoded | internal/audit/logger.go:274 | the byte E9 is logged as C3 A9 |
| NormalizeBytes.AccentGrows | internal/audit/logger.go:274 | and C3 A9 as C3 83 C2 A9 |
| NormalizeTwice.NotIdempotent | internal/audit/logger.go:216-234 | --/**/x, and -- before a vertical tab and x, give -- x, which gives the empty text |
| Lexer.ScanSQL | internal/sqlpolicy/classifier.go:514-573 | the loop writes the output of every piece |
| Lexer.ScanPiece | internal/sqlpolicy/classifier.go:518-569 | one round reads one piece and writes its output |
| Lexer.HasTrailingStatementTerminator | internal/sqlpolicy/classifier.go:455-512 | the answer is whether the last solid piece is a semicolon of code |
| Lexer.SkipQuotedString | internal/sqlpolicy/classifier.go:376-397 | stops after the closing quote, taking doubled quotes and escapes as part of the literal |
| Lexer.SkipQuotedIdentifier | internal/sqlpolicy/classifier.go:399-415 | stops after the closing backquote, taking doubled ones as part of the name |
| TokenEnds.DoubledQuoteRestIff | internal/sqlpolicy/classifier.go:376-397 | a literal with doubled quotes ends after the first odd run of quotes that no backslash hides |
| TokenEnds.DoubledIdentRestIff | internal/sqlpolicy/classifier.go:399-415 | a quoted name with doubled backquotes ends after the first odd run of them |
| TokenEnds.IdentRestIff | internal/sqlpolicy/classifier.go:534-543 | a quoted name ends after the next backquote |
| Lexer.SkipBlockComment | internal/sqlpolicy/classifier.go:425-434 | stops after the closing marker, or at the end when there is none |
| Lexer.CallEndAt | internal/sqlpolicy/classifier.go:319-352 | the loop returns the position the recursive search over pieces gives |
| Lexer.Classify | internal/sqlpolicy/classifier.go:92-124 | empty and executable-comment statements are rejected before the parser has a say |
| LexerLaws.SameCodeIff | internal/sqlpolicy/classifier.go:319-573 | inline loops and helpers see the same code exactly when no unterminated comment leaks its last character |
| LexerLaws.LeakedCharacter | internal/sqlpolicy/classifier.go:425-434 | in /*x they do not |
| LexerLaws.ResumesAtCode | internal/sqlpolicy/classifier.go:319-352 | lexing may start over at any code position |
| LexerLaws.CallEndFindsGroup | internal/sqlpolicy/classifier.go:319-352 | the result is the end of the first balanced group of code parentheses, and -1 exactly when there is none |
| LexerLaws.CallEndSeesScannedCode | internal/sqlpolicy/classifier.go:307-352 | at a code position of a statement that leaks nothing, that group is the one scanSQL's own view of code gives |
| ScanLaws.TerminatorEndsNormalizedIff | internal/sqlpolicy/classifier.go:444-512 | a trailing terminator is the last character of the normalised statement, and the two tests agree if and only if the last semicolon written before silent pieces is code and no name or odd blank follows it |
| ScanLaws.TerminatorEndsNormalized | internal/sqlpolicy/classifier.go:444-512 | so they agree on every statement without backquotes and odd blanks |
| ScanLaws.TerminatorBeforeOddBlank | internal/sqlpolicy/classifier.go:444-512 | before any blank that only strings.Fields knows, a final semicolon is missed |
| ScanLaws.TerminatorCanBeMissed | internal/sqlpolicy/classifier.go:455-512 | a quoted name, a vertical tab and an ideographic space on which the tests differ |
| ScanLaws.VersionedSurvives | internal/sqlpolicy/classifier.go:92-99 | a versioned comment that starts at a code position is still there after normalisation |
| ScanLaws.ExecutableIff | internal/sqlpolicy/classifier.go:92-99 | for every statement, the test fires if and only if code and quoted names write the three opening characters one after the other |
| ScanLaws.ExecutableCommentIff | internal/sqlpolicy/classifier.go:92-99 | without backquotes that is a versioned comment at a code position |
| ScanLaws.NameLooksExecutable | internal/sqlpolicy/classifier.go:534-543 | a backquoted name can be taken for an executable comment |
| AuditLog.ChainOfMove | internal/audit/logger.go:180-186 | moving a file up into a vacant place keeps what the files read from the oldest down say |
| AuditLog.ChainOfAppend | internal/audit/logger.go:97 | a write adds to the end of that reading |
| AuditLog.ChainOfRemove | internal/audit/logger.go:176-179 | removing the oldest file drops a prefix of that reading |
| AuditLog.Directory.Rename | internal/audit/logger.go:199-205 | a rename has a vacant target and keeps the reading, whether or not it happens |
| AuditLog.Directory.Write | internal/audit/logger.go:97-99 | a write adds the record, or at most a part of it when it fails |
| AuditLog.FileLogger.RotateBackups | internal/audit/logger.go:171-189 | completed, every file has moved up by one; interrupted anywhere, nothing but the oldest file is missing; it completes exactly when no operation fails |
| AuditLog.FileLogger.ShiftBackups | internal/audit/logger.go:180-188 | the renames lose nothing, at whichever one they stop |
| AuditLog.FileLogger.RotateIfNeeded | internal/audit/logger.go:123-152 | rotates only when the record does not fit, and leaves room for it or an empty file; with the file open it fails only when an operation on the disk does |
| AuditLog.FileLogger.Log | internal/audit/logger.go:85-100 | it succeeds exactly when the event is encoded, the file open and no operation fails, and then the record ends the log; at every point the files are a contiguous suffix of everything written, each within the limit or holding one write; a logger stopped in mid-rotation refuses everything |
| AuditLog.RotationKeepsBound | internal/audit/logger.go:171-189 | rotation, complete or not, keeps each file within the limit or with one write |
| AuditLog.WriteKeepsBound | internal/audit/logger.go:132-134 | so does a write after the size check |

## Left out

- HTTP routes, templates, cookies, browser sessions and the administration of users: they issue credentials, which here is the call `Issue`.
- Configuration loading, TLS, keys, command line and signals: their outcomes are parameters.
- The MySQL wire library: handshake callbacks come in any order, commands are a sequence, and value parsing and formatting are the parameter `Library`.
- The SQL parser and its syntax-tree visitors, with the column and expression contexts they produce: a statement's decision is an oracle function; only the lexical checks around it are modelled.
- Lower-casing of the normalised statement and the fixed lists of operational reads and set-up statements: they would add easy members.
- Errors of closing a connection or a file are discarded by the program and by the model.
- Integer widths: byte counts are 64-bit in the program and are not bounded here; reaching the bound takes results no machine can hold.
- Encodings: the audit log's normaliser is modelled on bytes, with the UTF-8 it writes; the classifier's lexers on code points, so statements that are not valid UTF-8 are left out there; letter case of names is folded for ASCII letters only.
- Real time: clocks are integers that the caller supplies; the limits on issuing need one that does not go back.
- Aliasing of the masking policy: handlers hold its contents as a value, which never changes after it is built.
- Prepared statements, field lists and other commands: the policy handler refuses them without touching its state.
- Connection.ServeConn: assumes at most one authentication success where it says that nothing is left open and that selected names are the last accepted; the protocol library asks for one, and `Trace.SecondActivationLeaks` and `Trace.StaleReplay` show what a second would do.
- Connection.HandleCommand: writing the answer to the client is the wire library's; what is modelled is the answer, and that writing it may fail.
- Connection.SessionAuthenticationHandler.GetCredential: the store's answer is left to `OtpStore.GetCredential`; here only the name is kept.
- Race.InvAlways: a connection may present any name without having looked it up, which allows more runs than the program has.
- Race.LosersAreClosed: the network failure of a connection in mid-authentication shows up as one of the failing steps, not as a step of its own.
- Server.NothingLeftOnReturn: a handler's connection counts as closed when ServeConn returns; after a client's quit it is the wire library that has closed it, not ServeConn.
- Server.ShutdownCompletes: assumes that ServeConn returns once its connection is closed and that Accept fails once the listener is closed.
- OtpStore.Append: the growth of a slice doubles its capacity, which the program leaves to the runtime.
- OtpStore.CredentialTable.Put: the credentials map is an object of its own beside the three bucket maps, where the program has four maps in one object.
- AuditLog.Directory.Rename: a failed rename or removal changes nothing on the disk; other programs do not touch the files.
- AuditLog.FileLogger.Close: flushing to stable storage has no effect in the model.
- Lexer.Classify: the verdict of the parser is an argument, so what is proved is which statements never get that far.
