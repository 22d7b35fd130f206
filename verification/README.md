# Verified model of sqlite-server

sqlite-server exposes SQLite databases over TCP: a client sends length-prefixed JSON requests
(`QUERY`, `LIST`, `DELETE_DB`, an optional `auth` message) and gets length-prefixed JSON responses.
This project models the logic the server and its Python client own, and proves what it promises.
`dafny verify dfyconfig.toml` checks everything.

## The parts

| file | what it models |
|---|---|
| `Framing.dfy` | the 4-byte little-endian frames: `Response`, `_send_data`, `_recv_data`, `_read_n_bytes` |
| `Pipeline.dfy` | one connection: framed reads in arbitrary chunks, the size limit, the response queue, one write at a time |
| `Store.dfy`, `StoreProofs.dfy` | SQLite as the server uses it: a folder of files by generation, one write lock per file, transactions, committed histories |
| `Server.dfy`, `ServerProofs.dfy` | all connections as one state machine whose steps interleave freely, and its invariant |
| `ServerTheorems.dfy` | no lost writes, the owner of the write lock, rollback on disconnect |
| `Transactions.dfy` | what each statement of a transaction does, how a transaction ends, and which writes belong to it |
| `Commands.dfy` | the commands by their words: what each request is answered |
| `Caching.dfy` | which file generation a cached handle refers to |
| `Auth.dfy` | a server with a password simulates one without |
| `Handler.dfy` | `RequestHandler`, `SQLDatabase` and `SQLStatement` as classes whose every execution is a run of the machine |
| `Session.dfy` | a connection as a whole: the socket calls the request handler, and sends the answers the machine records |
| `Names.dfy` | `is_safe_database_name`, lexically and with symbolic links, and what SQLite and the file system make of an accepted path later |
| `Values.dfy` | SQLite values as JSON, blobs as hexadecimal literals, the client's view of rows |
| `KeyRepair.dfy` | the lenient repair of unquoted JSON keys |
| `SqlLexer.dfy`, `SqlLocality.dfy` | SQLite's tokenizer (`sqlite3GetToken`, `sqlite3/sqlite3.c:186182-186504`) and how far it looks |
| `Prepare.dfy`, `PreparedTokens.dfy` | client-side parameter substitution and what it does to the tokens of a query |
| `Cidr.dfy`, `WhitelistText.dfy`, `Config.dfy` | address blocks, the whitelist decision, reading and printing the whitelist |
| `Characters.dfy`, `Arithmetic.dfy`, `Wrappers.dfy` | character classes, C strings and decimal notation; division and bitwise and; `Option` and `Result` |

Where a class changes its fields step by step, it is a Dafny class or a method with loops, proved
against a function or a step of a machine; what the source promises is then proved of these.

## Assumptions

- A completion handler of a socket is one atomic step. The code uses no strand and `Network.h:36-39`
  runs several threads, so this is an assumption about the two operations (one read, one write) a
  socket has outstanding, not something the code enforces.
- The host is little-endian: `SQLiteSocket.cpp:32` reads the length in host order.
- SQLite grants the write lock of a file to one handle at a time, runs a statement atomically under
  it, and reports a row, DONE, BUSY or another error. BUSY may come at any time; nothing is claimed
  about the busy timeout.
- A write is an arbitrary function on the rows of its file, and a failing statement leaves no effect
  (SQLite's default ABORT conflict handling).
- The members `cmd`, `db` and `query` of a request, authenticated or not, are strings, and in the server's
  machine `db` holds no NUL (`Server.TextFields`); what a NUL does to an accepted name is proved in `Names`.
- A statement reads and writes the file its handle was opened on: there are no `ATTACH`ed databases, and no
  tables in the handle's own `temp` database.
- Addresses are compared by their bits; IPv6 scope identifiers are not part of an address.
- A request runs one statement, the first of its query text (`SQLStatement.h:16` passes no tail pointer);
  which statement that is, and its columns, come with the event that prepares it.
- The databases folder is given by its canonical path, and in the server's machine it holds no links.
  Directories are neither created nor removed (`Server.Config.directories`).

## Where code and documentation differ

The model follows the code.

- README.md says the `auth` message must be the first one. The code accepts it at any time, answers it
  alone even when the message also holds a command, and keeps the flag when a wrong password follows.
- The comment at `RequestHandler.cpp:25-30` calls the name check robust however a name is spelled. The
  name that is checked ends at its end, the path that is opened or removed at its first NUL
  (`SQLDatabase.h:17`): `Names.NulNameIsCut` gives the input and `Names.OpensTheCheckedChild` says when the
  file is the one that was checked.
- The same comment calls the check robust against links. It resolves only the leading components that
  exist, while SQLite expands links element by element and undoes `..` by name, without asking whether
  what it undoes exists (`sqlite3/sqlite3.c:47110-47215`). So a link to a missing file passes
  (`Names.DanglingLinkIsFollowed`), in the middle of a name too, and so does any link behind a component
  that does not exist (`Names.LinkBehindMissingIsFollowed`). `Names.OpenedPathIsDirectChild` is the exact
  condition.
- A DELETE_DB of an accepted name may remove something outside the folder as well: the check resolves the
  last component when it is a link, the removal does not. So the name `../o/l` of a link `l` in the folder `o`
  beside, which leads to a file of the databases folder, passes, and the link is removed
  (`Names.LinkElsewhereIsRemoved`). `Names.RemovedPathIsDirectChild` is the exact condition.
- CHANGELOG.md:16-17 promises that every runtime error is returned. A query text with several statements
  is answered for its first one; the others are not run, and nothing reports that.
- A DELETE_DB whose name leads through a missing directory is answered with an error although a QUERY of
  the same name works, since the file system does not resolve such a path and SQLite does.
- The docstring of `_client_side_prepare` promises safe injection. The regular expression also rewrites
  a `?` inside quotes and comments, and literals can fuse with what stands next to them; the exact
  delimiters are proved in `PreparedTokens`.
- `_recv_data` reports an empty payload as it reports a closed connection.
- `decode_blob_literal` accepts one final newline, since Python's `$` does.

## Model

| member | source | states |
|---|---|---|
| Framing.LittleEndianByte | Response.cpp:17-20 | byte i of the header is the length shifted by 8*i bits and masked |
| Framing.LittleEndianRoundTrip | Response.cpp:17-20 | reassembling the bytes is the identity on numbers that fit, for every width |
| Framing.FrameBytes | Response.cpp:12-22 | a frame is the four bytes of the length, the least significant first, and the body |
| Framing.HeaderRoundTrip | Response.cpp:12-20 | the header read back is the length modulo 2^32, which is what the cast keeps |
| Framing.Response.constructor | Response.cpp:7-23 | the buffer holds the header in little-endian order followed by the body |
| Framing.Response.DataRepr | Response.cpp:25-31 | the payload of a built response is its body, and a short buffer has none |
| Framing.Connection.ReadNBytes | examples/python/sqlite.py:410-423 | returns exactly the next n bytes however they are cut into chunks, or None when the peer closes first, and reads nothing further |
| Framing.Connection.RecvData | examples/python/sqlite.py:393-408 | reads one frame and not a byte behind it |
| Framing.Connection.SendData | examples/python/sqlite.py:382-391 | sends the frame of the data, or nothing when its length does not fit |
| Framing.FrameRoundTrip | examples/python/sqlite.py:393-408 | one frame is received intact, with everything behind it untouched, exactly when the payload is shorter than 2^32 bytes |
| Framing.FramesRoundTrip | Response.cpp:12-22 | a stream of frames is received as its payloads in order, and what follows the last frame is left |
| Framing.CutFrameIsNone | examples/python/sqlite.py:393-423 | a frame that ends early, anywhere in its header or body, is received as None |
| Framing.ReceiveAll | examples/python/sqlite.py:399-423 | the receiver loop terminates and does so on a real connection for every cutting into non-empty chunks |
| Pipeline.SQLiteSocket.HeaderCompleted | SQLiteSocket.cpp:33-53 | a header over the limit closes the socket and stops reading, and nothing else does; otherwise the body is read next; it is a step of the machine |
| Pipeline.SQLiteSocket.BodyCompleted | SQLiteSocket.cpp:45-51 | the request is handled, its response queued and the next read started, with a request of exactly the announced size |
| Pipeline.SQLiteSocket.SendResponse | SQLiteSocket.cpp:58-65 | the response joins the queue, and a write starts only when the queue was empty |
| Pipeline.SQLiteSocket.WriteCompleted | SQLiteSocket.cpp:72-79 | a finished write pops the head and starts the next; a failed one leaves the queue and starts nothing |
| Pipeline.SQLiteSocket.DoWrite | SQLiteSocket.cpp:67-81 | a write starts only when none is outstanding, and with the buffer of the queue's head |
| Pipeline.SQLiteSocket.DoRead | SQLiteSocket.cpp:23-32 | a read of the next header starts only when none is outstanding |
| Pipeline.RunKeepsInv | SQLiteSocket.cpp:23-81 | every run keeps: unread bytes and calls account for the input, the wire holds the completed responses and the sent part of the head, and one write is outstanding exactly while the queue is non-empty, until a failure |
| Pipeline.SentBytesArePrefixOfAnswers | SQLiteSocket.cpp:23-81 | for every chunking and every order of completions the bytes sent are a prefix of the frames a sequential server would send, in request order, and all of them exactly when the queue has drained or only its last completion is missing |
| Pipeline.RestMeansAllAnswered | SQLiteSocket.cpp:23-81 | a socket rests without a failure only when every request of the input was handled and, while it is open, every answer was sent |
| Pipeline.ClosedOnlyByHeader | SQLiteSocket.cpp:33-41 | in every run the socket stops reading without a failure only by closing, and is closed only when the bytes behind the frames of the handled requests begin with a header over the limit |
| Pipeline.RestIsClosedByHeader | SQLiteSocket.cpp:33-41 | at rest without a failure it is closed exactly when they do |
| Pipeline.RequestsOfFrames | SQLiteSocket.cpp:35-48 | the requests found in a client's frames are its bodies, cut before the first one over the limit |
| Pipeline.ConversationIsComplete | SQLiteSocket.cpp:23-81 | a client whose bodies keep the limit has them handled in order, and its receiver loop recovers exactly the answers from what an open socket at rest has sent |
| Pipeline.SilentAfterFailure | SQLiteSocket.cpp:72-79 | after a failed write or a close, no later event puts a byte on the wire |
| Pipeline.EveryEventIsProgress | SQLiteSocket.cpp:23-81 | every event uses up input, read work or write work |
| Pipeline.RunsAreFinite | SQLiteSocket.cpp:23-81 | the number of events of a run is bounded by the input and the answers, with at most one answer for four bytes of input |
| StoreProofs.OpenedKeepsInv | sqlite3_wrapper/SQLDatabase.h:16-26 | opening creates a missing file as a new generation and adds a handle without work, keeping the invariant |
| StoreProofs.RemovedKeepsInv | RequestHandler.cpp:280-281 | removing a file keeps the invariant: open handles keep the generation, the folder no longer has it |
| StoreProofs.ClosedKeepsInv | sqlite3_wrapper/SQLDatabase.h:28-30 | closing handles rolls back their work and frees their locks, keeping the invariant |
| StoreProofs.LockedKeepsInv | sqlite3_wrapper/SQLStatement.h:43-44 | taking the free write lock keeps the invariant: lock and uncommitted work belong together |
| StoreProofs.FinishedKeepsInv | sqlite3_wrapper/SQLStatement.h:48-50 | a statement that reaches DONE keeps it: committed contents stay the replay of the history in lock order, every finished write is recorded once |
| StoreProofs.FailedKeepsInv | sqlite3_wrapper/SQLStatement.h:51-52 | a failing statement keeps it and leaves no effect |
| ServerProofs.StepKeepsInv | RequestHandler.cpp:64-300 | every step of every connection keeps the server's invariant: caches and open handles are one relation, running requests use open handles of their own connection, an answer has rows exactly when its statement reached DONE |
| ServerProofs.RunKeepsInv | RequestHandler.cpp:64-300 | every reachable state of any number of connections satisfies the invariant |
| ServerTheorems.ContentsAreReplayed | sqlite3_wrapper/SQLStatement.h:41-53 | in every interleaving the committed contents of a file generation equal the sequential replay, in lock order, of its committed transactions |
| ServerTheorems.NoWriteIsLost | CHANGELOG.md:11-17 | of the one statement a request runs: a write answered with rows is committed exactly once, in its own file, unless it belongs to a transaction without a finished COMMIT, and then not at all; a request answered with an error is in no history |
| ServerTheorems.HistoriesHoldOnlyFinishedWrites | RequestHandler.cpp:227-240 | conversely, a history holds only writes whose statement reached DONE with that effect, in transactions whose finishing statement did, and none of them is answered with an error |
| ServerTheorems.AbandonedForGood | sqlite3_wrapper/SQLDatabase.h:28-30 | a transaction that ended without a COMMIT stays uncommitted along every run |
| ServerTheorems.DisconnectAbandons | sqlite3_wrapper/SQLDatabase.h:28-30 | dropping a connection abandons the open transactions of all its handles |
| ServerTheorems.DeleteAbandons | RequestHandler.cpp:281-284 | erasing the cached handle after a DELETE_DB closes it, abandons its transaction and frees its lock, and touches no other lock and no committed contents |
| Transactions.LockIsGrantedWhenFree | sqlite3_wrapper/SQLStatement.h:43-44 | a write and a BEGIN IMMEDIATE can take the write lock exactly while nobody holds it, and no other statement does |
| Transactions.DoneIsReached | sqlite3_wrapper/SQLStatement.h:48-50 | a read can always reach DONE, a write with the lock, BEGIN outside a transaction, COMMIT and ROLLBACK inside one |
| Transactions.RollbackAbandons | sqlite3_wrapper/SQLStatement.h:48-52 | a ROLLBACK that is done, or a failure by which SQLite gives the transaction up, ends it without a COMMIT: its handle has no work and no lock and reads the committed contents again, which do not change |
| Transactions.RolledBackWritesAreLost | sqlite3_wrapper/SQLStatement.h:48-52 | a write of such a transaction is in no history, along any later run |
| Transactions.AbandonedWritesAreLost | sqlite3_wrapper/SQLDatabase.h:28-30 | nor is a write of a transaction that ended otherwise without a COMMIT |
| Transactions.BeginOpens | README.md:315-317 | a BEGIN that is done opens a transaction where there was none |
| Transactions.TransactionGoesOn | README.md:315-317 | it goes on until COMMIT or ROLLBACK is done on its handle, SQLite gives it up, or the handle closes |
| Transactions.WritesCarryTheirBegin | README.md:315-317 | every statement that ends on the handle meanwhile, in particular every write, is one of that transaction |
| Transactions.WriteInTransaction | sqlite3_wrapper/SQLStatement.h:48-50 | such a write changes what its own handle sees and no committed contents |
| Transactions.WriteByItself | sqlite3_wrapper/SQLStatement.h:48-50 | outside a transaction its effect is committed at once and the lock is free again |
| Transactions.CommitEnds | sqlite3_wrapper/SQLStatement.h:48-50 | COMMIT makes what the handle saw the committed contents, and ends transaction and lock |
| Transactions.FailureIsUndone | sqlite3_wrapper/SQLStatement.h:51-52 | a failing statement leaves an open transaction as it was, unless SQLite gives it up; outside a transaction nothing uncommitted is left |
| ServerTheorems.LockOwner | sqlite3_wrapper/SQLDatabase.h:28-34 | a write lock has one owner, a handle cached by a live connection that runs a statement or has a transaction open |
| ServerTheorems.DisconnectFreesLocks | sqlite3_wrapper/SQLDatabase.h:28-30 | dropping a connection frees exactly its locks and changes no committed contents |
| ServerTheorems.StatementsHaveOpenHandles | RequestHandler.cpp:164-165 | while a statement is not finalised its handle is open and cached by its own connection |
| ServerTheorems.HandlesCloseWithoutStatements | sqlite3_wrapper/SQLStatement.h:32-39 | whatever event closes a handle, no connection has a statement on it that is not finalised |
| ServerTheorems.AnswersStay | RequestHandler.cpp:64-116 | along every run an answer that is recorded is never replaced |
| Caching.RunAdvances | RequestHandler.cpp:280-300 | along every run open handles keep their file, closed ones do not come back, and the generation of a name counts its successful deletes |
| Caching.HandlesShareGeneration | RequestHandler.cpp:295-298 | two handles on any connections, opened under names of one file, share the file exactly when no successful delete of that name fell between the openings |
| Caching.OpenedIsJustOpened | RequestHandler.cpp:295-299 | a handle that is not cached is opened on the file the folder has under the resolved name |
| Caching.SameStringSameHandle | RequestHandler.cpp:289-293 | until the connection ends or successfully deletes that very string, all its queries with one db string use one handle |
| Caching.SingleClientSeesTheFolder | RequestHandler.cpp:280-299 | with a single connection and plain names without NUL every cached handle is the file now in the folder under its name |
| Caching.DeleteLeavesOtherHandles | RequestHandler.cpp:280-284 | a successful delete closes exactly the handle the deleting connection cached under that string; every other handle on the file stays open on a file no longer in the folder |
| Auth.InterceptedHasNoEffect | RequestHandler.cpp:78-90 | an intercepted request changes no folder, database or handle, and is answered with the result of the authentication or as malformed |
| Auth.PasswordAuthenticates | RequestHandler.cpp:78-90 | a request sets the flag and is answered with `ok` exactly when there is a password and `auth` is that very text; without the flag every other one is answered with `error`, or as malformed |
| Auth.AuthenticatedMeansPassword | RequestHandler.cpp:78-90 | along every run a connection is authenticated exactly when it has sent that text in its present session |
| Auth.PasswordServerSimulatesOpenServer | RequestHandler.cpp:64-116 | every run with a password has the folder, databases, handles, handler states and answers of the run without one from which exactly the intercepted requests are taken |
| Auth.PassedItemsAreVisible | RequestHandler.cpp:78-90 | which requests of a connection pass depends on that connection's requests alone |
| Auth.VisibleIsSuffixWithoutPasswords | RequestHandler.cpp:78-90 | they are those after its first correct password with all further correct passwords removed |
| Auth.NothingBeforeAuthentication | RequestHandler.cpp:87-89 | a connection that has not sent the password has no handle, and no request of it opens, lists or removes anything |
| Handler.RequestHandler.HandleRequest | RequestHandler.cpp:64-116 | every execution is a run of the machine in which the connection takes this request first and no other, the fields stay what the machine knows of the connection, the response is the machine's answer, and it is the authentication's `ok` exactly when the texts are equal |
| Handler.RequestHandler.HandleCommand | RequestHandler.cpp:93-115 | each of the words `query`, `list` and `delete_db`, in any letter case, gets the outcome of its command; a missing command and any other word get their own errors |
| Commands.CommandWords | RequestHandler.cpp:102-109 | the three command words are compared letter by letter, in either case |
| Commands.SidecarSuffixes | RequestHandler.cpp:57-61 | the sidecar files are those that end in `-wal`, `-shm` or `-journal` |
| Commands.OtherCommandsAreRefused | RequestHandler.cpp:93-115 | a missing command and a word that is none of the three are answered with their errors |
| Commands.ListIsAnswered | RequestHandler.cpp:244-258 | LIST answers with the folder's names that end in none of the three suffixes |
| Commands.QueryIsOpened | RequestHandler.cpp:132-164 | QUERY reports a missing `db`, then a missing `query`, then a refused name, and otherwise opens the accepted child |
| Commands.DeleteIsAnswered | RequestHandler.cpp:260-286 | DELETE_DB answers whether the accepted name led to a file of the folder, which is then gone, and removes nothing else |
| Handler.RequestHandler.HandleQuery | RequestHandler.cpp:132-242 | a missing member or a refused name is answered with its error, and databases, folder and cache stay; otherwise the answer has rows only after DONE, and is an SQL error in all other cases |
| Handler.RequestHandler.Rowwise | RequestHandler.cpp:167-232 | the steps made are one for each row, then DONE or an error, then the finalisation; after DONE the answer holds the columns and one object per row in order, with the values SQLite gave; after an error it is that error |
| Handler.RequestHandler.HandleList | RequestHandler.cpp:244-258 | the loop over the folder answers with exactly the names that are not sidecar files |
| Handler.RequestHandler.HandleDeleteDb | RequestHandler.cpp:260-286 | the answer is ok exactly when the name leads to a file of the folder; then exactly that file is gone and the handle under this string dropped, and otherwise both stay |
| Handler.RequestHandler.GetDatabaseConnection | RequestHandler.cpp:289-300 | a cached handle is reused; otherwise a new one is opened and cached under the string; a failed open caches nothing |
| Handler.SQLDatabase.Prepare | sqlite3_wrapper/SQLStatement.h:13-30 | after retries on BUSY only, the last call prepared a statement, or failed with the error reported, or compiled to nothing, which is reported as MISUSE |
| Handler.SQLStatement.NextRow | sqlite3_wrapper/SQLStatement.h:43-53 | true with the next row, false only on DONE, an error for anything else |
| Session.Session.BodyCompleted | SQLiteSocket.cpp:45-51 | the complete body is parsed and handled, and the socket queues the answer the server has recorded for it |
| Session.Session.SentBytesAreRecordedAnswers | SQLiteSocket.cpp:23-81 | whatever the other connections do, the server has received this connection's requests in the order of its bytes, and the bytes sent are a prefix of the frames of the answers recorded for them, all of them exactly when the queue has drained or only its last completion is missing |
| Session.Session.RestMeansAllServed | SQLiteSocket.cpp:23-81 | a connection at rest without a failure has an answer recorded for every request of its bytes, and has sent them all while it is open |
| Names.SafeNamesAreDirectChildren | RequestHandler.cpp:31-53 | a relative name without a final separator or `.` is accepted exactly when folder plus name resolve to the folder extended by one ordinary component, whatever `.` and `..` it holds |
| Names.ChildIsTheExtension | RequestHandler.cpp:44-52 | the checked path is the folder plus that component |
| Names.AbsoluteNamesAreRefused | RequestHandler.cpp:36-38 | no empty and no absolute name is accepted, in any folder and file system |
| Names.TrailingNames | RequestHandler.cpp:44-52 | the names with a final separator or `.` by their last characters |
| Names.PlainNamesDenoteThemselves | RequestHandler.cpp:31-53 | a plain component is accepted, as itself, in every folder |
| Names.DottedNamesAreAliases | RequestHandler.cpp:44-52 | different spellings with `.` and `..` are accepted for one file |
| Names.SafeWithoutLinks | RequestHandler.cpp:40-44 | without links the check on the file system is the lexical check, and a name with a final separator or `.` is accepted exactly when it leads to an existing directory of the folder |
| Names.OpensTheCheckedChild | RequestHandler.cpp:280-296 | the file opened or removed is the child that was checked exactly when the name up to its first NUL leads to the same child; a name without NUL always does |
| Names.PlainNamesOpenThemselves | RequestHandler.cpp:295-296 | a plain component is the file opened exactly when it holds no NUL |
| Names.NulNameIsCut | sqlite3_wrapper/SQLDatabase.h:17 | a family of names accepted for a file of the folder and opened outside it |
| Names.OpenedPathIsDirectChild | RequestHandler.cpp:295-296 | with links, an accepted name without NUL is opened at the checked path unless SQLite expands a link behind the part that was resolved; then it is opened at a direct child exactly when the last such link's target and the rest of the name make one |
| Names.ExistingFileIsDirectChild | RequestHandler.cpp:44-52 | an existing file is opened where it was checked, a direct child, through any links |
| Names.PlainNameOpened | RequestHandler.cpp:295-296 | for a plain name the condition is: it is no link to a missing target, or that target is a direct child |
| Names.DanglingLinkIsFollowed | RequestHandler.cpp:25-44 | a plain name that is a link to a missing file is accepted and opened at the link's target |
| Names.LinkBehindMissingIsFollowed | RequestHandler.cpp:25-44 | so is a link behind a missing component, wherever it leads |
| Names.RemovedPathIsDirectChild | RequestHandler.cpp:280-281 | an accepted name without NUL that removes something removes a direct child of the folder, unless that is a link to something that exists; then exactly when the components before the last one lead to the folder |
| Names.LinkElsewhereIsRemoved | RequestHandler.cpp:280-281 | a family of accepted names that remove a link outside the folder |
| Names.PlainNameRemoved | RequestHandler.cpp:280-281 | a plain name removes the folder's own entry of that name, link or not, exactly when there is one that is no directory |
| Names.ReachedIsTheChild | RequestHandler.cpp:280-281 | when existing directories lead to the last component, they lead to the folder, and that component is the checked child |
| Names.PlainNamesAreReached | RequestHandler.cpp:280-281 | a plain name can be removed exactly when the folder and the directories above it exist |
| Values.LowNibble | RequestHandler.cpp:202 | masking with 0x0F gives the low digit, of a negative char too |
| Values.HighNibble | RequestHandler.cpp:201 | masking with 0xF0 and shifting gives the high digit |
| Values.HexStr | RequestHandler.cpp:194-205 | the in-place loop on signed chars fills all 2n positions with the hexadecimal digits of the bytes |
| Values.BlobTrip | examples/python/sqlite.py:40-45 | the server's text for a blob is decoded by the client to the same bytes |
| Values.DecodesExactlyLiterals | examples/python/sqlite.py:20-45 | a string decodes to given bytes exactly when it is their literal, up to letter case and one final newline |
| Values.BuildRow | RequestHandler.cpp:176-225 | the column loop builds the object that holds, for the last column of each name, the same integer or float, the text up to its first NUL, a literal for the blob's bytes, or null |
| Values.RowObjectRepresents | RequestHandler.cpp:176-225 | so does the row the answer is specified by, which has no other names |
| Values.AnswerIsTable | RequestHandler.cpp:170-232 | the answer has the columns in order and such a row for every tuple, in order |
| Values.LookupOfRow | RequestHandler.cpp:177-224 | looking a row up by the column names gives the tuple back exactly when equal names hold equal values |
| Values.RowsReconstructed | examples/python/sqlite.py:170-185 | with distinct columns every tuple is recovered in order, value by value, and scalar is the first value of the first row |
| KeyRepair.MatchFrontIsUnique | RequestHandler.cpp:125 | at a position the expression has at most one match |
| KeyRepair.CharacterClasses | RequestHandler.cpp:125 | the characters of keys and quote marks, one by one |
| KeyRepair.RepairIsLeftmost | RequestHandler.cpp:128 | the scan replaces exactly the leftmost match, copies what precedes it, and goes on behind it |
| KeyRepair.RepairWithoutMatch | RequestHandler.cpp:128 | a text without a match is unchanged |
| KeyRepair.RegexReplace | RequestHandler.cpp:124-128 | the scanner loop computes that replacement |
| KeyRepair.RepairIsIdempotent | RequestHandler.cpp:124-129 | repairing twice is repairing once, for every text |
| KeyRepair.RepairKeepsText | RequestHandler.cpp:124-129 | without quote marks, input and output are the same text |
| KeyRepair.RepairSplits | RequestHandler.cpp:124-128 | a character that no match contains separates the text into parts that are repaired independently |
| KeyRepair.StableMeansKeysQuoted | RequestHandler.cpp:124-129 | a text is left alone exactly when every colon directly after a key comes after a key in double quotes |
| KeyRepair.RepairQuotesKeysExactly | RequestHandler.cpp:124-129 | an object with alphanumeric keys in any quoting and any white space before its keys is repaired to its double-quoted printing (section 4 of RFC 8259) exactly when no value holds an unquoted key before a colon |
| KeyRepair.ColonFreeIsStable | RequestHandler.cpp:124-129 | colon-free values are such values |
| KeyRepair.QuotedObjectsAreFixed | RequestHandler.cpp:124-129 | double-quoted printings with colon-free values are fixed points |
| SqlLocality.ScanIsLocal | sqlite3_wrapper/SQLStatement.h:16 | of the tokenizer the query is handed to: two texts that agree up to a placeholder in one and a literal in the other, after a character no literal can extend, have the same token in front |
| SqlLocality.ScanBeforeNul | sqlite3_wrapper/SQLStatement.h:16 | of the tokenizer, which reads the query as a C string: no token passes the NUL that ends the text |
| Prepare.ClientSidePrepare | examples/python/sqlite.py:315-333 | the single pass with its parameter iterator leaves all text as it is and puts for each placeholder the literal of the parameter it stands for |
| Prepare.SplitIsUnique | examples/python/sqlite.py:332-333 | the split is the only reading of the query as placeholders with maximal digit runs and other characters |
| Prepare.FillInterleaves | examples/python/sqlite.py:318-330 | a bare `?` takes the parameter whose index is the number of bare ones before it, `?N` the N-th and consumes none, unbound ones survive, and nothing substituted is read again |
| PreparedTokens.TokensArePrepared | examples/python/sqlite.py:300-360 | for every template whose placeholders are delimited tokens, the tokens of the prepared query are those of the template, where a bare placeholder gives way to the literal of the parameter whose index is the number of bare ones before it and `?N` to that of the N-th, exactly when no substituted string holds a NUL |
| PreparedTokens.LiteralDecodes | examples/python/sqlite.py:336-360 | the tokens of each literal decode to its parameter, whatever quotes or question marks it is full of |
| PreparedTokens.StringScans | examples/python/sqlite.py:358-360 | a string parameter is one string token exactly when it has no NUL |
| PreparedTokens.RightDelimiterNeeded | examples/python/sqlite.py:333 | literals keep to themselves for every parameter exactly when the next character is no identifier character, dot or apostrophe |
| PreparedTokens.LeftDelimiterNeeded | examples/python/sqlite.py:333 | every excluded character on the left does end a text some literal fuses with |
| PreparedTokens.StringsFuse | examples/python/sqlite.py:358-360 | a string literal next to a string parameter is one literal with a quote between the two texts |
| PreparedTokens.QuotedPlaceholderTears | examples/python/sqlite.py:333 | a placeholder inside a string literal is replaced and ends the literal early |
| Cidr.NetmaskIs | Config.cpp:129 | the netmask is the prefix bits and nothing else, for every prefix from 0 to the width |
| Cidr.CanonicalRoundsDown | Config.cpp:129 | clearing the host bits rounds down to a multiple of the block size |
| Cidr.MatchesIsMembership | Config.cpp:152 | comparing masked addresses is membership in the interval of 2^(width - prefix) addresses |
| Cidr.AllowedIsMembership | Config.cpp:141-166 | an address is admitted exactly when there is no entry or one of its own family whose interval contains it |
| Cidr.StrayNetworkMatchesNobody | Config.cpp:151-153 | a network with host bits set would admit nobody, so the decision rests on canonical storage |
| Cidr.InsideIsInclusion | Config.cpp:141-166 | a block that starts in a larger block lies in it |
| Cidr.NestedOrDisjoint | Config.cpp:141-166 | two blocks share an address exactly when one lies inside the other |
| Cidr.RedundantEntry | Config.cpp:141-166 | an entry inside another entry can be dropped without changing any decision |
| Config.EntryIsBlock | Config.cpp:112-139 | whatever entry is accepted, the network stored is canonical and of the family its colon tells |
| Config.PrefixEntry | Config.cpp:121-129 | an entry in prefix notation (section 3.1 of RFC 4632) is accepted exactly when its prefix is at most the width of its family, 32 or 128, and admits the block of its address whether or not host bits are set |
| Config.BareEntry | Config.cpp:123-134 | a bare address of either family admits exactly itself |
| Config.NoAddressIsRefused | Config.cpp:123-134 | a text without a slash that stands for no address is refused |
| Config.EmptyPrefixIsRefused | Config.cpp:121-129 | a slash without digits behind it is refused |
| Config.FirstInvalidEntry | Config.cpp:106-139 | valid entries are appended in order, each to the list of its family, and the first invalid one is named |
| Config.Config.AddWhitelistEntry | Config.cpp:112-139 | a valid entry is appended to its family's list, an invalid one changes nothing and is named in the error |
| Config.Config.Init | Config.cpp:106-108 | the entries of the list are added in order, and the first invalid one ends the initialisation |
| Config.Config.IsIpAllowed | Config.cpp:141-166 | the decision on the stored lists is membership in their intervals |
| Config.Config.IpWhitelistRepr | Config.cpp:168-182 | the loops print all networks, IPv4 first, separated by commas |
| WhitelistText.SplitCsv | Config.cpp:16-27 | the getline loop gives the trimmed non-blank items in order |
| WhitelistText.CsvOfParts | Config.cpp:16-27 | the items are what stands between commas, trimmed, without the blank ones, in order |
| WhitelistText.TrimIs | Config.cpp:21 | trimming takes away exactly the white space on both sides |
| WhitelistText.DottedRoundTrip | Config.cpp:131 | a text is read as an IPv4 address exactly when it is that address's dotted decimal form |
| WhitelistText.CsvOfJoined | Config.cpp:16-27 | splitting a comma-and-space separated list of plain texts gives the texts back |
| Config.EntryOfText | Config.cpp:171-180 | the printed form of a stored network is an entry that is read as that network |
| Config.ReprRoundTrip | Config.cpp:168-182 | reading the printed form of a non-empty whitelist rebuilds the same lists in the same order |

## Left out

- SQLite's internals: B-trees, journals, WAL and the VFS but for its path expansion; only the lock, transactions and statement outcomes are modelled.
- ServerTheorems.NoWriteIsLost: a query text's further statements, which the source never runs, are not part of the model.
- SQL evaluation, parsing and name resolution: a write is an opaque function of the rows; the tokenizer is modelled, the parser and its contextual keywords are not.
- `OR FAIL` conflict clauses and savepoints, which keep partial effects of a failing statement or transaction.
- Time: the busy timeout is a BUSY or error outcome that may come at any step, and nothing bounds how long a statement waits.
- Handler.SQLDatabase.Prepare: ends because the outcomes a run meets are finite; the source repeats on BUSY without limit.
- A statement that is being stepped while its own connection has another open statement: a handler runs one statement at a time.
- JSON parsing and printing, the text of error messages, members of another type than string (the exception, which no one catches in `Network.h:36-42`, ends the process), and text that is not UTF-8.
- Data races between completion handlers, threads, signals, DNS resolution, program options, logging and `main`.
- Handler.RequestHandler.HandleDeleteDb: the removal of the file and the dropping of the cached handle are one step of the machine, so another connection cannot open the name between them; removal of an empty directory, and errors of the removal other than a missing path, which are exceptions, are not modelled.
- Races between the name check and the later open, and filesystem permissions.
- Names.OpenedPathIsDirectChild: a link stands for the end of its chain of links; loops of links and the limits on path length are not modelled, nor are links in names with a NUL, which the check itself asks the file system about as C strings.
- Names.SafeNamesAreDirectChildren: this is the check where the name does not exist as a directory; the server's machine, which has files only, refuses every name with a final separator or `.`, and how `..` at the end of a missing path and a final separator behind a file come out depends on the path library's version.
- Values.BuildRow: a column of an unknown type, which the source only logs, does not exist in the model; text is cut at its first NUL as the C string it is read as.
- Values.RowsReconstructed: covers result objects with a `columns` member, as the server sends them; the client's fallback to the first key of a row is not modelled.
- Prepare.ClientSidePrepare: finite floats are not among the parameters because their formatting is Python's; NaN and infinities, and the fallback to `str` for other types, are left out as well.
- Prepare.SplitIsUnique: digits are the ASCII ones, although `\d` also matches other Unicode digits; runs longer than Python's limit for `int` raise an error that is not modelled.
- PreparedTokens.LiteralDecodes: integers are unbounded at the level of tokens; SQLite turns literals beyond 64 bits into floating point.
- PreparedTokens.TokensArePrepared: a sign directly before a placeholder is excluded although it would be harmless before some literals.
- Reading and printing of IPv6 addresses: a parameter of `Config`, of which the round trip assumes that it reads what it prints.
- WhitelistText.DottedRoundTrip: entries that contain a NUL are not modelled.
- Config.EntryIsBlock: prefix digits beyond the range of `int`, on which `atoi` is undefined, are rejected.
- The JSON configuration file's branch of `init`, which adds the same entries from an array.
