# vsftpd with an object store: verified models

These modules model the logic of vsftpd 3.0.3 with its COS object-store back end, and prove what that
logic promises. There is one module for each part of the server; code that updates state is modelled
by methods on classes and arrays, code that computes by functions. What the outside world does (the
network, the disk, the store, the kernel, the clock, signals) comes in as parameters, and every
result holds for all of its choices.

`dafny verify dfyconfig.toml` checks the project.

| module | part of the server |
|---|---|
| `Base` | bytes, options and constants that the other modules share |
| `Seccomp` | the rule table of the system call sandbox, its compiler to BPF, and the machine that runs it |
| `HashTable`, `Listener` | connection accounting of the stand-alone listener, down to the linked buckets |
| `Session`, `Turns` | the data-connection state of a session across every command, and what each command does, told of plain values |
| `PrivSock` | the lockstep protocols with the TLS slave and the privileged parent, over byte channels |
| `Ascii`, `Transfer` | line-end conversion and the two transfer loops |
| `Wildcard` | the file name filter of listings |
| `Text`, `Path`, `Access` | searching and replacing, path normalisation, and the check that a name lies under the user's root |
| `Reply`, `LineReader` | reply escaping and command lines |
| `Throttle`, `PassivePort` | bandwidth limiting and the passive port draw |
| `Listing` | sort keys, order and coalesced writes of a listing |

## Where the code falls short of what it is for

Each of these is stated by a lemma, with the exact condition where there is one.

- The upload size cap never fires: the guard compares a truth value with the limit (`Transfer.LimitNeverFires`).
- `port_active` and `pasv_active` carry a trap for the case that both are active; in that case they would
  recurse for ever instead (`Session.BothActiveDiverges`). The case is unreachable (`Session.Control.CommandLoop`).
- With promiscuous PORT a client can end its own session process by a transfer to a reserved port
  (`Session.IllegalPortIsReached`); without it, it cannot.
- `reject_nr` accepts the error code 0, and the rule then allows the call (`Seccomp.RejectExact`).
- A literal after `*` is placed leftmost and never retried, so `*w` misses `ww` (`Wildcard.GreedyMissesLaterMatch`).
  Without brace lists the patterns that never miss a name are exactly those that have, after their first `*`,
  only segments of literal text, `?`s and a `*` (`Wildcard.ExactIff`).
- A brace list is tried only up to its first empty alternative, so `{,b}` matches neither `b` nor the empty name
  (`Wildcard.EmptyAlternativeIsMissed`); all alternatives are tried if and only if none is empty (`Wildcard.TriedExact`).
- So a denied pattern lets matching names pass: with `*.m` denied, ".m.m" is accepted (`Access.MatchingNameIsAccepted`).
  Patterns on which the matcher is exact refuse every matching name within the step budget (`Access.RefusedExact`).
- A path that ends in a slash right after a ".." loses that slash: "/a/../" becomes "" (`Path.TrailingSlashIsLost`,
  with the exact condition in `Path.ResolvedExact`). The empty text between two slashes counts as a component, so
  in "//.." the ".." takes back that text and not the directory before it.
- The check that a name lies under the user's root is wrong in two ways. It leaves a last ".." unresolved, so the
  root's own ".." passes it (`Access.RootsUpIsAdmitted`). And it lets ".." take back an empty component, which the
  file system skips: "//../x" passes and leads beside the root (`Access.EmptyComponentIsTakenBack`). A path leads
  under the root if and only if the check admits it without its needless slashes and that is not the root's own
  ".." (`Access.ConfinedExact`).
- An upload is checked under another path than the one it creates: the name has been put under the root before the
  check puts it there again, so "/../x" passes and is created beside the root (`Access.UploadBesideRoot`; when the
  created path is under the root, exactly, is stated by `Access.UploadCheck`).
- PWD takes every occurrence of the root's text out of the working directory, not only the first: the part below
  the root is shown if and only if it does not hold that text (`Reply.BelowExact`, `Reply.RootTwiceIsShownAsRoot`).
- Times before 1970 sort the wrong way round among themselves (`Listing.TimeKeyOrder`), so a listing is in the
  order of time if and only if it has no two different ones (`Listing.TimeOrder`).
- The throttle converts a quotient to an unsigned int. The limit holds for a call if and only if the quotient
  fits (`Throttle.BelowLimitExact`); a full buffer within a microsecond breaks it (`Throttle.MicrosecondBreaksLimit`).
- The comment above the matcher promises any number of wildcards. A step budget of 1000 rounds cuts that short: a
  thousand `?`s match no name (`Wildcard.BudgetExact`; when the budget is enough, exactly: `Wildcard.PassesFilter`).

## Model

| member | source | states |
|---|---|---|
| Seccomp.FilterCorrect | src/seccompsandbox.c:538-690 | compiler correctness: for every table the allow and reject functions can build and every system call record, running the emitted BPF program returns 0 (kill) for another architecture and when no rule applies; otherwise the first rule that applies decides, with or without argument tests: 0x7fff0000 (allow) if its error code is 0, and 0x00050000 plus the code if not |
| Seccomp.AppliesExactly | src/seccompsandbox.c:126-259 | when a rule applies, in numbers: the call has its number, and the low 32 bits of each tested argument equal the value, or have no binary digit that the mask has not |
| Seccomp.ArgumentWords | src/seccompsandbox.c:596-657 | the words that the filter can load at the offsets of an argument are its low and its high half |
| Seccomp.EveryState | src/seccompsandbox.c:538-690 | after any number of steps the program has not faulted, is inside its own code, and holds the system call number in the accumulator whenever it is at the start of a rule, although argument loads clobber it |
| Seccomp.KernelAccepts | src/seccompsandbox.c:538-690 | every instruction, reached or not, jumps forward to an instruction of the program or loads an aligned word of the record, and the last one returns |
| Seccomp.RejectExact | src/seccompsandbox.c:107-124 | a rejected call gets its error code if and only if that code is not 0; with 0, which `reject_nr` accepts, the call is allowed |
| Seccomp.MaskTest | src/seccompsandbox.c:637-644 | testing for a shared bit with the complement of a mask tests for a bit outside the mask |
| Seccomp.RuleRun | src/seccompsandbox.c:580-679 | the code of one rule returns its action if the rule applies, and otherwise falls to the next rule with the number reloaded |
| Seccomp.RulesRun | src/seccompsandbox.c:580-679 | from the start of any rule, the result is that of the first later rule that applies |
| Seccomp.JumpTargets | src/seccompsandbox.c:585-678 | the hand-computed jump offsets stay within the rule or reach the instruction after it, and fit a byte |
| Seccomp.RuleTable.Append | src/seccompsandbox.c:92-259 | the columns and the counters of the table stand for the list of rules with the new one at its end |
| Seccomp.RuleTable.AddPlain | src/seccompsandbox.c:92-124 | accepts exactly when there is room, the number is not negative and the code is at most 255, and then adds that rule |
| Seccomp.RuleTable.Allow1 | src/seccompsandbox.c:126-168 | adds a rule with one equality or mask test, exactly when the arguments pass the checks |
| Seccomp.RuleTable.Allow2 | src/seccompsandbox.c:170-224 | adds a rule with two tests, exactly when the arguments pass the checks |
| Seccomp.RuleTable.Allow3 | src/seccompsandbox.c:226-259 | adds a rule with three tests, exactly when the arguments pass the checks |
| Seccomp.RuleTable.Lockdown | src/seccompsandbox.c:538-690 | a buffer of exactly the precomputed length is filled exactly, with the compiled program of the rules in the table |
| Seccomp.EmitRow | src/seccompsandbox.c:580-679 | the instructions written through the advancing pointer for one row are the code of its rule, and its return instruction allows or fails by the error code alone |
| HashTable.Table.constructor | src/hash.c:35-49 | an empty table: every bucket empty, for any hash function into the buckets |
| HashTable.Table.GetNode | src/hash.c:131-146 | walking a bucket finds the one node of the key, or null exactly when the key is not in the map the table stands for |
| HashTable.Table.Lookup | src/hash.c:51-60 | agrees with the map |
| HashTable.Table.Store | src/standalone.c:230-231 | writing through the pointer that a lookup returned is an update of the map at that key |
| HashTable.Table.Add | src/hash.c:62-90 | reports a duplicate exactly when the key is in the map; otherwise adds the pair, and every bucket is again an acyclic list with consistent links and all keys distinct and in their own bucket |
| HashTable.Table.Free | src/hash.c:92-118 | reports a missing key exactly when it is not in the map; the map loses that key and every bucket is again a consistent list |
| HashTable.PushFront | src/hash.c:80-89 | linking a new node in front keeps the list consistent in both directions |
| HashTable.Unlink | src/hash.c:103-115 | unlinking any node keeps the list consistent in both directions |
| Listener.EveryRunFromStart | src/standalone.c:139-199 | in every possible run of accepts, forks, failed forks and reaps no trap is reached, the child counter is the number of unreaped children, an address is counted exactly when it has one, and its count is their number |
| Listener.RunBalanced | src/standalone.c:139-199 | the same from any balanced state, and the pid table holds exactly the unreaped children |
| Listener.ApplyBalanced | src/standalone.c:139-199 | one possible event from balanced accounts does not trap and leaves them balanced |
| Listener.DropUndoesBump | src/standalone.c:215-236 | a failed fork leaves the accounts exactly as they were |
| Listener.Numbers | src/standalone.c:151-155 | the two numbers a new connection is told are those after it has been entered: all unreaped children, and those of its own address |
| Listener.HandleIpCount | src/standalone.c:295-313 | the count of the address goes up by one, from none to 1; the duplicate-key trap is not reached |
| Listener.DropIpCount | src/standalone.c:215-236 | traps exactly on a missing address or a zero count; otherwise takes one off and removes the address at zero |
| Listener.Server.Serve | src/standalone.c:151-185 | an accepted connection, with its fork or failed fork, has the effect of that event on the accounts |
| Listener.Server.ReapOne | src/standalone.c:246-256 | reaping one child has the effect of that event, traps included |
| Listener.Server.HandleSigchld | src/standalone.c:238-258 | reaping until there is no dead child is the run of those events |
| Listener.Server.AcceptLoop | src/standalone.c:139-199 | over heap and tables: whatever happens at the accept points, no trap is reached, the accounts end balanced and the pid table holds exactly the unreaped children |
| Session.BothActiveDiverges | src/postlogin.c:597-632 | were PORT and PASV both active, `port_active` and `pasv_active` would call each other for ever, and their own trap would not be reached |
| Session.ActiveCallsReturn | src/postlogin.c:597-632 | the two functions return if and only if PORT and PASV are not both active |
| Session.ActiveCallsAnswer | src/postlogin.c:597-632 | and then they give the right answers within two calls |
| Session.Control.PortActive | src/postlogin.c:597-610 | terminates, and says whether a PORT address is set |
| Session.Control.PasvActive | src/postlogin.c:612-632 | terminates, and says whether a listener is open |
| Session.Control.StartEntry | src/logging.c:80-97 | traps exactly when an entry is open; otherwise opens one |
| Session.Control.Deliver | src/postlogin.c:1787-1828 | an ABOR is noted only with async ABOR enabled, without TLS on the control connection, and while a data descriptor is open |
| Session.Control.PasvListen | src/privops.c:120-190 | succeeds exactly when some of nine tries listens and all before it were busy; the port is that of its draw and in the effective range; sockets of failed tries are closed |
| Session.CanListenExactly | src/privops.c:144-190 | a listener can be had exactly when some try binds and listens and every try before it found its port busy |
| Session.Control.GetFtpPortSock | src/privops.c:35-98 | ends by the listener trap, by the illegal port, by a failed bind, or with the connected socket, each exactly in its case |
| Session.Control.AcceptPasv | src/privops.c:192-224 | a connection from a stranger is closed again unless that is allowed |
| Session.Control.InitDataSock | src/ftpdataio.c:232-247 | traps exactly when a data descriptor or an I/O handler is already there |
| Session.Control.PostMarkConnect | src/ftpdataio.c:161-195 | the outcome of the TLS handshake and its effect on the data TLS handle and on the exchange with the TLS slave, which is asked in step |
| Session.Control.Dispose | src/ftpdataio.c:57-109 | traps exactly without descriptor or handler; otherwise the descriptor is closed once, handler and TLS handle are gone, and the result is good exactly when nothing failed and there was no ABOR or timeout |
| Session.Control.GetRemoteTransferFd | src/postlogin.c:1830-1858 | exactly how an attempt at a data connection ends; on success a connection is up, on failure none is left and one reply was sent |
| Session.Control.TransferChecks | src/postlogin.c:2330-2347 | passes exactly when PORT or PASV is active and encryption is used where it is demanded |
| Session.Control.HandlePasv | src/postlogin.c:653-732 | a declined EPSV changes nothing; otherwise PASV is active and PORT is not, or the process ends in the stated cases |
| Session.Control.HandlePort | src/postlogin.c:1116-1152 | PASV is not active, and PORT is exactly for an address that parsed and is permitted; the same for EPRT |
| Session.Control.HandleRetr | src/postlogin.c:734-908 | how a download ends, when it uses up PORT or PASV, from which offset it is sent, and that its log line reports success exactly when everything went well |
| Session.Control.HandleStor | src/postlogin.c:1160-1409 | the same for an upload, whose success needs the store to take the file; its local file is closed once |
| Session.Control.HandleDir | src/postlogin.c:916-1091 | LIST and NLST use up PORT or PASV exactly when they ask for a connection; STAT does not touch them |
| Session.Control.HandleChange | src/postlogin.c:1411-1579 | MKD, RMD and DELE open one log entry and write it at once exactly on success |
| Session.Control.Step | src/postlogin.c:128-520 | one turn of the command loop from its head: no trap; the illegal-port end exactly when a download, upload or listing reaches a reserved PORT address; back at the head with no data descriptor, handler, TLS handle or log entry, not both of PORT and PASV, data TLS only under control TLS, and every ABOR noted answered once in its own turn; one final reply beside that to an ABOR; the replies to ABOR, the file transfers with their descriptor and offset, the log lines, the PORT address, the listener and the settings as specified |
| Session.Control.CommandLoop | src/postlogin.c:128-521 | every run: no trap is reached; the illegal-port end only with promiscuous PORT; every descriptor opened was closed once unless it is the open listener; transfers are no more than attempts and attempts no more than set-ups; each command but an empty line got one final reply beside those to ABOR; each log entry has its one line; and every transfer was encrypted where that is demanded, and only under control TLS, was in ASCII only where that is enabled and from offset 0 if a download, and went to or came from the address of the client unless the administrator chose otherwise |
| Session.IllegalPortIsReached | src/privops.c:50-53 | with promiscuous PORT a client does reach the illegal-port end |
| Turns.TransferTurn | src/postlogin.c:734-1409 | RETR, STOR, LIST, NLST and STAT against a reference meaning over plain values: exactly when a connection is asked for and comes up, the transfer that is recorded, its log line, the reply to an ABOR, when PORT or PASV is used up, and how the turn ends |
| Turns.DemandedEncryption | src/postlogin.c:2338-2344 | where encryption is demanded and not used, no command transfers anything, and RETR, STOR, LIST and NLST are refused with no effect on the set-up or the log |
| Turns.SettingTurn | src/postlogin.c:1093-1114 | TYPE and REST change their setting and nothing else |
| Turns.ProtTurn | src/ssl.c:224-251 | PROT C and P take effect exactly under control TLS |
| Turns.ChangeTurn | src/postlogin.c:1411-1579 | MKD, RMD and DELE leave one log line that tells how it went |
| Turns.PortTurn | src/postlogin.c:1116-1152 | PORT (not after EPSV ALL) and EPRT take the listener away, and take the address exactly when it is the client's own with a port of at least 1024, or any is allowed |
| Turns.PasvTurn | src/postlogin.c:653-732 | PASV is refused after EPSV ALL, and otherwise opens a listener, or ends the process in exactly the stated cases |
| Turns.EpsvTurn | src/postlogin.c:653-732 | ALL is remembered, other protocols are declined without effect, 1, 2 under IPv6 and no argument open a listener |
| Turns.OtherTurn | src/postlogin.c:128-520 | only QUIT ends the session, and only an empty line has no reply |
| Turns.PassiveDownload | src/postlogin.c:734-908 | TYPE, REST, PASV and RETR of a file that is found and allowed: it is sent to the client in that mode, from that position, and logged as a success |
| Turns.ActiveUpload | src/postlogin.c:1160-1409 | TYPE, REST, PORT and STOR: the same for an upload from the client's own address, which succeeds exactly when the store takes the file |
| Turns.StrangerGetsNothing | src/privops.c:192-224 | a stranger who connects to the listener is sent nothing and sends nothing, unless that is allowed |
| PrivSock.IntRoundTrip | src/privsock.c:193-213 | an integer sent as four bytes is the integer received, for every 32-bit value |
| PrivSock.StrRead | src/privsock.c:87-169 | a string within the limit is received as sent; with any part of it the reader waits |
| PrivSock.SlaveUnderstands | src/sslslave.c:32-127 | on any beginning of a request that fits its state the TLS slave waits for more without a trap, and on the whole it has that request |
| PrivSock.ParentUnderstands | src/postprivparent.c:46-80 | the same for the privileged parent, which takes CHOWN only when uploads are to be given away |
| PrivSock.ConsumerUnderstands | src/readwrite.c:32-158 | the same for the session process and every answer to each of its requests |
| PrivSock.HelperAccepts | src/sslslave.c:32-127 | a helper takes a request if and only if it is one of its own and in step with its state, case by case; to every other it traps |
| PrivSock.SlaveLimits | src/privsock.c:143-169 | a string over the limit traps as soon as its length is there, and so does a read of no bytes or of more than the buffer |
| PrivSock.MoveKeeps | src/sslslave.c:32-127 | every move of either process from a state of the invariant succeeds and keeps it |
| PrivSock.EverySchedule | src/sslslave.c:32-127 | over every interleaving and every split of reads and writes, with either helper: no trap on either side; the helper's data descriptor and TLS handle are both set or both clear; between requests the channels are empty, both sides agree on all exchanges, and the session process is right about the helper's state |
| PrivSock.HelperHolds | src/postprivparent.c:46-80 | over every schedule the helper has a listener exactly when its last listen came after its last clean-up, and a data connection with its TLS handle exactly when its last handshake succeeded and no close followed; between requests the session process believes just that |
| PrivSock.MayAsk | src/twoprocess.c:226-299 | what the session process may ask next is told exactly by the exchanges so far |
| PrivSock.NoDeadlock | src/twoprocess.c:226-299 | while an exchange is in flight some process can move |
| PrivSock.MoveProgresses | src/twoprocess.c:226-299 | every such move brings the exchange nearer to its end |
| PrivSock.TransferSizesFit | src/ftpdataio.c:767-781 | the reads of an upload and the writes of a download, fully expanded in ASCII mode, are within the protocol's limits |
| Ascii.AsciiToBin | src/ascii.c:12-54 | converts a chunk in place: the bytes written are the conversion of the bytes there before, for every chunk and held-back CR |
| Ascii.StripInPlace | src/ascii.c:33-53 | the in-place loop never overwrites a byte it has yet to read |
| Ascii.BinToAscii | src/ascii.c:56-98 | the bytes stored are the chunk with a CR before each LF that has none, at most twice as many |
| Ascii.ToBinChunk | src/ascii.c:12-54 | holding back a last CR loses nothing, whatever comes next: chunks that split CR LF convert as the whole stream |
| Ascii.ToAsciiChunk | src/ascii.c:56-98 | chunks convert as the whole stream |
| Ascii.ToAsciiIsNetwork | src/ascii.c:56-98 | after a download conversion every LF has a CR before it |
| Ascii.ToAsciiFixed | src/ascii.c:56-98 | a text in that form is left alone |
| Ascii.ToAsciiIdempotent | src/ascii.c:56-98 | download conversion is idempotent |
| Ascii.ToBinToAscii | src/ascii.c:12-98 | upload after download is upload alone |
| Ascii.ToBinIdentity | src/ascii.c:12-54 | upload conversion is the identity exactly when there is no CR LF, and shortens otherwise |
| Ascii.ToBinCrLf | src/ascii.c:12-54 | a CR LF anywhere is stored as LF and does not change what is made of the bytes around it |
| Ascii.RoundTripExact | src/ascii.c:12-98 | a download followed by an upload gives the file back exactly when it has no CR LF of its own |
| Transfer.ChunkSize | src/ftpdataio.c:767-781 | the setting itself from 4096 to 65536; 4096 for a smaller one; 65536 for none or a larger one |
| Transfer.DownloadSize | src/ftpdataio.c:783-798 | the setting itself from 64 KiB to 64 MiB; 64 KiB for a smaller one; 64 MiB for none or a larger one |
| Transfer.FileRecv | src/ftpdataio.c:701-765 | for every split of an upload into reads: in binary mode the file grows by the bytes received, in ASCII mode by those bytes with each CR LF as LF, a final lone CR included; which failure is reported, also for the read after that flush, and exactly what the file holds after a failed read or write; the count is that of the bytes received |
| Transfer.UploadMeaning | src/ftpdataio.c:721-760 | while data may still come the file holds all of the conversion but a CR at the very end |
| Transfer.LimitNeverFires | src/ftpdataio.c:734-744 | the guard on the size of an upload compares a truth value, and never fires |
| Transfer.UploadStep | src/ftpdataio.c:721-760 | one converted read keeps the file in step with what was received |
| Transfer.UploadEnd | src/ftpdataio.c:721-760 | the flush at the end of the data completes the whole-stream conversion |
| Transfer.CosDownload | src/cosswitch.cpp:515-549 | what is fetched is the next part of the file, clamped to its end; a failure means two failed calls |
| Transfer.FileSend | src/ftpdataio.c:548-643 | for every schedule of download sizes, chunk sizes and writes, with the bytes of the file from the restart offset on: in binary mode they are what is sent; in ASCII mode every LF sent has a CR before it, and storing what was sent gives what storing the bytes would; all of them on success unless the last call of the store delivered nothing; after a write that was not complete, exactly the conversion before it and the part of its own that got out; the count is that of the bytes sent, but for a write that broke off with an error, whose bytes are not counted; the ASCII buffer does not overflow |
| Transfer.CutShortMeaning | src/ftpdataio.c:615-640 | after an incomplete write what is out begins the conversion of the slice and all before it, and goes beyond that of what came before |
| Wildcard.GreedySound | src/ls.c:353-500 | an answer of 1 implies that the name matches the reference meaning of `*`, `?`, brace lists with every text between their commas, and an unterminated `{` |
| Wildcard.ExactIff | src/ls.c:353-500 | for every pattern without a brace list: the matcher agrees with the reference meaning on every name if and only if, after the first `*`, every segment is literal text, then `?`s, then `*` |
| Wildcard.GreedyExact | src/ls.c:353-500 | on those patterns, and on brace lists of them without an empty alternative, the answer is the reference meaning |
| Wildcard.AlternativesJoin | src/ls.c:443-463 | the alternatives of the reference meaning hold no comma, and with commas between them they are the list |
| Wildcard.TriedExact | src/ls.c:443-463 | the alternatives tried are those before the first empty one; they are all of them if and only if none is empty |
| Wildcard.LeadingCommaIsMissed | src/ls.c:443-463 | a brace list whose first alternative is empty is never matched, whatever the others are |
| Wildcard.EmptyAlternativeIsMissed | src/ls.c:443-463 | `{,w}` means `w` or nothing, and the matcher says no to both, for every literal `w` |
| Wildcard.Missed | src/ls.c:353-500 | every other pattern without a brace list has a name that it matches and the matcher misses |
| Wildcard.StarAlternative | src/ls.c:438-463 | with a brace list the shapes of the alternatives do not decide: an alternative `*` that is tried makes the answer exact whatever the others miss |
| Wildcard.LeftmostIsEnough | src/ls.c:406-437 | between two `*` the leftmost place of a literal followed by `?`s loses no match |
| Wildcard.GreedyMissesLaterMatch | src/ls.c:406-427 | the simplest such name: `*w` does not match `ww`, for every nonempty literal `w` |
| Wildcard.PassesFilter | src/ls.c:353-500 | terminates; one step of the shared budget of 1000 is used for each round of the loop, those of the alternatives tried included; the answer is 1 exactly when the rounds are fewer than what is left and the greedy match succeeds |
| Wildcard.PassesAny | src/ls.c:443-463 | the loop over a brace list succeeds exactly when some alternative does within the budget |
| Wildcard.RoundsBound | src/ls.c:378-385 | without a brace list the rounds are no more than the bytes of the pattern |
| Wildcard.BudgetExact | src/ls.c:378-385 | a pattern of `?`s is within the budget on a name that it matches if and only if there are fewer than 1000 of them |
| Path.SessionRealPath | src/postlogin.c:1704-1783 | terminates on every input; a relative name goes below the working directory with one slash between, an absolute one below the root, and without "/./" and "/../" in it that is the result; the result has neither and is the plain stack resolution of the texts between slashes, the empty ones included, saturating at the root, with its last component an ordinary name; only the slash after a last ".." is lost |
| Path.RealPath | src/postlogin.c:1759-1783 | the same for the text with its prefix in place |
| Path.ResolvedExact | src/postlogin.c:1765-1783 | the code computes the plain resolution if and only if the path does not end in a slash right after a "..", "." components skipped; otherwise exactly that slash is lost |
| Path.TrailingSlashIsLost | src/postlogin.c:1775-1779 | the smallest such path: "/a/../" becomes "" instead of "/" |
| Path.RemoveDots | src/postlogin.c:1759-1764 | replacing until the length stops changing removes every "/./" and keeps the resolution |
| Path.RemoveUps | src/postlogin.c:1765-1783 | cutting at the first "/../" until there is none keeps the resolution |
| Path.DotPass | src/postlogin.c:1759-1764 | one pass of left-to-right replacement keeps the resolution |
| Path.UpRewrite | src/postlogin.c:1765-1783 | cutting out one "/../" with the component before it keeps the resolution |
| Path.OccursIffInner | src/postlogin.c:1756-1783 | "/w/" occurs in a path exactly when `w` is an inner component |
| Path.Fixed | src/postlogin.c:1756-1783 | a path with neither pattern is its own resolution |
| Access.Confined | src/access.c:52-65 | confinement, for a path without two slashes in a row: the file system walk leads to a place under the user's root if and only if the check admits the path and it is not the root's own ".." |
| Access.ConfinedExact | src/access.c:52-65 | for every path: it leads under the root if and only if the check admits it with its needless slashes taken out, and that is not the root's own ".." |
| Access.RootsUpIsAdmitted | src/access.c:58-65 | the first wrong answer: ".." given in the root directory is admitted |
| Access.EmptyComponentIsTakenBack | src/access.c:52-65 | the second: for every root "//../x" resolves to the root's "x" and is admitted, but leads to the "x" beside the root, which is under the root only if it is the root itself |
| Access.PrefixIsParts | src/access.c:62-65 | comparing texts that end in a slash compares whole components, so a sibling whose name begins like the root is not admitted |
| Access.CheckFile | src/access.c:21-49 | a name is accepted if and only if nothing is denied, or the matcher does not pass it within its budget and it does not hold the denied text; a name that holds it is never accepted |
| Access.RefusedExact | src/access.c:21-49 | a refused name matches the denied pattern or holds its text; a name that holds it is refused; a pattern of the shape on which the matcher is exact refuses every name it matches within the budget, and without brace lists and below 1000 bytes every name it matches |
| Access.MatchingNameIsAccepted | src/access.c:21-49 | other patterns let matching names pass: with `*w` denied, `ww` is accepted, for every nonempty literal `w` |
| Access.SessionCheckFile | src/access.c:52-68 | accepts a name if and only if its resolved path passes the prefix test and the name is not denied; on a path without two slashes in a row an accepted name leads under the root exactly when it is not the root's own ".." |
| Access.UploadCheck | src/postlogin.c:1186-1225 | the path an upload creates is the root and an absolute name, or the working directory, a slash and a relative name; the path checked is that put under the root again; the created path leads under the root if and only if the check would admit it, without needless slashes, as it stands |
| Access.UploadBesideRoot | src/postlogin.c:1186-1225 | for every root the name "/../x" passes the upload check, and the path created is beside the root |
| Access.StaysUnder | src/postlogin.c:1186-1225 | a name without a ".." component stays under the root when the directory it is put in is there |
| Text.LocateText | src/str.c:488-513 | finds the first occurrence, or none exactly when there is none |
| Text.LocateTextReverse | src/str.c:515-546 | finds the last occurrence, or none exactly when there is none |
| Text.Split | src/str.c:406-437 | the text before and after the first occurrence; the whole text and nothing without one |
| Text.ReplaceText | src/str.c:349-371 | left-to-right, non-overlapping replacement of every occurrence |
| Text.ReplaceChar | src/str.c:336-347 | replaces exactly the bytes equal to the given one |
| Reply.WriteReply | src/ftpcmdio.c:117-147 | the line begins with the status and the separator, then has the text with byte 255 doubled and LF as NUL, and one LF, at its end; undoing the doubling and the NUL-to-LF map recovers the text, whatever it is |
| Reply.HandlePwd | src/postlogin.c:523-542 | the PWD reply has status 257 and one LF, at its end, and a client that undoes the escapes recovers what is shown: the working directory with every occurrence of the root's text taken out, or "/" when nothing is left |
| Reply.PwdExact | src/postlogin.c:523-542 | the client gets the part of the working directory below the root if and only if the root's text does not occur in that part and it has no NUL |
| Reply.BelowExact | src/sysstr.c:39-47 | taking the root's text out leaves the part below the root if and only if the text does not occur in that part |
| Reply.RootTwiceIsShownAsRoot | src/sysstr.c:39-47 | the simplest other case: in the directory that repeats the root below itself PWD shows "/" |
| Reply.ReplaceIsDouble | src/str.c:349-371 | replacing a byte by two of it doubles every one |
| Reply.ReadQuotedDouble | src/postlogin.c:535-540 | doubled quotes are read back, up to the closing quote |
| LineReader.NetfdAlloc | src/netstr.c:18-89 | for every sequence of peek lengths: a line is the bytes before the first terminator and is consumed with it and nothing more; -1 exactly when the first `maxlen` bytes have none; 0 exactly at the end of the stream before that |
| LineReader.AllocAltTerm | src/str.c:107-122 | the text before the first terminator in the buffer |
| LineReader.ControlGetline | src/ftpcmdio.c:218-247 | the line with NUL read as LF and trailing CRs removed; the stream goes on right after the terminator |
| LineReader.ReadCommands | src/ftpcmdio.c:218-247 | the commands read are the same for every way the bytes arrive |
| LineReader.SentCommandsArrive | src/ftpcmdio.c:218-247 | commands below the length limit, sent with LF as NUL and ended by CR LF, are the commands read if and only if none has a NUL or ends in CR |
| Throttle.RunBelowLimit | src/ftpdataio.c:249-294 | over any run of throttled calls the bytes moved are fewer than the limit plus one times the time gone by, although each rate is truncated |
| Throttle.CallBelowLimit | src/ftpdataio.c:271-293 | the same for one call |
| Throttle.BelowLimitExact | src/ftpdataio.c:271-293 | the bound holds for one call, whatever an out-of-range conversion gives, if and only if the quotient fits an unsigned int |
| Throttle.OutOfRangeBreaksLimit | src/ftpdataio.c:281-287 | otherwise it fails for every limit when the conversion gives a value within the limit |
| Throttle.MicrosecondBreaksLimit | src/ftpdataio.c:281-287 | a full buffer within a microsecond is such a call, and fails also when a pause is made |
| Throttle.Meter.HandleIo | src/ftpdataio.c:249-294 | the time mark after a call, with the pause that was taken |
| Throttle.TookExact | src/ftpdataio.c:271-293 | a call below the limit plus one is not held up; any other is held up, but for oversleep, until its rate is at least the limit and below the limit plus one, the time being taken for 0.01 when the clock did not advance |
| Throttle.Meter.HandleAll | src/ftpdataio.c:249-294 | a run of calls takes the sum of their times, and moves fewer bytes than the limit plus one times that |
| PassivePort.PortInRange | src/privops.c:135-154 | every draw gives a port of the effective range, and larger draws give no smaller ports |
| PassivePort.WholeRange | src/privops.c:135-154 | a range configured within bounds is used from its first to its last port |
| PassivePort.Low | src/privops.c:135-138 | the setting from 1025 to 65535, and 1024 otherwise |
| PassivePort.High | src/privops.c:139-142 | the setting from the lower bound to 65535, and 65535 otherwise |
| PassivePort.PortsEven | src/privops.c:148-154 | every port of the range is drawn, and any two are drawn equally often up to one draw |
| PassivePort.DrawsCount | src/privops.c:148-154 | the draws of a port are an interval, with its size |
| PassivePort.DrawsShare | src/privops.c:148-154 | their number is the average share, rounded down or up |
| Listing.TimeKeyOrder | src/ls.c:326-329 | time keys compare as the times do, if and only if the two times are not different ones before 1970, which compare the wrong way round |
| Listing.PadOrder | src/ls.c:326-329 | zero-padded numbers of one width compare as numbers |
| Listing.CompareMeaning | src/str.c:217-234 | the comparison is zero exactly for equal strings and changes sign with the order of its arguments |
| Listing.CompareIsOrder | src/str.c:217-234 | it is negative exactly when the first string begins the second or is smaller at the first difference, and is total and transitive |
| Listing.StrList.Add | src/strlist.c:72-107 | ends the process exactly when the list holds 8388608 entries; otherwise adds one at the end |
| Listing.StrList.Sort | src/strlist.c:109-123 | the list is a permutation of what it was, ordered by the chosen comparison, on top of a library sort that does both |
| Listing.TimeOrder | src/strlist.c:125-169 | sorting by time keys with the inverted reverse flag is a permutation of the entries; it is newest first, or oldest first with `-r`, if and only if no two of them have different times before 1970 |
| Listing.NameOrder | src/strlist.c:125-169 | without `-t` it is in the order of the names, or the other way round with `-r` |
| Listing.Lift | src/strlist.c:109-123 | a permutation of the nodes is a permutation of the entries |
| Listing.WriteDirList | src/ftpdataio.c:411-444 | the writes are the entries in order, in groups that fit the buffer or are a single entry and are as large as possible; a failed write is the last, and reported |
| Listing.SentAt | src/ftpdataio.c:424-441 | each write is one entry or at most 16384 bytes, with the next entry it would be more, and no write but the last failed |
| Listing.WritesAreList | src/ftpdataio.c:411-444 | the writes concatenate to the entries sent |
| Listing.WriteFits | src/ftpdataio.c:424-441 | every write fits the buffer or is one entry, and is not empty if no entry is |
| Listing.ListDirectory | src/ls.c:316-344 | the result is 1 exactly when the last write failed; without that every entry is sent exactly once, with `-t` in the order of time if and only if no two times before 1970 differ, without it in the order of names; with a write error, the entries up to it; each write is nonempty and fits the buffer or is one entry |

## Left out

- The COS SDK, curl and JSON wrappers, OpenSSL and the system-call wrappers: calls into code outside the repository's logic; only their results appear, as parameters.
- `src/ptracesandbox.c`, `src/ftppolicy.c`, configuration, banners, features and options: tables and fixed text that would only add easy members.
- `src/ipaddrparse.c` and the text parsing of PORT, EPRT and EPSV arguments: `Session` starts from what they parsed to.
- `src/encode.cpp`, login, credentials and chroot: heuristics and policy without a crisp specification.
- The HTTP mode of the server, and code under `#if 0`.
- Allocation and capacity accounting of the string type in `src/str.c`: strings are values; only the buffer of the TLS slave keeps its capacity.
- Signal delivery inside a running step: the reap handler runs at the accept points of the listener (`src/sysutil.c:1765`). A reap during the close at `src/standalone.c:174`, between the fork and the table insert, is assumed not to happen.
- Connections whose close fails and is retried (`src/ftpdataio.c:92-98`) count as closed once.
- A control reply that cannot be written ends the process at once; runs in `Session` end earlier then, and what holds before still holds.
- Session.Control.PasvListen: the listener of the two-process model lives in the parent; `Session` keeps it as one field, and `PrivSock` proves that the session process is right about it.
- Session.Control.HandlePort: takes the parsed address as given.
- Session.Control.GetFtpPortSock: the second try of a bind and its sleep are one answer of the world.
- Wildcard.GreedyExact: with brace lists the condition is only sufficient; one alternative may match what another misses, as in `{*a,*}` (`Wildcard.StarAlternative`), so exactness is then a question of inclusion between the alternatives and not of their shape.
- Access.SessionCheckFile: the comparison of the source stops at a NUL byte, which names and the configured root do not hold; where a path leads is stated for a root that is absolute and written without ".", ".." or needless slashes, as the settings that make it up (`src/ls.c:630-646`) give it when the home directory is so written and the other two are names; symbolic links are not modelled.
- Reply.PwdExact: the root is neither empty nor "/"; the one the source builds has three parts (`src/ls.c:630-646`).
- Wildcard.PassesFilter: a NUL byte in the pattern is not modelled; the command reader has replaced it before.
- PrivSock.EverySchedule: assumes that control replies and single listing entries are within the string limit, that requests come in the order the session keeps (proved in `Session`), and that neither process dies between messages.
- PrivSock.ParentUnderstands: the login exchange before the session starts is not part of this model.
- Throttle.RunBelowLimit: times are reals; the clock advances between calls, sleeps are not cut short, and quotients fit an unsigned int.
- Transfer.FileSend: the download buffer is a value; the ASCII buffer is an array.
- Transfer.FileRecv: once a read has reported the end of the data, a later one reports the end again or fails.
- Listing.StrList.Sort: the library sort is assumed to permute and to order by the comparison it is given; `Listing.CompareIsOrder` proves that the comparison is one to sort by.
- Listing.ListDirectory: which entries the store lists, and the text of their lines, are parameters.
- HashTable.Table.constructor: the trap for a hash outside the buckets is a precondition, as both hash functions reduce by the bucket count.
