# XChain desktop shell: verified models

Dafny models of the logic the desktop shell and the web build keep apart from
Electron and from the file system, with proofs of what that logic promises.
`dafny verify dfyconfig.toml` checks everything.

Where the original updates state in place (socket handlers, registries, the
runtime object, module variables, loops over text) the model is a class or a
method with loop invariants, proved against a function on values. Asynchronous
code is cut at its awaits: each segment is one step, every file or session
operation may be refused, and the properties are about every sequence of steps.

| file | models |
|---|---|
| `Socks.dfy` | the SOCKS5 client handshake over arbitrarily chunked bytes, against RFC 1928 sections 3, 4 and 6 |
| `ColorMix.dfy`, `ColorMixTree.dfy`, `ColorMixBalance.dfy`, `ColorMixParse.dfy`, `ColorMixOperand.dfy` | the `color-mix()` rewriter, against a tree of values of any depth |
| `SignerRegistry.dfy`, `SignerEffects.dfy` | the hardware-signer registry shared by renderer documents |
| `LockLifecycle.dfy`, `LockEffects.dfy` | locking and unlocking over launches, quits and crashes, with the two files that outlive the process |
| `TorRouting.dfy`, `TorEffects.dfy` | moving three egress paths and a changing set of sessions together |
| `TrezorBridge.dfy`, `TrezorEffects.dfy` | the request and reply relay to bridge windows that may close at any point |
| `Manifest.dfy`, `ManifestReading.dfy`, `ChannelPointer.dfy`, `PointerReading.dfy`, `UpdateVerify.dfy`, `VerifyReading.dfy`, `UpdateGate.dfy`, `UpdateEffects.dfy` | the two update documents, the verification chain, and when an install may run |
| `SidecarStrip.dfy`, `SidecarShape.dfy` | cutting one block out of source text, against a character-by-character lexer |
| `BundleGraph.dfy` | the initial-bundle traversal |
| `WindowBounds.dfy`, `WindowPlacement.dfy` | restoring and cascading window rectangles |
| `SignIn.dfy`, `SignInText.dfy` | formatting and parsing sign-in challenges |
| `Text.dfy`, `Wrappers.dfy` | JavaScript string operations; Option and Result |

The transition and reading functions are the specifications the methods are
proved against, so what each of them answers is stated once more without its
name: in literals, as exact conditions on the inputs, in the files named
`...Effects`, `...Reading`, `...Operand`, `...Shape`, `...Placement` and
`...Text`.

Results that differ from what the code's comments or the obvious reading
promise, each with its exact condition and an input that shows it:

- "Not routed means direct" fails for a session created during the awaits of an
  off apply (`TorRouting.OffRestores`, `TorRouting.SlippedSessionStaysProxied`).
- A cascaded window does exactly cover the existing one when that one fills the
  bottom right corner of its display (`WindowBounds.CascadeCoversIff`,
  `WindowBounds.FullDisplayIsCovered`).
- A sign-in field that ends in a space and a bar passes the format check and is
  not read back (`SignIn.RoundTrip`, `SignIn.TrailingBarIsLost`).
- A lock whose key file could not be removed can be undone without a password:
  in general exactly when the file is still there
  (`LockLifecycle.ForGoodIffKeyGone`), by a launch that cannot read the keychain
  (`LockLifecycle.ReopeningRunReopens`); and with a readable keychain by the very
  next launch exactly when the clock then reads inside the kept record's window
  (`LockLifecycle.KeptLockReopensIff`, `LockLifecycle.ClockSetBackReopens`).
- Cutting the loader can join a slash before it to one after it into a comment
  opener (`SidecarStrip.CutKeepsLexing`). No slash stands directly before an
  `if` statement, so in a module a parser accepts this takes a regular-expression
  literal that reads like the loader (`SidecarStrip.RegexLiteralJoins`).

The straight-line handlers of the classes repeat one branch of their step
function each and have no row of their own; the rows are the handlers with a
loop or an argument of their own and the properties of the step functions.

## Model

| member | source | states |
|---|---|---|
| Socks.Converse | packages/desktop/main/socksAgent.js:129-225 | for every proxy stream and every cut of it into non-empty chunks: the outcome is the one-shot reading's, the request is written once and only after an accepted greeting, and the bytes put back plus all later chunks are the stream after the two replies |
| Socks.JudgeStable | packages/desktop/main/socksAgent.js:142-154 | once decided, no further byte changes the outcome or what was written |
| Socks.AcceptIsGrammar | packages/desktop/main/socksAgent.js:166-208 | a stream connects if and only if it starts with a method selection and a succeeded reply as RFC 1928 writes them, for any address type, and exactly those bytes are consumed |
| Socks.WaitsOnlyForHope | packages/desktop/main/socksAgent.js:174-212 | the parser waits if and only if some continuation of the stream would be accepted |
| Socks.RequestDecodes | packages/desktop/main/socksAgent.js:188-194 | a server that insists on the reserved zero byte reads back exactly the host, and the port exactly when it is within 0..65535 |
| Socks.WritesAre | packages/desktop/main/socksAgent.js:190-215 | every byte ever written: the greeting 05 01 00, and after an accepted greeting the request 05 01 00 03, the length, the name and the port, high byte first |
| Socks.RejectsFor | packages/desktop/main/socksAgent.js:176-206 | each refusal happens exactly for its own bytes of the stream, a refusal by the proxy with the code it sent |
| Socks.Handshake.OnData | packages/desktop/main/socksAgent.js:174-197 | after any chunk the outcome, the writes and the bytes put back are those of all bytes heard so far |
| Socks.Handshake.OnReply | packages/desktop/main/socksAgent.js:198-212 | the reply half, on the bytes after the greeting |
| Socks.Handshake.OnTransport | packages/desktop/main/socksAgent.js:155-159 | a timeout, error or disconnect decides only what was not yet decided |
| Socks.Handshake.Arrive | packages/desktop/main/socksAgent.js:209-210 | a chunk after the decision reaches the tunnelled protocol, not the parser |
| ColorMix.SplitTopLevel | packages/web/cssFallbacks.js:30-46 | the loop cuts at exactly the separators outside every parenthesis |
| ColorMix.ParseOperand | packages/web/cssFallbacks.js:55-65 | the first percentage is the share, all other tokens the colour, in order |
| ColorMix.DominantOperand | packages/web/cssFallbacks.js:78-131 | where no theme token stands for the mix, a colour beside `transparent` included, the second operand wins exactly when its share is larger, or the one stated share puts it above a half |
| ColorMix.TranslucentTakesToken | packages/web/cssFallbacks.js:67-86 | a themed colour mixed with transparent becomes its token on either side, whatever the percentages |
| ColorMix.TokenOfVar | packages/web/cssFallbacks.js:74-76 | a `var()` colour names its custom property, with or without a fallback value |
| ColorMixOperand.ThemeTokens | packages/web/cssFallbacks.js:67-72 | the four themed properties with their tokens, and no others |
| ColorMixOperand.TokenNameIff | packages/web/cssFallbacks.js:74-76 | a colour names a property exactly when it opens with `var(`, white space and that property in full |
| ColorMixOperand.ReadsAsWritten | packages/web/cssFallbacks.js:55-65 | words, gaps and a percentage in any place: the colour is the other words one space apart, the share that percentage |
| ColorMixOperand.FractionPercent | packages/web/cssFallbacks.js:60-61 | a percentage with a dot is its whole part and its decimal places, with either sign |
| ColorMixOperand.MixFlattens | packages/web/cssFallbacks.js:111-134 | a mix of two arguments without mixes becomes what the fallback selects, whatever follows it |
| ColorMix.ScanMix | packages/web/cssFallbacks.js:112-118 | the scan stops just past the matching parenthesis, and at the end exactly when there is none |
| ColorMix.FlattenColorMix | packages/web/cssFallbacks.js:101-137 | the loop replaces every mix from the left, and terminates |
| ColorMix.ReplaceMix | packages/web/cssFallbacks.js:111-134 | one round rewrites one mix, inner mixes first, and leaves a mix of other arity as written |
| ColorMixTree.FlattenIsCollapse | packages/web/cssFallbacks.js:101-137 | flattening the text of any well-formed value tree is printing the tree with each three-argument mix replaced inside-out |
| ColorMixParse.BalancedValues | packages/web/cssFallbacks.js:101-137 | every balanced text is the print of such a tree, so the above covers every balanced value; the result is balanced |
| ColorMixBalance.FlattenKeepsDepth | packages/web/cssFallbacks.js:101-137 | for every text, balanced or not, and every starting depth, flattening keeps the parenthesis depth reached |
| SignerRegistry.RunConsistent | packages/desktop/main/signerBridgeListener.js:101-214 | over every run: the owner map is exactly the inverse of the live entries' ids, every owned id and no other is routed to its owner's document, and no sender exceeds its quota |
| SignerRegistry.OwnedIdsDisjoint | packages/desktop/main/signerBridgeListener.js:169-175 | no id is held by two senders |
| SignerRegistry.NoInterference | packages/desktop/main/signerBridgeListener.js:147-207 | one sender's message or teardown leaves the owner, the transport and the entry of every id another sender holds as they were |
| SignerRegistry.RegisterRoutes | packages/desktop/main/signerBridgeListener.js:149-179 | after a register an id is routed to the sender if and only if it held it before, or the message was admitted and no live sender holds it |
| SignerRegistry.ReRegisterIsFree | packages/desktop/main/signerBridgeListener.js:154-168 | ids already owned cost no quota and registering them changes nothing |
| SignerEffects.RegisterEffect | packages/desktop/main/signerBridgeListener.js:149-179 | for every id: routed if it was, or if the message fits both limits and names it; the sender then owns and answers for exactly what it owned and the named ids no other sender holds |
| SignerEffects.UnregisterEffect | packages/desktop/main/signerBridgeListener.js:180-187 | for every id: routed exactly if it was and is not one the sender owned and named; the sender keeps exactly its other ids |
| SignerEffects.EndEffect | packages/desktop/main/signerBridgeListener.js:190-207 | the end of a live document takes away exactly its routes and ids; the end of an earlier document changes nothing |
| SignerEffects.IgnoredMessages | packages/desktop/main/signerBridgeListener.js:108-113 | a message while detached, from an untrusted sender, or with an id that has not 1 to 256 characters changes nothing |
| SignerRegistry.EndedStaysGone | packages/desktop/main/signerBridgeListener.js:190-207 | an ended document has no entry and no transport, in every continuation |
| SignerRegistry.Listener.OnIpc | packages/desktop/main/signerBridgeListener.js:108-122 | an untrusted or malformed message changes nothing; any other acts for its sender only |
| SignerRegistry.Listener.RegisterIds | packages/desktop/main/signerBridgeListener.js:149-179 | a message is taken whole or not at all, except ids another live sender holds |
| SignerRegistry.Listener.CountAdds | packages/desktop/main/signerBridgeListener.js:159-167 | the quota counts exactly the distinct ids the message would add |
| SignerRegistry.Listener.UnregisterIds | packages/desktop/main/signerBridgeListener.js:180-187 | only ids the sender owns are dropped, from all three maps |
| SignerRegistry.Listener.TearDown | packages/desktop/main/signerBridgeListener.js:190-207 | runs once per document and removes all it held |
| SignerRegistry.Listener.Detach | packages/desktop/main/signerBridgeListener.js:216-224 | ends every entry and leaves no owner and no transport of theirs |
| LockLifecycle.LaunchOpensIff | packages/desktop/main/runtime.js:246-292 | a launch opens the vault from the cached key if and only if the key is there, readable and right, and the record says Never or is within its window |
| LockEffects.IdleCheckLocksIff | packages/desktop/main/runtime.js:329-342 | the windowless idle check drops an open host if and only if the stored record is armed with a window and a stamp, and the window has passed or the clock ran back more than five minutes |
| LockEffects.AutoLocksIff | packages/desktop/main/runtime.js:246-400 | exactly which launches, checks, OS events and reports lock, in terms of the files, the clock and the refusals |
| LockEffects.WalletLockEffect | packages/extension/src/background/walletLock.js:67-112 | an explicit lock drops the host and revokes the key in every case; the record goes, and the cleanup is done, exactly when every secret was cleared |
| LockEffects.ReportEffect | packages/desktop/main/autoLockState.js:170-190 | the record every report leaves, and exactly when an arm that could not be stored locks instead |
| LockLifecycle.AutoLockShutsProcess | packages/desktop/main/runtime.js:374-389 | every auto-lock, and a refused arm, revokes the key and drops the host whatever unlinks are refused |
| LockLifecycle.ShutUntilUnlock | packages/desktop/main/runtime.js:780-903 | within a process, from an auto-lock until the next password unlock no vault-backed message reaches a host and no status reports a session, whichever clears are refused |
| LockLifecycle.PendingRun | packages/desktop/main/runtime.js:374-400 | over every run of launches, quits and messages, an owed cleanup means a running process without a host |
| LockLifecycle.DebtStands | packages/desktop/main/runtime.js:374-389 | until a password unlock, a clear that goes through or the end of the process, every run keeps the cleanup owed, serves no vault-backed message, and leaves the record as it is or wiped, so no report can put one on disk |
| LockLifecycle.LockedStaysLocked | packages/desktop/main/runtime.js:246-340 | over every run of launches, quits, crashes and messages with any refusals: after the launch gate or the idle check has locked (`LockEffects.AutoLocksIff` says exactly when), nothing opens the vault from the cached key until a password unlock, given a clock that does not run back and, from the lock on, a readable keychain at each launch that finds a key file |
| LockLifecycle.ForGoodIffKeyGone | packages/desktop/main/runtime.js:252-258 | whatever the clock and the keychain do, a shell with nothing in memory stays shut in every continuation without a password unlock if and only if there is no key file |
| LockLifecycle.ReopeningRunReopens | packages/desktop/main/autoLockState.js:170-175 | the run that reopens a key left behind: a launch that cannot read it accepts a disarm, and the next launch opens |
| LockLifecycle.KeptLockReopensIff | packages/desktop/main/runtime.js:246-292 | with a readable keychain, a launch that locked and could remove nothing is undone by a later launch if and only if the clock then reads inside the kept record's window, which takes a clock that ran back or a record stamped ahead of it |
| LockLifecycle.ClockSetBackReopens | packages/desktop/main/runtime.js:274-291 | the concrete run: a ten-minute record, locked 100 seconds late, opens after the clock is set back 200 seconds |
| LockLifecycle.StampAheadReopens | packages/extension/src/background/autoLockState.js:223-233 | a record stamped ahead of the clock locks the launch and, if nothing could be removed, opens once the clock has caught up |
| LockLifecycle.SystemLockAcrossQuit | packages/desktop/main/runtime.js:363-389 | an OS-event lock with an undeletable key holds for the process, and a relaunch opens exactly within the record's window |
| LockLifecycle.Runtime.ClearSession | packages/desktop/main/keychain.js:171-192 | revoked first; both unlinks tried; throws exactly when one was refused |
| LockLifecycle.Runtime.EnforceLaunchAutoLock | packages/desktop/main/runtime.js:246-292 | locks exactly when there is a key and no in-window or Never record |
| LockLifecycle.Runtime.HandleVaultMessage | packages/desktop/main/runtime.js:826-903 | served exactly when a host is or can be opened and no cleanup is owed |
| LockLifecycle.Runtime.HandleStatus | packages/desktop/main/runtime.js:883-892 | reports no session while a cleanup is owed |
| LockLifecycle.Runtime.WipeRuntimeStores | packages/desktop/main/runtime.js:712-763 | every store is tried in order and named as cleared or refused; a meta that will not go stops the wipe with all others untouched |
| LockEffects.NamedInOrder | packages/desktop/main/runtime.js:731-756 | what a wipe reports are the refused, or the cleared, of the seven stores in the order it takes them |
| TorRouting.AppliedMeansEverywhere | packages/desktop/main/torRouting.js:130-201 | over every run: with no apply in progress and the toggle applied, pool, dispatcher and every session use exactly the applied proxy, whatever was refused before and whenever sessions were created |
| TorEffects.NoRefusalFailsOpen | packages/desktop/main/torRouting.js:173-195 | from the end of a probe until the next off begins or the next probe ends, whatever is refused, the SDK pool and the global dispatcher stay on that probe's proxy |
| TorEffects.PoolAndDispatcher | packages/desktop/main/torRouting.js:133-178 | no step moves the pool or the dispatcher but the end of a probe, to its proxy, and the begin of an off, back to what they were |
| TorEffects.SessionRoutes | packages/desktop/main/torRouting.js:92-104 | a session's route changes only by its own `setProxy`, to what the apply asked for if it was accepted; a new session starts on the routing in force |
| TorEffects.EverySessionTried | packages/desktop/main/torRouting.js:118-128 | one refusal skips no session: each that an apply listed is tried before it ends |
| TorRouting.NotRoutedMeansDirect | packages/desktop/main/torRouting.js:106-112 | `routed` false means all three paths are direct, over every run in which no session is created during an off apply that still has the proxy applied |
| TorRouting.OffRestores | packages/desktop/main/torRouting.js:133-152 | from any reachable state one off restores the original dispatcher and a null pool; `routed` clears if and only if no session refused; then all is direct if and only if nothing was applied at its start or no session was created meanwhile |
| TorRouting.SlippedSessionStaysProxied | packages/desktop/main/torRouting.js:141-147 | the concrete run: the session created meanwhile keeps the proxy, and the next off does nothing |
| TorRouting.LastToggleWins | packages/desktop/main/torRouting.js:74-81 | when all is quiet the routing is the newest toggle's, never an older one's; exactly it unless a session refused |
| TorEffects.InOrder | packages/desktop/main/torRouting.js:74-81 | toggles take their turns in the order given and none is lost, over every run |
| TrezorBridge.SettledOnce | packages/desktop/main/trezorBridgeWindow.js:185-214 | over every run each issued request is waiting on its window or settled, never both; a step settles only by a valid reply from that window, its close or a failed send; an answer never changes |
| TrezorEffects.AnswerEffect | packages/desktop/main/trezorBridgeWindow.js:185-214 | a call resolves exactly by a valid reply to it, its window's close or a failed send, to the reply's own result or error text or to the refusal for a closed bridge |
| TrezorEffects.ReplyValidIff | packages/desktop/main/trezorBridgeWindow.js:114-121 | the replies accepted: a request's number and either a result without an error or an error text of 1 to 2000 characters without a result |
| TrezorEffects.NobodyWaitsOnClosed | packages/desktop/main/trezorBridgeWindow.js:232-268 | over every run a closed window's opening has failed or has an answer to go on with, so no caller is left waiting on it |
| TrezorBridge.NothingOutlivesItsWindow | packages/desktop/main/trezorBridgeWindow.js:232-239 | after a window's closed step nothing is pending on it, in every continuation |
| TrezorBridge.StaleWindowIsHarmless | packages/desktop/main/trezorBridgeWindow.js:208-239 | whatever a window that is no longer current does, the current window, its readiness and all requests on other windows are unchanged |
| TrezorBridge.InitializedMeansAnswered | packages/desktop/main/trezorBridgeWindow.js:253-268 | a window counts as initialised only after a request sent to it was answered with a result |
| TrezorBridge.ReplyIdsAreRequestNumbers | packages/desktop/main/trezorBridgeWindow.js:81 | the reply-id pattern accepts exactly the canonical numerals of requests 1 to 10^15 - 1 |
| TrezorBridge.TrezorRelay.SettleWindow | packages/desktop/main/trezorBridgeWindow.js:185-191 | settles exactly the requests waiting on the window |
| Manifest.ParseManifest | packages/desktop/main/updateVerify.js:190-223 | the loop reads every line; one malformed line, a missing version, no artifact or a wrong count refuses |
| Manifest.EntriesAreLines | packages/desktop/main/updateVerify.js:204-210 | every entry stands on a hash line at that hash, and every hash line's name is an entry |
| ManifestReading.HashLineIff | packages/desktop/main/updateVerify.js:118 | a hash line is 64 hexadecimal digits of any case, two spaces and a name, and nothing else |
| ManifestReading.MalformedIff | packages/desktop/main/updateVerify.js:195-209 | a line is fatal exactly when it is neither blank, nor a comment, nor a hash line |
| ManifestReading.ParsedCases | packages/desktop/main/updateVerify.js:190-223 | which text is refused for which reason, and that any other is accepted with what its lines say |
| Manifest.ParsesWhatWasWritten | tools/release/lib.sh:501-550 | any header and hash lines as the writer prints them, with either line ending, parse to exactly their contents |
| Manifest.RoundTrip | packages/desktop/main/updateVerify.js:190-223 | a header with a version and the right count, over distinct names, comes back whole |
| Manifest.DroppedLinesAreRefused | packages/desktop/main/updateVerify.js:215-221 | dropping any non-empty set of hash lines makes the manifest refused |
| ChannelPointer.ParseChannelPointer | packages/desktop/main/updateVerify.js:327-368 | the loop over the lines, with a nested hash belonging to the last listed file |
| ChannelPointer.FilesAreTheNamedLines | packages/desktop/main/updateVerify.js:342-357 | the files are exactly the names on `url:` and `path:` lines |
| PointerReading.UrlLineReads | packages/desktop/main/updateVerify.js:342-347 | a listed file's name is read with any white space and with or without quotes around it |
| PointerReading.NestedHashIsItsFiles | packages/desktop/main/updateVerify.js:342-349 | the indented hashes behind a listed file are that file's, the last one counting, and no other's |
| PointerReading.OlderPair | packages/desktop/main/updateVerify.js:351-362 | the older pair adds a file only under a name the list does not have, and fills in the last file's hash only if it has none |
| ChannelPointer.PointerRoundTrip | packages/desktop/main/updateVerify.js:319-368 | the text written for a version and files with hashes, with either line ending, parses to exactly those |
| UpdateVerify.ReleaseTagAnswers | packages/desktop/main/updateVerify.js:251-253 | a header tag answers a wanted tag if and only if it is that tag or that tag with `-resign` and digits, and never the other way round |
| VerifyReading.TagAnswersIff | packages/desktop/main/updateVerify.js:549-553 | a header answers exactly for its tag and, if that ends in `-resign` and digits, for the tag without them; one without a tag only for `undefined` |
| VerifyReading.LaneAnswersIff | packages/desktop/main/updateVerify.js:566-577 | a manifest that names lanes speaks exactly for the words among them |
| VerifyReading.WantedVersionOf | packages/desktop/main/updateVerify.js:405 | the version wanted of the pointer is the tag without white space and one leading `v` |
| VerifyReading.Sha512Forms | packages/desktop/main/updateVerify.js:450-458 | 128 hexadecimal digits of any case are themselves in small letters; any other text is read as base64 |
| UpdateVerify.FileNamedIsFirst | packages/desktop/main/updateVerify.js:414-418 | the file whose hash is checked is the first that bears the artifact's name |
| UpdateVerify.VerifyChannelPointer | packages/desktop/main/updateVerify.js:395-443 | every listed file is checked for coverage |
| UpdateVerify.AcceptedMeansSigned | packages/desktop/main/updateVerify.js:476-594 | an accepted update has a signed manifest for its release, lane and an enforced gate, whose text has a hash line with the file's name and SHA-256, and every name on any `url:` or `path:` line of the pointer stands on a hash line |
| UpdateVerify.AcceptedIff | packages/desktop/main/updateVerify.js:476-594 | accepted if and only if all checks hold, independent of their order |
| UpdateGate.InstallsOnlyVerified | packages/desktop/main/updater.js:644-650 | in every interleaving quitAndInstall runs if and only if a restart is allowed and some step verified with no preparation started since, on inputs all gathered in that attempt |
| UpdateGate.PreparedIffLatestVerified | packages/desktop/main/updater.js:665-715 | the restart path is open exactly when the latest preparation verified |
| UpdateEffects.WholeAttemptEnds | packages/desktop/main/updater.js:665-735 | a preparation whose awaits are all answered opens the restart path exactly when the gate accepts the evidence its own steps gathered, and otherwise deletes the file |
| UpdateEffects.TagIsVersion | packages/desktop/main/updater.js:680 | the tag is the version with one leading `v`, and the version checked against the pointer is the one without it |
| UpdateGate.RefusedIsRemoved | packages/desktop/main/updater.js:716-735 | a preparation that ended refused has asked to delete its file and is not ready |
| SidecarStrip.MatchDelimiter | packages/web/regtestSidecar.js:122-157 | the index just past the first character at which the lexer's bracket depth is back at zero, and -1 exactly when there is none |
| SidecarShape.StringPassed | packages/web/regtestSidecar.js:139-146 | a string in any of the three quotes, with escapes, is passed over whole |
| SidecarStrip.RemoveSidecarLoader | packages/web/regtestSidecar.js:170-194 | cuts exactly the first loader block of the known shape, or changes nothing because no such block exists |
| SidecarShape.LoaderIff | packages/web/regtestSidecar.js:80 | the loader's first line, character by character, with white space where the pattern allows it |
| SidecarShape.ElsePrecedesIff | packages/web/regtestSidecar.js:188 | an `else` before the loader: the word on its own and white space |
| SidecarStrip.CutKeepsLexing | packages/web/regtestSidecar.js:159-194 | where the loader stands in code, everything after the cut is lexed as before, if and only if the cut does not join a slash and a slash or star |
| SidecarStrip.RegexLiteralJoins | packages/web/regtestSidecar.js:170-194 | the concrete module: a regular-expression literal that reads like the loader is cut, and the two slashes left make a line comment |
| BundleGraph.Traversal.Visit | packages/web/bundleBudget.js:40-48 | all that is added is reachable and has its imports seen; terminates on cycles and on missing or external targets |
| BundleGraph.ClosedIsReachSet | packages/web/bundleBudget.js:40-49 | a set of reachable chunks closed under imports is exactly the reachable set |
| BundleGraph.ReachSetIsLeast | packages/web/bundleBudget.js:40-49 | the reachable chunks are the least set with the entry and, with a chunk, every chunk that one imports |
| BundleGraph.TotalAdds | packages/web/bundleBudget.js:51-61 | totals of sets without a file in common add up |
| BundleGraph.SumSizes | packages/web/bundleBudget.js:51-61 | each file is counted once, in any order |
| BundleGraph.InitialBundleSizes | packages/web/bundleBudget.js:30-64 | the totals of exactly the reachable chunks and their stylesheets; an error if and only if there is no entry, or for a stylesheet that is no asset |
| BundleGraph.ImportOrderDoesNotMatter | packages/web/bundleBudget.js:44-61 | reordering or repeating imports changes no reachable chunk, stylesheet or total |
| WindowBounds.PlacedInsideOneArea | packages/desktop/main/windowBounds.js:66-103 | a position given lies wholly inside one work area at the saved size cut to it; one without the saved origin is where most of the window was visible |
| WindowPlacement.FitIsNearest | packages/desktop/main/windowBounds.js:76-84 | a fitted window is cut to the area and lies at the nearest position to the saved one that is inside it |
| WindowPlacement.UsefulIff | packages/desktop/main/windowBounds.js:134-146 | enough of a window shows exactly when 64 pixels of it do either way |
| WindowPlacement.RoundsHalfUp | packages/desktop/main/windowBounds.js:21 | a number is rounded to the nearest integer, up from halfway |
| WindowBounds.BestVisibleDisplay | packages/desktop/main/windowBounds.js:153-159 | the reduction, where a tie keeps the earlier display |
| WindowBounds.BestVisibleIsBest | packages/desktop/main/windowBounds.js:153-159 | no display shows more of the window |
| WindowPlacement.BestVisibleIsFirst | packages/desktop/main/windowBounds.js:153-159 | of displays that show equally much the first is taken |
| WindowBounds.LargestDisplayArea | packages/desktop/main/windowBounds.js:161-165 | the reduction, where a tie keeps the earlier display |
| WindowBounds.LargestIsIn | packages/desktop/main/windowBounds.js:161-165 | no display is larger |
| WindowBounds.RestoringTwice | packages/desktop/main/windowBounds.js:45-103 | on displays that do not overlap a restored position is restored again if and only if its display has the minimum window size |
| WindowBounds.CascadedInsideOneArea | packages/desktop/main/windowBounds.js:114-122 | a cascaded position lies wholly inside one work area |
| WindowBounds.CascadeCoversIff | packages/desktop/main/windowBounds.js:105-122 | on displays that do not overlap for any offset up to 296 the cascaded window exactly covers the existing one if and only if that one has the minimum size and fills its display's bottom right corner |
| WindowBounds.FullDisplayIsCovered | packages/desktop/main/windowBounds.js:114-122 | the concrete case: a window that fills a 1280 by 800 display is cascaded onto itself |
| SignIn.FormatsIff | packages/bridge-spec/src/runtime.js:317-340 | formatting succeeds exactly on version 2 with the separator in no field |
| SignInText.FormattedText | packages/bridge-spec/src/runtime.js:341-343 | the signed text, written out |
| SignInText.ParsedIsWritten | packages/bridge-spec/src/runtime.js:350-369 | whatever parses is the prefix, the four fields and two numbers with the separator between them |
| SignIn.SplitJoin | packages/bridge-spec/src/runtime.js:341-351 | splitting what was joined gives the fields back if none but the last ends in a space and a bar, and otherwise loses such a field |
| SignIn.RoundTrip | packages/bridge-spec/src/runtime.js:317-369 | a formatted challenge parses back to itself if and only if appId, origin, address and nonce do not end in a space and a bar |
| SignIn.TrailingBarIsLost | packages/bridge-spec/src/runtime.js:331-340 | the concrete challenge: an appId of `a`, a space and a bar is formatted and not read back |

## Left out

- Sockets, TLS, HTTP, OpenPGP, SHA-2, safeStorage and the file system: they appear as events that may fail and as uninterpreted functions (`UpdateVerify.Outside`).
- Electron wiring, menus, tray, renderer messaging and React components: event plumbing.
- Socks: when the put-back bytes re-enter the socket relative to the caller's readers, and the network guard's refusal before connecting; the socket is taken never to deliver an empty chunk. `parseSocksAddress` and the agents are not modelled.
- ColorMix: percentages are exact rationals, not doubles; the PostCSS plugin around the rewriter.
- SignerRegistry: what the response correlator does with a response; a listener that throws is swallowed in the original and cannot happen here.
- LockLifecycle: handlers are atomic, so the activity stamp that the original does not await, and a lock that lands inside `ensureHost`, are not interleaved with other handlers; whether the keychain can be used is constant within one process. The key's bytes, the other secrets and the watchers are not modelled.
- LockLifecycle.LockedStaysLocked: asks that the clock does not run back and that, from the lock on, a launch that finds a key file can read it; `LockLifecycle.ForGoodIffKeyGone` and `LockLifecycle.KeptLockReopensIff` say what happens without.
- LockLifecycle: `shouldAutoLock`, `hasSessionKey` and `wallet.lock` follow `packages/extension/src/background/autoLockState.js`, `sessionMeta.js` and `walletLock.js`, including the clock-rollback rule; an injected session backend that refuses without revoking is not modelled.
- TorRouting.TorRouter.CreateSession: a new session's own first `setProxy` takes effect at once and is not refused, nor still in flight when an apply reaches it.
- TorRouting: a `setPool` or `setGlobalDispatcher` that throws, and `readTorSettings`.
- TrezorBridge: which call waits for which opening (a post to the current window is allowed at any step, which includes those runs); `isValidBridgeCall`, window options and showing the window.
- TrezorBridge.TrezorRelay.AfterRejected: the window of a failed opening is asked to close, and its destruction is a separate event.
- TrezorBridge.TrezorRelay.Post: more than 10^15 - 1 requests in one process would get ids the reply pattern refuses.
- Manifest: header keys that are properties of every JavaScript object; `Number()` is a parameter that reads decimals.
- ChannelPointer.PointerRoundTrip: for text without white space and quotes, as electron-builder writes it.
- UpdateVerify: lane and pointer names from the platform, capped body reads, and the Android lane's own caller; base names follow the POSIX rule.
- UpdateGate: a deletion that fails, and bytes that electron-updater swaps after the verdict.
- SidecarStrip: regular-expression literals and template substitutions, which the original's matcher does not read either; the config-property and comment-line patterns.
- BundleGraph: a chunk is identified by its key in the bundle, as Rollup keeps it; byte lengths of code and sources are given.
- WindowBounds: doubles beyond the range of exact integers, and the store's write ordering.
- WindowBounds.RestoringTwice: mirrored or overlapping displays, where the first area that holds the origin may be another one.
- SignIn.RoundTrip: for integer times; fields are strings, as the type declaration says. `validateSignInChallenge` is a chain of independent comparisons.
- JavaScript strings are UTF-16 and the loops here run over Dafny characters; no compared character is affected.
- The CSS and JSX audits, subresource integrity, the glossary tool, panic mode, the quit guard, semver matching and deep links: small or made of patterns that are their own meaning.
