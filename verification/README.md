# A verified model of the agent orchestrator

The orchestrator installs OpsRamp agents over SSH, manages OpAMP agents (their config and packages), and watches an
inventory for drift. This project states in Dafny what the difficult parts of it compute and proves properties of them
that hold over every input, every run and every interleaving. `dafny verify dfyconfig.toml` checks all of it.

| file | what it covers |
|---|---|
| `FanOut.dfy`, `StartJob.dfy` | the bounded fan-out of a deploy job: every interleaving of the goroutines with the main loop, the shared variables as a class, and a job from its request to its last row |
| `Text.dfy`, `NetAddr.dfy`, `Targets.dfy`, `Preview.dfy` | target expansion on the server, its meaning, and the dashboard's own expansion |
| `ShellLexer.dfy`, `ShellText.dfy`, `Commands.dfy`, `ProbeScript.dfy` | token recognition of the POSIX shell (IEEE Std 1003.1-2017, XCU sections 2.2 and 2.3) and the remote commands |
| `ConfigCodec.dfy`, `Offers.dfy`, `Registry.dfy`, `Messages.dfy`, `Convergence.dfy`, `VersionStore.dfy` | OpAMP: what is hashed, which group governs, what is offered and pushed, connections, messages, the exchange with one agent, stored versions |
| `Versions.dfy`, `Drift.dfy` | version order, the drift report, and its way back into a deploy |
| `TokenClient.dfy`, `PgText.dfy` | the OAuth token cache with its retry; output on its way into a text column |

Code that changes things step by step is a class or a method with loops, each proved against a specification; what is
pure is a function. Goroutines are steps of a transition system. SHA-256 is a parameter: nothing is assumed of it except,
where it is said so, the length of a digest and that the versions of one group do not collide. Strings are sequences of
characters, one a byte, except in `Drift.dfy`, `Preview.dfy` and `TrimSpace`, where a character is a code point; `PgText.dfy` works
on bytes. Store writes, HTTP replies, clocks and the outcome of a host operation are inputs.

Where the code does not do what it, or its documentation, says, the model follows the code:

- a token with a dash is always read as a range, so the hyphenated name that `README.md:317` of the repository gives is
  refused (`Targets.DocumentedNameIsRefused`); a token stands for itself if and only if it holds no slash and no dash
  (`Targets.StandsForItselfIff`);
- a range may build 1025 hosts before its own limit is looked at; the limit of the whole expansion still holds
  (`Targets.RangeCapIsOneLate`);
- a blank content type is hashed blank and offered as `text/yaml`; the two streams agree if and only if no type is blank
  (`ConfigCodec.OfferedStreamAgrees`);
- a config that failed to apply is reported under the offered hash and not offered again until a message without a status
  arrives; `Convergence.DrainedIsSettledIff` says exactly when the exchange settles without one;
- the comment in `internal/opampserver/push.go:89-90` has the agent drop offers it already applied; the demo agent
  applies every offer, and once statuses are left out where they did not change, one heartbeat starts an exchange that
  never ends (`Convergence.HeartbeatStartsForEver`); `Convergence.ExchangeEndsIff` says which exchanges end;
- progress rows of a deploy job may go backwards, whenever two hosts may be worked on at once
  (`FanOut.NeverGoesBackIff`); the last row is right;
- the stored status may disagree with the registry: a superseded connection that ends marks its agent as disconnected
  (`Registry.OwnedButDisconnected`), and writes made after the lock is released overtake each other
  (`Registry.LateDisconnect`, `Registry.LateConnect`); `Registry.RightIff` says for which histories no order of the
  writes does harm;
- a connection that changes its UID leaves an entry behind (`Registry.ChangedUidLeavesEntry`);
- a rollback whose group is deleted and made again between its query and its update leaves a current version that does
  not exist (`VersionStore.RollbackIntoNothing`, `VersionStore.SplitRollbackIff`);
- version fields compare as numbers exactly up to 10^10 + 9 (`Versions.OrderedUpToIff`); beyond that they are cut, which
  misorders them (`Versions.CapMisorders`);
- the dashboard counts bare tokens without looking at the limit, so its preview of more than 1024 names is not "over"
  while the server refuses them (`Preview.PreviewOfNames`); it shows a hyphenated name as a good host
  (`Preview.HyphenatedNameIsShown`), and `Preview.DashedAgreeIff` says when both sides read a dashed token alike;
- the number of a group push counts agents that went away before they were sent anything (`Offers.CountIsSentIff`);
- a token lifetime that does not fit 64-bit nanoseconds wraps to the other sign (`TokenClient.TtlWraps`).

## Model

| member | source | states |
|---|---|---|
| FanOut.FinalRowIsTrue | internal/deploy/manager.go:197-266 | in every interleaving, once `run` has ended with its last write stored: the row is finished, succeeded + failed is the number of hosts with the true counts, the status is failed iff none succeeded, succeeded iff all did, partial otherwise; every earlier row was a snapshot of the counters at some instant, and each host was called exactly once |
| FanOut.RunInv | internal/deploy/manager.go:201-253 | in every reachable state the semaphore, the wait group and both counters are the sums over the goroutines' program counters, and goroutines exist for exactly the hosts the loop has passed |
| FanOut.AtMostConcurrency | internal/deploy/manager.go:201-211 | at most `concurrency` hosts are worked on in any reachable state |
| FanOut.NeverStuck | internal/deploy/manager.go:201-253 | some step is enabled in a reachable state iff the job has not ended |
| FanOut.StepMeasure | internal/deploy/manager.go:206-262 | every step of main loop or goroutine uses up some of a finite measure |
| FanOut.RunMeasure | internal/deploy/manager.go:206-262 | no run is longer than 12 steps a host and two more |
| FanOut.CalledOnce | internal/deploy/manager.go:218-218 | a host operation has returned once if its goroutine holds an outcome, never otherwise, and the outcome held is the one returned |
| FanOut.RowNeverGoesBack | internal/deploy/manager.go:213-238 | a host row only moves pending, running, verdict, and a verdict never changes, whichever writes are refused |
| FanOut.VerdictIsStored | internal/deploy/manager.go:224-238 | a finished host's row holds its verdict iff one of the two verdict writes was stored; a store that takes every row without output loses none |
| FanOut.VerdictSays | internal/deploy/manager.go:218-238 | a stored verdict is success iff the operation succeeded and failed iff it did not, with its output and error, or in the fallback form without the output and with the error behind the reason |
| FanOut.HostRowsAddUp | internal/deploy/manager.go:218-266 | where every verdict was stored, as many host rows say success, and failed, as the last job row counts |
| FanOut.RunLog | internal/deploy/manager.go:240-262 | every row before the last is a progress row with counts seen at some instant, and none follows the final row |
| FanOut.NeverGoesBackIff | internal/deploy/manager.go:201-250 | the stored progress rows decrease in no run iff one host is worked on at a time: one slot, or at most one host |
| FanOut.ProgressMayGoBackwards | internal/deploy/manager.go:240-250 | for every other configuration, a run in which the row shows two finished hosts and then one |
| FanOut.Job.constructor | internal/store/postgres.go:567-593 | a job starts with one running row and one pending row a host, as the empty run leaves them |
| FanOut.StepRow | internal/store/postgres.go:607-615 | no step of the main loop, of the final write or of another host's goroutine changes a host's row, and none adds or loses a row |
| FanOut.Job.MainStep | internal/deploy/manager.go:206-253 | the main loop's step on the shared variables is the transition system's |
| FanOut.Job.WorkStep | internal/deploy/manager.go:209-262 | so is every step of a goroutine and the final write |
| FanOut.FinalVerdict | internal/deploy/manager.go:255-261 | the status computed from the counters is failed iff no host succeeded, succeeded iff all did, partial iff some did and some did not |
| FanOut.Job.Run | internal/deploy/manager.go:197-266 | under every scheduler and environment the job terminates, and if its last write is stored the row is finished and accounts for all hosts |
| StartJob.Start | internal/deploy/manager.go:96-195 | a job starts iff the request is admissible and its targets fit, with exactly the distinct hosts the targets denote, so each host row has one writer, and with the slots configured, ten without; a refusal names the first check that fails, in the order of the code |
| StartJob.Deploy | internal/deploy/manager.go:96-266 | from spec to last row, under every scheduler and environment: a job that starts runs to its end on the 1 to 1024 distinct hosts the spec denotes; it yields a last row iff the last write is stored, and that row is finished, with each host called once, the true counts, and failed, succeeded or partial exactly as none, all or some succeeded |
| Targets.ExpandTargets | internal/deploy/targets.go:19-70 | succeeds iff every token denotes something and the distinct hosts number 1 to 1024; the value is those hosts in the order of first occurrence; a refusal names a token that denotes nothing, or says that there is no host, or that there are too many |
| Text.FieldsAre | internal/deploy/targets.go:20-22 | any separator, doubled, leading or trailing ones too, splits a text into two whose fields are read apart; text without separators is one field |
| Targets.SpecSplits | internal/deploy/targets.go:20-22 | the separators of a spec are comma, semicolon, blank, tab, line feed and carriage return |
| Targets.ExpansionIsUnion | internal/deploy/targets.go:24-69 | the hosts of an accepted spec are exactly the members of its tokens' meanings, none twice |
| Text.DedupOrder | internal/deploy/targets.go:24-36 | the hosts kept stand in the order of their first occurrences |
| Targets.HostSet.Add | internal/deploy/targets.go:26-36 | `out` is at any time the de-duplication of all hosts added, an empty one left out, and the call fails iff that passes the limit |
| Targets.HostSet.AddAll | internal/deploy/targets.go:45-49 | adds all hosts, or stops at a prefix that passes the limit |
| Targets.ExpandToken | internal/deploy/targets.go:38-65 | the three-way switch gives a token's meaning, and refuses only a token without one or with more than 1024 hosts |
| Targets.ExpandCidr | internal/deploy/targets.go:72-99 | the loop over a prefix gives its meaning or refuses, also for a block that ends at 255.255.255.255 |
| Targets.WalkBlock | internal/deploy/targets.go:84-97 | the loop gives the masked block, less both ends for IPv4 up to /30, iff that is within the limit |
| Targets.MaskedBlock | internal/deploy/targets.go:77-84 | the block of a prefix starts at a multiple of its size, lies within the address space and holds the address written |
| Targets.BlockIsPrefixClass | internal/deploy/targets.go:77-84 | containment is agreement in the first bits with the address written |
| Targets.BlockMembers | internal/deploy/targets.go:84-97 | a block stands for all its addresses, an IPv4 one up to /30 for all but the first and the last |
| Targets.ExpandRange | internal/deploy/targets.go:101-146 | full and short ranges give the inclusive interval, or are refused |
| Targets.WalkRange | internal/deploy/targets.go:135-145 | the loop gives the inclusive interval iff it holds at most 1025 addresses |
| Targets.FullRange | internal/deploy/targets.go:102-117 | a printed full range denotes the interval between its ends |
| Targets.ShortRange | internal/deploy/targets.go:118-130 | a printed short range denotes the interval up to the replaced octet |
| Targets.Cidr4 | internal/deploy/targets.go:72-99 | a printed IPv4 prefix denotes its masked block |
| Targets.FullRange6 | internal/deploy/targets.go:102-117 | a printed IPv6 range denotes the interval between its ends |
| Targets.Cidr6 | internal/deploy/targets.go:72-99 | a printed IPv6 prefix denotes its whole masked block |
| Targets.ScanOctetIs | internal/deploy/targets.go:123-127 | a short end is the digits before the first other character, behind a plus sign or none, and at most 255; behind a minus sign only zero |
| Targets.StandsForItselfIff | internal/deploy/targets.go:38-65 | a token stands for itself iff it holds neither a slash nor a dash |
| Targets.DashedNeedsAddress | internal/deploy/targets.go:50-109 | no token with a dash and without a slash is accepted unless what precedes its first dash is an address |
| Targets.HyphenatedNameIsRefused | internal/deploy/targets.go:50-109 | a name whose first part holds no dot, colon, slash or space is refused as soon as it has a dash |
| Targets.DocumentedNameIsRefused | internal/deploy/targets.go:50-109 | the documented name `web-01.internal` is refused |
| Targets.RangeCapIsOneLate | internal/deploy/targets.go:136-143 | a range of 1025 addresses has a meaning, and any spec that holds it is refused |
| Preview.ExpandPreview | internal/api/web/index.html:797-818 | over iff the distinct hosts pass the limit at a block or a range; otherwise count, sample and bad tokens are those of the closed-form meanings, however many bare tokens there are |
| Preview.IpToInt | internal/api/web/index.html:795-795 | the base-256 value of four octets, and null for everything else |
| Preview.ShapesAgree | internal/api/web/index.html:803-814 | on canonical quads, names, prefixes and ranges the closed form and the server's meaning are the same hosts |
| Preview.PreviewTellsTheTruth | internal/api/web/index.html:797-818 | on specs of such tokens the server accepts k hosts iff the preview is not over, shows no bad token and counts k with 1 <= k <= 1024, and the sample is the server's first six |
| Preview.DashedAgreeIff | internal/api/web/index.html:808-814 | preview and server give a token with a dash, without slash and white space, one meaning, or both refuse it, iff it starts like an IPv4 range and: where the preview reads a range, its quads have no leading zeros and nothing behind them; where it reads none, the server does not find an octet in an end that has a sign or something behind its digits |
| Preview.HyphenatedNameIsShown | internal/api/web/index.html:808-814 | such names as the server refuses for their dash are shown as one good host each |
| Preview.PreviewOfNames | internal/api/web/index.html:797-818 | of names alone the preview shows all that differ, however many, while the server accepts at most 1024 |
| Preview.ManyNames | internal/api/web/index.html:797-818 | there are as many such names as one likes |
| ShellLexer.QuotedIsLiteral | internal/deploy/ssh.go:425-428 | a shell reads a quoted value as that value, whatever characters it holds and whatever word it stands in |
| ShellText.PrintedTokensAreReadBack | internal/deploy/ssh.go:425-428 | text printed from separated tokens, with quotes, operators, redirections and nested expansions, is read back as exactly those tokens |
| Commands.BuildInstallCommand | internal/deploy/ssh.go:117-149 | for every key, secret, host and integration id a shell reads the command as exactly the intended arguments |
| Commands.ScriptIsOneArgument | internal/deploy/ssh.go:203-203 | any script behind `sh -c` arrives unchanged as one argument |
| Commands.UninstallIsRead | internal/deploy/ssh.go:240-263 | a blank override gives `sh -c` with the built-in script as its one argument; otherwise the shell reads the operator's own tokens, behind sudo if asked |
| ProbeScript.ProbeCommandIsReadTwice | internal/deploy/ssh.go:182-204 | the outer shell passes the whole script as one argument, and the inner shell reads in it exactly the intended tokens, for every host |
| ProbeScript.PiecesAreReadBack | internal/deploy/ssh.go:185-202 | the concatenation of pieces that fit is read back as their tokens |
| ProbeScript.HostTokens | internal/deploy/ssh.go:187-193 | in all three tests the inner shell reads the host back as it was given: the words with it are among the tokens of the script |
| ProbeScript.VerdictIs | internal/deploy/ssh.go:187-193 | behind a test that succeeds the script says ok, behind one that fails it says fail |
| ConfigCodec.ConfigMapHash | internal/opampserver/protoutil.go:66-85 | the result depends on the map alone, not on the order in which its keys come |
| ConfigCodec.LessIff | internal/opampserver/protoutil.go:66-74 | the order of names: the first differing character decides, a prefix comes first |
| ConfigCodec.DecodeInvertsEncode | internal/opampserver/protoutil.go:75-83 | the hashed stream can be read back to the config iff nothing in it holds a NUL |
| ConfigCodec.EncodeInjective | internal/opampserver/protoutil.go:75-83 | different NUL-free configs are hashed from different streams |
| ConfigCodec.NulMakesStreamsMeet | internal/opampserver/protoutil.go:75-83 | two different configs with one stream, by a NUL in a body |
| ConfigCodec.ModelFilesToConfigMap | internal/opampserver/protoutil.go:134-144 | each file is offered under its name with its body, a blank type as text/yaml |
| ConfigCodec.OfferedKeeps | internal/opampserver/protoutil.go:134-144 | the offered form has the same names and bodies, and text/yaml exactly where the type was blank |
| ConfigCodec.EffectiveConfigHash | internal/opampserver/protoutil.go:118-130 | blank without a config map, else the hash of the reported files, a missing entry as an empty file |
| ConfigCodec.OfferedStreamAgrees | internal/opampserver/protoutil.go:118-144 | the effective stream of the offered form is the version's stream iff no content type is blank |
| ConfigCodec.DecodeInvertsPackages | internal/opampserver/reconcile.go:99-119 | the all-packages stream can be read back to names and digests iff no name holds a NUL |
| Offers.ResolveGroup | internal/opampserver/reconcile.go:22-49 | the explicit assignment, else the least-named matching group that is not the default, else the default; the default too if the list cannot be read |
| Offers.GoverningSelects | internal/opampserver/reconcile.go:30-58 | a group that governs by its selector has one that is not empty, and the agent has every label in it, non-identifying attributes before identifying ones, a missing one as blank |
| Offers.SelectorClaims | internal/opampserver/reconcile.go:38-58 | where the agent meets the selector of a listed group, that group governs or one before it by name |
| Offers.GoverningIsUnique | internal/opampserver/reconcile.go:38-48 | the governing group does not depend on the order of the list |
| Offers.BuildPackagesAvailable | internal/opampserver/reconcile.go:96-122 | the offer holds exactly the assigned packages and the hash of their canonical stream |
| Offers.OfferedPackagesUnique | internal/opampserver/reconcile.go:96-122 | offers of the same packages in any order are the same offer |
| Offers.BuildServerToAgent | internal/opampserver/reconcile.go:63-94 | the reply is the push offer less exactly the parts whose hash this message reports |
| Offers.BuildOfferForPush | internal/opampserver/push.go:89-112 | the unconditional offer, part by part, nothing for a group without files or packages |
| Offers.PushOfferUnique | internal/opampserver/push.go:91-112 | catalog and agent determine the offer |
| Offers.PushToAgent | internal/opampserver/push.go:38-59 | without a live connection nothing is sent; otherwise the governing group's offer is, unless the send fails |
| Offers.PushGroup | internal/opampserver/push.go:63-87 | against a fixed store an offer is sent to exactly the connected agents whose next message the group would govern; the number returned counts those and the ones that went away meanwhile |
| Offers.CountIsSentIff | internal/opampserver/push.go:63-87 | the number returned is that of the offers sent iff no targeted agent went away meanwhile; each that did is counted and sent nothing |
| Offers.PushOne | internal/opampserver/push.go:71-85 | one round of that loop touches one agent only |
| Registry.Manager.Valid | internal/opampserver/server.go:28-30 | over every interleaving of locked steps and status writes: byUID holds exactly the owners that the history of messages and closings gives, byConn exactly the UIDs, and the store the status that the writes done so far leave |
| Registry.Manager.RegisterConn | internal/opampserver/server.go:109-118 | keeps that, leaves the status to a later write, and reports a new connection iff it did not own the UID |
| Registry.Manager.OnConnectionClose | internal/opampserver/server.go:87-97 | keeps that, never removes an entry that points to another connection, and leaves a status write to be done iff the connection was known |
| Registry.Manager.ConnectedUids | internal/opampserver/push.go:17-26 | the UIDs that have an owner |
| Registry.KeepingConnection | internal/opampserver/server.go:87-118 | a connection that keeps its UID owns it iff it sent the last message under it and has not closed since; byConn then agrees |
| Registry.OwnerKnownUnderUid | internal/opampserver/server.go:109-118 | in general the owner is listed under the UID iff it sent nothing since under any |
| Registry.NewerIsNotEvicted | internal/opampserver/server.go:92-95 | the sender of the last message keeps the UID however many other connections close |
| Registry.ChangedUidLeavesEntry | internal/opampserver/server.go:87-118 | a history after which a closed connection still owns a UID |
| Registry.OneOwner | internal/opampserver/server.go:109-118 | a UID has at most one owner |
| Registry.RightIff | internal/opampserver/server.go:97-106 | for every history of locked steps: all orders in which their status writes may be stored leave the agent connected exactly when it has an owner, iff each step whose connection did not lock again before the last step for the agent says what the registry says |
| Registry.LastIsCandidate | internal/opampserver/server.go:97-106 | in no run is the last write for an agent that of another step |
| Registry.CandidateWins | internal/opampserver/message.go:21-24 | and each such step has a run in which its write is the last |
| Registry.LastSenderDecides | internal/opampserver/message.go:21-24 | whatever writes fail or are still due: once the last write of the last sender is stored, the stored status can be wrong only by the write of another connection, of the other kind |
| Registry.LateDisconnect | internal/opampserver/server.go:97-103 | a run that leaves an owned agent stored as disconnected although nothing ended after its owner's message |
| Registry.LateConnect | internal/opampserver/message.go:21-24 | a run that leaves an agent without an owner stored as connected |
| Registry.ConnectedIsOwned | internal/store/postgres.go:92-105 | where the writes are stored in the order of the locks, an agent stored as connected has an owner |
| Registry.OwnedButDisconnected | internal/opampserver/server.go:99-106 | in that order, an owned UID is stored as disconnected iff another connection under it ended after the owner's last message |
| Messages.Server.OnMessage | internal/opampserver/message.go:15-41 | after every history of messages the rows are what was last heard, section by section, and the registry has the message and its write; the events are those of a new connection and of an applied or failed config; the reply is that of the next row; a blank UID changes nothing |
| Messages.ReplyAnswers | internal/opampserver/message.go:32-40 | the reply carries the current version of the group, and its packages, iff the stored description accepts them and this message reports another hash; the group is the assigned one, else the least whose selector the stored attributes meet, else the default; without a stored description nothing is offered |
| Messages.Server.Persist | internal/opampserver/message.go:44-81 | a section that is absent, or whose write fails, leaves its columns alone |
| Messages.ReplyIsUnique | internal/opampserver/message.go:33-40 | store, stored description and message determine the reply |
| Convergence.InvRun | internal/opampserver/push.go:63-112 | in every run of creates, rollbacks, late and current offers, applies, failures, heartbeats and reconnects, each version keeps its place and its hash, and each offer in flight is that of some version |
| Convergence.FaithfulIff | internal/opampserver/protoutil.go:66-85 | the hypothesis on a history of versions, that one hash means the same files, says for NUL-free versions exactly that the hash function tells their streams apart |
| Convergence.Converges | internal/opampserver/reconcile.go:63-79 | after any run at all, once the operators have stopped, Rank(s) helpful steps bring the agent to run the offered form of the current files and report their hash |
| Convergence.OperatorsChoiceArrives | internal/opampserver/push.go:63-112 | what an operator creates or rolls back to, after any run, is what the agent comes to run and reports |
| Convergence.OperatorsAreTheStore | internal/store/postgres.go:275-318 | creating and rolling back in the protocol are those of the store: the new version is last and current, or the older one current |
| Convergence.ApplyIsLearned | cmd/demo-agent/main.go:157-168 | the reports of an apply, however batched, tell the server the hash of what the agent now runs; those of a failed one name the offer and no config |
| Convergence.RankStep | cmd/demo-agent/main.go:139-169 | no quiet step moves the agent away, every helpful one decreases the rank, and settled stays settled |
| Convergence.HelpIsAtHand | internal/opampserver/reconcile.go:68-78 | until then a helpful step is enabled |
| Convergence.ReconnectIsCheap | internal/opampserver/message.go:12-41 | a lost connection leaves at most four helpful steps to do, none if settled |
| Convergence.DrainedIsSettledIff | internal/opampserver/reconcile.go:71-72 | without heartbeats, when everything in flight has been handled, the agent is at the current version iff the state was settling to begin with |
| Convergence.FailedApplyIsNotRetried | cmd/demo-agent/main.go:147-152 | after a failed apply of the current version nothing is in flight and nothing will be offered |
| Convergence.ExchangeEndsIff | internal/opampserver/push.go:89-112 | under each policy of when a status is sent, from every state: the runs of receipts and deliveries are bounded iff every report carries its status, or nothing in flight leads to a message that is answered with an offer, or one thing does and that offer will not lead to another |
| Convergence.ExchangeEnds | cmd/demo-agent/main.go:157-168 | an exchange that ends does so within a number of steps computed from what is in flight |
| Convergence.NeverDrains | cmd/demo-agent/main.go:161-167 | in every run of an exchange that does not, something is in flight for ever |
| Convergence.BatchedEndsIff | cmd/demo-agent/main.go:157-168 | where a status is left out iff unchanged: the condition read off the offers in flight, the status last reported and the messages in flight |
| Convergence.SeparateEndsIff | cmd/demo-agent/main.go:157-168 | where status and effective config go out apart: the exchange ends iff nothing in flight is an offer or will be answered with one |
| Convergence.HeartbeatStartsForEver | internal/opampserver/reconcile.go:68-78 | unless every report carries its status, one heartbeat of a settled agent at rest starts an exchange without end |
| Convergence.BecomesCalm | internal/opampserver/reconcile.go:68-78 | once settled, only the reports then in flight can still be answered with a config, reconnects included |
| Convergence.CalmReceipt | internal/opampserver/message.go:61-75 | in calm a message with a status gets no config, and the stored effective hash is the version's if no type is blank, else the hash of another stream |
| Convergence.ReplyIsThePoll | internal/opampserver/reconcile.go:68-78 | the reply of the protocol model is the config part of the server's reply |
| Convergence.DemoAgent.ApplyRemoteConfig | cmd/demo-agent/main.go:139-169 | the offered config becomes effective iff every file can be written, the offered hash is reported either way, and that is the protocol's step |
| Convergence.DemoAgent.GetEffectiveConfig | cmd/demo-agent/main.go:171-179 | a copy of the effective config |
| VersionStore.Store.Valid | internal/store/migrations/0001_init.sql:3-21 | the versions of each group are exactly 1..n, no other rows exist, and current is in 1..n, or 0 iff n is 0 |
| VersionStore.Store.CreateConfigVersion | internal/store/postgres.go:275-302 | adds version n+1 and makes it current; without the group it violates the foreign key and changes nothing |
| VersionStore.Store.MaxVersion | internal/store/postgres.go:282-287 | the highest version of a group is the number of its versions |
| VersionStore.Store.SetCurrentConfigVersion | internal/store/postgres.go:304-318 | moves current to an existing version, else not found and no change |
| VersionStore.SplitRollbackIff | internal/store/postgres.go:304-318 | with other calls between its two statements a rollback is that of one step, and the store stays consistent, iff its version is still there or its group gone; so unless the group was deleted between |
| VersionStore.RollbackIntoNothing | internal/store/postgres.go:304-318 | a group deleted and made again between them is left with a current version it does not have, until the next create |
| VersionStore.Store.GetCurrentConfig | internal/store/postgres.go:332-341 | the current row, not found without one |
| VersionStore.Store.UpsertGroup | internal/store/postgres.go:251-259 | keeps the versions and the current one of an existing group |
| VersionStore.Store.DeleteGroup | internal/store/postgres.go:261-273 | removes the group with its rows; never the default group |
| VersionStore.ConsistentRun | internal/store/postgres.go:251-318 | in every run the default group exists, and each group has one of its versions current, none iff it has none |
| VersionStore.RollbackReturnsWhatWasCreated | internal/store/postgres.go:275-341 | in every run, rolling back to the number a create returned brings back exactly what it stored, and it stays until the group is touched |
| VersionStore.VersionsGrow | internal/store/postgres.go:275-302 | while a group lives, what was created stays under its number |
| VersionStore.CreateAfterRollback | internal/store/postgres.go:282-298 | creating after a rollback numbers on from the highest version |
| VersionStore.RecreatedStartsOver | internal/store/migrations/0001_init.sql:11-21 | a deleted and recreated group starts over at version 1 |
| Versions.CompareVersion | internal/reconcile/reconcile.go:197-221 | the sign of the order by first differing field, missing fields as zero |
| Versions.NotOlderTransitive | internal/reconcile/reconcile.go:200-221 | negative transitivity: with the next two lemmas, a total preorder on all strings |
| Versions.OlderOneWay | internal/reconcile/reconcile.go:200-221 | no two versions are older than each other |
| Versions.OlderTotal | internal/reconcile/reconcile.go:200-221 | any two versions are ordered or have the same fields |
| Versions.Atoi | internal/reconcile/reconcile.go:223-235 | the value of the shortest prefix that passes 10^9, at most 10^10 + 9, and the exact value iff that is at most 10^10 + 9 |
| Versions.FieldOrder | internal/reconcile/reconcile.go:200-235 | two fields compare as their numbers if both are exact or one is at most 10^9 |
| Versions.OrderedUpToIff | internal/reconcile/reconcile.go:223-235 | all fields up to a bound compare as the numbers they write iff the bound is at most 10^10 + 9 |
| Versions.CapMisorders | internal/reconcile/reconcile.go:200-235 | as versions, 2*10^10 counts as older than 10^10 |
| Versions.SortVersionsDesc | internal/reconcile/reconcile.go:237-243 | in place: a permutation, newest first |
| Drift.Evaluate | internal/reconcile/reconcile.go:76-138 | active + down + unknown = total = sum of the histogram; each row is its label's count; the latest version is a maximum; outdated counts exactly the agents with a non-blank version older than some agent's; the recommendations list exactly the addressed hosts that are down or outdated |
| Drift.CountVersions | internal/reconcile/reconcile.go:84-95 | label counts and a newest version |
| Drift.Histogram | internal/reconcile/reconcile.go:96-99 | rows for all labels, in any map order, sorted newest first, adding up to the number of agents |
| Drift.Survey | internal/reconcile/reconcile.go:101-121 | the counts and host lists of the second loop |
| Drift.ClassesPartition | internal/reconcile/reconcile.go:103-113 | every agent is in exactly one class |
| Drift.ClassifyIs | internal/reconcile/reconcile.go:165-178 | white space around a status does not matter; it is down iff it holds one of the nine words for down, otherwise up iff one of the five for up, so a word for down outweighs the word for up inside it |
| Drift.FoldedIs | internal/reconcile/reconcile.go:70-73 | a letter of a word is matched by itself, its capital, and for s and k by the long s and the Kelvin sign |
| Text.TrimSpaceIs | internal/reconcile/reconcile.go:165-166 | what is trimmed is white space on either side, and all of it |
| Drift.JoinIps | internal/reconcile/reconcile.go:187-193 | the addresses joined by commas |
| Drift.DeployAdvice | internal/reconcile/reconcile.go:123-136 | the target list of a recommendation expands to its hosts' addresses, each once and in order, iff at most 1024 differ, when they are bare tokens |
| TokenClient.HandedOut | internal/opsramp/client.go:91-152 | in every run a token handed out was granted to that call, or to the latest call that fetched and is used over a minute before an expiry at most two hours after its grant |
| TokenClient.FetchesWhenStale | internal/opsramp/client.go:94-104 | an unforced call fetches iff the latest fetch granted nothing or its grant has a minute or less to live |
| TokenClient.Ttl | internal/opsramp/client.go:143-149 | the lifetime is in (0, 2h] for every int64 expires_in, also when the product wraps |
| TokenClient.TtlIsLifetime | internal/opsramp/client.go:143-149 | exactly which expires_in are read as the lifetime meant: up to two hours, the seconds of an interval in each stretch of 2^64 nanoseconds, and the negative ones that differ from 300 by a multiple of 2^55 |
| TokenClient.TtlWraps | internal/opsramp/client.go:143-149 | one second beyond what fits, either way, gives the opposite bound |
| TokenClient.Client.FetchToken | internal/opsramp/client.go:109-152 | a failed fetch leaves the cache empty |
| TokenClient.Client.AccessToken | internal/opsramp/client.go:91-104 | the cached token iff it is usable and not refused by force, else the fetched one |
| TokenClient.AnswerIs | internal/opsramp/client.go:91-139 | a cached token with over a minute to live unless a fetch is forced, else the token granted, else the error of the reply |
| TokenClient.Client.DoOnce | internal/opsramp/client.go:237-263 | one request, under the token just handed out, or none |
| TokenClient.Client.Do | internal/opsramp/client.go:227-234 | all outcomes: without a token its error and no request; an answer other than 401 and 407 as it is, after one request; after 401 or 407 a second request with the same verb, url and body under a token just granted, whose answer is the result, or the error of the fetch; the cache and the number of fetches in each case |
| TokenClient.ForcedIsIndependent | internal/opsramp/client.go:233-241 | what other callers did to the cache in between does not reach the retry |
| PgText.StoredIsClean | internal/store/postgres.go:616-629 | for every byte string the result is NUL-free and well-formed UTF-8; it is the input iff the input is; doing it twice is doing it once |
| PgText.WithoutNulKeeps | internal/store/postgres.go:616-629 | only the NULs are removed; what stands between them is kept in order |
| PgText.WidthIsChar | internal/store/postgres.go:628-628 | the decoder accepts exactly the characters of RFC 3629 section 4 |
| PgText.TruncatedIsStored | internal/deploy/ssh.go:430-435 | output that is too long is stored as the characters that fit whole, one U+FFFD iff the limit splits a character, and the mark |
| PgText.ShortIsStored | internal/deploy/ssh.go:430-435 | clean output up to the limit is stored as it is |

## Left out

- IPv6 text: printing and parsing an IPv6 address is a parameter with a round-trip law, by which its texts are hexadecimal digits, colons and dots with a colon before any dot; zones are refused. IPv4 text is written out.
- Preview.DashedAgreeIff: leaves out tokens with white space inside, of which only U+0085 can stand in a token of both sides.
- `fmt.Sscanf` on a short range: a number too large for an int is refused here as any number above 255 is.
- Hex coding of hashes and instance UIDs is taken as a one-to-one renaming and not written out.
- Exit code and duration of a host operation are stored with its verdict and do not reach anything else.
- Capabilities are two booleans, not the bits of a word.
- Health, events other than those of `Messages.dfy`, and the rendering of the effective config as a string are plain copies.
- Comments and backquotes are refused by the shell lexer; the commands modelled hold none outside quotes.
- A NUL in a value cannot pass an exec request; the lexer treats it as an ordinary character.
- What the shell reads inside the built-in uninstall script is not stated, only that the script arrives as one argument. What dpkg, rpm, curl and the other commands do is not modelled.
- SSH, SFTP, HTTP, SQL and the OpAMP client library are inputs or steps; how the library batches reports is left open (`Reporting` in `Convergence.dfy`), or one of three policies where it decides whether an exchange ends.
- The demo agent's files on disk and its package provider.
- A push whose agent row cannot be read, or whose UID is no hex string, fails like one whose send fails; the three are one outcome here.
- Store calls are atomic: two concurrent creates of one group are not interleaved inside the transaction.
- Messages.Server.OnMessage: takes one message as one step, so that the section writes of two connections under one UID do not interleave, nor other steps of the registry between the locked part and the status write; `Registry.dfy` has those two apart.
- VersionStore.Store.SetCurrentConfigVersion: takes query and update as one step; `VersionStore.SplitRollbackIff` says what other calls between them change.
- Regular expressions are given by what they match: digit runs and words without regard to case.
- Token and its expiry are read under two locks by `Token` (internal/opsramp/client.go:173-179); that accessor is not modelled.
- HTTP handlers, authentication, the rest of the dashboard, connector settings, polling, known hosts and configuration loading hold only simple claims.
