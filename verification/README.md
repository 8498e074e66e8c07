# Verification of kagisecure's exchange, agent-fill and transport code

Dafny models of the parts of kagisecure that keep state across steps or promise a round trip, with proofs of what they
promise. `dafny verify dfyconfig.toml` checks the whole project; it needs Dafny 4.11.

| file | models |
|---|---|
| `RecordEnvelope.dfy` | the deterministic CBOR reader that names a record file by a hash of its contents |
| `ExchangeMirror.dfy` | one pass between a picked folder and the local mirror |
| `Convergence.dfy` | any number of devices sharing the folder, under any schedule of passes |
| `SyncCoalescing.dfy` | the coalesced sync of the link model and the folder watcher's debouncer |
| `TabMemory.dfy` | the lazily cleaned per-tab memory |
| `AgentFill.dfy`, `AgentRuns.dfy`, `AgentWorker.dfy` | the service worker's half of the agent-fill protocol: its steps, every interleaving of them, and its handlers as a class |
| `AgentHistory.dfy` | what the worker's records and its messages to the app say of what happened |
| `AgentLocating.dfy`, `AgentDelivering.dfy` | the worker together with the content scripts its locates and its deliveries ask |
| `ContentScript.dfy`, `AnswerDelivery.dfy` | what the content script writes, and its tripwires; its handler for a delivery as a class |
| `NativeChannel.dfy`, `NativePort.dfy` | the request channel to the app and its reconnecting: its steps and runs, and its handlers as a class |
| `Forms.dfy` | the login, sign-up and identifier detectors |
| `Framing.dfy` | length-prefixed frames over a socket with short transfers |
| `Base64Url.dfy`, `PercentCoding.dfy`, `Redirect.dfy` | the codecs of the store login and its redirect |
| `StdinFrame.dfy`, `CurlConfig.dfy` | the credential frame, and the config a request is rendered as |
| `Basics.dfy`, `Endian.dfy`, `Splitting.dfy`, `Utf8.dfy` | shared vocabulary |

File systems are maps from names to bytes. The hash is a parameter; where two records must not collide, that is a
hypothesis about those two. A handler that awaits is a step per run-to-completion slice, and steps interleave freely.
What the browser, the operating system or a page may do is nondeterministic or a parameter: which tab is chosen, what a
connection attempt does, how many bytes a system call moves, what a page's own handlers make of a write.

Loops over sets of names take them in any order, where the original sorts them; the results hold for every order.

## Where the code and what is said of it differ

The code is modelled as it is; each of these is a lemma with the exact condition or a concrete run.

* A finished `locate` need not have sent a report of its own: the report of its script is taken for another locate when
  the probe id was accepted again before it finished, and only then (`AgentLocating.FinishedLocateReported`,
  `AgentLocating.LostWhenReused`, with a run in `AgentLocating.ReusedIdCostsReport`).
* A delivery need not be told of by its own script: a grant is accepted again once its delivery was dropped, and then the
  first script speaks for the second delivery (`AgentDelivering.ReusedGrantCostsReport` is a run). That is the only way:
  a script is misheard only after its grant was accepted again and its delivery dropped
  (`AgentDelivering.MisheardWhenReused`), and what holds of scripts and the worker holds, in every run, of each delivery
  whose grant was accepted once (`AgentDelivering.SoleExactly`).
* The worker's giving up on a delivery does not withdraw the grant (`AgentDelivering.GivingUpKeepsGrant`).
* The status can be "locked" with no port at all (`NativeChannel.StatusAfterDrop` and `NativeChannel.LockedWithoutPort`
  say exactly when, and `NativeChannel.UnpostedRefreshLocks` is a run).
* The comments on `applyFill` and `applySignup` say that everything is checked in the same turn as the writes, so that no
  page script runs in between, and that all of it is written or nothing. The page's own handlers run during the first
  write. For every page, all writes stick or none does exactly when no password is written after another write
  (`ContentScript.AllOrNothingExactly`, with a sign-up of two boxes in `ContentScript.HalfASignup`); what is named is all
  or nothing exactly when no user name is written before a password (`ContentScript.NamesAllOrNothingExactly`); and every
  password goes into a password input exactly when no other write comes before one
  (`ContentScript.PasswordIntoPasswordExactly`). Each proof gives the page that makes the rest fail.
* The comment on the tripwires says that every new-password box written is watched. A field is watched only if the
  password is named as written (`ContentScript.WatchedExactly`), and a page can always spoil that and show the password
  in a text field: all fields a password went into are watched, whatever the page does, exactly when the fill means to
  write no password (`ContentScript.WatchesAllExactly`, with the page in `ContentScript.ExposedUnwatched`). When the
  password is named, the empty text is written into every field of it in the same turn if the page has retyped one by
  then (`AnswerDelivery.Answering.ReplyArrived`).
* The percent decoder takes more than RFC 3986 writes (`PercentCoding.DecodedExactly` says on which texts they agree,
  `PercentCoding.LenientDecoding` gives others).
* A credential asked for twice comes back empty (`StdinFrame.Pick`).
* Off-canvas fields are decoys to the login detector, but not to its search for the user name
  (`Forms.UsernameIgnoresCanvas`, with a page in `Forms.DecoyIsUsername`).

## Model

| member | source | states |
|---|---|---|
| RecordEnvelope.RecordId | apps/ios/KagisecureiOS/ExchangeMirror.swift:50-81 | An id comes out exactly for the shortest-form encoding of an envelope within 1 MiB, and is the hexadecimal hash of its author, body and signature; for anything else, nothing. |
| RecordEnvelope.Cursor.Bytes | apps/ios/KagisecureiOS/ExchangeMirror.swift:54-71 | Reads a byte string with a head in its shortest form and moves past it, or answers nothing exactly when no such field starts at the cursor. |
| RecordEnvelope.Cursor.Length | apps/ios/KagisecureiOS/ExchangeMirror.swift:55-67 | The length a head announces, if the head is a byte string's and could not have been shorter. |
| RecordEnvelope.Reduce | apps/ios/KagisecureiOS/ExchangeMirror.swift:63 | The loop over the length bytes gives the big-endian number. |
| RecordEnvelope.IsValidRecord | apps/ios/KagisecureiOS/ExchangeMirror.swift:84-86 | A file is valid exactly when it encodes an envelope and its name is that envelope's record name. |
| RecordEnvelope.ShortestHeadIsHead | apps/ios/KagisecureiOS/ExchangeMirror.swift:56-67 | A head the reader accepts is the one the format prescribes for that length. |
| RecordEnvelope.HeadIsShortest | apps/ios/KagisecureiOS/ExchangeMirror.swift:56-67 | The prescribed head of every length is one the reader accepts. |
| RecordEnvelope.FieldUnique | apps/ios/KagisecureiOS/ExchangeMirror.swift:54-71 | At most one field starts at a place: byte strings are prefix-free. |
| RecordEnvelope.EncodeInjective | apps/ios/KagisecureiOS/ExchangeMirror.swift:45-49 | Different envelopes have different encodings, so reading and writing envelopes are inverse to each other. |
| RecordEnvelope.PreimageInjective | apps/ios/KagisecureiOS/ExchangeMirror.swift:74-79 | Author, body and signature can be told from what is hashed, although the body has no length there. |
| RecordEnvelope.RecordNameIsRecordName | apps/ios/KagisecureiOS/ExchangeMirror.swift:36-40 | Every computed name is 64 lower-case hexadecimal digits and the suffix. |
| RecordEnvelope.RecordNameExactly | apps/ios/KagisecureiOS/ExchangeMirror.swift:35-40 | The filter lets through exactly the names that some hash could give: the digits of 32 bytes and the suffix. |
| RecordEnvelope.HexInjective | apps/ios/KagisecureiOS/ExchangeMirror.swift:80 | Different hashes are written differently. |
| RecordEnvelope.ValidBytesUnique | apps/ios/KagisecureiOS/ExchangeMirror.swift:124-129 | Under one name at most one content is valid, unless the hash collides on the two: this makes leaving two valid copies alone sound. |
| ExchangeMirror.PlaceholderExactly | apps/ios/KagisecureiOS/ExchangeMirror.swift:104-108 | A name is the placeholder of a target exactly when it is a dot, the target, which is not empty, and ".icloud". |
| ExchangeMirror.RecordNamesAreNoPlaceholders | apps/ios/KagisecureiOS/ExchangeMirror.swift:180-197 | No record name is itself a placeholder, so the listing never drops a real record. |
| ExchangeMirror.AwaitedExactly | apps/ios/KagisecureiOS/ExchangeMirror.swift:180-197 | A record name is pending exactly when it is listed and not downloaded, or only its placeholder is listed. |
| ExchangeMirror.ListingSplits | apps/ios/KagisecureiOS/ExchangeMirror.swift:176-200 | Ready and pending are disjoint and cover every record name listed. |
| ExchangeMirror.ExchangeMirror.ListRemote | apps/ios/KagisecureiOS/ExchangeMirror.swift:176-200 | The loop computes ready and pending, and asks for the download of each pending name. |
| ExchangeMirror.ExchangeMirror.Pull | apps/ios/KagisecureiOS/ExchangeMirror.swift:223-234 | Copies a valid record in and leaves a file that is there alone unless it may be replaced; throws exactly when it cannot read or write what it has to. |
| ExchangeMirror.ExchangeMirror.Push | apps/ios/KagisecureiOS/ExchangeMirror.swift:238-255 | The same for a valid record of the mirror, copied out. |
| ExchangeMirror.ExchangeMirror.In | apps/ios/KagisecureiOS/ExchangeMirror.swift:121-138 | One turn of the first loop joins the name, or throws exactly when it cannot be copied. |
| ExchangeMirror.ExchangeMirror.CopyIn | apps/ios/KagisecureiOS/ExchangeMirror.swift:119-138 | After the first loop exactly the names gone through are joined, no other touched, and the counts are those of the changed files. |
| ExchangeMirror.ExchangeMirror.CopyOut | apps/ios/KagisecureiOS/ExchangeMirror.swift:147-155 | The same for the second loop, over the names the picked folder does not know. |
| ExchangeMirror.ExchangeMirror.CopyBoth | apps/ios/KagisecureiOS/ExchangeMirror.swift:119-155 | Both loops together go through every record name that is not pending, or stop at one that cannot be copied. |
| ExchangeMirror.ExchangeMirror.Sync | apps/ios/KagisecureiOS/ExchangeMirror.swift:111-157 | One pass is a join: both sides end with the valid bytes if either had them, pending names and names valid nowhere are untouched, pulled and pushed count the changed files; it goes through exactly when nothing that is not pending fails to copy. What it writes into the picked folder is downloaded there, and the same names stay pending. |
| ExchangeMirror.ProgressIsPass | apps/ios/KagisecureiOS/ExchangeMirror.swift:111-157 | Joining the names one by one adds up to a pass, also when it stopped early. |
| Convergence.NothingLost | apps/ios/KagisecureiOS/ExchangeMirror.swift:111-157 | Over any run of passes and additions, a valid copy stays where it is, unaltered. |
| Convergence.NothingForged | apps/ios/KagisecureiOS/ExchangeMirror.swift:229-240 | Every valid copy was there at the start or was added by a vault. |
| Convergence.InvalidUntouched | apps/ios/KagisecureiOS/ExchangeMirror.swift:124-126 | Over any run of passes a name valid nowhere keeps whatever each side has under it. |
| Convergence.MirrorReachesFolder | apps/ios/KagisecureiOS/ExchangeMirror.swift:147-155 | A clean pass of a device brings what its mirror holds into the picked folder, for good. |
| Convergence.FolderReachesMirror | apps/ios/KagisecureiOS/ExchangeMirror.swift:119-138 | A clean pass of a device brings what the picked folder holds into its mirror, for good. |
| Convergence.Converges | apps/ios/KagisecureiOS/ExchangeMirror.swift:110-157 | Once every device has had a clean pass and then another, in any order and among any other passes, the folder and all mirrors hold the same bytes for every record that was valid anywhere, and everything else is as it was. |
| ExchangeMirror.ExchangeMirror.SyncTwice | apps/ios/KagisecureiOS/ExchangeMirror.swift:110 | A second pass with nothing new goes through if the first did, changes nothing, reports no copies, and finds the same number pending. |
| ExchangeMirror.NewRecordsAreNotPending | apps/ios/KagisecureiOS/ExchangeMirror.swift:176-200 | Downloaded records that are new in the folder leave what is pending as it is. |
| ExchangeMirror.NothingLeftToCopy | apps/ios/KagisecureiOS/ExchangeMirror.swift:110-157 | A pass that copied all it had to leaves nothing that cannot be copied but what it skipped. |
| ExchangeMirror.SecondPassIdle | apps/ios/KagisecureiOS/ExchangeMirror.swift:110 | A pass over the same names as the one before changes nothing. |
| SyncCoalescing.NoCallLost | apps/ios/KagisecureiOS/LinkModel.swift:190-204 | In any run passes never overlap, never outnumber the calls, and every call is followed by a pass that started at or after it. |
| SyncCoalescing.NoChangeLost | apps/ios/KagisecureiOS/FolderWatcher.swift:42-59 | At most one debounce task can act; once none can and none of their calls is on its way, every change taken up was followed by a pass that started after it, or by the watcher being stopped. |
| SyncCoalescing.WatcherDoesNotFeedItself | apps/ios/KagisecureiOS/FolderWatcher.swift:36-54 | The watcher starts no more syncs than changes came while no pass ran and the quiet time was over; and if no notice of a pass's own writes comes then, each of those is a change by others. |
| SyncCoalescing.TakenExactly | apps/ios/KagisecureiOS/FolderWatcher.swift:36-54 | In any run a change is taken up, by one new task, exactly when no pass is running and the last sync, if any, ended at least the quiet time ago; otherwise it changes nothing. |
| SyncCoalescing.WakesExactly | apps/ios/KagisecureiOS/FolderWatcher.swift:47-53 | A task that wakes calls sync exactly when it was not cancelled and no pass is running. |
| SyncCoalescing.CancelStops | apps/ios/KagisecureiOS/FolderWatcher.swift:56-59 | Right after the watcher is stopped no task can act. |
| SyncCoalescing.LinkModel.Sync | apps/ios/KagisecureiOS/LinkModel.swift:190-202 | A call starts a pass or marks that one more is wanted. |
| SyncCoalescing.LinkModel.PassEnded | apps/ios/KagisecureiOS/LinkModel.swift:196-203 | The end of a pass starts the wanted one, or ends the sync and notes when. |
| SyncCoalescing.FolderChangeDebouncer.OwnEcho | apps/ios/KagisecureiOS/FolderWatcher.swift:36-40 | A change is our own echo exactly during a sync or within the quiet time after it. |
| SyncCoalescing.FolderChangeDebouncer.FolderChanged | apps/ios/KagisecureiOS/FolderWatcher.swift:42-54 | A change replaces the waiting task, unless it is an echo. |
| SyncCoalescing.FolderChangeDebouncer.TaskWakes | apps/ios/KagisecureiOS/FolderWatcher.swift:47-52 | A task that was not cancelled clears itself, and its call of sync is on its way unless a sync runs. |
| SyncCoalescing.FolderChangeDebouncer.CallArrives | apps/ios/KagisecureiOS/FolderWatcher.swift:53 | That call arrives a hop later, when a sync may be running after all: it starts a pass or asks for one more. |
| SyncCoalescing.FolderChangeDebouncer.Cancel | apps/ios/KagisecureiOS/FolderWatcher.swift:56-59 | Stopping cancels the waiting task. |
| TabMemory.PartsDetermineOrigin | extensions/shared/tabmemory.js:66-74 | The scheme and the host determine the origin. |
| TabMemory.PartsExactly | extensions/shared/tabmemory.js:66-74 | An origin has these two parts exactly when it is the scheme, the first marker and the host, neither of them empty. |
| TabMemory.SameSiteExactly | extensions/shared/tabmemory.js:76-103 | An entry may be used exactly at an origin of the same scheme whose host is the same or a subdomain, after a dot. |
| TabMemory.SameSiteReflexive | extensions/shared/tabmemory.js:96-103 | An origin is on its own site exactly when it has a scheme and a host. |
| TabMemory.SameSiteTransitive | extensions/shared/tabmemory.js:96-103 | A subdomain of a subdomain is a subdomain. |
| TabMemory.SameSiteAntisymmetric | extensions/shared/tabmemory.js:96-103 | Two origins above each other are the same. |
| TabMemory.SameSiteAncestorsComparable | extensions/shared/tabmemory.js:96-103 | Of two origins above a third, one is above the other: same-site is a tree order. |
| TabMemory.TabMemory.Remember | extensions/shared/tabmemory.js:114-118 | Stores an entry for a minute exactly when item and origin are there. |
| TabMemory.TabMemory.Recall | extensions/shared/tabmemory.js:132-144 | Answers the entry if live and of the site; removes one that is not. |
| TabMemory.TabMemory.Peek | extensions/shared/tabmemory.js:158-166 | Answers the live entry; removes an expired one. |
| TabMemory.TabMemory.Forget | extensions/shared/tabmemory.js:174-176 | Removes the tab's entry, and says whether there was one. |
| TabMemory.TabMemory.ForgetAll | extensions/shared/tabmemory.js:179-181 | Leaves nothing. |
| TabMemory.TabMemory.Sweep | extensions/shared/tabmemory.js:189-198 | Removes exactly the expired entries and counts them. |
| TabMemory.HoldsStanding | extensions/shared/tabmemory.js:114-198 | What the map holds for a tab is the choice that stands in the history; it lacks one only after that has expired. |
| TabMemory.RecallExactly | extensions/shared/tabmemory.js:132-144 | A recall answers exactly when the latest choice in the tab is under a minute old, nothing has ended it, and the page has the scheme of its origin and the same host or a subdomain of it; it answers with that choice. |
| TabMemory.PeekExactly | extensions/shared/tabmemory.js:158-166 | The same for a peek, without the site. |
| TabMemory.CleaningUnobservable | extensions/shared/tabmemory.js:120-198 | Histories that differ only in peeks and sweeps cannot be told apart by any later recall or peek. |
| AgentRuns.Step | extensions/shared/background.js:671-880 | Every handler slice keeps the maps referring to records made under their own id. |
| AgentRuns.DeliverShape | extensions/shared/background.js:711-758 | A deliver push makes at most one record, spends the probe, and tells the app at once exactly when no tab is asked. |
| AgentRuns.StepReports | extensions/shared/background.js:781-813 | A probe is marked as reported exactly by the step that sends its report. |
| AgentRuns.StepRedeems | extensions/shared/background.js:815-835 | A grant is asked for only by the step that marks it, from its target; nothing changes whom a delivery is for. |
| AgentRuns.StepTellsOutcomes | extensions/shared/background.js:840-868 | An outcome is told exactly by the step that counts it, and a second one only for the tripwire. |
| AgentRuns.RunKeepsInv | extensions/shared/background.js:671-880 | Over every interleaving of pushes, answers, messages from anybody, closings and pruning, the invariant holds. |
| AgentRuns.FillsSpendProbes | extensions/shared/background.js:711-839 | Every fill request sent to the app spends a probe of its own, no delivery is redeemed twice, and the sender is frame 0 of the probe's tab and of the stamped document. |
| AgentRuns.ReportsAtMostOnce | extensions/shared/background.js:671-814 | A locate sends at most one report, and has sent it exactly when its probe is marked. |
| AgentRuns.OutcomesAtMostTwo | extensions/shared/background.js:745-870 | Per delivery the app hears at most two outcomes; the second is always the tripwire's, names the password the first one named, and never follows the worker's own giving up. |
| AgentHistory.StepExactly | extensions/shared/background.js:506-868 | What every event makes of each probe and each delivery, which it drops and which it makes, as a relation apart from the functions that compute it. |
| AgentHistory.TellsExactly | extensions/shared/background.js:777-868 | When an event makes the worker tell the app something, and that it is then told of that very event: its sender, document and tab, what was written and why it failed. |
| AgentHistory.DeliversExactly | extensions/shared/background.js:711-758 | A push makes a delivery exactly when its ids are usable and no delivery of that grant is held and not overdue; it spends the probe of its id if that is named and not overdue. |
| AgentHistory.LocatesExactly | extensions/shared/background.js:671-678 | A push makes a probe exactly when its id is usable and no probe of it is named and not overdue. |
| AgentHistory.HeldExactly | extensions/shared/background.js:506-523 | In any run a delivery is held exactly as long as its tab has not closed and no push with usable ids came more than a minute after it. |
| AgentHistory.NamedExactly | extensions/shared/background.js:506-523 | In any run a probe is named exactly as long as its tab has not closed, no push found it over ninety seconds old, and no delivery has spent it. |
| AgentHistory.FillFromReportedDocument | extensions/shared/background.js:800-812 | In any run whoever redeems a grant whose delivery spent a probe is in the very document that sent that probe's report, if the browser stamped it; and the report told the app of that document. |
| AgentHistory.FillStory | extensions/shared/background.js:671-838 | Behind every fill the app is asked for: a locate, a tab found for it, a deliver push that names it within ninety seconds, and a message from the top frame of that tab with the grant, before the tab closed or a push came a minute later. |
| AgentHistory.ReportStory | extensions/shared/background.js:777-812 | Behind every page the app is told of: a locate, a tab found for it, and a message from the top frame of that tab within five seconds, of which it tells. |
| AgentHistory.OutcomeStory | extensions/shared/background.js:840-868 | Behind every outcome the app is told: a script's report, with what it says it wrote and why it failed; a tripwire's, naming the password an earlier outcome named; or the worker giving up. |
| AgentLocating.FinishedLocateReported | extensions/shared/content.js:949-958 | With the content script, a finished locate has been reported under its id; and it has sent exactly one report of its own, except exactly when its script's report was taken for another locate that the id had come to name. |
| AgentLocating.LostWhenReused | extensions/shared/background.js:676-678 | A report is lost that way only to a locate accepted under the same id before the first one finished. |
| AgentLocating.UnreusedLocateReported | extensions/shared/background.js:671-708 | A locate whose id is not accepted again before it finishes sends exactly one report of its own. |
| AgentLocating.ReusedIdCostsReport | extensions/shared/background.js:671-708 | The exception is real: a run in which a probe id is accepted again leaves a finished locate without a report of its own. |
| AgentDelivering.DeliveringRunKeepsInv | extensions/shared/content.js:967-1032 | Over every run of the worker and the scripts of its deliveries, what a script has done agrees with what the worker has counted for its delivery, if no other delivery was made for that grant. |
| AgentDelivering.FirstReportTaken | extensions/shared/content.js:967-1012 | After any run the first report of a script whose grant has no other delivery is taken exactly when the worker still holds the delivery and has not given up; after a redemption in time it does not give up. |
| AgentDelivering.TripwireHeard | extensions/shared/content.js:1013-1029 | Likewise a tripped script is heard exactly when its first report was taken and the delivery is still held; the app is then told which password was cleared. |
| AgentDelivering.SoleExactly | extensions/shared/background.js:711-727 | A delivery is the only one of its grant exactly when the run accepted that grant only when it made it. |
| AgentDelivering.MisheardWhenReused | extensions/shared/background.js:711-727 | In any run, what a script says is taken for another delivery than its own only after its grant was accepted again and its own delivery had been dropped. |
| AgentDelivering.GivingUpKeepsGrant | extensions/shared/background.js:745-758 | Giving up does not withdraw the grant: afterwards exactly the senders that could redeem it before can, which is nobody exactly when the delivery was to no tab. |
| AgentDelivering.ReusedGrantCostsReport | extensions/shared/background.js:711-727 | A run in which a grant is pushed again after its delivery was dropped: the script of the first delivery is heard as the second's, and the second's own report is refused. |
| AgentWorker.Worker.PruneAgentState | extensions/shared/background.js:506-514 | Drops exactly the probes and deliveries past their time. |
| AgentWorker.Worker.ForgetAgentTab | extensions/shared/background.js:516-524 | Drops exactly the probes and deliveries of the tab. |
| AgentWorker.Worker.OnLocate | extensions/shared/background.js:671-678 | Makes a probe unless the id is taken. |
| AgentWorker.Worker.OnTabChosen | extensions/shared/background.js:680-702 | Asks the chosen tab, or reports that there is none. |
| AgentWorker.Worker.OnLocateAnswered | extensions/shared/background.js:701-707 | Ends the locate, with an empty report if nothing was reported. |
| AgentWorker.Worker.OnDeliver | extensions/shared/background.js:711-744 | Spends the probe, records the delivery, and asks its tab or gives up. |
| AgentWorker.Worker.OnDeliverAnswered | extensions/shared/background.js:745-758 | Gives up unless the page answered, or something was asked or told. |
| AgentWorker.Worker.OnReport | extensions/shared/background.js:781-814 | Takes a report once, in time, from the top frame of the asked tab. |
| AgentWorker.Worker.OnFill | extensions/shared/background.js:815-839 | Redeems a grant once, from its target. |
| AgentWorker.Worker.OnOutcome | extensions/shared/background.js:840-870 | Counts and tells a first outcome, or the tripwire's. |
| AgentWorker.Worker.Handle | extensions/shared/background.js:761-880 | Whichever handler slice is next, the worker takes the step of the runs and keeps their invariant. |
| NativeChannel.RunKeepsInv | extensions/shared/native.js:145-337 | At every task boundary of any run: request timers are the pending ids, no port means nothing pending, every request is pending or was resolved once, "ready" means a port, a lost port is being looked for by exactly one timer, and the k-th delay is the k-th of the schedule or its last. |
| NativeChannel.AnswersComeFromOwnFrames | extensions/shared/native.js:188-345 | A reply reaches the pending request whose id it carries, and no other. A timer resolves its request with a timeout; a request that cannot be sent, or loses its port, is resolved with an error; any other is pending under a new id. |
| NativeChannel.FailedAnswersInOrder | extensions/shared/native.js:188-198 | Dropping the port fails each waiting request once, in the order they were made. |
| NativeChannel.DropPortKeeps | extensions/shared/native.js:188-198 | Dropping the port leaves nothing pending and, with reconnecting on, a timer. |
| NativeChannel.DefaultDelaysGrow | extensions/shared/native.js:215-256 | With the default schedule waits never get shorter and never exceed thirty seconds. |
| NativeChannel.StatusAfterDrop | extensions/shared/native.js:187-198 | What the status is after any step that drops the port, a call that could not be made counted last among those that fail with it: "locked" exactly when the last handshake or status request of them is a status request, "error" exactly when it is a handshake, "disconnected" exactly when there is none. |
| NativeChannel.LockedWithoutPort | extensions/shared/native.js:448-487 | Nothing but such a drop makes a channel without a port "locked". |
| NativeChannel.StatusWithPort | extensions/shared/native.js:416-486 | In any run, while there is a port, the status is ready exactly when the last handshake or status request since the port was opened that says so was answered by a frame that the vault is unlocked; locked exactly when that says it is locked or was refused for it. |
| NativeChannel.ReconnectingExactly | extensions/shared/native.js:228-262 | When reconnecting is on, when its timer starts and with which delay, and what stops it: a welcome or turning it off starts the schedule over. |
| NativeChannel.UnpostedRefreshLocks | extensions/shared/native.js:327-335 | A run to "locked" with no port and nothing in flight: a status request after a welcome cannot be posted. |
| NativePort.NativePort.StopReconnecting | extensions/shared/native.js:228-234 | Stops the timer and starts the schedule over. |
| NativePort.NativePort.ScheduleReconnect | extensions/shared/native.js:242-256 | Starts a timer with the next delay unless one runs or reconnecting is off. |
| NativePort.NativePort.DropPort | extensions/shared/native.js:188-198 | Fails everything waiting and schedules a reconnect, as the channel's step does. |
| NativePort.NativePort.EnsurePort | extensions/shared/native.js:268-313 | Gives the live port, a new one, or drops what is left. |
| NativePort.NativePort.CallOverPort | extensions/shared/native.js:315-337 | Sends a request under a new id, or resolves it with an error. |
| NativePort.NativePort.EnsureHello | extensions/shared/native.js:416-446 | A handshake unless the session is there. |
| NativePort.NativePort.OnFrame | extensions/shared/native.js:278-301 | Resolves the request a reply is for, and runs what waits on it. |
| NativePort.NativePort.OnDisconnect | extensions/shared/native.js:303-310 | Drops the port, and runs what waited on it. |
| NativePort.NativePort.OnRequestTimer | extensions/shared/native.js:323-326 | Resolves a request that was not answered in time. |
| NativePort.NativePort.OnReconnectTimer | extensions/shared/native.js:246-255 | Says hello again, and schedules another try if that fails. |
| NativePort.NativePort.EnableAutoReconnect | extensions/shared/native.js:505-508 | Turns reconnecting on, with a schedule if one is given. |
| NativePort.NativePort.DisableAutoReconnect | extensions/shared/native.js:511-515 | Turns it off and stops the timer. |
| Base64Url.Base64Url | xtask/src/chrome_auth.rs:123-136 | The loops compute the encoding of section 5 of RFC 4648, (4n + 2) / 3 letters of its alphabet for n bytes. |
| Base64Url.Letter | xtask/src/chrome_auth.rs:124 | The written-out alphabet is the table of section 5 of RFC 4648. |
| Base64Url.EncodingExactly | xtask/src/chrome_auth.rs:122-136 | A text is the encoding of some bytes exactly when the strict decoder reads those bytes from it, so encoding is injective. |
| Base64Url.ChunkSextets | xtask/src/chrome_auth.rs:126-134 | Shifting a chunk as a 24-bit number gives the six-bit groups of its bits. |
| PercentCoding.PercentEncode | xtask/src/chrome_auth.rs:139-149 | The loop computes the encoding. |
| PercentCoding.PercentDecode | xtask/src/chrome_auth.rs:151-176 | The loop computes the decoding. |
| PercentCoding.DecodedPrefix | xtask/src/chrome_auth.rs:139-176 | Decoding undoes encoding, whatever follows the encoded value. |
| PercentCoding.EncodedExactly | xtask/src/chrome_auth.rs:138-149 | The encodings are exactly the texts of unreserved characters and uppercase triplets of other bytes, and on those decoding is undone by encoding. |
| PercentCoding.StrictExactly | xtask/src/chrome_auth.rs:151-176 | RFC 3986 gives a text a meaning exactly when every percent sign is followed by two hexadecimal digits. |
| PercentCoding.DecodedExactly | xtask/src/chrome_auth.rs:151-176 | The decoder agrees with RFC 3986 exactly on those texts without a plus sign, and with the reading of forms exactly on those texts. |
| PercentCoding.LenientDecoding | xtask/src/chrome_auth.rs:156-171 | Three other texts and what is read from them. |
| Redirect.ParseRedirect | xtask/src/chrome_auth.rs:188-218 | The loop over the pairs judges the line by the last value of each parameter: an error first, then the state, then the code. |
| Redirect.RedirectReadBack | xtask/src/chrome_auth.rs:188-218 | A line built from percent-encoded fields is judged by exactly those fields. |
| Redirect.CodeArrives | xtask/src/chrome_auth.rs:188-218 | One matching state and one code that is not empty, in any order among other parameters, give that code. |
| Redirect.NoCodeWithoutState | xtask/src/chrome_auth.rs:209-217 | No line yields a code unless it carries the expected state, that code, and no error. |
| Redirect.RedirectIsGet | xtask/src/chrome_auth.rs:188-195 | A line is a redirect exactly when it is a GET of the root with a query. |
| Redirect.RedirectExactly | xtask/src/chrome_auth.rs:188-218 | What a redirect comes to, by what its fields say last: an error with its value, a foreign or missing state, the code, or no code. |
| Redirect.FieldsReadBack | xtask/src/chrome_auth.rs:198-208 | The fields of a query come back, each with its own value, in order. |
| Redirect.ConsentUrlReadBack | xtask/src/chrome_auth.rs:98-115 | The consent address carries the nine parameters unchanged, whatever they contain. |
| StdinFrame.ParseFrame | xtask/src/chrome_publish.rs:193-218 | Accepts exactly the frames of one or more pairs with distinct well-formed names and UTF-8 values, gives their mapping, and names the first fault otherwise. |
| StdinFrame.Collect | xtask/src/chrome_publish.rs:203-217 | The loop over the pairs gives the mapping, or the first pair at fault and why. |
| StdinFrame.FramedIffRead | xtask/src/chrome_publish.rs:197-202 | Bytes are the frame of some pairs exactly when they are read as those pairs. |
| StdinFrame.MapOfExactly | xtask/src/chrome_publish.rs:203-216 | With distinct names the mapping has exactly the pairs. |
| StdinFrame.Pick | xtask/src/chrome_publish.rs:221-240 | Refuses exactly when a name is missing or empty, and lists those; otherwise gives each name its value, or the empty text if it is asked for twice: what the frame holds exactly when no name is asked for twice. |
| CurlConfig.Render | xtask/src/chrome_publish.rs:384-403 | Refuses exactly a value with a line break or a path that is not UTF-8, and otherwise writes the settings, one line each, so that curl reads back exactly those. |
| CurlConfig.SettingsExactly | xtask/src/chrome_publish.rs:384-403 | The settings are the address, the verb, each header, each field of the form and the file to upload, in that order. |
| CurlConfig.QuotedReadBack | xtask/src/chrome_publish.rs:373-381 | curl reads a quoted value back, and stops where it ends. |
| CurlConfig.Escaped | xtask/src/chrome_publish.rs:378-380 | One pass that escapes does what the two replacements do. |
| CurlConfig.ConfigReadBack | xtask/src/chrome_publish.rs:384-403 | curl reads a config as exactly the settings it was made of: no value can end its line or add a setting. |
| Framing.Socket.ReadExactly | apps/macos/KagisecureSafariExtension/AppGroupSocket.swift:223-241 | Gives the next bytes of the stream however they arrive; without failures, exactly when there are enough. |
| Framing.Socket.WriteAll | apps/macos/KagisecureSafariExtension/AppGroupSocket.swift:207-221 | Sends all of the data however it leaves; a failure leaves a proper part of it sent. |
| Framing.Socket.WriteFrame | apps/macos/KagisecureSafariExtension/AppGroupSocket.swift:176-192 | Sends one frame, or nothing if the body is too large. |
| Framing.Socket.ReadFrame | apps/macos/KagisecureSafariExtension/AppGroupSocket.swift:194-205 | Without failures the result and the rest of the stream depend on the bytes alone, not on their fragmentation. |
| Framing.TakenExactly | apps/macos/KagisecureSafariExtension/AppGroupSocket.swift:176-205 | A frame is read as its body whatever follows, and only a frame is read as a body. |
| Framing.TakenOtherwise | apps/macos/KagisecureSafariExtension/AppGroupSocket.swift:194-205 | Nothing is read from a stream that ends too early or announces more than 256 KiB, and which of the two it was is told. |
| Framing.ReplyExactly | apps/macos/KagisecureSafariExtension/AppGroupSocket.swift:117-131 | A reply is a frame of an object that has a body. |
| Framing.FramesReadBack | apps/macos/KagisecureSafariExtension/AppGroupSocket.swift:176-205 | Every sequence of bodies up to 256 KiB is recovered from its frames, in order. |
| Framing.Transfer | apps/macos/KagisecureSafariExtension/AppGroupSocket.swift:176-241 | Bodies written on one socket and read on another arrive unchanged and in order, for every two schedules of short transfers and interrupts. |
| Framing.Socket.Exchange | apps/macos/KagisecureSafariExtension/AppGroupSocket.swift:108-122 | The request is sent only after a greeting that was answered and not refused; the answer is the body of its reply, or the refusal. |
| Forms.Score | extensions/shared/forms.js:267-273 | The loop adds up the lengths of the words found. |
| Forms.BestOf | extensions/shared/forms.js:333-342 | The running best is the last of the best scored. |
| Forms.UsernameFor | extensions/shared/forms.js:310-349 | The first declared field, or else the last of the best scored before the password, unless it speaks against itself or nothing speaks for it; nothing exactly when no field fits. |
| Forms.UsernameUnique | extensions/shared/forms.js:310-349 | At most one field fits that description. |
| Forms.UsernameExactly | extensions/shared/forms.js:308-351 | The user name is the first text input of the password's form that declares itself; if none does, the last of the best scored before the password, or of all if none is before it, if no word speaks against it. |
| Forms.UsernameIsNear | extensions/shared/forms.js:311-318 | It is a fillable text field, and of the password's form whenever that has one. |
| Forms.NewPasswordExactly | extensions/shared/forms.js:285-296 | A visible password field is a new one exactly when declared so or not alone in its form (or on the page, without a form). |
| Forms.LoginPasswordExactly | extensions/shared/forms.js:389-412 | The login password is a visible password field that is alone and not new, a declared current one if there is any, and the first of those; found exactly when there is one. |
| Forms.DetectLoginForm | extensions/shared/forms.js:389-412 | The login form is that password with its user name. |
| Forms.SignupShapeRefusesLogin | extensions/shared/forms.js:427-440 | The shape of a sign-up form alone makes the login detector refuse, so the final cross-check never changes the answer. |
| Forms.SignupExactly | extensions/shared/forms.js:427-441 | A sign-up form is found exactly when the password inputs are one declared as new, or two, all visible, none the current password's, and of one form. |
| Forms.IdentifierExactly | extensions/shared/forms.js:545-576 | An identifier form is found exactly on a page with no usable password input whose only text box says by its declaration, type or words that it is a user name, and that has something to press. |
| Forms.DetectorsExclude | extensions/shared/forms.js:556-576 | No page is claimed by two of the three detectors. |
| Forms.DecoyIsIgnored | extensions/shared/forms.js:394-400 | What a hidden or off-canvas password field says changes nothing about the login form. |
| Forms.UsernameIgnoresCanvas | extensions/shared/forms.js:310-314 | Being on the canvas is asked of passwords only: it changes nothing about the user name. |
| Forms.DecoyIsUsername | extensions/shared/forms.js:310-349 | A page on which an off-canvas text field is the user name of the login form. |
| ContentScript.Document.SetFieldValue | extensions/shared/forms.js:592-612 | One write, the page's reaction to it, and whether the field holds the value then. |
| ContentScript.Document.ApplyFill | extensions/shared/content.js:435-478 | Does what the specification of a fill says, in its order of checks and writes. |
| ContentScript.Document.ApplySignup | extensions/shared/content.js:487-537 | The same for a sign-up. |
| ContentScript.Document.ApplyAgentCode | extensions/shared/content.js:894-905 | Writes the code only into the field the delivery found and the detector still finds. |
| ContentScript.WholeFillExactly | extensions/shared/content.js:455-477 | A whole login fill writes nothing unless every field it carries fits; then it writes each once, in order. |
| ContentScript.HumanFillExactly | extensions/shared/content.js:420-477 | A human's fill writes exactly the fields that fit. |
| ContentScript.SignupExactly | extensions/shared/content.js:487-537 | A sign-up fill writes nothing unless the approved form is still there and fits; then the user name, and the password into every box unless the name was rejected. |
| ContentScript.LoginGoesAhead | extensions/shared/content.js:443-477 | A whole login fill writes something exactly when every field it carries is there, connected, usable and, for the password, a password input of a login page. |
| ContentScript.SignupGoesAheadExactly | extensions/shared/content.js:487-518 | A sign-up fill writes something exactly when the reply is a sign-up's, the detector still finds the target's boxes and user name, and all of them can take their value. |
| ContentScript.LoginOutcome | extensions/shared/content.js:435-478 | What a login fill reports: not writable and nothing written; or which writes stuck, and a rejection if any did not. |
| ContentScript.SignupOutcome | extensions/shared/content.js:487-537 | What a sign-up fill reports: what kept it from writing; or the user name and the password as far as every write of them stuck, and a rejection if any did not. |
| ContentScript.CodeExactly | extensions/shared/content.js:894-905 | A code is written exactly when the delivery's field can take it and the detector still finds that field; otherwise nothing is, and why is said. |
| ContentScript.AllOrNothingExactly | extensions/shared/content.js:420-525 | All writes of a whole fill stick or none does, whatever the page does, exactly when the fill writes no password after another write: no user name first, and no second box. |
| ContentScript.HalfASignup | extensions/shared/content.js:482-530 | A page that only clears the confirmation box of a sign-up: the password stays in the first box, nothing is named, and nothing is watched. |
| ContentScript.NamesAllOrNothingExactly | extensions/shared/content.js:420-478 | What a whole fill names is all it carries or nothing, whatever the page does, exactly when it does not write a user name and then a password. |
| ContentScript.PasswordIntoPasswordExactly | extensions/shared/content.js:453-525 | Every password goes into a password input, whatever the page does, exactly when no other write comes before one: no user name, and no other box of a sign-up. |
| ContentScript.WrittenWasAskedFor | extensions/shared/content.js:424-433 | A fill names only what the reply carried for that kind of form, and never both kinds of password. |
| ContentScript.WatchedExactly | extensions/shared/content.js:994-1010 | If the password is named as written, exactly the fields it went into are watched, every box of a sign-up; if it is not named, nothing is watched, even if it was written. |
| ContentScript.WatchesAllExactly | extensions/shared/content.js:997-1003 | They are all watched, whatever the page does, exactly when the fill means to write no password. |
| ContentScript.ExposedUnwatched | extensions/shared/content.js:997-1015 | For every fill that writes a password, a page that ends with the password readable in a text field which nothing says was written and nothing watches. |
| ContentScript.Tripwires.constructor | extensions/shared/content.js:920-946 | Arming trips exactly if some watched field is no password input; then all are emptied and that is told, and else nothing is touched. |
| ContentScript.Tripwires.Check | extensions/shared/content.js:931-936 | The first field to stop being a password input empties all watched ones and is told once; later ones empty themselves. |
| AnswerDelivery.AppliedIsFirstReport | extensions/shared/content.js:994-1010 | What a delivery reports of its writes is no tripwire's report, names one kind of password at most, and names one exactly when fields are watched. |
| AnswerDelivery.FoundIsFillable | extensions/shared/content.js:856-878 | A login's user name, its password or a code is found exactly when a fill of that value alone would write it. |
| AnswerDelivery.FoundIsSignup | extensions/shared/content.js:859-867 | A sign-up is found, with or without a user name, exactly when a fill of it would write it while the detector still finds its form. |
| AnswerDelivery.Answering.Detected | extensions/shared/content.js:967-987 | Without a target, or without a field that can be written, that is reported; otherwise the grant is sent, with what was found. |
| AnswerDelivery.Answering.ReplyArrived | extensions/shared/content.js:988-1029 | A refusal writes and says nothing. Any other answer is written, reported and watched in one turn; if the password was reported and one of its fields is no password input by then, all of them are emptied in that turn. |
| AnswerDelivery.Answering.ReportAnswered | extensions/shared/content.js:1016-1026 | A trip that waited for the first report to be answered is told then. |
| AnswerDelivery.Answering.WireLooks | extensions/shared/content.js:1013-1026 | The first trip after that is told at once, and no trip twice. |
| AnswerDelivery.Answering.Arrives | extensions/shared/content.js:967-1032 | Whatever the handler has sent, its arrival at the worker is a move of the script in the runs of worker and scripts. |

## Left out

- Invitations in the exchange folder: copied by the same loops without the hash check, so they only add easy members; they also count in the report of a pass.
- The temporary file and rename of `writeNew`: a write is one atomic step, or fails; no crash in the middle of one.
- `agentTargetTab`: its ranking is a sort over abstract tab attributes; the tab it chooses is a parameter of the step.
- `originOf` and URL parsing, JSON, Unicode normalisation: abstract functions, or already parsed values.
- The lossy conversion of bytes to text in the redirect parser: a parameter assumed to keep valid UTF-8.
- SHA-256 and signatures: the hash is a parameter, and signatures are not checked in these files.
- The Safari one-message transport, the contents of `hello`, the texts and evidence of the channel's state.
- Which raw fields make a frame a push: a frame is already a push, a reply with an id, or something else.
- The background worker's match, fill and recall arms that call the tab memory; the memory holds for every history of calls.
- `syncOnForeground`, the vault sessions behind a sync, and how a folder is resolved: a vault may add valid records to its mirror at any time.
- `SyncCoalescing.WatcherDoesNotFeedItself`: says nothing of a task that was already waiting when the quiet time began; such a task does act inside it.
- `Convergence.Converges`: is about runs of passes; while vaults keep adding records there is no fixed union to reach, and `Convergence.NothingLost` is what holds then.
- `AgentDelivering.FirstReportTaken`: is about deliveries whose grant the run accepted for no other one, because the worker cannot tell two scripts of one document apart; the run in `AgentDelivering.ReusedGrantCostsReport` breaks it for another.
- `AgentDelivering.TripwireHeard`: is about the same deliveries.
- `AgentDelivering.DeliveringRunKeepsInv`: is about the same deliveries.
- Messages about a grant from the document of a held delivery that no delivery's script sent: the runs of worker and scripts have none, as only the extension's own script can send them.
- `detectOtpField`, rectangles, visibility, labels and the search for submit buttons: abstract attributes of a page.
- Grapheme clusters in `isRecordName`: names are sequences of characters.
- Focus events after a fill, and overlays, menus and the popup.
- `ContentScript.Tripwires.Check`: does not model the ten-second timer or the mutation observer; any wire may look or stop at any time.
- The waiting for visibility in `answerDelivery`: what is detected after it, and whether the page is visible, are parameters.
- `becomesVisible`, `isTopFrame` and the frame a message is addressed to: part of what the browser may do.
- The release tooling that runs other programs, and the Rust vault crates, whose source is not part of this model.
