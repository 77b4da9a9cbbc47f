# A verified model of mclog

mclog sends log messages between hosts by encrypted multicast and writes them to files that
roll over. This project models, in Dafny, the parts of it that hold state across calls or
that must undo each other, and proves what they are for:

- **Key request** (`KeyExchange`, `KeyRequesters`, `KeyRequestListeners`, `ListenerSessions`,
  `Handshake`): the two automata of the four-datagram handshake, the listener that runs one automaton for each
  endpoint, and the whole network of any number of requesters and listeners. Datagrams may be
  lost, duplicated, reordered and misdelivered, but not forged. In every run a requester that
  succeeds agrees with a finished session of the listener that it believes to have asked.
- **Multicast source** (`MulticastSteps`, `MulticastCalls`, `MulticastSources`): the receiver thread
  and the query thread as single steps on what they share, interleaved in any way: no packet is
  lost or delivered twice, the backlog is bounded and sorted, at most one query runs, and exactly
  when packets are delivered in order. `MulticastCalls` says what a whole call does that is left
  alone, and has a concrete run in which the order is lost. `MulticastSources` is the code on an
  object: whatever the query threads and the clock do before each access to what is shared, the
  object takes the steps of a run, so that all of this holds of it.
- **Log rollover** (`Calendar`, `RollIntervals`, `Civil`, `Decimal`, `Archives`, `RollingLog`): the marks
  at which a log rolls, over the POSIX calendar (section 4.16 of POSIX.1-2017 Base Definitions),
  the shifting of archives in a directory that is listed in any order, and a log file whose
  archives are a sliding window over everything it has accepted.
- **Packets** (`Wire`, `Codecs`, `MessagePackets`, `Senders`, `MulticastPath`): the buffer that
  messages are added to and encrypted in, the two batching loops, and the receive loop. Every
  message that fits a packet arrives, once and in order, exactly when the receiver accepts all of
  them. `MulticastPath` follows a multicast sender's datagrams to the sinks of a source.
- **Text form** (`Scanning`, `Formats`, `Timestamps`, `TextForm`, `TextStreams`, `TextLayout`):
  printing and parsing of whole streams of messages, with the exact condition for getting the
  same back, and the texts themselves character by character.
- **Routing** (`LogRouting`, `RoutedLogs`, `Misrouting`): log paths, the cache of them, the files
  that messages are appended to, and exactly when the cache gives each message its own path.

Code that computes values is modelled by functions; code that changes objects in place is
modelled by classes and loops whose contracts equate the new state with a function of the old
one, and lemmas prove what that function is for. Times are counted in seconds or
microseconds from the epoch, and the integer widths that matter are types (`uint32`, `uint64`).

## Where the code does not do what it seems to promise

Each of these follows the code; the lemma named gives the exact condition or a concrete case.

- Seven-day roll intervals do not tile time. They are cut on days 7, 14, 21 and 28 of a month
  and seven days after the 28th. `WeeksTileExactly` says at which times an interval is the same
  at each of its instants; `SevenDaysDoNotTile` is an instance. All other periods tile.
- A message with empty text, with text that starts with white space or holds a newline, with an
  appname of 255 bytes, or with a facility outside the enumeration is printed but not read back
  (`MessageRoundTrip`, `StreamRoundTrip`: if and only if). Offsets with seconds, year 10000
  and the time zero do not survive either (`TimestampRoundTrip`: if and only if).
- A message that reading refuses costs the receiver the rest of its datagram (`ReceiveLoop`,
  `ReceivedWhole`). A message whose encoding exceeds 1160 bytes is dropped by the senders,
  after the pending packet has been sent for it, even if that packet is empty: no empty packet
  is sent if and only if each such message comes right after one that fits, with no timeout in
  between (`NoEmptyPackets`; `OneMessage` is an instance, and `CodecsExist` has such messages).
- `LoopbackSender::Run` sends its pending packet when it is stopped, `MulticastSender::Run` does
  not: what was popped and fits arrives if and only if all that was sent is accepted and no
  message was popped since the last timeout, or the last one fits no packet
  (`MulticastToReceiver`, `LeftPending`; `OneMessage` is an instance).
- The comment in `DwmMclogMulticastSource.hh` speaks of a delay between key queries and of keys
  newer than backlog entries; the code has neither, because the copy of a key does not carry its
  times. `Deciding` therefore compares with the epoch.
- Delivery order can be lost: `OutOfOrder` is a run. A run is in order all the time if and only if
  no packet overtakes those that wait (`OrderedExactly`), and a packet overtakes exactly when it
  opens after the second read of the key in its call found none while packets were waiting
  (`OvertakesIfSkipped`). It is sufficient that no query empties the key between the two reads
  (`OrderedDelivery`), but not necessary, since that does no harm while nothing waits.
- The cache key packs facility and severity with a bitwise or. Facilities that are not multiples
  of 8 collide with others (`FacilitiesCollide`: if and only if), and reading from the wire lets
  them through. `MisroutedFromTheWire` has two messages from the wire of which the second does not
  reach the log of its facility. The cache routes a list of messages rightly
  under every configuration if and only if any two of them with the same key have the same
  facility name (`RoutedRightlyExactly`); with the severities that there are, that is if both
  have facilities of the enumeration or neither has (`AlikeByFacility`).

## Assumptions

- Public keys that are made are all different, a signature shows its signer and its content, an
  encrypted datagram opens under its own key only, and an encrypted datagram that is read as a
  public key does not begin with anybody's public key. A public key is sent as one length byte
  and 32 bytes of key.
- Authenticated encryption with real lengths cannot tell all keys apart, because there are more
  keys than tags. `Aead.Lawful` therefore only says that a text opens under its own key, and a
  statement about another key takes as hypothesis that the scheme distinguishes the two
  (`Aead.Distinguishes`); `LawsAreConsistent` shows a scheme that meets both.
- How integers and short strings are encoded is a parameter: any encoders whose decoders read
  back what was written, whatever follows it (`Codec.Lawful`; `CodecsExist` shows some).
- The local time has a constant offset from UTC. `sscanf` and `strftime` follow the C standard on
  the formats used. `operator<<` of a stream does not fail.
- Files can be renamed, removed and opened; the name of a log is matched literally; archives
  found in the directory are named as the program names them; a compression ends before the
  next roll. `tellp`, the clock and the modification time of a file are parameters.
- Names put into a path pattern are put in literally: no hostname or appname begins with a digit
  or holds a character that a format string of the Boost library gives a meaning to.
- `Thread::Queue` refuses `PushBack` when it is full. The two plain writes of `_key` are one step
  each. `MessagePacket` asserts that its buffer is longer than 40 bytes; where a shorter datagram
  is given to it, the model follows the code without the assertion, which fails to decrypt.

## Model

| member | source | states |
|---|---|---|
| Handshake.KeyAgreement | classes/src/DwmMclogKeyRequesterState.cc:103-204 | in every run, a requester in `Success` knows the identity `_theirId`, holds the multicast key of a listener with that identity, and that listener had, at some time of the run, a finished session with the requester's public key as `_theirKX`, the same shared key, and the requester's identity |
| Handshake.ListenersAuthenticate | classes/src/DwmMclogKeyRequestListener.cc:121-194 | in every run, each `_clientsDone` entry is in `IDSent`, for a known identity that signed that session's own public key and sent it encrypted with that session's shared key, from a request whose peer is that session; no `_clients` entry is in `IDSent` |
| Handshake.OneRequesterPerSession | classes/src/DwmMclogKeyRequesterState.cc:128-166 | no two requesters of a run agree with the same session |
| Handshake.KeyOnlyToKnown | classes/src/DwmMclogKeyRequestClientState.cc:136-159 | in every run, a multicast key is sent only encrypted with a key shared with a request whose identity the listener knows |
| Handshake.AlwaysInv | classes/src/DwmMclogKeyRequestClientState.cc:91-232 | the inductive invariant over all runs: who sent each datagram on the network, whom each session has authenticated and with whom each requester agrees |
| Handshake.NotFromRequester | classes/src/DwmMclogKeyRequesterState.cc:139-145 | no requester has signed a content of the size and form of a listener's: the 32-byte and the 64-byte contents are not confused |
| Handshake.NotFromListener | classes/src/DwmMclogKeyRequestClientState.cc:171-172 | no listener has signed a content of the size of a public key |
| Handshake.CompletesIfAcquainted | classes/src/DwmMclogKeyRequester.cc:61-113 | when each datagram that is sent arrives in turn, the requester gets the listener's key if and only if each knows the other |
| Handshake.SomeRunSucceeds | classes/src/DwmMclogKeyRequester.cc:61-113 | for any listener and requester that know each other there is a run in which the requester gets the listener's key |
| Handshake.WasDone | classes/src/DwmMclogKeyRequestListener.cc:152-155 | a session recorded as done was in `_clientsDone` at some time of the run |
| KeyExchange.SharedTells | classes/src/DwmMclogKeyRequesterState.cc:110 | two shared keys with a public key in common are equal exactly when the other public keys are |
| KeyRequesters.RequesterAdvances | classes/src/DwmMclogKeyRequesterState.cc:103-220 | every packet raises the rank of the requester's state or leaves the state alone; `Success` and `Failure` absorb; the result is true exactly in `IDSent` and `Success`; something is sent exactly when `KXKeySent` becomes `IDSent` |
| KeyRequesters.KeyAnswered | classes/src/DwmMclogKeyRequesterState.cc:103-125 | the first datagram: any key makes the shared key and is answered with the requester's identity and its signature of that key |
| KeyRequesters.AnswerTaken | classes/src/DwmMclogKeyRequesterState.cc:128-204 | the second: it succeeds exactly on a known identity's signature of the own public key and 32 more bytes, under the shared key, and takes those bytes |
| KeyRequesters.WaitingEnds | classes/src/DwmMclogKeyRequester.cc:76-95 | a second without a packet ends the waiting, an empty receive does not, a refused packet does |
| KeyRequesters.TwoPacketsAtMost | classes/src/DwmMclogKeyRequester.cc:76-95 | however many packets come, a request processes two at most, sends one at most, and has a 32-byte key exactly when it ends in `Success` |
| KeyRequesters.GetKey | classes/src/DwmMclogKeyRequester.cc:61-113 | the drive loop: the key returned is not empty exactly in `Success`, at most two packets are processed, and state and datagrams are those of the specification |
| KeyRequesters.WaitForAnswers | classes/src/DwmMclogKeyRequester.cc:76-95 | the loop does to the object what `Driven` does to its value |
| KeyRequesters.KeyRequesterState.ProcessPacket | classes/include/DwmMclogKeyRequesterState.hh:79-83 | calls the current state's handler: new state, datagrams sent and result |
| KeyRequesters.KeyRequesterState.KXKeySent | classes/src/DwmMclogKeyRequesterState.cc:103-125 | takes any key, derives the shared key, sends identity and signature, and fails when reading or sending does |
| KeyRequesters.KeyRequesterState.IDSent | classes/src/DwmMclogKeyRequesterState.cc:169-204 | succeeds exactly on a packet with a known identity's signature of the own public key and a 32-byte key; fails otherwise |
| KeyRequesters.KeyRequesterState.IsValidUser | classes/src/DwmMclogKeyRequesterState.cc:128-166 | accepts a known signer's content of the right size that begins with the own public key, and then stores the rest as the multicast key |
| KeyRequestListeners.SessionAdvances | classes/src/DwmMclogKeyRequestClientState.cc:91-247 | every packet raises the rank of the session's stage or leaves the stage alone; `IDSent` and `Failure` absorb; the change time moves exactly with the stage; the result is true, and something is sent, exactly when a stage other than `Failure` is reached |
| ListenerSessions.FirstDatagram | classes/src/DwmMclogKeyRequestClientState.cc:91-133 | an endpoint's first datagram makes a session, answered if it reads as a key of 32 bytes and the answer can be sent, and failed otherwise |
| ListenerSessions.StrayIgnored | classes/src/DwmMclogKeyRequestClientState.cc:203-230 | a datagram of 40 bytes or more that does not open under the session's key changes nothing and is not answered |
| ListenerSessions.ShortDatagram | classes/src/DwmMclogKeyRequestClientState.cc:195-199 | one of less than 40 bytes ends the session |
| ListenerSessions.IdentityOnly | classes/src/DwmMclogKeyRequestClientState.cc:205-224 | an identity without signature is noted and leaves the session open |
| ListenerSessions.SignedIdentity | classes/src/DwmMclogKeyRequestClientState.cc:207-219 | a signed identity ends the session unless a known identity signed its public key; then it is answered and done, or stays open if the answer cannot be sent |
| ListenerSessions.OverIsOver | classes/src/DwmMclogKeyRequestClientState.cc:243-247 | a session that has failed takes nothing more |
| ListenerSessions.OthersUntouched | classes/src/DwmMclogKeyRequestListener.cc:150-155 | no datagram touches another endpoint's session or those that are done |
| ListenerSessions.AnsweredAfterStrays | classes/src/DwmMclogKeyRequestListener.cc:128-192 | after any number of rounds in which an endpoint sends only what leaves its session open, within five seconds, the valid datagram of a known identity still finishes the session and gets the answer |
| ListenerSessions.RoundsLeaveRecent | classes/src/DwmMclogKeyRequestListener.cc:67-77 | after each round of the loop only sessions are left that changed within five seconds |
| ListenerSessions.BothSocketsHeard | classes/src/DwmMclogKeyRequestListener.cc:139-190 | valid datagrams on both sockets at once are both answered |
| KeyRequestListeners.KeyRequestClientState.ProcessPacket | classes/include/DwmMclogKeyRequestClientState.hh:89-91 | calls the current state's handler: new state, datagrams sent and result |
| KeyRequestListeners.KeyRequestClientState.InitialPacket | classes/src/DwmMclogKeyRequestClientState.cc:91-133 | takes a 32-byte key, derives the shared key and answers with the own public key; fails otherwise |
| KeyRequestListeners.KeyRequestClientState.KXKeySentPacket | classes/src/DwmMclogKeyRequestClientState.cc:192-232 | fails on a short packet or an invalid user, stays where it is on what does not decrypt or read or could not be answered, and else sends the key |
| KeyRequestListeners.OnlyRecentLeft | classes/src/DwmMclogKeyRequestListener.cc:67-77 | after `ClearExpired`, exactly the entries of both collections whose state changed within five seconds are left, unchanged |
| KeyRequestListeners.UnexpiredAreRecent | classes/src/DwmMclogKeyRequestListener.cc:70-73 | erasing keeps exactly the entries that have not expired |
| KeyRequestListeners.EraseExpired | classes/src/DwmMclogKeyRequestListener.cc:73 | the erasing loop computes those entries, in their order |
| KeyRequestListeners.KeyRequestListener.ClearExpired | classes/src/DwmMclogKeyRequestListener.cc:67-77 | both collections lose their expired entries and nothing else |
| KeyRequestListeners.KeyRequestListener.Receive | classes/src/DwmMclogKeyRequestListener.cc:147-157 | inserts a session only for a new endpoint, steps it, and moves it to those that are done when it has succeeded |
| KeyRequestListeners.KeyRequestListener.Run | classes/src/DwmMclogKeyRequestListener.cc:128-192 | the loop does, round by round, what the specification does, expiry included |
| KeyRequestListeners.KeyRequestListener.RunOnce | classes/src/DwmMclogKeyRequestListener.cc:142-191 | one round: a packet on either socket, then the expiry |
| MulticastSteps.EachPacketOnce | classes/src/DwmMclogMulticastSource.cc:265-352 | in every interleaving each packet given to `ProcessPacket` is, exactly once, delivered, undecryptable, expired, refused by the full backlog, in the backlog or at hand |
| MulticastSteps.AlwaysConserved | classes/src/DwmMclogMulticastSource.cc:265-386 | the invariant behind it: the packets in all places together are the packets that arrived |
| MulticastSteps.NextConserves | classes/src/DwmMclogMulticastSource.cc:265-386 | every step of either thread keeps it |
| MulticastSteps.OrderedExactly | classes/src/DwmMclogMulticastSource.cc:311-352 | a run is in the order of arrival all the time if and only if no packet is delivered while older ones wait |
| MulticastSteps.OvertakesIfSkipped | classes/src/DwmMclogMulticastSource.cc:265-269 | that happens exactly when the packet at hand opens after its call's second read of the key found none while packets were waiting |
| MulticastSteps.OpenedWithReadKey | classes/src/DwmMclogMulticastSource.cc:267-274 | in every run, what is delivered from the backlog was opened with the key stored at its call's second read, and the packet at hand with that of the first |
| MulticastSteps.OrderedDelivery | classes/src/DwmMclogMulticastSource.cc:311-352 | it is sufficient that no query empties the key between the two reads of it in one call |
| MulticastSteps.NextKeepsOrder | classes/src/DwmMclogMulticastSource.cc:265-352 | a step keeps the order if and only if it does not deliver the packet at hand while others wait |
| MulticastSteps.NextKeepsBacklogFirst | classes/src/DwmMclogMulticastSource.cc:268-290 | unless the key is emptied in between, the backlog is empty when the packet at hand is decrypted |
| MulticastSteps.BacklogAlwaysInOrder | classes/src/DwmMclogMulticastSource.cc:167-171 | the backlog is always sorted by receive time and never longer than 100 |
| MulticastSteps.ClearingLeavesTheYoung | classes/src/DwmMclogMulticastSource.cc:292-308 | clearing ends exactly when the sampled time is less than 5,000,000 microseconds after each entry's receive time, and drops only others |
| MulticastSteps.AtMostOneQuery | classes/src/DwmMclogMulticastSource.cc:362-386 | at most one query thread is unfinished, exactly when `_queryDone` is false and none is about to be started; a thread is started only when no other is left to be joined |
| MulticastSteps.AlwaysOneQuery | classes/src/DwmMclogMulticastSource.cc:362-386 | the invariant behind it, in every interleaving |
| MulticastSteps.ReceiverAdvances | classes/src/DwmMclogMulticastSource.cc:311-352 | every step takes a call of `ProcessPacket` closer to its end, except that joining may wait for a thread that has already stored its result |
| MulticastSteps.DeliveriesAreGenuine | classes/src/DwmMclogMulticastSource.cc:316-332 | what is delivered is what a key that is not empty opened of the packet that arrived, unless a failed decryption had overwritten that packet |
| MulticastCalls.HandledInSteps | classes/src/DwmMclogMulticastSource.cc:311-352 | the steps of a call that is left alone add up to the whole call as specified |
| MulticastCalls.HandledIfAlone | classes/src/DwmMclogMulticastSource.cc:311-352 | and that is where they end, however many are taken |
| MulticastCalls.DrainingSteps | classes/src/DwmMclogMulticastSource.cc:265-289 | draining, step by step, is the loop of `ProcessBacklog` |
| MulticastCalls.ClearingSteps | classes/src/DwmMclogMulticastSource.cc:292-308 | clearing, step by step, is the loop of `ClearOldBacklog` |
| MulticastCalls.ClearedKeepsTheYoung | classes/src/DwmMclogMulticastSource.cc:292-308 | clearing a sorted backlog drops exactly the entries received 5,000,000 microseconds ago or earlier |
| MulticastCalls.CallWithoutKey | classes/src/DwmMclogMulticastSource.cc:344-350 | a lone call without a key: the packet waits unless a hundred do, a query runs, and of those that wait exactly the ones younger than five seconds are kept |
| MulticastCalls.CallThatDelivers | classes/src/DwmMclogMulticastSource.cc:316-333 | a lone call whose key opens the packet: the backlog is drained, then the packet is delivered |
| MulticastCalls.CallThatForgets | classes/src/DwmMclogMulticastSource.cc:334-342 | a lone call whose key does not: the backlog is drained, the key is forgotten, the packet waits and a query runs |
| MulticastCalls.DrainedInOrder | classes/src/DwmMclogMulticastSource.cc:270-286 | draining delivers, in their order, the packets that the key opens |
| MulticastCalls.DrainingKeeps | classes/src/DwmMclogMulticastSource.cc:265-289 | draining empties the backlog and leaves key, clock and queries alone |
| MulticastCalls.OutOfOrder | classes/src/DwmMclogMulticastSource.cc:316-318 | a run in which a packet is delivered after a later one |
| MulticastSources.MulticastSource.ProcessPacket | classes/src/DwmMclogMulticastSource.cc:311-352 | whatever the other threads do meanwhile, the call is steps of the run with this packet as its next arrival, the result is as the source has it, and nothing is left that is five seconds old; without a key, of the packets that waited and this one, if fewer than 100 waited, exactly the ones younger than that are left |
| MulticastSources.MulticastSource.ProcessBacklog | classes/src/DwmMclogMulticastSource.cc:265-289 | takes the steps of draining under the key it reads, with interference before each access |
| MulticastSources.MulticastSource.ClearOldBacklog | classes/src/DwmMclogMulticastSource.cc:292-308 | takes the steps of clearing and drops exactly the entries received 5,000,000 microseconds ago or earlier at the time it reads |
| MulticastSources.MulticastSource.PushBack | classes/src/DwmMclogMulticastSource.cc:336-345 | appends the packet with the time, unless a hundred wait |
| MulticastSources.MulticastSource.StartQuery | classes/src/DwmMclogMulticastSource.cc:362-372 | takes the steps of starting a thread if none is unfinished, with interference before each access |
| MulticastSources.MulticastSource.WaitForThread | classes/src/DwmMclogMulticastSource.cc:365-367 | a thread that is joined has stored its result, so that waiting for it ends |
| MulticastSources.MulticastSource.QueryStep | classes/src/DwmMclogMulticastSource.cc:375-386 | each access of the query thread does to the object what its step does |
| MulticastCalls.QueryRuns | classes/src/DwmMclogMulticastSource.cc:375-386 | the steps of a query thread, without interference, store the key and that the query is done |
| MulticastPath.SinksGetBatches | classes/src/DwmMclogMulticastSender.cc:306-355 | of one sender's datagrams, arriving in any selection and order, under every interleaving, the sinks get from the packets not overwritten by a failed decryption the messages of whole batches, each up to the first that reading refuses; in the order of arrival and none twice if no packet overtakes |
| MulticastPath.WholeBatches | classes/src/DwmMclogMulticastSource.cc:323-332 | if all the messages sent are accepted, those are whole batches |
| MulticastPath.OpensToItsBatch | classes/src/DwmMclogMulticastSource.cc:321-322 | a datagram that opens does so with its sender's key, to its batch |
| RollingLog.ProcessAll | classes/src/DwmMclogLogFile.cc:293-374 | after any sequence of messages the file `base.n.ext` holds the n-th most recently closed segment for exactly the n below the number of closed segments that are 0 or below keep; the closed segments, oldest first, and the active file are what was there followed by every message; as many segments were closed as calls found the file at its size limit, or timestamp and clock at the end in force; foreign files stay |
| RollingLog.MarksAdvance | classes/src/DwmMclogLogFile.cc:329-330 | over any sequence of messages with a clock that does not go back, after a roll that the time demanded every later mark lies beyond the one it was demanded by, so no mark triggers two rolls |
| RollingLog.EndIsIntervalEnd | classes/src/DwmMclogLogFile.cc:367-374 | the end in force is always that of the interval around the time at which it was set |
| RollingLog.LogFile.Process | classes/src/DwmMclogLogFile.cc:293-333 | rolls when the size limit is reached, whatever the clock, and otherwise exactly when timestamp and clock have reached the end in force; appends the message to the active file, keeps the archives a window of the history, and touches no foreign file |
| RollingLog.LogFile.Roll | classes/src/DwmMclogLogFile.cc:354-374 | closes the active segment, shifts the archives, and sets the interval to the current one |
| RollingLog.LogFile.FinishCompression | classes/src/DwmMclogLogFile.cc:360-362 | the pending segment becomes archive 0 and the window stays |
| RollingLog.LogFile.Open | classes/src/DwmMclogLogFile.cc:250-280 | a file last written before the interval began is rolled first; nothing accepted is lost |
| RollingLog.WindowSlides | classes/src/DwmMclogLogFile.cc:336-364 | shifting the archives and renaming the active file moves the window by one segment |
| RollingLog.RunKeepsEverything | classes/src/DwmMclogLogFile.cc:293-317 | over any run, closed segments and active file hold everything accepted, in order, and each roll closes one segment |
| RollingLog.ClosedSegmentsStay | classes/src/DwmMclogLogFile.cc:367-374 | closed segments never change |
| Archives.RollArchives | classes/src/DwmMclogLogFile.cc:336-351 | moves archive n to n+1 exactly when n+1 < keep, removes all others, never renames onto an existing file, and leaves unrelated files alone |
| Archives.GetArchives | classes/src/DwmMclogLogFile.cc:377-403 | the numbers of exactly the archives in the directory, highest first, whatever the order of the listing |
| Archives.Series.NumberOfName | classes/src/DwmMclogLogFile.cc:384-393 | the number parsed from an archive's name is the number that the name was made from |
| Archives.Series.ArchiveForm | classes/src/DwmMclogLogFile.cc:384-391 | archives are exactly the files named base, dot, digits, dot, extension |
| Archives.Series.ShiftedMeans | classes/src/DwmMclogLogFile.cc:342-349 | after the shift `base.n+1.ext` is what `base.n.ext` was if n+1 is below keep, and is gone otherwise, as is archive 0 |
| RollIntervals.NextMark | classes/src/DwmMclogRollInterval.cc:113-140 | loop, cleared fields and `mktime` yield the end of the interval as defined without broken-down time |
| Civil.MarksAreMultiples | classes/src/DwmMclogRollInterval.cc:62-74 | that end is the next multiple, in local time, of the period that the name says, in seconds, for all periods but seven days; and every interval is as long as its name says |
| Civil.WeekMarkIsCivil | classes/src/DwmMclogRollInterval.cc:73 | for seven days it is midnight of the next day of the civil month that is a multiple of seven, counted on beyond the month's end |
| Civil.LocaltimeIsCivil | classes/src/DwmMclogRollInterval.cc:120 | local time has the civil date of its day, in closed form, and the time of day of its second |
| Civil.TimegmIsCivil | classes/src/DwmMclogTimestamp.cc:92 | `timegm` counts by the same closed form, with fields out of range counted on |
| Civil.MonthLengths | classes/src/DwmMclogRollInterval.cc:120-139 | the months have the lengths of the closed form |
| RollIntervals.MarkIsIntervalEnd | classes/src/DwmMclogRollInterval.cc:121-139 | setting the field to its least multiple above and normalising lands on that end, day 35 included |
| RollIntervals.IntervalContainsNow | classes/src/DwmMclogRollInterval.cc:159-175 | for every period and time, `StartTime() <= t < EndTime()` and `EndTime() - t` is at most the period |
| RollIntervals.IntervalsTile | classes/src/DwmMclogRollInterval.cc:62-74 | for all periods but seven days the interval is the same at each of its instants |
| RollIntervals.WeeksTileExactly | classes/src/DwmMclogRollInterval.cc:73 | for seven days it is so if and only if the interval is not cut by a month's end |
| RollIntervals.SevenDaysDoNotTile | classes/src/DwmMclogRollInterval.cc:73 | at a time in January 1970 it is not |
| RollIntervals.TimedRollAdvances | classes/src/DwmMclogRollInterval.cc:159-163 | setting the interval at or after its end moves the end strictly forward, beyond the current time |
| RollIntervals.IntervalEndGrows | classes/src/DwmMclogRollInterval.cc:113-140 | a later time has no earlier mark, for every period |
| Calendar.PosixDayCount | classes/src/DwmMclogTimestamp.cc:92 | the calendar's day count, built from the lengths of years, is the formula of POSIX |
| Calendar.TimegmInvertsGmtime | classes/src/DwmMclogTimestamp.cc:92 | broken-down time and back is the identity, for every time |
| Calendar.DateIsUnique | classes/src/DwmMclogRollInterval.cc:120 | each date is the date of its day number |
| Timestamps.TimestampRoundTrip | classes/src/DwmMclogTimestamp.cc:172-199 | the printed text is read back, with nothing after it touched, if and only if the time is not zero, its local year has four digits and the offset is of whole minutes |
| Timestamps.ValuesInvert | classes/src/DwmMclogTimestamp.cc:67-97 | the time read from the printed values differs from the original by what the zone does not print |
| Timestamps.OffsetsAgree | classes/src/DwmMclogTimestamp.cc:67-97 | texts of one instant at different offsets are read as equal |
| Timestamps.FiveDigitYearFails | classes/src/DwmMclogTimestamp.cc:74-77 | a text with a five-digit year is not read |
| TextLayout.TimestampByField | classes/src/DwmMclogTimestamp.cc:172-184 | the printed text, digit by digit: civil date, time of day, microseconds, sign, hours and minutes of the offset, with their separators |
| TextLayout.FieldsAreCivil | classes/src/DwmMclogTimestamp.cc:172-184 | those fields are the civil date of the day and the time of day at the offset |
| TextLayout.TimestampIsRead | classes/src/DwmMclogTimestamp.cc:56-97 | every text of such fields is read as its microseconds, or as 0 exactly if a field is out of range or the sign is none |
| Formats.ScanInvertsRender | classes/src/DwmMclogTimestamp.cc:74-77 | scanning recovers exactly the values that were printed by the same format, when they fill their widths |
| Decimal.ValueOfPadded | classes/src/DwmMclogTimestamp.cc:180 | a numeral padded with zeros has the value it was made from |
| TextLayout.NumeralByDigits | classes/src/DwmMclogMessageOrigin.cc:222-223 | a numeral has, from its end, the digit of each power of ten |
| TextLayout.NumeralIsShort | classes/src/DwmMclogMessageOrigin.cc:222-223 | and no more digits than it needs |
| TextLayout.WhiteSpace | classes/src/DwmMclogMessage.cc:120 | white space is the space and the characters 9 to 13 |
| TextLayout.MessageLine | classes/src/DwmMclogMessage.cc:110-114 | the line of a message with its separators |
| TextLayout.SeverityLetters | classes/src/DwmMclogSeverity.cc:92-102 | the letter of each severity |
| TextLayout.SystemNames | classes/src/DwmMclogFacility.cc:56-62 | the names of the facilities 0 to 40 |
| TextLayout.ServiceNames | classes/src/DwmMclogFacility.cc:63-68 | of 48 to 88 |
| TextLayout.LocalNames | classes/src/DwmMclogFacility.cc:69-73 | of 128 to 160 |
| TextLayout.LastNames | classes/src/DwmMclogFacility.cc:74-77 | of 168 to 184 |
| TextLayout.BracketsRead | classes/src/DwmMclogMessageOrigin.cc:234-241 | an application and the number in its first brackets are read, whatever follows the number and the brackets |
| TextLayout.NoBrackets | classes/src/DwmMclogMessageOrigin.cc:235-248 | a word without brackets in order and with something between them, or with an application of 255 bytes or more, gives no origin |
| TextLayout.StoulUnsigned | classes/src/DwmMclogMessageOrigin.cc:240-241 | `stoul` takes the digits up to what follows them, and throws from two to the 64th on |
| TextLayout.StoulSigned | classes/src/DwmMclogMessageOrigin.cc:240-241 | after a minus the number is negated in 64 bits |
| TextLayout.BracketsThrow | classes/src/DwmMclogMessageOrigin.cc:240-241 | brackets around something that does not begin with a number make it throw |
| TextLayout.OriginDecides | classes/src/DwmMclogMessage.cc:117-131 | an exception while the origin is read reaches whoever reads the message; a failure there fails the stream |
| TextLayout.OriginOfWords | classes/src/DwmMclogMessageOrigin.cc:231-253 | an origin is a hostname of at most 255 characters and a word with its brackets |
| TextLayout.LongHostnameRefused | classes/src/DwmMclogMessageOrigin.cc:233-251 | a longer hostname is refused |
| TextLayout.LongLineRefused | classes/src/DwmMclogMessage.cc:121-128 | a line of more than 1500 characters is refused |
| TextLayout.LastLineTaken | classes/src/DwmMclogMessage.cc:121-124 | a last line without newline is taken |
| TextLayout.OtherNamesAreLocal7 | classes/src/DwmMclogFacility.cc:91-99 | a name that is no facility's is read as `local7` |
| TextLayout.SeverityIsNamed | classes/src/DwmMclogSeverity.cc:117-142 | a severity that is read is that of its letter |
| TextLayout.ShortNumeral | classes/src/DwmMclogTimestamp.cc:74-77 | a numeral of no more characters than its width is scanned whole |
| TextLayout.SignedNumeral | classes/src/DwmMclogTimestamp.cc:74-77 | a sign counts as one of them |
| TextForm.StreamRoundTrip | classes/src/DwmMclogMessage.cc:110-131 | printing any list of messages and reading until failure returns the list if and only if each message is readable and its time printable |
| TextForm.MessageRoundTrip | classes/src/DwmMclogMessage.cc:110-131 | one message before any rest is read back if and only if it is readable and its time printable |
| TextForm.ReadMessageIsReadable | classes/src/DwmMclogMessage.cc:117-131 | whatever the input, what is read is a readable message |
| TextForm.ReadOriginIsReadable | classes/src/DwmMclogMessageOrigin.cc:228-254 | whatever the input, an origin that is read has no white space, a hostname that is not empty and an appname shorter than 255 bytes without brackets |
| TextForm.FacilityRoundTrip | classes/src/DwmMclogFacility.cc:80-116 | a facility survives its name if and only if it is in the enumeration |
| TextForm.SeverityRoundTrip | classes/src/DwmMclogSeverity.cc:90-142 | a severity survives its bracketed letter, and anything else fails |
| TextStreams.CopyThroughText | classes/src/DwmMclogMessage.cc:110-131 | the stream operators in place: messages written and read until failure are the same if and only if all read back |
| TextStreams.InputStream.GetMessage | classes/src/DwmMclogMessage.cc:117-131 | takes from the stream what reading a message takes, fails as it fails, and throws where `stoul` throws |
| TextStreams.InputStream.GetOrigin | classes/src/DwmMclogMessageOrigin.cc:228-254 | takes from the stream what reading an origin takes |
| TextStreams.InputStream.GetHeader | classes/src/DwmMclogMessageHeader.cc:136-140 | takes from the stream what reading a header takes |
| TextStreams.InputStream.GetMessages | classes/src/DwmMclogMessage.cc:117-131 | reads messages until the stream fails |
| TextStreams.OutputStream.PutMessage | classes/src/DwmMclogMessage.cc:110-114 | appends the text of a message |
| TextStreams.OutputStream.PutHeader | classes/src/DwmMclogMessageHeader.cc:128-133 | appends the text of a header |
| Wire.MessageRoundTrip | classes/src/DwmMclogMessage.cc:69-84 | exactly the messages that reading accepts are read back, whatever follows them |
| Wire.HeaderRoundTrip | classes/src/DwmMclogMessageHeader.cc:66-80 | the same of headers, with the facility and severity limits |
| Wire.OriginRoundTrip | classes/src/DwmMclogMessageOrigin.cc:127-158 | the same of origins, with the two name checks |
| Wire.WireLayout | classes/src/DwmMclogMessageHeader.cc:77-80 | the bytes of a message in their order |
| Wire.AcceptedExactly | classes/src/DwmMclogMessageHeader.cc:66-74 | what reading accepts: facilities up to 184, severities up to 7, and names of the listed characters |
| Wire.IsValidHostname | classes/src/DwmMclogMessageOrigin.cc:102-111 | true exactly for names that are not empty, of letters, digits, hyphens and dots |
| Wire.IsValidAppName | classes/src/DwmMclogMessageOrigin.cc:114-124 | the same with underscores |
| Wire.ReceiveLoop | apps/mclogd/DwmMclogLoopbackReceiver.cc:275-285 | the receive loop gets exactly the messages before the first that reading refuses |
| Wire.ReadMessages | apps/mclogd/DwmMclogLoopbackReceiver.cc:279-283 | the loop in place computes that |
| Codecs.CodecsExist | classes/src/DwmMclogMessage.cc:69-84 | there is a codec that is lawful, and with it there are messages that fit no packet |
| MessagePackets.MessagePacket.Add | classes/include/DwmMclogMessagePacket.hh:103-118 | appends the encoding whole or leaves the payload as it was, exactly by whether it fits |
| MessagePackets.MessagePacket.Encrypt | classes/src/DwmMclogMessagePacket.cc:56-70 | encrypting in place yields a datagram of 24 bytes of nonce and the sealed payload, 16 bytes longer than the payload |
| MessagePackets.MessagePacket.Decrypt | classes/src/DwmMclogMessagePacket.cc:133-163 | decrypting in place yields the payload that the bytes after the first 24 open to, if there are more than 40, and fails otherwise |
| MessagePackets.MessagePacket.Receive | classes/src/DwmMclogMessagePacket.cc:214-238 | the payload of an unencrypted datagram, without the first 24 and last 16 bytes, and the result |
| MessagePackets.MessagePacket.Reset | classes/src/DwmMclogMessagePacket.cc:73-78 | the payload is empty and can be filled again |
| MessagePackets.OpenedInvertsSealed | classes/src/DwmMclogMessagePacket.cc:56-163 | a datagram opens with its own key to its payload if and only if that is not empty, and with a key told apart from it not at all |
| Senders.NothingLostOrReordered | classes/src/DwmMclogLoopbackSender.cc:184-203 | at every point the packets sent and the pending one hold exactly the popped messages that fit a packet, in order, and none is too long |
| Senders.SenderToReceiver | classes/src/DwmMclogLoopbackSender.cc:174-213 | what the receive loop gets from the datagrams is exactly the popped messages that fit a packet, in order, if and only if it accepts them all; no datagram is longer than 1200 bytes |
| Senders.MulticastToReceiver | classes/src/DwmMclogMulticastSender.cc:321-355 | what arrives from a stopped multicast sender, with its pending packet, is what was popped and fits if and only if all that was sent is accepted; without it, if and only if moreover nothing was left pending |
| Senders.LeftPending | classes/src/DwmMclogMulticastSender.cc:330-352 | nothing is left pending if and only if no message was popped since the last timeout or the last one fits no packet |
| Senders.ReceivedWhole | apps/mclogd/DwmMclogLoopbackReceiver.cc:275-285 | a receiver gets all messages of all datagrams if and only if it accepts every one |
| Senders.PacketsAreFilled | classes/src/DwmMclogLoopbackSender.cc:184-203 | in every run, packets sent neither after a second without messages nor for a message that fits none had no room for the first message of the next packet |
| Senders.NoEmptyPackets | classes/src/DwmMclogLoopbackSender.cc:184-203 | in every run, no empty packet is sent if and only if each message that fits no packet finds a packet pending |
| Senders.OneMessage | classes/src/DwmMclogLoopbackSender.cc:187-193 | one message: an empty packet is sent if it fits none, and else it is pending |
| Senders.SentPacketsStay | classes/src/DwmMclogLoopbackSender.cc:184-203 | packets already sent are final, whatever comes |
| Senders.LoopbackSender.Run | classes/src/DwmMclogLoopbackSender.cc:174-213 | the loop hands over exactly the datagrams of the specification, the last one at exit |
| Senders.MulticastSender.Run | classes/src/DwmMclogMulticastSender.cc:321-355 | the loop hands over exactly the encrypted datagrams of the specification; they say nothing under another key |
| Senders.MulticastSender.SendPacket | classes/src/DwmMclogMulticastSender.cc:306-318 | encrypts the packet in place, hands it over and empties it |
| Senders.SendAndReceive | apps/mclogd/DwmMclogLoopbackReceiver.cc:269-285 | loopback sender and receiver together: exactly the messages that fit arrive, if and only if all are accepted |
| LogRouting.KeysAreOrdered | classes/include/DwmMclogLogFiles.hh:115-134 | `operator<` is a strict total order whose ties are exactly the equal keys |
| LogRouting.FacilitiesCollide | classes/include/DwmMclogLogFiles.hh:107-110 | two facilities can have the same code if and only if they differ in the three lowest bits at most |
| LogRouting.AlikeByFacility | classes/include/DwmMclogLogFiles.hh:107-113 | with the severities that there are, messages with the same key have the same facility name if and only if both have facilities of the enumeration or neither has |
| LogRouting.SameKeySamePath | classes/src/DwmMclogLogFiles.cc:154-193 | messages with equal keys and equal facility names have equal direct paths |
| LogRouting.RoutingIsDirect | classes/src/DwmMclogLogFiles.cc:217-238 | with the cache, the routes of a message that is alike to those seen are each direct path once, with the settings of the first accepting configuration that leads there; the cache stays right |
| LogRouting.EachDirective | classes/src/DwmMclogLogFiles.cc:159-181 | `%H` stands for the hostname, `%I` for the appname and `%F` for the facility |
| LogRouting.ReplacedInParts | classes/src/DwmMclogLogFiles.cc:174-181 | replacing in a pattern goes part by part, so with `EachDirective` and `OtherPercent` it is settled for every pattern |
| LogRouting.OtherPercent | classes/src/DwmMclogLogFiles.cc:160-181 | any other percent sign stays |
| LogRouting.KeysEqual | classes/include/DwmMclogLogFiles.hh:107-113 | keys are equal exactly when the codes, the names and the patterns are |
| LogRouting.PathsAreRooted | classes/src/DwmMclogLogFiles.cc:164-188 | a path is absolute as the pattern has it, or in the log directory; with an empty pattern it is below `logs` |
| LogRouting.NothingToReplace | classes/src/DwmMclogLogFiles.cc:165-172 | a pattern without `%` is its own replacement, so the shortcut for it is right |
| Misrouting.RoutedRightlyExactly | classes/src/DwmMclogLogFiles.cc:74-193 | a list of messages is routed rightly under every configuration if and only if any two of them with the same key have the same facility name |
| Misrouting.NotAlikeMisroutes | classes/src/DwmMclogLogFiles.cc:142-193 | two messages for which that fails are not routed rightly when they are logged by their facility |
| Misrouting.MisroutedFromTheWire | classes/src/DwmMclogMessageHeader.cc:66-74 | there are two such messages that reading from the wire accepts |
| RoutedLogs.LogsHoldTheirMessages | classes/src/DwmMclogLogFiles.cc:74-137 | after any sequence of `Configure`, `Process` and `Close` in which each message is alike to those since the last `Configure`, if files open, each path's log holds exactly the messages whose direct paths include it, each once, in order |
| RoutedLogs.ProcessedDirectly | classes/src/DwmMclogLogFiles.cc:99-127 | one message is appended once to each open file among the direct paths and to no other, and a new file has the settings of the first accepting configuration |
| RoutedLogs.NewFilesAreFirst | classes/src/DwmMclogLogFiles.cc:99-127 | in every such run a file that a message makes has the settings of the first entry of the configuration that has a valid filter, accepts the message and gives it that path |
| RoutedLogs.ValidConfigsAre | classes/src/DwmMclogLogFiles.cc:84-95 | the entries used are exactly those with a valid filter, each as often as it stands in the configuration and in that order |
| RoutedLogs.RunsAgree | classes/src/DwmMclogLogFiles.cc:74-96 | in every run the cache agrees with the directory and configurations in force |
| RoutedLogs.LogFiles.Process | classes/src/DwmMclogLogFiles.cc:99-127 | the whole new state, and true exactly if all files are open |
| RoutedLogs.LogFiles.Configure | classes/src/DwmMclogLogFiles.cc:74-96 | cache and files are cleared, and exactly the entries with a valid filter are taken over, in their order |
| RoutedLogs.LogFiles.LogPathConfigs | classes/src/DwmMclogLogFiles.cc:217-238 | the loop yields the routes and the cache of the specification |
| RoutedLogs.LogFiles.LogPath | classes/src/DwmMclogLogFiles.cc:154-193 | the cached path or else the direct one, which is then cached |

## Left out

- Sockets, `select`, pipes, signals, starting and stopping of threads, pid files, permissions and
  ownership: plumbing; what arrives and when is a parameter.
- The cryptographic algorithms and the encodings of the libraries: parameters with laws.
- The grammars of configurations and filters: a filter is a function of the message.
- `Logger`, `OstreamSink`, `SyslogSink`, `UnixReceiver`, `FileLogger` and the command-line programs:
  they pass messages on.
- Receiving for several multicast sources: a map from endpoints to sources, without further state.
- Reading and writing compressed files (`BZRead`, `BZWrite` and the gzip forms): the same fields in
  the same order as on the wire.
- Daylight saving, leap seconds and other changes of the offset.
- A compression still running at the next roll, archive names with leading zeros, failing renames.
- Copying, moving and assigning a multicast source.
- The negative result of `recvfrom` that the listener's first branch does not exclude.
- MessagePackets.MessagePacket.Decrypt: says nothing of the buffer after a failure, which may hold
  anything; nor is it claimed that a packet put back after a failure is delivered later.
- RollingLog.ProcessAll: the log starts without archives or with those that it made itself.
- KeyRequestListeners.KeyRequestListener.Run: the keys of new sessions are parameters, and distinct
  only in `Handshake`.
- RoutedLogs.LogFiles.Process: rolling of each file is left to `RollingLog`; a log here is everything
  that its file has accepted.
