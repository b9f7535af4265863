# WebJam verification models

WebJam lets musicians play together over Jamulus: it keeps each listener's mix, hands gain changes to the
native client, speaks Jamulus's packet and JSON-RPC protocols, installs native components, and judges whether
a session is ready. This project models the state machines and codecs at the centre of that and proves what
they promise. `dafny verify dfyconfig.toml` checks everything.

## What is modelled

- **Listening mix** (`MixModel`, `MixAbstract`, `MixRestore`, `MixFile`, `MixManager`). The roster and the pre-solo
  snapshot as one value, every operation as a step, and the manager class whose methods update row objects in
  place and are proved to take exactly those steps. The two maps are shown to implement one personal mute per
  person, at most one solo, and that solo's own mute. What a mix file does is told from its rows alone.
- **Gain dispatcher** (`GainModel`, `GainSafety`, `GainConvergence`, `GainDelivery`, `GainProvenance`,
  `GainDispatcher`). A transition system
  whose steps are the lock regions and native calls of mutators, the short-lived worker, `start` and `stop`;
  runs are arbitrary interleavings. The class holds the critical sections as code and the drain loop as a loop.
- **Packets** (`Bits`, `PacketCodec`, `PacketRemainder`, `PacketBursts`, `PacketBoundary`, `PacketPayloads`). Bytes
  as their eight bits; bitwise CRC-16 as a remainder, build and parse, which errors the CRC detects and which it does
  not, client and level lists.
- **RPC framing** (`RpcFraming`), **grapheme clusters** (`Graphemes`, `GraphemeExamples`), **waveform scan** (`Waveform`), **paste
  codec** (`PasteCodec`): streaming loops against direct definitions.
- **Component store** (`StoreModel`, `StoreProperties`, `ComponentStore`, `TreeVerifier`, `TreeMeaning`). Pointers and
  installed trees as the disk sees them, with a crash after any write, and the worklist verifier.
- **Policies** (`AdaptiveLatency`, `BandCheckModel`, `BandCheckRuns`, `BandCheckShown`, `BandCheck`). Whole-run meaning of the
  hysteresis counters and of the hearing evidence.

## Results worth knowing

- An unsolo pressed with nothing soloed resets every mute from whatever the snapshot was left with; it is
  harmless exactly when the snapshot agrees with the roster (`RedundantUnsoloExact`), and a three-step run loses
  a mute that way (`RedundantUnsoloLosesAMute`). Adding onto the soloed seat leaves everyone else muted; it is
  harmless exactly when they already were (`AddKeepsOthersExactly`), and a four-step run mutes someone nobody
  asked to mute (`AddOntoSoloMutesAnother`).
- An error outside the length field goes undetected exactly when its effect on the CRC field is the register of
  its effect on everything before, whatever the datagram says (`UndetectedExactly`). A burst within sixteen
  consecutive bits of id and count is always detected (`BurstIsRejected`); behind the length field one is, in all
  datagrams, unless it is one of just twelve across the boundary of data and CRC (`BoundaryBurst`), and each of
  those passes in every datagram with two data bytes or more (`EachPasses`). The shortest are thirteen bits long:
  the last data byte changed by 0x01, the CRC bytes by 0x21 and 0x10, or all three by twice or four times that. One
  changes two bytes only, the last of the data by 0x89 and the low one of the CRC by 0xA1.
- A changed length moves the CRC field itself, so there not even every change of one bit is detected
  (`ShorterPasses`, `LengthBitPasses`).
- The cut of the waveform at 128 peaks loses peaks exactly for recordings of 129 to 191 and 257 to 287 frames
  (`CutDropsNothingIff`).
- The store calls itself crash-safe. Its pointers are: they stay good (`EveryRunIsGood`), change in one write
  (`PointersChangeAtOnce`) and can always be shown (`AlwaysShown`). Its trees are exactly when no prune is cut off
  inside the removal of one (`OnlyATornPruneBreaks`), and exactly otherwise pruning is stuck (`StuckExactly`). What
  such a prune leaves fails verification (`PartOfATreeFails`), and whatever is done afterwards it stays, pruning
  stays stuck and that version can no longer be installed (`BrokenForGood`). Two crashes from an empty store reach
  that state (`CrashedPruneBreaks`).
- A hearing confirmation delivered with an observation is believed even when that observation reports no
  bandmate; pressed by hand it is not. So a confirmation stands without a bandmate having been present exactly
  when every standing one came with such an observation (`HeardNobodyExactly`, and `ConfirmedAlone` for a run of
  one event). Ready is not affected, since it needs the bandmate anyway (`ReadyMeansHeard`).
- A JSON line that is not an object makes the RPC reply loop raise an attribute error instead of being skipped:
  exactly when it is the first line arriving in time that the loop would not skip (`CrashesExactly`,
  `OneLineCrashes`).

## Model

| member | source | states |
|---|---|---|
| MixModel.ReachableIsSafe | jamulus_state_manager.py:97-445 | after any run, including arbitrary and duplicate saved rows: at most one solo, everyone else muted while it lasts, snapshot keys equal to the roster's then, faders in 0..127, pans in 0..100 |
| MixModel.ReappliesEveryChange | jamulus_state_manager.py:97-445 | every operation hands each surviving row whose effective gain it changed to the dispatcher again |
| MixAbstract.HeardIsTheRoster | jamulus_state_manager.py:34-57 | the abstraction loses nothing audible: the roster can be computed from personal mutes, solo and the solo's own mute |
| MixAbstract.Refines | jamulus_state_manager.py:97-272 | every gesture on the two maps is the intended gesture on the abstract state, adding onto an occupied or soloed seat included with its exact effect |
| MixAbstract.RedundantUnsoloExact | jamulus_state_manager.py:205-209 | unsolo with nothing soloed keeps all personal mutes if and only if the leftover snapshot agrees with the roster |
| MixAbstract.RedundantUnsoloLosesAMute | jamulus_state_manager.py:205-209 | a concrete run of three steps in which a mute is lost that way |
| MixAbstract.AddKeepsOthersExactly | jamulus_state_manager.py:97-119 | adding keeps everyone else's personal mute if and only if the seat is not the soloed one or all others were muted already |
| MixAbstract.AddOntoSoloMutesAnother | jamulus_state_manager.py:97-119 | a concrete run of four steps in which adding onto the soloed seat mutes somebody else for good |
| MixAbstract.PersonalMuteIsLastRequest | jamulus_state_manager.py:97-289 | over every plain run a personal mute is the last one asked for that occupant since joining; nothing anyone else does disturbs it |
| MixAbstract.StaleSnapshotUnobservable | jamulus_state_manager.py:268-289 | states differing only in a leftover snapshot give equal rosters and equal gain calls under every later pair of runs, one by RPC and one by UDP included |
| MixAbstract.ClearLeavesAlike | jamulus_controller.py:398-406 | the bare roster clear leaves a state like a properly swept one |
| MixRestore.RoundTrip | jamulus_state_manager.py:305-445 | saving any safe mix and restoring it over any mix of the same people, seated alike or renumbered, reproduces fader, pan, solo, mute and personal mute of each and reports the roster's size |
| MixRestore.UnmatchedUntouched | jamulus_state_manager.py:377-438 | whatever the file says, people no row belongs to keep fader, pan and personal mute |
| MixRestore.RestoreMovesNobody | jamulus_state_manager.py:418-438 | a restore seats, removes and renames nobody |
| MixFile.FileDecides | jamulus_state_manager.py:326-445 | every field of every row after a restore, told from the file's rows and names: the last fader and pan said by a row of that person, at the nearest level allowed, else as before; the last word on the mute outside solo; the solo by the last rows of those left asking for it, else the one that was if not mentioned; the soloed one's own mute, everyone else muted |
| MixFile.CountsTheMentioned | jamulus_state_manager.py:435-445 | the count is the number of people some row belongs to |
| MixFile.StrangerIsNobody | jamulus_state_manager.py:380-398 | a row naming nobody here, or a name two seats share with the channel of neither, belongs to nobody, whatever channel it gives |
| MixFile.UnnamedIsLeftAlone | jamulus_state_manager.py:377-438 | someone whose name no row gives, and whose channel no nameless row gives, keeps fader, pan and personal mute and is not counted |
| MixFile.StrangersChangeNothing | jamulus_state_manager.py:400-445 | a file none of whose rows belongs to anybody changes nothing and reports 0 |
| MixFile.GestureTakesNearest | jamulus_state_manager.py:147-162 | a fader or pan set to any number takes the nearest level of 0..127 or 0..100, in that seat only |
| MixFile.ReappliesNothingElse | jamulus_state_manager.py:97-445 | no operation hands on a seat that is empty afterwards, or one it has no reason to: named by it, the solo pressed or ended, newly held back or replaced, mentioned or changed by a file |
| MixFile.LeftoverSnapshot | jamulus_state_manager.py:121-445 | with nobody soloed afterwards the snapshot is put away by a removal, an unsolo, a UDP roster, a roster that ends the solo and a file that mentions somebody, and by nothing else |
| MixManager.JamulusParticipant.constructor | jamulus_state_manager.py:18-31 | a new row has fader 100, pan 50, no mute, no solo |
| MixManager.ParticipantStateManager.ListeningGain | jamulus_state_manager.py:63-80 | the gain a row is heard at: 0 if muted, else its fader; nothing if the seat is empty or taken by another row object |
| MixManager.ParticipantStateManager.NextChannel | jamulus_state_manager.py:102-103 | one past the highest seat in use, 0 for an empty roster |
| MixManager.ParticipantStateManager.AddParticipant | jamulus_state_manager.py:97-119 | the in-place add is the add step, with a fresh row object in that seat only |
| MixManager.ParticipantStateManager.RemoveParticipant | jamulus_state_manager.py:121-145 | the in-place removal is the removal step; if the one who left was soloed every remaining row is re-applied, also one that stays muted, else none |
| MixManager.ParticipantStateManager.SetFaderLevel | jamulus_state_manager.py:147-154 | the fader step |
| MixManager.ParticipantStateManager.SetPanLevel | jamulus_state_manager.py:156-162 | the pan step |
| MixManager.ParticipantStateManager.SetMuted | jamulus_state_manager.py:164-186 | the mute step, including a mute asked for during somebody else's solo |
| MixManager.ParticipantStateManager.SetSoloed | jamulus_state_manager.py:188-211 | the solo step in both directions |
| MixManager.ParticipantStateManager.MergeProtocolPayload | jamulus_state_manager.py:214-272 | the merge step; everyone staying keeps the very same row object |
| MixManager.ParticipantStateManager.ClearRoster | jamulus_controller.py:399-402 | the clear step: rows go, the snapshot stays |
| MixManager.ParticipantStateManager.SerializeMix | jamulus_state_manager.py:305-324 | the saved rows list every person once and record this mix |
| MixManager.ParticipantStateManager.FindSeat | jamulus_state_manager.py:384-398 | the seat a saved row belongs to, if any: its own channel when that has the name or none is given, else the one seat with that name |
| MixManager.ParticipantStateManager.ApplyMixData | jamulus_state_manager.py:326-445 | the restore step, its count, and exactly the rows it hands on |
| GainSafety.SingleWriter | jamulus_controller.py:657-685 | in every interleaving at most one thread is between popping and its native write; pending items have a published worker; after a stop at most one write is still made; once dispatch runs again no thread from before the stop is alive |
| GainConvergence.ExecConverges | jamulus_controller.py:618-701 | the convergence invariant holds in every interleaving |
| GainConvergence.QuietMeansConverged | jamulus_controller.py:675-701 | whenever nothing is owed and no worker exists, the last native write of every covered row is its effective gain |
| GainConvergence.TurnWorks | jamulus_controller.py:675-701 | the worker left to itself makes progress, so it always exits |
| GainConvergence.DrainConverges | jamulus_controller.py:675-701 | once no mutator owes a hand-over, letting the worker run ends quiet and converged, with the mix untouched |
| GainDelivery.CoveredExactly | jamulus_controller.py:618-701 | after every run the rows the convergence speaks of are exactly those handed over with dispatch open and not lost since to a new session, a stop, a failed start with them queued or a failed call |
| GainDelivery.NothingIsLost | jamulus_controller.py:618-701 | from every reachable state with dispatch open and in every interleaving: a seat that a gesture re-applies has its gain as the native one once all is quiet, unless its occupant left or one of those four events lost it |
| GainDelivery.Settles | jamulus_controller.py:618-701 | from every reachable state, handing over what is owed and letting the worker run comes to rest |
| GainDelivery.GestureDelivers | jamulus_controller.py:618-701 | with dispatch open, what a gesture re-applies reaches the native client at its level, 0 if muted, by hand-overs and the worker's run alone |
| GainDelivery.StartDelivers | jamulus_controller.py:275-291 | a start in progress that commits, once a session is ready, delivers what is gestured next |
| GainDelivery.CanRestart | jamulus_controller.py:225-360 | whatever has happened, ending the lifecycle call in progress, stopping, letting the worker retire and starting again opens dispatch, with the mix as it was |
| GainDelivery.ShutExactly | jamulus_controller.py:275-319 | over every run dispatch is shut exactly from a stop to the next start that goes through; a failed start opens nothing |
| GainProvenance.NativeIsGenuine | jamulus_controller.py:675-701 | in every interleaving a native level changes only when a new session clears all, or to the level its row had when read, of the occupant whose gain was asked for there in this session |
| GainProvenance.CallIsGenuine | jamulus_controller.py:675-701 | every native call, failing or not, was asked for, checked against the ready session and read from its own row |
| GainProvenance.NativeIsOfThisSession | jamulus_controller.py:675-701 | every native level on record was asked for at its seat in the present session |
| GainProvenance.RestoreReachesItsRows | jamulus_state_manager.py:439-444 | a restore's hand-over reaches the row it restored or nobody; any other reaches whoever sits there |
| GainProvenance.PendingIsCurrent | jamulus_controller.py:649-655 | an accepted intent leaves exactly the pending intents of this session whose occupant still sits there, and its own |
| GainDispatcher.Survivors | jamulus_controller.py:651-655 | the rebuilt pending map holds exactly the live-epoch items whose row is still the same occupant's |
| GainDispatcher.Dispatch.Send | jamulus_controller.py:618-665 | the enqueue region; a worker is published exactly when none was, and other live intents survive |
| GainDispatcher.Dispatch.NotStarted | jamulus_controller.py:665-673 | the handler for a thread that could not start is the start-failure region |
| GainDispatcher.Dispatch.Pop | jamulus_controller.py:675-685 | the region at the top of the drain loop, including when it must exit |
| GainDispatcher.Dispatch.Stop | jamulus_controller.py:315-319 | the stop region |
| GainDispatcher.Dispatch.Joined | jamulus_controller.py:343-359 | the region after the bounded join |
| GainDispatcher.Dispatch.MayStart | jamulus_controller.py:235-240 | start is refused while the retired worker may still act |
| GainDispatcher.Dispatch.Drain | jamulus_controller.py:675-701 | the drain loop run alone writes exactly the effective gains of the live, still-owned items, once each |
| Bits.ValueOf | core/jamulus_protocol.py:85-98 | the bits of a number that fits have that number as their value |
| Bits.OfValue | core/jamulus_protocol.py:85-98 | the value of some bits has those bits |
| PacketCodec.ComputeCrc | core/jamulus_protocol.py:68-78 | the nested loops compute the CRC |
| PacketRemainder.CrcIsRemainder | core/jamulus_protocol.py:68-78 | the CRC of any message is the one word whose complement is what long division by x^16 + x^12 + x^5 + 1 leaves of the message with its front complemented and sixteen zeros appended |
| PacketRemainder.DividendIsComplement | core/jamulus_protocol.py:70 | from sixteen bits on, that dividend is the message with its first sixteen bits complemented |
| PacketRemainder.CrcOfNothing | core/jamulus_protocol.py:68-78 | the CRC of no bytes is 0 |
| PacketCodec.ParsesExactly | core/jamulus_protocol.py:91-112 | which datagrams are accepted and as what, in numbers: three little-endian words, that many data bytes, and the CRC of all before it; later bytes are ignored |
| PacketCodec.ParseOfBuild | core/jamulus_protocol.py:84-112 | parsing a built packet followed by any bytes gives its fields back |
| PacketCodec.BuildOfParse | core/jamulus_protocol.py:84-112 | any accepted datagram begins with exactly the build of its result |
| PacketBursts.RegisterIsFed | core/jamulus_protocol.py:71-77 | taking in a byte and shifting eight times is taking in its bits one at a time |
| PacketBursts.BurstChangesRegister | core/jamulus_protocol.py:71-77 | two messages that differ only within sixteen consecutive bits never share a CRC |
| PacketBursts.BurstIsRejected | core/jamulus_protocol.py:91-112 | corrupting an accepted datagram within sixteen consecutive bits of id and count, or of the data, gets it rejected |
| PacketBursts.ByteBurstIsRejected | core/jamulus_protocol.py:91-112 | in particular corrupting one byte or two adjacent bytes there |
| PacketBursts.CrcCorruptionIsRejected | core/jamulus_protocol.py:104-111 | so does any change of the CRC field alone |
| PacketBursts.ShorterPasses | core/jamulus_protocol.py:91-112 | any datagram whose data ends in the CRC of what stands before it is accepted, as another packet, also with its length cut by two |
| PacketBursts.LengthBitPasses | core/jamulus_protocol.py:91-112 | among those are datagrams one bit apart |
| PacketBoundary.UndetectedExactly | core/jamulus_protocol.py:68-112 | an error that leaves the length field alone passes if and only if it changes the CRC field by the register of its changes to all bytes before; the datagram's own content does not matter |
| PacketBoundary.LastBytesExactly | core/jamulus_protocol.py:68-112 | in particular, an error in the last two data bytes and the CRC field passes if and only if its two CRC bytes are its two data bytes shifted sixteen times |
| PacketBoundary.BoundaryBurst | core/jamulus_protocol.py:91-112 | corrupting an accepted datagram within sixteen consecutive bits anywhere behind its length field passes if and only if nothing up to the CRC changes or the change is one of twelve listed ones, each across the boundary of data and CRC |
| PacketBoundary.EachPasses | core/jamulus_protocol.py:91-112 | each of the twelve does change, and pass, every accepted datagram with at least two data bytes |
| PacketPayloads.ParseClients | core/jamulus_protocol.py:130-159 | the loop computes the client map on any bytes, always in bounds and terminating |
| PacketPayloads.ClientListRoundTrip | core/jamulus_protocol.py:130-159 | decoding any concatenation of laid-out entries, with under nine stray bytes after, names every listed channel by its last entry and no other |
| PacketPayloads.CutListRoundTrip | core/jamulus_protocol.py:118-159 | a list cut off inside an entry, after its head, names that one too, by as much of its name as arrived |
| PacketPayloads.ParseLevels | core/jamulus_protocol.py:182-197 | at most 500 levels, each the word at its index over 32767, held to 0..1 |
| PacketPayloads.MapToChannels | core/jamulus_protocol.py:171-179 | each listed channel gets the level at its last index in the order; indices past the order are dropped |
| RpcFraming.Session.ReadOne | core/jamulus_server_rpc.py:125-146 | the receive loop reads one line, or times out or fails with the buffer kept |
| RpcFraming.Session.Call | core/jamulus_server_rpc.py:148-183 | one request takes the next id and then behaves as the reply loop; not connected, nothing happens |
| RpcFraming.ReadAccounts | core/jamulus_server_rpc.py:125-146 | a read takes from the stream nothing but the line it returns and its newline; a timeout loses nothing |
| RpcFraming.ReadsAreTheSplit | core/jamulus_server_rpc.py:125-146 | for every chunking and every placement of timeouts the lines read begin the newline split, and with the bytes left make up everything received |
| RpcFraming.ChunkingDoesNotMatter | core/jamulus_server_rpc.py:125-146 | two scripts that deliver the same bytes give the same lines |
| RpcFraming.RunAnswersInOrder | core/jamulus_server_rpc.py:148-183 | over any run of calls every line goes to one call in stream order, and the k-th call answers only from a frame with the k-th id, never a late reply to an earlier one |
| RpcFraming.OutcomeExactly | core/jamulus_server_rpc.py:125-183 | every outcome of a call, whatever the chunks: told by the first line it waits for of those arriving before anything interrupts, else by what interrupts, deadline, hang-up or socket error |
| RpcFraming.NewlineIs | core/jamulus_server_rpc.py:132 | lines end at byte 0x0A |
| RpcFraming.CrashesExactly | core/jamulus_server_rpc.py:157-183 | the reply loop raises an attribute error if and only if, among the lines arriving before a timeout or failure, the first it does not skip is JSON but no object |
| RpcFraming.OneLineCrashes | core/jamulus_server_rpc.py:169-176 | one such line alone makes it raise |
| Graphemes.GraphemeClusters | core/jamulus_name.py:145-183 | the scan yields non-empty clusters that concatenate to the input, start at boundaries and contain none |
| Graphemes.OneSegmentation | core/jamulus_name.py:145-183 | the boundaries determine the clusters |
| Graphemes.AtMostTwoRegionalIndicators | core/jamulus_name.py:173-182 | a regional indicator stands only first in a cluster, or second after another one |
| Graphemes.CutsResegment | core/jamulus_name.py:145-183 | cutting between any two clusters and segmenting both halves again gives the same clusters |
| GraphemeExamples.AsciiStandsAlone | core/jamulus_name.py:145-183 | letters, digits and other ASCII characters are one cluster each |
| GraphemeExamples.DecomposedIsOneCluster | core/jamulus_name.py:115-183 | each of the 11172 Hangul syllables written letter by letter is one cluster |
| GraphemeExamples.SyllableTakesOn | core/jamulus_name.py:115-142 | a syllable character takes on a trailing consonant, and a vowel exactly when it has no trailing consonant |
| GraphemeExamples.SyllablesApart | core/jamulus_name.py:115-142 | a syllable in either writing ends where the next begins |
| GraphemeExamples.OldSyllableIsOneCluster | core/jamulus_name.py:115-142 | old Hangul letters of all three blocks, leading, vowels, trailing, make one cluster |
| GraphemeExamples.OthersStandApart | core/jamulus_name.py:145-183 | anything that is no extender, joiner, flag letter or Hangul starts a cluster, but after a joiner |
| GraphemeExamples.FlagsPairUp | core/jamulus_name.py:173-182 | two regional letters are one flag, four are two |
| GraphemeExamples.EmojiIsOneCluster | core/jamulus_name.py:160-172 | a character with skin tones, selectors, marks and joined characters after it is one cluster |
| Graphemes.Validate | core/jamulus_name.py:186-228 | which names are refused and why; accepted ones fit 16 UTF-16 units and their two mixer lines re-segment to at most 8 clusters each, the first one full if there is a second |
| Waveform.Scan | core/band_check_audio.py:405-464 | for every chunking the peaks are those of consecutive buckets and the peak is the loudest sample |
| Waveform.DeliversUpToTheEnd | core/band_check_audio.py:417-424 | the samples scanned are all chunks before the first empty one, end to end |
| Waveform.PeakOfBucket | core/band_check_audio.py:426-437 | the k-th peak is the maximum magnitude of the k-th bucket |
| Waveform.CountFits | core/band_check_audio.py:414-437 | m buckets suffice if and only if the samples fit into m of them |
| Waveform.LongEnough | core/band_check_audio.py:414 | from 9120 frames on there are at most 97 buckets |
| Waveform.CutDropsNothingIff | core/band_check_audio.py:464 | the cut at 128 drops nothing if and only if the length is outside 129..191 and 257..287 |
| PasteCodec.EncodeSignalLine | core/direct_stun_invite.py:77-82 | exactly valid envelopes are encoded, behind the prefix |
| PasteCodec.PrefixesAreSolid | core/direct_stun_invite.py:18-19 | both prefixes survive stripping and unquoting |
| PasteCodec.DecodeEncode | core/direct_stun_invite.py:81 | decoding an encoding gives the bytes back |
| PasteCodec.EncodesBits | core/direct_stun_invite.py:81 | the encoding is the bits of the bytes, highest first, cut into sixes, zeros filling up the last, each six written as the symbol at its place in the alphabet A to Z, a to z, 0 to 9, - and _ |
| PasteCodec.EnvelopesAre | core/direct_stun_invite.py:77-80 | a valid envelope is 8 to 16384 bytes beginning with the letters WJSE |
| PasteCodec.KindsDoNotMix | core/direct_stun_invite.py:18-39 | a host's line is never read as a reply nor a reply as a host's line |
| PasteCodec.LinesExactly | core/direct_stun_invite.py:87 | the lines of a text: each up to its break, a carriage return and line feed together being one |
| PasteCodec.SpacesAre | core/direct_stun_invite.py:87-93 | the code points that end a line and those stripped as white space |
| PasteCodec.DecodeSignal | core/direct_stun_invite.py:94-111 | what one payload opens to |
| PasteCodec.ParseSignalFromPaste | core/direct_stun_invite.py:85-115 | the loops compute the outcome for any text |
| PasteCodec.AcceptedIsCanonical | core/direct_stun_invite.py:93-115 | an envelope is accepted if and only if it is valid and one line alone carries the prefix, with exactly its canonical unpadded encoding; nothing is found if and only if no line carries it |
| PasteCodec.PastedRoundTrip | core/direct_stun_invite.py:77-115 | a valid envelope encoded, quoted, padded and put on a line of any text, whatever line breaks stand around it, is recovered if and only if no other line carries the prefix; otherwise the paste is refused |
| StoreModel.EveryRunIsGood | core/component_store.py:370-610 | over every run with a crash after any write, each pointer names an approved, installed, verified tree in its own slot, and a previous differs from the current it belongs to |
| StoreProperties.CommitMakesReady | core/component_store.py:370-420 | after every run, committing a managed component whose tree is not broken installs it and makes it ready in its slot, changing no other pointer and no other tree; activating what is ready then makes it current |
| StoreProperties.CommitRefused | core/component_store.py:370-383 | an unmanaged, badly staged or broken component leaves the store as it was |
| StoreProperties.ActivationTakesEffect | core/component_store.py:422-504 | after every run an activation, by name or of the ready one, makes it current, what it replaces previous, empties what is ready there and changes nothing else |
| StoreProperties.RollbackTakesEffect | core/component_store.py:506-548 | after every run an idle rollback swaps current and previous of its slot, empties what is ready there and changes nothing else |
| StoreProperties.UnreadableStopsAll | core/component_store.py:866-902 | a state file with a pointer in another slot's place or unknown to the registry is never rewritten, and only an installation still adds its tree |
| StoreProperties.BrokenIsNotShown | core/component_store.py:434-458 | an answer is refused where a pointer shown in it names a tree that does not verify |
| StoreProperties.RollbackTwice | core/component_store.py:506-548 | rollback changes the pointers, and twice restores every current and previous one |
| StoreProperties.RollbackUndoesReplacement | core/component_store.py:422-548 | rollback after an activation, of a named component or of the ready one, restores the current pointers if and only if the activation replaced one, and makes the activated one the previous |
| StoreProperties.BusyChangesNothing | core/component_store.py:434-446 | a busy or unknown runtime means no write at all |
| StoreProperties.AlwaysShown | core/component_store.py:422-548 | after every run, what a switch or a postponement answers is never refused for a pointer beside it that does not verify |
| StoreProperties.PruneIsExact | core/component_store.py:589-610 | pruning that is not stuck removes exactly the trees that no pointer of the state names and that a managed registry entry describes |
| StoreProperties.BrokenStays | core/component_store.py:370-610 | no operation, whole or cut off, repairs or removes a tree that fails verification |
| StoreProperties.TornInsideARemoval | core/component_store.py:589-610 | cut off after any number of its writes, a prune leaves all trees verifying if and only if that number is even, that is unless it was inside a removal |
| StoreProperties.OnlyATornPruneBreaks | core/component_store.py:370-610 | over every run with a crash after any write, all trees verify if and only if no prune was cut off inside a removal |
| StoreProperties.StuckExactly | core/component_store.py:589-610 | over every run pruning is stuck if and only if some prune was cut off inside a removal |
| StoreProperties.BrokenForGood | core/component_store.py:370-610 | once a tree fails verification, after any further operations and crashes it still does, no pointer names it, pruning is stuck, and installing that version writes nothing |
| StoreProperties.CrashedPruneBreaks | core/component_store.py:370-610 | a concrete run from an empty store: a version installed, cut off before its state is saved, and the next prune cut off as it removes the stray tree leave a tree that fails verification and a stuck prune |
| ComponentStore.ManagedComponentStore.CommitStaging | core/component_store.py:370-420 | the commit's final disk and result |
| ComponentStore.ManagedComponentStore.Activate | core/component_store.py:422-458 | the activation's final disk and its result: refused exactly for an unmanaged, unverified or unknown case, deferred when busy, else activated |
| ComponentStore.ManagedComponentStore.ActivateReady | core/component_store.py:460-504 | the same for the ready component of a slot, refused when there is none |
| ComponentStore.ManagedComponentStore.Rollback | core/component_store.py:506-548 | the same for the previous component of a slot, refused when there is none |
| ComponentStore.ManagedComponentStore.Prune | core/component_store.py:589-610 | the pruning loop's final disk; it succeeds if and only if no garbage tree is broken, and lists exactly the garbage |
| TreeVerifier.Walk | core/component_store.py:782-831 | the worklist ends, sees every entry once, and reports files and directories, or fails exactly on too many or forbidden entries |
| TreeVerifier.Verify | core/component_store.py:767-864 | in whatever order directories are listed, accepts exactly the trees of at most 8192 allowed entries whose files match the inventory and whose directories are the files' proper ancestors |
| TreeVerifier.PartOfATreeFails | core/component_store.py:767-864 | no tree that lacks any path of an accepted one is accepted, so a removal cut off part of the way leaves a tree that fails verification |
| TreeMeaning.AcceptedTreesAgree | core/component_store.py:767-864 | two trees accepted for one inventory have the same entries, and their files the same size, digest, single link and, on POSIX, execute permission |
| TreeMeaning.NamesArePlain | core/component_store.py:782-831 | no name anywhere in an accepted tree is empty, a dot name, or holds a backslash or NUL |
| TreeMeaning.LaidIsAccepted | core/component_store.py:767-864 | the tree an inventory describes, laid out, is accepted |
| TreeMeaning.ChangedFileFails | core/component_store.py:767-864 | and with any file's size, digest, link count or, on POSIX, execute permission changed it is not |
| AdaptiveLatency.AdaptiveLatencyPolicy.Decide | core/jamulus_adaptive_latency.py:112-152 | one observation's decision and new state |
| AdaptiveLatency.HighStreakIsEvidence | core/jamulus_adaptive_latency.py:122-136 | the high counter has reached its mark if and only if what was observed ends in a run, each with a positive ping and a dropout or a ping at the upper mark or above, that is long enough or has a dropout |
| AdaptiveLatency.LowStreakIsEvidence | core/jamulus_adaptive_latency.py:128-133 | the same for the low counter and a long enough run of positive pings at the lower mark or below, under the upper one and without dropout |
| AdaptiveLatency.EveryRunIsSteady | core/jamulus_adaptive_latency.py:112-152 | over every run from any allowed factor it stays 1, 2 or 4, each change is one adjacent step backed by its evidence since the last change, and follows it by the minimum interval |
| AdaptiveLatency.AnyTwoChanges | core/jamulus_adaptive_latency.py:135-137 | any two changes are at least the minimum interval apart |
| AdaptiveLatency.ChangesExactlyOnEvidence | core/jamulus_adaptive_latency.py:112-152 | a considered observation changes the factor, up or down, if and only if its ping is positive, the interval is over and the observations end in that evidence |
| AdaptiveLatency.RunHasHeard | core/jamulus_adaptive_latency.py:112-152 | the evidence of a change is everything observed while listening since the change before it |
| AdaptiveLatency.OffChangesNothing | core/jamulus_adaptive_latency.py:112-116 | switched off or overridden, the policy neither changes the factor nor listens |
| BandCheck.BandCheckSession.UpdateStep | core/band_check.py:212-236 | the first step with the key takes the status; a missing one is reported |
| BandCheck.BandCheckSession.MergeLiveEvidence | core/band_check.py:514-600 | the merge of one observation into evidence and manual confirmations |
| BandCheck.BandCheckSession.ConfirmTwoWayAudibility | core/band_check.py:602-647 | the musician's judgment, including one given with no bandmate present |
| BandCheck.BandCheckSession.RefreshMusicPathStep | core/band_check.py:649-753 | the status cascade amounts to: unusable blocks; pass needs a playable path, a responsive engine, a bandmate and the confirmation |
| BandCheck.BandCheckSession.ApplyLiveObservations | core/band_check.py:415-512 | one observation applied to a live session; none outside live mode |
| BandCheckRuns.EveryRunIsFaithful | core/band_check.py:514-647 | over every run the confirmation stands if and only if it was given with or after the latest change of path and not withdrawn since, and agrees with the manual confirmations; a recheck is asked for if and only if a change went unconfirmed; each signal fact was seen since the latest change |
| BandCheckRuns.HeardNobodyExactly | core/band_check.py:514-647 | over every run a confirmation stands that was given with no bandmate present, and none that was given with one, if and only if one stands and each that does came with an observation of no bandmate |
| BandCheckRuns.ConfirmedAlone | core/band_check.py:569-576 | one observation that confirms and reports no bandmate is such a run |
| BandCheckRuns.AppliedShows | core/band_check.py:649-753 | after an observation the music-path step passes if and only if the evidence does |
| BandCheckShown.EachStepShows | core/band_check.py:415-753 | over every run each step shows what the last event that says anything of it says: engine, input, server and recorder by the observation, the music path action needed when unusable, passing with a playable path, a responsive engine, a bandmate and a standing confirmation, a warning otherwise |
| BandCheckShown.InputHeard | core/band_check.py:238-270 | the input counts as observed if and only if some observation of a run was loud enough |
| BandCheckShown.OutcomeMeans | core/band_check.py:772-790 | Ready if and only if every required step passes or does not apply; blocked if and only if one is neither, and no warning |
| BandCheckRuns.ReadyMeansHeard | core/band_check.py:772-790 | in a live session Ready implies a standing confirmation, no recheck due, playable quality, a responsive engine and a bandmate present |

## Left out

- Names: a display name carries its stripped, case-folded form beside its text; the folding itself is not modelled.
- Saved mixes: JSON coercions are reduced to optional values (a value given, given but unusable, or absent).
- Listeners, cached names, UDP mixer packets, instruments and skill levels: no effect on the mix.
- Iteration order of dictionaries is arbitrary where the program's result does not depend on it, and recorded as an order where it does (saved rows, staged rows).
- Row identity: an occupant is a seat with its joining time, standing for the row object; the manager class shows row objects and occupants correspond.
- Threads are phases of a state machine; the operating system's scheduling is any order of steps, the RPC client is an epoch, a readiness flag and a log of writes, and `is_alive` is false for a thread not yet started or exited.
- MixAbstract.PersonalMuteIsLastRequest: leaves out runs with a redundant unsolo or an add onto an occupied seat, whose exact effects are stated by `RedundantUnsoloExact`, `Refines` and `AddKeepsOthersExactly`; mix restores are included, counting as a request.
- Sockets, file handles, locks between processes, `fsync`, symlink and permission checks of the store's own directories.
- PacketBoundary.BoundaryBurst: leaves out bursts that touch the length field; they move the CRC field, so that whether one passes depends on the data, as `ShorterPasses` shows.
- Text decoding and stripping of client names is a function passed in; JSON decoding likewise.
- RPC ids compare as integers; Python's equality of 1, 1.0 and true is not modelled.
- Graphemes.GraphemeClusters: Unicode general categories are predicates passed in; the Hangul ranges and other classes are the program's own.
- Musician-name versions: both approved versions have the limits 16 and 8; an unknown version's error is not modelled.
- Samples and pings are real numbers: NaN, infinities and rounding are not modelled.
- Scratch-recording verdicts other than the waveform, and recorder start and stop.
- StoreModel.EveryRunIsGood: the registry is fixed and lists each slot and version once; the 256-slot bound on reading a state file, artifacts and staging directories are not modelled; trees change only by the store's own operations.
- The state file is written through a temporary file and a rename; that this write happens whole or not at all is assumed, being one write of the disk model, and `PointersChangeAtOnce` rests on it.
- Installing renames a staged tree into place, likewise one write; removing a tree is two, the first leaving a part of it.
- AdaptiveLatency.AdaptiveLatencyPolicy.Decide: requires a factor of 1, 2 or 4; the controller sets no other, and another would raise an error at the first decision.
- Digests are opaque values, and hard links are a link count.
- TreeVerifier.Verify: a payload is the finite map of its paths; a directory that cannot be read is not modelled.
- BandCheck.BandCheckSession.ApplyLiveObservations: requires the engine and input steps that every live session is built with; texts and suggested actions are not modelled.
- Presence, art room, creator profiles, checklists, guidance wording, catalogs, endpoint validators: guard lists and tables that would only add easy members.
