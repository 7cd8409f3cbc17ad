# Gabbro, modelled and verified in Dafny

Gabbro is a password manager. This project models the parts of its Rust core whose
correctness is hard to see from one function at a time, and proves what they promise for all
inputs, all runs and all interleavings:

- **CTAPHID transport** (`Ctaphid.dfy`, `CtaphidRules.dfy`, `CtaphidDevice.dfy`): fragmentation
  and reassembly of 64-byte reports (section 11.2 of CTAP 2.1), channel allocation, refusals, and
  the class that updates its fields in place.
- **The pump and its life cycle** (`Pump.dfy`, `PumpThread.dfy`, `Lifecycle.dfy`): the thread
  that moves requests and responses while `respond` runs beside it, and any number of
  processes calling `open`, `start` and `stop` against one lock.
- **Auto-type** (`Keysym.dfy`, `Planner.dfy`, `Injector.dfy`, `Autotype.dfy`, `XSession.dfy`):
  keysyms become batches of bindings and taps over a finite pool of scratch keycodes; the X
  keymap is a map that requests change, and every request may fail.
- **Entries and history** (`Calendar.dfy`, `Retention.dfy`, `TextOrder.dfy`, `StampOrder.dfy`,
  `FieldKeys.dfy`, `Entries.dfy`, `KeyTables.dfy`, `Update.dfy`, `Patch.dfy`, `VaultStore.dfy`): the
  seven entry types, diff, keyed edits, `update_entry` with change times and deletion marks, the
  stamps whose text order a sync relies on, and a hand-written Gregorian calendar that decides
  when old secrets expire.
- **Sync** (`Merge.dfy`, `MergeStable.dfy`, `MergeReports.dfy`, `Sync.dfy`, `VaultMerge.dfy`): the
  field-by-field merge of two versions of an entry with the reports it makes, what it does with
  the change times that updates leave behind, and the merge of two whole vaults.
- **Passkeys** (`Session.dfy`, `Import.dfy`, `Ctap2.dfy`, `Ctap2Rules.dfy`, `Ctap2Seam.dfy`):
  describe, ask the user, perform; and the import that keeps entry ids unique, on which signing relies.

Each imperative part is a method or class proved against a function on values, and the laws
are lemmas about that function. `dafny verify dfyconfig.toml` checks the whole project.

Where the code does less than its comments or tests promise, the model follows the code:

- A payload over 7609 bytes is fragmented but cannot be reassembled: its sequence numbers reach
  0x80 (`TransportableExactly`). Channel ids are safe for the first 2^32 - 2 INITs only
  (`ChannelIdsSafeExactly`).
- A request completing while another is in flight takes over the response: it goes to the most
  recent request, whichever one it answers (`ResponseChannelExactly`,
  `AnswerGoesToTheOtherRequest`).
- A date past year 9999 does not survive its own text form: it expires wrongly and adding days to it
  goes wrong (`RetentionExactly`, `RetentionFailsPastYear9999`, `AddDaysCompose`,
  `AddDaysFailsPastYear9999`).
- `update_entry` reports a type mismatch only when the new entry is a login or a card
  (`TypeMismatchExactly`).
- Keyed edits cannot express a cleared optional, a changed attachment, a changed hidden flag, a
  label other than the key or key material too long for its block (`PatchInvertsDiffExactly`,
  `ClearedNotesComeBackEmpty`).
- `perform_approved` says describe and perform never disagree. They agree on a create always. On a
  sign-in they agree exactly when the chosen account is still where it was counted: its place still
  holds an account that may answer, with its key, and as many such accounts precede it as were
  listed before it (`ChoiceHoldsExactly`). That account or an earlier one deleted or moved to another
  site in between shifts the choice (`ChoiceAfterDeletionExactly`, `DeletionShiftsTheChoice`,
  `EditedSiteShiftsTheChoice`).
- A consented signature looks its entry up again by id, so a listed account signs with its own key
  exactly when no earlier entry carries its id (`OwnKeySignsExactly`,
  `DuplicateIdSignsForAnotherSite`).
- `session_create_entry` appends before it saves, so a registration answered "denied" because
  the save failed stays in memory (`CreateAddsUnlessExcluded`).
- `merge_entry_pair` says the newer change time wins each field. Two edited values are never
  compared by time: unless they are equal they clash and each side keeps its own
  (`NewerWinsOnlyIfEqual`, `NewerTitleLoses`).
- A field edited on one device only reaches the other exactly when it carried no change time at the
  fork, or the values are equal anyway: an inherited change time reads as an edit on both sides and
  clashes (`EditOnOneDeviceExactly`, `StampedFieldClashes`).
- Merging two versions of one type drops no value, but an id with two types keeps the later version
  whole: a value only the other version has is gone (`SyncLosesExactly`, `LoginTurnedNoteLosesUrl`).
- The history keeps one previous value per field under updates; a merge keeps that exactly when the
  two sides never saved different ones for a field (`MergeKeepsOneSlotExactly`,
  `TwoPreviousPasswords`).
- Merging an entry with itself keeps every value but not always the entry: unsorted keys, repeated
  items, times of removed items and overtaken marks are tidied away, so a second sync can still
  change an entry the first one took whole; from then on nothing changes (`MergeWithSelfExactly`,
  `UnsortedEntryChanges`, `SecondSyncExactly`, `AddedEntryChangesOnce`, `SyncSettles`).

## Model

| member | source | states |
|---|---|---|
| CtaphidFraming.CompletionEffect | rust/src/ctaphid.rs:56-122 | what a report that completes a message does: PING echoed, CBOR queued, anything else refused, nothing pending afterwards |
| CtaphidFraming.ReassemblyInvariant | rust/src/ctaphid.rs:61-99 | over every report sequence a pending message has `57 + 59 * nextSeq` bytes, fewer than it declared, with `nextSeq` at most 128, and nothing over 7609 bytes ever completes |
| CtaphidFraming.PendingOnAllocatedChannel | rust/src/ctaphid.rs:56-107 | over every run with safe ids, a pending message sits on an allocated channel |
| CtaphidFraming.RepliesOnOwnChannel | rust/src/ctaphid.rs:56-138 | every reply is addressed to the channel of the report that caused it |
| CtaphidFraming.PendingUndisturbed | rust/src/ctaphid.rs:56-102 | no report but a continuation on the same channel changes a pending message |
| CtaphidFraming.InitResponseCarriesId | rust/src/ctaphid.rs:125-138 | an INIT reply is on the broadcast channel, echoes the nonce and carries the allocated id and capabilities at their offsets |
| CtaphidFraming.GrantedIdsCountUp | rust/src/ctaphid.rs:125-138 | the ids granted along a run count up from the next id, wrapping at 2^32 |
| CtaphidFraming.ChannelIdsSafeExactly | rust/src/ctaphid.rs:105-138 | the ids a run grants are distinct and never 0 or broadcast if and only if it holds at most 2^32 - 2 allocations |
| CtaphidFraming.ReassemblyInvertsFragmentation | rust/src/ctaphid.rs:56-174 | the frames of any payload of at most 7609 bytes, with any reports in between except continuations on that channel, deliver the payload once and byte for byte |
| CtaphidFraming.TransportableExactly | rust/src/ctaphid.rs:158-174 | a message's own frames deliver it if and only if it has at most 7609 bytes |
| CtaphidDevice.EncodeMessage | rust/src/ctaphid.rs:158-174 | the byte-array loop produces exactly the specified frames |
| CtaphidDevice.Ctaphid.Feed | rust/src/ctaphid.rs:56-102 | one report changes the fields and answers exactly as the specification says, on every branch |
| CtaphidDevice.Ctaphid.AllocateChannel | rust/src/ctaphid.rs:125-138 | the counter moves by one, wrapping, and the old value goes into the reply |
| CtaphidDevice.Ctaphid.FinishMessage | rust/src/ctaphid.rs:111-122 | a reassembled message is echoed, queued or refused |
| CtaphidDevice.Ctaphid.TakeMessage | rust/src/ctaphid.rs:143-145 | the queued message is handed out once |
| CtaphidRules.EncodeBytes | rust/src/ctaphid.rs:158-174 | every byte of every frame of a message: channel, command, length, sequence number, the 57 or 59 bytes it carries, zeros after them, and how many frames there are |
| CtaphidRules.KeepaliveBytes | rust/src/ctaphid.rs:151-155 | the keepalive is one frame of command 0x3b carrying 0x01 |
| CtaphidRules.AllocatedIsGranted | rust/src/ctaphid.rs:105-107 | while ids are safe a channel counts as allocated if and only if an INIT reply of the run granted it |
| CtaphidRules.UngrantedIsRefused | rust/src/ctaphid.rs:61-65 | a message on a channel never granted is refused with 0x0b and changes nothing |
| CtaphidRules.BusyIsRefused | rust/src/ctaphid.rs:66-68 | a message begun while another is pending is refused with 0x06 and changes nothing |
| CtaphidRules.WrongSequenceAborts | rust/src/ctaphid.rs:84-91 | a wrong sequence number drops the pending message and is refused with 0x04 |
| CtaphidRules.StrayIsIgnored | rust/src/ctaphid.rs:84-102 | a continuation of nothing, or on another channel, changes nothing and gets no reply |
| CtaphidRules.UnknownCommandIsRefused | rust/src/ctaphid.rs:111-122 | a completed message that is neither PING nor CBOR is refused with 0x01 and queues nothing |
| PasskeyPump.PumpIsSafe | rust/src/passkey_daemon.rs:161-226 | over every interleaving of iterations, emissions and responses: completed CBOR messages surface once and in order, logged requests are those messages on their own channels, every response goes to the latest surfaced request, keepalives only to the in-flight channel |
| PasskeyPump.EveryReportIsAnswered | rust/src/passkey_daemon.rs:187-205 | over every run the transport replies written are a prefix of those the reports heard call for, and all of them while the pump has not stopped |
| PasskeyPump.IterationOutput | rust/src/passkey_daemon.rs:161-226 | what one iteration writes, in order: the response framed on the channel in flight, the replies to the report read, a keepalive if one is due |
| PasskeyPump.OneResponsePerRequest | rust/src/passkey_daemon.rs:161-226 | between two responses there is another request on the later one's channel |
| PasskeyPump.IdleResponseIsDiscarded | rust/src/passkey_daemon.rs:174-185 | a response handed over with nothing in flight is never written |
| PasskeyPump.ResponseChannelExactly | rust/src/passkey_daemon.rs:174-201 | over every run a response is on an earlier request's channel if and only if the last request before it is on that channel |
| PasskeyPump.AnswerGoesToTheOtherRequest | rust/src/passkey_daemon.rs:134-201 | a run in which two requests surface on channels 1 and 2 and the answer to the first is written on channel 2, for any payloads of one frame and any answer |
| PumpThread.Daemon.PumpOnce | rust/src/passkey_daemon.rs:161-226 | one loop iteration on the shared fields is exactly one step of the pump model |
| PumpThread.Daemon.SendResponse | rust/src/passkey_daemon.rs:174-185 | the handed-back response is framed, written and taken, a failed write stopping the pump |
| PumpThread.Daemon.ReadReport | rust/src/passkey_daemon.rs:187-205 | one host report is answered and a completed message becomes the request in flight |
| PumpThread.Daemon.SendKeepalive | rust/src/passkey_daemon.rs:207-214 | a keepalive goes out only for the in-flight channel and its failure is ignored |
| PumpThread.Daemon.HandBack | rust/src/passkey_daemon.rs:134-140 | `respond` replaces the waiting response |
| DaemonLifecycle.ProgramsFit | rust/src/passkey_daemon.rs:57-157 | each of open, start and stop drops a device before its lock and leaves nothing held |
| DaemonLifecycle.ActKeeps | rust/src/passkey_daemon.rs:32-157 | every step of every thread keeps the ownership discipline |
| DaemonLifecycle.AtMostOneDevice | rust/src/passkey_daemon.rs:32-157 | over every interleaving of any number of processes at most one device lives, its holder owns the lock, and OPENED and DAEMON are never both occupied |
| DaemonLifecycle.OpenEnds | rust/src/passkey_daemon.rs:57-73 | an `open` run alone stops the process first and then holds a new device and the lock in OPENED if and only if the lock was free and both could be had |
| DaemonLifecycle.StartEnds | rust/src/passkey_daemon.rs:78-106 | a `start` run alone moves the opened device and lock into DAEMON, alive and locked as before |
| DaemonLifecycle.StopEnds | rust/src/passkey_daemon.rs:144-157 | after a `stop` run alone the process holds neither device nor lock, and every other process what it held |
| Keysyms.CharToKeysym | rust/src/autotype/keysym.rs:5-15 | no character becomes NoSymbol, Tab or Return |
| Keysyms.KeysymRanges | rust/src/autotype/keysym.rs:5-15 | printable Latin-1 characters are their own keysyms, any other is 0x01000000 plus its code point |
| Keysyms.KeysymDeterminesChar | rust/src/autotype/keysym.rs:5-15 | the keysym of every character determines the character |
| Keysyms.BuildSequence | rust/src/autotype/sequence.rs:12-18 | the pushed list is username, Tab, password, Return |
| Keysyms.LoginSequenceDecodes | rust/src/autotype/sequence.rs:12-18 | both strings can be read back from the keysyms, for every username and password |
| KeycodePlanner.PlaceSlot | rust/src/autotype/inject.rs:290-325 | one slot is placed as the planner's step function says |
| KeycodePlanner.PlanBatches | rust/src/autotype/inject.rs:290-325 | the loop computes exactly the greedy plan |
| KeycodePlanner.PlanPerforms | rust/src/autotype/inject.rs:285-325 | the plan cuts the slots into contiguous segments; each batch binds every pool keycode at most once and its taps mean its segment in order |
| KeycodePlanner.PlanIsOptimal | rust/src/autotype/inject.rs:285-325 | no split into contiguous segments with at most pool-size distinct keysyms each has fewer segments |
| KeyInjection.BatchRestores | rust/src/autotype/inject.rs:134-189 | a batch before the last types its segment and leaves the keymap as it found it |
| KeyInjection.PlanPrefix | rust/src/autotype/inject.rs:134-189 | after any prefix of the requests a prefix of the meaning is typed and only pool keycodes differ |
| KeyInjection.PlanTypesAll | rust/src/autotype/inject.rs:134-189 | all requests type the whole meaning |
| KeyInjection.KeysAreLetGo | rust/src/autotype/inject.rs:164-196 | throughout a plan no key goes down or is rebound while one is down, and in the end every key is up |
| Autotype.KeyboardIsReady | rust/src/autotype/inject.rs:201-259 | the pool found is unmapped, genuine Tab and Return keys are outside it, and the slots mean the keysyms asked for |
| Autotype.GenuineKeyExactly | rust/src/autotype/inject.rs:147-157 | Tab and Return take the first keycode that carries them if and only if the table has one; everything else takes a scratch key |
| Autotype.InjectionTypesExactly | rust/src/autotype/inject.rs:134-211 | from any keyboard with a free keycode, the injection types exactly the keysyms |
| Autotype.LaggingReaderIsSafe | rust/src/autotype/inject.rs:134-189 | a tap resolved against any keymap from before its batch binds until before the next one binds yields the intended keysym or NoSymbol; Tab and Return yield their own |
| Autotype.InjectionCleansUp | rust/src/autotype/inject.rs:66-82 | wherever requests stopped and whichever restores failed, the keymap ends as it began except at keycodes whose restore failed |
| XSession.FindAllScratchKeycodes | rust/src/autotype/inject.rs:236-259 | every fully unmapped keycode, or exactly which error: the request failed, no levels, or none free |
| XSession.InjectPlanned | rust/src/autotype/inject.rs:134-189 | the effect is that of the requests sent before the first failure |
| XSession.RestoreAll | rust/src/autotype/inject.rs:213-231 | all pool keycodes are attempted; one is left unrestored only if its own request was refused in this call |
| XSession.TypeKeysyms | rust/src/autotype/inject.rs:66-82 | for any pattern of failures: a prefix is typed, the keymap is restored but for refused restores, Ok means all typed and all restored, and without a failed request the result is Ok if and only if there is a free keycode |
| XSession.TypeLogin | rust/src/autotype/sequence.rs:12-18 | Ok means the target received exactly that username and password |
| Calendar.ComputeDaysFromYmd | rust/src/api/vault.rs:939-962 | the accumulating loops compute the day count |
| Calendar.ComputeDaysToYmd | rust/src/api/vault.rs:1350-1383 | the subtracting loops compute the date |
| Calendar.DaysRoundTrip | rust/src/api/vault.rs:1350-1383 | every day number becomes a valid date that counts back to it |
| Calendar.DateRoundTrip | rust/src/api/vault.rs:939-962 | every valid date from 1970 counts to a day number that becomes it again |
| Calendar.DayNumberOrder | rust/src/api/vault.rs:939-962 | day-count order is date order |
| Calendar.YearStartClosedForm | rust/src/api/vault.rs:939-950 | the loop over years equals the closed form with leap-year counts |
| Calendar.DayNumberClosedForm | rust/src/api/vault.rs:939-962 | the day number of any date equals the Gregorian closed form, without loop or month table |
| Calendar.ValidDateExactly | rust/src/api/vault.rs:1350-1383 | a date is valid if and only if its day lies between the first of its month and the first of the next |
| Retention.FormattedDateReadsBack | rust/src/api/vault.rs:920-936 | a date with a four-digit year is read back exactly from its text |
| Retention.AddDaysMoves | rust/src/api/vault.rs:920-936 | adding days moves the day number and keeps the time of day |
| Retention.AddDaysCompose | rust/src/api/vault.rs:920-936 | adding days composes additively if and only if the date in between is no later than 9999-12-31 |
| Retention.AddDaysFailsPastYear9999 | rust/src/api/vault.rs:920-936 | one day after 9999-12-31 and then none is not one day at once |
| Retention.RetentionExactly | rust/src/api/vault.rs:1393-1410 | a record kept k days expires exactly when more than k days have begun, if and only if its expiry date is no later than 9999-12-31 |
| Retention.RetentionFailsPastYear9999 | rust/src/api/vault.rs:1393-1410 | a record made on 9999-12-31 and kept one day is a counterexample past that bound |
| Retention.RetainLive | rust/src/api/vault.rs:1416-1425 | the loop keeps exactly the unexpired records |
| Retention.PurgeKeepsOrder | rust/src/api/vault.rs:1416-1425 | purging keeps survivors in order, record by record |
| Retention.PurgeTwice | rust/src/api/vault.rs:1416-1425 | purging and purging again later is purging later |
| StampOrder.StampReadsBack | rust/src/api/vault.rs:1330-1348 | up to year 9999 a stamp is `YYYY-MM-DDThh:mm:ssZ` and its instant reads back from those places to the second |
| StampOrder.StampOrderIsTimeOrder | rust/src/vault/session.rs:3501-3502 | up to year 9999 one stamp comes before another as text if and only if its instant is earlier |
| StampOrder.ShortTextNeverExpires | rust/src/api/vault.rs:1393-1410 | no expiry, or a text too short to be one, never expires, and adding days leaves such a text as it is |
| StampOrder.UnreadableText | rust/src/api/vault.rs:1393-1410 | a text whose fields are no numbers expires if and only if 9999-12-31 has passed |
| StampOrder.UnreadableTextMoves | rust/src/api/vault.rs:920-936 | adding days to such a text counts from 2025-01-01 and keeps what follows the date |
| FieldKeys.KeyRoundTrip | rust/src/api/vault.rs:742-775 | a key string names exactly one field, pair or attachment |
| FieldKeys.KeySpacesDisjoint | rust/src/api/vault.rs:446-449 | scalar, pair, attachment and deletion keys never collide |
| Entries.CredentialRoundTrip | rust/src/vault/entry.rs:351-403 | applying a key-material block recovers every byte of it if and only if its parts fit 16-bit lengths |
| KeyTables.LoginKeys | rust/src/api/vault.rs:491-501 | each key string of a login reads the field it is named after; likewise the rows below |
| KeyTables.NoteKeys | rust/src/api/vault.rs:502-507 | the same for a note |
| KeyTables.IdentityKeys | rust/src/api/vault.rs:508-516 | the same for an identity |
| KeyTables.CardKeys | rust/src/api/vault.rs:517-528 | the same for a card: name, status, holder and limit |
| KeyTables.CardSecretKeys | rust/src/api/vault.rs:525-539 | the same for a card: number, expiry, CVV and PIN |
| KeyTables.CardAccountKeys | rust/src/api/vault.rs:529-538 | the same for a card: account and network |
| KeyTables.CardBankKeys | rust/src/api/vault.rs:540-546 | the same for a card: bank and transaction password |
| KeyTables.CardNotesKey | rust/src/api/vault.rs:546-546 | the same for a card: notes |
| KeyTables.FileKeys | rust/src/api/vault.rs:550-555 | the same for a file |
| KeyTables.CustomKeys | rust/src/api/vault.rs:556-557 | the same for a Custom entry |
| KeyTables.PasskeyKeys | rust/src/api/vault.rs:572-580 | the same for a passkey |
| KeyTables.CredentialKey | rust/src/api/vault.rs:721-737 | the text of a key-material block written under `credential` replaces the block, and text that does not decode changes nothing |
| KeyTables.ItemKeys | rust/src/api/vault.rs:742-810 | pairs and attachments are found under their prefixes, and no value can be written to an attachment |
| Entries.ItemKeysMeaning | rust/src/api/vault.rs:596-640 | an item key is listed exactly if the entry has that item |
| Entries.ChangedFieldKeysMeaning | rust/src/api/vault.rs:450-592 | the changed keys are exactly those present in the new entry with a value the old one does not have there |
| EntryUpdate.TypeMismatchExactly | rust/src/api/vault.rs:871-911 | an update is refused if and only if it would turn another type into a login or a card |
| EntryUpdate.UpdateContent | rust/src/api/vault.rs:829-845 | an update stores its own content but the stored attachments and key material |
| EntryUpdate.FieldTimesTrackTheRun | rust/src/api/vault.rs:847-864 | over every run of same-type updates each change time is the clock of the last update that changed the key, and each deletion mark that of the last removal still in force |
| EntryUpdate.PresentItemHasNoTombstone | rust/src/api/vault.rs:855-864 | an item present after a run carries no deletion mark |
| EntryUpdate.RecordPreviousMeaning | rust/src/vault/entry.rs:87-104 | one history slot per field: the new record is in it, other fields' records are untouched |
| EntryUpdate.SecretHistoryOneSlot | rust/src/api/vault.rs:872-900 | an update keeps one history slot per field |
| EntryUpdate.ReplacedPasswordIsKept | rust/src/api/vault.rs:872-883 | a replaced password is kept in one record that expires exactly when its days have passed |
| EntryUpdate.ReplacedCardSecretsAreKept | rust/src/api/vault.rs:880-893 | one update replacing CVV and PIN keeps one record for each with the same exact expiry and leaves the other fields' records alone |
| EntryUpdate.ReplacedSecretsAreKept | rust/src/api/vault.rs:872-893 | a replaced password, CVV or PIN is kept, each whether or not another secret changed, until its days have passed or for good |
| EntryUpdate.OtherwiseHistoryStays | rust/src/api/vault.rs:871-911 | with no secret replaced, and on the five other types, the history stays as stored |
| EntryUpdate.UpdateStamps | rust/src/api/vault.rs:829-911 | the stored entry is stamped now and has the id, creation time and folder of the edit |
| EntryUpdate.RecordPreviousPlace | rust/src/vault/entry.rs:87-104 | a replaced record stays in its place and a first one goes to the end |
| EntryPatch.SetKeyAt | rust/src/api/vault.rs:660-775 | setting by key changes the value under that key and no other, on every type |
| EntryPatch.RemoveKeyAt | rust/src/api/vault.rs:780-810 | removing by key empties that item and touches no other, on every type |
| EntryPatch.PatchKeepsMeta | rust/src/api/vault.rs:660-810 | an edit or removal by key leaves id, stamps, change times and history alone |
| EntryPatch.SetPairKeepsOrder | rust/src/api/vault.rs:742-770 | a written pair stays in its place with its label and hidden flag; a new one comes last, not hidden |
| EntryPatch.RemovePairKeepsOrder | rust/src/api/vault.rs:780-793 | pairs are removed one by one and the others keep their order |
| EntryPatch.RemoveAttachmentKeepsOrder | rust/src/api/vault.rs:795-809 | attachments are removed one by one and the others keep their order |
| EntryPatch.PatchInvertsDiffExactly | rust/src/api/vault.rs:450-810 | carrying out a diff, in any order and with repetition, leaves no difference if and only if no changed optional was cleared, no attachment changed, pairs changed by value alone and changed key material fits its block |
| EntryPatch.ClearedNotesComeBackEmpty | rust/src/api/vault.rs:660-736 | a concrete entry whose notes were cleared is patched to empty notes and still differs |
| VaultStore.UpdateTouchesOne | rust/src/api/vault.rs:815-916 | an update keeps every id and place and touches no entry but its own |
| VaultStore.ComputeChangedFieldKeys | rust/src/api/vault.rs:450-592 | the hash-map loops list exactly the changed keys, in order |
| VaultStore.ComputeFieldTimes | rust/src/api/vault.rs:847-864 | stamping, marking and unmarking give the same map in whatever order the hash sets are walked |
| VaultStore.UpdateEntry | rust/src/api/vault.rs:815-916 | in place on the list: the first entry with the id is replaced as specified, or the error is returned and nothing changes |
| VaultStore.PurgeExpiredHistory | rust/src/api/vault.rs:1416-1425 | every entry's history is purged in place and nothing else changes |
| VaultStore.PurgedContent | rust/src/api/vault.rs:1416-1425 | a purge changes no value and no change time |
| VaultStore.SetEntryFieldByKey | rust/src/api/vault.rs:742-775 | in place: one entry changes, as the keyed edit says |
| VaultStore.RemoveEntryItemByKey | rust/src/api/vault.rs:780-810 | in place: one entry changes, as the keyed removal says |
| VaultSessions.LookupFinds | rust/src/vault/session.rs:349-358 | with unique ids, looking an entry up by its id finds that entry |
| VaultSessions.PasskeysForRpMeaning | rust/src/vault/session.rs:397-410 | exactly the passkeys of exactly that relying party |
| VaultSessions.VaultSession.GetEntry | rust/src/vault/session.rs:349-358 | the first entry with the id, or why not |
| VaultSessions.VaultSession.FindPasskeys | rust/src/vault/session.rs:395-410 | the filtered list in vault order, or locked |
| VaultSessions.VaultSession.EntryIds | rust/src/vault/session.rs:386-394 | the set of ids, or locked |
| VaultSessions.VaultSession.CreateEntry | rust/src/vault/session.rs:443-461 | the entry is appended before the save and stays if the save fails |
| ImportMerge.MergeSourceIntoSession | rust/src/api/import.rs:324-341 | the loop appends every source entry, re-keyed as specified, and reports the count or the error |
| ImportMerge.AdditionsMeaning | rust/src/api/import.rs:330-337 | each source entry is added unchanged but for its id, which is kept if and only if neither the session nor an earlier addition holds it |
| ImportMerge.ClashExactly | rust/src/api/import.rs:330-337 | when drawn ids avoid the source's, an id is kept if and only if neither the session nor an earlier source entry has it |
| ImportMerge.ImportKeepsIdsUnique | rust/src/api/import.rs:321-341 | ids stay unique whatever duplicates the source holds |
| Ctap2.AssertionMatches | rust/src/ctap2.rs:290-329 | the accounts listed are never none and are exactly the vault's passkeys of the requested site that a non-empty allowList names |
| Ctap2.PerformSignsTheListedAccount | rust/src/ctap2.rs:76-126 | with unique ids and the vault unchanged, account i signs if listed and NO_CREDENTIALS is answered otherwise |
| Ctap2.PerformStaysWithinTheRequest | rust/src/ctap2.rs:111-126 | whatever the vault became, performing never signs for another site or outside a non-empty allowList |
| Ctap2.CreateAddsUnlessExcluded | rust/src/ctap2.rs:235-274 | an approved create adds its entry if and only if the excludeList does not name one of the site's credentials |
| Ctap2.StepGrows | rust/src/ctap2.rs:137-161 | a request changes the vault only by appending one passkey it asked for and the user approved |
| Ctap2.StepSigns | rust/src/ctap2.rs:50-161 | a signature is by the very account the user picked from the list shown for that request, or the decoded request itself said `up` is false and named it |
| Ctap2Rules.SignInRefusals | rust/src/ctap2.rs:290-329 | on the decoded members: when a sign-in is refused and with which byte, and otherwise which accounts are offered in vault order |
| Ctap2Rules.DescribeSignIn | rust/src/ctap2.rs:50-108 | a sign-in is answered without asking if and only if its options hold `up` as the boolean false; otherwise the accounts offered are shown |
| Ctap2Rules.HandleSignIn | rust/src/ctap2.rs:137-161 | what each answer of the user leads to: a signature by that very account over the request's hash, or a refusal |
| Ctap2Rules.OtherCommands | rust/src/ctap2.rs:50-86 | getInfo is answered at once and any other command is refused with 0x01 |
| Ctap2Rules.RegistrationParses | rust/src/ctap2.rs:164-231 | a registration with ES256 among its algorithms asks for the site and user it carries; without it 0x26 is answered |
| Ctap2Rules.RegistrationRefusals | rust/src/ctap2.rs:164-231 | a registration without a site, user name, user handle or algorithm list is refused with 0x14, an unreadable one with 0x12, any on a locked vault with 0x27 |
| Ctap2Rules.HandleRegistration | rust/src/api/passkey_bridge.rs:114-158 | a whole registration: denied, excluded, or the passkey stored field by field from the request and the new key |
| Ctap2.RunGainsOnlyApproved | rust/src/ctap2.rs:50-161 | over every run the vault keeps what it had, and each passkey gained has its own step that requested it and in which the user approved it |
| Ctap2.RunSignsOnlyApproved | rust/src/ctap2.rs:50-161 | over every run every signature is by the account picked from the list shown, or came from a request whose decoded options hold `up` as false and whose non-empty allowList names the signer |
| Ctap2.RunKeepsIdsUnique | rust/src/api/passkey_bridge.rs:114-158 | registrations with fresh ids keep ids unique over every run |
| Ctap2.DenyingRunChangesNothing | rust/src/ctap2.rs:137-161 | a run that denies everything leaves the vault unchanged |
| Ctap2.CreateIsWhatWasDescribed | rust/src/ctap2.rs:108-126 | describing and performing a create agree on site and user whatever happened to the vault |
| Ctap2.GrowthKeepsTheChoice | rust/src/ctap2.rs:108-126 | while the vault only grew, account i of the list described is the account that signs |
| Ctap2.ChoiceHoldsExactly | rust/src/ctap2.rs:108-126 | after any change of the vault, the account chosen signs if and only if its own place still holds an account that may answer, with its key, and as many such accounts precede it as were listed before it |
| Ctap2.ChoiceAfterDeletionExactly | rust/src/ctap2.rs:108-126 | after deletions and additions, account i of the list described signs if and only if no account listed up to i was deleted |
| Ctap2.DeletionShiftsTheChoice | rust/src/ctap2.rs:108-126 | a concrete vault where a deletion in between makes another account sign |
| Ctap2.EditedSiteShiftsTheChoice | rust/src/ctap2.rs:108-126 | a concrete vault where moving the chosen account to another site makes another account sign, with nothing deleted |
| Ctap2.OwnKeySignsExactly | rust/src/api/passkey_bridge.rs:251-270 | without unique ids, a listed account signs with its own key if and only if no earlier entry carries its id |
| Ctap2.DuplicateIdSignsForAnotherSite | rust/src/api/passkey_bridge.rs:251-270 | a concrete vault with a repeated id where another site's key signs |
| Ctap2.BothPathsSelectAlike | rust/src/api/passkey_bridge.rs:221-240 | the JSON path offers the same accounts in the same order when given the same accepted ids |
| Ctap2Seam.FindMatches | rust/src/ctap2.rs:290-329 | the retain loop on the session computes the specified accounts or error |
| Ctap2Seam.Create | rust/src/ctap2.rs:235-274 | registration on the session is the specified one, including a failed save |
| Ctap2Seam.Sign | rust/src/api/passkey_bridge.rs:251-270 | the entry is looked up again by id and signs only if it is a passkey |
| Ctap2Seam.Perform | rust/src/ctap2.rs:111-126 | performing on the session is the specified step |
| Ctap2Seam.Handle | rust/src/ctap2.rs:137-161 | describe, ask and perform on the session are the specified step |
| EntryMerge.MergedAt | rust/src/vault/session.rs:1571-1781 | on all seven types the merged entry holds under every key what the one-key rule chooses |
| EntryMerge.MergedTimeAt | rust/src/vault/session.rs:1336-1456 | the merged change time is the later one if both sides have the value, its owner's otherwise |
| EntryMerge.MergedMarkAt | rust/src/vault/session.rs:1786-1802 | the merged deletion mark is the later one not overtaken by a change |
| EntryMerge.LaterTimeIsKept | rust/src/vault/session.rs:1336-1456 | the merged change time of a value both sides have is one of theirs and neither is later; of a value one side has, its own |
| EntryMerge.LaterMarkIsKept | rust/src/vault/session.rs:1786-1802 | with the item gone on both sides, the merged mark is one of theirs and neither is later |
| EntryMerge.MarksStayExactly | rust/src/vault/session.rs:1786-1802 | a mark stays if and only if it is newer than the merged change time, and the later of those is kept |
| EntryMerge.DeletionIsRemembered | rust/src/vault/session.rs:1786-1802 | a deletion is not forgotten while the item is absent on both sides |
| EntryMerge.MergeLosesNothing | rust/src/vault/session.rs:1486-1561 | a key has a value if and only if a side has one, and it is a side's value |
| EntryMerge.LocalEditWins | rust/src/vault/session.rs:1336-1368 | a value edited on this side is never overwritten |
| EntryMerge.UneditedGoesToTheLater | rust/src/vault/session.rs:1358-1366 | of two different values neither side edited, the version updated later is taken, and they clash if and only if the update stamps are equal |
| EntryMerge.MergeConverges | rust/src/vault/session.rs:1336-1368 | merging in either direction leaves the same value if and only if no clash is reported, and both directions report the same clashes |
| EntryMerge.NewerWinsOnlyIfEqual | rust/src/vault/session.rs:1336-1368 | between two edited values the newer change time is taken if and only if the values are equal; otherwise it is a clash |
| EntryMerge.NewerTitleLoses | rust/src/vault/session.rs:1336-1368 | a concrete pair of notes where the title with the newer change time is not taken |
| EntryMerge.MergedTimesConverge | rust/src/vault/session.rs:1336-1456 | merged change times and deletion marks do not depend on the direction |
| EntryMerge.MergeWithSelf | rust/src/vault/session.rs:1571-1818 | merging an entry with itself changes no value and reports nothing |
| EntryMerge.MergeKeepsHistory | rust/src/vault/session.rs:1783-1818 | a merge keeps every saved previous value of both sides and invents none, and its update stamp is older than neither's |
| EntryMerge.MergeKeepsIdentity | rust/src/vault/session.rs:1571-1818 | id, creation time and folder stay the local ones, the update stamp is one of the two, and the local history comes first |
| EntryMerge.MergeKeepsOneSlotExactly | rust/src/vault/session.rs:1803-1811 | a merge keeps one previous value per field if and only if the local history does and no two different records for a field meet |
| EntryMerge.TwoPreviousPasswords | rust/src/vault/session.rs:1803-1811 | two one-record histories for the password merge into two slots |
| MergeStability.MergeIsStable | rust/src/vault/session.rs:1571-1818 | merging the same version again returns the same entry: values, order, change times, deletion marks, history and stamp |
| MergeStability.SecondMergeReports | rust/src/vault/session.rs:1409-1430 | the second merge repeats the clashes of the first and brings nothing over |
| MergeStability.MergedKeysOrdered | rust/src/vault/session.rs:1695-1700 | the keys of a merged Custom entry come out in order |
| MergeStability.LocalPairsFirst | rust/src/vault/session.rs:1486-1524 | local pairs come first and the incoming new ones follow, both in their own order, except on a Custom entry, whose keys are sorted |
| MergeStability.LocalAttachmentsFirst | rust/src/vault/session.rs:1526-1561 | local attachments come first and the incoming new ones follow, both in their own order |
| MergeStability.MergeWithSelfExactly | rust/src/vault/session.rs:1571-1818 | merging an entry with itself returns the same entry if and only if its items are distinct, a Custom entry's keys are in order, every change time is of a value that is there and no mark is overtaken |
| MergeStability.UnsortedEntryChanges | rust/src/vault/session.rs:1695-1700 | a concrete Custom entry with two keys out of order that changes |
| MergeStability.RemovedItemLeavesItsTime | rust/src/api/vault.rs:847-864 | after any run of edits that removed an item with a change time, merging the entry with itself changes it |
| MergeReports.FieldMerger.Decide | rust/src/vault/session.rs:1409-1431 | one decision adds exactly the time, clash and brought-over value the rule says |
| MergeReports.FieldMerger.CarryOrFlag | rust/src/vault/session.rs:1451-1484 | an item only one side has adds its time and, as the rule says, a pending deletion or a brought-over value |
| MergeReports.FieldMerger.MergeCustom | rust/src/vault/session.rs:1486-1524 | the loop over both lists with its hash maps computes the merged pairs and adds what each key adds, in order |
| MergeReports.FieldMerger.MergeAttachments | rust/src/vault/session.rs:1526-1561 | likewise for attachments |
| MergeReports.MergePair | rust/src/vault/session.rs:1571-1818 | the whole merge returns the merged entry and the reports of all keys in the order they are examined; nothing across types |
| MergeReports.TimesGathered | rust/src/vault/session.rs:1409-1456 | the times gathered key by key are the merged entry's change times |
| MergeReports.ReportedExactlyOnce | rust/src/vault/session.rs:1409-1484 | a key is listed as a clash, pending deletion or brought over if and only if it is one, and once |
| MergeReports.EveryChangeIsListed | rust/src/vault/session.rs:1409-1484 | the local entry changes under a key if and only if the key is listed as brought over or as pending deletion |
| SyncEndToEnd.EditOnOneDeviceExactly | rust/src/vault/session.rs:1336-1368 | after any edits on two devices, a field changed on one only stays there, clashes if and only if it had a change time at the fork and the values differ, and reaches the other device if and only if it does not clash |
| SyncEndToEnd.StampedFieldClashes | rust/src/vault/session.rs:1336-1368 | a concrete note with an old change time on its title, renamed on one device, that clashes and keeps the old title on the other |
| SyncEndToEnd.EditsOnBothDevicesClash | rust/src/vault/session.rs:1336-1368 | a field changed on both clashes if and only if the values differ |
| SyncEndToEnd.UneditedStays | rust/src/vault/session.rs:1336-1368 | a field changed on neither stays as it was and does not clash |
| SyncEndToEnd.DeletionOnOneDeviceIsAsked | rust/src/vault/session.rs:1458-1484 | an item deleted on one device and present on the other is kept, and its deletion is pending if and only if it is newer than the item's last change |
| VaultMerge.MergeEntries | rust/src/vault/session.rs:3504-3576 | the two loops with their hash maps compute the specified vault and count of added entries |
| VaultMerge.MergedById | rust/src/vault/session.rs:3528-3576 | under every id the synced vault has both entries merged or the one vault's entry unchanged; nothing is deleted |
| VaultMerge.SyncKeepsIdsUnique | rust/src/vault/session.rs:3526-3576 | ids stay unique and local entries stay first and in place |
| VaultMerge.VaultsConverge | rust/src/vault/session.rs:3504-3576 | two vaults syncing with each other agree under a key of an entry if and only if the two versions neither clash there nor, having different types and equal stamps, differ there |
| VaultMerge.SyncIsStable | rust/src/vault/session.rs:3504-3576 | syncing again with the same vault changes no value |
| VaultMerge.SecondSyncExactly | rust/src/vault/session.rs:3504-3576 | a second sync leaves every entry exactly as it is if and only if every entry the first one took whole is tidy |
| VaultMerge.SyncSettles | rust/src/vault/session.rs:3504-3576 | from the second sync with the same vault on, nothing changes at all |
| VaultMerge.AddedEntryChangesOnce | rust/src/vault/session.rs:3504-3576 | a concrete entry the first sync added and the second one changes |
| VaultMerge.SyncLosesExactly | rust/src/vault/session.rs:3504-3576 | no entry disappears, and a value disappears if and only if the id has two types and only the version not taken has it |
| VaultMerge.LoginTurnedNoteLosesUrl | rust/src/vault/session.rs:1773-1781 | a concrete login and a later note under one id: the address is gone after the sync |

## Left out

- Cryptography, key derivation, sealing and signatures: a signature is an opaque value tagged with the key material that made it.
- CBOR, JSON and base64: decoding is a parameter; base64 is assumed to round-trip where a diff is patched.
- Folders, folder conflicts, whole-entry tombstones and the resolution calls of a sync: they only collect questions for the user; entries are never removed by them.
- Titles, labels and display texts in merge reports: a report is the key it is about.
- EntryMerge.MergedMarkAt: marks whose key itself starts with a second `del:` are not modelled; no operation writes one.
- Session locking between finding a credential and signing with it: one step here, two lock acquisitions in the program.
- Ctap2.ChoiceHoldsExactly: ids are unique, no other entry has the chosen account's key, and that key is one the signer accepts.
- Ctap2.ChoiceAfterDeletionExactly: ids are unique, every passkey has its own key material, and the chosen key is one the signer accepts.
- Ctap2.OwnKeySignsExactly: every passkey has its own key material, and the chosen key is one the signer accepts.
- Custom labels and attachment ids within one entry are assumed distinct in the laws about diffs, patches and runs, as the hash maps in the code assume.
- DaemonLifecycle.OpenEnds: what a program leaves is stated for a run without interference; under interference only what `AtMostOneDevice` says.
- Retention.RetentionExactly: stamps are ASCII, and the clock fits 64 bits.
- XSession.TypeKeysyms: the two keyboard-mapping replies agree and the table has a row per keycode; modifier polling and releases are requests that may fail but do not touch the keymap.
- Timing: key delays, batch settling and the keepalive period are nondeterministic choices or the reader's lag.
- DaemonLifecycle.AtMostOneDevice: mutexes are not poisoned, all processes use one lock path, and a process crash is not a step.
- The uhid event layout, X11 wire format, JNI and the bridge code.
- Password and passphrase generation, entropy estimates, third-party importers, saving, loading and export: random sampling, parsing and file work that would add only easy members.
