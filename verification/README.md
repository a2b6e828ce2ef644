# Verification of the DC34 badge firmware's core

This project models, in Dafny, the parts of the badge firmware that carry state, loops or arithmetic,
and proves properties of them. `dafny verify dfyconfig.toml` checks everything.

| file | what it models |
|---|---|
| `ItemCache.dfy` | the vault's lazily sorted display list: search, insertion, removal, prefix filter |
| `RecordCodec.dfy`, `Lines.dfy`, `Decimal.dfy`, `Strings.dfy` | the tagged-line text form of password and TOTP records, and the text functions under it |
| `Storage.dfy` | the record store: keys, single records, duplicate-skipping batches |
| `VaultActions.dfy` | the password actions that keep the display list and the store in step |
| `CodeActions.dfy` | the same for one-time codes, whose list is read anew instead |
| `Cbor.dfy` | CBOR values, and how fields are taken out of a map, with the panics of a missing one |
| `VendorSessions.dfy`, `Backup.dfy` | the chunked backup and restore session, and what a backup and a restore do to the store |
| `GrayCode.dfy`, `Genetics.dfy` | Gray-code mutation, meiosis, and the byte and word forms of genes |
| `Mating.dfy` | the gene-mating protocol among any number of badges |
| `PowerManager.dfy`, `VaultPower.dfy` | the power manager's event loop, and the vault as its client |
| `Apdu.dfy` | the APDU decoder and the encoder it inverts |
| `Totp.dfy` | one-time codes: packing, truncation, and the list item's text |
| `Generator.dfy` | strict password generation and its configuration file |

Code that updates objects is modelled as classes whose methods are proved against functions of the old
state; the lemmas are about those functions and about runs of them. Four conventions are used throughout.

* Lower- and upper-casing, SHA-256, HMAC, AEAD, base32 and the byte form of CBOR values are function-valued
  parameters. What is assumed of one is a `requires` or a named predicate (`Cbor.Faithful`, `Unforgeable`,
  `BindsNonce`); `FaithfulWires` follows from the first.
* Clock readings, pin levels and random draws are parameters, so every statement is about all of them.
* The record store is a map per dictionary with whole-value replacement. Panics are outcomes, not
  preconditions.
* Rust's `binary_search_by` may return any of several equal elements. `ItemCache.Located` says just that,
  and the statements about the filter are about every result it allows.

## Where the code does less than one would expect

These are consequences of the code as it is, stated by the lemmas named, with the exact condition where one is given.

* **Filter.** The backward walk never reaches index 0. All matches are sure to be shown exactly when the
  first two sorted names are not both equal to the criteria (`ItemCache.FilterCompleteIff`). A filter
  without matches leaves no range, and the view then shows the whole list.
* **Record key.** The key hashes description and username run together, so "ab" + "c" and "a" + "bc" share
  a record. Adding a password keeps cache and store in agreement exactly when it displaces no record
  listed under another description (`VaultActions.AddKeepsAgreementIff`, `VaultActions.EditKeepsAgreementIff`).
* **Abandoned edit.** From agreement, an edit fails an assertion exactly when it is abandoned, after its cache
  entry was taken out, on a stored record (`VaultActions.EditPanicsIff`).
* **Vendor session.** `VendorSession.index` is never assigned, so the session error cannot occur
  (`VendorSessions.SessionErrorsAreInert`).
* **Restore after a backup.** A backup leaves a session that is kept even when its chunks are used up. A restore
  resets the session exactly unless it is such a one (`VendorSessions.RestoreIgnoresTheCut`); otherwise its bytes
  stay, the next restore is handed both, and is refused (`VendorSessions.SecondRestoreSeesBoth`,
  `Backup.SecondRestoreIsRefused`).
* **Vendor crash.** Taking a wire or a packet out of a CBOR map unwraps each field before looking at its type. A
  payload that reads as a map with a missing field therefore panics the handler under any command but the reset, in any
  session and without consent, the one byte A0 among them (`VendorSessions.EmptyMapCrashes`,
  `VendorSessions.WirePanicsIff`). With consent, a restore panics on a packet of an unknown kind or with an entry that
  does not convert (`Backup.PacketPanicsIff`, `Backup.RestoreCrashHappens`), and a backup on an absent kind
  (`VendorSessions.CrashHappens`) or a code without algorithm, that is, one whose text has no algorithm line
  (`Backup.CodesSnapshotIff`). The parts modelled crash in no other case (`VendorSessions.CrashIff`, `Backup.VaultCrashIff`).
* **Restore of codes.** The HOTP flag and the notes are not restored, so every code comes back time-based, and each
  has its own kind exactly if none was counter-based (`Backup.CodesBackupThenRestore`, `Backup.CounterCodeHappens`).
  A step of 2^63 or more is written as a negative number; with one such code, restoring the backup panics the handler on
  the packet it wrote itself, and nothing is stored (`Backup.CodesRoundTripIff`, `Backup.CodesBackupThenRestore`).
* **Restore and the list.** A restore leaves the list of passwords as it is, so list and store go on agreeing exactly if
  it added no password; the next reload restores agreement (`VaultActions.RestoreAgreesIff`).
* **Renamed code.** Editing a one-time code lists it under the key it had. List and store go on agreeing exactly if the
  key, and the name in lower case, stay the same (`CodeActions.EditAgreesIff`). A renamed code leaves its old and its new
  entry under a key that opens nothing, and is not listed under its own key until the list is read anew (`CodeActions.RenameStrands`).
* **Mating.** A badge that is in the middle of confirming a gene and is moved away from it by anything but
  the gene menu, for instance by a scan without data, keeps the new gene in use without storing it
  (`Mating.StepAgreesIff`, `Mating.StrayHappens`). A successful mating does not use up the nonce, so the same answer
  mates again while the recipient keeps it (`Mating.NonceLife`, `Mating.RescanMatesIff`, `Mating.AnswerMatesAgain`).
* **Power manager.** After a forced suspend, an unforced one may follow within six seconds of a key press
  (`PowerManager.EarlySuspendIff`, `PowerManager.EarlySuspendHappens`). An interrupt that sees the plug
  pulled arms the alarm without recording it, and the alarm then survives on external power
  (`PowerManager.StepRecordsAlarmIff`, `PowerManager.UnrecordedAlarmStays`).
* **Boot message.** The one boot message can leave the power manager on in a mode that wants it off, unless the same
  redraw leaves that mode, until the mode changes (`VaultPower.ActKeeps`, `VaultPower.UnwantedBootHappens`).
* **APDU.** The extended form with an expected length and no data, case 2E in section 5.1 of
  ISO/IEC 7816-4:2005, is refused except for 00 00 00, which is taken for empty data
  (`Apdus.ExtendedLeAloneUnsupported`).
* **Strict generation.** With fewer characters than pools, or with no pool, the retry loop has no draw it
  could stop at (`Generator.ConfigCanFinishIff`).
* **TOTP list item.** A colon in the secret makes the item unusable, and digit counts above 255 become 6
  (`Totp.ItemRoundTripIff`).

## Model

The table's first 85 rows, down to `Generator.ConfigRoundTrip`, are the main theorems. The rows after them are
supporting: single steps and parts that the theorems are built from, and the methods that carry the specification
functions over to code that updates state.

| member | source | states |
|---|---|---|
| `ItemCache.FilteredListView.InsertUnique` | firmware/src/itemcache.rs:179-192 | insertion is map update, returns the value replaced, and drops the filter |
| `ItemCache.FilteredListView.Remove` | firmware/src/itemcache.rs:194-204 | removal is map removal, returns the value removed, and drops the filter |
| `ItemCache.FilterNoneIff` | firmware/src/itemcache.rs:239-240 | there is no range exactly when nothing matches |
| `ItemCache.FilterSound` | firmware/src/itemcache.rs:245-263 | a range is within the list, not empty, and holds matches only |
| `ItemCache.FilterCompleteIff` | firmware/src/itemcache.rs:237-263 | every match is sure to be in the range exactly when the first two sorted names are not both equal to the criteria |
| `ItemCache.FilterShows` | firmware/src/itemcache.rs:237-287 | with the filter's range the view shows exactly the items whose lower-case name begins with the criteria, in list order, and the whole list if there are none; the first match may be left out only when the first two names equal the criteria |
| `RecordCodec.ReadEncoded` | firmware/src/storage.rs:425-495 | reading a printed record sets exactly its fields, in order, with colons inside values kept |
| `RecordCodec.PasswordMeans` | firmware/src/storage.rs:704-758 | any text reads as the error of its first faulty line, or as a record whose texts add up over the lines with their tag and whose numbers are those of the last such line |
| `RecordCodec.TotpMeans` | firmware/src/storage.rs:425-495 | the same for codes, with algorithms and flags |
| `RecordCodec.PasswordRoundTripIff` | firmware/src/storage.rs:760-858 | with either reader, the round trip holds exactly for records whose text fields contain no newline |
| `RecordCodec.PasswordReadersAgree` | firmware/src/storage.rs:704-858 | the two readers of password text fail alike and succeed alike; without a version line they differ in the version alone |
| `RecordCodec.TotpRoundTripIff` | firmware/src/storage.rs:497-616 | with either reader, the TOTP round trip is exact precisely for one-line text and a real algorithm |
| `Storage.BatchStoresFirst` | firmware/src/storage.rs:190-230 | of several records with one new key the first is stored |
| `Storage.DuplicatesExact` | firmware/src/storage.rs:190-230 | the reported positions are, in ascending order, exactly those whose key was stored or seen before |
| `Storage.RepeatedBatchIsNoop` | firmware/src/storage.rs:180-230 | repeating a batch, whatever the later creation times, changes nothing and reports every position |
| `VaultActions.AddKeepsAgreementIff` | firmware/src/actions.rs:563-587 | adding a password keeps cache and store in agreement exactly when it displaces no record listed under another description |
| `VaultActions.EditKeepsAgreementIff` | firmware/src/actions.rs:785-1068 | a completed edit, even to a new key, fails no assertion, and keeps agreement exactly when the new key displaces no record listed under another description |
| `VaultActions.EditReadsBack` | firmware/src/actions.rs:907-1068 | after a completed edit, the hash of the typed description and username holds a record with the typed texts, this access time and one more access; nothing is left under another old name, and other names read as before |
| `VaultActions.EditShows` | firmware/src/action_handler.rs:47-55 | and the list has exactly the new entry in place of the old one |
| `VaultActions.EditPanicsIff` | firmware/src/action_handler.rs:47-55 | from agreement, an edit fails an assertion exactly when it is abandoned on a stored record |
| `VaultActions.ReloadAgreesIff` | firmware/src/actions.rs:1178-1255 | reloading the whole dictionary restores agreement exactly when the cache lists nothing the store has not |
| `VaultActions.CarefulRunKeepsAgreement` | firmware/src/actions.rs:383-1255 | over any run of adds, deletes, completed edits, refreshes and reloads whose identities do not collide, cache and store agree and the assertions of deleting, editing and refreshing never fire |
| `VaultActions.VaultKeepsAgreement` | firmware/src/actions.rs:383-1255 | the same from the empty vault, with nothing assumed of the state |
| `VaultActions.RestoreAgreesIff` | firmware/src/vendor_commands.rs:302-310 | after a restore the list shows nothing that is not stored; it agrees with the store exactly when the restore added no password, and a reload makes it agree in any case |
| `VaultActions.ActionManager.RetrieveDb` | firmware/src/actions.rs:1178-1255 | the reload loop, with lookups, in-place updates and unsorted pushes, does as the specification says and leaves keys unique |
| `CodeActions.EditAgreesIff` | firmware/src/actions.rs:796-861 | editing a code keeps list and store in agreement exactly when the edited record keeps its key and its name in lower case |
| `CodeActions.EditReadsBack` | firmware/src/actions.rs:836-859 | after an edit, the hash of the typed name holds a code with what was typed, or with what was there where that does not parse; nothing is left under another old name; and an entry for it is added under the old one |
| `CodeActions.StepAgreesIff` | firmware/src/action_handler.rs:33-55 | from agreement, an add, an edit, a deletion or a reload of codes keeps it exactly unless an add displaces a code of another name or an edit moves its entry; a deletion and a reload restore it from anywhere |
| `CodeActions.RunAgrees` | firmware/src/action_handler.rs:31-95 | over every run of those actions from a well-keyed store: the store stays well-keyed, and list and store agree at the end if nothing strayed since they last did |
| `Cbor.DestructureFinds` | firmware/libraries/cbor/src/macros.rs:55-114 | one pass over a map in key order finds, for ascending keys, exactly what stands under each |
| `VendorSessions.BackupReturnsSnapshot` | firmware/src/vendor_commands.rs:313-412 | from any session without chunks, consecutive allowed requests return the wires of the snapshot taken at the first, in order, and then the no-more-chunks error |
| `Backup.RequestedPasswords` | firmware/src/vendor_commands.rs:344-412 | the wires that answer allowed requests, the first beginning with 2, carry a CBOR map of kind 1 with, in order, the four texts of every password listed at that request |
| `Backup.RequestedCodes` | firmware/src/vendor_commands.rs:344-412 | those that answer requests beginning with 1 carry a map of kind 2 with step, secret, digits, algorithm and name of every code listed |
| `VendorSessions.RestoreIgnoresTheCut` | firmware/src/fido2.rs:63-107 | from any session the handler can have: however its bytes are cut into wires, a restore does what the bytes collected so far and its own do together, and unless that panics it resets the session exactly if the session is not kept for a backup |
| `VendorSessions.SecondRestoreSeesBoth` | firmware/src/vendor_commands.rs:44-59 | after any backup the first restore stands alone and does not reset the session, and the second is handed the bytes of both |
| `VendorSessions.CrashIff` | firmware/src/vendor_commands.rs:90-360 | the handler crashes exactly on a payload that panics as a wire, under any command but the reset and without consent, and, with consent, on a restore whose collected bytes panic, or a backup that must take a snapshot and finds a code without algorithm or no kind requested |
| `VendorSessions.EmptyMapCrashes` | firmware/src/vendor_commands.rs:137 | the one-byte payload A0 is such a payload: in any session, under any command but the reset, with or without consent |
| `Backup.PacketPanicsIff` | firmware/libraries/backup/src/lib.rs:299-333 | a value panics as a packet exactly when it is a map without a kind, or with a number for a kind and no entries, a kind other than 1 and 2, or a list with an entry that is no map with every field present and of its type |
| `Backup.CodesRoundTripIff` | firmware/libraries/backup/src/lib.rs:103-167 | a packet of codes reads back, without the HOTP flags, exactly when every step is below 2^63; otherwise reading it panics |
| `Backup.VaultCrashIff` | firmware/src/vendor_commands.rs:90-412 | the crashes of the whole handler, told from the payload's value, the collected bytes' value and the stored codes |
| `Backup.BackupThenRestore` | firmware/src/vendor_commands.rs:247-412 | restoring what the host collected by requests beginning with 2 into an empty store, in any cut and in any session that has collected nothing, rebuilds every password listed at the first request under its key with its texts, never accessed, and nothing else |
| `Backup.RestoreKeepsStored` | firmware/src/vendor_commands.rs:247-311 | a restore into any store adds exactly the keys of its packet's entries and leaves every stored record as it is; it fails or panics exactly when reading the packet does |
| `Backup.SecondRestoreIsRefused` | firmware/src/vendor_commands.rs:247-311 | the failing run: after any backup, one restore stores its packet, and the next is refused, whatever it carries |
| `Backup.CodesSnapshotIff` | firmware/src/vendor_commands.rs:345-368 | a snapshot of the codes fails exactly when one does not parse, and else panics exactly when one's text has no algorithm line |
| `Backup.CodesBackupThenRestore` | firmware/src/vendor_commands.rs:247-412 | restoring what the host collected by requests beginning with 1 into an empty store succeeds exactly when every listed step is below 2^63, and then rebuilds every code under its key with its name, secret, digits, step and algorithm, time-based, so that all have their own kind exactly when none was counter-based; otherwise the handler crashes and nothing is stored |
| `Backup.CounterCodeHappens` | firmware/src/vendor_commands.rs:262-276 | a store of one counter-based code, which a backup and a restore turn into a time-based one |
| `GrayCode.GrayInverse` | firmware/dc34-api/src/lib.rs:566-577 | encoding and decoding undo each other at every width |
| `GrayCode.DecodeDistributes` | firmware/dc34-api/src/lib.rs:570-577 | decoding distributes over exclusive or |
| `GrayCode.MutationChangesIff` | firmware/dc34-api/src/lib.rs:562-564 | a mutation changes the gene exactly when its mask is not zero, and always for an odd pattern shifted within the width |
| `Genetics.MutatedMutates` | firmware/dc34-api/src/lib.rs:530-564 | in the Gray code, a roll flips one, two, three or five neighbouring bits by rate, from the rolled one up to the byte's end, in each field by its own roll; a rolled period is then taken modulo seven |
| `Mating.MatingSafety` | firmware/src/main.rs:650-848 | over every run of any number of badges and arbitrary codes: a gene is replaced only by an answer some badge made, earlier, to a key carrying the nonce the recipient holds, and with exactly that badge's gamete and type, each gamete mutated at the rate its badge had when it last showed a key |
| `Mating.RunKnowsRates` | firmware/src/config.rs:380-386 | over every run, a badge's rate is the one set last, or the baseline if a scan ended since, and its locked rate is the one it had when it last showed a key |
| `Mating.RunConforms` | firmware/dc34-api/src/lib.rs:350-367 | over every run from conforming founders, every gene of every badge keeps its period at most 6 |
| `Mating.RunFromFounders` | firmware/dc34-api/src/lib.rs:267-286 | the same from badges whose genes were drawn for their types |
| `Mating.StepAgreesIff` | firmware/src/main.rs:628-968 | in-use, stored and shown genes stay in agreement through an event exactly unless it abandons the confirmation of a different gene or reverts outside it |
| `Mating.RunAgrees` | firmware/src/main.rs:761-968 | they agree throughout every run without such an event |
| `Mating.RevertRestoresKeepPersists` | firmware/src/main.rs:958-968 | reverting restores everywhere the gene from before the mating; keeping stores exactly the one shown |
| `Mating.StrayHappens` | firmware/src/main.rs:628-639 | a whole run, encryption intact, in which a scan without data leaves the new gene in use and the old one stored |
| `Mating.ExchangeCompletesIff` | firmware/src/main.rs:650-848 | the exchange from key to mating completes with exactly the donor's gamete, unless the sealed bytes begin with the protocol header |
| `Mating.AnswerMatesAgain` | firmware/src/main.rs:728-804 | in any run, scanning the same answer mates again as long as the recipient has done nothing that touches its nonce |
| `PowerManager.RunSound` | firmware/dc34-console/src/power.rs:265-699 | over every run: the idle time stays above 5 s, the last action never lies in the future, the watchdog is on at every turn, and the screen is on exactly when neither a suspend nor a screen-off request awaits a key |
| `PowerManager.UnforcedSuspendWaits` | firmware/dc34-console/src/power.rs:310-335 | over every run, an unforced suspend comes more than 6 s after the latest key press, unless one was forced in between |
| `PowerManager.EarlySuspendIff` | firmware/dc34-console/src/power.rs:310-313 | an unforced poll suspends within 6 s of a key press exactly under this guard |
| `PowerManager.EarlySuspendHappens` | firmware/dc34-console/src/power.rs:310-335 | a run in which it does, 1.2 s after the key press |
| `PowerManager.RunKnowsSetting` | firmware/dc34-console/src/power.rs:275-284 | over every run, the loop's level of external power is the one read last, and enabling and idle time are those received last |
| `PowerManager.RunSuspendsIff` | firmware/dc34-console/src/power.rs:285-335 | over every run, a poll suspends exactly when that was asked for since the last suspend, or when enabled, on battery, and longer after the last action than the idle time, or than one second while a key is awaited |
| `PowerManager.RunSleepsIff` | firmware/dc34-console/src/power.rs:515-553 | over every run, deep sleep comes exactly at the alarm's own key or at the first key after it was forced |
| `PowerManager.RunRecordsAlarm` | firmware/dc34-console/src/power.rs:302-309 | in runs without those events the flag always tells whether the alarm is armed |
| `PowerManager.RunArmsIff` | firmware/dc34-console/src/power.rs:285-586 | over every run, the alarm is armed exactly when booting, a waking key or motion on battery, or an interrupt on battery has come since the last power-off timer, or poll without need for it while it was on record |
| `VaultPower.RunKeepsWaiting` | firmware/src/config.rs:327-357 | in every run of both processes: when the vault waits with always-on set the power manager is disabled, and else it has the mode's timeout if the mode wants one |
| `VaultPower.ActKeeps` | firmware/src/main.rs:343-362 | whether it is enabled goes on matching the vault's wish exactly unless the redraw that sends the boot message stays in a mode that wants it off |
| `VaultPower.RunMatches` | firmware/src/config.rs:334-355 | it matches throughout every run without that |
| `VaultPower.AlwaysOnNeverSuspends` | firmware/dc34-console/src/power.rs:273-335 | with always-on set, no poll of any run suspends unless forced |
| `VaultPower.RunTimeouts` | firmware/src/config.rs:313-357 | in every run from the start, a waiting vault without always-on has given the power manager its mode's idle time, 36, 69 or 105 s on a badge and 4 or 8 hours on an uber, and in the two tests has it disabled unless the boot message came |
| `Apdus.DecodeIff` | firmware/src/ctap/apdu.rs:119-251 | decoding yields an APDU exactly when the frame is that well-formed APDU's encoding |
| `Apdus.ErrorsIff` | firmware/src/ctap/apdu.rs:119-251 | which frames are refused with which status, told from the frame alone |
| `Totp.UnpackU64` | firmware/src/totp.rs:78-83 | the eight bytes are the number's big-endian form, and the only eight that are |
| `Totp.CodeIsHotp` | firmware/src/totp.rs:129-144 | for 1 to 19 digits the result is that section's code, of exactly that many digits, and the only such text |
| `Totp.ItemRoundTripIff` | firmware/src/totp.rs:175-183 | the item's text gives back secret, number, algorithm and kind exactly when the secret has no colon, and the digits when they fit a byte |
| `Totp.ShownCodeIsHotp` | firmware/src/actions.rs:1930-1941 | from record to display, the code shown is the standard's for the record's key and its counter or its time step (section 4.2 of RFC 6238) |
| `Generator.Check` | firmware/src/generator.rs:141-160 | the mask loop copies the draw and answers whether it hits every pool |
| `Generator.ExitDrawIff` | firmware/src/generator.rs:162-171 | for non-empty disjoint pools the retry loop has a draw it can stop at exactly when there is a pool and the length is at least their number |
| `Generator.PasswordsIff` | firmware/src/generator.rs:106-177 | strict generation may return exactly the non-empty strings of the length that hold letters, digits and flagged symbols as enabled, and one at least of everything enabled |
| `Generator.ConfigCanFinishIff` | firmware/src/generator.rs:106-171 | the same for every configuration |
| `Generator.ConfigRoundTrip` | firmware/src/generator.rs:67-104 | every configuration is read back from its text |
| `ItemCache.CompareKeysTransitive` | firmware/src/itemcache.rs:29-83 | the order on (lowercase name, guid) used by sort and search is transitive, strictly so when either step is strict |
| `ItemCache.SortCorrect` | firmware/src/itemcache.rs:180-183 | the deferred sort orders the list, keeps every item, and neither creates nor hides a duplicate key |
| `ItemCache.BinarySearchBy` | firmware/src/itemcache.rs:185-191 | bisection over a partitioned list returns an equal item, or the point that separates the lesser from the greater ones |
| `ItemCache.SearchFindsKey` | firmware/src/itemcache.rs:194-215 | whichever equal element a search returns, it finds an item exactly when one has the key |
| `ItemCache.InsertAtMissing` | firmware/src/itemcache.rs:185-191 | inserting where the search failed keeps the list sorted and its keys unique, and adds one binding to the map it stands for |
| `ItemCache.FilteredListView.EnsureSorted` | firmware/src/itemcache.rs:180-183 | sorting on demand changes neither the items nor the map, and with unique keys the order is strict |
| `ItemCache.FilteredListView.Push` | firmware/src/itemcache.rs:163-166 | pushing keeps keys unique exactly when the key is new, and then adds one binding |
| `ItemCache.FilteredListView.Get` | firmware/src/itemcache.rs:206-215 | lookup is map lookup and changes nothing but the order of the list |
| `ItemCache.RangeOfMatches` | firmware/src/itemcache.rs:237-266 | the two walks end and find the range that the specification of the filter names |
| `ItemCache.LandingPoint` | firmware/src/itemcache.rs:237-240 | if anything matches, every possible search result lands on a match: an exact one, or the first one |
| `ItemCache.FilteredListView.Filter` | firmware/src/itemcache.rs:217-267 | filtering keeps the items, and then the view shows the matches as those lemmas say, and the whole list for empty criteria |
| `ItemCache.FilteredListView.FilteredList` | firmware/src/itemcache.rs:285-287 | the view shows the items of the range, or without a range the whole list |
| `Strings.CompareIsLexicographic` | firmware/src/itemcache.rs:29-83 | names are ordered by their first difference, and a proper prefix comes first |
| `Decimal.ParseIff` | firmware/src/storage.rs:425-495 | a number parses exactly from digits, with or without one plus sign, that stand for less than the limit |
| `RecordCodec.PasswordText` | firmware/src/storage.rs:760-781 | the text of a password record, line by line |
| `RecordCodec.TotpText` | firmware/src/storage.rs:497-520 | the text of a code, line by line |
| `RecordCodec.ParseText` | firmware/src/storage.rs:704-758 | the reading loop stops at the first bad field and otherwise applies every known tag in order, ignoring unknown tags |
| `RecordCodec.PasswordRoundTrip` | firmware/src/storage.rs:704-781 | a password record whose text is on one line reads back from its text, from either reader's start state |
| `RecordCodec.PasswordReadIsStable` | firmware/src/storage.rs:760-858 | whatever text parses, writing and reading again gives the same record |
| `RecordCodec.AlgorithmRoundTrip` | firmware/src/totp.rs:43-64 | algorithm names read back, with None becoming SHA1 |
| `RecordCodec.TotpRoundTrip` | firmware/src/storage.rs:421-520 | a TOTP record whose text is on one line reads back from its text, with None becoming SHA1 |
| `RecordCodec.TotpReadersAgree` | firmware/src/storage.rs:421-616 | the two readers of TOTP text fail alike and succeed alike, up to a missing version or algorithm |
| `RecordCodec.NoHotpLineMeansTotp` | firmware/src/storage.rs:421-495 | text without a hotp line reads as a time-based record |
| `RecordCodec.NoAlgorithmIff` | firmware/src/storage.rs:421-495 | a code read from text is without algorithm exactly when the text has no algorithm line |
| `Storage.Manager.NewRecords` | firmware/src/storage.rs:180-230 | the batch loop stores and reports what the batch specification says, with and without overwriting |
| `Storage.BatchKeepsStored` | firmware/src/storage.rs:190-230 | a batch adds exactly its keys and leaves stored values as they were |
| `Storage.Manager.Update` | firmware/src/storage.rs:260-272 | an update removes the record under its old key and stores the new one under its own |
| `VaultActions.ReadAfterStore` | firmware/src/storage.rs:158-178 | a stored record reads back as itself and every other record as before |
| `VaultActions.DeleteKeepsAgreement` | firmware/src/actions.rs:706-755 | deleting from agreement never fails its assertion, keeps agreement, and touches no other record |
| `VaultActions.AddReadsBack` | firmware/src/actions.rs:563-587 | an added password reads back under the hash of its description and username and is listed there; nothing else changes |
| `VaultActions.RefreshShows` | firmware/src/actions.rs:761-783 | a refresh shows the record as it is stored and changes nothing else |
| `VaultActions.ReloadWords` | firmware/src/actions.rs:1193-1230 | a reloaded entry's second line is the username if the record is new or was accessed since, and else what it was |
| `VaultActions.AbandonedEditPanics` | firmware/src/actions.rs:969-972 | after an abandoned edit the handler's refresh puts the entry back and fails its assertion, the store unchanged |
| `VaultActions.RefreshAfterEdit` | firmware/src/action_handler.rs:47-55 | the refresh that follows an edit finds the new entry, or no record under the old key |
| `VaultActions.ReloadKeys` | firmware/src/actions.rs:1178-1255 | reloading adds exactly the keys of the rows that parse and keeps the others |
| `VaultActions.ReloadMirrors` | firmware/src/actions.rs:1178-1255 | after reloading, each row that parsed is shown with its own name, access time and count |
| `VaultActions.RunKeepsAgreement` | firmware/src/actions.rs:383-1255 | over any allowed run of adds, deletes, edits, refreshes and reloads, cache and store agree and no assertion fires |
| `VaultActions.CollisionFreeMeansNoAlias` | firmware/src/storage.rs:783-788 | among identities that do not share a hash, storing displaces nothing listed under another description |
| `VaultActions.RunTogetherIdentitiesDisagree` | firmware/src/storage.rs:783-788 | two passwords whose description and username run together alike, in descriptions that differ in lower case, cannot both be added in agreement |
| `VaultActions.ActionManager.MenuAddnew` | firmware/src/actions.rs:563-587 | the imperative add updates store and list as the specification says |
| `VaultActions.ActionManager.MenuDelete` | firmware/src/actions.rs:706-755 | the imperative delete does as the specification says, including when its assertion fails |
| `VaultActions.ActionManager.EditStage2` | firmware/src/action_handler.rs:47-55 | the imperative edit and refresh do as the specification says, in each outcome |
| `CodeActions.AddAgreesIff` | firmware/src/actions.rs:676-699 | adding a code keeps agreement exactly when it displaces no code listed under another name |
| `CodeActions.AddReadsBack` | firmware/src/actions.rs:676-699 | an added code reads back under the hash of its name and is listed there; nothing else changes |
| `CodeActions.DeleteReadsBack` | firmware/src/actions.rs:706-755 | deleting removes the code of that name alone, and is reported when there is none |
| `CodeActions.RenameStrands` | firmware/src/actions.rs:853-859 | an edit that moves a code leaves its old and its new entry under a key that opens no record, and lists the code under its new key only if something was stored there |
| `CodeActions.ReloadAgrees` | firmware/src/actions.rs:1119-1166 | reading the whole dictionary of codes anew restores agreement, whatever the list had become |
| `CodeActions.CodeManager.MenuAddnew` | firmware/src/actions.rs:691-699 | the imperative add updates store and list as the specification says |
| `CodeActions.CodeManager.MenuEdit` | firmware/src/actions.rs:796-861 | the imperative edit does as the specification says, in each outcome |
| `CodeActions.CodeManager.MenuDelete` | firmware/src/action_handler.rs:38-46 | deleting and reading anew do as the specification says |
| `CodeActions.CodeManager.RetrieveDb` | firmware/src/actions.rs:1119-1166 | the loop empties the list and inserts every row that parses |
| `Cbor.PeekValue` | firmware/libraries/cbor/src/macros.rs:90-114 | the loop skips smaller keys, takes an equal one and stops at a greater one, as its specification says |
| `Cbor.ConvertItems` | firmware/libraries/backup/src/lib.rs:154-167 | the loop over a list gives the items' results in order, or panics at the first that does not convert |
| `VendorSessions.WiresCarryTheBytes` | firmware/libraries/backup/src/lib.rs:414-433 | cutting into wires loses nothing, numbers the wires, fills all but the last and marks only the last as final |
| `VendorSessions.VendorSession.HandleVendorData` | firmware/src/vendor_commands.rs:90-162 | handling one vendor payload updates the session, or panics, as its specification says |
| `VendorSessions.VendorSession.HandleVendorCommand` | firmware/src/vendor_commands.rs:164-214 | a complete command is refused, restored, backed up or unknown, or panics, as its specification says |
| `VendorSessions.Fido2Handler.HandleVendorMessage` | firmware/src/fido2.rs:63-107 | each message is answered from the session it leaves behind: kept while a backup has chunks, reset otherwise |
| `VendorSessions.SessionErrorsAreInert` | firmware/src/vendor_commands.rs:44-59 | the index and command checks never fire |
| `VendorSessions.DrainInOrder` | firmware/src/vendor_commands.rs:61-75 | from a session holding chunks, requests return them in order, each once, and then run dry, whatever the store has become |
| `VendorSessions.RefusalKeepsChunks` | firmware/src/vendor_commands.rs:164-180 | a refused request costs an ongoing backup nothing |
| `VendorSessions.BackupRunIsKept` | firmware/src/fido2.rs:84-97 | however many requests a backup takes, its session is kept, even when it has run dry |
| `VendorSessions.CrashHappens` | firmware/src/vendor_commands.rs:344 | one final wire under the backup command, sent to a fresh session, is such a crash |
| `VendorSessions.WirePanicsIff` | firmware/libraries/backup/src/lib.rs:470-495 | a value panics as a wire exactly when it is a map with a field missing while every field looked at before has its type |
| `VendorSessions.WireFromIff` | firmware/libraries/backup/src/lib.rs:470-495 | a value converts to a wire exactly when its fields are the wire's |
| `VendorSessions.CollectedIsSnapshot` | firmware/src/vendor_commands.rs:313-412 | what the host has collected is the snapshot of what its first request named, in a complete cut |
| `VendorSessions.EnoughRequestsCollect` | firmware/src/vendor_commands.rs:313-412 | as many requests as the snapshot has wires collect it |
| `VendorSessions.AnswerIs` | firmware/src/vendor_commands.rs:90-214 | the code each message is answered with, and what the session then holds, up to a complete restore or backup |
| `VendorSessions.CommandAnswers` | firmware/src/vendor_commands.rs:164-214 | what a restore answers in each outcome, and a backup that cannot read the store |
| `Backup.HandleRestore` | firmware/src/vendor_commands.rs:247-311 | reading the packet and the restore loop store its records as one duplicate-skipping batch, refuse it, or panic, the store unchanged |
| `Backup.ReadPacket` | firmware/libraries/backup/src/lib.rs:299-333 | the conversion of a packet, loops included, gives its entries, an error or a panic as its specification says |
| `Backup.PasswordFromIff` | firmware/libraries/backup/src/lib.rs:198-222 | a value converts to a password entry exactly when its four fields are the entry's |
| `Backup.CodeFromIff` | firmware/libraries/backup/src/lib.rs:115-145 | a value converts to a code entry exactly when its fields are the entry's, the digits cut to 32 bits and the flag set by a true sixth field alone |
| `Backup.PasswordsRoundTrip` | firmware/libraries/backup/src/lib.rs:186-222 | every packet of passwords reads back from its CBOR value |
| `Backup.RestoreCrashHappens` | firmware/libraries/backup/src/lib.rs:315 | an empty map sent as the packet of an allowed restore panics |
| `Backup.RestoredBatch` | firmware/src/vendor_commands.rs:284-310 | the entries a restore makes of a backup reproduce the stored passwords, in order |
| `Backup.PasswordsSnapshotIff` | firmware/src/vendor_commands.rs:370-389 | a snapshot of the passwords fails exactly when one does not parse, and never panics |
| `Backup.BackupWiresRestore` | firmware/libraries/backup/src/lib.rs:414-433 | the wires a backup sends are such a cut |
| `Backup.CodesWiresRestore` | firmware/libraries/backup/src/lib.rs:414-433 | the wires of a snapshot of the codes carry it |
| `GrayCode.GrayDecode` | firmware/dc34-api/src/lib.rs:570-577 | the decoding loop ends and computes the inverse's specification |
| `GrayCode.MutationIsXor` | firmware/dc34-api/src/lib.rs:562-564 | a mutation is exclusive or with the decoded mask |
| `GrayCode.NeighboursDifferInOneBit` | firmware/dc34-api/src/lib.rs:566-568 | successive numbers have code words that differ in one bit |
| `Genetics.Mutate` | firmware/dc34-api/src/lib.rs:530-560 | the field-by-field update computes the mutated gamete |
| `Genetics.GametesIff` | firmware/dc34-api/src/lib.rs:350-367 | the gametes a gene can produce are exactly those that take each linked group of fields whole from one parent |
| `Genetics.MutationShowsIff` | firmware/dc34-api/src/lib.rs:530-560 | outside the period, a gamete is unchanged exactly when nothing rolled |
| `Genetics.MutateTwice` | firmware/dc34-api/src/lib.rs:530-560 | the same rolls twice give back every field but the period |
| `Genetics.DiploidRoundTrip` | firmware/dc34-api/src/lib.rs:370-386 | bytes read as a gene exactly when they begin with that gene's bytes |
| `Genetics.SerializeWords` | firmware/dc34-api/src/lib.rs:297-307 | the word loop yields words whose little-endian bytes are the padded gamete |
| `Genetics.WordsRoundTripIff` | firmware/dc34-api/src/lib.rs:310-318 | words read as a gamete exactly when its nine bytes come first; three words are needed |
| `Genetics.PaddedRoundTrip` | firmware/src/config.rs:414-427 | what a donor pads, gamete and badge type, is what the recipient takes out |
| `Genetics.PaddedLayout` | firmware/src/config.rs:414-427 | where each field and the type stand in what a donor pads |
| `Genetics.FounderPeriodsIff` | firmware/dc34-api/src/lib.rs:267-286 | the periods a founder of each type may have |
| `Mating.QrPanicsIff` | firmware/src/main.rs:640-914 | handling a code panics in exactly three cases, each told from the badge and the code beforehand |
| `Mating.NonceLife` | firmware/src/config.rs:388-408 | a nonce changes when a key is shown or answered, to one that is neither the header's beginning nor the previous one, and is dropped when an answer is dismissed; nothing else changes it |
| `Mating.AnswerCarries` | firmware/src/main.rs:657-696 | a reply is sent exactly for a whole key, sealed under the key's nonce, carrying a padded gamete and the badge type |
| `Mating.MatingForms` | firmware/src/main.rs:728-804 | an opened answer makes the new pair, saves the old gene for undo, shows the new one, and leaves storage alone |
| `Mating.DonorGameteKeptIff` | firmware/src/main.rs:737-759 | the donor's gamete enters the pair as sent exactly when the types differ or nothing rolled for it |
| `Mating.OwnHalfInherits` | firmware/src/config.rs:429-438 | the recipient's own half is a mutation of a gamete of its gene, at the locked rate, or among one type at the rate for that |
| `Mating.OffspringIs` | firmware/src/main.rs:731-770 | both halves of a new pair, with the exact rate of each |
| `Mating.RateLife` | firmware/src/config.rs:380-386 | showing a key locks the rate and nothing else does; setting and ended scans change the rate itself |
| `Mating.ModeLife` | firmware/src/main.rs:640-968 | the mode after each event |
| `Mating.DrawingIff` | firmware/src/config.rs:388-408 | a handler goes on drawing exactly when it needs a nonce and none drawn will do |
| `Mating.FirstIsFirst` | firmware/src/config.rs:388-408 | the first nonce drawn that will do is taken |
| `Mating.OtherNoncesAreInert` | firmware/src/main.rs:697-848 | a code no badge sealed under the recipient's nonce leaves every copy of its gene as it was |
| `Mating.ConfirmationHolds` | firmware/src/main.rs:802-804 | while a badge stays in confirmation, nothing that happens anywhere changes its genes |
| `Mating.RescanMatesIff` | firmware/src/main.rs:710-728 | an answer that mated once mates again exactly while the badge that scans it holds the same nonce and is receptive |
| `Mating.BadgeVault.GenerateMyNonce` | firmware/src/config.rs:388-408 | the nonce loop takes the first acceptable draw |
| `Mating.BadgeVault.NonceData` | firmware/src/config.rs:511-514 | a key is the header and the new nonce |
| `Mating.BadgeVault.Syngamy` | firmware/src/main.rs:731-770 | inbreeding raises the rate for both gametes; the pair is formed, saved for undo and shown |
| `Mating.BadgeVault.HandleScan` | firmware/src/main.rs:640-914 | the imperative handler does as the protocol's step says, in every branch |
| `Mating.BadgeVault.HandleMenu` | firmware/src/main.rs:958-968 | keeping, reverting, aborting and redrawing do as the protocol's step says |
| `Mating.BadgeVault.HandleProtocolKey` | firmware/src/ux.rs:1707-1760 | keys do as the protocol's step says; a key is shown exactly for an arrow in idle mode |
| `PowerManager.PowerManager.HandlePoll` | firmware/dc34-console/src/power.rs:285-335 | the poll updates flags, alarm, screen and watchdog, and suspends, as its specification says |
| `PowerManager.PowerManager.HandleKeyPress` | firmware/dc34-console/src/power.rs:515-586 | a key press lights the screen or sleeps deep, as its specification says |
| `PowerManager.PowerManager.Handle` | firmware/dc34-console/src/power.rs:265-699 | one turn of the loop is one step of the specification |
| `PowerManager.NoSuspendWhileHeld` | firmware/dc34-console/src/power.rs:296-313 | no unforced suspend while disabled or on external power |
| `PowerManager.RunKnowsWaits` | firmware/dc34-console/src/power.rs:310-335 | over every run, which requests are pending and whether a key is awaited, told from the events |
| `PowerManager.RunKnowsLastAction` | firmware/dc34-console/src/power.rs:285-335 | over every run, the last action is the latest key, suspend, or poll without need for power management |
| `PowerManager.StepRecordsAlarmIff` | firmware/dc34-console/src/power.rs:490-514 | the alarm flag goes on telling whether the alarm is armed, except after two events |
| `PowerManager.PollDisarmsIff` | firmware/dc34-console/src/power.rs:297-309 | a poll leaves the alarm off exactly when it was off, or was recorded while disabled or on external power |
| `PowerManager.UnrecordedAlarmStays` | firmware/dc34-console/src/power.rs:511-513 | an alarm armed without its flag survives any number of polls |
| `PowerManager.UnrecordedAlarmHappens` | firmware/dc34-console/src/power.rs:490-514 | a run that ends on external power with such an alarm |
| `VaultPower.Vault.UpdatePowerState` | firmware/src/config.rs:313-357 | the vault sends the setting its specification says, or none |
| `VaultPower.Vault.HandleMessage` | firmware/src/main.rs:338-362 | one turn of the vault's loop, from wait to wait |
| `VaultPower.UnwantedBootHappens` | firmware/src/main.rs:343-348 | a run that does not match: start in the factory test with always-on off and redraw; a mode change mends it, and would have prevented it |
| `VaultPower.ToggleOffResends` | firmware/src/config.rs:274-288 | switching always-on off sends the current mode's setting although the mode has not changed |
| `VaultPower.ToggleTwice` | firmware/src/main.rs:1047-1053 | switching always-on on and off again restores the whole system |
| `Apdus.DecodeEncode` | firmware/src/ctap/apdu.rs:119-251 | every well-formed APDU decodes from its own encoding, with its case |
| `Apdus.EncodeDecode` | firmware/src/ctap/apdu.rs:119-251 | whatever decodes encodes to the very frame it came from |
| `Apdus.DecodedLengths` | firmware/src/ctap/apdu.rs:119-251 | a decoded APDU carries the data its length announces, and an expected length of at most 65536 |
| `Apdus.EncodingsDistinct` | firmware/src/ctap/apdu.rs:119-251 | no two well-formed APDUs share an encoding |
| `Apdus.ExtendedLeAloneUnsupported` | firmware/src/ctap/apdu.rs:182-196 | extended frames with an expected length alone are refused, except 00 00 00 |
| `Totp.DigestLengthIff` | firmware/src/totp.rs:131-135 | every digest of a length keeps the indices in range exactly when the length is at least 19 |
| `Totp.CounterIff` | firmware/src/totp.rs:85-95 | the counter is the number of whole steps passed, a step of zero counting as one second |
| `Totp.MovingFactorIsUnique` | firmware/src/totp.rs:184-200 | every record has one moving factor at a time |
| `Totp.CodeFaultsIff` | firmware/src/totp.rs:85-144 | the code panics exactly without an algorithm, on a digest that ends before its offset's four bytes, or from 20 digits on |
| `Totp.ItemMeans` | firmware/src/totp.rs:175-183 | what any text of five fields asks for, with the stand-ins for fields that do not parse |
| `Totp.BinaryIsTruncation` | firmware/src/totp.rs:131-135 | the masked and shifted bytes are the dynamic truncation of section 5.3 of RFC 4226 |
| `Generator.ToPools` | firmware/src/generator.rs:106-129 | the pushes make the configuration's pools |
| `Generator.Deserialize` | firmware/src/generator.rs:83-104 | reading the lines one by one, symbol flags included, gives the configuration the round trip is about |
| `Generator.FileMeans` | firmware/src/generator.rs:83-104 | any lines read as a length, or 18, as four switches that only `false` turns off, and as the symbols marked 1 |
| `Generator.PoolsAreDisjoint` | firmware/src/generator.rs:106-129 | any configuration's pools are non-empty, share no character, and are at most four |
| `Generator.FullMaskIff` | firmware/src/generator.rs:143-155 | the target mask is the only number of its width with every bit set |
| `Generator.Generate` | firmware/src/generator.rs:133-177 | strict generation returns the first draw that hits every pool |
| `Generator.FirstStrictIsFirst` | firmware/src/generator.rs:162-171 | the first draw that hits every pool is the password |
| `Generator.StrictPassword` | firmware/src/generator.rs:138-173 | a strict password has the requested length, characters of the pools only, and one of each pool |

## Left out

* User interface, drawing, menus, dialogues, localization, tours and test screens; USB typing; LED rendering.
  A dialogue's answer is a parameter of the action that asked for it.
* Inter-process messages other than those that change modelled state; thread scheduling. Messages between
  the vault and the power manager are delivered at once, as the blocking calls do.
* PDDB bases, syncing, I/O errors and partial writes. `Storage.Manager` reports only existing and missing keys.
* The UTF-8 level of record text: records are strings, and the malformed-input errors of byte decoding do not
  occur. On an error the half-filled record that `from_vec` leaves behind is not described.
* Strings are compared character by character where the code compares UTF-8 bytes; the two orders are the same.
* Autotyping a password (`handle_autotype`) and the FIDO list.
* The cached row text of an entry: when it is regenerated is modelled, its wording is a parameter.
* The bytes of CBOR values, with their limit on nesting, which wires and packets are far from; base45, QR codes and
  the symmetric cipher itself.
* The probability of anything: every draw is possible. That a nonce loop or a password loop ends is stated as
  the condition under which some draw ends it.
* The automatic raising of the gene menu after a mating, the camera, and the animation flag. Mutation rates
  enter the protocol as arbitrary new values; the counter that produces them is not modelled.
* Accelerometer set-up, orientation, LED fading, battery readings, feeding the watchdog. Whether the machine
  wakes from a suspend is not modelled; the poll goes on when it does.
* Integer overflow of `idle_sec * 1000`, which needs an idle time of millions of years in 64 bits, and of
  `1 << pools.len()`, which needs 31 pools; `GeneratorConfig` makes at most four (`Generator.PoolsAreDisjoint`).
* Carriage returns at the end of a line of the generator's configuration file, which line reading strips.
- VaultActions.CarefulRunKeepsAgreement: covers completed edits and identities that do not collide, where the dialogues are relied on for one-line texts; the exact effect of the other actions is in `VaultActions.AbandonedEditPanics`, `VaultActions.AddKeepsAgreementIff` and `VaultActions.EditKeepsAgreementIff`.
- VaultActions.ReloadMirrors: is about rows with distinct names, as the keys of a dictionary are.
- VaultActions.RestoreAgreesIff: is about restored passwords whose texts are on one line, as those of a backup are.
- CodeActions.RunAgrees: relies on the dialogues for one-line texts, and on rows that are the dictionary as it then is.
- Backup.CodesBackupThenRestore: relies on the localized placeholder for notes being one line of text.
- Mating.RescanMatesIff: assumes that bytes open under one nonce at most.
- Mating.MatingSafety: assumes ideal encryption, that is, that scanned bytes open under a nonce only if some badge of the run sealed them under it.
- Mating.QrPanicsIff: assumes that opening shortens its argument by the sixteen bytes of the tag.
- Totp.Binary: adds the four shifted bytes where the code joins them with bitwise or; they do not overlap.
- Totp.GenerateCode: ten to more than 19 digits is a fault, as it is with overflow checks; without them the power would wrap.
- Totp.UnpackU64: shifts what is left by eight bits each time where the code shifts the number by a multiple of eight.
