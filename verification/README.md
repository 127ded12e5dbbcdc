# Durable state of a OneDrive sync client, modelled in Dafny

The client keeps its durable state in three places: a hand-edited config file with one section per synced
drive, a catalog of accounts and drives, and saved tokens. Commands change them one after the other, any
step can fail, and other processes edit the config file in between. This project models that layer and a
few self-contained algorithms around it, and proves what they promise over every input, every run and
every interleaving.

| files | subject |
|---|---|
| `Text`, `TomlLines`, `ConfigDoc`, `ConfigText`, `ConfigFile`, `RenameSections` | the line-preserving editor of the config file, from bytes up to a `section -> key -> value` map |
| `CanonicalId`, `DriveLookup`, `StateNames` | drive identifiers, printed and parsed, how the loaded config is searched by identifier, and the file names derived from them |
| `StringOrder`, `Sorting`, `CatalogState`, `Catalog`, `CatalogRace` | the catalog as a value and as a mutable object, its validators, and two processes that write it at once |
| `Worlds`, `Reconcile`, `ReconcileConfig` | config, catalog and tokens as one state, the law that every configured drive is in the catalog, and the renaming of an account's email across all three |
| `ConfigEdits`, `DriveAdd`, `SharedAdd` | locked edits as atomic steps, and the two `drive add` protocols with rollback beside other processes |
| `Logins`, `Adds`, `Removals`, `Users`, `Commands` | the outcome of each whole command as a function of its input and of what fails, and runs of commands |
| `Download` | the concurrent folder download as a transition system over goroutines |
| `EditDistance`, `Components`, `SyncDirs`, `Sanitize`, `AuthMerge`, `Fixtures`, `Mutations` | key suggestions, sync-directory validation, path sanitising, auth merging, benchmark planning |

How the layers fit: `ConfigText` shows that each edit on bytes is one update of the two-level map, and
`ConfigFile` that the index-based code computes exactly those bytes. `ConfigEdits` makes such an edit one
atomic step, so that the protocols above can reason on maps while still running on bytes. In the same way
`Catalog` ties the object's methods to functions in `CatalogState`, where the invariants are proved. `Commands`
puts them together: `Outcome` is the world after a command, `RunAll` after a run, and `RunExact` says exactly when
every configured drive is in the catalog after each command of a run.

Configuration text is a string of characters, a missing file is `None`. How the TOML library reads a raw
value (`Values`), how symbolic links resolve, and whether each read, write or directory creation succeeds
are parameters, so every theorem holds for all of them.

## What turned out differently from the documentation

Each of these is a lemma at a failing input and an exact condition.

- A SharePoint identifier with an empty site and a non-empty library ("siteless") does not survive printing and
  parsing (`CanonicalId.PrintParse`). When the first colon of the library is also its first or last character, not
  even the printed text is stable; such a drive survives the purge of its account and the owner check then rejects
  the catalog (`CatalogState.UnstableSurvivesPurge`; exact in `CatalogState.PurgeAfterRegister`).
- The loaded config is searched by parsed identifier, the editor searches by printed name. So a siteless drive is
  never found again: adding it twice writes its header twice, and exactly then the file cannot be loaded
  (`DriveAdd.AddTwice`); its rollback never happens (`DriveAdd.SitelessNeverRollsBack`), and a failed add leaves a
  trace exactly in that case (`DriveAdd.FailedAddLeavesNoTrace`). When the command leaves every configured drive
  cataloged is stated exactly in `Adds.AddExact`.
- `drive remove --purge` of a siteless identifier is taken for the cleanup of an orphan and prunes the
  catalog entry of a configured drive (`Removals.SitelessPruneStrands`; exact in `Removals.RemoveExact`).
- `drive add` can leave a configured drive without a catalog entry: the catalog write fails and another
  process has meanwhile edited the new section (`DriveAdd.FailedRegisterCanStrand`; exact in
  `DriveAdd.ConfiguredIsCataloged`).
- A login whose catalog write fails goes on, and one whose rollback is half done may keep the section without the
  entry (`Logins.LostRecordStrands`, `Logins.HalfRollbackStrands`; exact in `Logins.LoginExact`). The same rollback
  deletes a section that another process has meanwhile edited (exact in `Logins.RollbackKeepsEdit`).
- Reconciling an account's email rewrites the drives of every account. Two accounts of one type collide: one drive
  is lost (`Reconcile.TwoAccountsCollide`). No drive is lost if and only if no two drives get one key
  (`Reconcile.DriveCountKept`); when the primary-drive validator accepts is `Reconcile.PrimariesExact`; when every
  configured drive is still in the catalog is `ReconcileConfig.CoveredExact`.
- Every login starts with that reconciliation. So a login of a user whose email changed leaves the drives of a second
  account configured without an entry, although every write succeeds (`Commands.SecondAccountBreaksLogin`; exact in
  `Commands.LoginWholeExact`).
- The catalog is loaded, changed and saved without a lock: two commands that both succeed lose an entry exactly when
  one loads before the other has saved (`CatalogRace.BothKeptExactly`).
- A sync directory at `/` is not seen as an ancestor of the others (`SyncDirs.RootAccepted`; exact in
  `SyncDirs.AcceptedExact`).
- Rewriting an email inside a state file name goes wrong when the old email is also read behind the first underscore
  (exact in `StateNames.RewriteExact`); for example when it is the drive type (`StateNames.RewriteNeedsAt`).
- Renaming sections depends on the map iteration order if and only if some target is itself renamed
  (`RenameSections.OrderMattersExactly`).

## Model

| member | source | states |
|---|---|---|
| TomlLines.RenderParse | internal/config/toml_lines.go:142-161 | parsing a file into lines and rendering it gives back every byte, for all contents |
| TomlLines.SplitInlineCommentLoop | internal/config/toml_lines.go:110-139 | the quote- and escape-tracking loop finds the first `#` outside quotes, as the recursive scan defines it, and splits there |
| TomlLines.FindSectionByName | internal/config/toml_lines.go:180-188 | finds the first header of that name, and reports absence only when no line has it |
| TomlLines.SectionContentRange | internal/config/toml_lines.go:194-222 | the section ends at the next header; the range stops behind the last line that is neither blank nor comment |
| TomlLines.FindKeyInRange | internal/config/toml_lines.go:226-234 | finds the first line with that key in the range, and reports absence only when there is none |
| TomlLines.PairReadsBack | internal/config/toml_lines.go:165-172 | a rendered key line re-parses to the same key, value and comment, and stays one line |
| TomlLines.HeaderReadsBack | internal/config/toml_lines.go:62-81 | a rendered header re-parses to its name if and only if quoting escapes nothing in it |
| TomlLines.ParsedComment | internal/config/toml_lines.go:86-106 | the comment part of every parsed key line is empty or starts with `#`, so it can be written back |
| TomlLines.HandWrittenPair | internal/config/toml_lines.go:86-106 | `key=value` with any blanks around the parts, bare or quoted and with or without a comment, is read as that key, value and comment |
| TomlLines.HandWrittenHeader | internal/config/toml_lines.go:62-81 | `[name]` bare or quoted, with blanks inside and around, is read as that header |
| TomlLines.PairKeys | internal/config/toml_lines.go:86-106 | the key of a pair is not empty and holds no blank and no equals sign |
| TomlLines.FormatReadsBack | internal/config/write.go:634-640 | booleans are written bare, and every other value so that unquoting gives it back |
| Text.UnquoteQuote | internal/config/write.go:634-640 | every text is read back from its quoted form, by a separately defined unquoting |
| Text.EscapesExactly | internal/config/write.go:634-640 | which characters quoting leaves alone |
| Text.EscapeForms | internal/config/write.go:634-640 | the written form of each escape |
| TomlLines.BareIsValue | internal/config/toml_lines.go:110-139 | a bare value without quotation mark and comment sign is read whole, backslashes included |
| TomlLines.NoArrayHeader | internal/config/toml_lines.go:62-81 | an array of tables is no section header |
| TomlLines.NoPairWithout | internal/config/toml_lines.go:86-106 | a line without an equals sign is no pair |
| ConfigDoc.FlattenBlocks | internal/config/toml_lines.go:142-161 | cutting the lines into preamble and sections loses no line and no order |
| ConfigDoc.SetKeyTwice | internal/config/write.go:204-230 | on blocks, setting a key twice is setting it to the last value |
| ConfigDoc.DeleteTable | internal/config/write.go:702-722 | on blocks, deleting a section removes exactly that entry of the map, although its trailing comments move to the section before |
| ConfigText.RoundTrip | internal/config/toml_lines.go:142-161 | text to blocks to text is the identity |
| ConfigText.ReadBack | internal/config/toml_lines.go:32-58 | blocks of parsed lines to text to blocks is the identity |
| ConfigText.SetKeyMeaning | internal/config/write.go:204-230 | setting a key succeeds exactly when the section exists, and changes exactly that lookup in the re-parsed file |
| ConfigText.SetStores | internal/config/write.go:204-230 | what is stored under the key in the re-parsed file: `true` and `false` literally, every other value as a text that unquotes to it |
| ConfigText.SetKeyKeepsComments | internal/config/write.go:204-230 | after re-parsing, every inline comment is still at its key, also at the key that was set |
| ConfigText.SetTwice | internal/config/write.go:204-230 | two sets of one key equal the last alone, byte for byte |
| ConfigText.SetsCommute | internal/config/write.go:204-230 | sets in different sections commute, byte for byte |
| ConfigText.DeleteKeyMeaning | internal/config/write.go:681-700 | deleting a key removes exactly that lookup from the re-parsed file |
| ConfigText.InsertThenDelete | internal/config/write.go:255-300 | inserting a missing key and deleting it restores the file byte for byte |
| ConfigText.AppendMeaning | internal/config/write.go:94-118 | appending an absent section adds exactly one entry, holding the quoted directory; the file stays unambiguous if and only if the section was absent |
| ConfigText.DeleteMeaning | internal/config/write.go:702-722 | deleting a section succeeds exactly when it exists and removes exactly its entry |
| ConfigText.AppendThenDelete | internal/config/write.go:681-722 | append then delete gives the file with its trailing blank lines replaced by one newline, and the same bytes if and only if the file ended in exactly one newline behind a non-blank line |
| ConfigText.AppendTwiceThenDelete | internal/config/write.go:94-118 | append A, append B, delete A is append B on the tidied file, and append B on the file itself if and only if it ends in one newline once closed |
| ConfigFile.SetKeySnapshot | internal/config/write.go:204-230 | the index-based update or insertion computes the bytes of the block-level set, or fails when the section is missing |
| ConfigFile.DeleteKeySnapshot | internal/config/write.go:681-700 | the index-based removal computes the bytes of the block-level delete and says whether the key was there |
| ConfigFile.DeleteSectionSnapshot | internal/config/write.go:702-722 | cutting the section and the blank lines before it computes the bytes of the block-level delete |
| ConfigFile.SetTouchesOneLine | internal/config/write.go:204-230 | setting a key rewrites its one line in place, comment kept, or inserts one line right behind the header; every other line stays byte for byte |
| ConfigFile.DeleteTouchesOneLine | internal/config/write.go:681-700 | deleting a key removes its one line |
| ConfigFile.DeleteCutsOneRun | internal/config/write.go:702-722 | deleting a section cuts the blank lines above, the header and its content; the comments and blank lines below stay |
| DriveConfig.DecodeTells | internal/config/write.go:724-755 | two sections decode to equal drives if and only if the library reads the same under each of the eleven keys |
| ConfigFile.File.AppendDriveSection | internal/config/write.go:88-118 | the new file content, from the template when the file is missing, and nothing changed when the write fails |
| ConfigFile.File.SetDriveKey | internal/config/write.go:198-230 | succeeds exactly when the section exists and the write does; otherwise the file is unchanged |
| ConfigFile.File.SetStringKeyIfMissing | internal/config/write.go:235-300 | inserts only a missing key and returns the drive as it was before; an existing value is returned and kept; the section must be there by name and the drive by identifier |
| ConfigFile.File.DeleteDriveKey | internal/config/write.go:314-332 | the key is gone, or the file unchanged |
| ConfigFile.File.DeleteDriveSection | internal/config/write.go:392-410 | the section is gone, or the file unchanged |
| ConfigFile.File.DeleteKeyIfDriveEquals | internal/config/write.go:339-386 | compare-and-delete: the key goes if and only if the drive loaded under the identifier is the expected one and the section of the printed name has the key |
| ConfigFile.File.DeleteSectionIfDriveEquals | internal/config/write.go:416-461 | compare-and-delete: the section goes if and only if the drive loaded under the identifier is the expected one and there is a section of the printed name |
| ConfigFile.DriveAtPrinted | internal/config/write.go:655-679 | a drive whose section stands under its printed name is loaded, except exactly a siteless one |
| RenameSections.RenameDriveSections | internal/config/write.go:478-521 | with unique headers the header-index loop renames in some order of the map, and with targets that are no sources its result does not depend on that order |
| RenameSections.OrderIndependent | internal/config/write.go:478-521 | every order gives the same lines, or every order fails, decided by whether a target clashes |
| RenameSections.TakenTargetFails | internal/config/write.go:495-512 | a present source whose target is a header that does not move fails in every order |
| RenameSections.ChainsDependOnOrder | internal/config/write.go:495-512 | for every map with a target that is itself renamed there are a file and two orders with different outcomes |
| RenameSections.OrderMattersExactly | internal/config/write.go:478-521 | all orders agree on all files with unique headers if and only if no target is itself renamed |
| RenameSections.RenameMeaning | internal/config/write.go:478-521 | every lookup is carried from the old name to the new one |
| RenameSections.RenameOnly | internal/config/write.go:478-521 | the renamed file has no section that does not come from an old one |
| RenameSections.RenameSound | internal/config/write.go:478-521 | a rename without clashes keeps the file unambiguous |
| CanonicalId.PrintParse | internal/driveid/canonical.go:206-233 | parsing a printed identifier returns it, except exactly for SharePoint identifiers with empty site and non-empty library |
| CanonicalId.PrintedForms | internal/driveid/canonical.go:206-233 | the printed text of each type |
| CanonicalId.Reparse | internal/driveid/canonical.go:80-132 | the same for every accepted input string |
| CanonicalId.PrintInjective | internal/driveid/canonical.go:206-233 | printing is injective on all other identifiers, colons in library or item included |
| CanonicalId.PrintCanonical | internal/driveid/canonical.go:80-132 | printed text is a fixed point of parse-then-print, except exactly for the unstable identifiers |
| CanonicalId.ParseParsed | internal/driveid/canonical.go:80-132 | what parsing returns: a non-empty email without colon, and colons only in the last field |
| CanonicalId.WithEmailMeaning | internal/driveid/canonical.go:326-341 | replacing the email changes nothing else, and fails exactly for SharePoint identifiers without site or library |
| DriveLookup.PrintedLoads | internal/config/decoder.go:78-131 | a section of the printed name is loaded under the identifier if and only if it is not siteless, when nothing else is spelt like it |
| DriveLookup.OneSpelling | internal/driveid/canonical.go:80-132 | only SharePoint identifiers without site or library have more than one spelling |
| StateNames.RewriteIsStructural | internal/config/email_reconcile.go:456-477 | rewriting the email in the state file's name gives the file name of the identifier with the email replaced |
| StateNames.StateNameForms | internal/config/drive.go:388-397 | the file name of each type |
| StateNames.RewriteExact | internal/config/email_reconcile.go:456-477 | for every identifier and every new email: rewriting is right if and only if the old email is not read behind the first underscore, or does not change, or both emails only repeat the drive type |
| StateNames.PathIsStructural | internal/config/email_reconcile.go:456-477 | on a whole path only the file name is rewritten, if the identifier holds no slash |
| StateNames.RewriteBack | internal/config/drive.go:388-397 | rewriting back restores the name |
| StateNames.RewriteNeedsAt | internal/config/email_reconcile.go:456-477 | for every drive whose email is its type, rewriting is wrong unless the new email only repeats the type |
| CatalogState.RunsValidate | internal/config/validated_state.go:87-143 | after every allowed run from the empty catalog both validators accept |
| CatalogState.RunKeeps | internal/config/catalog_lifecycle.go:17-202 | the strengthened invariant survives every run of operations |
| CatalogState.StepKeeps | internal/config/catalog_lifecycle.go:17-202 | each login, registration, auth change, logout, purge and prune keeps the invariant |
| CatalogState.StepTidy | internal/config/catalog_lifecycle.go:17-202 | keys, identifiers and emails stay in agreement in every operation, also when an owner is not recorded |
| CatalogState.InvValid | internal/config/validated_state.go:87-143 | the invariant implies both validators |
| CatalogState.PruneKeepsPrimaries | internal/config/catalog_lifecycle.go:181-202 | pruning deletes no account's primary drive |
| CatalogState.PurgeEffect | internal/config/catalog_lifecycle.go:154-176 | purging removes the account and exactly the drives it owns |
| CatalogState.UnrecordedOwnerRejected | internal/config/catalog_lifecycle.go:74-103 | registering a drive of an unrecorded account always makes the owner validator reject |
| CatalogState.UnstableSurvivesPurge | internal/config/catalog_lifecycle.go:154-176 | an unstable identifier survives its owner's purge and the owner validator rejects |
| CatalogState.PurgeAfterRegister | internal/config/catalog_lifecycle.go:154-176 | registering a drive of the account that the email finds, then purging that email: the owner validator accepts if and only if the identifier is stable |
| CatalogState.SetAuthEffect | internal/config/validated_state.go:145-175 | the reason of the account at the least key with that email is written, and nothing else changes |
| CatalogState.MarkThenClear | internal/config/validated_state.go:145-175 | clearing after marking leaves an empty reason and the state of clearing alone |
| CatalogState.PurgeStandsFor | internal/config/catalog_lifecycle.go:154-176 | a purge removes the account at the least key with that email and exactly the drives it owns |
| CatalogState.OwnerIs | internal/config/account_owner.go:9-23 | accounts own themselves, libraries belong to the business account of their email, shared folders have no derived owner |
| CatalogState.DefaultNames | internal/config/display_name.go:15-28 | the default name of each type |
| CatalogState.LoginStores | internal/config/catalog_lifecycle.go:17-69 | every stored field of account and primary drive, old reason and other fields kept, and nothing else changed |
| CatalogState.RegisterStores | internal/config/catalog_lifecycle.go:74-103 | every stored field of the record, an old name kept, and nothing else changed |
| CatalogState.RegisterSharedStores | internal/config/catalog_lifecycle.go:107-133 | every stored field of the record, a given name replacing the old one, and nothing else changed |
| CatalogState.PruneStores | internal/config/catalog_lifecycle.go:181-202 | which record goes, and that a primary only loses its retained-state flag |
| Catalog.Catalog.AccountByEmail | internal/config/catalog.go:194-202 | the search over sorted keys returns the account with the least key among those of that email |
| StringOrder.LessExactly | internal/config/catalog.go:194-202 | the key order is decided at the first difference, a proper prefix first |
| Catalog.Catalog.ValidateDriveOwners | internal/config/validated_state.go:87-107 | the early-returning loop accepts if and only if every drive has a parseable, recorded owner |
| Catalog.Catalog.ValidatePrimaryDrives | internal/config/validated_state.go:109-143 | the loop accepts if and only if every set primary parses to a drive owned by its account |
| Catalog.Catalog.RecordLogin | internal/config/catalog_lifecycle.go:17-69 | the object's maps become those of the recorded state, the auth reason and cached fields kept |
| Catalog.Catalog.RegisterDrive | internal/config/catalog_lifecycle.go:74-103 | the drive is registered under its owner, or nothing changes when it has none |
| Catalog.Catalog.RegisterSharedDrive | internal/config/catalog_lifecycle.go:107-133 | the shared drive is registered under the given owner; a given name replaces the old one |
| Catalog.Catalog.SetAuthReason | internal/config/validated_state.go:145-175 | the reason of the account found by email is set, and nothing else changes |
| Catalog.Catalog.PurgeLogout | internal/config/catalog_lifecycle.go:154-176 | the deletion loop over owned drives removes what the set-based definition removes |
| Catalog.Catalog.Prune | internal/config/catalog_lifecycle.go:181-202 | a primary drive loses only its retained-state flag, any other drive is deleted |
| CatalogRace.BothKeptExactly | internal/config/catalog.go:153-162 | two registrations that both succeed: both entries are there if and only if one process saved before the other loaded, otherwise exactly the one that saved last |
| Reconcile.ReconcileCatalogEmail | internal/config/email_reconcile.go:355-397 | for every well-keyed catalog the in-place loop over sorted keys moves every drive to its target key; a drive moved onto a key replaces the one there, and of several the last in key order stays |
| Reconcile.OwnersStayValid | internal/config/email_reconcile.go:355-397 | the owner validator still accepts, for every good catalog, whether the new account is recorded already or not |
| Reconcile.RenamedIs | internal/config/email_reconcile.go:355-397 | the catalog after the loop is determined: it is `RenamedState` |
| Reconcile.PrimariesExact | internal/config/email_reconcile.go:355-397 | for every good catalog: the primary validator accepts if and only if no drive overtakes the renamed account's own and every third account with a primary already has the new email with no drive moved onto it |
| Reconcile.TidyExact | internal/config/email_reconcile.go:355-397 | keys, identifiers and owners still agree, at one key and at all others, if and only if each drive that wins its key is moved exactly when its owner is renamed |
| Reconcile.InvExact | internal/config/email_reconcile.go:355-397 | the strengthened invariant holds afterwards if and only if keys and owners agree and the primary validator accepts |
| Reconcile.DriveCountKept | internal/config/email_reconcile.go:355-397 | no drive is lost if and only if no two drives are rewritten to one key |
| Reconcile.DriveKept | internal/config/email_reconcile.go:355-397 | each drive that is not replaced changes only in identifier, owner and type name |
| Reconcile.RekeyIs | internal/config/email_reconcile.go:355-397 | the new key of a drive is its identifier with the new email, or the old one for SharePoint identifiers without site or library |
| Reconcile.AccountKept | internal/config/email_reconcile.go:355-397 | every field of the renamed account, and that no third account changes |
| Reconcile.FreeTargetsInjective | internal/config/email_reconcile.go:355-397 | absent targets, and drives that are owned by the account or carry the new email, are enough for no two targets to meet |
| Reconcile.SafeRename | internal/config/email_reconcile.go:355-397 | under those hypotheses both validators accept, no drive is lost and every drive keeps its record |
| Reconcile.TwoAccountsCollide | internal/config/email_reconcile.go:355-397 | after two logins of one type, renaming the first loses a drive and the validator rejects |
| ReconcileConfig.CoveredExact | internal/config/email_reconcile.go:254-314 | after the sections were renamed and the catalog rewritten, every configured drive is in the catalog if and only if the drives of other accounts keep their identifiers |
| ReconcileConfig.RenamesStay | internal/config/email_reconcile.go:254-314 | the planned section renames have no chains, so their order is immaterial |
| ReconcileConfig.ReconcileExact | internal/config/email_reconcile.go:66-117 | the whole step with plan errors, path, config and catalog failures: every configured drive stays cataloged if and only if a condition on the catalog, the sections and the failures before it holds |
| ReconcileConfig.ReconcileEffect | internal/config/email_reconcile.go:66-117 | a reconciliation that gets to its end carries every owned section with its entries to the new name, leaves the others, renames the account and moves the token |
| ReconcileConfig.ReconcileFailures | internal/config/email_reconcile.go:502-548 | what each later failure leaves of token, config and catalog |
| ReconcileConfig.PlanStops | internal/config/email_reconcile.go:254-314 | a failing plan changes nothing |
| ReconcileConfig.OwnedIs | internal/config/token_resolution.go:41-85 | which account a section belongs to, type by type |
| ReconcileConfig.TokenMoves | internal/config/email_reconcile.go:550-572 | the token arrives under the new key with its content, and no other changes |
| ReconcileConfig.CoveredHalf | internal/config/email_reconcile.go:103-109 | when the config was renamed and the catalog write fails: cataloged if and only if the new names have entries already |
| ReconcileConfig.ReconcileKeepsInv | internal/config/email_reconcile.go:66-117 | exactly when the step keeps the strengthened invariant of the catalog |
| ReconcileConfig.SecondAccountStrands | internal/config/email_reconcile.go:66-117 | if everything succeeds, a configured drive of a second account loses its entry |
| ConfigEdits.EditRefines | internal/config/write.go:757-793 | every locked edit of the file is the corresponding map update, and keeps the file unambiguous unless it appends a section that is there |
| ConfigEdits.AppendBytes | internal/config/write.go:88-118 | the bytes of an append: all of the file or of the template, a closed last line, an empty line, header and directory |
| ConfigEdits.CommentsAreInert | internal/config/write.go:38-76 | every text of comments and blank lines ending in a newline can be the template |
| ConfigEdits.OthersFollow | internal/config/write.go:757-793 | an edit acts on the other sections as if one section were not there |
| DriveAdd.OwnRefines | internal/cli/drive_add.go:115-251 | each step's config edit touches only this drive's section, and the file stays sound unless the section is appended although one of that name is there |
| DriveAdd.OtherSectionsUntouched | internal/cli/drive_add.go:115-288 | in every interleaving, failing anywhere, all other sections end as if the command had not run, unless a siteless identifier finds its printed name taken |
| DriveAdd.RollbackIsOwn | internal/cli/drive_add.go:192-251 | rollback removes the section or key if and only if the drive loaded under the identifier is still what this attempt wrote, and removes only that |
| DriveAdd.RollbackSparesEdit | internal/cli/drive_add.go:192-251 | if another process set any of the eleven keys of the section to something else than the attempt left there, the rollback leaves the file alone |
| DriveAdd.FailureRollsBack | internal/cli/drive_add.go:142-164 | a failing registration or sync directory leads to the rollback with nothing else changed |
| DriveAdd.EarlyFailureStops | internal/cli/drive_add.go:132-141 | an earlier failure ends the command without a change |
| DriveAdd.DirIsConfigured | internal/config/write.go:147-190 | the directory that is created is the one the section has |
| DriveAdd.SitelessNeverRollsBack | internal/cli/drive_add.go:192-251 | for a siteless identifier the rollback changes nothing, ever |
| DriveAdd.AddTwice | internal/config/write.go:147-190 | adding a new drive twice leaves a loadable file if and only if the identifier is not siteless |
| DriveAdd.RunKeeps | internal/cli/drive_add.go:115-172 | the invariant of the protocol holds between any two steps of any interleaving, unless a siteless identifier finds its printed name taken |
| DriveAdd.ConfiguredIsCataloged | internal/cli/drive_add.go:115-288 | at the end of every interleaving a configured drive has a catalog entry if and only if it had one before or the catalog write did not fail, unless a siteless identifier finds its printed name taken |
| DriveAdd.FailedRegisterCanStrand | internal/cli/drive_add.go:141-147 | from every state where the drive is new, some interleaving leaves it configured without an entry |
| DriveAdd.FailedAddLeavesNoTrace | internal/cli/drive_add.go:149-164 | an add that fails at the catalog or the sync directory and can write its rollback leaves the map of the other processes alone and the old catalog, if and only if it did not add a siteless drive |
| DriveAdd.RegisterEffect | internal/cli/drive_add.go:269-288 | restoring the prior record undoes the registration, whether there was one or not |
| SharedAdd.OtherSectionsUntouched | internal/cli/drive_add.go:316-444 | in every interleaving all other sections end as if the command had not run |
| SharedAdd.ConfiguredIsCataloged | internal/cli/drive_add.go:316-393 | after every prefix of every interleaving a configured drive has a catalog entry, without exception |
| SharedAdd.FailedAddLeavesNoTrace | internal/cli/drive_add.go:412-444 | a shared add rolled back without interference leaves no trace in config or catalog |
| SharedAdd.FailedAppendLeavesNoTrace | internal/cli/drive_add.go:376-379 | if the section could not be written, restoring the catalog undoes the whole command |
| SharedAdd.FailureRollsBack | internal/cli/drive_add.go:316-393 | which failure leads to which rollback, with nothing else changed |
| SharedAdd.RollbackSparesEdit | internal/cli/drive_add.go:412-444 | an edit by another process of any of the eleven keys keeps section and catalog record |
| SharedAdd.FoundByName | internal/cli/drive_add.go:331-333 | shared drives are found by printed name |
| Logins.Login | internal/cli/auth_flow.go:44-90 | from the snapshot on, the steps compute `LoginResult` for every combination of failures, the restored snapshot being the catalog before; and exactly when login succeeds |
| Logins.LoginLookup | internal/config/write.go:147-190 | the drive of an account is found by identifier exactly when its printed name is a section |
| Logins.LoginSucceeds | internal/cli/auth_flow.go:44-90 | after success the drive is configured, the token saved, and the login recorded if it could be |
| Logins.LoginWrites | internal/config/write.go:147-190 | after success a new section is exactly the quoted sync directory, a section without one has gained it, and every other section is as it was |
| Logins.LoginStops | internal/cli/auth_flow.go:44-63 | what a login leaves that fails before the sync directory |
| Logins.LoginRestores | internal/cli/auth_flow.go:166-225 | each of token, catalog and config is restored if and only if its own undo succeeds |
| Logins.LoginClears | internal/cli/auth_flow.go:74 | the account that the email stands for has no auth requirement afterwards |
| Logins.LoginRollsBack | internal/cli/auth_flow.go:158-225 | if the sync directory fails and rollback succeeds, tokens, catalog and decoded drives are as before |
| Logins.LoginExact | internal/cli/auth_flow.go:44-90 | every configured drive is still cataloged if and only if the drive had an entry, or no section is left, or the entry was written and stays; a record at odds with its owner must also be rewritten |
| Logins.LoginMendsNothingElse | internal/cli/auth_flow.go:44-90 | if the law holds after a login it held before, but for the owner of the account's own record |
| Logins.LostRecordStrands | internal/cli/auth_flow.go:92-109 | a lost catalog write with everything else succeeding strands a new drive |
| Logins.HalfRollbackStrands | internal/cli/auth_flow.go:166-225 | a rollback that takes the entry back but not the section strands a new drive |
| Logins.RecordedRestores | internal/cli/auth_flow.go:205-225 | restoring the snapshot undoes the recorded login, for account and drive present or absent before |
| Logins.UndoneMeaning | internal/cli/auth_flow.go:186-203 | the config rollback decodes to the drives before, for section and directory present or absent before |
| Logins.RollbackKeepsEdit | internal/cli/auth_flow.go:186-203 | a key another process set during the login survives the rollback if and only if the section was there before and, for the sync directory, so was a directory |
| Adds.AddNewDrive | internal/cli/drive_add.go:115-172 | the steps, run alone to the end, compute `AddResult` for all answers |
| Adds.AddExact | internal/cli/drive_add.go:115-172 | over all answers, exactly when every configured drive is still cataloged; and that a written section that is not taken back is there |
| Adds.SmoothAdd | internal/cli/drive_add.go:115-172 | when nothing fails, harm is done if and only if the identifier is siteless and its name is taken or unstable |
| Adds.AddEffect | internal/cli/drive_add.go:115-172 | when nothing fails: the exact section and record of a new drive, the gained directory of an old section, or no change |
| Adds.AddSharedDrive | internal/cli/drive_add.go:316-393 | the steps, run alone to the end, compute `SharedResult` for all answers; without an account of the email nothing changes |
| Adds.SharedExact | internal/cli/drive_add.go:316-393 | shared add keeps every configured drive cataloged, whatever fails, and configures the folder if nothing does |
| Adds.SharedEffect | internal/cli/drive_add.go:316-393 | when nothing fails: the exact section, with directory and name, and the record under the account of that email |
| Removals.RemoveDrive | internal/cli/drive_remove.go:11-66 | the steps compute `RemoveResult` for every combination of failures, and exactly when remove succeeds |
| Removals.RemoveExact | internal/cli/drive_remove.go:11-66 | no other section is touched, and every configured drive stays cataloged if and only if it is not the purge of a siteless identifier whose name is the section of a drive that is no primary |
| Removals.RemoveEffect | internal/cli/drive_remove.go:11-66 | exactly when remove succeeds, which section goes, and what a purge does to the record |
| Removals.SparedStays | internal/config/catalog_lifecycle.go:181-202 | pruning keeps a record if and only if it is a primary, by its own flag or its owner's account |
| Removals.SitelessSpared | internal/config/catalog_lifecycle.go:181-202 | in a good catalog the flag alone decides that for a siteless identifier |
| Removals.SitelessPruneStrands | internal/cli/drive_remove.go:33-49 | purging a siteless identifier prunes the entry of a configured drive |
| Removals.Logout | internal/cli/auth_logout.go:83-181 | the deletion loop computes `LogoutResult` for every set of failing deletions and every order, and exactly when logout succeeds |
| Removals.LogoutExact | internal/cli/auth_logout.go:83-181 | exactly the sections that can be deleted go, in any order, and every configured drive stays cataloged, whatever fails |
| Removals.LogoutCatalog | internal/cli/auth_logout.go:83-181 | a completed purge takes the account that the email stands for and exactly its drives; a completed plain logout clears its reason alone; any other changes nothing |
| Removals.LogoutEffect | internal/cli/auth_logout.go:83-181 | exactly the token found goes, and exactly the deletable sections of that email; the others keep their entries |
| Removals.PurgeSpares | internal/config/catalog_lifecycle.go:154-176 | purging an email removes no drive of another email |
| Commands.LoginWholeExact | internal/cli/auth_flow.go:16-90 | login with the reconciliation it starts with: every configured drive is cataloged afterwards if and only if the reconciliation is safe up to the account's own record and the login is safe and mends that record if need be |
| Commands.SecondAccountBreaksLogin | internal/cli/auth_flow.go:33-36 | a login after a change of email, every write succeeding, breaks the law if a second account has a configured drive |
| Commands.LoginWholeKeepsUsers | internal/config/email_reconcile.go:167-205 | a login, failing anywhere, never gives a user two accounts of one type, so the reconciliation finds at most one account to rename |
| Commands.StepExact | internal/config/validated_state.go:70-85 | for every command and every failure: every configured drive is cataloged afterwards if and only if the command is harmless in the world it meets |
| Commands.RunExact | internal/config/validated_state.go:70-85 | for every sequence of whole commands, failing anywhere: after each one every configured drive is in the catalog if and only if each is harmless in the world it meets |
| Commands.RunLaw | internal/config/validated_state.go:70-85 | the same by prefixes: after every number of commands each configured drive is in the catalog, if and only if every command is harmless after those before it |
| Commands.RunStep | internal/config/validated_state.go:70-85 | a run is the outcome of its last command after the run of the others |
| Commands.StepEffect | internal/cli/auth_flow.go:16-90 | what each command does to config, catalog and tokens when nothing fails |
| Commands.PlainIsHarmless | internal/config/validated_state.go:70-85 | which commands are harmless in every consistent world, by their input and a few failures alone |
| Commands.PlainRunConsistent | internal/config/validated_state.go:70-85 | from a fresh installation, every run of such commands has every configured drive in the catalog throughout |
| Commands.RunValidates | internal/config/validated_state.go:87-143 | both catalog validators accept after every harmless run whose adds are for recorded accounts and whose reconciliations keep the primaries |
| Users.RenameKeepsUsers | internal/config/email_reconcile.go:355-397 | after the rename the user has no account of that type under another email, and still at most one |
| Users.RecordKeepsUsers | internal/config/catalog_lifecycle.go:17-69 | recording a login keeps one account per user and type, if the reconciliation left no other |
| Download.Counters.CountRemoteFiles | internal/cli/get.go:225-246 | the recursive count adds the files of all listable folders and one error per unlistable one |
| Download.StepKeeps | internal/cli/get.go:248-339 | every step of every goroutine keeps the invariant and uses up work |
| Download.RunKeeps | internal/cli/get.go:248-339 | so does every schedule, whose length is bounded |
| Download.WaitIsSafe | internal/cli/get.go:170-223 | when the WaitGroup is at zero after the root returned, no other goroutine is left |
| Download.AddIsSafe | internal/cli/get.go:273-300 | nothing is added to the WaitGroup from zero after the root returned |
| Download.Progress | internal/cli/get.go:248-339 | an unfinished download always has a step that can be taken: no deadlock on the semaphore or the WaitGroup |
| Download.Accounting | internal/cli/get.go:159-223 | at most four downloads at once; done is the number of files and the size their sum; at the end total is successes plus file errors plus files under folders that could not be made |
| Download.FolderAccounting | internal/cli/get.go:248-270 | at the end every folder was created, failed, or lies under one that did |
| EditDistance.FillRow | internal/config/unknown.go:190-206 | one row of the table is computed from the row before |
| EditDistance.Levenshtein | internal/config/unknown.go:177-210 | two swapped rows compute the recursive edit distance |
| EditDistance.Identity | internal/config/unknown.go:177-210 | distance zero exactly for equal words |
| EditDistance.Symmetry | internal/config/unknown.go:177-210 | the distance is symmetric |
| EditDistance.Triangle | internal/config/unknown.go:177-210 | the triangle inequality |
| EditDistance.ScriptsAreLong | internal/config/unknown.go:177-210 | no edit script is shorter than the distance |
| EditDistance.ShortestScript | internal/config/unknown.go:177-210 | some edit script has exactly that length |
| EditDistance.ClosestMatch | internal/config/unknown.go:157-174 | the first known key of least distance, and the empty word exactly when all are further than 3 |
| SyncDirs.PrefixTestExact | internal/config/validate_drive.go:207-212 | the separator-suffixed string prefix test is component-wise ancestry, except for the root, which is above nothing but itself |
| SyncDirs.CanonicalSyncDirPath | internal/config/validate_drive.go:139-169 | probing the parents upwards computes the recursive resolution, and a clean path |
| SyncDirs.LongestExisting | internal/config/validate_drive.go:152-169 | the longest existing ancestor is resolved and the missing components are put back |
| SyncDirs.CheckOverlap | internal/config/validate_drive.go:175-202 | the pairwise loop reports only real nestings, and nothing exactly when no two seen paths pass the prefix test |
| SyncDirs.ValidateDrives | internal/config/validate_drive.go:15-43 | for every map iteration order: no error if and only if no two drives share or nest non-root directories, and every reported problem is real |
| SyncDirs.AcceptedExact | internal/config/validate_drive.go:171-202 | the directories are free of clashes if and only if they are accepted and no drive sits at the root above another |
| SyncDirs.RootAccepted | internal/config/validate_drive.go:207-212 | a drive at the root beside any other is accepted although they clash |
| Sanitize.SanitizePathComponent | internal/config/write.go:608-630 | the replacement loop ends, and equals one-pass collapsing; the result is clean and keeps every letter in order |
| Sanitize.HalvedCollapses | internal/config/write.go:625-627 | one round of non-overlapping replacement does not change what the dashes collapse to |
| Sanitize.SanitizedMeaning | internal/config/write.go:608-630 | no unsafe character, no double dash, no dash or space at the ends; a name is left alone if and only if it is clean |
| Sanitize.AlwaysPresentable | internal/config/write.go:608-630 | the same in so many characters: none of the nine, no double dash, no dash or space at the ends, and exactly such names are left alone |
| Sanitize.Idempotent | internal/config/write.go:608-630 | sanitising again changes nothing |
| AuthMerge.MergeAuthRequirements | internal/cli/auth_health.go:235-276 | the result is the merge: sorted, one entry per non-empty email, each field the first non-empty value in order |
| AuthMerge.MergeUnique | internal/cli/auth_health.go:267-282 | there is only one merge, so the map iteration order does not matter |
| AuthMerge.MergeOfMerges | internal/cli/auth_health.go:235-276 | merging merged groups is merging the raw groups |
| AuthMerge.MergeIdempotent | internal/cli/auth_health.go:235-276 | merging the result again gives it back |
| Fixtures.Expand | internal/devtool/bench_live.go:197-269 | a manifest is accepted exactly when every group is valid; the files are the sorted expansion with cleaned paths, and the directories exactly their ancestors, sorted |
| Components.CleanPlain | internal/devtool/bench_live.go:231-236 | path cleaning leaves plain components alone |
| Components.CleanSteps | internal/devtool/bench_live.go:231-236 | what path cleaning does with each kind of component |
| Components.CleanSettled | internal/devtool/bench_live.go:231-236 | a cleaned path has no empty and no dot component, and `..` only at the front of a relative one |
| Fixtures.PathsDistinct | internal/devtool/bench_live.go:231-245 | with distinct plain names all paths are different as texts |
| Fixtures.FilePathIs | internal/devtool/bench_live.go:222-245 | the whole path and size of each file, its numbers in padded decimal |
| Fixtures.LeafShare | internal/devtool/bench_live.go:222-245 | every leaf directory gets exactly its share of the group's files |
| Mutations.SelectMutations | internal/devtool/bench_live.go:312-356 | the loop selects the first `limit` eligible files, and fails exactly when the selector is invalid or there are too few |
| Mutations.SelectionMeaning | internal/devtool/bench_live.go:312-356 | a selection has exactly its limit of different files, none of them excluded |
| Mutations.SelectionExact | internal/devtool/bench_live.go:312-356 | the selected files stand at increasing positions congruent to the remainder, with none passed over; nothing is selected exactly when there are too few |
| Mutations.BuildCreateFiles | internal/devtool/bench_live_bidirectional.go:314-340 | the created files, or a rejection exactly when the group is invalid |
| Mutations.CreatedName | internal/devtool/bench_live_bidirectional.go:314-340 | name and size of each created file |
| Mutations.SidesCreateApart | internal/devtool/bench_live_bidirectional.go:314-340 | the two sides never create the same path, unless an extension holds a slash |
| Mutations.SelectSide | internal/devtool/bench_live_bidirectional.go:278-306 | deletes, then modifications apart from them, then creates, and the grown exclusion set |
| Mutations.PlanMeaning | internal/devtool/bench_live_bidirectional.go:255-276 | the four selections are pairwise disjoint and each has exactly its limit |
| Mutations.PlanSides | internal/devtool/bench_live_bidirectional.go:255-306 | who selects what, the local side among the files the remote side left |
| Mutations.ApplySide | internal/devtool/bench_live_bidirectional.go:384-399 | the three in-place loops are one removal and one overlay of the tree |
| Mutations.SidesCommute | internal/devtool/bench_live_bidirectional.go:342-355 | sides that change different paths can be applied in either order |
| Mutations.PlanCommutes | internal/devtool/bench_live_bidirectional.go:255-276 | for every accepted manifest with fresh create paths the order of remote and local does not matter |
| Mutations.ExpectedTree | internal/devtool/bench_live_bidirectional.go:342-382 | the file list is ascending and holds exactly the expected tree; the directory list is ascending and holds the old directories and the ancestors of the files |
| Mutations.ExpectedCount | internal/devtool/bench_live_bidirectional.go:342-382 | files less deletes plus creates |
| Mutations.ExpectedHolds | internal/devtool/bench_live_bidirectional.go:342-399 | file by file: rewritten ones have their new size, created ones are there, deleted ones are gone, the others are as they were |
| Mutations.SideTotals | internal/devtool/bench_live_bidirectional.go:433-448 | item count and byte sum of one side |
| Mutations.EachCounts | internal/devtool/bench_live_bidirectional.go:433-448 | every changed file counts with the size it had, created ones with the size they get |
| Mutations.BuildPlan | internal/devtool/bench_live_bidirectional.go:255-276 | the plan, the expected tree and all denominators, per side and in sum; with distinct paths and fresh plain creates the expected count follows from the denominators and changed items is the number of different paths changed |
| Mutations.FixtureReady | internal/devtool/bench_live_bidirectional.go:230-253 | an expanded fixture meets what planning relies on |

## Left out

- The sync engine, the Graph client, token sources, the control socket, command-line wiring, logging and rendering of output.
- File system, file locks, JSON and the TOML library: reads and writes are state access that may fail, and decoding is a lookup over parsed lines with an arbitrary reading of raw values. A command that dies between two steps is not modelled beyond the steps' own failures.
- TOML beyond the editor's own line model: a header with a trailing comment and multi-line values are other lines, as in the code. Files with duplicate keys, or with duplicate headers from the start, are assumed away; a header that is written twice is modelled.
- TomlLines.HeaderReadsBack: characters above U+00FF count as printable, because the printable table of Go's `%q` is modelled up to there.
- DriveAdd and SharedAdd: another process that appends a section for the same drive, appends a section that is there, or writes the catalog, during the command.
- DriveAdd.FailedAddLeavesNoTrace: assumes that no section is another spelling of the same identifier (possible only for SharePoint identifiers without site or library).
- Commands.RunExact: starts from files whose drive sections are spelt canonically, and the new section names of a reconciliation need no escaping. Tokens are kept by account key, which account's token a logout finds is a parameter, and the check for a token before an add is not modelled (more runs are covered). Commands run one after the other here.
- DriveAdd.OtherSectionsUntouched: a siteless identifier that finds its printed name taken is left to `DriveAdd.AddTwice` and `Adds.AddExact`, where the command runs alone.
- DriveAdd.RunKeeps: the same exception.
- DriveAdd.ConfiguredIsCataloged: the same exception.
- Reconcile.ReconcileCatalogEmail: one account is renamed. Several old accounts of one user and type never arise from logins (`Commands.LoginWholeKeepsUsers`).
- ReconcileConfig.ReconcileExact: of the files a reconciliation renames only the token is part of the state; the state databases can only make it fail.
- StateNames.PathIsStructural: identifiers that hold a slash, whose state file would lie in a subdirectory, are outside the law.
- Download: shared folders (`downloadSharedRecursive`) are not modelled; the listing cache is part of the tree, and each section under the mutex is one step.
- SyncDirs: tilde expansion and cleaning are an arbitrary function to clean paths, and `..` has no special meaning. The filter checks of the same file are not modelled.
- AuthMerge and Fixtures: the library's sort is a sort by key; with distinct keys its result is unique.
- Fixtures.PathsDistinct: names that are `.` or `..` or hold a slash, and extensions that hold one, are cleaned as in the code but outside the uniqueness and share laws.
- Mutations.BuildPlan: files are identified by the pieces of their cleaned path instead of the joined text.
- Floating-point size parsing, durations, time stamps, and the automation around Git and continuous integration: library code and external commands.
- Integers are unbounded; byte totals do not wrap.
