# SecurePass vault core, modelled in Dafny

SecurePass is an offline password vault. It stores site, user and password
records in the browser's `localStorage`. Access goes through a gesture drawn
on a 3x3 grid. This project models the parts that hold the vault's logic:

- the `EncryptionService` (PBKDF2 key derivation, the AES-CBC envelope
  `{data, iv, salt}`, random keys, the gesture hash);
- the `SecureStorageService` (a locked/unlocked state machine that encrypts
  on `set` and decrypts on `get`; `clear`, `exportData`, `importData`,
  auto-lock);
- the gesture screen (drawing, two-draw setup, unlock attempts, the secret
  seven-tap reset on the centre cell);
- the app's handlers (first-run check, setting the gesture, unlock, reset,
  the persist effect, save, delete, import merge/overwrite, categories,
  search, the site link);
- the import/export dialog, the password generator, the add/edit form, and
  the password-age reminders (notification dialog, banner, bell).

Modules follow the source files:

| module | file | models |
|---|---|---|
| `Encryption` | encryption.dfy | utils/encryption.ts |
| `LocalStorage` | local_storage.dfy | the browser's `localStorage` (key order and items) |
| `SecureStorage` | secure_storage.dfy | utils/secureStorage.ts |
| `Gesture` | gesture.dfy | components/GestureUnlockScreen.tsx |
| `Entries` | entries.dfy | the list logic of App.tsx and the `PasswordItem` link |
| `App` | app.dfy | the handlers and effects of App.tsx |
| `ImportExport` | import_export.dfy | components/ImportExportModal.tsx |
| `Generator` | generator.dfy | components/PasswordGeneratorModal.tsx |
| `PasswordForm` | password_form.dfy | components/PasswordModal.tsx |
| `Reminders` | reminders.dfy | components/NotificationModal.tsx, components/ReminderBanner.tsx, the bell of App.tsx |
| `Lists`, `Json`, `Wrappers` | lists.dfy, json.dfy, wrappers.dfy | filter/map/dedup, JSON codecs, Option and Result |

## How the model treats the environment

- **Cryptography.** PBKDF2, AES-CBC with PKCS7 padding and SHA-256 are
  uninterpreted functions, bundled in a `Primitives` value. The round-trip
  property the app relies on is the predicate `AesRoundTrip`; the gesture
  check relies on `Sha256Ideal` (digests are non-empty and collision-free).
  Lemmas that need them take them as hypotheses, and
  `HypothesesAreSatisfiable` shows the two can hold together. Hex encoding and decoding are written out.
  So the envelope's sizes (32 hex characters of IV, 64 of salt) and the
  recovery of the IV bytes are proved, not assumed.
- **JSON.** `JSON.stringify`/`JSON.parse` of each type are a `Codec`: a pair
  of functions. The predicates `RoundTrips` and `NeverEmpty` are hypotheses
  where a lemma needs them.
- **Randomness, clock, UUIDs, files.** Random bytes, `Date.now()`, the ISO
  date, `crypto.randomUUID()` and the chosen file's text are parameters.
  Where the source calls the clock or the UUID generator once per list
  element, the parameter is a function of the element's index.
- **Timers.** The service's minute timer and the DOM activity listeners
  become the methods `CheckAutoLock(now)` and `RecordActivity(now)`. A
  `setTimeout` callback is run at the end of the handler that schedules
  it. A transient flag that the callback clears (the gesture screen's
  error, the dialog's success text) is reported in the handler's result.
- **Effects.** Each `useEffect` is a method the caller runs after the
  change it depends on: `PasswordForm.PasswordModal.SyncFields` and
  `ApplyGenerated`, and `App.VaultApp.PersistPasswords`. The generator's
  effect is the exception: its controls exist only while the dialog is
  open, so `SetLength` and `SetToggles` run the regeneration themselves
  whenever they change a dependency.
- **Objects.** Each component with state is a `class` whose fields are its
  `useState` variables, and each handler is a method on it. The storage
  service is an object the app is given, not a singleton. Its store is a
  `Store` object with the key order that `localStorage.key(i)` walks.

## How the code behaves, as modelled

These are behaviours of the code as written. The model keeps them.

- **The gesture is the encryption key.** The vault's design aims for a
  stored internal key that outlives a reset, tried against several PBKDF2
  iteration counts, with old records migrated to it on read. None of this
  is in the code. The code encrypts every slot under the canonical string
  of the gesture (the cells joined with commas), with one fixed iteration
  count (100000). It never writes `securepass_test` or
  `securepass_internal_key`. The model follows the code.
- **Reset keeps the slot but not its data.** `PerformReset` removes only the
  gesture hash. The passwords slot keeps its exact text
  (`App.VaultApp.PerformReset`). But a new gesture `q` initialises the
  service with `Join(q)`. The old slot then does not open, so `SetGesture`
  loads the empty list (`OpenSlot(...).GetOr([])`). The next persist writes
  an encryption of that list over the old slot. The reset prompt says the
  passwords are kept; they are, as text, but only the old gesture opens
  them, and the first persist after the new gesture overwrites them.
- **The critical reset warning.** It shows whenever a passwords slot exists.
  The internal-key slot it also checks is never written.
- **Locking.** `handleLock` sets only the app's `isLocked`. The storage
  service stays unlocked. The service's auto-lock event has no listener in
  the app. The persist effect checks both flags.
- **Centre-cell taps.** The reset test reads the tap counter from before the
  tap. A counter left at six fires on the next tap, even after a pause that
  restarts the count (`Gesture.StaleCounterFiresAfterPause`).
- **The import dialog's import mode.** The dialog opens with "merge"
  selected, whatever preference is saved. After a successful import,
  `resetForm` restores the preference as it was when the handler started,
  not the one just saved. The preference is saved once the file decodes,
  before its entries are read, so a `passwords` array holding `null` fails
  the import with the preference already saved.
- **Delete.** The delete prompt captures the list as it was when the prompt
  opened. Its confirmation filters that list.
- **Unlock with a hash but no test slot.** Any pattern whose hash matches
  unlocks. With no stored hash, any pattern reaches `unlock`, and `unlock`
  accepts every password while there is no test slot.

## Model

| member | source | states |
|---|---|---|
| Encryption.Hex | utils/encryption.ts:42-43 | two lower-case hex digits per byte |
| Encryption.HexParse | utils/encryption.ts:54 | one byte per pair of hex digits |
| Encryption.HexParseInvertsHex | utils/encryption.ts:42-43 | parsing the hex text of bytes gives back the bytes |
| Encryption.HexInjective | utils/encryption.ts:42-43 | different byte strings have different hex texts |
| Encryption.Encrypt | utils/encryption.ts:29-45 | the envelope has a 32-digit hex IV and a 64-digit hex salt that parse back to the bytes drawn |
| Encryption.Decrypt | utils/encryption.ts:50-63 | every decryption failure is the single "Decryption failed" error |
| Encryption.DecryptInvertsEncrypt | utils/encryption.ts:18-63 | decrypting with the password used to encrypt gives back the data: both sides derive the same key from the password and the salt's hex text |
| Encryption.FreshBytesGiveDistinctEnvelopes | utils/encryption.ts:30-44 | two encryptions with different salt or IV bytes give different envelopes |
| Encryption.GenerateSecureKey | utils/encryption.ts:68-70 | the key is 64 hex digits that parse back to the 32 random bytes |
| Encryption.Join | utils/encryption.ts:76 | the joined string of n cells has 2n-1 characters |
| Encryption.JoinInjective | utils/encryption.ts:75-77 | distinct patterns have distinct joined strings, so order and length matter |
| Encryption.HypothesesAreSatisfiable | utils/encryption.ts:34-38 | the AES round trip and the ideal-hash hypothesis can hold together |
| Encryption.HashIdentifiesPattern | utils/encryption.ts:75-78 | under an ideal hash, two patterns hash alike exactly when they are the same pattern |
| Encryption.VerifyAcceptsOnlyItsPattern | utils/encryption.ts:83-86 | under an ideal hash, the hash of a pattern verifies that pattern and no other |
| Encryption.ReversalIsADifferentPattern | utils/encryption.ts:75-86 | a pattern of two or more distinct cells and its reversal have different joined strings, and the reversal does not verify |
| SecureStorage.EffectiveTimeout | utils/secureStorage.ts:31 | an absent or zero timeout becomes 30 minutes; any other value is kept; the result is never zero |
| SecureStorage.SetThenGet | utils/secureStorage.ts:75-113 | while unlocked, get after set returns the value that was set |
| SecureStorage.SetLeavesOtherSlots | utils/secureStorage.ts:83 | writing one slot does not change what get finds in another |
| SecureStorage.UnlockWithoutTestSlot | utils/secureStorage.ts:57-58 | without a test slot every password unlocks |
| SecureStorage.TestSlotAcceptsItsPassword | utils/secureStorage.ts:54-70 | a test slot encrypted under a password accepts that password |
| SecureStorage.RestoreWritesOnlyText | utils/secureStorage.ts:208-214 | import writes exactly the string entries of the backup; other slots keep their text |
| SecureStorage.ExportThenImportIsIdentity | utils/secureStorage.ts:184-219 | importing what export produced from the same slots changes nothing |
| SecureStorage.SecureStorageService.constructor | utils/secureStorage.ts:10-17 | starts locked, with no password and the 30-minute default |
| SecureStorage.SecureStorageService.Initialize | utils/secureStorage.ts:29-34 | unlocked under the password, timeout defaulted, activity recorded, no slot written |
| SecureStorage.SecureStorageService.Lock | utils/secureStorage.ts:46-49 | locked and the password forgotten |
| SecureStorage.SecureStorageService.Unlock | utils/secureStorage.ts:54-70 | succeeds exactly when the test slot is absent or decrypts; on failure nothing changes |
| SecureStorage.SecureStorageService.Set | utils/secureStorage.ts:75-88 | locked: throws and changes nothing; else the slot holds the sealed value and nothing else changes |
| SecureStorage.SecureStorageService.Get | utils/secureStorage.ts:93-113 | locked: throws; else the stored value, or the default when the slot is absent or any step fails |
| SecureStorage.SecureStorageService.Remove | utils/secureStorage.ts:118-125 | locked: throws; else exactly that slot is removed |
| SecureStorage.SecureStorageService.Clear | utils/secureStorage.ts:130-145 | locked: throws; else exactly the slots with the vault prefix are removed, the rest keep their text |
| SecureStorage.SecureStorageService.CollectVaultKeys | utils/secureStorage.ts:135-141 | the collected keys are the enumerated keys with the vault prefix, in enumeration order |
| SecureStorage.SecureStorageService.ExportData | utils/secureStorage.ts:184-198 | locked: throws; else the JSON of exactly the vault-prefixed slots and their text |
| SecureStorage.SecureStorageService.ImportData | utils/secureStorage.ts:203-219 | locked or unparsable: throws and changes nothing; else the backup's string entries are written over the slots |
| SecureStorage.SecureStorageService.WriteBackup | utils/secureStorage.ts:210-214 | every string entry of the backup is written over its slot, every other slot is untouched, whatever the visiting order |
| SecureStorage.SecureStorageService.CheckAutoLock | utils/secureStorage.ts:158-169 | locks exactly when unlocked, holding a password, and idle longer than the timeout |
| SecureStorage.SecureStorageService.RecordActivity | utils/secureStorage.ts:150-152 | the activity time is now; nothing else changes |
| Gesture.EndOutcome | components/GestureUnlockScreen.tsx:131-170 | no-op when not drawing, stop on an empty path, an error for one to three cells; a handed-over pattern is the path and has four cells; setup outcomes only without a gesture |
| Gesture.SetOnlyOnExactRedraw | components/GestureUnlockScreen.tsx:131-154 | the gesture is set exactly when the confirming redraw equals the first draw, order included |
| Gesture.HandedPatternsHaveFourCells | components/GestureUnlockScreen.tsx:131-170 | every pattern handed to the app is the drawn path and has at least four cells |
| Gesture.SetupAndUnlockAreSeparate | components/GestureUnlockScreen.tsx:135-166 | a first draw never sets the gesture; unlock attempts happen only when a gesture exists |
| Gesture.TapStep | components/GestureUnlockScreen.tsx:104-129 | fires exactly when the counter from before the tap reaches seven with this tap, and then returns to zero; otherwise a pause over three seconds restarts at one, a quick tap adds one; the counter stays in 0..6 |
| Gesture.Taps | components/GestureUnlockScreen.tsx:104-129 | a series of taps keeps the counter in 0..6 and fires only if it has a tap |
| Gesture.QuickTapsCount | components/GestureUnlockScreen.tsx:104-129 | up to six quick taps after a pause count up from one and do not fire |
| Gesture.QuickTapsFrom | components/GestureUnlockScreen.tsx:112-116 | quick taps below seven add one each |
| Gesture.SeventhQuickTapFires | components/GestureUnlockScreen.tsx:104-129 | seven quick taps fire the reset on the seventh only, and the counter returns to zero |
| Gesture.TapsSplit | components/GestureUnlockScreen.tsx:104-129 | a series of taps is its second part run after its first |
| Gesture.StaleCounterFiresAfterPause | components/GestureUnlockScreen.tsx:112-121 | a counter left at six fires on the next tap, whatever the time since the last one |
| Gesture.GestureUnlockScreen.constructor | components/GestureUnlockScreen.tsx:12-22 | empty path, not drawing, not confirming, counter zero |
| Gesture.GestureUnlockScreen.SetHasGesture | components/GestureUnlockScreen.tsx:11 | a new prop value changes nothing else |
| Gesture.GestureUnlockScreen.Reset | components/GestureUnlockScreen.tsx:96-101 | path cleared, drawing stopped, error cleared; the rest kept |
| Gesture.GestureUnlockScreen.InteractionStart | components/GestureUnlockScreen.tsx:59-66 | drawing starts; a hit restarts the path at that cell, a miss keeps the path |
| Gesture.GestureUnlockScreen.InteractionMove | components/GestureUnlockScreen.tsx:68-82 | while drawing, a hit on a new cell is appended; the path never repeats a cell |
| Gesture.GestureUnlockScreen.InteractionEnd | components/GestureUnlockScreen.tsx:131-170 | the outcome of the state before, with the new state for each outcome |
| Gesture.GestureUnlockScreen.CenterDotClick | components/GestureUnlockScreen.tsx:104-129 | counter and reset firing follow the tap rule of the state before |
| Entries.Merged | App.tsx:230 | the form's fields over the entry; id and creation time kept |
| Entries.EditEntries | App.tsx:230 | entries with the id are merged in place, all others unchanged; length and ids kept |
| Entries.SaveEntry | App.tsx:228-238 | an id edits in place; no id puts the new entry first, ahead of the unchanged list |
| Entries.SaveKeepsIds | App.tsx:228-238 | an edit keeps every id in place; an add prepends the new id |
| Entries.EditOfUnknownIdChangesNothing | App.tsx:230 | editing an id no entry has leaves the list unchanged |
| Entries.FindById | App.tsx:285 | the first entry with the id, present exactly when some entry has it |
| Entries.DeleteEntry | App.tsx:257 | keeps exactly the entries whose id differs, each as many times as it occurs |
| Entries.DeleteKeepsOrder | App.tsx:257 | the survivors keep their order and the id is gone |
| Entries.MergeImport | App.tsx:478-481 | the existing list, then exactly the imported entries whose id is unused, each as many times as it is imported |
| Entries.MergeAppendsNewInOrder | App.tsx:478-481 | the appended entries keep the import order |
| Entries.MergeWithItselfIsIdentity | App.tsx:478-481 | merging a list into itself changes nothing |
| Entries.ImportInto | App.tsx:471-482 | overwrite exactly when the saved preference is "overwrite"; otherwise the existing list, then exactly the imported entries whose id is unused, each as many times as it is imported |
| Entries.CategoryOf | App.tsx:291 | the categories in use, one per entry |
| Entries.Categories | App.tsx:291 | "all", then each non-empty category in use exactly once |
| Lists.Dedup | App.tsx:291 | `Array.from(new Set(...))`: no element twice, and exactly the elements of the input |
| Lists.DedupKeepsFirstOccurrenceOrder | App.tsx:291 | the distinct elements come in the order of their first occurrences, as a JavaScript `Set` iterates |
| Entries.Lower | App.tsx:302 | lower-casing keeps the length and works character by character |
| Entries.LowerIdempotent | App.tsx:302 | lower-casing twice is lower-casing once |
| Entries.FilteredPasswords | App.tsx:299-305 | exactly the entries matching the category and the search, each as many times as it occurs |
| Entries.FilteredIsSubsequence | App.tsx:299-305 | the shown list keeps the vault's order; "all" with no search shows everything |
| Entries.SearchIgnoresCase | App.tsx:302 | a search term and its lower-cased form select the same entries |
| Entries.SiteMatchIsFound | App.tsx:302 | an entry whose site contains the term, in any case, is found |
| Entries.SiteHref | App.tsx:33 | the link always has an http(s) scheme; a site with one is kept, others get "https://" |
| Entries.SiteHrefIdempotent | App.tsx:33 | the link of a link is itself |
| Reminders.OldPasswords | components/NotificationModal.tsx:18-19 | exactly the entries older than ninety days, each as many times as it occurs |
| Reminders.OldPasswordsInOrder | components/ReminderBanner.tsx:16 | the reminder list keeps the vault's order |
| Reminders.ThresholdIsStrict | components/NotificationModal.tsx:12-19 | exactly ninety days is not old; one millisecond more is |
| Reminders.Plural | components/ReminderBanner.tsx:31 | the suffix is "s" exactly when the count is above one |
| Reminders.NotificationModal | components/NotificationModal.tsx:15-45 | hidden when closed, else the old entries, their count and its plural |
| Reminders.SelectOld | components/NotificationModal.tsx:54-57 | selects the entry's id, then closes |
| Reminders.ReminderBanner | components/ReminderBanner.tsx:14-39 | nothing without old entries; else the count, at most the first three, and the overflow count |
| Reminders.BannerAccountsForAll | components/ReminderBanner.tsx:34-39 | listed plus overflow is the total; with three or fewer all are listed |
| Reminders.BellAgreesWithBannerAndDialog | App.tsx:293-297 | the bell lights exactly when the banner shows and the dialog lists something |
| Generator.Charset | components/PasswordGeneratorModal.tsx:20-28 | lower case first, and the size is the sum of the enabled classes |
| Generator.CharsetMembership | components/PasswordGeneratorModal.tsx:25-28 | a character is in the set exactly when its class is lower case or enabled |
| Generator.CharsetNeverEmpty | components/PasswordGeneratorModal.tsx:30-33 | the set has at least 26 characters, so the empty-set branch never runs |
| Generator.Generated | components/PasswordGeneratorModal.tsx:39-43 | character i is the set's character at byte i modulo the set's size |
| Generator.GeneratedUsesOnlyCharset | components/PasswordGeneratorModal.tsx:39-43 | every generated character comes from the set |
| Generator.GeneratedPrefix | components/PasswordGeneratorModal.tsx:39-43 | the first k bytes decide the first k characters |
| Generator.PasswordGeneratorModal.constructor | components/PasswordGeneratorModal.tsx:12-16 | length 16, every class on, nothing generated |
| Generator.PasswordGeneratorModal.SetLength | components/PasswordGeneratorModal.tsx:19-51 | the length becomes the slider value, within 8 to 64; a new length regenerates the password for the current set from fresh bytes, so the shown password again has the chosen length |
| Generator.PasswordGeneratorModal.SetToggles | components/PasswordGeneratorModal.tsx:19-51 | the three toggles take the checkbox values; a changed toggle regenerates the password from the new set, so it uses only the enabled classes |
| Generator.PasswordGeneratorModal.GeneratePassword | components/PasswordGeneratorModal.tsx:19-51 | the password is the generated text for the current set and has the chosen length; run when the dialog opens and by "Regenerar" |
| Generator.PasswordGeneratorModal.DrawPassword | components/PasswordGeneratorModal.tsx:39-43 | character i of the password is the set's character at byte i modulo the set's size |
| Generator.PasswordGeneratorModal.UsePassword | components/PasswordGeneratorModal.tsx:59-62 | hands over the password, then closes |
| PasswordForm.PasswordModal.constructor | components/PasswordModal.tsx:16-19 | closed, adding, all fields empty |
| PasswordForm.PasswordModal.SyncFields | components/PasswordModal.tsx:22-36 | on opening, the fields copy the edited entry or are cleared; while closed they are kept |
| PasswordForm.PasswordModal.ApplyGenerated | components/PasswordModal.tsx:38-42 | a non-empty generated password replaces the password field |
| PasswordForm.PasswordModal.EditFields | components/PasswordModal.tsx:16-19 | typing sets the four fields |
| PasswordForm.PasswordModal.Submit | components/PasswordModal.tsx:44-50 | a request exactly when site, user and password are non-empty; empty category becomes "Uncategorized" |
| PasswordForm.SubmitThenSave | components/PasswordModal.tsx:47 | saving an edit updates that entry with the form's fields and keeps length and ids |
| PasswordForm.SubmitThenAdd | components/PasswordModal.tsx:47 | saving an add prepends exactly the form's contents |
| ImportExport.ExportDocumentFor | components/ImportExportModal.tsx:62-71 | version "1.0", the entries, their count, and each category used exactly once |
| ImportExport.NormalizeEntry | components/ImportExportModal.tsx:127-134 | falsy id, category and date are replaced by a UUID, "Uncategorized" and the clock reading |
| ImportExport.NormalizeEntries | components/ImportExportModal.tsx:127-134 | entry i normalised with UUID i and clock reading i, length and order kept |
| ImportExport.NormalizedAreComplete | components/ImportExportModal.tsx:127-134 | normalised entries have an id, a category and a date, given non-empty UUIDs and non-zero clock readings |
| ImportExport.DecodeImportFile | components/ImportExportModal.tsx:109-120 | "Error al importar: " and the envelope parser's message, the decryption message (a wrong file password), the document parser's message, or the format message when `passwords` is not an array; else the array |
| ImportExport.Objects | components/ImportExportModal.tsx:127 | absent exactly when some element is `null`; else the entries, element by element |
| ImportExport.NormalizeElements | components/ImportExportModal.tsx:127-140 | fails with the prefixed `TypeError` exactly when some element is `null`; else element i normalised with UUID i and its own clock reading i |
| ImportExport.NormalizeKeepsComplete | components/ImportExportModal.tsx:127-134 | normalising the exported form of complete entries gives them back |
| ImportExport.ExportThenImport | components/ImportExportModal.tsx:49-142 | an exported file decodes, under its password, to the exported entries, which normalise back to themselves |
| ImportExport.SavedModeOr | components/ImportExportModal.tsx:28-33 | an absent or empty preference reads as "merge"; any other text is kept |
| ImportExport.ImportExportModal.constructor | components/ImportExportModal.tsx:19-33 | select panel, empty fields, "merge" chosen, the saved preference remembered |
| ImportExport.ImportExportModal.ResetForm | components/ImportExportModal.tsx:35-42 | fields cleared, select panel, the remembered import mode restored |
| ImportExport.ImportExportModal.EditForm | components/ImportExportModal.tsx:19-24 | panel, passwords and import mode take the input values |
| ImportExport.ImportExportModal.HandleExport | components/ImportExportModal.tsx:49-95 | empty or unconfirmed password: its error and no file; else the encrypted export file and a reset form |
| ImportExport.ImportExportModal.HandleImport | components/ImportExportModal.tsx:97-142 | each failure with its message; the mode is saved exactly when the file decodes, even if a `null` element then fails the import; on success the entries are handed over |
| ImportExport.ImportExportModal.SaveModeAndNormalize | components/ImportExportModal.tsx:122-140 | the mode is saved as the preference; a `null` element fails with its message and the form is kept; otherwise the normalised entries are handed over and the form resets to the earlier preference |
| App.EnrolledPatternPasses | App.tsx:125-162 | after setup, the set pattern passes the hash check |
| App.OnlyTheEnrolledPatternPasses | App.tsx:143-162 | with an ideal hash, the set pattern is the only one that passes |
| App.ResetSkipsHashCheck | App.tsx:147-148 | once the hash slot is removed, every pattern passes the hash check |
| App.VaultApp.constructor | App.tsx:67-78 | empty list, no gesture, locked, no dialog |
| App.VaultApp.CheckStorage | App.tsx:94-107 | a stored hash means gesture known and locked; none means unlocked setup |
| App.VaultApp.PersistPasswords | App.tsx:110-119 | when both are unlocked and a gesture exists, the list is sealed into its slot and activity is recorded; otherwise nothing is written and the activity time stays; the timeout never changes |
| App.VaultApp.SetGesture | App.tsx:125-141 | service unlocked under the joined pattern with the 30-minute default timeout and activity now, its hash stored, and the list is what the slot opens to, or empty |
| App.VaultApp.Unlock | App.tsx:143-183 | denied exactly when the hash check fails; unlocked exactly when it passes and the service accepts; activity is recorded only on unlock and the timeout never changes |
| App.VaultApp.ResetGesture | App.tsx:185-221 | opens the reset prompt; critical exactly when a passwords slot exists and no internal-key slot |
| App.VaultApp.PerformReset | App.tsx:190-198 | only the hash slot is removed; the passwords slot keeps its text; the app forgets the gesture and list |
| App.VaultApp.HandleLock | App.tsx:223-226 | the app locks; the list, the gesture and the service are untouched |
| App.VaultApp.SavePassword | App.tsx:228-241 | the list is the saved list and nothing is being edited |
| App.VaultApp.RequestDelete | App.tsx:248-260 | opens the delete prompt with the current list |
| App.VaultApp.ConfirmDialog | App.tsx:256-258 | runs the prompt's action: reset, or delete from the captured list; message dialogs change nothing |
| App.VaultApp.CloseDialog | App.tsx:312 | closes the dialog; nothing else changes |
| App.VaultApp.SelectPasswordForEdit | App.tsx:284-289 | edits the first entry with the id, when there is one |
| App.VaultApp.ImportPasswords | App.tsx:470-482 | the list after import by the preference saved in storage |

## Left out

- CryptoJS internals (PBKDF2, AES-CBC, PKCS7, UTF-8, SHA-256): uninterpreted; the AES round trip and an ideal SHA-256 (non-empty, collision-free digests, `Sha256Ideal`) are hypotheses. The 64-character length of a real digest is not part of the hypothesis: no injective function on all strings has only 64-character results.
- Encryption.HexParse: non-hex characters read as 0; CryptoJS's handling of malformed hex is not modelled.
- Encryption.Decrypt: the envelope's fields are always strings; a JSON envelope with missing fields is a parse failure of the codec.
- The JSON text format: `JSON.stringify`/`JSON.parse` are codecs with stated round-trip hypotheses.
- Timers and the DOM: `setInterval`, `setTimeout`, the activity listeners and the `securepass:autoLock` event (which nothing in the app listens to).
- `SecureStorageService.getInstance`: the singleton; the service is an object passed to the app.
- `isStorageLocked`: a read of the `isLocked` field.
- The `console.error` logging in `get` and in the persist effect.
- `Set`'s `catch` that rethrows: the model's store has no quota, so the quota error `localStorage.setItem` can raise, its rethrow as "Failed to encrypt and store data" and the old slot it leaves in place are not modelled.
- Hit-testing (`getDotIndexFromEvent`, dot positions, line drawing, mouse position): the handlers receive the hit cell or `None`.
- The reset hint banner and its two-second delay: the reset fires at once.
- Rendering, icons, the modal open flags, sidebar, `handleEdit`/`handleOpenAddModal`/`handleOpenGenerator`/`handlePasswordGenerated` and the generated-password hand-off between the generator and the form: UI plumbing with no logic beyond setting flags.
- `PasswordItem` reveal and copy buttons, the generator's copy button: clipboard and display only.
- `MessageModal`'s layout: the dialog is a value; its buttons are `ConfirmDialog` and `CloseDialog`.
- `ImportExportModal`'s file picker, `file.text()`, the `Blob` download and its file name: the file's text is a parameter and the export's text is the result.
- The export's `try/catch`: nothing in the modelled export can throw.
- ImportExport.RawEntry: falsy imported fields are read as "" or 0; a non-string site or a non-number date is not modelled.
- ImportExport.DecodeImportFile: a file that is JSON but not an envelope is reported with the codec's message, not the decryption message.
- The `TypeError` text for a `null` element (`NULL_ELEMENT_ERROR`) is the one V8 gives; other engines word it differently. A `null` document (where reading `passwords` throws) is a failure of the document parser.
- Entries.Lower: ASCII letters only; Unicode case mapping is not modelled.
- Entries.SaveEntry: the `generatedPasswordForModal` reset is UI state and is not modelled.
- The `lines` effect of the gesture screen, the `showResetHint` flag and the ReminderBanner's click handler (the same `onSelectPassword` as the dialog).
- vite.config.ts: build configuration, not part of this model.
