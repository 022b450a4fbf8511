/**
  The app's handlers around the vault: first-run check, gesture setup,
  unlock and reset, the persist effect, and the list updates behind add,
  edit, delete and import. The confirmation dialog the app opens is kept as
  a value; its confirm button runs the action the dialog carries.
*/
module App {
  import opened Wrappers
  import opened Json
  import opened Encryption
  import opened LocalStorage
  import opened SecureStorage
  import opened Entries

  /** Slots the app reads and writes directly. */
  const GESTURE_HASH_KEY := "securepass_gesture_hash"
  const PASSWORDS_KEY := "securepass_passwords"
  const INTERNAL_KEY_KEY := "securepass_internal_key"

  /** The message dialogs the app opens. */
  datatype Dialog =
    | AccessDenied                                       // wrong pattern
    | UnlockFailed                                       // storage refused the password
    | ResetConfirm(critical: bool)                       // reset prompt; critical = the data-loss warning
    | DeleteConfirm(id: string, snapshot: seq<PasswordEntry>) // delete prompt, with the list it was opened on
  {
    function Title(): string {
      match this
      case AccessDenied => "Acceso Denegado"
      case UnlockFailed => "Error"
      case ResetConfirm(critical) =>
        if critical then "\U{26A0}\U{FE0F} ¡ADVERTENCIA DE SEGURIDAD CRÍTICA! \U{26A0}\U{FE0F}" else "Resetear Patrón"
      case DeleteConfirm(_, _) => "Eliminar Contraseña"
    }
  }

  /** How `handleUnlock` ended. */
  datatype UnlockResult = Denied | StorageRefused | Unlocked

  /** The hash check of `handleUnlock`: no stored hash, or the pattern's hash equals it. */
  predicate HashCheckPasses(p: Primitives, items: map<string, string>, pattern: seq<Cell>) {
    !(GESTURE_HASH_KEY in items && items[GESTURE_HASH_KEY] != "")
    || HashGesturePattern(p, pattern) == items[GESTURE_HASH_KEY]
  }

  /** After setup stores a pattern's hash, that pattern passes the hash check. */
  lemma EnrolledPatternPasses(p: Primitives, items: map<string, string>, pattern: seq<Cell>)
    ensures HashCheckPasses(p, items[GESTURE_HASH_KEY := HashGesturePattern(p, pattern)], pattern)
  {
  }

  /** With an ideal hash, the enrolled pattern is the only one that passes: order and length count. */
  lemma OnlyTheEnrolledPatternPasses(p: Primitives, items: map<string, string>, enrolled: seq<Cell>, attempt: seq<Cell>)
    requires Sha256Ideal(p)
    ensures HashCheckPasses(p, items[GESTURE_HASH_KEY := HashGesturePattern(p, enrolled)], attempt) <==> attempt == enrolled
  {
    var stored := HashGesturePattern(p, enrolled);
    assert stored != "";
    HashIdentifiesPattern(p, attempt, enrolled);
  }

  /** Once the hash slot is removed, every pattern passes the hash check. */
  lemma ResetSkipsHashCheck(p: Primitives, items: map<string, string>, attempt: seq<Cell>)
    ensures HashCheckPasses(p, items - {GESTURE_HASH_KEY}, attempt)
  {
  }

  class VaultApp {
    /** The storage service; its store is the app's `localStorage`. */
    const vault: SecureStorageService
    /** `JSON.stringify`/`JSON.parse` of the password list. */
    const entriesJson: Codec<seq<PasswordEntry>>

    var passwords: seq<PasswordEntry>
    var hasStoredGesture: bool
    var isLocked: bool
    var dialog: Option<Dialog>
    var editingEntry: Option<PasswordEntry>

    ghost predicate Valid()
      reads this, vault, vault.storage
    {
      vault.Valid()
    }

    /** No entries, no gesture known yet, locked, no dialog. */
    constructor (vault: SecureStorageService, entriesJson: Codec<seq<PasswordEntry>>)
      requires vault.Valid()
      ensures Valid()
      ensures this.vault == vault && this.entriesJson == entriesJson
      ensures passwords == [] && !hasStoredGesture && isLocked && dialog == None && editingEntry == None
    {
      this.vault := vault;
      this.entriesJson := entriesJson;
      passwords := [];
      hasStoredGesture := false;
      isLocked := true;
      dialog := None;
      editingEntry := None;
    }

    /** The first-run `checkStorage`: a stored gesture hash means locked; none means unlocked setup. */
    method CheckStorage()
      requires Valid()
      modifies this
      ensures Valid()
      ensures hasStoredGesture == Present(vault.storage.GetItem(GESTURE_HASH_KEY))
      ensures isLocked == hasStoredGesture
      ensures passwords == old(passwords) && dialog == old(dialog) && editingEntry == old(editingEntry)
    {
      var storedHash := vault.storage.GetItem(GESTURE_HASH_KEY);
      if Present(storedHash) {
        hasStoredGesture := true;
        isLocked := true;
      } else {
        hasStoredGesture := false;
        isLocked := false;
      }
    }

    /** The guard of the persist effect: unlocked in the app and in the service, with a gesture stored. */
    predicate PersistAllowed()
      reads this, vault
    {
      !isLocked && !vault.isLocked && hasStoredGesture
    }

    /**
      The persist effect, run after the list or the lock state changes:
      when allowed, the list is written to the passwords slot under the
      service's password; otherwise nothing is written.
    */
    method PersistPasswords(saltBytes: seq<byte>, ivBytes: seq<byte>, now: int)
      requires Valid()
      requires |saltBytes| == SALT_SIZE && |ivBytes| == IV_SIZE
      modifies vault, vault.storage
      ensures Valid()
      ensures old(PersistAllowed()) ==>
                vault.storage.items == old(vault.storage.items)[PASSWORDS_KEY :=
                  SealedSlot(vault.crypto, vault.envelopeJson, entriesJson, passwords, vault.masterPassword, saltBytes, ivBytes)]
      ensures !old(PersistAllowed()) ==> vault.storage.items == old(vault.storage.items)
      ensures vault.isLocked == old(vault.isLocked) && vault.masterPassword == old(vault.masterPassword)
      ensures vault.lastActivity == if old(PersistAllowed()) then now else old(vault.lastActivity)
      ensures vault.autoLockTimeout == old(vault.autoLockTimeout)
    {
      if !isLocked && !vault.isLocked && hasStoredGesture {
        var _ := vault.Set(PASSWORDS_KEY, passwords, entriesJson, saltBytes, ivBytes, now);
      }
    }

    /**
      `handleSetGesture`: the service is initialised with the pattern's
      canonical string as password, the pattern's hash is stored, the app
      unlocks and loads whatever the passwords slot yields under the new
      password (the empty list when it does not open).
    */
    method SetGesture(pattern: seq<Cell>, now: int)
      requires Valid()
      modifies this, vault, vault.storage
      ensures Valid()
      ensures !vault.isLocked && vault.masterPassword == Join(pattern)
      ensures vault.autoLockTimeout == DEFAULT_AUTO_LOCK_MINUTES && vault.lastActivity == now
      ensures vault.storage.items == old(vault.storage.items)[GESTURE_HASH_KEY := HashGesturePattern(vault.crypto, pattern)]
      ensures hasStoredGesture && !isLocked
      ensures passwords == OpenSlot(vault.crypto, vault.envelopeJson, entriesJson, old(vault.storage.items), PASSWORDS_KEY, Join(pattern)).GetOr([])
      ensures dialog == old(dialog) && editingEntry == old(editingEntry)
    {
      var patternString := Join(pattern);
      vault.Initialize(patternString, None, now);
      var hash := HashGesturePattern(vault.crypto, pattern);
      SetLeavesOtherSlots(vault.crypto, vault.envelopeJson, entriesJson, vault.storage.items, GESTURE_HASH_KEY, hash, PASSWORDS_KEY, patternString);
      vault.storage.SetItem(GESTURE_HASH_KEY, hash);
      hasStoredGesture := true;
      isLocked := false;
      var loaded := vault.Get(PASSWORDS_KEY, [], entriesJson, now);
      passwords := loaded.value;
    }

    /**
      `handleUnlock`: a stored hash that differs from the pattern's denies
      access without touching the service; otherwise the service is asked
      to unlock with the canonical string, and on success the app unlocks
      and loads the passwords slot.
    */
    method Unlock(pattern: seq<Cell>, now: int) returns (r: UnlockResult)
      requires Valid()
      modifies this, vault
      ensures Valid()
      ensures vault.storage.items == old(vault.storage.items)
      ensures r == Denied <==> !HashCheckPasses(vault.crypto, old(vault.storage.items), pattern)
      ensures r == Unlocked <==>
                && HashCheckPasses(vault.crypto, old(vault.storage.items), pattern)
                && TestSlotAccepts(vault.crypto, vault.envelopeJson, old(vault.storage.items), Join(pattern))
      ensures r == Denied ==>
                && dialog == Some(AccessDenied)
                && vault.isLocked == old(vault.isLocked) && vault.masterPassword == old(vault.masterPassword)
      ensures r == StorageRefused ==>
                && dialog == Some(UnlockFailed)
                && vault.isLocked == old(vault.isLocked) && vault.masterPassword == old(vault.masterPassword)
      ensures r != Unlocked ==> isLocked == old(isLocked) && passwords == old(passwords)
      ensures r == Unlocked ==>
                && !isLocked && !vault.isLocked && vault.masterPassword == Join(pattern) && dialog == old(dialog)
                && passwords == OpenSlot(vault.crypto, vault.envelopeJson, entriesJson, old(vault.storage.items), PASSWORDS_KEY, Join(pattern)).GetOr([])
      ensures hasStoredGesture == old(hasStoredGesture) && editingEntry == old(editingEntry)
      ensures vault.lastActivity == if r == Unlocked then now else old(vault.lastActivity)
      ensures vault.autoLockTimeout == old(vault.autoLockTimeout)
    {
      var patternString := Join(pattern);
      var storedHash := vault.storage.GetItem(GESTURE_HASH_KEY);
      if Present(storedHash) {
        var currentHash := HashGesturePattern(vault.crypto, pattern);
        if currentHash != storedHash.value {
          dialog := Some(AccessDenied);
          return Denied;
        }
      }
      var success := vault.Unlock(patternString, now);
      if success {
        isLocked := false;
        var loaded := vault.Get(PASSWORDS_KEY, [], entriesJson, now);
        passwords := loaded.value;
        return Unlocked;
      } else {
        dialog := Some(UnlockFailed);
        return StorageRefused;
      }
    }

    /**
      `handleResetGesture`: opens the reset prompt; it is the critical
      warning exactly when a passwords slot exists and an internal-key slot
      does not.
    */
    method ResetGesture()
      requires Valid()
      modifies this
      ensures Valid()
      ensures dialog == Some(ResetConfirm(
                Present(vault.storage.GetItem(PASSWORDS_KEY)) && !Present(vault.storage.GetItem(INTERNAL_KEY_KEY))))
      ensures passwords == old(passwords) && hasStoredGesture == old(hasStoredGesture)
      ensures isLocked == old(isLocked) && editingEntry == old(editingEntry)
    {
      var hasLegacyData := Present(vault.storage.GetItem(PASSWORDS_KEY)) && !Present(vault.storage.GetItem(INTERNAL_KEY_KEY));
      dialog := Some(ResetConfirm(hasLegacyData));
    }

    /**
      `performReset`: forgets the gesture and empties the list in the app,
      and removes the gesture-hash slot only; the passwords slot keeps its
      exact text.
    */
    method PerformReset()
      requires Valid()
      modifies this, vault.storage
      ensures Valid()
      ensures !hasStoredGesture && !isLocked && passwords == []
      ensures vault.storage.items == old(vault.storage.items) - {GESTURE_HASH_KEY}
      ensures PASSWORDS_KEY in old(vault.storage.items) ==>
                PASSWORDS_KEY in vault.storage.items && vault.storage.items[PASSWORDS_KEY] == old(vault.storage.items)[PASSWORDS_KEY]
      ensures dialog == old(dialog) && editingEntry == old(editingEntry)
    {
      hasStoredGesture := false;
      isLocked := false;
      passwords := [];
      vault.storage.RemoveItem(GESTURE_HASH_KEY);
    }

    /** `handleLock`: the app shows the lock screen; the service itself stays unlocked. */
    method HandleLock()
      requires Valid()
      modifies this
      ensures Valid()
      ensures isLocked
      ensures passwords == old(passwords) && hasStoredGesture == old(hasStoredGesture)
      ensures dialog == old(dialog) && editingEntry == old(editingEntry)
    {
      isLocked := true;
    }

    /** `handleSavePassword`: edit or prepend, then nothing is being edited. */
    method SavePassword(req: SaveRequest, uuid: string, now: int)
      requires Valid()
      modifies this
      ensures Valid()
      ensures passwords == SaveEntry(old(passwords), req, uuid, now)
      ensures editingEntry == None
      ensures isLocked == old(isLocked) && hasStoredGesture == old(hasStoredGesture) && dialog == old(dialog)
    {
      passwords := SaveEntry(passwords, req, uuid, now);
      editingEntry := None;
    }

    /** `handleDelete`: opens the delete prompt, which captures the list as it is now. */
    method RequestDelete(id: string)
      requires Valid()
      modifies this
      ensures Valid()
      ensures dialog == Some(DeleteConfirm(id, old(passwords)))
      ensures passwords == old(passwords) && isLocked == old(isLocked)
      ensures hasStoredGesture == old(hasStoredGesture) && editingEntry == old(editingEntry)
    {
      dialog := Some(DeleteConfirm(id, passwords));
    }

    /**
      The dialog's confirm button: runs the dialog's action, then closes it.
      The delete action filters the list the prompt captured.
    */
    method ConfirmDialog()
      requires Valid()
      modifies this, vault.storage
      ensures Valid()
      ensures dialog == None
      ensures old(dialog).Some? && old(dialog).value.ResetConfirm? ==>
                && !hasStoredGesture && !isLocked && passwords == []
                && vault.storage.items == old(vault.storage.items) - {GESTURE_HASH_KEY}
      ensures old(dialog).Some? && old(dialog).value.DeleteConfirm? ==>
                && passwords == DeleteEntry(old(dialog).value.snapshot, old(dialog).value.id)
                && vault.storage.items == old(vault.storage.items)
                && isLocked == old(isLocked) && hasStoredGesture == old(hasStoredGesture)
      ensures old(dialog).None? || old(dialog).value.AccessDenied? || old(dialog).value.UnlockFailed? ==>
                && passwords == old(passwords) && vault.storage.items == old(vault.storage.items)
                && isLocked == old(isLocked) && hasStoredGesture == old(hasStoredGesture)
      ensures editingEntry == old(editingEntry)
    {
      match dialog {
        case Some(ResetConfirm(_)) =>
          PerformReset();
        case Some(DeleteConfirm(id, snapshot)) =>
          passwords := DeleteEntry(snapshot, id);
        case _ =>
      }
      dialog := None;
    }

    /** The dialog's close or cancel button. */
    method CloseDialog()
      requires Valid()
      modifies this
      ensures Valid()
      ensures dialog == None
      ensures passwords == old(passwords) && isLocked == old(isLocked)
      ensures hasStoredGesture == old(hasStoredGesture) && editingEntry == old(editingEntry)
    {
      dialog := None;
    }

    /** `handleSelectPasswordForEdit`: edit the first entry with the id, if there is one. */
    method SelectPasswordForEdit(id: string)
      requires Valid()
      modifies this
      ensures Valid()
      ensures editingEntry == if FindById(passwords, id).Some? then FindById(passwords, id) else old(editingEntry)
      ensures passwords == old(passwords) && isLocked == old(isLocked)
      ensures hasStoredGesture == old(hasStoredGesture) && dialog == old(dialog)
    {
      var entry := FindById(passwords, id);
      if entry.Some? {
        editingEntry := entry;
      }
    }

    /** The import callback: overwrite or merge, by the preference saved in storage. */
    method ImportPasswords(imported: seq<PasswordEntry>)
      requires Valid()
      modifies this
      ensures Valid()
      ensures passwords == ImportInto(old(passwords), imported, vault.storage.GetItem(IMPORT_MODE_KEY))
      ensures isLocked == old(isLocked) && hasStoredGesture == old(hasStoredGesture)
      ensures dialog == old(dialog) && editingEntry == old(editingEntry)
    {
      var importMode := vault.storage.GetItem(IMPORT_MODE_KEY);
      passwords := ImportInto(passwords, imported, importMode);
    }
  }
}
