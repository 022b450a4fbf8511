/**
  `SecureStorageService`: a locked/unlocked state machine in front of
  `localStorage`. While unlocked it encrypts values under the master password
  on `set` and decrypts them on `get`; while locked every data operation
  throws. The service is an explicitly constructed object; the timer and the
  DOM listeners that drive auto-lock and activity become the methods
  `CheckAutoLock(now)` and `RecordActivity(now)`.
*/
module SecureStorage {
  import opened Wrappers
  import opened Lists
  import opened Json
  import opened Encryption
  import opened LocalStorage

  /** Every slot the service owns starts with this prefix. */
  const VAULT_PREFIX := "securepass_"
  /** The slot `unlock` trial-decrypts, if it exists. */
  const TEST_KEY := "securepass_test"
  const DEFAULT_AUTO_LOCK_MINUTES := 30
  const MS_PER_MINUTE := 60 * 1000

  /** `key.startsWith('securepass_')`. */
  predicate IsVaultKey(k: string) {
    VAULT_PREFIX <= k
  }

  /** The errors the service throws. */
  datatype StorageError = StorageLocked | InvalidBackupData {
    function Message(): string {
      match this
      case StorageLocked => "Storage is locked. Please unlock first."
      case InvalidBackupData => "Invalid backup data format"
    }
  }

  /** Completion of an operation that returns nothing: normal, or it threw. */
  datatype Outcome = Done | Threw(error: StorageError)

  /** A value of a parsed backup object: a string, or any other JSON value. */
  datatype BackupValue = Text(s: string) | NotText

  /** The object `exportData` serialises and `importData` parses. */
  type Backup = map<string, BackupValue>

  /** `config.autoLockTimeout || 30`: absent or zero means the 30-minute default. */
  function EffectiveTimeout(configured: Option<int>): (minutes: int)
    ensures minutes != 0
    ensures configured.Some? && configured.value != 0 ==> minutes == configured.value
    ensures configured.None? || configured.value == 0 ==> minutes == DEFAULT_AUTO_LOCK_MINUTES
  {
    if configured.Some? && configured.value != 0 then configured.value else DEFAULT_AUTO_LOCK_MINUTES
  }

  // ----------------------------------------------------- slot specification

  /** The text `set` stores: the JSON of the envelope that encrypts the JSON of the value. */
  function SealedSlot<T>(p: Primitives, envelopeJson: Codec<EncryptedData>, json: Codec<T>, value: T,
                         password: string, saltBytes: seq<byte>, ivBytes: seq<byte>): string
    requires |saltBytes| == SALT_SIZE && |ivBytes| == IV_SIZE
  {
    envelopeJson.stringify(Encrypt(p, json.stringify(value), password, saltBytes, ivBytes))
  }

  /**
    What `get` finds in a slot: `None` when the slot is absent or empty, or
    when parsing the envelope, decrypting it or parsing the plaintext fails.
  */
  function OpenSlot<T>(p: Primitives, envelopeJson: Codec<EncryptedData>, json: Codec<T>,
                       items: map<string, string>, key: string, password: string): Option<T>
  {
    if key !in items || items[key] == "" then None
    else match envelopeJson.parse(items[key])
      case Failure(_) => None
      case Success(envelope) =>
        match Decrypt(p, envelope, password)
        case Failure(_) => None
        case Success(plain) =>
          match json.parse(plain)
          case Failure(_) => None
          case Success(v) => Some(v)
  }

  /** Whether `unlock(password)` succeeds: no (or an empty) test slot, or one that decrypts under `password`. */
  function TestSlotAccepts(p: Primitives, envelopeJson: Codec<EncryptedData>,
                           items: map<string, string>, password: string): bool
  {
    if TEST_KEY !in items || items[TEST_KEY] == "" then true
    else match envelopeJson.parse(items[TEST_KEY])
      case Failure(_) => false
      case Success(envelope) => Decrypt(p, envelope, password).Success?
  }

  /** The object `exportData` builds: exactly the vault slots, with their stored text. */
  function VaultSnapshot(items: map<string, string>): Backup {
    map k | k in items && IsVaultKey(k) :: Text(items[k])
  }

  /** The slots after `importData` writes a parsed backup: its string entries, and nothing else. */
  function Restore(items: map<string, string>, data: Backup): map<string, string> {
    items + map k | k in data && data[k].Text? :: data[k].s
  }

  /** Entry `k` of the backup has been written by the import loop once `remaining` is left. */
  predicate Written(data: Backup, remaining: set<string>, k: string) {
    k in data && k !in remaining && data[k].Text?
  }

  /** The slots left once the keys of `ks` are removed from `items`. */
  function Without(items: map<string, string>, ks: seq<string>): (r: map<string, string>)
    ensures forall k :: k in r <==> k in items && k !in ks
    ensures forall k :: k in r ==> r[k] == items[k]
  {
    items - (set k | k in ks)
  }

  /** Removing one more key from the list is removing it from the slots left so far. */
  lemma WithoutOneMore(items: map<string, string>, ks: seq<string>, j: nat)
    requires j < |ks|
    ensures Without(items, ks[..j + 1]) == Without(items, ks[..j]) - {ks[j]}
  {
    assert ks[..j + 1] == ks[..j] + [ks[j]];
  }

  /** A slot map that agrees with `Restore` key by key is `Restore`. */
  lemma RestorePointwise(items: map<string, string>, data: Backup, result: map<string, string>)
    requires forall k :: k in result <==> k in items || Written(data, {}, k)
    requires forall k :: k in result ==> result[k] == if Written(data, {}, k) then data[k].s else items[k]
    ensures result == Restore(items, data)
  {
  }

  /** Walking the enumerated keys and walking the slot map collect the same vault snapshot. */
  lemma SnapshotByKeys(keys: seq<string>, items: map<string, string>)
    requires forall k :: k in items <==> k in keys
    ensures (map k | k in keys && IsVaultKey(k) :: Text(items[k])) == VaultSnapshot(items)
  {
  }

  /** While unlocked, `get(k, d)` after `set(k, v)` returns `v`, whatever `d` is. */
  lemma SetThenGet<T(!new)>(p: Primitives, envelopeJson: Codec<EncryptedData>, json: Codec<T>,
                      items: map<string, string>, key: string, value: T,
                      password: string, saltBytes: seq<byte>, ivBytes: seq<byte>)
    requires AesRoundTrip(p) && RoundTrips(envelopeJson) && NeverEmpty(envelopeJson) && RoundTrips(json)
    requires |saltBytes| == SALT_SIZE && |ivBytes| == IV_SIZE
    ensures OpenSlot(p, envelopeJson, json, items[key := SealedSlot(p, envelopeJson, json, value, password, saltBytes, ivBytes)], key, password)
            == Some(value)
  {
    var envelope := Encrypt(p, json.stringify(value), password, saltBytes, ivBytes);
    assert envelopeJson.parse(envelopeJson.stringify(envelope)) == Success(envelope);
    DecryptInvertsEncrypt(p, json.stringify(value), password, saltBytes, ivBytes);
    assert json.parse(json.stringify(value)) == Success(value);
  }

  /** Writing one slot does not change what `get` finds in any other slot. */
  lemma SetLeavesOtherSlots<T>(p: Primitives, envelopeJson: Codec<EncryptedData>, json: Codec<T>,
                               items: map<string, string>, key: string, text: string, other: string, password: string)
    requires other != key
    ensures OpenSlot(p, envelopeJson, json, items[key := text], other, password)
            == OpenSlot(p, envelopeJson, json, items, other, password)
  {
  }

  /** Without a test slot, every password unlocks. */
  lemma UnlockWithoutTestSlot(p: Primitives, envelopeJson: Codec<EncryptedData>, items: map<string, string>, password: string)
    requires TEST_KEY !in items
    ensures TestSlotAccepts(p, envelopeJson, items, password)
  {
  }

  /** A test slot written by encrypting under a password accepts that password. */
  lemma TestSlotAcceptsItsPassword(p: Primitives, envelopeJson: Codec<EncryptedData>, items: map<string, string>,
                                   marker: string, password: string, saltBytes: seq<byte>, ivBytes: seq<byte>)
    requires AesRoundTrip(p) && RoundTrips(envelopeJson)
    requires |saltBytes| == SALT_SIZE && |ivBytes| == IV_SIZE
    requires TEST_KEY in items && items[TEST_KEY] == envelopeJson.stringify(Encrypt(p, marker, password, saltBytes, ivBytes))
    ensures TestSlotAccepts(p, envelopeJson, items, password)
  {
    var envelope := Encrypt(p, marker, password, saltBytes, ivBytes);
    assert envelopeJson.parse(items[TEST_KEY]) == Success(envelope);
    DecryptInvertsEncrypt(p, marker, password, saltBytes, ivBytes);
  }

  /** `importData` writes exactly the string entries of the backup; every other slot keeps its text. */
  lemma RestoreWritesOnlyText(items: map<string, string>, data: Backup, k: string)
    ensures k in data && data[k].Text? ==> k in Restore(items, data) && Restore(items, data)[k] == data[k].s
    ensures !(k in data && data[k].Text?) ==>
              (k in Restore(items, data) <==> k in items) && (k in items ==> Restore(items, data)[k] == items[k])
  {
  }

  /** Importing what `exportData` produced from the same slots changes nothing. */
  lemma ExportThenImportIsIdentity(backupJson: Codec<Backup>, items: map<string, string>)
    requires RoundTrips(backupJson)
    ensures backupJson.parse(backupJson.stringify(VaultSnapshot(items))).Success?
    ensures Restore(items, backupJson.parse(backupJson.stringify(VaultSnapshot(items))).value) == items
  {
    var snapshot := VaultSnapshot(items);
    assert backupJson.parse(backupJson.stringify(snapshot)) == Success(snapshot);
    assert Restore(items, snapshot) == items;
  }

  // ----------------------------------------------------------------- service

  class SecureStorageService {
    /** The `localStorage` the service reads and writes. */
    const storage: Store
    const crypto: Primitives
    /** `JSON.stringify`/`JSON.parse` of an envelope. */
    const envelopeJson: Codec<EncryptedData>
    /** `JSON.stringify`/`JSON.parse` of a backup object. */
    const backupJson: Codec<Backup>

    var masterPassword: string
    /** Minutes of inactivity before auto-lock. */
    var autoLockTimeout: int
    /** Milliseconds timestamp of the last recorded activity. */
    var lastActivity: int
    var isLocked: bool

    ghost predicate Valid()
      reads this, storage
    {
      storage.Valid()
    }

    /** A fresh service starts locked, with no password and the 30-minute default. */
    constructor (storage: Store, crypto: Primitives, envelopeJson: Codec<EncryptedData>, backupJson: Codec<Backup>, now: int)
      requires storage.Valid()
      ensures Valid()
      ensures this.storage == storage && this.crypto == crypto
      ensures this.envelopeJson == envelopeJson && this.backupJson == backupJson
      ensures isLocked && masterPassword == "" && autoLockTimeout == DEFAULT_AUTO_LOCK_MINUTES && lastActivity == now
    {
      this.storage := storage;
      this.crypto := crypto;
      this.envelopeJson := envelopeJson;
      this.backupJson := backupJson;
      masterPassword := "";
      autoLockTimeout := DEFAULT_AUTO_LOCK_MINUTES;
      lastActivity := now;
      isLocked := true;
    }

    /** `initialize`: unlocks with the given password; writes no slot. */
    method Initialize(password: string, timeout: Option<int>, now: int)
      requires Valid()
      modifies this
      ensures Valid()
      ensures !isLocked && masterPassword == password
      ensures autoLockTimeout == EffectiveTimeout(timeout) && lastActivity == now
    {
      masterPassword := password;
      autoLockTimeout := EffectiveTimeout(timeout);
      isLocked := false;
      lastActivity := now;
    }

    /** `lock`: locked, and the password is forgotten. */
    method Lock()
      requires Valid()
      modifies this
      ensures Valid()
      ensures isLocked && masterPassword == ""
      ensures autoLockTimeout == old(autoLockTimeout) && lastActivity == old(lastActivity)
    {
      isLocked := true;
      masterPassword := "";
    }

    /**
      `unlock`: trial-decrypts the test slot when there is one. On success the
      service is unlocked under `password`; on failure nothing changes.
    */
    method Unlock(password: string, now: int) returns (ok: bool)
      requires Valid()
      modifies this
      ensures Valid()
      ensures ok == TestSlotAccepts(crypto, envelopeJson, storage.items, password)
      ensures ok ==> !isLocked && masterPassword == password && lastActivity == now
      ensures !ok ==> isLocked == old(isLocked) && masterPassword == old(masterPassword) && lastActivity == old(lastActivity)
      ensures autoLockTimeout == old(autoLockTimeout)
    {
      var testData := storage.GetItem(TEST_KEY);
      if Present(testData) {
        match envelopeJson.parse(testData.value) {
          case Failure(_) =>
            return false;
          case Success(envelope) =>
            if Decrypt(crypto, envelope, password).Failure? {
              return false;
            }
        }
      }
      masterPassword := password;
      isLocked := false;
      lastActivity := now;
      return true;
    }

    /**
      `set`: throws while locked and changes nothing; otherwise replaces slot
      `key` with the sealed value and records activity.
    */
    method Set<T>(key: string, value: T, json: Codec<T>, saltBytes: seq<byte>, ivBytes: seq<byte>, now: int)
      returns (outcome: Outcome)
      requires Valid()
      requires |saltBytes| == SALT_SIZE && |ivBytes| == IV_SIZE
      modifies this, storage
      ensures Valid()
      ensures isLocked == old(isLocked) && masterPassword == old(masterPassword) && autoLockTimeout == old(autoLockTimeout)
      ensures old(isLocked) ==>
                outcome == Threw(StorageLocked) && storage.items == old(storage.items) && lastActivity == old(lastActivity)
      ensures !old(isLocked) ==>
                && outcome == Done
                && storage.items == old(storage.items)[key := SealedSlot(crypto, envelopeJson, json, value, masterPassword, saltBytes, ivBytes)]
                && lastActivity == now
    {
      if isLocked {
        return Threw(StorageLocked);
      }
      var plain := json.stringify(value);
      var encrypted := Encrypt(crypto, plain, masterPassword, saltBytes, ivBytes);
      storage.SetItem(key, envelopeJson.stringify(encrypted));
      lastActivity := now;
      return Done;
    }

    /**
      `get`: throws while locked; otherwise returns the stored value, or
      `default` when the slot is absent or any step fails. Activity is
      recorded only when a value was read.
    */
    method Get<T>(key: string, default: T, json: Codec<T>, now: int) returns (r: Result<T, StorageError>)
      requires Valid()
      modifies this
      ensures Valid()
      ensures isLocked == old(isLocked) && masterPassword == old(masterPassword) && autoLockTimeout == old(autoLockTimeout)
      ensures old(isLocked) ==> r == Failure(StorageLocked) && lastActivity == old(lastActivity)
      ensures !old(isLocked) ==>
                var found := OpenSlot(crypto, envelopeJson, json, storage.items, key, masterPassword);
                && r == Success(found.GetOr(default))
                && lastActivity == if found.Some? then now else old(lastActivity)
    {
      if isLocked {
        return Failure(StorageLocked);
      }
      var encryptedData := storage.GetItem(key);
      if !Present(encryptedData) {
        return Success(default);
      }
      match envelopeJson.parse(encryptedData.value) {
        case Failure(_) =>
          return Success(default);
        case Success(encrypted) =>
          match Decrypt(crypto, encrypted, masterPassword) {
            case Failure(_) =>
              return Success(default);
            case Success(decryptedString) =>
              match json.parse(decryptedString) {
                case Failure(_) =>
                  return Success(default);
                case Success(decrypted) =>
                  lastActivity := now;
                  return Success(decrypted);
              }
          }
      }
    }

    /** `remove`: throws while locked; otherwise deletes slot `key` and nothing else. */
    method Remove(key: string, now: int) returns (outcome: Outcome)
      requires Valid()
      modifies this, storage
      ensures Valid()
      ensures isLocked == old(isLocked) && masterPassword == old(masterPassword) && autoLockTimeout == old(autoLockTimeout)
      ensures old(isLocked) ==>
                outcome == Threw(StorageLocked) && storage.items == old(storage.items) && lastActivity == old(lastActivity)
      ensures !old(isLocked) ==>
                outcome == Done && storage.items == old(storage.items) - {key} && lastActivity == now
    {
      if isLocked {
        return Threw(StorageLocked);
      }
      storage.RemoveItem(key);
      lastActivity := now;
      return Done;
    }

    /** The first loop of `clear`: the keys, in enumeration order, that start with the vault prefix. */
    method CollectVaultKeys() returns (keysToRemove: seq<string>)
      requires Valid()
      ensures keysToRemove == Filter(storage.keys, IsVaultKey)
    {
      keysToRemove := [];
      var i := 0;
      while i < storage.Length()
        invariant 0 <= i <= |storage.keys|
        invariant keysToRemove == Filter(storage.keys[..i], IsVaultKey)
      {
        var key := storage.Key(i);
        assert storage.keys[..i + 1] == storage.keys[..i] + [storage.keys[i]];
        FilterSnoc(storage.keys[..i], storage.keys[i], IsVaultKey);
        if key.Some? && IsVaultKey(key.value) {
          keysToRemove := keysToRemove + [key.value];
        }
        i := i + 1;
      }
      assert storage.keys[..i] == storage.keys;
    }

    /**
      `clear`: throws while locked; otherwise collects the keys that start
      with the vault prefix and removes them. Every other slot is untouched.
    */
    method Clear(now: int) returns (outcome: Outcome)
      requires Valid()
      modifies this, storage
      ensures Valid()
      ensures isLocked == old(isLocked) && masterPassword == old(masterPassword) && autoLockTimeout == old(autoLockTimeout)
      ensures old(isLocked) ==>
                outcome == Threw(StorageLocked) && storage.items == old(storage.items) && lastActivity == old(lastActivity)
      ensures !old(isLocked) ==>
                && outcome == Done
                && lastActivity == now
                && (forall k :: k in storage.items <==> k in old(storage.items) && !IsVaultKey(k))
                && (forall k :: k in storage.items ==> storage.items[k] == old(storage.items)[k])
    {
      if isLocked {
        return Threw(StorageLocked);
      }
      var keysToRemove := CollectVaultKeys();
      ghost var before := storage.items;
      var j := 0;
      while j < |keysToRemove|
        invariant 0 <= j <= |keysToRemove|
        invariant storage.Valid()
        invariant storage.items == Without(before, keysToRemove[..j])
        modifies storage
      {
        WithoutOneMore(before, keysToRemove, j);
        storage.RemoveItem(keysToRemove[j]);
        j := j + 1;
      }
      assert keysToRemove[..j] == keysToRemove;
      lastActivity := now;
      return Done;
    }

    /**
      `exportData`: throws while locked; otherwise the JSON of an object
      holding exactly the vault slots and their stored text.
    */
    method ExportData() returns (r: Result<string, StorageError>)
      requires Valid()
      ensures isLocked ==> r == Failure(StorageLocked)
      ensures !isLocked ==> r == Success(backupJson.stringify(VaultSnapshot(storage.items)))
    {
      if isLocked {
        return Failure(StorageLocked);
      }
      var exported: Backup := map[];
      var i := 0;
      while i < storage.Length()
        invariant 0 <= i <= |storage.keys|
        invariant exported == map k | k in storage.keys[..i] && IsVaultKey(k) :: Text(storage.items[k])
      {
        var key := storage.Key(i);
        assert storage.keys[..i + 1] == storage.keys[..i] + [storage.keys[i]];
        if key.Some? && IsVaultKey(key.value) {
          var value := storage.GetItem(key.value);
          exported := exported[key.value := Text(value.value)];
        }
        i := i + 1;
      }
      assert storage.keys[..i] == storage.keys;
      SnapshotByKeys(storage.keys, storage.items);
      return Success(backupJson.stringify(exported));
    }

    /** The write loop of `importData`: every string entry of the backup is written, in any order. */
    method WriteBackup(data: Backup)
      requires storage.Valid()
      modifies storage
      ensures storage.Valid()
      ensures storage.items == Restore(old(storage.items), data)
    {
      var remaining := data.Keys;
      while remaining != {}
        invariant remaining <= data.Keys
        invariant storage.Valid()
        invariant forall k :: k in storage.items <==> k in old(storage.items) || Written(data, remaining, k)
        invariant forall k :: k in storage.items ==>
                    storage.items[k] == if Written(data, remaining, k) then data[k].s else old(storage.items)[k]
        decreases remaining
      {
        var key :| key in remaining;
        if data[key].Text? {
          storage.SetItem(key, data[key].s);
        }
        remaining := remaining - {key};
      }
      RestorePointwise(old(storage.items), data, storage.items);
    }

    /**
      `importData`: throws while locked, or when the text does not parse;
      otherwise writes every string entry of the backup and leaves every
      other slot alone.
    */
    method ImportData(backupData: string, now: int) returns (outcome: Outcome)
      requires Valid()
      modifies this, storage
      ensures Valid()
      ensures isLocked == old(isLocked) && masterPassword == old(masterPassword) && autoLockTimeout == old(autoLockTimeout)
      ensures old(isLocked) ==>
                outcome == Threw(StorageLocked) && storage.items == old(storage.items) && lastActivity == old(lastActivity)
      ensures !old(isLocked) && backupJson.parse(backupData).Failure? ==>
                outcome == Threw(InvalidBackupData) && storage.items == old(storage.items) && lastActivity == old(lastActivity)
      ensures !old(isLocked) && backupJson.parse(backupData).Success? ==>
                && outcome == Done
                && storage.items == Restore(old(storage.items), backupJson.parse(backupData).value)
                && lastActivity == now
    {
      if isLocked {
        return Threw(StorageLocked);
      }
      match backupJson.parse(backupData) {
        case Failure(_) =>
          return Threw(InvalidBackupData);
        case Success(data) =>
          WriteBackup(data);
          lastActivity := now;
          return Done;
      }
    }

    /** The auto-lock condition: unlocked, a password held, and strictly more than the timeout since the last activity. */
    predicate AutoLockDue(now: int)
      reads this
    {
      !isLocked && masterPassword != "" && now - lastActivity > autoLockTimeout * MS_PER_MINUTE
    }

    /** The periodic `checkAutoLock`: locks when due and reports whether it did. */
    method CheckAutoLock(now: int) returns (fired: bool)
      requires Valid()
      modifies this
      ensures Valid()
      ensures fired == old(AutoLockDue(now))
      ensures fired ==> isLocked && masterPassword == ""
      ensures !fired ==> isLocked == old(isLocked) && masterPassword == old(masterPassword)
      ensures autoLockTimeout == old(autoLockTimeout) && lastActivity == old(lastActivity)
    {
      fired := false;
      if !isLocked && masterPassword != "" {
        var timeSinceActivity := now - lastActivity;
        var timeoutMs := autoLockTimeout * 60 * 1000;
        if timeSinceActivity > timeoutMs {
          Lock();
          fired := true;
        }
      }
    }

    /** `updateActivity`, as run by the DOM activity listeners. */
    method RecordActivity(now: int)
      requires Valid()
      modifies this
      ensures Valid()
      ensures lastActivity == now
      ensures isLocked == old(isLocked) && masterPassword == old(masterPassword) && autoLockTimeout == old(autoLockTimeout)
    {
      lastActivity := now;
    }
  }
}
