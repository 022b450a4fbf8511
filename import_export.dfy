/**
  The import/export dialog: an export writes the vault as a versioned
  document encrypted under a file password; an import decrypts such a file,
  checks its shape, normalises its entries and hands them to the app. The
  file's text, the download, the clock, the ISO date and the UUIDs are
  parameters or results; the close the dialog schedules after a success
  happens at the end of the handler.
*/
module ImportExport {
  import opened Wrappers
  import opened Lists
  import opened Json
  import opened Encryption
  import opened LocalStorage
  import opened Entries

  const EXPORT_VERSION := "1.0"
  const MERGE := "merge"
  const DEFAULT_CATEGORY := "Uncategorized"

  const ERR_EXPORT_NO_PASSWORD := "Por favor ingresa una contraseña para proteger el archivo"
  const ERR_PASSWORDS_DIFFER := "Las contraseñas no coinciden"
  const ERR_IMPORT_NO_PASSWORD := "Por favor ingresa la contraseña del archivo"
  const ERR_NO_FILE := "Por favor selecciona un archivo"
  const ERR_IMPORT_PREFIX := "Error al importar: "
  const ERR_INVALID_FORMAT := "Formato de archivo inválido"
  /** The `TypeError` a browser engine raises on `p.id` when `p` is `null`. */
  const NULL_ELEMENT_ERROR := "Cannot read properties of null (reading 'id')"
  const EXPORT_SUCCESS := "Archivo exportado exitosamente"
  const IMPORT_SUCCESS := "Archivo importado exitosamente"

  /** Which panel of the dialog is shown. */
  datatype Mode = Select | Export | Import

  /** `metadata` of an export. */
  datatype Metadata = Metadata(totalPasswords: nat, categories: seq<string>, exportDate: string)

  /** The object an export serialises. */
  datatype ExportDocument = ExportDocument(version: string, timestamp: int, passwords: seq<PasswordEntry>, metadata: Metadata)

  /**
    One element of an imported `passwords` array, as read. A missing or
    falsy string field reads as "", a missing or falsy `createdAt` as 0.
  */
  datatype RawEntry = RawEntry(id: string, site: string, username: string, password: string, category: string, createdAt: int)

  /**
    An element of the `passwords` array: an object (a number, string or
    boolean element reads as an object with every field missing), or `null`,
    on which reading `id` throws.
  */
  datatype RawElement = Object(entry: RawEntry) | Null

  /** An imported document: its `passwords` field when that is a non-null array, else `None`. */
  datatype ImportDocument = ImportDocument(passwords: Option<seq<RawElement>>)

  /** `JSON.stringify` of an export document and `JSON.parse` of a decrypted import. */
  datatype DocumentFormat = DocumentFormat(write: ExportDocument -> string, read: string -> Result<ImportDocument, string>)

  /** An entry as it appears inside an exported document. */
  function AsRaw(e: PasswordEntry): RawElement {
    Object(RawEntry(e.id, e.site, e.username, e.password, e.category, e.createdAt))
  }

  /** Reading back a written export yields its entries, field for field. */
  ghost predicate ReadsBack(f: DocumentFormat) {
    forall d :: f.read(f.write(d)) == Success(ImportDocument(Some(Map(d.passwords, AsRaw))))
  }

  /** The document `handleExport` builds. */
  function ExportDocumentFor(passwords: seq<PasswordEntry>, now: int, isoDate: string): (d: ExportDocument)
    ensures d.version == EXPORT_VERSION && d.timestamp == now && d.passwords == passwords
    ensures d.metadata.totalPasswords == |passwords| && d.metadata.exportDate == isoDate
    ensures Distinct(d.metadata.categories)
    ensures forall c :: c in d.metadata.categories <==> exists p :: p in passwords && p.category == c
  {
    ExportDocument(EXPORT_VERSION, now, passwords, Metadata(|passwords|, Dedup(CategoryOf(passwords)), isoDate))
  }

  /** The text of the exported file: the JSON of the envelope that encrypts the JSON of the document. */
  function ExportFile(p: Primitives, envelopeJson: Codec<EncryptedData>, format: DocumentFormat,
                      passwords: seq<PasswordEntry>, filePassword: string,
                      saltBytes: seq<byte>, ivBytes: seq<byte>, now: int, isoDate: string): string
    requires |saltBytes| == SALT_SIZE && |ivBytes| == IV_SIZE
  {
    envelopeJson.stringify(Encrypt(p, format.write(ExportDocumentFor(passwords, now, isoDate)), filePassword, saltBytes, ivBytes))
  }

  /** One imported entry: a falsy id gets a fresh UUID, a falsy category "Uncategorized", a falsy date the current time. */
  function NormalizeEntry(raw: RawEntry, uuid: string, now: int): (e: PasswordEntry)
    ensures e.site == raw.site && e.username == raw.username && e.password == raw.password
    ensures e.id == (if raw.id != "" then raw.id else uuid)
    ensures e.category == (if raw.category != "" then raw.category else DEFAULT_CATEGORY)
    ensures e.createdAt == (if raw.createdAt != 0 then raw.createdAt else now)
  {
    PasswordEntry(
      if raw.id != "" then raw.id else uuid,
      raw.site, raw.username, raw.password,
      if raw.category != "" then raw.category else DEFAULT_CATEGORY,
      if raw.createdAt != 0 then raw.createdAt else now)
  }

  /**
    `importData.passwords.map(...)`: entry i may use UUID i and clock
    reading i (the callback asks for both afresh per entry). Length and
    order are kept.
  */
  function NormalizeEntries(raws: seq<RawEntry>, uuids: seq<string>, nows: seq<int>): (r: seq<PasswordEntry>)
    requires |uuids| == |raws| && |nows| == |raws|
    ensures |r| == |raws|
    ensures forall i :: 0 <= i < |r| ==> r[i] == NormalizeEntry(raws[i], uuids[i], nows[i])
  {
    seq(|raws|, i requires 0 <= i < |raws| => NormalizeEntry(raws[i], uuids[i], nows[i]))
  }

  /** An entry with a truthy id, category and date. */
  predicate Complete(e: PasswordEntry) {
    e.id != "" && e.category != "" && e.createdAt != 0
  }

  /** Normalised entries are complete, given non-empty UUIDs and non-zero clock readings. */
  lemma NormalizedAreComplete(raws: seq<RawEntry>, uuids: seq<string>, nows: seq<int>)
    requires |uuids| == |raws| && |nows| == |raws|
    requires forall u :: u in uuids ==> u != ""
    requires forall t :: t in nows ==> t != 0
    ensures forall e :: e in NormalizeEntries(raws, uuids, nows) ==> Complete(e)
  {
    var r := NormalizeEntries(raws, uuids, nows);
    forall e | e in r ensures Complete(e) {
      var i :| 0 <= i < |r| && r[i] == e;
      assert uuids[i] in uuids;
      assert nows[i] in nows;
    }
  }

  /**
    The steps of `handleImport` before the preference is saved: parse the
    envelope, decrypt it with the file password, parse the document, and
    check that `passwords` is an array. Each failure is "Error al importar: "
    and that step's message.
  */
  function DecodeImportFile(p: Primitives, envelopeJson: Codec<EncryptedData>, format: DocumentFormat,
                            text: string, filePassword: string): (r: Result<seq<RawElement>, string>)
    ensures r.Failure? ==> ERR_IMPORT_PREFIX <= r.error
    ensures envelopeJson.parse(text).Failure? ==>
              r == Failure(ERR_IMPORT_PREFIX + envelopeJson.parse(text).error)
    ensures envelopeJson.parse(text).Success? && Decrypt(p, envelopeJson.parse(text).value, filePassword).Failure? ==>
              r == Failure(ERR_IMPORT_PREFIX + DECRYPT_ERROR)
    ensures var e := envelopeJson.parse(text);
            e.Success? && Decrypt(p, e.value, filePassword).Success? ==>
              var doc := format.read(Decrypt(p, e.value, filePassword).value);
              && (doc.Failure? ==> r == Failure(ERR_IMPORT_PREFIX + doc.error))
              && (doc.Success? && doc.value.passwords.None? ==> r == Failure(ERR_IMPORT_PREFIX + ERR_INVALID_FORMAT))
              && (doc.Success? && doc.value.passwords.Some? ==> r == Success(doc.value.passwords.value))
  {
    match envelopeJson.parse(text)
    case Failure(msg) => Failure(ERR_IMPORT_PREFIX + msg)
    case Success(encrypted) =>
      match Decrypt(p, encrypted, filePassword)
      case Failure(msg) => Failure(ERR_IMPORT_PREFIX + msg)
      case Success(decryptedJson) =>
        match format.read(decryptedJson)
        case Failure(msg) => Failure(ERR_IMPORT_PREFIX + msg)
        case Success(importData) =>
          match importData.passwords
          case None => Failure(ERR_IMPORT_PREFIX + ERR_INVALID_FORMAT)
          case Some(elements) => Success(elements)
  }

  /** The entries of an array whose elements are all objects; `None` as soon as one is `null`. */
  function Objects(elements: seq<RawElement>): (r: Option<seq<RawEntry>>)
    ensures r.None? <==> exists i :: 0 <= i < |elements| && elements[i].Null?
    ensures r.Some? ==> |r.value| == |elements| && forall i :: 0 <= i < |elements| ==> elements[i] == Object(r.value[i])
    decreases |elements|
  {
    if elements == [] then Some([])
    else
      match elements[0]
      case Null => None
      case Object(entry) =>
        match Objects(elements[1..])
        case None =>
          var j :| 0 <= j < |elements[1..]| && elements[1..][j].Null?;
          assert elements[j + 1].Null?;
          None
        case Some(rest) => Some([entry] + rest)
  }

  /**
    `importData.passwords.map(...)`, after the preference is saved: a `null`
    element makes it throw, which `handleImport` reports with its prefix;
    otherwise element i is normalised, and may use UUID i and clock reading i.
  */
  function NormalizeElements(elements: seq<RawElement>, uuids: nat -> string, nows: nat -> int): (r: Result<seq<PasswordEntry>, string>)
    ensures r.Failure? <==> exists i :: 0 <= i < |elements| && elements[i].Null?
    ensures r.Failure? ==> r.error == ERR_IMPORT_PREFIX + NULL_ELEMENT_ERROR
    ensures r.Success? ==>
              && |r.value| == |elements|
              && forall i :: 0 <= i < |elements| ==>
                   elements[i].Object? && r.value[i] == NormalizeEntry(elements[i].entry, uuids(i), nows(i))
  {
    match Objects(elements)
    case None => Failure(ERR_IMPORT_PREFIX + NULL_ELEMENT_ERROR)
    case Some(raws) =>
      Success(NormalizeEntries(raws, seq(|raws|, i requires 0 <= i < |raws| => uuids(i)),
                                     seq(|raws|, i requires 0 <= i < |raws| => nows(i))))
  }

  /** Normalising the exported form of complete entries changes nothing. */
  lemma NormalizeKeepsComplete(entries: seq<PasswordEntry>, uuids: nat -> string, nows: nat -> int)
    requires forall e :: e in entries ==> Complete(e)
    ensures NormalizeElements(Map(entries, AsRaw), uuids, nows) == Success(entries)
  {
    var elements := Map(entries, AsRaw);
    var r := NormalizeElements(elements, uuids, nows);
    assert forall i :: 0 <= i < |elements| ==> elements[i].Object?;
    assert r.Success? && |r.value| == |entries|;
    forall i | 0 <= i < |entries| ensures r.value[i] == entries[i] {
      assert entries[i] in entries;
    }
    assert r.value == entries;
  }

  /**
    Importing an exported file with the password it was exported under
    decodes to the exported entries and normalises back to them, when each
    of them is complete.
  */
  lemma ExportThenImport(p: Primitives, envelopeJson: Codec<EncryptedData>, format: DocumentFormat,
                         passwords: seq<PasswordEntry>, filePassword: string,
                         saltBytes: seq<byte>, ivBytes: seq<byte>, now: int, isoDate: string,
                         uuids: nat -> string, laters: nat -> int)
    requires AesRoundTrip(p) && RoundTrips(envelopeJson) && ReadsBack(format)
    requires |saltBytes| == SALT_SIZE && |ivBytes| == IV_SIZE
    requires forall e :: e in passwords ==> Complete(e)
    ensures var d := DecodeImportFile(p, envelopeJson, format,
                                      ExportFile(p, envelopeJson, format, passwords, filePassword, saltBytes, ivBytes, now, isoDate),
                                      filePassword);
            d == Success(Map(passwords, AsRaw)) && NormalizeElements(d.value, uuids, laters) == Success(passwords)
  {
    var doc := ExportDocumentFor(passwords, now, isoDate);
    var encrypted := Encrypt(p, format.write(doc), filePassword, saltBytes, ivBytes);
    assert envelopeJson.parse(envelopeJson.stringify(encrypted)) == Success(encrypted);
    DecryptInvertsEncrypt(p, format.write(doc), filePassword, saltBytes, ivBytes);
    assert format.read(format.write(doc)) == Success(ImportDocument(Some(Map(passwords, AsRaw))));
    NormalizeKeepsComplete(passwords, uuids, laters);
  }

  /** `saved || 'merge'`: a stored preference that is absent or empty reads as "merge"; any other text is kept. */
  function SavedModeOr(saved: Option<string>): (mode: string)
    ensures mode != ""
    ensures Present(saved) ==> mode == saved.value
  {
    if Present(saved) then saved.value else MERGE
  }

  class ImportExportModal {
    /** The `localStorage` holding the import-mode preference. */
    const storage: Store
    const crypto: Primitives
    const envelopeJson: Codec<EncryptedData>
    const format: DocumentFormat

    var mode: Mode
    var password: string
    var confirmPassword: string
    var importMode: string
    var lastImportMode: string
    var error: string
    var success: string

    ghost predicate Valid()
      reads this, storage
    {
      storage.Valid()
    }

    /** Select panel, empty fields, merge selected, the saved preference loaded. */
    constructor (storage: Store, crypto: Primitives, envelopeJson: Codec<EncryptedData>, format: DocumentFormat)
      requires storage.Valid()
      ensures Valid()
      ensures this.storage == storage && this.crypto == crypto && this.envelopeJson == envelopeJson && this.format == format
      ensures mode == Select && password == "" && confirmPassword == "" && error == "" && success == ""
      ensures importMode == MERGE && lastImportMode == SavedModeOr(storage.GetItem(IMPORT_MODE_KEY))
    {
      this.storage := storage;
      this.crypto := crypto;
      this.envelopeJson := envelopeJson;
      this.format := format;
      mode := Select;
      password := "";
      confirmPassword := "";
      importMode := MERGE;
      error := "";
      success := "";
      lastImportMode := SavedModeOr(storage.GetItem(IMPORT_MODE_KEY));
    }

    /** The form after `resetForm`: fields cleared, select panel, the remembered import mode restored. */
    predicate IsResetTo(rememberedMode: string)
      reads this
    {
      && password == "" && confirmPassword == "" && error == "" && success == ""
      && mode == Select && importMode == rememberedMode
    }

    /** `resetForm`. */
    method ResetForm()
      requires Valid()
      modifies this
      ensures Valid()
      ensures IsResetTo(old(lastImportMode)) && lastImportMode == old(lastImportMode)
    {
      password := "";
      confirmPassword := "";
      error := "";
      success := "";
      mode := Select;
      importMode := lastImportMode;
    }

    /** Choosing a panel, typing the passwords, picking merge or overwrite. */
    method EditForm(mode: Mode, password: string, confirmPassword: string, importMode: string)
      requires Valid()
      modifies this
      ensures Valid()
      ensures this.mode == mode && this.password == password && this.confirmPassword == confirmPassword
      ensures this.importMode == importMode
      ensures lastImportMode == old(lastImportMode) && error == old(error) && success == old(success)
    {
      this.mode := mode;
      this.password := password;
      this.confirmPassword := confirmPassword;
      this.importMode := importMode;
    }

    /**
      `handleExport`: an empty password, then a confirmation that differs,
      fail with their message and produce no file. Otherwise the file is
      produced and the dialog resets and closes.
    */
    method HandleExport(passwords: seq<PasswordEntry>, saltBytes: seq<byte>, ivBytes: seq<byte>, now: int, isoDate: string)
      returns (file: Option<string>)
      requires Valid()
      requires |saltBytes| == SALT_SIZE && |ivBytes| == IV_SIZE
      modifies this
      ensures Valid()
      ensures lastImportMode == old(lastImportMode)
      ensures file.Some? <==> old(password) != "" && old(password) == old(confirmPassword)
      ensures old(password) == "" ==> error == ERR_EXPORT_NO_PASSWORD
      ensures old(password) != "" && old(password) != old(confirmPassword) ==> error == ERR_PASSWORDS_DIFFER
      ensures file.None? ==>
                && mode == old(mode) && password == old(password) && confirmPassword == old(confirmPassword)
                && importMode == old(importMode) && success == old(success)
      ensures file.Some? ==>
                && file.value == ExportFile(crypto, envelopeJson, format, passwords, old(password), saltBytes, ivBytes, now, isoDate)
                && IsResetTo(old(lastImportMode))
    {
      if password == "" {
        error := ERR_EXPORT_NO_PASSWORD;
        return None;
      }
      if password != confirmPassword {
        error := ERR_PASSWORDS_DIFFER;
        return None;
      }
      var exportData := ExportDocumentFor(passwords, now, isoDate);
      var jsonData := format.write(exportData);
      var encrypted := Encrypt(crypto, jsonData, password, saltBytes, ivBytes);
      file := Some(envelopeJson.stringify(encrypted));
      success := EXPORT_SUCCESS;
      ResetForm();
    }

    /**
      The part of `handleImport` after the file decoded: the chosen mode is
      saved as the preference, then the elements are normalised; on success
      the form resets to the preference it held before.
    */
    method SaveModeAndNormalize(elements: seq<RawElement>, uuids: nat -> string, nows: nat -> int)
      returns (imported: Option<seq<PasswordEntry>>)
      requires Valid()
      modifies this, storage
      ensures Valid()
      ensures storage.items == old(storage.items)[IMPORT_MODE_KEY := old(importMode)] && lastImportMode == old(importMode)
      ensures var n := NormalizeElements(elements, uuids, nows);
              && (n.Failure? ==> imported.None? && error == n.error)
              && (n.Success? ==> imported == Some(n.value))
      ensures imported.None? ==>
                && mode == old(mode) && password == old(password) && confirmPassword == old(confirmPassword)
                && importMode == old(importMode) && success == old(success)
      ensures imported.Some? ==> IsResetTo(old(lastImportMode))
    {
      var rememberedMode := lastImportMode;
      storage.SetItem(IMPORT_MODE_KEY, importMode);
      lastImportMode := importMode;
      var normalized := NormalizeElements(elements, uuids, nows);
      if normalized.Failure? {
        error := normalized.error;
        return None;
      }
      success := IMPORT_SUCCESS;
      password := "";
      confirmPassword := "";
      error := "";
      success := "";
      mode := Select;
      importMode := rememberedMode;
      return Some(normalized.value);
    }

    /**
      `handleImport` with the chosen file's text: an empty password, then a
      missing file, fail first; then a failure to decode the file is shown
      and neither the preference nor the app changes. Once the file decodes,
      the chosen import mode is saved as the preference; a `null` element
      then still fails the import, with the preference already saved.
      Otherwise the entries are handed to the app and the dialog resets and
      closes. The reset runs with the preference as it was when the handler
      started.
    */
    method HandleImport(file: Option<string>, uuids: nat -> string, nows: nat -> int) returns (imported: Option<seq<PasswordEntry>>)
      requires Valid()
      modifies this, storage
      ensures Valid()
      ensures old(password) == "" ==> imported.None? && error == ERR_IMPORT_NO_PASSWORD
      ensures old(password) != "" && file.None? ==> imported.None? && error == ERR_NO_FILE
      ensures old(password) != "" && file.Some? ==>
                var d := DecodeImportFile(crypto, envelopeJson, format, file.value, old(password));
                && (d.Failure? ==> imported.None? && error == d.error)
                && (d.Success? ==> var n := NormalizeElements(d.value, uuids, nows);
                                   && (n.Failure? ==> imported.None? && error == n.error)
                                   && (n.Success? ==> imported == Some(n.value)))
      ensures if old(password) != "" && file.Some?
                 && DecodeImportFile(crypto, envelopeJson, format, file.value, old(password)).Success?
              then storage.items == old(storage.items)[IMPORT_MODE_KEY := old(importMode)] && lastImportMode == old(importMode)
              else storage.items == old(storage.items) && lastImportMode == old(lastImportMode)
      ensures imported.None? ==>
                && mode == old(mode) && password == old(password) && confirmPassword == old(confirmPassword)
                && importMode == old(importMode) && success == old(success)
      ensures imported.Some? ==> IsResetTo(old(lastImportMode))
    {
      if password == "" {
        error := ERR_IMPORT_NO_PASSWORD;
        return None;
      }
      if file.None? {
        error := ERR_NO_FILE;
        return None;
      }
      var decoded := DecodeImportFile(crypto, envelopeJson, format, file.value, password);
      if decoded.Failure? {
        error := decoded.error;
        return None;
      }
      imported := SaveModeAndNormalize(decoded.value, uuids, nows);
    }
  }
}
