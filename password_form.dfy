/**
  The add/edit form: its four fields, the effects that fill them when the
  form opens or a generated password arrives, and the submit guard.
*/
module PasswordForm {
  import opened Wrappers
  import opened Entries

  const DEFAULT_CATEGORY := "Uncategorized"

  class PasswordModal {
    var isOpen: bool
    /** The entry being edited, or `None` when adding. */
    var existingEntry: Option<PasswordEntry>
    var site: string
    var username: string
    var password: string
    var category: string

    /** Closed, adding, all fields empty. */
    constructor ()
      ensures !isOpen && existingEntry == None
      ensures site == "" && username == "" && password == "" && category == ""
    {
      isOpen := false;
      existingEntry := None;
      site := "";
      username := "";
      password := "";
      category := "";
    }

    /**
      The effect on `[isOpen, existingEntry]`: on opening, the fields copy
      the edited entry, or are all cleared when adding; while closed they
      are left as they were.
    */
    method SyncFields(open: bool, existing: Option<PasswordEntry>)
      modifies this
      ensures isOpen == open && existingEntry == existing
      ensures open && existing.Some? ==>
                && site == existing.value.site && username == existing.value.username
                && password == existing.value.password && category == existing.value.category
      ensures open && existing.None? ==> site == "" && username == "" && password == "" && category == ""
      ensures !open ==>
                && site == old(site) && username == old(username)
                && password == old(password) && category == old(category)
    {
      isOpen := open;
      existingEntry := existing;
      if open {
        match existing {
          case Some(e) =>
            site := e.site;
            username := e.username;
            password := e.password;
            category := e.category;
          case None =>
            site := "";
            username := "";
            password := "";
            category := "";
        }
      }
    }

    /** The effect on `generatedPassword`: a non-empty one replaces the password field. */
    method ApplyGenerated(generated: string)
      modifies this
      ensures password == if generated != "" then generated else old(password)
      ensures site == old(site) && username == old(username) && category == old(category)
      ensures isOpen == old(isOpen) && existingEntry == old(existingEntry)
    {
      if generated != "" {
        password := generated;
      }
    }

    /** Typing into the fields. */
    method EditFields(site: string, username: string, password: string, category: string)
      modifies this
      ensures this.site == site && this.username == username
      ensures this.password == password && this.category == category
      ensures isOpen == old(isOpen) && existingEntry == old(existingEntry)
    {
      this.site := site;
      this.username := username;
      this.password := password;
      this.category := category;
    }

    /**
      `handleSubmit`: the request `onSave` receives, or `None` when a
      required field is empty (and the form stays open).
    */
    function Submit(): (req: Option<SaveRequest>)
      reads this
      ensures req.Some? <==> site != "" && username != "" && password != ""
      ensures req.Some? ==>
                && req.value.site == site && req.value.username == username && req.value.password == password
                && req.value.category == (if category != "" then category else DEFAULT_CATEGORY)
                && req.value.category != ""
                && req.value.id == (if existingEntry.Some? then Some(existingEntry.value.id) else None)
    {
      if site != "" && username != "" && password != "" then
        Some(SaveRequest(
          if existingEntry.Some? then Some(existingEntry.value.id) else None,
          site, username, password,
          if category != "" then category else DEFAULT_CATEGORY))
      else None
    }
  }

  /**
    Saving what the form submits while editing an entry of the list updates
    that entry in place with the form's fields and keeps the list's length
    and ids; when adding, the new entry comes first.
  */
  lemma SubmitThenSave(form: PasswordModal, passwords: seq<PasswordEntry>, uuid: string, now: int, i: int)
    requires form.Submit().Some?
    requires 0 <= i < |passwords|
    requires form.existingEntry.Some? && form.existingEntry.value.id != "" && passwords[i].id == form.existingEntry.value.id
    ensures var r := SaveEntry(passwords, form.Submit().value, uuid, now);
            && |r| == |passwords|
            && r[i].id == passwords[i].id && r[i].createdAt == passwords[i].createdAt
            && r[i].site == form.site && r[i].username == form.username && r[i].password == form.password
  {
  }

  /** Submitting a new entry and saving it prepends exactly the form's contents. */
  lemma SubmitThenAdd(form: PasswordModal, passwords: seq<PasswordEntry>, uuid: string, now: int)
    requires form.Submit().Some?
    requires form.existingEntry.None?
    ensures var r := SaveEntry(passwords, form.Submit().value, uuid, now);
            && r[1..] == passwords
            && r[0] == PasswordEntry(uuid, form.site, form.username, form.password, form.Submit().value.category, now)
  {
  }
}
