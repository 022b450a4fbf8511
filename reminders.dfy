/**
  Password-age reminders: the notification dialog, the reminder banner and
  the bell indicator all select the entries older than ninety days.
*/
module Reminders {
  import opened Wrappers
  import opened Lists
  import opened Entries

  const REMINDER_PERIOD_DAYS := 90
  const REMINDER_PERIOD_MS := REMINDER_PERIOD_DAYS * 24 * 60 * 60 * 1000
  /** The banner lists at most this many entries. */
  const BANNER_LIMIT := 3

  /** Strictly more than ninety days have passed since the entry was created. */
  predicate IsOld(p: PasswordEntry, now: int) {
    now - p.createdAt > REMINDER_PERIOD_MS
  }

  /** `passwords.filter(...)` with the age test. */
  function OldPasswords(passwords: seq<PasswordEntry>, now: int): (r: seq<PasswordEntry>)
    ensures |r| <= |passwords|
    ensures forall p :: p in r <==> p in passwords && IsOld(p, now)
    ensures forall p :: multiset(r)[p] == if IsOld(p, now) then multiset(passwords)[p] else 0
  {
    FilterCounts(passwords, (p: PasswordEntry) => IsOld(p, now));
    Filter(passwords, (p: PasswordEntry) => IsOld(p, now))
  }

  /** The reminder list keeps the vault's order. */
  lemma OldPasswordsInOrder(passwords: seq<PasswordEntry>, now: int)
    ensures IsSubsequence(OldPasswords(passwords, now), passwords)
  {
    FilterIsSubsequence(passwords, (p: PasswordEntry) => IsOld(p, now));
  }

  /** The threshold is strict: exactly ninety days is not old, one millisecond more is. */
  lemma ThresholdIsStrict(p: PasswordEntry)
    ensures REMINDER_PERIOD_MS == 7776000000
    ensures !IsOld(p, p.createdAt + 7776000000)
    ensures IsOld(p, p.createdAt + 7776000001)
  {
  }

  /** The plural suffix of "contraseña". */
  function Plural(count: int): (suffix: string)
    ensures suffix == "s" <==> count > 1
    ensures suffix == "" <==> count <= 1
  {
    if count > 1 then "s" else ""
  }

  /** What the notification dialog shows. */
  datatype NotificationView =
    | Hidden
    | Shown(count: nat, suffix: string, stale: seq<PasswordEntry>)

  /** `NotificationModal`: nothing when closed, else the old entries with their count. */
  function NotificationModal(isOpen: bool, passwords: seq<PasswordEntry>, now: int): (v: NotificationView)
    ensures v.Hidden? <==> !isOpen
    ensures v.Shown? ==> v.stale == OldPasswords(passwords, now) && v.count == |v.stale|
    ensures v.Shown? ==> (v.suffix == "s" <==> v.count > 1)
  {
    if !isOpen then Hidden
    else
      var stale := OldPasswords(passwords, now);
      Shown(|stale|, Plural(|stale|), stale)
  }

  /** The callbacks a click in the dialog makes, in order. */
  datatype ModalEvent = SelectPassword(id: string) | Close

  /** "Revisar" on an entry: select it by id, then close the dialog. */
  function SelectOld(p: PasswordEntry): (events: seq<ModalEvent>)
    ensures |events| == 2 && events[0] == SelectPassword(p.id) && events[1] == Close
  {
    [SelectPassword(p.id), Close]
  }

  /** What the banner shows: the count, the first entries, and how many more there are. */
  datatype BannerView = BannerView(count: nat, suffix: string, listed: seq<PasswordEntry>, more: Option<nat>)

  /** `ReminderBanner`: `None` (renders null) without old entries; else the first three and the overflow line. */
  function ReminderBanner(passwords: seq<PasswordEntry>, now: int): (v: Option<BannerView>)
    ensures v.None? <==> OldPasswords(passwords, now) == []
    ensures v.Some? ==> v.value.count == |OldPasswords(passwords, now)| && (v.value.suffix == "s" <==> v.value.count > 1)
    ensures v.Some? ==> |v.value.listed| <= BANNER_LIMIT && v.value.listed <= OldPasswords(passwords, now)
    ensures v.Some? ==> (v.value.more.Some? <==> v.value.count > BANNER_LIMIT)
    ensures v.Some? && v.value.more.Some? ==> v.value.more.value == v.value.count - BANNER_LIMIT
  {
    var stale := OldPasswords(passwords, now);
    if |stale| == 0 then None
    else
      var listed := if |stale| <= BANNER_LIMIT then stale else stale[..BANNER_LIMIT];
      Some(BannerView(|stale|, Plural(|stale|), listed, if |stale| > BANNER_LIMIT then Some(|stale| - BANNER_LIMIT) else None))
  }

  /** The banner accounts for every old entry: those listed plus the overflow count is the total, and with three or fewer all are listed. */
  lemma BannerAccountsForAll(passwords: seq<PasswordEntry>, now: int)
    requires ReminderBanner(passwords, now).Some?
    ensures var v := ReminderBanner(passwords, now).value;
            |v.listed| + v.more.GetOr(0) == v.count
    ensures var v := ReminderBanner(passwords, now).value;
            v.count <= BANNER_LIMIT ==> v.listed == OldPasswords(passwords, now)
  {
  }

  /** The app's bell indicator: some entry is old. */
  predicate HasNotifications(passwords: seq<PasswordEntry>, now: int) {
    exists p :: p in passwords && IsOld(p, now)
  }

  /** The bell lights exactly when the banner would show and the open dialog would list something. */
  lemma BellAgreesWithBannerAndDialog(passwords: seq<PasswordEntry>, now: int)
    ensures HasNotifications(passwords, now) <==> ReminderBanner(passwords, now).Some?
    ensures HasNotifications(passwords, now) <==> NotificationModal(true, passwords, now).count > 0
  {
    var stale := OldPasswords(passwords, now);
    if HasNotifications(passwords, now) {
      var p :| p in passwords && IsOld(p, now);
      assert p in stale;
    }
    if stale != [] {
      assert stale[0] in stale;
    }
  }
}
