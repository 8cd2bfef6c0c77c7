/**
 * The settings controller: reading, overwriting and resetting an account's
 * profile and settings block, exporting its data and deleting its records.
 */
module SettingsController {
  import opened Wrappers
  import opened Models

  /**
   * How a handler ends: a JSON reply with a message, or no reply at all when
   * it throws (the handlers have no `try`, so the request is left unanswered).
   */
  datatype Outcome = Replied(message: string) | NoReply

  /** The body `getSettings` sends: the profile without the password, and the settings block. */
  datatype SettingsView = SettingsView(
    name: string,
    email: string,
    role: string,
    notifications: Notifications,
    theme: string)

  /** The view of one account. */
  function ViewOf(u: User): SettingsView {
    SettingsView(u.name, u.email, u.role, u.settings.notifications, u.settings.theme)
  }

  /**
   * `getSettings`: the view of the requester's account; None when the
   * account is gone and reading its fields throws.
   */
  function GetSettings(db: Database, id: UserId): (r: Option<SettingsView>)
    reads db
    ensures r.Some? <==> id in db.users
    ensures r.Some? ==> r.value.name == db.users[id].name && r.value.email == db.users[id].email
                        && r.value.role == db.users[id].role && r.value.theme == db.users[id].settings.theme
                        && r.value.notifications == db.users[id].settings.notifications
  {
    if id in db.users then Some(ViewOf(db.users[id])) else None
  }

  /** The password is never part of the view: accounts that differ only in it look the same. */
  lemma PasswordNotShown(u: User, password: string)
    ensures ViewOf(u.(password := password)) == ViewOf(u)
  {
  }

  /** The `profile` object of an update request; a missing field is `undefined`. */
  datatype ProfileInput = ProfileInput(name: Option<string>, email: Option<string>, role: Option<string>)

  /** The body of an update request. */
  datatype SettingsInput = SettingsInput(
    profile: Option<ProfileInput>,
    notifications: Option<Notifications>,
    theme: Option<string>)

  /**
   * The account after `findByIdAndUpdate` with the five paths of the
   * request; Mongoose drops the paths whose value is `undefined`, so those
   * keep their stored value.
   */
  function Updated(u: User, p: ProfileInput, notifications: Option<Notifications>, theme: Option<string>): (v: User)
    ensures v.password == u.password
    ensures v.name == p.name.GetOr(u.name) && v.email == p.email.GetOr(u.email) && v.role == p.role.GetOr(u.role)
    ensures v.settings == UserSettings(theme.GetOr(u.settings.theme), notifications.GetOr(u.settings.notifications))
  {
    User(p.name.GetOr(u.name), p.email.GetOr(u.email), u.password, p.role.GetOr(u.role),
         UserSettings(theme.GetOr(u.settings.theme), notifications.GetOr(u.settings.notifications)))
  }

  /** A complete update is read back exactly, whatever the account held before. */
  lemma UpdateReadBack(u: User, name: string, email: string, role: string, n: Notifications, theme: string)
    ensures ViewOf(Updated(u, ProfileInput(Some(name), Some(email), Some(role)), Some(n), Some(theme)))
         == SettingsView(name, email, role, n, theme)
  {
  }

  /** An update that supplies nothing leaves the account as it was. */
  lemma EmptyUpdateChangesNothing(u: User)
    ensures Updated(u, ProfileInput(None, None, None), None, None) == u
  {
  }

  /**
   * The unique index on `email`: the update would give the requester's
   * account an address another account holds, so the store refuses it.
   */
  predicate EmailTaken(users: map<UserId, User>, id: UserId, p: ProfileInput) {
    && id in users && p.email.Some?
    && exists other :: other in users && other != id && users[other].email == p.email.value
  }

  /** No two accounts share an email address. */
  ghost predicate UniqueEmails(users: map<UserId, User>) {
    forall a, b :: a in users && b in users && a != b ==> users[a].email != users[b].email
  }

  /**
   * `updateSettings`: writes name, email, role, notifications and theme of
   * the requester's account. Without a `profile` object reading its fields
   * throws before anything is written; an email another account holds makes
   * the write fail. Either way the handler has no `try`, so no reply is
   * sent. A missing account is not an error.
   */
  method UpdateSettings(db: Database, id: UserId, body: SettingsInput) returns (out: Outcome)
    modifies db
    ensures db.resumes == old(db.resumes)
    ensures body.profile.None? ==> out == NoReply && db.users == old(db.users)
    ensures body.profile.Some? && EmailTaken(old(db.users), id, body.profile.value) ==>
      out == NoReply && db.users == old(db.users)
    ensures body.profile.Some? && !EmailTaken(old(db.users), id, body.profile.value) ==>
      out == Replied("Settings updated")
    ensures body.profile.Some? && !EmailTaken(old(db.users), id, body.profile.value) && id in old(db.users) ==>
      db.users == old(db.users)[id := Updated(old(db.users)[id], body.profile.value, body.notifications, body.theme)]
    ensures id !in old(db.users) ==> db.users == old(db.users)
  {
    if body.profile.None? {
      return NoReply;
    }
    if EmailTaken(db.users, id, body.profile.value) {
      return NoReply;
    }
    if id in db.users {
      db.users := db.users[id := Updated(db.users[id], body.profile.value, body.notifications, body.theme)];
    }
    out := Replied("Settings updated");
  }

  /** An update the unique index lets through keeps every email address held by one account only. */
  lemma UpdateKeepsEmailsUnique(users: map<UserId, User>, id: UserId, p: ProfileInput, n: Option<Notifications>, t: Option<string>)
    requires UniqueEmails(users) && id in users && !EmailTaken(users, id, p)
    ensures UniqueEmails(users[id := Updated(users[id], p, n, t)])
  {
    var after := users[id := Updated(users[id], p, n, t)];
    forall a, b | a in after && b in after && a != b
      ensures after[a].email != after[b].email
    {
      if a == id || b == id {
        var other := if a == id then b else a;
        assert after[other] == users[other];
        if p.email.Some? {
          assert !(other in users && other != id && users[other].email == p.email.value);
        }
      }
    }
  }

  /** The account with its settings block replaced by the schema defaults. */
  function Reset(u: User): (v: User)
    ensures v.settings == DEFAULT_SETTINGS
    ensures v.name == u.name && v.email == u.email && v.role == u.role && v.password == u.password
  {
    u.(settings := UserSettings("light", Notifications(false, false, false, false)))
  }

  /** Resetting twice is resetting once. */
  lemma ResetIdempotent(u: User)
    ensures Reset(Reset(u)) == Reset(u)
  {
  }

  /** The result of a reset does not depend on the settings held before. */
  lemma ResetForgetsSettings(u: User, s: UserSettings)
    ensures Reset(u.(settings := s)) == Reset(u)
  {
  }

  /** A reset undoes any settings update and keeps the profile it wrote. */
  lemma ResetAfterUpdate(u: User, p: ProfileInput, n: Option<Notifications>, t: Option<string>)
    ensures Reset(Updated(u, p, n, t)).settings == DEFAULT_SETTINGS
    ensures Reset(Updated(u, p, n, t)).name == Updated(u, p, n, t).name
  {
  }

  /**
   * `resetSettings`: the requester's settings block becomes theme "light"
   * with every notification off; nothing else changes.
   */
  method ResetSettings(db: Database, id: UserId) returns (out: Outcome)
    modifies db
    ensures out == Replied("Settings reset")
    ensures db.resumes == old(db.resumes)
    ensures id in old(db.users) ==> db.users == old(db.users)[id := Reset(old(db.users)[id])]
    ensures id !in old(db.users) ==> db.users == old(db.users)
  {
    if id in db.users {
      db.users := db.users[id := Reset(db.users[id])];
    }
    out := Replied("Settings reset");
  }

  /** A record that survives deleting `id`'s data. */
  predicate NotOwnedBy(id: UserId, r: Resume) {
    r.owner != id
  }

  /**
   * `deleteAllData`: removes every record of the requester and keeps every
   * other record, in order.
   */
  method DeleteAllData(db: Database, id: UserId) returns (out: Outcome)
    modifies db
    ensures out == Replied("All resume data deleted")
    ensures db.users == old(db.users)
    ensures forall r :: r in db.resumes <==> r in old(db.resumes) && r.owner != id
    ensures db.resumes == Kept(old(db.resumes), id)
  {
    db.resumes := Kept(db.resumes, id);
    out := Replied("All resume data deleted");
  }

  /** The records kept when `id`'s data is deleted. */
  function Kept(rs: seq<Resume>, id: UserId): seq<Resume> {
    Filter(rs, (r: Resume) => NotOwnedBy(id, r))
  }

  /** After deleting `id`'s data, `id` owns no record. */
  lemma DeleteLeavesNothing(rs: seq<Resume>, id: UserId)
    ensures OwnedBy(Kept(rs, id), id) == []
  {
  }

  /** Deleting `id`'s data leaves every other user's records exactly as they were, in order. */
  lemma {:induction false} DeleteKeepsOthers(rs: seq<Resume>, id: UserId, user: UserId)
    requires user != id
    ensures OwnedBy(Kept(rs, id), user) == OwnedBy(rs, user)
  {
    if rs != [] {
      var init, last := rs[..|rs| - 1], rs[|rs| - 1];
      DeleteKeepsOthers(init, id, user);
      var k0 := Kept(init, id);
      assert Kept(rs, id) == if last.owner != id then k0 + [last] else k0;
      if last.owner != id {
        assert (k0 + [last])[..|k0 + [last]| - 1] == k0;
        assert OwnedBy(k0 + [last], user) == if last.owner == user then OwnedBy(k0, user) + [last] else OwnedBy(k0, user);
      }
      assert OwnedBy(rs, user) == if last.owner == user then OwnedBy(init, user) + [last] else OwnedBy(init, user);
    }
  }

  /** The body of `exportData`: the account document and the requester's records. */
  datatype Export = Export(user: Option<User>, resumes: seq<Resume>)

  /**
   * `exportData`: the stored account, password hash included (null when it
   * is gone), and exactly the requester's records.
   */
  function ExportData(db: Database, id: UserId): (e: Export)
    reads db
    ensures e.user.Some? <==> id in db.users
    ensures e.user.Some? ==> e.user.value == db.users[id]
    ensures forall r :: r in e.resumes <==> r in db.resumes && r.owner == id
    ensures forall i :: 0 <= i < |e.resumes| ==> e.resumes[i].owner == id
    ensures forall r :: multiset(e.resumes)[r] == if r.owner == id then multiset(db.resumes)[r] else 0
    ensures e.resumes == OwnedBy(db.resumes, id)
  {
    var mine := OwnedBy(db.resumes, id);
    assert forall i :: 0 <= i < |mine| ==> mine[i] in mine;
    Export(if id in db.users then Some(db.users[id]) else None, mine)
  }
}
