/** The per-user access-window store kept in the bot's key-value namespace
    (index.js lines 21-68 and the tutorial-video write at line 249).

    Times are integer milliseconds since the Unix epoch; the current time is
    a parameter. The namespace is a map from key to entry: a user record
    under `user_<id>`, an opaque string under the configuration key. The
    functions on maps below say what each operation does to the namespace;
    the class `Store` holds the namespace and performs the operations in
    place, proved against those functions. */
module UserStore {
  import opened Wrappers
  import opened Keys

  /** The length of one access window: `24 * 60 * 60 * 1000` ms. */
  const AccessWindowMs: int := 24 * 60 * 60 * 1000

  /** `new Date(0)`, the expiry of a user who never had access. */
  const Epoch: int := 0

  /** What the platform says about a user; either name may be missing. */
  datatype UserDetails = UserDetails(username: Option<string>, firstName: Option<string>)

  /** A stored user record. `accessExpires` and `joinDate` are the ISO-8601
      strings of the source read as milliseconds. */
  datatype UserRecord = UserRecord(
    id: int,
    username: string,
    firstName: string,
    accessExpires: int,
    joinDate: int,
    totalAccessGrants: nat)

  /** A value in the namespace. */
  datatype Entry = UserEntry(user: UserRecord) | ConfigEntry(value: string)

  type Namespace = map<string, Entry>

  /** The shape every operation keeps: user keys hold the record of the user
      they name, and the only other key is the configuration key, holding a
      string. */
  ghost predicate WellFormed(kv: Namespace) {
    forall k :: k in kv ==>
      if IsUserKey(k) then kv[k].UserEntry? && UserKey(kv[k].user.id) == k
      else k == TutorialVideoKey && kv[k].ConfigEntry?
  }

  /** The record stored for user `id`, if any. */
  function Lookup(kv: Namespace, id: int): Option<UserRecord> {
    var key := UserKey(id);
    if key in kv && kv[key].UserEntry? then Some(kv[key].user) else None
  }

  /** The tutorial video reference, if one was stored. */
  function TutorialVideo(kv: Namespace): Option<string> {
    if TutorialVideoKey in kv && kv[TutorialVideoKey].ConfigEntry?
    then Some(kv[TutorialVideoKey].value) else None
  }

  /** Whether user `id` may request videos at time `now`: there is a record
      and its expiry lies strictly after `now`. */
  predicate AccessActive(kv: Namespace, id: int, now: int) {
    Lookup(kv, id).Some? && Lookup(kv, id).value.accessExpires > now
  }

  /** The record `getOrCreateUser` writes for a newcomer: missing names
      become empty strings, no access (expiry at the epoch), joined now,
      no grants yet. */
  function NewUser(id: int, details: UserDetails, now: int): UserRecord {
    UserRecord(id, details.username.GetOr(""), details.firstName.GetOr(""), Epoch, now, 0)
  }

  /** The namespace after `getOrCreateUser(id)`: unchanged when the user has
      a record, otherwise with the new record added. */
  function WithUser(kv: Namespace, id: int, details: UserDetails, now: int): Namespace {
    if UserKey(id) in kv then kv else kv[UserKey(id) := UserEntry(NewUser(id, details, now))]
  }

  /** What `grant24HourAccess` does to a record: the window restarts at
      `now` (whatever the old expiry) and the grant counter goes up by one. */
  function Renewed(u: UserRecord, now: int): UserRecord {
    u.(accessExpires := now + AccessWindowMs, totalAccessGrants := u.totalAccessGrants + 1)
  }

  /** The namespace after a successful `grant24HourAccess(id)`. */
  function WithGrant(kv: Namespace, id: int, now: int): Namespace
    requires Lookup(kv, id).Some?
  {
    kv[UserKey(id) := UserEntry(Renewed(Lookup(kv, id).value, now))]
  }

  /** The namespace after the admin stores a tutorial video reference. */
  function WithTutorialVideo(kv: Namespace, fileId: string): Namespace {
    kv[TutorialVideoKey := ConfigEntry(fileId)]
  }

  // ---------------------------------------------------------------------
  // Properties of the operations
  // ---------------------------------------------------------------------

  /** Creating a record keeps the namespace well formed. */
  lemma {:induction false} WithUserKeepsWellFormed(kv: Namespace, id: int, details: UserDetails, now: int)
    requires WellFormed(kv)
    ensures WellFormed(WithUser(kv, id, details, now))
  {
    UserKeyRoundTrip(id);
  }

  /** A grant keeps the namespace well formed. */
  lemma {:induction false} WithGrantKeepsWellFormed(kv: Namespace, id: int, now: int)
    requires WellFormed(kv)
    requires Lookup(kv, id).Some?
    ensures WellFormed(WithGrant(kv, id, now))
  {
    UserKeyRoundTrip(id);
  }

  /** Storing the tutorial video keeps the namespace well formed. */
  lemma {:induction false} WithTutorialVideoKeepsWellFormed(kv: Namespace, fileId: string)
    requires WellFormed(kv)
    ensures WellFormed(WithTutorialVideo(kv, fileId))
  {
    TutorialKeyIsNotUserKey(0);
  }

  /** In a well-formed namespace a user key always holds a record, so
      "the key is present" and "there is a record" mean the same. */
  lemma {:induction false} UserKeyHoldsRecord(kv: Namespace, id: int)
    requires WellFormed(kv)
    ensures UserKey(id) in kv <==> Lookup(kv, id).Some?
  {
    UserKeyRoundTrip(id);
  }

  /** A newcomer's record has an expired window and no grants, so the user
      has no access at any time from the epoch on. */
  lemma {:induction false} NewcomerHasNoAccess(kv: Namespace, id: int, details: UserDetails, now: int, t: int)
    requires Lookup(kv, id).None?
    requires WellFormed(kv)
    requires t >= Epoch
    ensures Lookup(WithUser(kv, id, details, now), id) == Some(NewUser(id, details, now))
    ensures NewUser(id, details, now).totalAccessGrants == 0
    ensures !AccessActive(WithUser(kv, id, details, now), id, t)
  {
    UserKeyHoldsRecord(kv, id);
  }

  /** After a grant at `now` the user has access exactly during
      `[now, now + 24h)`: the window ends at the expiry instant. */
  lemma AccessWindowAfterGrant(kv: Namespace, id: int, now: int, t: int)
    requires Lookup(kv, id).Some?
    ensures AccessActive(WithGrant(kv, id, now), id, t) <==> t < now + AccessWindowMs
  {
  }

  /** Grants do not stack: two grants at `t1` and then `t2` leave the expiry
      at `t2 + 24h`, and the counter two higher. */
  lemma GrantsDoNotStack(kv: Namespace, id: int, t1: int, t2: int)
    requires Lookup(kv, id).Some?
    ensures Lookup(WithGrant(kv, id, t1), id).Some?
    ensures var u := Lookup(kv, id).value;
            Lookup(WithGrant(WithGrant(kv, id, t1), id, t2), id)
              == Some(u.(accessExpires := t2 + AccessWindowMs, totalAccessGrants := u.totalAccessGrants + 2))
  {
  }

  /** A grant rewrites only the user's own record, and of it only the
      expiry and the counter; the record's identity, names and join date,
      other users' records and the tutorial video stay as they were. */
  lemma {:induction false} GrantTouchesOnlyItsUser(kv: Namespace, id: int, now: int, other: int)
    requires Lookup(kv, id).Some?
    requires other != id
    ensures var u, v := Lookup(kv, id).value, Lookup(WithGrant(kv, id, now), id).value;
            v.id == u.id && v.username == u.username && v.firstName == u.firstName && v.joinDate == u.joinDate
    ensures Lookup(WithGrant(kv, id, now), other) == Lookup(kv, other)
    ensures TutorialVideo(WithGrant(kv, id, now)) == TutorialVideo(kv)
  {
    UserKeyInjective(id, other);
    TutorialKeyIsNotUserKey(id);
  }

  /** Creating a record leaves every other user's record and the tutorial
      video unchanged. */
  lemma {:induction false} CreateTouchesOnlyItsUser(kv: Namespace, id: int, details: UserDetails, now: int, other: int)
    requires other != id
    ensures Lookup(WithUser(kv, id, details, now), other) == Lookup(kv, other)
    ensures TutorialVideo(WithUser(kv, id, details, now)) == TutorialVideo(kv)
  {
    UserKeyInjective(id, other);
    TutorialKeyIsNotUserKey(id);
  }

  /** Storing the tutorial video changes no user's record. */
  lemma {:induction false} TutorialVideoTouchesNoUser(kv: Namespace, fileId: string, id: int)
    ensures Lookup(WithTutorialVideo(kv, fileId), id) == Lookup(kv, id)
    ensures TutorialVideo(WithTutorialVideo(kv, fileId)) == Some(fileId)
  {
    TutorialKeyIsNotUserKey(id);
  }

  /** Every stored expiry lies at most one window after `now`. */
  ghost predicate ExpiriesWithinWindow(kv: Namespace, now: int) {
    forall k :: k in kv && kv[k].UserEntry? ==> kv[k].user.accessExpires <= now + AccessWindowMs
  }

  /** With a clock that does not go backwards, every write (creation, a
      grant, the tutorial video) keeps every expiry within one window of
      the clock, and therefore a grant never moves a user's expiry
      backwards. */
  lemma {:induction false} GrantNeverShortensWindow(kv: Namespace, id: int, details: UserDetails, fileId: string, before: int, now: int)
    requires ExpiriesWithinWindow(kv, before)
    requires Epoch <= before <= now
    ensures ExpiriesWithinWindow(kv, now)
    ensures ExpiriesWithinWindow(WithUser(kv, id, details, now), now)
    ensures Lookup(kv, id).Some? ==> ExpiriesWithinWindow(WithGrant(kv, id, now), now)
    ensures ExpiriesWithinWindow(WithTutorialVideo(kv, fileId), now)
    ensures Lookup(kv, id).Some? ==>
              Lookup(WithGrant(kv, id, now), id).value.accessExpires >= Lookup(kv, id).value.accessExpires
  {
    if Lookup(kv, id).Some? {
      assert kv[UserKey(id)].UserEntry?;
    }
  }

  // ---------------------------------------------------------------------
  // The store
  // ---------------------------------------------------------------------

  /** The key-value namespace, updated in place by the operations. */
  class Store {
    var kv: Namespace

    ghost predicate Valid()
      reads this
    {
      WellFormed(kv)
    }

    /** An empty namespace. */
    constructor ()
      ensures Valid() && kv == map[]
    {
      kv := map[];
    }

    /** `getOrCreateUser` (index.js:21-41): the stored record when there is
        one, with nothing written; otherwise a newcomer record, written once
        under the user's key. */
    method GetOrCreateUser(id: int, details: UserDetails, now: int) returns (u: UserRecord)
      requires Valid()
      modifies this
      ensures Valid()
      ensures kv == WithUser(old(kv), id, details, now)
      ensures Lookup(kv, id) == Some(u)
      ensures UserKey(id) in old(kv) ==> kv == old(kv) && Lookup(old(kv), id) == Some(u)
      ensures UserKey(id) !in old(kv) ==> u == NewUser(id, details, now)
    {
      var key := UserKey(id);
      WithUserKeepsWellFormed(kv, id, details, now);
      UserKeyRoundTrip(id);
      if key in kv {
        u := kv[key].user;
        return;
      }
      u := UserRecord(id, details.username.GetOr(""), details.firstName.GetOr(""), Epoch, now, 0);
      kv := kv[key := UserEntry(u)];
    }

    /** `hasAccess` (index.js:43-51): false without a record, otherwise
        whether the stored expiry is strictly later than `now`. */
    method HasAccess(id: int, now: int) returns (b: bool)
      requires Valid()
      ensures b <==> (UserKey(id) in kv && kv[UserKey(id)].user.accessExpires > now)
      ensures b <==> AccessActive(kv, id, now)
    {
      var key := UserKey(id);
      UserKeyHoldsRecord(kv, id);
      if key !in kv {
        return false;
      }
      var user := kv[key].user;
      b := user.accessExpires > now;
    }

    /** `grant24HourAccess` (index.js:53-64). With a record, its expiry is
        set to `now + 24h` and its counter incremented, and it is written
        back. Without one the source dereferences `null` and throws before
        writing: `ok` is false and nothing changes. */
    method Grant24HourAccess(id: int, now: int) returns (ok: bool)
      requires Valid()
      modifies this
      ensures Valid()
      ensures ok <==> Lookup(old(kv), id).Some?
      ensures ok ==> kv == WithGrant(old(kv), id, now)
      ensures !ok ==> kv == old(kv)
    {
      var key := UserKey(id);
      UserKeyHoldsRecord(kv, id);
      if key !in kv {
        return false;
      }
      WithGrantKeepsWellFormed(kv, id, now);
      var user := kv[key].user;
      var newExpiryTime := now + AccessWindowMs;
      user := user.(accessExpires := newExpiryTime);
      user := user.(totalAccessGrants := user.totalAccessGrants + 1);
      kv := kv[key := UserEntry(user)];
      ok := true;
    }

    /** `getTutorialVideoFileId` (index.js:66-68): the stored reference, or
        `None` for the `null` of a missing key. */
    method GetTutorialVideoFileId() returns (fileId: Option<string>)
      requires Valid()
      ensures fileId.Some? <==> TutorialVideoKey in kv
      ensures fileId.Some? ==> kv[TutorialVideoKey] == ConfigEntry(fileId.value)
    {
      TutorialKeyIsNotUserKey(0);
      if TutorialVideoKey in kv {
        fileId := Some(kv[TutorialVideoKey].value);
      } else {
        fileId := None;
      }
    }

    /** The `put` of the tutorial video reference (index.js:249): only the
        configuration key changes. */
    method SetTutorialVideo(fileId: string)
      requires Valid()
      modifies this
      ensures Valid()
      ensures kv == WithTutorialVideo(old(kv), fileId)
    {
      WithTutorialVideoKeepsWellFormed(kv, fileId);
      kv := kv[TutorialVideoKey := ConfigEntry(fileId)];
    }
  }
}
