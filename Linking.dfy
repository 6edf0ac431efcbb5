/**
 * Identity binding: the passport verify callback (library.js:227-311) with `login`
 * (library.js:329-358), `updateProfile` (library.js:366-391),
 * `getUidByEveOnlineSsoId` (library.js:478-486) and `deleteUserData`
 * (library.js:489-506).
 *
 * The state is the 'eveonlinessoid:uid' hash (link key -> uid), each account's
 * 'eveonlinessoid' and 'fullname' user fields, the accounts NodeBB knows (uid ->
 * username) and NodeBB's uid allocator. Each step is first given as a function from
 * the old state to the outcome and the new state; the class LinkStore performs the
 * same steps on fields and is proved to agree with those functions.
 */
module Linking {
  import opened Basics
  import opened Keys
  import opened Profile

  type Uid = nat

  datatype LinkState = LinkState(
    index: map<string, Uid>,     // the 'eveonlinessoid:uid' hash
    field: map<Uid, string>,     // each account's 'eveonlinessoid' user field
    fullname: map<Uid, string>,  // each account's 'fullname' user field
    accounts: map<Uid, string>,  // the username of each account
    nextUid: Uid)                // the uid user.create hands out next

  /** The two plugin settings the callback reads. */
  datatype Settings = Settings(allowAccountTransfers: bool, mapGroups: string)

  datatype LinkError =
    | EnrichmentFailed(cause: EnrichError)
    | IdentityAlreadyClaimed     // library.js:269-270
    | IdentityMismatch           // library.js:283-284 (same message in the source)
    | AccountCreationFailed      // library.js:348-349

  /** The call to syncUserGroups that updateProfile makes when group mapping is on. */
  datatype SyncRequest = SyncRequest(uid: Uid, corporationName: string, titles: seq<Title>)

  /** A successful callback: the account, whether a login was started, the group sync. */
  datatype Bound = Bound(uid: Uid, loggedIn: bool, sync: Option<SyncRequest>)

  /**
   * The invariant of the link store: every uid belongs to an account below the
   * allocator, no key is empty, and every index entry k -> u is mirrored by u's
   * field holding k. The converse need not hold: a transfer leaves the former
   * holder's field in place.
   */
  predicate Valid(s: LinkState) {
    && s.nextUid > 0
    && (forall u :: u in s.accounts ==> 0 < u < s.nextUid)
    && s.field.Keys <= s.accounts.Keys
    && s.fullname.Keys <= s.accounts.Keys
    && "" !in s.index
    && (forall k :: k in s.index ==> s.index[k] in s.accounts)
    && (forall k :: k in s.index ==> s.index[k] in s.field && s.field[s.index[k]] == k)
  }

  /** `req.user.uid > 0` (library.js:236). */
  predicate LoggedIn(session: Option<int>) {
    session.Some? && session.value > 0
  }

  /** A signed-in session names an existing account. */
  predicate SessionValid(s: LinkState, session: Option<int>) {
    LoggedIn(session) ==> session.value as nat in s.accounts
  }

  /** getUserField(uid, 'eveonlinessoid'), with null and '' both read as "no key". */
  function StoredKey(s: LinkState, uid: Uid): string {
    if uid in s.field then s.field[uid] else ""
  }

  /** getUidByEveOnlineSsoId: the uid the index holds for a key, if any. */
  function LinkedUid(s: LinkState, key: string): Option<Uid> {
    if key in s.index then Some(s.index[key]) else None
  }

  /** login: reuse the linked account, or create one named after the character. */
  function AfterLogin(s: LinkState, key: string, characterName: string, createOk: bool)
    : (Result<Uid, LinkError>, LinkState)
  {
    var linked := LinkedUid(s, key);
    if linked.Some? then
      (Ok(linked.value), s)
    else if !createOk then
      (Err(AccountCreationFailed), s)
    else
      (Ok(s.nextUid),
       s.(accounts := s.accounts[s.nextUid := characterName], nextUid := s.nextUid + 1))
  }

  /** updateProfile: the user fields, then the index entry for the key. */
  function AfterUpdateProfile(s: LinkState, uid: Uid, key: string, id: Identity): LinkState {
    s.(fullname := s.fullname[uid := id.characterName],
       field := s.field[uid := key],
       index := s.index[key := uid])
  }

  /** The last step of updateProfile: group sync only when mapGroups is 'on'. */
  function SyncFor(settings: Settings, uid: Uid, id: Identity): Option<SyncRequest> {
    if settings.mapGroups == "on" then Some(SyncRequest(uid, id.corporationName, id.titles)) else None
  }

  /** A success path: updateProfile for uid, then done(null, user). */
  function Bind(s: LinkState, uid: Uid, key: string, id: Identity, settings: Settings, loggedIn: bool)
    : (Result<Bound, LinkError>, LinkState)
  {
    (Ok(Bound(uid, loggedIn, SyncFor(settings, uid, id))), AfterUpdateProfile(s, uid, key, id))
  }

  /** The decisions of the verify callback once the profile is complete. */
  function AfterResolve(s: LinkState, session: Option<int>, settings: Settings, id: Identity, createOk: bool)
    : (Result<Bound, LinkError>, LinkState)
  {
    var key := LinkKey(id.characterId, id.ownerHash);
    if LoggedIn(session) then
      var uid := session.value as nat;
      var stored := StoredKey(s, uid);
      if settings.allowAccountTransfers then
        var s1 := if stored != "" && stored != key then s.(index := s.index - {stored}) else s;
        Bind(s1, uid, key, id, settings, false)
      else if stored == "" then
        if key in s.index && s.index[key] != uid then (Err(IdentityAlreadyClaimed), s)
        else Bind(s, uid, key, id, settings, false)
      else if stored != key then
        (Err(IdentityMismatch), s)
      else
        Bind(s, uid, key, id, settings, false)
    else
      var (r, s1) := AfterLogin(s, key, id.characterName, createOk);
      match r
      case Err(e) => (Err(e), s1)
      case Ok(uid) => Bind(s1, uid, key, id, settings, true)
  }

  /** The whole verify callback: completeProfile, then the binding decisions. */
  function AfterVerify(
    s: LinkState, session: Option<int>, settings: Settings, p: RawProfile,
    character: Lookup<CharacterRecord>, corporation: Lookup<string>,
    titles: Lookup<Option<seq<Title>>>, createOk: bool)
    : (Result<Bound, LinkError>, LinkState)
  {
    var e := Enrich(p, character, corporation, titles);
    match e.outcome
    case Err(cause) => (Err(EnrichmentFailed(cause)), s)
    case Ok(id) => AfterResolve(s, session, settings, id, createOk)
  }

  /** deleteUserData: drop the index entry under the account's stored key. */
  function AfterDeleteUserData(s: LinkState, uid: Uid): LinkState {
    if uid in s.field then s.(index := s.index - {s.field[uid]}) else s
  }

  // ---------------------------------------------------------------------------
  // Properties of the binding decisions
  // ---------------------------------------------------------------------------

  /** Under the invariant an account is linked under at most one key. */
  lemma LinksAreOneToOne(s: LinkState, k1: string, k2: string)
    requires Valid(s) && k1 in s.index && k2 in s.index && s.index[k1] == s.index[k2]
    ensures k1 == k2
  {
  }

  /** Binding keeps the invariant when key is the only key that may point at uid. */
  lemma BindKeepsValid(s: LinkState, uid: Uid, key: string, id: Identity)
    requires Valid(s) && uid in s.accounts && key != ""
    requires forall k :: k in s.index && s.index[k] == uid ==> k == key
    ensures Valid(AfterUpdateProfile(s, uid, key, id))
  {
    var t := AfterUpdateProfile(s, uid, key, id);
    forall k | k in t.index
      ensures t.index[k] in t.field && t.field[t.index[k]] == k
    {
      if k != key {
        assert t.index[k] == s.index[k] != uid;
      }
    }
  }

  /** Every step of the verify callback keeps the invariant. */
  lemma VerifyKeepsValid(
    s: LinkState, session: Option<int>, settings: Settings, p: RawProfile,
    character: Lookup<CharacterRecord>, corporation: Lookup<string>,
    titles: Lookup<Option<seq<Title>>>, createOk: bool)
    requires Valid(s) && SessionValid(s, session)
    ensures Valid(AfterVerify(s, session, settings, p, character, corporation, titles, createOk).1)
  {
    var e := Enrich(p, character, corporation, titles);
    if e.outcome.Ok? {
      var id := e.outcome.value;
      var key := LinkKey(id.characterId, id.ownerHash);
      LinkKeyNotEmpty(id.characterId, id.ownerHash);
      if LoggedIn(session) {
        var uid := session.value as nat;
        var stored := StoredKey(s, uid);
        if settings.allowAccountTransfers {
          var s1 := if stored != "" && stored != key then s.(index := s.index - {stored}) else s;
          assert Valid(s1);
          BindKeepsValid(s1, uid, key, id);
        } else if stored == "" || stored == key {
          BindKeepsValid(s, uid, key, id);
        }
      } else if key in s.index {
        BindKeepsValid(s, s.index[key], key, id);
      } else if createOk {
        var s1 := AfterLogin(s, key, id.characterName, createOk).1;
        assert Valid(s1);
        BindKeepsValid(s1, s.nextUid, key, id);
      }
    }
  }

  /** An incomplete profile or a failed lookup ends the callback with no change at all. */
  lemma FailedEnrichmentChangesNothing(
    s: LinkState, session: Option<int>, settings: Settings, p: RawProfile,
    character: Lookup<CharacterRecord>, corporation: Lookup<string>,
    titles: Lookup<Option<seq<Title>>>, createOk: bool)
    requires Enrich(p, character, corporation, titles).outcome.Err?
    ensures AfterVerify(s, session, settings, p, character, corporation, titles, createOk)
      == (Err(EnrichmentFailed(Enrich(p, character, corporation, titles).outcome.error)), s)
  {
  }

  /**
   * Anonymous login: a linked key signs in its account and creates nothing; an
   * unlinked key creates an account named after the character under a fresh uid,
   * unless user.create fails, which changes nothing. Either way a successful login
   * ends with the key and the account linked both ways.
   */
  lemma AnonymousLogin(s: LinkState, session: Option<int>, settings: Settings, id: Identity, createOk: bool)
    requires Valid(s) && !LoggedIn(session)
    ensures var key := LinkKey(id.characterId, id.ownerHash);
      var (r, t) := AfterResolve(s, session, settings, id, createOk);
      && (key in s.index ==>
            r == Ok(Bound(s.index[key], true, SyncFor(settings, s.index[key], id)))
            && t.accounts == s.accounts && t.nextUid == s.nextUid)
      && (key !in s.index && createOk ==>
            r == Ok(Bound(s.nextUid, true, SyncFor(settings, s.nextUid, id)))
            && s.nextUid !in s.accounts
            && t.accounts == s.accounts[s.nextUid := id.characterName])
      && (key !in s.index && !createOk ==> r == Err(AccountCreationFailed) && t == s)
      && (r.Ok? ==> t.index[key] == r.value.uid && t.field[r.value.uid] == key)
  {
  }

  /** Two sign-ins in sequence with the same unlinked identity create one account, not two. */
  lemma RepeatedLoginCreatesOneAccount(s: LinkState, settings: Settings, id: Identity)
    requires Valid(s)
    ensures var (r1, s1) := AfterResolve(s, None, settings, id, true);
      var (r2, s2) := AfterResolve(s1, None, settings, id, true);
      && r1.Ok? && r2.Ok? && r2.value.uid == r1.value.uid
      && s2.accounts == s1.accounts
      && |s1.accounts.Keys| <= |s.accounts.Keys| + 1
  {
    var key := LinkKey(id.characterId, id.ownerHash);
    if key !in s.index {
      assert s.nextUid !in s.accounts;
      assert AfterResolve(s, None, settings, id, true).1.accounts.Keys == s.accounts.Keys + {s.nextUid};
    }
  }

  /**
   * login reads the index before updateProfile writes it, and nothing orders two
   * callbacks: when a second sign-in with the same unlinked identity runs its login
   * before the first one's updateProfile, two accounts are created. Both fields then
   * hold the key, the index keeps the later one, and the invariant still holds.
   */
  lemma InterleavedLoginsCreateTwoAccounts(s: LinkState, id: Identity)
    requires Valid(s) && LinkKey(id.characterId, id.ownerHash) !in s.index
    ensures var key := LinkKey(id.characterId, id.ownerHash);
      var (r1, a1) := AfterLogin(s, key, id.characterName, true);
      var (r2, a2) := AfterLogin(a1, key, id.characterName, true);
      && r1.Ok? && r2.Ok? && r1.value != r2.value
      && r1.value !in s.accounts && r2.value !in s.accounts
      && var t := AfterUpdateProfile(AfterUpdateProfile(a2, r1.value, key, id), r2.value, key, id);
      && t.accounts.Keys == s.accounts.Keys + {r1.value, r2.value}
      && t.index[key] == r2.value
      && t.field[r1.value] == key && t.field[r2.value] == key
      && Valid(t)
  {
  }

  /**
   * Transfers disabled, user signed in: the callback fails exactly in the two
   * conflict cases (no key of the user's own and the key linked to another account;
   * a stored key different from this one), and a failure changes nothing.
   */
  lemma NoTransferConflicts(s: LinkState, session: Option<int>, settings: Settings, id: Identity, createOk: bool)
    requires LoggedIn(session) && !settings.allowAccountTransfers
    ensures var key := LinkKey(id.characterId, id.ownerHash);
      var uid := session.value as nat;
      var stored := StoredKey(s, uid);
      var (r, t) := AfterResolve(s, session, settings, id, createOk);
      && (stored == "" && key in s.index && s.index[key] != uid ==> r == Err(IdentityAlreadyClaimed))
      && (stored != "" && stored != key ==> r == Err(IdentityMismatch))
      && (r.Err? <==> (stored == "" && key in s.index && s.index[key] != uid) || (stored != "" && stored != key))
      && (r.Err? ==> t == s)
  {
  }

  /**
   * Transfers disabled, user signed in, no conflict: the account keeps or gains this
   * key, both directions of the link are written, no account is created, and every
   * other index entry and every other account's field stay as they were.
   */
  lemma NoTransferBinds(s: LinkState, session: Option<int>, settings: Settings, id: Identity, createOk: bool)
    requires LoggedIn(session) && !settings.allowAccountTransfers
    requires var key := LinkKey(id.characterId, id.ownerHash);
      var uid := session.value as nat;
      var stored := StoredKey(s, uid);
      stored == key || (stored == "" && (key !in s.index || s.index[key] == uid))
    ensures var key := LinkKey(id.characterId, id.ownerHash);
      var uid := session.value as nat;
      var (r, t) := AfterResolve(s, session, settings, id, createOk);
      && r == Ok(Bound(uid, false, SyncFor(settings, uid, id)))
      && t.index[key] == uid && t.field[uid] == key
      && t.accounts == s.accounts && t.nextUid == s.nextUid
      && (forall k :: k in s.index && k != key ==> k in t.index && t.index[k] == s.index[k])
      && (forall u :: u in s.field && u != uid ==> u in t.field && t.field[u] == s.field[u])
  {
  }

  /**
   * Transfers enabled, user signed in: the callback always succeeds; the user's
   * previous key leaves the index exactly when it is non-empty and differs from the
   * new key; the new key then points at the user whoever held it, and no other
   * index entry nor other account's field changes.
   */
  lemma TransferRebinds(s: LinkState, session: Option<int>, settings: Settings, id: Identity, createOk: bool)
    requires LoggedIn(session) && settings.allowAccountTransfers
    ensures var key := LinkKey(id.characterId, id.ownerHash);
      var uid := session.value as nat;
      var stored := StoredKey(s, uid);
      var (r, t) := AfterResolve(s, session, settings, id, createOk);
      && r == Ok(Bound(uid, false, SyncFor(settings, uid, id)))
      && t.index[key] == uid && t.field[uid] == key
      && (stored != "" && stored != key ==> stored !in t.index)
      && (forall k :: k in s.index && k != key && k != stored ==> k in t.index && t.index[k] == s.index[k])
      && (forall u :: u in s.field && u != uid ==> u in t.field && t.field[u] == s.field[u])
      && t.accounts == s.accounts
  {
  }

  /**
   * After a transfer the former holder keeps the key in its own field while the
   * index points at the new holder; deleting the former holder's data then removes
   * the new holder's link as well.
   */
  lemma TransferThenDeleteDropsLink(s: LinkState, a: Uid, b: int, settings: Settings, id: Identity)
    requires Valid(s) && settings.allowAccountTransfers && b > 0 && a != b as nat
    requires LinkKey(id.characterId, id.ownerHash) in s.index
    requires s.index[LinkKey(id.characterId, id.ownerHash)] == a
    ensures var key := LinkKey(id.characterId, id.ownerHash);
      var t := AfterResolve(s, Some(b), settings, id, true).1;
      && t.index[key] == b as nat && t.field[a] == key
      && key !in AfterDeleteUserData(t, a).index
  {
  }

  /** deleteUserData keeps the invariant and leaves the account without a link. */
  lemma DeleteUserDataUnlinks(s: LinkState, uid: Uid)
    requires Valid(s)
    ensures var t := AfterDeleteUserData(s, uid);
      && Valid(t)
      && (forall k :: k in t.index ==> t.index[k] != uid)
      && t.field == s.field && t.accounts == s.accounts
  {
    var t := AfterDeleteUserData(s, uid);
    forall k | k in t.index
      ensures t.index[k] != uid
    {
      assert s.index[k] in s.field && s.field[s.index[k]] == k;
    }
  }

  // ---------------------------------------------------------------------------
  // The store, updated in place
  // ---------------------------------------------------------------------------

  class LinkStore {
    var index: map<string, Uid>
    var field: map<Uid, string>
    var fullname: map<Uid, string>
    var accounts: map<Uid, string>
    var nextUid: Uid

    function State(): LinkState
      reads this
    {
      LinkState(index, field, fullname, accounts, nextUid)
    }

    constructor ()
      ensures State() == LinkState(map[], map[], map[], map[], 1)
      ensures Valid(State())
    {
      index, field, fullname, accounts, nextUid := map[], map[], map[], map[], 1;
    }

    method GetUidByEveOnlineSsoId(key: string) returns (uid: Option<Uid>)
      ensures uid == LinkedUid(State(), key)
      ensures uid.Some? <==> key in index
      ensures uid.Some? ==> index[key] == uid.value
    {
      if key in index {
        uid := Some(index[key]);
      } else {
        uid := None;
      }
    }

    method GetStoredKey(uid: Uid) returns (key: string)
      ensures key == StoredKey(State(), uid)
    {
      key := if uid in field then field[uid] else "";
    }

    method Login(key: string, characterName: string, createOk: bool) returns (r: Result<Uid, LinkError>)
      modifies this
      ensures (r, State()) == AfterLogin(old(State()), key, characterName, createOk)
    {
      var linked := GetUidByEveOnlineSsoId(key);
      if linked.Some? {
        r := Ok(linked.value);
      } else if !createOk {
        r := Err(AccountCreationFailed);
      } else {
        var uid := nextUid;
        nextUid := nextUid + 1;
        accounts := accounts[uid := characterName];
        r := Ok(uid);
      }
    }

    method UpdateProfile(uid: Uid, key: string, id: Identity, settings: Settings) returns (sync: Option<SyncRequest>)
      modifies this
      ensures State() == AfterUpdateProfile(old(State()), uid, key, id)
      ensures sync == SyncFor(settings, uid, id)
    {
      fullname := fullname[uid := id.characterName];
      field := field[uid := key];
      index := index[key := uid];
      if settings.mapGroups == "on" {
        sync := Some(SyncRequest(uid, id.corporationName, id.titles));
      } else {
        sync := None;
      }
    }

    method Verify(
      session: Option<int>, settings: Settings, p: RawProfile,
      character: Lookup<CharacterRecord>, corporation: Lookup<string>,
      titles: Lookup<Option<seq<Title>>>, createOk: bool)
      returns (r: Result<Bound, LinkError>)
      requires Valid(State()) && SessionValid(State(), session)
      modifies this
      ensures (r, State()) == AfterVerify(old(State()), session, settings, p, character, corporation, titles, createOk)
      ensures Valid(State())
    {
      VerifyKeepsValid(State(), session, settings, p, character, corporation, titles, createOk);
      var e := Enrich(p, character, corporation, titles);
      if e.outcome.Err? {
        return Err(EnrichmentFailed(e.outcome.error));
      }
      var id := e.outcome.value;
      var key := LinkKey(id.characterId, id.ownerHash);
      if LoggedIn(session) {
        var uid := session.value as nat;
        var stored := GetStoredKey(uid);
        if settings.allowAccountTransfers {
          if stored != "" && stored != key {
            index := index - {stored};
          }
          var sync := UpdateProfile(uid, key, id, settings);
          r := Ok(Bound(uid, false, sync));
        } else if stored == "" {
          var holder := GetUidByEveOnlineSsoId(key);
          if holder.Some? && holder.value != uid {
            return Err(IdentityAlreadyClaimed);
          }
          var sync := UpdateProfile(uid, key, id, settings);
          r := Ok(Bound(uid, false, sync));
        } else if stored != key {
          r := Err(IdentityMismatch);
        } else {
          var sync := UpdateProfile(uid, key, id, settings);
          r := Ok(Bound(uid, false, sync));
        }
      } else {
        var login := Login(key, id.characterName, createOk);
        if login.Err? {
          return Err(login.error);
        }
        var sync := UpdateProfile(login.value, key, id, settings);
        r := Ok(Bound(login.value, true, sync));
      }
    }

    method DeleteUserData(uid: Uid)
      requires Valid(State())
      modifies this
      ensures State() == AfterDeleteUserData(old(State()), uid)
      ensures Valid(State())
    {
      DeleteUserDataUnlinks(State(), uid);
      if uid in field {
        index := index - {field[uid]};
      }
    }
  }
}
