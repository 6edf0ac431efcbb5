# EVE Online single sign-on for NodeBB: identity linking and group reconciliation

This Dafny project models the core of the `nodebb-plugin-sso-eveonline` plugin
(`library.js`). The model has five parts:

- **Profile completion** (`Profile`). `completeProfile` checks that the SSO profile has
  a character id, a name and an owner hash. It then completes the profile with three ESI
  lookups, run one after the other: the character, the corporation, the titles. Each
  lookup is an input that either carries the parsed body or records a failure.
  `Enrich` is a pure function. It returns the completed `Identity` or the first error,
  plus the list of requests issued.
- **Link keys** (`Keys`). The key `'character_' + CharacterID + '-' + CharacterOwnerHash`
  is built from the decimal rendering of the id. Two different (id, owner hash) pairs
  always give two different keys.
- **Identity binding** (`Linking`). This is the passport verify callback with `login`,
  `updateProfile`, `getUidByEveOnlineSsoId` and `deleteUserData`. The state is the
  `eveonlinessoid:uid` index (key → uid), each account's `eveonlinessoid` and
  `fullname` fields, the NodeBB accounts, and the uid allocator. Each step is a function
  from the old state to the outcome and new state (`AfterVerify`, `AfterLogin`, …). The
  class `LinkStore` does the same steps on its fields. Each state-changing method is
  proved equal to its function, and the index lookup to `LinkedUid`. The lemmas cover:
  - the invariant `Valid`: every index entry `k → u` is mirrored by `u`'s field `k`;
  - anonymous login;
  - the two conflict errors when transfers are disabled;
  - rebinding when transfers are enabled.
- **Group reconciliation** (`GroupSync`). This is the `diff` helper and
  `syncUserGroups`. The method `SyncUserGroups` builds the mapped and current slug lists
  with the source's loops. It is proved equal to `Reconcile`. The lemmas say what the
  join and leave lists contain, that `administrators` is never left, and that
  reconciling a second time asks for nothing.
- **Group mapping registry** (`Registry`). This covers `createGroupMapping`,
  `deleteGroupMapping` and `getAllGroupMappings`, over a counter, a set of ids and
  records under string keys. The class `MappingRegistry` is proved against the state
  functions.

Inputs that stand for code outside the core:
- `createOk` says whether `user.create` succeeds.
- `names` maps a slug to the name `Groups.getGroupNameByGroupSlug` returns.
- `privileged` is the set of group names `Groups.isPrivilegeGroup` accepts.
- `session` is `req.user.uid`, if there is one.
- `Settings` holds `allowAccountTransfers` and `mapGroups`. The source tests
  `allowAccountTransfers` by truthiness (library.js:239), so the `bool` stands for "the
  stored setting is truthy": any non-empty stored string enables transfers. `mapGroups`
  has to equal `'on'` exactly (library.js:384), and the model compares the string.

Behaviour of the code that the model keeps as it is:
- **Transfer branch.** The code deletes the index entry under the signed-in account's
  *own* previous key, whoever that entry points at (library.js:241-245). An entry of
  another account for the new key is not deleted; it is overwritten to point at the
  signed-in account (library.js:381). The former holder's field is left alone.
- **Join and leave lists.** These are order-preserving lists that keep duplicates, not
  sets. The splice removes only the first `administrators` entry (library.js:435-438).
- **Enrichment order.** The corporation lookup and the titles lookup run one after the
  other (library.js:112-208).
- **Deleting a mapping.** It removes the id from the set but not the record, because
  the key lacks a colon. The listing deletes orphaned mappings through the same
  function, so their records stay as well (see Findings).
- **Error messages.** `IdentityAlreadyClaimed` and `IdentityMismatch` carry the same
  message in the source (library.js:270, 284). The model keeps them as two constructors.
- **Concurrent sign-ins.** `login` reads the index (library.js:331) and only
  `updateProfile` writes it (library.js:381). Two callbacks for the same new character
  that interleave there create two accounts (`InterleavedLoginsCreateTwoAccounts`).

One consequence of the transfer branch is proved rather than assumed
(`TransferThenDeleteDropsLink`). After account B takes over account A's key, A's field
still holds the key. Deleting A's data then removes B's link as well.

## Model

| member | source | states |
|---|---|---|
| Keys.Decimal | library.js:233 | the rendering of a number is a non-empty string of decimal digits that denote the number, with no leading zero |
| Keys.DecimalInjective | library.js:233 | distinct numbers render as distinct strings |
| Keys.LinkKey | library.js:233 | the key is 'character_', then digits denoting the character id, then '-', then the owner hash |
| Keys.LinkKeyInjective | library.js:233 | the link key determines the character id and the owner hash, so the same character under another owner hash gets another key |
| Profile.Enrich | library.js:107-209 | a profile missing id, name or owner hash is rejected with no request issued; success holds exactly when the profile is complete and all three lookups succeed; the first failed lookup is the error reported and no later request is issued; requests go out in the order character, corporation (with the id from the character record), titles; a successful identity is made of the profile fields and the three bodies, with a null titles body read as no titles; a failed titles lookup comes after all three requests |
| Linking.LinkStore.GetUidByEveOnlineSsoId | library.js:478-486 | returns LinkedUid: the uid the index holds for the key, and nothing when the key is not in the index |
| Linking.LinkStore.Login | library.js:329-358 | new state and result equal AfterLogin: a linked key reuses its account; otherwise a new account named after the character gets the next uid, or user.create fails and nothing changes |
| Linking.LinkStore.UpdateProfile | library.js:366-391 | writes fullname and the eveonlinessoid field of the account and the index entry key → uid; requests group sync exactly when mapGroups is 'on' |
| Linking.LinkStore.Verify | library.js:227-311 | new state and result equal AfterVerify, the callback's decisions as functions of the old state; the store invariant holds before and after, for a session naming an account |
| Linking.LinkStore.DeleteUserData | library.js:489-506 | removes the index entry under the account's stored key, and nothing else; the store invariant holds before and after |
| Linking.LinksAreOneToOne | library.js:378-381 | under the invariant two index entries for the same account are the same entry |
| Linking.BindKeepsValid | library.js:378-381 | writing both directions of a link keeps the invariant when no other key points at the account |
| Linking.VerifyKeepsValid | library.js:227-311 | every outcome of the verify callback keeps the invariant (index entries mirrored by fields, uids of existing accounts, no empty key) |
| Linking.FailedEnrichmentChangesNothing | library.js:228-231 | an incomplete profile or a failed lookup ends the callback with that error and the state unchanged |
| Linking.AnonymousLogin | library.js:297-310 | without a session: a linked key signs in its account and creates nothing; an unlinked key creates one account under a fresh uid named after the character, or fails with nothing changed; after success the index and the field link key and uid both ways |
| Linking.RepeatedLoginCreatesOneAccount | library.js:329-358 | two anonymous sign-ins in sequence with the same identity return the same uid and create at most one account |
| Linking.InterleavedLoginsCreateTwoAccounts | library.js:329-391 | when a second login for the same new key runs before the first updateProfile, two fresh accounts are created, both fields hold the key, the index keeps the later uid, and the invariant still holds |
| Linking.NoTransferConflicts | library.js:255-292 | signed in, transfers off: the callback fails exactly when the account has no key and the key belongs to another account (IdentityAlreadyClaimed) or the stored key differs (IdentityMismatch), and a failure changes nothing |
| Linking.NoTransferBinds | library.js:269-291 | signed in, transfers off, no conflict: the account and key are linked both ways, no account is created, and every other index entry and every other account's field is unchanged |
| Linking.TransferRebinds | library.js:239-252 | signed in, transfers on: always succeeds; the previous key leaves the index exactly when it is non-empty and differs; the key then points at the signed-in account whoever held it; other entries and other accounts' fields are unchanged |
| Linking.TransferThenDeleteDropsLink | library.js:241-245 | after a transfer from A to B, A's field still holds the key, and deleting A's data removes B's index entry |
| Linking.DeleteUserDataUnlinks | library.js:489-506 | deleting a user's data keeps the invariant, leaves no index entry pointing at the account, and changes no field |
| GroupSync.Diff | library.js:361-363 | the result holds exactly the elements of the first list that are not in the second, in their order (a subsequence of the first list) |
| GroupSync.DiffCounts | library.js:361-363 | diff is a filter: each element keeps its number of occurrences, or has none when it is in the second list |
| GroupSync.DiffAppend | library.js:361-363 | diff of a concatenation is the concatenation of the diffs |
| GroupSync.RemoveFirst | library.js:435-438 | the splice removes exactly one occurrence of the value when there is one, namely the one at the first index where it occurs, and otherwise returns the list unchanged |
| GroupSync.RemoveFirstKeepsOrder | library.js:435-438 | the splice keeps the remaining slugs in their order |
| GroupSync.Resolved | library.js:444-465 | every slug that resolves to a non-empty group name gives that name, and every name given comes from such a slug |
| GroupSync.TitleMatchesMembers | library.js:409-413 | a slug is matched for one title exactly when a rule of the corporation with that title names it |
| GroupSync.TitledSlugsMembers | library.js:408-414 | a slug is matched by the titles loop exactly when a rule of the corporation has a title the character holds |
| GroupSync.WildcardSlugsMembers | library.js:417-421 | a slug is matched by the second loop exactly when a rule of the corporation with title '' names it |
| GroupSync.MappedSlugsMembers | library.js:408-421 | a slug is mapped exactly when a rule of the user's corporation names it and has title '' or a title the character holds |
| GroupSync.CurrentSlugsMembers | library.js:424-428 | a slug is current exactly when a group of the user that is neither a privilege group nor 'registered-users' has it |
| GroupSync.CurrentSlugsOnce | library.js:424-428 | distinct group slugs give current slugs without repetition |
| GroupSync.PlanMembers | library.js:431-438 | joined exactly when mapped and not current; left only when current and not mapped, and always then except for the spliced 'administrators'; no slug is both joined and left |
| GroupSync.AdministratorsNeverLeft | library.js:434-438 | when 'administrators' occurs at most once among the current slugs, it is not in the leave list |
| GroupSync.SyncNeverLeavesAdministrators | library.js:394-438 | a sync never leaves 'administrators' when the user's groups have distinct slugs |
| GroupSync.AppliedCoversMapped | library.js:431-465 | once the plan took effect every mapped slug is current |
| GroupSync.AppliedUnmapped | library.js:431-465 | once the plan took effect the only unmapped current slug can be one 'administrators' |
| GroupSync.ReconcileIdempotent | library.js:431-465 | reconciling again after the plan took effect yields empty join and leave lists |
| GroupSync.ScenarioOfficerJoins | library.js:404-438 | Officer of Acme Corp with rules Officer → officers and '' → members, in members: join officers, leave nothing |
| GroupSync.ScenarioGuestsLeft | library.js:404-438 | no titles, rule '' → members, in members and guests: join nothing, leave guests |
| GroupSync.SyncUserGroups | library.js:394-469 | the lists built by the nested loops, diffed and spliced, equal Reconcile; no slug is both joined and left; the group names acted on are the resolved ones |
| Registry.RecordKeyInjective | library.js:561 | distinct mapping ids have distinct record keys |
| Registry.DeleteKeyMissesRecords | library.js:577 | the key deleteGroupMapping deletes is never the record key of any mapping |
| Registry.CreateOutcome | library.js:542-568 | incomplete data or an empty slug is rejected with empty-data and nothing changes; otherwise the id is the incremented counter, above every id in use, added to the set, with the rule stored under its key and other records unchanged, keeping the invariant |
| Registry.DeleteAsWrittenKeepsRecords | library.js:571-580 | the delete as written removes the id from the set and leaves every mapping record, including the deleted one's, and keeps the invariant whether or not the id was in use |
| Registry.DeleteRemovesRecord | library.js:571-580 | the delete with the intended key removes the id and its record, keeps every other listed record and the invariant |
| Registry.PurgeKeepsOthers | library.js:587-603 | with the corrected delete, purging some ids keeps the id and the record of every other id |
| Registry.ListPurgesOrphans | library.js:583-608 | with the corrected delete, the ids left after listing are exactly those whose group resolves, with their records unchanged; the others lose their record; counter and invariant kept |
| Registry.ListIdempotent | library.js:583-608 | with the corrected delete, a second listing with the same groups purges nothing |
| Registry.PurgeAsWrittenKeepsRecords | library.js:587-603 | deleting orphans as written keeps every mapping record, the ids not handled yet, the counter and the invariant |
| Registry.ListAsWrittenKeepsOrphanRecords | library.js:583-608 | listing as written leaves the same ids as the corrected listing, those whose group resolves, but every record stays, an orphan's included; counter and invariant kept |
| Registry.ListAsWrittenIdempotent | library.js:583-608 | a second listing as written with the same groups purges nothing |
| Registry.CreatedRuleListed | library.js:542-608 | a rule just created is listed exactly when its group slug resolves |
| Registry.PurgeStepListed | library.js:596-598 | handling an id whose group resolves deletes nothing |
| Registry.PurgeStepOrphan | library.js:591-593 | handling an orphan is deleteGroupMapping as written of its id |
| Registry.MappingRegistry.CreateGroupMapping | library.js:542-568 | new state and result equal AfterCreate; the invariant holds before and after |
| Registry.MappingRegistry.DeleteGroupMapping | library.js:571-580 | removes the id from the set and deletes the key without the colon, as written; the invariant holds before and after |
| Registry.MappingRegistry.GetAllGroupMappings | library.js:583-608 | returns each id whose group resolves once, with its stored rule and group name; the new state is the state with the orphans sent through deleteGroupMapping as written; the invariant holds before and after |

## Left out

- HTTPS requests, response streaming and `JSON.parse` in `completeProfile` (library.js:117-206): each lookup is an input. `Failed` stands for a non-200 status or an error on the response stream. A body that does not parse as JSON is not modelled. Neither is a request that gets no response at all: the request object's `'error'` event has no listener (library.js:117, 148, 177), so the source throws instead of calling back.
- The portrait URL (library.js:115) and the `uploadedpicture`/`picture` fields written from it (library.js:372-375): these are cosmetic.
- `storeTokens` (library.js:472-475): it only writes, and nothing in the core reads the tokens.
- Passport strategy construction, routes, admin and error pages, the menu item, settings loading, socket registration and `getAssociation`: these are framework plumbing.
- `async.parallel` / `async.each` concurrency and the un-awaited `Groups.join` / `Groups.leave` calls. The join and leave lists are results, and `Resolved` gives the group names the calls would receive.
- Failures of the database or the user store (`getUserField`, `getObjectField`, `incrObjectField`, `setUserField`) are not modelled: the stores are assumed to answer. The `user.create` failure is an input.
- The database may return a uid as a string, in which case the strict `uid !== req.user.uid` comparison (library.js:269) would differ. The model compares numbers.
- Linking.LinkStore.DeleteUserData: the deletion of the account itself belongs to NodeBB and is not modelled. Only the hook's own index change is.
- Registry.MappingRegistry.CreateGroupMapping: `setObject` and `setAdd` receive `next(err, mappingId)` already called, not `next` (library.js:561, 564). So the socket reply goes out before the two writes finish, their errors are lost, and the reply value is `{mappingId: id, whatever: id}` rather than the id. The model returns `Ok(id)` with both writes done.
- Linking.LinkStore.Verify: with `mapGroups` 'on', every sign-in runs `syncUserGroups` (library.js:385), which lists the mappings and so purges orphans from the registry (library.js:397). The model returns the sync as a `SyncRequest` value; the registry change it causes is `GetAllGroupMappings`, run separately, and is not part of `Verify`'s new state.
- Registry.MappingRegistry.GetAllGroupMappings: the order of the returned list is left open, because the source pushes in completion order.
- Linking.RepeatedLoginCreatesOneAccount: this holds for sign-ins that run one after the other. Callbacks that interleave between `login` and `updateProfile` create two accounts (`InterleavedLoginsCreateTwoAccounts`); nothing in the source serialises them, and the model has no scheduler.
- GroupSync.AdministratorsNeverLeft: this holds only when 'administrators' occurs at most once among the current slugs. NodeBB lists each of a user's groups once, so that is always the case.
- GroupSync.ReconcileIdempotent: this is stated on slug lists. A mapped slug that names a privilege group or 'registered-users', or that does not resolve, is joined again on every sync.
- Profile.Enrich: a CharacterID is a JSON number, so it is modelled as a natural number. Its string form is exact for the integer ids the API issues.

## Findings

| source | as written | input that shows it | evidently intended | confidence | as-written member | corrected member |
|---|---|---|---|---|---|---|
| library.js:577 | `db.delete('plugin-sso-eveonline:group-mapping' + mappingId)`, with no colon before the id | create a mapping (id 1, record under `plugin-sso-eveonline:group-mapping:1`), then delete id 1: the key `plugin-sso-eveonline:group-mapping1` is deleted and the record stays | delete `'plugin-sso-eveonline:group-mapping:' + mappingId`, the key create and list use (library.js:561, 588) | high; not executed | Registry.DeleteAsWrittenKeepsRecords | Registry.DeleteRemovesRecord |
| library.js:591-593 | getAllGroupMappings removes an orphaned mapping with `deleteGroupMapping(mapping.mappingId, null)`, the delete above | mapping 1 whose group slug no longer resolves: listing takes 1 out of the set and the record under `plugin-sso-eveonline:group-mapping:1` stays | the orphan's record is deleted along with its id | high; not executed | Registry.ListAsWrittenKeepsOrphanRecords | Registry.ListPurgesOrphans |
