/**
 * The group mapping registry: createGroupMapping, deleteGroupMapping and
 * getAllGroupMappings (library.js:542-608). The database holds a counter
 * ('global'.nextEveOnlineSSOMappingId), the set 'plugin-sso-eveonline:group-mappings'
 * of mapping ids, and one object per mapping stored under a string key.
 */
module Registry {
  import opened Basics
  import opened Keys

  /** A (corporation, title) -> group rule; title '' matches any title. */
  datatype Rule = Rule(mappingId: nat, corporationName: string, title: string, groupSlug: string)

  /** The data sent by the admin socket; None is an absent property. */
  datatype MappingData = MappingData(
    corporationName: Option<string>,
    title: Option<string>,
    groupSlug: Option<string>)

  datatype RegistryError = EmptyData

  /** A listed rule, with the name of the group its slug resolves to. */
  datatype Listed = Listed(rule: Rule, groupName: string)

  datatype RegistryState = RegistryState(counter: nat, ids: set<nat>, records: map<string, Rule>)

  /** The key create and list use: with a colon before the id (library.js:561, 588). */
  function RecordKey(id: nat): string {
    "plugin-sso-eveonline:group-mapping:" + Decimal(id)
  }

  /** The key deleteGroupMapping deletes: without the colon (library.js:577). */
  function DeleteKeyAsWritten(id: nat): string {
    "plugin-sso-eveonline:group-mapping" + Decimal(id)
  }

  lemma RecordKeyInjective(a: nat, b: nat)
    requires RecordKey(a) == RecordKey(b)
    ensures a == b
  {
    var n := |"plugin-sso-eveonline:group-mapping:"|;
    assert Decimal(a) == RecordKey(a)[n..];
    assert Decimal(b) == RecordKey(b)[n..];
    DecimalInjective(a, b);
  }

  /** The key deleteGroupMapping deletes is never the key of a mapping record. */
  lemma DeleteKeyMissesRecords(id: nat, j: nat)
    ensures DeleteKeyAsWritten(id) != RecordKey(j)
  {
    var n := |"plugin-sso-eveonline:group-mapping"|;
    assert RecordKey(j)[n] == ':';
    assert DeleteKeyAsWritten(id)[n] == Decimal(id)[0];
  }

  /**
   * Every listed id was issued by the counter and has its record under RecordKey,
   * whose mappingId is that id. (getAllGroupMappings reads mapping.groupSlug of the
   * record of every id in the set, so an id without a record would make it throw.)
   */
  predicate Valid(s: RegistryState) {
    forall id :: id in s.ids ==>
      && 1 <= id <= s.counter
      && RecordKey(id) in s.records
      && s.records[RecordKey(id)].mappingId == id
  }

  /** The guard of createGroupMapping (library.js:543). */
  predicate Acceptable(data: Option<MappingData>) {
    && data.Some?
    && data.value.corporationName.Some?
    && data.value.title.Some?
    && data.value.groupSlug.Some?
    && data.value.groupSlug.value != ""
  }

  function AfterCreate(s: RegistryState, data: Option<MappingData>): (Result<nat, RegistryError>, RegistryState) {
    if !Acceptable(data) then
      (Err(EmptyData), s)
    else
      var d := data.value;
      var id := s.counter + 1;
      (Ok(id),
       RegistryState(id, s.ids + {id},
         s.records[RecordKey(id) := Rule(id, d.corporationName.value, d.title.value, d.groupSlug.value)]))
  }

  /** deleteGroupMapping as the source writes it. */
  function AfterDeleteAsWritten(s: RegistryState, id: nat): RegistryState {
    s.(ids := s.ids - {id}, records := s.records - {DeleteKeyAsWritten(id)})
  }

  /** deleteGroupMapping with the record key it evidently means. */
  function AfterDelete(s: RegistryState, id: nat): RegistryState {
    s.(ids := s.ids - {id}, records := s.records - {RecordKey(id)})
  }

  /** Groups.getGroupNameByGroupSlug yields a (truthy) name for the rule's slug. */
  predicate Resolves(r: Rule, names: map<string, string>) {
    r.groupSlug in names && names[r.groupSlug] != ""
  }

  /** The ids among done whose rule's group no longer resolves. */
  function OrphansAmong(s: RegistryState, done: set<nat>, names: map<string, string>): set<nat>
    requires Valid(s)
  {
    set id | id in done && id in s.ids && !Resolves(s.records[RecordKey(id)], names)
  }

  /** The state once the orphans among done have been deleted with the record key meant. */
  function PurgedAmong(s: RegistryState, done: set<nat>, names: map<string, string>): RegistryState
    requires Valid(s)
  {
    var orphans := OrphansAmong(s, done, names);
    s.(ids := s.ids - orphans, records := s.records - (set id | id in orphans :: RecordKey(id)))
  }

  /** The state once the orphans among done have gone through deleteGroupMapping as written (library.js:593). */
  function PurgedAmongAsWritten(s: RegistryState, done: set<nat>, names: map<string, string>): RegistryState
    requires Valid(s)
  {
    var orphans := OrphansAmong(s, done, names);
    s.(ids := s.ids - orphans, records := s.records - (set id | id in orphans :: DeleteKeyAsWritten(id)))
  }

  /** The state getAllGroupMappings leaves behind, deleting through deleteGroupMapping as written. */
  function AfterListAsWritten(s: RegistryState, names: map<string, string>): RegistryState
    requires Valid(s)
  {
    PurgedAmongAsWritten(s, s.ids, names)
  }

  /** The state getAllGroupMappings would leave behind with the corrected delete. */
  function AfterList(s: RegistryState, names: map<string, string>): RegistryState
    requires Valid(s)
  {
    PurgedAmong(s, s.ids, names)
  }

  /** The ids getAllGroupMappings returns. */
  function Live(s: RegistryState, names: map<string, string>): set<nat>
    requires Valid(s)
  {
    set id | id in s.ids && Resolves(s.records[RecordKey(id)], names)
  }

  // ---------------------------------------------------------------------------
  // Properties
  // ---------------------------------------------------------------------------

  /**
   * create rejects incomplete data with 'empty-data' and changes nothing; otherwise
   * it takes the incremented counter as the id, which is above every id in use, adds
   * it to the set, stores the rule under its key and leaves the other records alone.
   */
  lemma CreateOutcome(s: RegistryState, data: Option<MappingData>)
    requires Valid(s)
    ensures var (r, t) := AfterCreate(s, data);
      && (r.Err? <==> !Acceptable(data))
      && (r.Err? ==> r.error == EmptyData && t == s)
      && (r.Ok? ==>
            var id := r.value;
            var d := data.value;
            && id == s.counter + 1 && t.counter == id
            && id !in s.ids && (forall j :: j in s.ids ==> j < id)
            && t.ids == s.ids + {id}
            && t.records[RecordKey(id)] == Rule(id, d.corporationName.value, d.title.value, d.groupSlug.value)
            && (forall j :: j in s.ids ==> t.records[RecordKey(j)] == s.records[RecordKey(j)])
            && Valid(t))
  {
    var (r, t) := AfterCreate(s, data);
    if r.Ok? {
      forall j | j in s.ids
        ensures t.records[RecordKey(j)] == s.records[RecordKey(j)]
      {
        if RecordKey(j) == RecordKey(r.value) {
          RecordKeyInjective(j, r.value);
        }
      }
    }
  }

  /**
   * deleteGroupMapping as written removes the id from the set but no mapping
   * record: the record of the deleted id stays in the database, and the invariant
   * holds afterwards whether or not the id was in use.
   */
  lemma DeleteAsWrittenKeepsRecords(s: RegistryState, id: nat)
    requires Valid(s)
    ensures var t := AfterDeleteAsWritten(s, id);
      && t.ids == s.ids - {id}
      && (forall j :: RecordKey(j) in s.records ==>
            RecordKey(j) in t.records && t.records[RecordKey(j)] == s.records[RecordKey(j)])
      && (id in s.ids ==> RecordKey(id) in t.records)
      && t.counter == s.counter
      && Valid(t)
  {
    forall j | RecordKey(j) in s.records
      ensures RecordKey(j) in AfterDeleteAsWritten(s, id).records
    {
      DeleteKeyMissesRecords(id, j);
    }
  }

  /**
   * The corrected delete removes the id and its record, keeps every other listed
   * record, keeps the invariant, and deleting an id not in use changes no listed id.
   */
  lemma DeleteRemovesRecord(s: RegistryState, id: nat)
    requires Valid(s)
    ensures var t := AfterDelete(s, id);
      && t.ids == s.ids - {id}
      && RecordKey(id) !in t.records
      && (forall j :: j in t.ids ==> RecordKey(j) in t.records && t.records[RecordKey(j)] == s.records[RecordKey(j)])
      && Valid(t)
  {
    var t := AfterDelete(s, id);
    forall j | j in t.ids
      ensures RecordKey(j) in t.records && t.records[RecordKey(j)] == s.records[RecordKey(j)]
    {
      if RecordKey(j) == RecordKey(id) {
        RecordKeyInjective(j, id);
      }
    }
  }

  /** The records of ids outside done survive the purge of done. */
  lemma PurgeKeepsOthers(s: RegistryState, done: set<nat>, names: map<string, string>, j: nat)
    requires Valid(s) && j in s.ids && j !in done
    ensures var t := PurgedAmong(s, done, names);
      RecordKey(j) in t.records && t.records[RecordKey(j)] == s.records[RecordKey(j)] && j in t.ids
  {
    var orphans := OrphansAmong(s, done, names);
    forall o | o in orphans
      ensures RecordKey(o) != RecordKey(j)
    {
      if RecordKey(o) == RecordKey(j) {
        RecordKeyInjective(o, j);
      }
    }
  }

  /**
   * Listing keeps exactly the rules whose group resolves, deletes the ids and the
   * records of the others, keeps the counter and the invariant.
   */
  lemma ListPurgesOrphans(s: RegistryState, names: map<string, string>)
    requires Valid(s)
    ensures var t := AfterList(s, names);
      && t.ids == Live(s, names)
      && t.counter == s.counter
      && (forall id :: id in s.ids && id !in t.ids ==> RecordKey(id) !in t.records)
      && Valid(t)
      && (forall id :: id in t.ids ==>
            (t.records[RecordKey(id)] == s.records[RecordKey(id)] && Resolves(t.records[RecordKey(id)], names)))
  {
    var t := AfterList(s, names);
    forall id | id in t.ids
      ensures RecordKey(id) in t.records && t.records[RecordKey(id)] == s.records[RecordKey(id)]
    {
      var orphans := OrphansAmong(s, s.ids, names);
      forall o | o in orphans
        ensures RecordKey(o) != RecordKey(id)
      {
        if RecordKey(o) == RecordKey(id) {
          RecordKeyInjective(o, id);
        }
      }
    }
  }

  /** A second listing with the same groups finds nothing more to purge. */
  lemma ListIdempotent(s: RegistryState, names: map<string, string>)
    requires Valid(s)
    ensures Valid(AfterList(s, names))
    ensures AfterList(AfterList(s, names), names) == AfterList(s, names)
  {
    var t := AfterList(s, names);
    ListPurgesOrphans(s, names);
    assert OrphansAmong(t, t.ids, names) == {};
    assert (set id | id in OrphansAmong(t, t.ids, names) :: RecordKey(id)) == {};
  }

  /**
   * Listing as written: the ids left are exactly those whose group resolves, as with
   * the corrected delete, but every mapping record stays, the orphans' included.
   */
  lemma ListAsWrittenKeepsOrphanRecords(s: RegistryState, names: map<string, string>)
    requires Valid(s)
    ensures var t := AfterListAsWritten(s, names);
      && t.ids == Live(s, names) == AfterList(s, names).ids
      && t.counter == s.counter
      && (forall id :: id in s.ids ==>
            RecordKey(id) in t.records && t.records[RecordKey(id)] == s.records[RecordKey(id)])
      && (forall id :: id in s.ids && id !in t.ids ==> !Resolves(t.records[RecordKey(id)], names))
      && Valid(t)
  {
    var t := AfterListAsWritten(s, names);
    PurgeAsWrittenKeepsRecords(s, s.ids, names);
    ListPurgesOrphans(s, names);
  }

  /** A second listing as written with the same groups finds nothing more to purge. */
  lemma ListAsWrittenIdempotent(s: RegistryState, names: map<string, string>)
    requires Valid(s)
    ensures Valid(AfterListAsWritten(s, names))
    ensures AfterListAsWritten(AfterListAsWritten(s, names), names) == AfterListAsWritten(s, names)
  {
    var t := AfterListAsWritten(s, names);
    ListAsWrittenKeepsOrphanRecords(s, names);
    assert OrphansAmong(t, t.ids, names) == {};
    assert (set id | id in OrphansAmong(t, t.ids, names) :: DeleteKeyAsWritten(id)) == {};
  }

  /** A rule just created is listed exactly when its group resolves. */
  lemma CreatedRuleListed(s: RegistryState, data: Option<MappingData>, names: map<string, string>)
    requires Valid(s) && Acceptable(data)
    ensures var (r, t) := AfterCreate(s, data);
      && Valid(t)
      && (r.value in Live(t, names) <==>
            (data.value.groupSlug.value in names && names[data.value.groupSlug.value] != ""))
  {
    CreateOutcome(s, data);
  }

  // ---------------------------------------------------------------------------
  // The registry, updated in place
  // ---------------------------------------------------------------------------

  class MappingRegistry {
    var counter: nat
    var ids: set<nat>
    var records: map<string, Rule>

    function State(): RegistryState
      reads this
    {
      RegistryState(counter, ids, records)
    }

    constructor ()
      ensures State() == RegistryState(0, {}, map[]) && Valid(State())
    {
      counter, ids, records := 0, {}, map[];
    }

    method CreateGroupMapping(data: Option<MappingData>) returns (r: Result<nat, RegistryError>)
      requires Valid(State())
      modifies this
      ensures (r, State()) == AfterCreate(old(State()), data)
      ensures Valid(State())
    {
      CreateOutcome(State(), data);
      if data.None? || data.value.corporationName.None? || data.value.title.None?
         || data.value.groupSlug.None? || data.value.groupSlug.value == "" {
        return Err(EmptyData);
      }
      counter := counter + 1;
      var mappingId := counter;
      var d := data.value;
      records := records[RecordKey(mappingId) := Rule(mappingId, d.corporationName.value, d.title.value, d.groupSlug.value)];
      ids := ids + {mappingId};
      r := Ok(mappingId);
    }

    /** The socket handler's delete, keys as written. */
    method DeleteGroupMapping(mappingId: nat)
      requires Valid(State())
      modifies this
      ensures State() == AfterDeleteAsWritten(old(State()), mappingId)
      ensures Valid(State())
    {
      DeleteAsWrittenKeepsRecords(State(), mappingId);
      ids := ids - {mappingId};
      records := records - {DeleteKeyAsWritten(mappingId)};
    }

    /**
     * Reads the record of every id in the set; a rule whose slug resolves is listed
     * with its group name, any other goes through deleteGroupMapping, as written.
     * The source pushes in the order the asynchronous lookups complete, so the order
     * of the list is left open.
     */
    method GetAllGroupMappings(names: map<string, string>) returns (mappings: seq<Listed>)
      requires Valid(State())
      modifies this
      ensures State() == AfterListAsWritten(old(State()), names)
      ensures Valid(State())
      ensures IdsOf(mappings) == Live(old(State()), names)
      ensures forall i :: 0 <= i < |mappings| ==>
        var id := mappings[i].rule.mappingId;
        && id in old(ids) && RecordKey(id) in old(records)
        && mappings[i].rule == old(records)[RecordKey(id)]
        && Resolves(mappings[i].rule, names)
        && mappings[i].groupName == names[mappings[i].rule.groupSlug]
      ensures forall i, j :: 0 <= i < j < |mappings| ==> mappings[i].rule.mappingId != mappings[j].rule.mappingId
    {
      ghost var s0 := State();
      var pending := ids;
      mappings := [];
      while pending != {}
        invariant pending <= s0.ids
        invariant State() == PurgedAmongAsWritten(s0, s0.ids - pending, names)
        invariant IdsOf(mappings) == Live(s0, names) - pending
        invariant forall i :: 0 <= i < |mappings| ==>
          var id := mappings[i].rule.mappingId;
          && id in s0.ids && id !in pending
          && mappings[i].rule == s0.records[RecordKey(id)]
          && Resolves(mappings[i].rule, names)
          && mappings[i].groupName == names[mappings[i].rule.groupSlug]
        invariant forall i, j :: 0 <= i < j < |mappings| ==> mappings[i].rule.mappingId != mappings[j].rule.mappingId
        decreases pending
      {
        var id :| id in pending;
        ghost var done := s0.ids - pending;
        PurgeAsWrittenKeepsRecords(s0, done, names);
        pending := pending - {id};
        assert s0.ids - pending == done + {id};
        var mapping := records[RecordKey(id)];
        if mapping.groupSlug in names && names[mapping.groupSlug] != "" {
          IdsOfAppend(mappings, Listed(mapping, names[mapping.groupSlug]));
          mappings := mappings + [Listed(mapping, names[mapping.groupSlug])];
          PurgeStepListed(s0, done, names, id);
        } else {
          assert mapping.mappingId == id;
          DeleteGroupMapping(mapping.mappingId);
          PurgeStepOrphan(s0, done, names, id);
        }
      }
      assert s0.ids - pending == s0.ids;
      PurgeAsWrittenKeepsRecords(s0, s0.ids, names);
    }
  }

  /** The ids of a listing. */
  function IdsOf(ms: seq<Listed>): set<nat> {
    set i | 0 <= i < |ms| :: ms[i].rule.mappingId
  }

  lemma IdsOfAppend(ms: seq<Listed>, m: Listed)
    ensures IdsOf(ms + [m]) == IdsOf(ms) + {m.rule.mappingId}
  {
    var ms' := ms + [m];
    assert ms'[|ms|] == m;
    forall i | 0 <= i < |ms|
      ensures ms'[i] == ms[i]
    {
    }
  }

  /**
   * Deleting orphans as written keeps every mapping record, the id of every id
   * outside done, the counter and the invariant.
   */
  lemma PurgeAsWrittenKeepsRecords(s: RegistryState, done: set<nat>, names: map<string, string>)
    requires Valid(s)
    ensures var t := PurgedAmongAsWritten(s, done, names);
      && (forall j :: RecordKey(j) in s.records ==>
            RecordKey(j) in t.records && t.records[RecordKey(j)] == s.records[RecordKey(j)])
      && (forall j :: j in s.ids && j !in done ==> j in t.ids)
      && t.counter == s.counter
      && Valid(t)
  {
    var orphans := OrphansAmong(s, done, names);
    forall j, o | RecordKey(j) in s.records && o in orphans
      ensures DeleteKeyAsWritten(o) != RecordKey(j)
    {
      DeleteKeyMissesRecords(o, j);
    }
  }

  /** Processing an id whose group resolves deletes nothing. */
  lemma PurgeStepListed(s: RegistryState, done: set<nat>, names: map<string, string>, id: nat)
    requires Valid(s) && id in s.ids && id !in done && Resolves(s.records[RecordKey(id)], names)
    ensures PurgedAmongAsWritten(s, done + {id}, names) == PurgedAmongAsWritten(s, done, names)
  {
    assert OrphansAmong(s, done + {id}, names) == OrphansAmong(s, done, names);
  }

  /** Processing an orphan is deleteGroupMapping, as written, of its id. */
  lemma PurgeStepOrphan(s: RegistryState, done: set<nat>, names: map<string, string>, id: nat)
    requires Valid(s) && id in s.ids && id !in done && !Resolves(s.records[RecordKey(id)], names)
    ensures PurgedAmongAsWritten(s, done + {id}, names) == AfterDeleteAsWritten(PurgedAmongAsWritten(s, done, names), id)
  {
    var o := OrphansAmong(s, done, names);
    assert OrphansAmong(s, done + {id}, names) == o + {id};
    assert (set x | x in o + {id} :: DeleteKeyAsWritten(x)) == (set x | x in o :: DeleteKeyAsWritten(x)) + {DeleteKeyAsWritten(id)};
  }
}
