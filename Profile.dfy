/**
 * completeProfile (library.js:107-209): the profile handed over by the EVE Online
 * single sign-on is validated, then completed by three lookups against the ESI API
 * issued one after the other: the character record, the corporation record, and the
 * character's titles. The HTTP requests themselves are not modelled: each lookup is
 * an input that either carries the parsed body or records that the request failed
 * (a status other than 200, or an error on the response stream).
 */
module Profile {
  import opened Basics

  /** The fields of the SSO profile the plugin reads; None is an absent property. */
  datatype RawProfile = RawProfile(
    characterId: Option<nat>,
    characterName: Option<string>,
    ownerHash: Option<string>)

  /** One entry of the titles response; the plugin only reads its name. */
  datatype Title = Title(name: string)

  /** The part of the /characters/{id}/ response the plugin keeps. */
  datatype CharacterRecord = CharacterRecord(corporationId: nat, allianceId: Option<nat>)

  /** The outcome of one ESI request. */
  datatype Lookup<T> = Fetched(body: T) | Failed

  /** A completed profile. */
  datatype Identity = Identity(
    characterId: nat,
    characterName: string,
    ownerHash: string,
    corporationId: nat,
    allianceId: Option<nat>,
    corporationName: string,
    titles: seq<Title>)

  datatype EnrichError =
    | MissingIdentityFields
    | CharacterLookupFailed
    | CorporationLookupFailed
    | TitleLookupFailed

  /** The ESI requests completeProfile issues, in the order it issues them. */
  datatype Request =
    | CharacterRequest(characterId: nat)
    | CorporationRequest(corporationId: nat)
    | TitlesRequest(characterId: nat)

  datatype Enrichment = Enrichment(outcome: Result<Identity, EnrichError>, requests: seq<Request>)

  /**
   * The guard at library.js:108: each of the three properties must be truthy, so an
   * absent property, a CharacterID of 0 and an empty string are all rejected.
   */
  predicate HasIdentityFields(p: RawProfile) {
    && p.characterId.Some? && p.characterId.value != 0
    && p.characterName.Some? && p.characterName.value != ""
    && p.ownerHash.Some? && p.ownerHash.value != ""
  }

  /** `body.alliance_id || null`: a missing or zero alliance id becomes null. */
  function AllianceOf(c: CharacterRecord): Option<nat> {
    if c.allianceId.Some? && c.allianceId.value != 0 then c.allianceId else None
  }

  /** `titles || []`: a null titles body becomes the empty list. */
  function TitlesOf(body: Option<seq<Title>>): seq<Title> {
    match body
    case None => []
    case Some(ts) => ts
  }

  /**
   * The waterfall of completeProfile. The corporation request is built from the
   * corporation id of the character response, so it is issued only after the first
   * lookup succeeded, and the titles request only after the second one did.
   */
  function Enrich(
    p: RawProfile,
    character: Lookup<CharacterRecord>,
    corporation: Lookup<string>,
    titles: Lookup<Option<seq<Title>>>): (e: Enrichment)
    // a profile without id, name or owner hash is rejected before any request
    ensures !HasIdentityFields(p) ==> e.outcome == Err(MissingIdentityFields) && e.requests == []
    // the enrichment succeeds exactly when the profile is complete and every lookup succeeded
    ensures e.outcome.Ok? <==>
      HasIdentityFields(p) && character.Fetched? && corporation.Fetched? && titles.Fetched?
    // the first failed lookup is the one reported, and no later request is issued
    ensures HasIdentityFields(p) && character.Failed? ==>
      e.outcome == Err(CharacterLookupFailed) && e.requests == [CharacterRequest(p.characterId.value)]
    ensures HasIdentityFields(p) && character.Fetched? && corporation.Failed? ==>
      e.outcome == Err(CorporationLookupFailed)
      && e.requests == [CharacterRequest(p.characterId.value),
                        CorporationRequest(character.body.corporationId)]
    ensures HasIdentityFields(p) && character.Fetched? && corporation.Fetched? && titles.Failed? ==>
      e.outcome == Err(TitleLookupFailed) && |e.requests| == 3
    // a successful enrichment issued all three requests in order
    ensures HasIdentityFields(p) && character.Fetched? ==>
      e.requests[..] <= [CharacterRequest(p.characterId.value),
                         CorporationRequest(character.body.corporationId),
                         TitlesRequest(p.characterId.value)]
    ensures e.outcome.Ok? ==> |e.requests| == 3
    // the identity is made of the profile and the three responses, and nothing else
    ensures e.outcome.Ok? ==>
      var id := e.outcome.value;
      && id.characterId == p.characterId.value
      && id.characterName == p.characterName.value
      && id.ownerHash == p.ownerHash.value
      && id.corporationId == character.body.corporationId
      && id.allianceId == AllianceOf(character.body)
      && id.corporationName == corporation.body
      && id.titles == TitlesOf(titles.body)
  {
    if !HasIdentityFields(p) then
      Enrichment(Err(MissingIdentityFields), [])
    else
      var characterId := p.characterId.value;
      var first := [CharacterRequest(characterId)];
      match character
      case Failed => Enrichment(Err(CharacterLookupFailed), first)
      case Fetched(c) =>
        var second := first + [CorporationRequest(c.corporationId)];
        match corporation
        case Failed => Enrichment(Err(CorporationLookupFailed), second)
        case Fetched(corporationName) =>
          var third := second + [TitlesRequest(characterId)];
          match titles
          case Failed => Enrichment(Err(TitleLookupFailed), third)
          case Fetched(body) =>
            Enrichment(
              Ok(Identity(characterId, p.characterName.value, p.ownerHash.value,
                          c.corporationId, AllianceOf(c), corporationName, TitlesOf(body))),
              third)
  }
}
