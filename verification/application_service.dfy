/** The application service: the tenants, each with a random API key that
    the lookups by id never return. */
module Applications {
  import opened Wrappers
  import opened Strings
  import opened Tables
  import opened Store
  import opened AuditLog
  import Hex

  /** The request fields; `None` is a key that is absent or null. */
  datatype ApplicationInput = ApplicationInput(name: Option<string>, description: Option<string>)

  /** The data `validateApplicationData` accepts. Unlike the other names, an
      application name has no charset rule. */
  predicate ApplicationDataOk(input: ApplicationInput, isUpdate: bool) {
    (!isUpdate ==> !IsEmpty(input.name))
    && (input.name.Some? ==> LengthBetween(input.name.value, 3, 100))
    && ShortText(input.description, 500)
  }

  const NameRequired := "Application name is required"
  const NameLength := "Application name must be between 3 and 100 characters"
  const DescriptionLength := "Description cannot exceed 500 characters"
  const NotFound := "Application not found"

  /** Audit action names and detail keys. */
  const ApplicationCreated := "application_created"
  const ApplicationUpdated := "application_updated"
  const ApplicationDeleted := "application_deleted"
  const ApiKeyRegenerated := "api_key_regenerated"
  const NameKey := "name"

  /** The checks of `validateApplicationData`, in the order it makes them. */
  function ApplicationRules(input: ApplicationInput, isUpdate: bool): (rules: seq<(bool, string)>)
    ensures |rules| == 3
  {
    [ (isUpdate || !IsEmpty(input.name), NameRequired),
      (input.name.None? || LengthBetween(input.name.value, 3, 100), NameLength),
      (ShortText(input.description, 500), DescriptionLength) ]
  }

  /** `validateApplicationData`: passes exactly on acceptable data; a missing
      name on create is reported first. */
  function ValidateApplicationData(input: ApplicationInput, isUpdate: bool): (r: Check)
    ensures r.Pass? <==> ApplicationDataOk(input, isUpdate)
    ensures !isUpdate && IsEmpty(input.name) ==> r == Fail(NameRequired)
    ensures (isUpdate || !IsEmpty(input.name)) && input.name.Some? && !LengthBetween(input.name.value, 3, 100)
      ==> r == Fail(NameLength)
  {
    var rules := ApplicationRules(input, isUpdate);
    assert rules[0].0 && rules[1].0 && rules[2].0 <==> ApplicationDataOk(input, isUpdate);
    FirstFailure(rules)
  }

  /** `bin2hex(random_bytes(32))`, the bytes being a parameter of the model. */
  function NewApiKey(random: seq<Hex.byte>): (key: string)
    requires |random| == 32
    ensures Hex.IsApiKey(key)
    ensures Hex.HexDecode(key) == random
  {
    Hex.ApiKeyOfThirtyTwoBytes(random);
    Hex.DecodeEncode(random);
    Hex.HexEncode(random)
  }

  /** Distinct random draws give distinct keys. */
  lemma NewApiKeyInjective(a: seq<Hex.byte>, b: seq<Hex.byte>)
    requires |a| == 32 && |b| == 32 && a != b
    ensures NewApiKey(a) != NewApiKey(b)
  {
    if NewApiKey(a) == NewApiKey(b) {
      Hex.EncodeInjective(a, b);
    }
  }

  /** The row `createApplication` inserts for accepted data. */
  function NewApplication(id: int, input: ApplicationInput, random: seq<Hex.byte>, now: int): (a: Application)
    requires ApplicationDataOk(input, false) && |random| == 32
    ensures WellFormedApplication(a)
    ensures a.id == id && a.createdAt == now && a.updatedAt == now && a.name == input.name.value && a.description == input.description
    ensures a.apiKey == NewApiKey(random)
  {
    Application(id, input.name.value, input.description, NewApiKey(random), now, now)
  }

  /** No field to update: `updateApplication` writes nothing. */
  predicate NoFields(input: ApplicationInput) {
    input.name.None? && input.description.None?
  }

  /** The row after `UPDATE applications SET` of the supplied fields. */
  function Patch(a: Application, input: ApplicationInput, now: int): (q: Application)
    ensures q.id == a.id && q.apiKey == a.apiKey && q.createdAt == a.createdAt && q.updatedAt == now
    ensures q.name == (if input.name.Some? then input.name.value else a.name)
    ensures q.description == (if input.description.Some? then input.description else a.description)
  {
    a.(name := if input.name.Some? then input.name.value else a.name,
       description := if input.description.Some? then input.description else a.description,
       updatedAt := now)
  }

  /** An accepted update keeps a well-formed row well-formed. */
  lemma PatchKeepsWellFormed(a: Application, input: ApplicationInput, now: int)
    requires WellFormedApplication(a) && ApplicationDataOk(input, true)
    ensures WellFormedApplication(Patch(a, input, now))
  {
  }

  /** What `updateApplication` logs as the name: the supplied one, else the stored one, else null. */
  function UpdatedName(input: ApplicationInput, stored: Option<Application>): Json {
    if input.name.Some? then JStr(input.name.value)
    else if stored.Some? then JStr(stored.value.name)
    else JNull
  }

  /** The row after `regenerateApiKey`'s `UPDATE`: only the key and the time change. */
  function Rekey(a: Application, random: seq<Hex.byte>, now: int): (q: Application)
    requires |random| == 32
    ensures q.id == a.id && q.name == a.name && q.description == a.description && q.createdAt == a.createdAt
    ensures q.apiKey == NewApiKey(random) && q.updatedAt == now
  {
    a.(apiKey := NewApiKey(random), updatedAt := now)
  }

  /** What `regenerateApiKey` returns is the row read back without its key,
      so two draws give the same answer: the new key is never disclosed. */
  lemma RekeyHidesKey(a: Application, r1: seq<Hex.byte>, r2: seq<Hex.byte>, now: int)
    requires |r1| == 32 && |r2| == 32
    ensures ViewOfApplication(Rekey(a, r1, now)) == ViewOfApplication(Rekey(a, r2, now))
  {
  }

  /** `getApplicationByApiKey`: the first row, in id order, holding that key. */
  function ApplicationByApiKey(applications: map<int, Application>, next: int, apiKey: string)
    : (r: Option<ApplicationView>)
    requires IdsUnder(applications, next)
    ensures r.Some? ==> exists k :: (k in applications && applications[k].apiKey == apiKey
      && ViewOfApplication(applications[k]) == r.value)
    ensures r.None? <==> forall k :: k in applications ==> applications[k].apiKey != apiKey
  {
    var a := First(applications, next, (x: Application) => x.apiKey == apiKey);
    if a.Some? then Some(ViewOfApplication(a.value)) else None
  }

  /** No stored application answers to a string that is not 64 hex digits. */
  lemma MalformedKeyFindsNothing(applications: map<int, Application>, next: int, apiKey: string)
    requires ApplicationTable(applications, next)
    requires !Hex.IsApiKey(apiKey)
    ensures ApplicationByApiKey(applications, next, apiKey).None?
  {
  }

  class ApplicationService {
    const db: Database
    const audit: AuditLogService

    constructor (db: Database)
      requires db.Valid()
      ensures this.db == db && Valid()
    {
      this.db := db;
      this.audit := new AuditLogService(db);
    }

    predicate Valid()
      reads db
    {
      audit.db == db && db.Valid()
    }

    /** `getApplicationById`: the row without its API key. */
    function GetApplicationById(applicationId: int): (r: Option<ApplicationView>)
      reads db`applications
      ensures r.Some? <==> applicationId in db.applications
      ensures r.Some? ==> r.value == ViewOfApplication(db.applications[applicationId])
    {
      if applicationId in db.applications then Some(ViewOfApplication(db.applications[applicationId])) else None
    }

    /** `createApplication`: validates, stores a fresh key under the next id,
        logs `application_created` against the new application. */
    method CreateApplication(input: ApplicationInput, random: seq<Hex.byte>, now: int)
      returns (r: Result<ApplicationView>)
      requires Valid() && |random| == 32
      modifies db`applications, db`nextApplicationId, db`auditLogs
      ensures Valid()
      ensures !ApplicationDataOk(input, false) ==>
        r == Err(Exception(ValidateApplicationData(input, false).message)) && unchanged(db)
      ensures ApplicationDataOk(input, false) ==>
        var a := NewApplication(old(db.nextApplicationId), input, random, now);
        && r == Ok(ViewOfApplication(a))
        && a.id !in old(db.applications)
        && db.applications == old(db.applications)[a.id := a]
        && db.nextApplicationId == old(db.nextApplicationId) + 1
        && db.auditLogs == old(db.auditLogs)
          + [RowOf(|old(db.auditLogs)| + 1, Event(Some(a.id), None, ApplicationCreated, map[NameKey := JStr(a.name)]), now)]
    {
      var check := ValidateApplicationData(input, false);
      if check.Fail? {
        return Err(Exception(check.message));
      }
      var id := db.nextApplicationId;
      var a := NewApplication(id, input, random, now);
      ApplicationTablePut(db.applications, id, a);
      db.applications := db.applications[id := a];
      db.nextApplicationId := id + 1;
      var application := GetApplicationById(id);
      audit.Log(Event(Some(id), None, ApplicationCreated, map[NameKey := JStr(input.name.value)]), now);
      return Ok(application.value);
    }

    /** The `UPDATE applications SET` of an accepted update and the row read
        back after it: the patched row, or null for an unknown id. */
    method WritePatch(applicationId: int, input: ApplicationInput, now: int) returns (stored: Option<Application>)
      requires Valid() && ApplicationDataOk(input, true)
      modifies db`applications
      ensures Valid()
      ensures stored == (if applicationId in old(db.applications)
        then Some(Patch(old(db.applications)[applicationId], input, now)) else None)
      ensures db.applications == (if stored.Some? then old(db.applications)[applicationId := stored.value]
        else old(db.applications))
    {
      stored := None;
      if applicationId in db.applications {
        var q := Patch(db.applications[applicationId], input, now);
        PatchKeepsWellFormed(db.applications[applicationId], input, now);
        ApplicationTablePut(db.applications, db.nextApplicationId, q);
        db.applications := db.applications[applicationId := q];
        stored := Some(q);
      }
    }

    /** `updateApplication`: writes only the supplied fields; with none it only reads. */
    method UpdateApplication(applicationId: int, input: ApplicationInput, now: int) returns (r: Result<ApplicationView>)
      requires Valid()
      modifies db`applications, db`auditLogs
      ensures Valid()
      ensures !ApplicationDataOk(input, true) ==>
        r == Err(Exception(ValidateApplicationData(input, true).message)) && unchanged(db)
      ensures ApplicationDataOk(input, true) && NoFields(input) ==>
        unchanged(db) && r == (if applicationId in db.applications
          then Ok(ViewOfApplication(db.applications[applicationId])) else Err(NullReturned))
      ensures ApplicationDataOk(input, true) && !NoFields(input) ==>
        var stored := if applicationId in old(db.applications)
          then Some(Patch(old(db.applications)[applicationId], input, now)) else None;
        && db.applications == (if stored.Some? then old(db.applications)[applicationId := stored.value]
          else old(db.applications))
        && r == (if stored.Some? then Ok(ViewOfApplication(stored.value)) else Err(NullReturned))
        && db.auditLogs == old(db.auditLogs)
          + [RowOf(|old(db.auditLogs)| + 1, Event(Some(applicationId), None, ApplicationUpdated,
                   map[NameKey := UpdatedName(input, stored)]), now)]
    {
      var check := ValidateApplicationData(input, true);
      if check.Fail? {
        return Err(Exception(check.message));
      }
      var found := GetApplicationById(applicationId);
      if NoFields(input) {
        if found.Some? {
          return Ok(found.value);
        }
        return Err(NullReturned);
      }
      var stored := WritePatch(applicationId, input, now);
      audit.Log(Event(Some(applicationId), None, ApplicationUpdated, map[NameKey := UpdatedName(input, stored)]), now);
      if stored.Some? {
        return Ok(ViewOfApplication(stored.value));
      }
      return Err(NullReturned);
    }

    /** `deleteApplication`: false for an unknown id, otherwise exactly that row goes. */
    method DeleteApplication(applicationId: int, now: int) returns (r: bool)
      requires Valid()
      modifies db`applications, db`auditLogs
      ensures Valid()
      ensures r <==> applicationId in old(db.applications)
      ensures !r ==> unchanged(db)
      ensures r ==>
        && db.applications == old(db.applications) - {applicationId}
        && db.auditLogs == old(db.auditLogs)
          + [RowOf(|old(db.auditLogs)| + 1, Event(Some(applicationId), None, ApplicationDeleted,
                   map[NameKey := JStr(old(db.applications)[applicationId].name)]), now)]
    {
      var application := GetApplicationById(applicationId);
      if application.None? {
        return false;
      }
      db.applications := db.applications - {applicationId};
      audit.Log(Event(Some(applicationId), None, ApplicationDeleted, map[NameKey := JStr(application.value.name)]), now);
      return true;
    }

    /** `regenerateApiKey`: replaces the key of an existing application, logs
        `api_key_regenerated`, and returns the row without the key. */
    method RegenerateApiKey(applicationId: int, random: seq<Hex.byte>, now: int) returns (r: Result<ApplicationView>)
      requires Valid() && |random| == 32
      modifies db`applications, db`auditLogs
      ensures Valid()
      ensures applicationId !in old(db.applications) ==> r == Err(Exception(NotFound)) && unchanged(db)
      ensures applicationId in old(db.applications) ==>
        var a := Rekey(old(db.applications)[applicationId], random, now);
        && db.applications == old(db.applications)[applicationId := a]
        && r == Ok(ViewOfApplication(a))
        && db.auditLogs == old(db.auditLogs)
          + [RowOf(|old(db.auditLogs)| + 1, Event(Some(applicationId), None, ApiKeyRegenerated,
                   map[NameKey := JStr(a.name)]), now)]
    {
      var application := GetApplicationById(applicationId);
      if application.None? {
        return Err(Exception(NotFound));
      }
      var a := Rekey(db.applications[applicationId], random, now);
      ApplicationTablePut(db.applications, db.nextApplicationId, a);
      db.applications := db.applications[applicationId := a];
      var reread := GetApplicationById(applicationId);
      audit.Log(Event(Some(applicationId), None, ApiKeyRegenerated, map[NameKey := JStr(reread.value.name)]), now);
      return Ok(reread.value);
    }
  }
}
