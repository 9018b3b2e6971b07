/**
 The in-memory control plane as a relational state: projects, services, resources, deployments, attachments,
 environment rows and secrets, with the cascading deletes. Environment rows are keyed by service and key, and so
 are the secrets that back them.
 */
module ControlPlane {
  import opened Wrappers

  type Id = int

  datatype EnvKey = EnvKey(service: Id, key: string)

  datatype Source = Api | FromResource(resource: Id)

  datatype EnvRow = EnvRow(project: Id, source: Source, secret: bool)

  /** An entry may name a source of its own. */
  datatype Entry = Entry(key: string, secret: bool, source: Option<Source>)

  /** The keys are those injected when the resource was last attached to the service. */
  datatype Attachment = Attachment(resource: Id, service: Id, keys: set<string>)

  datatype Secret = ProviderSecret(resource: Id, key: string) | ServiceSecret(service: Id, key: string)

  datatype Error = NotFound | Forbidden | InvalidKey | EmptyConnection

  /** Services and resources map to their project, deployments to their service. */
  datatype Db = Db(
    projects: set<Id>,
    services: map<Id, Id>,
    resources: map<Id, Id>,
    deployments: map<Id, Id>,
    attachments: seq<Attachment>,
    env: map<EnvKey, EnvRow>,
    secrets: set<Secret>)

  const EMPTY := Db({}, map[], map[], map[], [], map[], {})

  predicate Letter(c: char) {
    'A' <= c <= 'Z' || 'a' <= c <= 'z' || c == '_'
  }

  predicate ValidKey(key: string) {
    |key| > 0 && Letter(key[0]) && forall i :: 0 <= i < |key| ==> Letter(key[i]) || '0' <= key[i] <= '9'
  }

  // ---- What each operation does to the whole state ----

  function Kept(attachments: seq<Attachment>, services: set<Id>, resources: set<Id>): seq<Attachment> {
    if attachments == [] then []
    else
      var last := attachments[|attachments| - 1];
      Kept(attachments[..|attachments| - 1], services, resources)
        + (if last.service in services || last.resource in resources then [] else [last])
  }

  function WithoutServices(db: Db, gone: set<Id>): Db {
    db.(services := db.services - gone,
        deployments := map d | d in db.deployments && db.deployments[d] !in gone :: db.deployments[d],
        env := map e | e in db.env && e.service !in gone :: db.env[e],
        attachments := Kept(db.attachments, gone, {}))
  }

  /** The row was injected by this attachment's resource and the attachment still lists its key. */
  predicate Injects(a: Attachment, e: EnvKey, row: EnvRow) {
    a.service == e.service && e.key in a.keys && row.source == FromResource(a.resource)
  }

  function InjectedRows(db: Db, attachments: seq<Attachment>): set<EnvKey> {
    set e | e in db.env && exists a :: a in attachments && Injects(a, e, db.env[e])
  }

  /** Removes environment rows together with the secrets behind them. */
  function Stripped(db: Db, rows: set<EnvKey>): Db {
    db.(env := db.env - rows,
        secrets := set s | s in db.secrets &&
                     !(s.ServiceSecret? && var e := EnvKey(s.service, s.key); e in rows && e in db.env && db.env[e].secret))
  }

  function OfResources(attachments: seq<Attachment>, resources: set<Id>): seq<Attachment> {
    if attachments == [] then []
    else
      var last := attachments[|attachments| - 1];
      OfResources(attachments[..|attachments| - 1], resources) + (if last.resource in resources then [last] else [])
  }

  function WithoutResources(db: Db, gone: set<Id>): Db {
    var bare := Stripped(db, InjectedRows(db, OfResources(db.attachments, gone)));
    bare.(resources := db.resources - gone,
          attachments := Kept(db.attachments, {}, gone),
          secrets := set s | s in bare.secrets && !(s.ProviderSecret? && s.resource in gone))
  }

  function ServicesOf(db: Db, project: Id): set<Id> {
    set s | s in db.services && db.services[s] == project
  }

  function ResourcesOf(db: Db, project: Id): set<Id> {
    set r | r in db.resources && db.resources[r] == project
  }

  function WithoutProject(db: Db, project: Id): Db {
    if project !in db.projects then db
    else
      var bare := WithoutResources(WithoutServices(db, ServicesOf(db, project)), ResourcesOf(db, project));
      bare.(projects := db.projects - {project})
  }

  function SourceOf(entry: Entry, source: Source): Source {
    if entry.source.Some? then entry.source.value else source
  }

  function Upserted(db: Db, project: Id, service: Id, entries: seq<Entry>, source: Source): Db {
    if entries == [] then db
    else
      var before, last := Upserted(db, project, service, entries[..|entries| - 1], source), entries[|entries| - 1];
      before.(env := before.env[EnvKey(service, last.key) := EnvRow(project, SourceOf(last, source), last.secret)],
              secrets := before.secrets + if last.secret then {ServiceSecret(service, last.key)} else {})
  }

  predicate AllValid(entries: seq<Entry>) {
    forall i :: 0 <= i < |entries| ==> ValidKey(entries[i].key)
  }

  function UpsertOutcome(db: Db, project: Id, service: Id, entries: seq<Entry>): Outcome<Error> {
    if service !in db.services then Fail(NotFound)
    else if db.services[service] != project then Fail(Forbidden)
    else if !AllValid(entries) then Fail(InvalidKey)
    else Pass
  }

  function AfterUpsert(db: Db, project: Id, service: Id, entries: seq<Entry>, source: Source): Db {
    if UpsertOutcome(db, project, service, entries).Pass? then Upserted(db, project, service, entries, source) else db
  }

  function SecretEntries(keys: seq<string>): seq<Entry> {
    seq(|keys|, i requires 0 <= i < |keys| => Entry(keys[i], true, None))
  }

  function KeySet(keys: seq<string>): set<string> {
    set k | k in keys
  }

  function PositionOf(attachments: seq<Attachment>, resource: Id, service: Id): (at: Option<nat>)
    ensures at.Some? ==>
      at.value < |attachments| && attachments[at.value].resource == resource && attachments[at.value].service == service
    ensures at.None? ==> forall a :: a in attachments ==> a.resource != resource || a.service != service
  {
    if attachments == [] then None
    else
      match PositionOf(attachments[..|attachments| - 1], resource, service)
      case Some(i) => Some(i)
      case None =>
        var last := attachments[|attachments| - 1];
        if last.resource == resource && last.service == service then Some(|attachments| - 1) else None
  }

  function WithAttachment(attachments: seq<Attachment>, row: Attachment): seq<Attachment> {
    match PositionOf(attachments, row.resource, row.service)
    case None => attachments + [row]
    case Some(i) => attachments[i := row]
  }

  function AttachOutcome(db: Db, resource: Id, service: Id, keys: seq<string>): Outcome<Error> {
    if resource !in db.resources || service !in db.services then Fail(NotFound)
    else if db.resources[resource] != db.services[service] then Fail(Forbidden)
    else if !AllValid(SecretEntries(keys)) then Fail(InvalidKey)
    else Pass
  }

  /** An invalid key is only noticed after the attachment row has been stored. */
  function Attached(db: Db, resource: Id, service: Id, keys: seq<string>): Db {
    match AttachOutcome(db, resource, service, keys)
    case Pass =>
      Upserted(db.(attachments := WithAttachment(db.attachments, Attachment(resource, service, KeySet(keys)))),
               db.services[service], service, SecretEntries(keys), FromResource(resource))
    case Fail(InvalidKey) => db.(attachments := WithAttachment(db.attachments, Attachment(resource, service, KeySet(keys))))
    case Fail(_) => db
  }

  function ProviderSecrets(resource: Id, keys: seq<string>): set<Secret> {
    set k | k in keys :: ProviderSecret(resource, k)
  }

  /** Every key is looked at before anything is written. */
  method KeysAreValid(entries: seq<Entry>) returns (valid: bool)
    ensures valid <==> forall i :: 0 <= i < |entries| ==> ValidKey(entries[i].key)
  {
    for i := 0 to |entries|
      invariant forall j :: 0 <= j < i ==> ValidKey(entries[j].key)
    {
      if !ValidKey(entries[i].key) {
        return false;
      }
    }
    valid := true;
  }

  class ControlPlaneStore {
    var projects: set<Id>
    var services: map<Id, Id>
    var resources: map<Id, Id>
    var deployments: map<Id, Id>
    var attachments: seq<Attachment>
    var env: map<EnvKey, EnvRow>
    var secrets: set<Secret>

    function Contents(): Db
      reads this
    {
      Db(projects, services, resources, deployments, attachments, env, secrets)
    }

    constructor ()
      ensures Contents() == EMPTY
    {
      projects, services, resources, deployments := {}, map[], map[], map[];
      attachments, env, secrets := [], map[], {};
    }

    method CreateProject(id: Id)
      modifies this
      ensures Contents() == old(Contents()).(projects := old(projects) + {id})
    {
      projects := projects + {id};
    }

    method CreateService(id: Id, project: Id)
      modifies this
      ensures Contents() == old(Contents()).(services := old(services)[id := project])
    {
      services := services[id := project];
    }

    /** The service is not looked up. */
    method CreateDeployment(id: Id, service: Id)
      modifies this
      ensures Contents() == old(Contents()).(deployments := old(deployments)[id := service])
    {
      deployments := deployments[id := service];
    }

    /** The resource is stored first; an empty provider connection is refused afterwards. */
    method CreateResource(id: Id, project: Id, keys: seq<string>) returns (outcome: Outcome<Error>)
      modifies this
      ensures outcome == if keys == [] then Fail(EmptyConnection) else Pass
      ensures Contents() == old(Contents()).(resources := old(resources)[id := project],
                                             secrets := old(secrets) + ProviderSecrets(id, keys))
    {
      resources := resources[id := project];
      if keys == [] {
        assert ProviderSecrets(id, keys) == {};
        return Fail(EmptyConnection);
      }
      for i := 0 to |keys|
        invariant Contents() == old(Contents()).(resources := old(resources)[id := project],
                                                 secrets := old(secrets) + ProviderSecrets(id, keys[..i]))
      {
        assert keys[..i + 1] == keys[..i] + [keys[i]];
        assert ProviderSecrets(id, keys[..i + 1]) == ProviderSecrets(id, keys[..i]) + {ProviderSecret(id, keys[i])};
        secrets := secrets + {ProviderSecret(id, keys[i])};
      }
      assert keys[..|keys|] == keys;
      outcome := Pass;
    }

    method UpsertServiceEnvironment(project: Id, service: Id, entries: seq<Entry>, source: Source) returns (outcome: Outcome<Error>)
      modifies this
      ensures outcome == UpsertOutcome(old(Contents()), project, service, entries)
      ensures Contents() == AfterUpsert(old(Contents()), project, service, entries, source)
      ensures match outcome
              case Pass => service in old(services) && old(services)[service] == project && AllValid(entries)
              case Fail(error) =>
                && Contents() == old(Contents())
                && (error == NotFound <==> service !in old(services))
                && (error == Forbidden <==> service in old(services) && old(services)[service] != project)
                && (error == InvalidKey <==> service in old(services) && old(services)[service] == project && !AllValid(entries))
                && error != EmptyConnection
    {
      if service !in services {
        return Fail(NotFound);
      }
      if services[service] != project {
        return Fail(Forbidden);
      }
      var valid := KeysAreValid(entries);
      if !valid {
        return Fail(InvalidKey);
      }
      outcome := Pass;
      for i := 0 to |entries|
        invariant Contents() == Upserted(old(Contents()), project, service, entries[..i], source)
      {
        assert entries[..i + 1][..i] == entries[..i];
        if entries[i].secret {
          secrets := secrets + {ServiceSecret(service, entries[i].key)};
        }
        var origin := if entries[i].source.Some? then entries[i].source.value else source;
        env := env[EnvKey(service, entries[i].key) := EnvRow(project, origin, entries[i].secret)];
      }
      assert entries[..|entries|] == entries;
    }

    method AttachResource(resource: Id, service: Id, keys: seq<string>) returns (outcome: Outcome<Error>)
      modifies this
      ensures outcome == AttachOutcome(old(Contents()), resource, service, keys)
      ensures Contents() == Attached(old(Contents()), resource, service, keys)
      ensures match outcome
              case Pass =>
                && resource in old(resources) && service in old(services) && old(resources)[resource] == old(services)[service]
                && forall k :: k in keys ==> ValidKey(k)
              case Fail(error) =>
                && (error == NotFound <==> resource !in old(resources) || service !in old(services))
                && (error == Forbidden <==>
                    resource in old(resources) && service in old(services) && old(resources)[resource] != old(services)[service])
                && (error == InvalidKey ==> (exists k :: k in keys && !ValidKey(k)) && env == old(env) && secrets == old(secrets))
                && (error != InvalidKey ==> Contents() == old(Contents()))
                && error != EmptyConnection
    {
      ValidSecretEntries(keys);
      if resource !in resources || service !in services {
        return Fail(NotFound);
      }
      if resources[resource] != services[service] {
        return Fail(Forbidden);
      }
      var row := Attachment(resource, service, KeySet(keys));
      var at := PositionOf(attachments, resource, service);
      if at.None? {
        attachments := attachments + [row];
      } else {
        attachments := attachments[at.value := row];
      }
      outcome := UpsertServiceEnvironment(services[service], service, SecretEntries(keys), FromResource(resource));
    }

    method DeleteService(id: Id) returns (found: bool)
      modifies this
      ensures found == (id in old(services))
      ensures Contents() == if found then WithoutServices(old(Contents()), {id}) else old(Contents())
    {
      if id !in services {
        return false;
      }
      deployments := map d | d in deployments && deployments[d] !in {id} :: deployments[d];
      env := map e | e in env && e.service !in {id} :: env[e];
      attachments := Kept(attachments, {id}, {});
      services := services - {id};
      found := true;
    }

    /** Removes one row and its secret if the resource injected it. */
    method RemoveRow(e: EnvKey, resource: Id)
      modifies this
      ensures Contents() == Stripped(old(Contents()), if e in old(env) && old(env)[e].source == FromResource(resource) then {e} else {})
    {
      if e in env && env[e].source == FromResource(resource) {
        if env[e].secret {
          secrets := secrets - {ServiceSecret(e.service, e.key)};
        }
        env := env - {e};
      }
    }

    method RemoveInjectedEnvironment(attachment: Attachment)
      modifies this
      ensures Contents() == Stripped(old(Contents()), InjectedRows(old(Contents()), [attachment]))
    {
      ghost var start := Contents();
      ghost var rows := InjectedRows(start, [attachment]);
      ghost var done: set<EnvKey> := {};
      var pending := attachment.keys;
      assert Stripped(start, done) == start;
      while pending != {}
        invariant pending <= attachment.keys
        invariant done == (set e | e in rows && e.key !in pending)
        invariant Contents() == Stripped(start, done)
      {
        ghost var some := Member(pending);
        var key :| key in pending;
        var e := EnvKey(attachment.service, key);
        ghost var row := if e in rows then {e} else {};
        assert e !in done && attachment in [attachment];
        assert e in rows <==> e in env && env[e].source == FromResource(attachment.resource);
        RemoveRow(e, attachment.resource);
        StripTwice(start, done, row);
        pending := pending - {key};
        done := done + row;
      }
      assert done == rows;
    }

    method DeleteResource(id: Id) returns (found: bool)
      modifies this
      ensures found == (id in old(resources))
      ensures Contents() == if found then WithoutResources(old(Contents()), {id}) else old(Contents())
    {
      if id !in resources {
        return false;
      }
      ghost var start := Contents();
      var own := OfResources(attachments, {id});
      for i := 0 to |own|
        invariant Contents() == Stripped(start, InjectedRows(start, own[..i]))
        invariant own == OfResources(start.attachments, {id})
      {
        StripOneMore(start, own[..i], own[i]);
        assert own[..i + 1] == own[..i] + [own[i]];
        RemoveInjectedEnvironment(own[i]);
      }
      assert own[..|own|] == own;
      attachments := Kept(attachments, {}, {id});
      secrets := set s | s in secrets && !(s.ProviderSecret? && s.resource in {id});
      resources := resources - {id};
      found := true;
    }

    method DeleteProject(id: Id) returns (found: bool)
      modifies this
      ensures found == (id in old(projects))
      ensures Contents() == WithoutProject(old(Contents()), id)
    {
      if id !in projects {
        return false;
      }
      ghost var start := Contents();
      var pending := ServicesOf(Contents(), id);
      ghost var doomed := pending;
      NoServicesGone(start);
      assert doomed - doomed == {};
      while pending != {}
        invariant pending <= doomed <= start.services.Keys
        invariant Contents() == WithoutServices(start, doomed - pending)
      {
        ghost var some := Member(pending);
        var service :| service in pending;
        var _ := DeleteService(service);
        ServicesGoOneByOne(start, doomed - pending, service);
        assert doomed - (pending - {service}) == doomed - pending + {service};
        pending := pending - {service};
      }
      assert doomed - {} == doomed;
      ghost var middle := Contents();
      pending := ResourcesOf(Contents(), id);
      assert pending == ResourcesOf(start, id);
      ghost var all := pending;
      NoResourcesGone(middle);
      assert all - all == {};
      while pending != {}
        invariant pending <= all && all <= middle.resources.Keys
        invariant Contents() == WithoutResources(middle, all - pending)
      {
        ghost var some := Member(pending);
        var resource :| resource in pending;
        var _ := DeleteResource(resource);
        ResourcesGoOneByOne(middle, all - pending, resource);
        assert all - (pending - {resource}) == all - pending + {resource};
        pending := pending - {resource};
      }
      assert all - {} == all;
      projects := projects - {id};
      found := true;
    }
  }

  // ---- Cascades compose ----

  lemma StripTwice(db: Db, first: set<EnvKey>, second: set<EnvKey>)
    ensures Stripped(Stripped(db, first), second) == Stripped(db, first + second)
  {
    assert Stripped(Stripped(db, first), second).secrets == Stripped(db, first + second).secrets;
    assert Stripped(Stripped(db, first), second).env == Stripped(db, first + second).env;
  }

  lemma StripOneMore(db: Db, list: seq<Attachment>, a: Attachment)
    ensures var bare := Stripped(db, InjectedRows(db, list));
            Stripped(bare, InjectedRows(bare, [a])) == Stripped(db, InjectedRows(db, list + [a]))
  {
    var first := InjectedRows(db, list);
    var bare := Stripped(db, first);
    StripTwice(db, first, InjectedRows(bare, [a]));
    assert InjectedRows(db, list + [a]) == first + InjectedRows(bare, [a]);
  }

  lemma {:induction false} KeptTwice(xs: seq<Attachment>, s1: set<Id>, r1: set<Id>, s2: set<Id>, r2: set<Id>)
    ensures Kept(Kept(xs, s1, r1), s2, r2) == Kept(xs, s1 + s2, r1 + r2)
  {
    if xs != [] {
      var front, last := xs[..|xs| - 1], xs[|xs| - 1];
      KeptTwice(front, s1, r1, s2, r2);
      if !(last.service in s1 || last.resource in r1) {
        assert (Kept(front, s1, r1) + [last])[..|Kept(front, s1, r1)|] == Kept(front, s1, r1);
      } else {
        assert Kept(front, s1, r1) + [] == Kept(front, s1, r1);
      }
    }
  }

  lemma {:induction false} KeptMembers(xs: seq<Attachment>, services: set<Id>, resources: set<Id>)
    ensures forall a :: a in Kept(xs, services, resources) <==> a in xs && a.service !in services && a.resource !in resources
  {
    if xs != [] {
      KeptMembers(xs[..|xs| - 1], services, resources);
      assert xs == xs[..|xs| - 1] + [xs[|xs| - 1]];
    }
  }

  lemma {:induction false} OfResourcesMembers(xs: seq<Attachment>, resources: set<Id>)
    ensures forall a :: a in OfResources(xs, resources) <==> a in xs && a.resource in resources
  {
    if xs != [] {
      OfResourcesMembers(xs[..|xs| - 1], resources);
      assert xs == xs[..|xs| - 1] + [xs[|xs| - 1]];
    }
  }

  lemma ServicesGoOneByOne(db: Db, gone: set<Id>, service: Id)
    ensures WithoutServices(WithoutServices(db, gone), {service}) == WithoutServices(db, gone + {service})
  {
    KeptTwice(db.attachments, gone, {}, {service}, {});
    var none: set<Id> := {};
    assert none + none == none;
    var a, b := WithoutServices(WithoutServices(db, gone), {service}), WithoutServices(db, gone + {service});
    assert a.services == b.services && a.deployments == b.deployments && a.env == b.env;
  }

  lemma {:induction false} KeptAll(xs: seq<Attachment>)
    ensures Kept(xs, {}, {}) == xs
  {
    if xs != [] {
      KeptAll(xs[..|xs| - 1]);
      assert xs[..|xs| - 1] + [xs[|xs| - 1]] == xs;
    }
  }

  lemma NoServicesGone(db: Db)
    ensures WithoutServices(db, {}) == db
  {
    KeptAll(db.attachments);
    var none := WithoutServices(db, {});
    assert none.services == db.services && none.deployments == db.deployments && none.env == db.env;
  }

  lemma NoResourcesGone(db: Db)
    ensures WithoutResources(db, {}) == db
  {
    OfResourcesMembers(db.attachments, {});
    KeptAll(db.attachments);
    var rows := InjectedRows(db, OfResources(db.attachments, {}));
    assert rows == {};
    var none := WithoutResources(db, {});
    assert none.env == db.env && none.secrets == db.secrets && none.resources == db.resources;
  }

  /** The rows that go with one more resource are those that go with the earlier ones and those that go with it alone. */
  lemma RowsGoOneByOne(db: Db, gone: set<Id>, resource: Id)
    requires resource !in gone
    ensures var once := WithoutResources(db, gone);
            InjectedRows(db, OfResources(db.attachments, gone + {resource}))
            == InjectedRows(db, OfResources(db.attachments, gone)) + InjectedRows(once, OfResources(once.attachments, {resource}))
  {
    KeptMembers(db.attachments, {}, gone);
    OfResourcesMembers(db.attachments, gone);
    OfResourcesMembers(db.attachments, gone + {resource});
    OfResourcesMembers(WithoutResources(db, gone).attachments, {resource});
  }

  lemma ResourcesGoOneByOne(db: Db, gone: set<Id>, resource: Id)
    requires resource !in gone
    ensures WithoutResources(WithoutResources(db, gone), {resource}) == WithoutResources(db, gone + {resource})
  {
    var once := WithoutResources(db, gone);
    var r1 := InjectedRows(db, OfResources(db.attachments, gone));
    var r2 := InjectedRows(once, OfResources(once.attachments, {resource}));
    var a, b := WithoutResources(once, {resource}), WithoutResources(db, gone + {resource});
    RowsGoOneByOne(db, gone, resource);
    StripTwice(db, r1, r2);
    assert a.env == b.env;
    assert a.secrets == b.secrets;
    assert a.resources == b.resources;
    assert a.attachments == b.attachments by {
      KeptTwice(db.attachments, {}, gone, {}, {resource});
      var none: set<Id> := {};
      assert none + none == none;
    }
  }

  // ---- Referential integrity over whole runs ----

  datatype Op =
    | CreateProject(id: Id)
    | CreateService(id: Id, project: Id)
    | CreateResource(id: Id, project: Id, providerKeys: seq<string>)
    | CreateDeployment(id: Id, service: Id)
    | Attach(resource: Id, service: Id, keys: seq<string>)
    | Upsert(project: Id, service: Id, entries: seq<Entry>, source: Source)
    | DeleteService(id: Id)
    | DeleteResource(id: Id)
    | DeleteProject(id: Id)

  function Apply(db: Db, op: Op): Db {
    match op
    case CreateProject(id) => db.(projects := db.projects + {id})
    case CreateService(id, project) => db.(services := db.services[id := project])
    case CreateResource(id, project, keys) =>
      db.(resources := db.resources[id := project], secrets := db.secrets + ProviderSecrets(id, keys))
    case CreateDeployment(id, service) => db.(deployments := db.deployments[id := service])
    case Attach(resource, service, keys) => Attached(db, resource, service, keys)
    case Upsert(project, service, entries, source) => AfterUpsert(db, project, service, entries, source)
    case DeleteService(id) => if id in db.services then WithoutServices(db, {id}) else db
    case DeleteResource(id) => if id in db.resources then WithoutResources(db, {id}) else db
    case DeleteProject(id) => WithoutProject(db, id)
  }

  /**
   A creation may meet a row with its id, which it overwrites. It keeps every reference intact if it stays in the same
   project or nothing refers to the row; a deployment needs its service.
   */
  ghost predicate KeepsReferences(db: Db, op: Op) {
    match op
    case CreateService(id, project) =>
      id in db.services && db.services[id] != project ==>
        (forall a :: a in db.attachments ==> a.service != id) && (forall e :: e in db.env ==> e.service != id)
    case CreateResource(id, project, _) =>
      id in db.resources && db.resources[id] != project ==> forall a :: a in db.attachments ==> a.resource != id
    case CreateDeployment(_, service) => service in db.services
    case _ => true
  }

  ghost predicate Sound(db: Db) {
    && (forall a :: a in db.attachments ==>
          a.service in db.services && a.resource in db.resources && db.services[a.service] == db.resources[a.resource])
    && (forall e :: e in db.env ==> e.service in db.services && db.services[e.service] == db.env[e].project)
    && (forall d :: d in db.deployments ==> db.deployments[d] in db.services)
    && (forall s :: s in db.secrets && s.ProviderSecret? ==> s.resource in db.resources)
  }

  lemma {:induction false} UpsertKeepsSound(db: Db, service: Id, entries: seq<Entry>, source: Source)
    requires Sound(db) && service in db.services
    ensures Sound(Upserted(db, db.services[service], service, entries, source))
    ensures var after := Upserted(db, db.services[service], service, entries, source);
            after.services == db.services && after.attachments == db.attachments && after.resources == db.resources
  {
    if entries != [] {
      UpsertKeepsSound(db, service, entries[..|entries| - 1], source);
    }
  }

  lemma AttachKeepsSound(db: Db, resource: Id, service: Id, keys: seq<string>)
    requires Sound(db)
    ensures Sound(Attached(db, resource, service, keys))
  {
    if resource in db.resources && service in db.services && db.resources[resource] == db.services[service] {
      var row := Attachment(resource, service, KeySet(keys));
      var listed := db.(attachments := WithAttachment(db.attachments, row));
      assert forall a :: a in listed.attachments ==> a == row || a in db.attachments;
      assert Sound(listed);
      UpsertKeepsSound(listed, service, SecretEntries(keys), FromResource(resource));
    }
  }

  lemma WithoutServicesKeepsSound(db: Db, gone: set<Id>)
    requires Sound(db)
    ensures Sound(WithoutServices(db, gone))
  {
    KeptMembers(db.attachments, gone, {});
  }

  lemma WithoutResourcesKeepsSound(db: Db, gone: set<Id>)
    requires Sound(db)
    ensures Sound(WithoutResources(db, gone))
  {
    KeptMembers(db.attachments, {}, gone);
  }

  lemma CreateServiceKeepsSoundExactly(db: Db, id: Id, project: Id)
    requires Sound(db)
    ensures Sound(Apply(db, CreateService(id, project))) <==> KeepsReferences(db, CreateService(id, project))
  {
    var t := Apply(db, CreateService(id, project));
    if !KeepsReferences(db, CreateService(id, project)) {
      if a :| a in db.attachments && a.service == id {
        assert a in t.attachments;
      } else {
        var e :| e in db.env && e.service == id;
        assert e in t.env;
      }
    }
  }

  lemma CreateResourceKeepsSoundExactly(db: Db, id: Id, project: Id, keys: seq<string>)
    requires Sound(db)
    ensures Sound(Apply(db, CreateResource(id, project, keys))) <==> KeepsReferences(db, CreateResource(id, project, keys))
  {
    if a :| a in db.attachments && a.resource == id {
      assert a in Apply(db, CreateResource(id, project, keys)).attachments;
    }
  }

  /**
   One call keeps referential integrity exactly when it is no creation that moves a row still referred to into another
   project, and no deployment created for a missing service.
   */
  lemma StepKeepsSoundExactly(db: Db, op: Op)
    requires Sound(db)
    ensures Sound(Apply(db, op)) <==> KeepsReferences(db, op)
  {
    match op
    case CreateProject(_) =>
    case CreateService(id, project) => CreateServiceKeepsSoundExactly(db, id, project);
    case CreateResource(id, project, keys) => CreateResourceKeepsSoundExactly(db, id, project, keys);
    case CreateDeployment(id, _) => assert id in Apply(db, op).deployments;
    case Attach(resource, service, keys) => AttachKeepsSound(db, resource, service, keys);
    case Upsert(project, service, entries, source) =>
      if UpsertOutcome(db, project, service, entries).Pass? {
        UpsertKeepsSound(db, service, entries, source);
      }
    case DeleteService(id) => WithoutServicesKeepsSound(db, {id});
    case DeleteResource(id) => WithoutResourcesKeepsSound(db, {id});
    case DeleteProject(id) =>
      WithoutServicesKeepsSound(db, ServicesOf(db, id));
      WithoutResourcesKeepsSound(WithoutServices(db, ServicesOf(db, id)), ResourcesOf(db, id));
  }

  ghost predicate AlwaysSound(db: Db, run: seq<Op>)
    decreases |run|
  {
    Sound(db) && (run == [] || AlwaysSound(Apply(db, run[0]), run[1..]))
  }

  ghost predicate Valid(db: Db, run: seq<Op>)
    decreases |run|
  {
    run == [] || (KeepsReferences(db, run[0]) && Valid(Apply(db, run[0]), run[1..]))
  }

  function After(db: Db, run: seq<Op>): Db
    decreases |run|
  {
    if run == [] then db else After(Apply(db, run[0]), run[1..])
  }

  /** A run from a sound state is sound at every point exactly when each of its calls keeps the references. */
  lemma {:induction false} RunKeepsSoundExactly(db: Db, run: seq<Op>)
    requires Sound(db)
    ensures AlwaysSound(db, run) <==> Valid(db, run)
    decreases |run|
  {
    if run != [] {
      StepKeepsSoundExactly(db, run[0]);
      if KeepsReferences(db, run[0]) {
        RunKeepsSoundExactly(Apply(db, run[0]), run[1..]);
      }
    }
  }

  /** In particular the state a valid run from the empty store ends in is sound. */
  lemma {:induction false} ReachableIsSound(db: Db, run: seq<Op>)
    requires Sound(db) && Valid(db, run)
    ensures Sound(After(db, run))
    decreases |run|
  {
    if run != [] {
      StepKeepsSoundExactly(db, run[0]);
      ReachableIsSound(Apply(db, run[0]), run[1..]);
    }
  }

  /**
   Deleting a project removes everything of the project and nothing else, with one thing left behind: every secret
   that backs a service's environment stays, those of the deleted services included.
   */
  lemma ProjectDeletionIsExact(db: Db, project: Id)
    requires Sound(db) && project in db.projects
    ensures var after := WithoutProject(db, project);
            && after.projects == db.projects - {project}
            && (forall s :: s in after.services <==> s in db.services && db.services[s] != project)
            && (forall r :: r in after.resources <==> r in db.resources && db.resources[r] != project)
            && (forall d :: d in after.deployments <==> d in db.deployments && db.services[db.deployments[d]] != project)
            && (forall e :: e in after.env <==> e in db.env && db.env[e].project != project)
            && (forall a :: a in after.attachments <==> a in db.attachments && db.services[a.service] != project)
            && (forall s :: s in after.secrets <==>
                  s in db.secrets && (s.ProviderSecret? ==> db.resources[s.resource] != project))
  {
    var services, resources := ServicesOf(db, project), ResourcesOf(db, project);
    var middle := WithoutServices(db, services);
    KeptMembers(db.attachments, services, {});
    KeptMembers(middle.attachments, {}, resources);
    OfResourcesMembers(middle.attachments, resources);
    assert InjectedRows(middle, OfResources(middle.attachments, resources)) == {};
  }

  /**
   Deleting a resource removes an environment row it injected exactly when its current attachment to that service
   still lists the key.
   */
  lemma InjectedRowGoesExactly(db: Db, resource: Id, e: EnvKey)
    requires e in db.env && db.env[e].source == FromResource(resource)
    ensures e !in WithoutResources(db, {resource}).env
        <==> exists a :: a in db.attachments && a.resource == resource && a.service == e.service && e.key in a.keys
  {
    OfResourcesMembers(db.attachments, {resource});
  }

  function Injected(service: Id, keys: seq<string>): set<EnvKey> {
    set k | k in keys :: EnvKey(service, k)
  }

  function Backing(service: Id, keys: seq<string>): set<Secret> {
    set k | k in keys :: ServiceSecret(service, k)
  }

  lemma UpsertedLast(db: Db, project: Id, service: Id, keys: seq<string>, source: Source)
    requires keys != []
    ensures var before, last := Upserted(db, project, service, SecretEntries(keys[..|keys| - 1]), source), keys[|keys| - 1];
            Upserted(db, project, service, SecretEntries(keys), source)
            == before.(env := before.env[EnvKey(service, last) := EnvRow(project, source, true)],
                       secrets := before.secrets + {ServiceSecret(service, last)})
  {
    assert SecretEntries(keys)[..|keys| - 1] == SecretEntries(keys[..|keys| - 1]);
  }

  /** Injecting secret entries writes exactly one row and one secret for each key, and nothing else. */
  lemma {:induction false} SecretUpsertIsExact(db: Db, project: Id, service: Id, keys: seq<string>, source: Source)
    ensures var after := Upserted(db, project, service, SecretEntries(keys), source);
            && after == db.(env := after.env, secrets := db.secrets + Backing(service, keys))
            && after.env.Keys == db.env.Keys + Injected(service, keys)
            && (forall e :: e in after.env ==>
                  after.env[e] == if e in Injected(service, keys) then EnvRow(project, source, true) else db.env[e])
  {
    if keys != [] {
      var front, last := keys[..|keys| - 1], keys[|keys| - 1];
      SecretUpsertIsExact(db, project, service, front, source);
      UpsertedLast(db, project, service, keys, source);
      hide Upserted, SecretEntries;
      assert keys == front + [last];
      assert Injected(service, keys) == Injected(service, front) + {EnvKey(service, last)};
      assert Backing(service, keys) == Backing(service, front) + {ServiceSecret(service, last)};
    }
  }

  /**
   A listed key has a row that carries the project and, of the last entry with that key, the secret flag and the entry's own
   source before the call's.
   */
  lemma {:induction false} LastEntryStands(db: Db, project: Id, service: Id, entries: seq<Entry>, source: Source, i: nat)
    requires i < |entries| && forall j :: i < j < |entries| ==> entries[j].key != entries[i].key
    ensures var after, row := Upserted(db, project, service, entries, source), EnvKey(service, entries[i].key);
            && row in after.env
            && after.env[row].project == project && after.env[row].secret == entries[i].secret
            && after.env[row].source == match entries[i].source case Some(own) => own case None => source
  {
    if i < |entries| - 1 {
      LastEntryStands(db, project, service, entries[..|entries| - 1], source, i);
    }
  }

  /** Every row under another key or of another service is as it was, and so are all other tables. */
  lemma {:induction false} OtherRowsStay(db: Db, project: Id, service: Id, entries: seq<Entry>, source: Source, e: EnvKey)
    requires e.service != service || forall i :: 0 <= i < |entries| ==> entries[i].key != e.key
    ensures var after := Upserted(db, project, service, entries, source);
            && after == db.(env := after.env, secrets := after.secrets)
            && (e in after.env <==> e in db.env) && (e in db.env ==> after.env[e] == db.env[e])
  {
    if entries != [] {
      OtherRowsStay(db, project, service, entries[..|entries| - 1], source, e);
    }
  }

  /** The secrets grow by exactly the keys of secret entries, even where a later entry of the same key is not secret. */
  lemma {:induction false} SecretsGrowExactly(db: Db, project: Id, service: Id, entries: seq<Entry>, source: Source, x: Secret)
    ensures x in Upserted(db, project, service, entries, source).secrets
        <==> x in db.secrets || exists i :: 0 <= i < |entries| && entries[i].secret && x == ServiceSecret(service, entries[i].key)
  {
    if entries != [] {
      var front := entries[..|entries| - 1];
      SecretsGrowExactly(db, project, service, front, source, x);
      assert forall i :: 0 <= i < |front| ==> front[i] == entries[i];
    }
  }

  lemma ValidSecretEntries(keys: seq<string>)
    ensures AllValid(SecretEntries(keys)) <==> forall k :: k in keys ==> ValidKey(k)
  {
    if AllValid(SecretEntries(keys)) {
      forall i | 0 <= i < |keys|
        ensures ValidKey(keys[i])
      {
        assert SecretEntries(keys)[i].key == keys[i];
      }
    }
  }

  /** A key is valid if it is a letter or underscore followed by letters, digits and underscores. */
  lemma ValidKeyExactly(key: string)
    ensures ValidKey(key) <==>
            && key != "" && !('0' <= key[0] <= '9')
            && forall i :: 0 <= i < |key| ==>
                 'A' <= key[i] <= 'Z' || 'a' <= key[i] <= 'z' || '0' <= key[i] <= '9' || key[i] == '_'
  {
    if key != "" && ValidKey(key) {
      assert Letter(key[0]);
    }
  }

  /** The deleted service's deployments, environment rows and attachments go with it; resources and secrets stay. */
  lemma ServiceDeletionIsExact(db: Db, id: Id)
    ensures var after := WithoutServices(db, {id});
            && after == db.(services := after.services, deployments := after.deployments, env := after.env, attachments := after.attachments)
            && (forall s :: s in after.services <==> s in db.services && s != id)
            && (forall d :: d in after.deployments <==> d in db.deployments && db.deployments[d] != id)
            && (forall e :: e in after.env <==> e in db.env && e.service != id)
            && (forall a :: a in after.attachments <==> a in db.attachments && a.service != id)
            && (forall s :: s in after.services ==> after.services[s] == db.services[s])
            && (forall d :: d in after.deployments ==> after.deployments[d] == db.deployments[d])
            && (forall e :: e in after.env ==> after.env[e] == db.env[e])
  {
    KeptMembers(db.attachments, {id}, {});
  }

  /**
   The deleted resource's attachments and provider secrets go with it, and of the environment rows exactly those it injected
   under a key that one of its attachments to the row's service lists, with the secret of every secret row among them.
   */
  lemma ResourceDeletionIsExact(db: Db, id: Id)
    ensures var after := WithoutResources(db, {id});
            && after == db.(resources := after.resources, attachments := after.attachments, env := after.env, secrets := after.secrets)
            && (forall r :: r in after.resources <==> r in db.resources && r != id)
            && (forall r :: r in after.resources ==> after.resources[r] == db.resources[r])
            && (forall a :: a in after.attachments <==> a in db.attachments && a.resource != id)
            && (forall e :: e in after.env ==> e in db.env && after.env[e] == db.env[e])
            && (forall e :: e in db.env ==>
                  (e !in after.env <==>
                   db.env[e].source == FromResource(id)
                   && exists a :: a in db.attachments && a.resource == id && a.service == e.service && e.key in a.keys))
            && (forall x :: x in after.secrets <==>
                  && x in db.secrets
                  && match x
                     case ProviderSecret(resource, _) => resource != id
                     case ServiceSecret(service, key) =>
                       !(var e := EnvKey(service, key); e in db.env && e !in after.env && db.env[e].secret))
  {
    KeptMembers(db.attachments, {}, {id});
    OfResourcesMembers(db.attachments, {id});
    var rows := InjectedRows(db, OfResources(db.attachments, {id}));
    forall e | e in db.env
      ensures e in rows <==>
        db.env[e].source == FromResource(id)
        && exists a :: a in db.attachments && a.resource == id && a.service == e.service && e.key in a.keys
    {
    }
  }

  // ---- One attachment for each pair ----

  predicate SamePair(a: Attachment, b: Attachment) {
    a.resource == b.resource && a.service == b.service
  }

  ghost predicate PairsOnce(attachments: seq<Attachment>) {
    forall i, j :: 0 <= i < j < |attachments| ==> !SamePair(attachments[i], attachments[j])
  }

  lemma {:induction false} KeptKeepsPairs(xs: seq<Attachment>, services: set<Id>, resources: set<Id>)
    requires PairsOnce(xs)
    ensures PairsOnce(Kept(xs, services, resources))
  {
    if xs != [] {
      var front, last := xs[..|xs| - 1], xs[|xs| - 1];
      var kept := Kept(front, services, resources);
      KeptKeepsPairs(front, services, resources);
      KeptMembers(front, services, resources);
      forall i | 0 <= i < |kept|
        ensures !SamePair(kept[i], last)
      {
        assert kept[i] in front;
      }
    }
  }

  lemma {:induction false} UpsertKeepsAttachments(db: Db, project: Id, service: Id, entries: seq<Entry>, source: Source)
    ensures Upserted(db, project, service, entries, source).attachments == db.attachments
  {
    if entries != [] {
      UpsertKeepsAttachments(db, project, service, entries[..|entries| - 1], source);
    }
  }

  lemma AttachmentsAfterAttach(db: Db, resource: Id, service: Id, keys: seq<string>)
    ensures var row, outcome := Attachment(resource, service, KeySet(keys)), AttachOutcome(db, resource, service, keys);
            Attached(db, resource, service, keys).attachments
            == if outcome == Pass || outcome == Fail(InvalidKey) then WithAttachment(db.attachments, row) else db.attachments
  {
    var listed := db.(attachments := WithAttachment(db.attachments, Attachment(resource, service, KeySet(keys))));
    if service in db.services {
      UpsertKeepsAttachments(listed, db.services[service], service, SecretEntries(keys), FromResource(resource));
    }
  }

  lemma StepKeepsPairs(db: Db, op: Op)
    requires PairsOnce(db.attachments)
    ensures PairsOnce(Apply(db, op).attachments)
  {
    match op
    case CreateProject(_) =>
    case CreateService(_, _) =>
    case CreateResource(_, _, _) =>
    case CreateDeployment(_, _) =>
    case Attach(resource, service, keys) => AttachmentsAfterAttach(db, resource, service, keys);
    case Upsert(project, service, entries, source) => UpsertKeepsAttachments(db, project, service, entries, source);
    case DeleteService(id) => KeptKeepsPairs(db.attachments, {id}, {});
    case DeleteResource(id) => KeptKeepsPairs(db.attachments, {}, {id});
    case DeleteProject(id) =>
      KeptKeepsPairs(db.attachments, ServicesOf(db, id), {});
      KeptKeepsPairs(Kept(db.attachments, ServicesOf(db, id), {}), {}, ResourcesOf(db, id));
  }

  /** Over every run a resource and a service have at most one attachment, however often they are attached. */
  lemma {:induction false} RunKeepsPairs(db: Db, run: seq<Op>)
    requires PairsOnce(db.attachments)
    ensures PairsOnce(After(db, run).attachments)
    decreases |run|
  {
    if run != [] {
      StepKeepsPairs(db, run[0]);
      RunKeepsPairs(Apply(db, run[0]), run[1..]);
    }
  }

  /** Attaching leaves the pair with exactly the keys of this call, invalid ones included, and every other attachment as it was. */
  lemma AttachmentIsExact(db: Db, resource: Id, service: Id, keys: seq<string>, a: Attachment)
    requires PairsOnce(db.attachments)
    requires resource in db.resources && service in db.services && db.resources[resource] == db.services[service]
    ensures a in Attached(db, resource, service, keys).attachments <==>
            if a.resource == resource && a.service == service then forall k :: k in a.keys <==> k in keys else a in db.attachments
  {
    AttachmentsAfterAttach(db, resource, service, keys);
    var row := Attachment(resource, service, KeySet(keys));
    var listed := WithAttachment(db.attachments, row);
    if a.resource == resource && a.service == service {
      assert (forall k :: k in a.keys <==> k in keys) <==> a.keys == row.keys;
      match PositionOf(db.attachments, resource, service)
      case None => assert listed[|db.attachments|] == row;
      case Some(i) =>
        assert listed[i] == row;
        forall j | 0 <= j < |listed| && j != i
          ensures listed[j] != a
        {
          assert SamePair(db.attachments[i], row) && !SamePair(db.attachments[if i < j then i else j], db.attachments[if i < j then j else i]);
        }
    } else if a in db.attachments {
      var j :| 0 <= j < |db.attachments| && db.attachments[j] == a;
      assert listed[j] == a;
    }
  }

  predicate Attachable(db: Db, resource: Id, service: Id, keys: seq<string>) {
    AttachOutcome(db, resource, service, keys).Pass? && PositionOf(db.attachments, resource, service) == None
  }

  lemma AttachedAnew(db: Db, resource: Id, service: Id, keys: seq<string>) returns (after: Db)
    requires Attachable(db, resource, service, keys)
    ensures after == Attached(db, resource, service, keys)
    ensures after == db.(attachments := db.attachments + [Attachment(resource, service, KeySet(keys))],
                         env := after.env, secrets := db.secrets + Backing(service, keys))
    ensures after.env.Keys == db.env.Keys + Injected(service, keys)
    ensures forall e :: e in after.env ==>
              after.env[e] == if e in Injected(service, keys) then EnvRow(db.services[service], FromResource(resource), true) else db.env[e]
  {
    after := Attached(db, resource, service, keys);
    var listed := db.(attachments := db.attachments + [Attachment(resource, service, KeySet(keys))]);
    SecretUpsertIsExact(listed, db.services[service], service, keys, FromResource(resource));
  }

  lemma OfResourcesFurther(xs: seq<Attachment>, row: Attachment)
    ensures OfResources(xs + [row], {row.resource}) == OfResources(xs, {row.resource}) + [row]
  {
    assert (xs + [row])[..|xs|] == xs;
  }

  /** The attachments of an unattached resource's other services inject nothing under the service's keys, old or new. */
  lemma OtherAttachments(db: Db, after: Db, attachments: seq<Attachment>, changed: set<EnvKey>)
    requires forall a, e :: a in attachments && e in changed ==> a.service != e.service
    requires after.env.Keys == db.env.Keys + changed
    requires forall e :: e in db.env && e !in changed ==> after.env[e] == db.env[e]
    ensures InjectedRows(after, attachments) == InjectedRows(db, attachments)
  {
    forall e
      ensures e in InjectedRows(after, attachments) <==> e in InjectedRows(db, attachments)
    {
      if e in changed {
        assert forall a :: a in attachments ==> a.service != e.service;
      }
    }
  }

  lemma RowsOfNewAttachment(db: Db, resource: Id, service: Id, keys: seq<string>)
    requires Attachable(db, resource, service, keys)
    ensures var after := Attached(db, resource, service, keys);
            InjectedRows(after, OfResources(after.attachments, {resource}))
            == InjectedRows(db, OfResources(db.attachments, {resource})) + Injected(service, keys)
  {
    var after := AttachedAnew(db, resource, service, keys);
    var row, earlier, rows := Attachment(resource, service, KeySet(keys)), OfResources(db.attachments, {resource}), Injected(service, keys);
    OfResourcesFurther(db.attachments, row);
    OfResourcesMembers(db.attachments, {resource});
    OtherAttachments(db, after, earlier, rows);
    RowsOfOne(after, row, rows);
    RowsAdd(after, earlier, row);
  }

  lemma RowsOfOne(after: Db, row: Attachment, rows: set<EnvKey>)
    requires rows <= after.env.Keys && forall e :: e in rows ==> Injects(row, e, after.env[e])
    requires forall e: EnvKey :: e.service == row.service && e.key in row.keys ==> e in rows
    ensures InjectedRows(after, [row]) == rows
  {
    assert row in [row];
  }

  lemma RowsAdd(db: Db, list: seq<Attachment>, row: Attachment)
    ensures InjectedRows(db, list + [row]) == InjectedRows(db, list) + InjectedRows(db, [row])
  {
    assert row in [row] && forall a :: a in list + [row] <==> a in list || a == row;
  }

  lemma NewAttachmentGoes(attachments: seq<Attachment>, row: Attachment)
    ensures Kept(attachments + [row], {}, {row.resource}) == Kept(attachments, {}, {row.resource})
  {
    assert (attachments + [row])[..|attachments|] == attachments;
  }

  /** No row under a key of a service that the resource is not attached to goes with the resource. */
  lemma UnattachedRowsStay(db: Db, resource: Id, service: Id, keys: seq<string>)
    requires PositionOf(db.attachments, resource, service) == None
    ensures InjectedRows(db, OfResources(db.attachments, {resource})) !! Injected(service, keys)
  {
    OfResourcesMembers(db.attachments, {resource});
  }

  lemma EnvAfterUndo(db: Db, resource: Id, service: Id, keys: seq<string>)
    requires Attachable(db, resource, service, keys)
    ensures var undone, never := WithoutResources(Attached(db, resource, service, keys), {resource}), WithoutResources(db, {resource});
            && undone == never.(env := undone.env, secrets := undone.secrets)
            && undone.env == never.env - Injected(service, keys)
            && (forall e :: e in Injected(service, keys) && e in db.env ==> e in never.env)
  {
    var after := AttachedAnew(db, resource, service, keys);
    RowsOfNewAttachment(db, resource, service, keys);
    UnattachedRowsStay(db, resource, service, keys);
    NewAttachmentGoes(db.attachments, Attachment(resource, service, KeySet(keys)));
    var gone, rows := InjectedRows(db, OfResources(db.attachments, {resource})), Injected(service, keys);
    assert after.env - (gone + rows) == (db.env - gone) - rows;
  }

  lemma SecretsAfterUndo(db: Db, resource: Id, service: Id, keys: seq<string>)
    requires Attachable(db, resource, service, keys) && Injected(service, keys) !! db.env.Keys
    ensures var undone, never := WithoutResources(Attached(db, resource, service, keys), {resource}), WithoutResources(db, {resource});
            && (forall x :: x in undone.secrets <==> x in never.secrets && x !in Backing(service, keys))
            && (forall x :: x in Backing(service, keys) && x in db.secrets ==> x in never.secrets)
  {
    var after := AttachedAnew(db, resource, service, keys);
    RowsOfNewAttachment(db, resource, service, keys);
    forall x: Secret | x.ServiceSecret?
      ensures x in Backing(service, keys) <==> EnvKey(x.service, x.key) in Injected(service, keys)
    {
    }
  }

  /**
   Deleting a resource undoes its first attachment to a service exactly when the attachment overwrote nothing: no
   environment row of the service and no secret of it existed under an injected key.
   */
  lemma DeletionUndoesAttachmentExactly(db: Db, resource: Id, service: Id, keys: seq<string>)
    requires Attachable(db, resource, service, keys)
    ensures WithoutResources(Attached(db, resource, service, keys), {resource}) == WithoutResources(db, {resource})
        <==> Injected(service, keys) !! db.env.Keys && Backing(service, keys) !! db.secrets
  {
    var undone, never := WithoutResources(Attached(db, resource, service, keys), {resource}), WithoutResources(db, {resource});
    EnvAfterUndo(db, resource, service, keys);
    if e :| e in Injected(service, keys) && e in db.env {
      assert e in never.env && e !in undone.env;
    } else {
      assert never.env.Keys <= db.env.Keys;
      assert undone.env == never.env;
      SecretsAfterUndo(db, resource, service, keys);
      if x :| x in Backing(service, keys) && x in db.secrets {
        assert x in never.secrets && x !in undone.secrets;
      } else {
        assert never.secrets <= db.secrets;
        assert undone.secrets == never.secrets;
      }
    }
  }

  /**
   Attaching a resource again under another key strands the first row: it outlives even the resource that
   injected it, because the attachment has forgotten the key.
   */
  lemma ReattachingStrandsRows(db: Db, resource: Id, service: Id, first: string, second: string)
    requires ValidKey(first) && ValidKey(second) && first != second
    requires resource in db.resources && service in db.services && db.resources[resource] == db.services[service]
    requires PositionOf(db.attachments, resource, service) == None
    ensures var end := WithoutResources(Attached(Attached(db, resource, service, [first]), resource, service, [second]), {resource});
            resource !in end.resources && EnvKey(service, first) in end.env
            && end.env[EnvKey(service, first)].source == FromResource(resource)
  {
    assert SecretEntries([first])[0].key == first && KeySet([first]) == {first};
    var once := AttachedAnew(db, resource, service, [first]);
    var twice := AttachedAgain(once, db.attachments, resource, service, {first}, second);
    assert EnvKey(service, first) in Injected(service, [first]);
    InjectedRowGoesExactly(twice, resource, EnvKey(service, first));
  }

  /** The second attachment replaces the first in the list, and writes one row under its own key. */
  lemma AttachedAgain(once: Db, before: seq<Attachment>, resource: Id, service: Id, keys: set<string>, second: string) returns (twice: Db)
    requires ValidKey(second) && PositionOf(before, resource, service) == None
    requires resource in once.resources && service in once.services && once.resources[resource] == once.services[service]
    requires once.attachments == before + [Attachment(resource, service, keys)]
    ensures twice == Attached(once, resource, service, [second])
    ensures twice.resources == once.resources && twice.attachments == before + [Attachment(resource, service, {second})]
    ensures forall e :: e in once.env && e != EnvKey(service, second) ==> e in twice.env && twice.env[e] == once.env[e]
  {
    twice := Attached(once, resource, service, [second]);
    assert SecretEntries([second])[0].key == second && KeySet([second]) == {second};
    assert once.attachments[..|before|] == before;
    assert PositionOf(once.attachments, resource, service) == Some(|before|);
    var listed := once.(attachments := WithAttachment(once.attachments, Attachment(resource, service, {second})));
    SecretUpsertIsExact(listed, once.services[service], service, [second], FromResource(resource));
  }
}
