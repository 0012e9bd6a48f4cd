/** Moving legacy accounting credentials from settings rows to connections, from
    packages/db/src/migrate.ts. */
module LegacyConnections {
  import opened Wrappers

  datatype Provider = Qbo | Xero

  datatype Field = AccessToken | RefreshToken | Realm | ExpiresAt | Connected

  datatype SettingKey = SettingKey(organizationId: string, key: string)

  type Settings = map<SettingKey, Option<string>>

  datatype ConnectionKey = ConnectionKey(organizationId: string, provider: Provider)

  datatype Status = Active | Revoked | ReconnectRequired

  datatype Connection = Connection(
    id: string,
    realmId: string,
    accessToken: Option<string>,
    refreshToken: Option<string>,
    accessExpiresAt: Option<int>,
    status: Status,
    scopes: string
  )

  type Connections = map<ConnectionKey, Connection>

  /** A sync record, as far as it is concerned here. */
  datatype Record = Record(organizationId: string, provider: Provider, connectionId: Option<string>)

  datatype Tables = Tables(settings: Settings, connections: Connections, records: map<string, Record>)

  /** Library behaviour: encryption, reading a number of milliseconds, and the ids of new rows. */
  datatype Env = Env(encrypt: string -> string, expiry: Option<string> -> Option<int>, newId: ConnectionKey -> string)

  // ---------------------------------------------------------------- legacy rows

  function KeyOf(provider: Provider, field: Field): string {
    match (provider, field)
    case (Qbo, AccessToken) => "qbo_access_token"
    case (Qbo, RefreshToken) => "qbo_refresh_token"
    case (Qbo, Realm) => "qbo_realm_id"
    case (Qbo, ExpiresAt) => "qbo_token_expires_at"
    case (Qbo, Connected) => "qbo_connected"
    case (Xero, AccessToken) => "xero_access_token"
    case (Xero, RefreshToken) => "xero_refresh_token"
    case (Xero, Realm) => "xero_tenant_id"
    case (Xero, ExpiresAt) => "xero_token_expires_at"
    case (Xero, Connected) => "xero_connected"
  }

  function Prefix(provider: Provider): string {
    match provider
    case Qbo => "qbo_"
    case Xero => "xero_"
  }

  /** The ten keys the migration selects. */
  predicate IsLegacy(key: string) {
    IsLegacyOf(key, Qbo) || IsLegacyOf(key, Xero)
  }

  predicate IsLegacyOf(key: string, provider: Provider) {
    || key == KeyOf(provider, AccessToken) || key == KeyOf(provider, RefreshToken) || key == KeyOf(provider, Realm)
    || key == KeyOf(provider, ExpiresAt) || key == KeyOf(provider, Connected)
  }

  function Initial(provider: Provider): char {
    if provider.Qbo? then 'q' else 'x'
  }

  lemma {:induction false} KeyStart(key: string, provider: Provider)
    requires IsLegacyOf(key, provider)
    ensures |key| > 0 && key[0] == Initial(provider) && Prefix(provider) <= key
  {
  }

  lemma {:induction false} PrefixStart(provider: Provider)
    ensures |Prefix(provider)| > 0 && Prefix(provider)[0] == Initial(provider)
  {
  }

  /** A legacy key belongs to the provider whose prefix it has. */
  lemma {:induction false} PrefixTellsProvider(key: string, provider: Provider)
    requires IsLegacy(key)
    ensures Prefix(provider) <= key <==> IsLegacyOf(key, provider)
  {
    hide IsLegacyOf, Prefix;
    var own := if IsLegacyOf(key, Qbo) then Qbo else Xero;
    KeyStart(key, own);
    PrefixStart(provider);
    if IsLegacyOf(key, provider) {
      KeyStart(key, provider);
    }
    assert Prefix(provider) <= key ==> key[0] == Prefix(provider)[0];
    assert own == provider || Initial(own) != Initial(provider);
  }

  /** The value the migration works with: a missing row has none, a null value counts as empty. */
  function Lookup(settings: Settings, organizationId: string, provider: Provider, field: Field): Option<string> {
    var k := SettingKey(organizationId, KeyOf(provider, field));
    if k !in settings then None else Some(Text(settings[k]))
  }

  function Text(value: Option<string>): string {
    if value.Some? then value.value else ""
  }

  predicate Given(value: Option<string>) {
    value.Some? && value.value != ""
  }

  predicate HasLegacy(settings: Settings, c: ConnectionKey) {
    exists k :: k in settings && k.organizationId == c.organizationId && IsLegacyOf(k.key, c.provider)
  }

  predicate AnyLegacy(settings: Settings) {
    exists k :: k in settings && IsLegacy(k.key)
  }

  // ---------------------------------------------------------------- the migrated tables

  /** A provider's settings in one organization. */
  datatype Legacy = Legacy(
    accessToken: Option<string>,
    refreshToken: Option<string>,
    realm: Option<string>,
    expiresAt: Option<string>,
    connected: Option<string>
  )

  function LegacyOf(settings: Settings, c: ConnectionKey): Legacy {
    Legacy(Lookup(settings, c.organizationId, c.provider, AccessToken),
           Lookup(settings, c.organizationId, c.provider, RefreshToken),
           Lookup(settings, c.organizationId, c.provider, Realm),
           Lookup(settings, c.organizationId, c.provider, ExpiresAt),
           Lookup(settings, c.organizationId, c.provider, Connected))
  }

  predicate IsTrue(value: Option<string>) {
    value == Some("true")
  }

  function Unresolved(): string {
    "legacy-unresolved"
  }

  function StatusOf(legacy: Legacy): Status {
    if !IsTrue(legacy.connected) then Revoked
    else if Given(legacy.realm) && (Given(legacy.accessToken) || Given(legacy.refreshToken)) then Active
    else ReconnectRequired
  }

  function Scopes(provider: Provider): string {
    match provider
    case Qbo => "com.intuit.quickbooks.accounting"
    case Xero => "accounting.transactions accounting.contacts accounting.settings offline_access"
  }

  function NewConnection(env: Env, legacy: Legacy, c: ConnectionKey): Connection {
    var active := StatusOf(legacy).Active?;
    Connection(env.newId(c),
               if Given(legacy.realm) then legacy.realm.value else Unresolved(),
               if active && Given(legacy.accessToken) then Some(env.encrypt(legacy.accessToken.value)) else None,
               if active && Given(legacy.refreshToken) then Some(env.encrypt(legacy.refreshToken.value)) else None,
               env.expiry(legacy.expiresAt), StatusOf(legacy), Scopes(c.provider))
  }

  function LegaciesOf(settings: Settings, provider: Provider): set<ConnectionKey> {
    set k | k in settings && IsLegacyOf(k.key, provider) :: ConnectionKey(k.organizationId, provider)
  }

  /** The organizations and providers that have legacy rows. */
  function Legacies(settings: Settings): set<ConnectionKey> {
    LegaciesOf(settings, Qbo) + LegaciesOf(settings, Xero)
  }

  function MigratedConnections(env: Env, settings: Settings, connections: Connections): Connections {
    map c | c in connections.Keys + Legacies(settings) ::
      if c in connections then connections[c] else NewConnection(env, LegacyOf(settings, c), c)
  }

  function Linked(record: Record, connections: Connections): Record {
    var c := ConnectionKey(record.organizationId, record.provider);
    if record.connectionId.None? && c in connections then record.(connectionId := Some(connections[c].id)) else record
  }

  function Migrated(env: Env, tables: Tables): Tables {
    var connections := MigratedConnections(env, tables.settings, tables.connections);
    Tables(map k | k in tables.settings && !IsLegacy(k.key) :: tables.settings[k],
           connections,
           if AnyLegacy(tables.settings) then map id | id in tables.records :: Linked(tables.records[id], connections)
           else tables.records)
  }

  // ---------------------------------------------------------------- the migration

  /** Settings grouped by organization, as read from the rows in `rows`. */
  ghost predicate Grouped(settings: Settings, rows: set<SettingKey>, groups: map<string, map<string, string>>) {
    && (forall k :: k in rows ==> k in settings && k.organizationId in groups && k.key in groups[k.organizationId])
    && (forall o :: o in groups ==> forall key :: key in groups[o] ==>
          SettingKey(o, key) in rows && groups[o][key] == Text(settings[SettingKey(o, key)]))
  }

  class IntegrationTables {
    const env: Env
    var settings: Settings
    var connections: Connections
    var records: map<string, Record>

    constructor (env: Env, tables: Tables)
      ensures this.env == env && View() == tables
    {
      this.env := env;
      settings, connections, records := tables.settings, tables.connections, tables.records;
    }

    function View(): Tables
      reads this
    {
      Tables(settings, connections, records)
    }

    method SelectLegacy() returns (rows: set<SettingKey>)
      ensures rows == set k | k in settings && IsLegacy(k.key)
    {
      hide IsLegacy;
      rows := set k | k in settings && IsLegacy(k.key);
    }

    method GroupByOrganization(rows: set<SettingKey>) returns (groups: map<string, map<string, string>>)
      requires rows <= settings.Keys
      ensures Grouped(settings, rows, groups)
    {
      groups := map[];
      var todo := rows;
      while todo != {}
        invariant todo <= rows && Grouped(settings, rows - todo, groups)
      {
        var row :| row in todo;
        var own := if row.organizationId in groups then groups[row.organizationId] else map[];
        GroupedNext(settings, rows - todo, groups, row, own[row.key := Text(settings[row])]);
        groups := groups[row.organizationId := own[row.key := Text(settings[row])]];
        assert rows - (todo - {row}) == (rows - todo) + {row};
        todo := todo - {row};
      }
    }

    /** Inserts a provider's connection unless there is one, and says whether there were settings for it. */
    method MigrateProvider(c: ConnectionKey, own: map<string, string>) returns (found: bool)
      modifies this`connections
      ensures found == exists key :: key in own && Prefix(c.provider) <= key
      ensures connections == if found && c !in old(connections)
                             then old(connections)[c := NewConnection(env, ReadLegacy(own, c.provider), c)]
                             else old(connections)
    {
      hide KeyOf, Prefix, Scopes, IsTrue, Unresolved, Read;
      var accessToken := Read(own, KeyOf(c.provider, AccessToken));
      var refreshToken := Read(own, KeyOf(c.provider, RefreshToken));
      found := exists key :: key in own && Prefix(c.provider) <= key;
      if !found {
        return;
      }
      var resolvedRealmId := Read(own, KeyOf(c.provider, Realm));
      var realmId := if Given(resolvedRealmId) then resolvedRealmId.value else Unresolved();
      var wasConnected := IsTrue(Read(own, KeyOf(c.provider, Connected)));
      var status := if !wasConnected then Revoked
                    else if Given(resolvedRealmId) && (Given(accessToken) || Given(refreshToken)) then Active
                    else ReconnectRequired;
      var accessTokenEncrypted := if status == Active && Given(accessToken) then Some(env.encrypt(accessToken.value)) else None;
      var refreshTokenEncrypted := if status == Active && Given(refreshToken) then Some(env.encrypt(refreshToken.value)) else None;
      var accessExpiresAt := env.expiry(Read(own, KeyOf(c.provider, ExpiresAt)));
      if c !in connections {
        connections := connections[c := Connection(env.newId(c), realmId, accessTokenEncrypted, refreshTokenEncrypted,
                                                   accessExpiresAt, status, Scopes(c.provider))];
      }
    }

    /** Inserts the missing connections of every organization in `groups`. */
    method MigrateProviders(rows: set<SettingKey>, groups: map<string, map<string, string>>)
      returns (migratedProviders: set<ConnectionKey>)
      requires rows == (set k | k in settings && IsLegacy(k.key)) && Grouped(settings, rows, groups)
      modifies this`connections
      ensures migratedProviders == Legacies(settings)
      ensures connections == MigratedConnections(env, settings, old(connections))
    {
      hide IsLegacy, IsLegacyOf, LegacyOf, NewConnection, Legacies, Grouped, ReadLegacy, Prefix, MigratedFor, LegaciesIn;
      migratedProviders := {};
      ghost var start := connections;
      var todo := groups.Keys;
      NothingMigrated(env, settings, start);
      assert groups.Keys - todo == {};
      while todo != {}
        invariant todo <= groups.Keys && migratedProviders == LegaciesIn(settings, groups.Keys - todo)
        invariant connections == MigratedFor(env, settings, start, migratedProviders)
      {
        var organizationId :| organizationId in todo;
        var own := groups[organizationId];
        var qbo, xero := ConnectionKey(organizationId, Qbo), ConnectionKey(organizationId, Xero);
        OwnSettings(settings, rows, groups, qbo);
        OwnSettings(settings, rows, groups, xero);
        MigratedNext(env, settings, start, migratedProviders, qbo);
        var found := MigrateProvider(qbo, own);
        if found {
          migratedProviders := migratedProviders + {qbo};
        }
        MigratedNext(env, settings, start, migratedProviders, xero);
        found := MigrateProvider(xero, own);
        if found {
          migratedProviders := migratedProviders + {xero};
        }
        LegaciesNext(settings, groups.Keys - todo, organizationId);
        assert groups.Keys - (todo - {organizationId}) == (groups.Keys - todo) + {organizationId};
        todo := todo - {organizationId};
      }
      assert groups.Keys - todo == groups.Keys;
      LegaciesOfAll(env, settings, start, rows, groups);
    }

    /** Moves all legacy credentials, in one transaction. */
    method MigrateLegacyConnections()
      modifies this
      ensures View() == Migrated(env, old(View()))
      ensures forall organizationId, provider ::
                MovedCredentials(env, old(settings), old(connections), connections, organizationId, provider)
    {
      forall organizationId, provider
        ensures MovedCredentials(env, settings, connections, Migrated(env, View()).connections, organizationId, provider)
      {
        CredentialsAreMoved(env, View(), organizationId, provider);
      }
      hide MovedCredentials, IsLegacy, IsLegacyOf, Legacies, LegacyOf, NewConnection, Prefix, Grouped, Linked;
      var rows := SelectLegacy();
      var groups := GroupByOrganization(rows);
      var migratedProviders := MigrateProviders(rows, groups);
      LegacyRowsExist(settings, rows);
      RemoveSettings(rows, migratedProviders);
      if rows != {} {
        LinkRecords();
      }
    }

    /** Deletes the selected rows of the providers that were migrated, which are all of them. */
    method RemoveSettings(rows: set<SettingKey>, migratedProviders: set<ConnectionKey>)
      requires rows == (set k | k in settings && IsLegacy(k.key)) && migratedProviders == Legacies(settings)
      modifies this`settings
      ensures settings == map k | k in old(settings) && !IsLegacy(k.key) :: old(settings)[k]
    {
      hide IsLegacy, IsLegacyOf, Legacies, Prefix;
      ghost var start := settings;
      var todo := rows;
      while todo != {}
        invariant todo <= rows && settings == start - (rows - todo)
      {
        var row :| row in todo;
        var provider := if Prefix(Qbo) <= row.key then Qbo else Xero;
        RowIsMigrated(start, row);
        if ConnectionKey(row.organizationId, provider) in migratedProviders {
          settings := settings - {row};
        }
        todo := todo - {row};
      }
    }

    method LinkRecords()
      modifies this`records
      ensures records == map id | id in old(records) :: Linked(old(records)[id], connections)
    {
      records := map id | id in records :: Linked(records[id], connections);
    }
  }

  function Read(own: map<string, string>, key: string): Option<string> {
    if key in own then Some(own[key]) else None
  }

  function ReadLegacy(own: map<string, string>, provider: Provider): Legacy {
    Legacy(Read(own, KeyOf(provider, AccessToken)), Read(own, KeyOf(provider, RefreshToken)),
           Read(own, KeyOf(provider, Realm)), Read(own, KeyOf(provider, ExpiresAt)), Read(own, KeyOf(provider, Connected)))
  }

  // ---------------------------------------------------------------- steps of the proof

  lemma {:induction false} GroupedNext(
      settings: Settings, rows: set<SettingKey>, groups: map<string, map<string, string>>, row: SettingKey, own: map<string, string>)
    requires Grouped(settings, rows, groups) && row in settings
    requires own == (if row.organizationId in groups then groups[row.organizationId] else map[])[row.key := Text(settings[row])]
    ensures Grouped(settings, rows + {row}, groups[row.organizationId := own])
  {
  }

  /** What an organization's group says is what the settings say. */
  lemma {:induction false} OwnSettings(
      settings: Settings, rows: set<SettingKey>, groups: map<string, map<string, string>>, c: ConnectionKey)
    requires rows == (set k | k in settings && IsLegacy(k.key)) && Grouped(settings, rows, groups) && c.organizationId in groups
    ensures (exists key :: key in groups[c.organizationId] && Prefix(c.provider) <= key) <==> c in Legacies(settings)
    ensures ReadLegacy(groups[c.organizationId], c.provider) == LegacyOf(settings, c)
  {
    hide Text, KeyOf, Prefix, IsLegacy, IsLegacyOf, Lookup, Read, Legacies;
    var own := groups[c.organizationId];
    LegacyKeyIn(settings, c);
    if key :| key in own && Prefix(c.provider) <= key {
      assert SettingKey(c.organizationId, key) in rows;
      PrefixTellsProvider(key, c.provider);
      var k := SettingKey(c.organizationId, key);
      assert k in settings && IsLegacyOf(k.key, c.provider);
    }
    if k :| k in settings && k.organizationId == c.organizationId && IsLegacyOf(k.key, c.provider) {
      LegacyOfSome(k.key, c.provider);
      assert k in rows;
      PrefixTellsProvider(k.key, c.provider);
      assert k.key in own && Prefix(c.provider) <= k.key;
    }
    ReadIsLookup(settings, rows, groups, c, AccessToken);
    ReadIsLookup(settings, rows, groups, c, RefreshToken);
    ReadIsLookup(settings, rows, groups, c, Realm);
    ReadIsLookup(settings, rows, groups, c, ExpiresAt);
    ReadIsLookup(settings, rows, groups, c, Connected);
  }

  lemma {:induction false} LegacyKeyIn(settings: Settings, c: ConnectionKey)
    ensures c in Legacies(settings)
            <==> exists k :: k in settings && k.organizationId == c.organizationId && IsLegacyOf(k.key, c.provider)
  {
    hide IsLegacyOf;
    assert c in LegaciesOf(settings, Qbo) ==> c.provider == Qbo;
    assert c in LegaciesOf(settings, Xero) ==> c.provider == Xero;
    assert c.provider == Qbo || c.provider == Xero;
    if k :| k in settings && k.organizationId == c.organizationId && IsLegacyOf(k.key, c.provider) {
      assert c == ConnectionKey(k.organizationId, c.provider);
    }
  }

  lemma {:induction false} LegacyOfSome(key: string, provider: Provider)
    requires IsLegacyOf(key, provider)
    ensures IsLegacy(key)
  {
  }

  lemma {:induction false} LegacyRowsExist(settings: Settings, rows: set<SettingKey>)
    requires rows == set k | k in settings && IsLegacy(k.key)
    ensures rows != {} <==> AnyLegacy(settings)
  {
    hide IsLegacy;
    if k :| k in settings && IsLegacy(k.key) {
      assert k in rows;
    }
  }

  lemma {:induction false} ReadIsLookup(
      settings: Settings, rows: set<SettingKey>, groups: map<string, map<string, string>>, c: ConnectionKey, field: Field)
    requires rows == (set k | k in settings && IsLegacy(k.key)) && Grouped(settings, rows, groups) && c.organizationId in groups
    ensures Read(groups[c.organizationId], KeyOf(c.provider, field)) == Lookup(settings, c.organizationId, c.provider, field)
  {
  }

  function LegaciesIn(settings: Settings, organizations: set<string>): set<ConnectionKey> {
    set c | c in Legacies(settings) && c.organizationId in organizations
  }

  function MigratedFor(env: Env, settings: Settings, connections: Connections, legacies: set<ConnectionKey>): Connections {
    map c | c in connections.Keys + legacies ::
      if c in connections then connections[c] else NewConnection(env, LegacyOf(settings, c), c)
  }

  lemma {:induction false} LegaciesNext(settings: Settings, organizations: set<string>, organizationId: string)
    ensures LegaciesIn(settings, organizations + {organizationId})
            == LegaciesIn(settings, organizations)
               + (if ConnectionKey(organizationId, Qbo) in Legacies(settings) then {ConnectionKey(organizationId, Qbo)} else {})
               + (if ConnectionKey(organizationId, Xero) in Legacies(settings) then {ConnectionKey(organizationId, Xero)} else {})
  {
  }

  lemma {:induction false} NothingMigrated(env: Env, settings: Settings, connections: Connections)
    ensures MigratedFor(env, settings, connections, {}) == connections && LegaciesIn(settings, {}) == {}
  {
  }

  lemma {:induction false} MigratedNext(
      env: Env, settings: Settings, connections: Connections, legacies: set<ConnectionKey>, c: ConnectionKey)
    ensures var before := MigratedFor(env, settings, connections, legacies);
            MigratedFor(env, settings, connections, legacies + {c})
            == if c in before then before else before[c := NewConnection(env, LegacyOf(settings, c), c)]
  {
    hide LegacyOf, NewConnection;
  }

  lemma {:induction false} LegaciesOfAll(
      env: Env, settings: Settings, connections: Connections, rows: set<SettingKey>, groups: map<string, map<string, string>>)
    requires rows == (set k | k in settings && IsLegacy(k.key)) && Grouped(settings, rows, groups)
    ensures LegaciesIn(settings, groups.Keys) == Legacies(settings)
    ensures MigratedFor(env, settings, connections, Legacies(settings)) == MigratedConnections(env, settings, connections)
  {
  }

  lemma {:induction false} RowIsMigrated(settings: Settings, row: SettingKey)
    requires row in settings && IsLegacy(row.key)
    ensures ConnectionKey(row.organizationId, if Prefix(Qbo) <= row.key then Qbo else Xero) in Legacies(settings)
  {
    PrefixTellsProvider(row.key, Qbo);
    hide IsLegacyOf, Prefix;
  }

  // ---------------------------------------------------------------- what the migration achieves

  /** Exactly the legacy rows are gone, all other settings are as they were. */
  lemma {:induction false} LegacyRowsAreRemoved(env: Env, tables: Tables, k: SettingKey)
    ensures var after := Migrated(env, tables).settings;
            && (k in after <==> k in tables.settings && !IsLegacy(k.key))
            && (k in after ==> after[k] == tables.settings[k])
  {
  }

  /** There is a connection exactly where there was one or a legacy row; those there were are untouched. */
  lemma {:induction false} ConnectionsAreComplete(env: Env, tables: Tables, c: ConnectionKey)
    ensures var after := Migrated(env, tables).connections;
            && (c in after <==> c in tables.connections || HasLegacy(tables.settings, c))
            && (c in tables.connections ==> after[c] == tables.connections[c])
            && (c in after && c !in tables.connections ==>
                  after[c] == NewConnection(env, LegacyOf(tables.settings, c), c))
  {
    hide IsLegacy, IsLegacyOf, Legacies, LegacyOf, NewConnection, Linked;
    LegacyKeyIn(tables.settings, c);
  }

  /** A connection is created active exactly when the settings said connected and held a realm and a
      token; only then are tokens kept, encrypted. */
  lemma {:induction false} ActiveNeedsRealmAndToken(env: Env, legacy: Legacy, c: ConnectionKey)
    ensures var connection := NewConnection(env, legacy, c);
            && (connection.status.Active? <==>
                  legacy.connected == Some("true") && Given(legacy.realm) && (Given(legacy.accessToken) || Given(legacy.refreshToken)))
            && (connection.status.Active? ==> Some(connection.realmId) == legacy.realm)
            && (connection.status.Active? <==> connection.accessToken.Some? || connection.refreshToken.Some?)
            && (connection.status.Revoked? <==> legacy.connected != Some("true"))
  {
  }

  /** What a setting holds, when it is there and not empty. */
  function Held(settings: Settings, organizationId: string, key: string): Option<string> {
    var k := SettingKey(organizationId, key);
    if k in settings && settings[k].Some? && settings[k].value != "" then settings[k] else None
  }

  /** The value of a setting that is there, where null counts as empty. */
  function Stored(settings: Settings, organizationId: string, key: string): Option<string> {
    var k := SettingKey(organizationId, key);
    if k in settings then Some(if settings[k].Some? then settings[k].value else "") else None
  }

  /** The names of a provider's settings, and the scopes it is granted. */
  datatype Names = Names(access: string, refresh: string, realm: string, expiry: string, connected: string, scopes: string)

  const QBO_NAMES := Names("qbo_access_token", "qbo_refresh_token", "qbo_realm_id", "qbo_token_expires_at", "qbo_connected",
                           "com.intuit.quickbooks.accounting")

  const XERO_NAMES := Names("xero_access_token", "xero_refresh_token", "xero_tenant_id", "xero_token_expires_at", "xero_connected",
                            "accounting.transactions accounting.contacts accounting.settings offline_access")

  function NamesOf(provider: Provider): Names {
    if provider.Qbo? then QBO_NAMES else XERO_NAMES
  }

  predicate AnyNamed(settings: Settings, organizationId: string, names: Names) {
    || SettingKey(organizationId, names.access) in settings || SettingKey(organizationId, names.refresh) in settings
    || SettingKey(organizationId, names.realm) in settings || SettingKey(organizationId, names.expiry) in settings
    || SettingKey(organizationId, names.connected) in settings
  }

  predicate SealedWhen(env: Env, active: bool, token: Option<string>, column: Option<string>) {
    column == if active && token.Some? then Some(env.encrypt(token.value)) else None
  }

  /** Each setting of a provider lands in its own column: tokens encrypted and only in an active connection. */
  predicate ColumnsFrom(env: Env, settings: Settings, organizationId: string, names: Names, connection: Connection) {
    var access, refresh := Held(settings, organizationId, names.access), Held(settings, organizationId, names.refresh);
    var realm, connected := Held(settings, organizationId, names.realm), Held(settings, organizationId, names.connected);
    && (connection.status.Active? <==> connected == Some("true") && realm.Some? && (access.Some? || refresh.Some?))
    && (connection.status.Revoked? <==> connected != Some("true"))
    && SealedWhen(env, connection.status.Active?, access, connection.accessToken)
    && SealedWhen(env, connection.status.Active?, refresh, connection.refreshToken)
    && connection.realmId == (if realm.Some? then realm.value else "legacy-unresolved")
    && connection.accessExpiresAt == env.expiry(Stored(settings, organizationId, names.expiry))
    && connection.scopes == names.scopes
  }

  /** A missing connection is created exactly where a setting of that provider is found, from its settings. */
  predicate MovedCredentials(
      env: Env, settings: Settings, before: Connections, after: Connections, organizationId: string, provider: Provider) {
    var c := ConnectionKey(organizationId, provider);
    && (c in before ==> c in after && after[c] == before[c])
    && (c !in before ==> (c in after <==> AnyNamed(settings, organizationId, NamesOf(provider))))
    && (c !in before && c in after ==> ColumnsFrom(env, settings, organizationId, NamesOf(provider), after[c]))
  }

  lemma {:induction false} NewConnectionColumns(env: Env, settings: Settings, c: ConnectionKey)
    ensures ColumnsFrom(env, settings, c.organizationId, NamesOf(c.provider), NewConnection(env, LegacyOf(settings, c), c))
  {
  }

  lemma {:induction false} LegacyIsNamed(settings: Settings, c: ConnectionKey)
    ensures HasLegacy(settings, c) <==> AnyNamed(settings, c.organizationId, NamesOf(c.provider))
  {
  }

  /** Every tenant's credentials land in the columns they belong to. */
  lemma {:induction false} CredentialsAreMoved(env: Env, tables: Tables, organizationId: string, provider: Provider)
    ensures MovedCredentials(env, tables.settings, tables.connections, Migrated(env, tables).connections, organizationId, provider)
  {
    hide Migrated, NewConnection, LegacyOf, ColumnsFrom, AnyNamed, HasLegacy, NamesOf;
    var c := ConnectionKey(organizationId, provider);
    ConnectionsAreComplete(env, tables, c);
    NewConnectionColumns(env, tables.settings, c);
    LegacyIsNamed(tables.settings, c);
  }

  /** The settings that are removed, by name. */
  lemma {:induction false} LegacyKeysByName(key: string)
    ensures IsLegacy(key) <==> key in {
      "qbo_access_token", "qbo_refresh_token", "qbo_realm_id", "qbo_token_expires_at", "qbo_connected",
      "xero_access_token", "xero_refresh_token", "xero_tenant_id", "xero_token_expires_at", "xero_connected"}
  {
  }

  /** Running the migration again changes nothing. */
  lemma {:induction false} SecondRunIsNoOp(env: Env, tables: Tables)
    ensures Migrated(env, Migrated(env, tables)) == Migrated(env, tables)
  {
    hide IsLegacy, IsLegacyOf, LegacyOf, NewConnection, Linked;
    var once := Migrated(env, tables);
    forall c: ConnectionKey
      ensures c !in Legacies(once.settings)
    {
      LegacyKeyIn(once.settings, c);
      if k :| k in once.settings && k.organizationId == c.organizationId && IsLegacyOf(k.key, c.provider) {
        LegacyOfSome(k.key, c.provider);
      }
    }
    assert MigratedConnections(env, once.settings, once.connections) == once.connections;
    assert (map k | k in once.settings && !IsLegacy(k.key) :: once.settings[k]) == once.settings;
  }

  /** Sync records without a connection are linked to their tenant's and provider's, if legacy rows were
      found; no record changes otherwise, and none is linked to anything else. */
  lemma {:induction false} RecordsAreLinked(env: Env, tables: Tables, id: string)
    requires id in tables.records
    ensures var (before, after) := (tables.records[id], Migrated(env, tables));
            var c := ConnectionKey(before.organizationId, before.provider);
            && id in after.records && after.records[id].(connectionId := before.connectionId) == before
            && after.records[id].connectionId
               == if before.connectionId.None? && AnyLegacy(tables.settings) && c in after.connections
                  then Some(after.connections[c].id) else before.connectionId
  {
  }
}
