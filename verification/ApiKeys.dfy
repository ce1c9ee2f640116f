/** The API-key configuration: parsing it and authenticating with it. */
module ApiKeys {
  import opened Domain
  import opened Text

  datatype APIKey = APIKey(id: string, secret: string, allowedTenants: set<string>, allowAllTenants: bool)
  {
    predicate AllowsTenant(tenantID: string) {
      var t := Trim(tenantID);
      t != "" && (allowAllTenants || t in allowedTenants)
    }
  }

  datatype ParseError = BadFormat | IDRequired | SecretRequired | TenantListRequired | TenantRequired | NoTenant
    | DuplicateSecret

  const ALL_TENANTS: string := "*"

  // ----- What parsing means ------------------------------------------------------------

  /** Adds the tenants of a list to a key. */
  function WithTenants(key: APIKey, tenants: seq<string>): Result<APIKey, ParseError>
    decreases |tenants|
  {
    if tenants == [] then Ok(key)
    else
      var t := Trim(tenants[0]);
      if t == "" then Err(TenantRequired)
      else if t == ALL_TENANTS then WithTenants(key.(allowAllTenants := true), tenants[1..])
      else WithTenants(key.(allowedTenants := key.allowedTenants + {t}), tenants[1..])
  }

  function ParsedKey(entry: string): Result<APIKey, ParseError> {
    var parts := Split(Trim(entry), ':');
    if |parts| != 3 then Err(BadFormat)
    else
      var id, secret, tenantList := Trim(parts[0]), Trim(parts[1]), Trim(parts[2]);
      if id == "" then Err(IDRequired)
      else if secret == "" then Err(SecretRequired)
      else if tenantList == "" then Err(TenantListRequired)
      else WithTenants(APIKey(id, secret, {}, false), Split(tenantList, ','))
  }

  function Secrets(keys: seq<APIKey>): set<string> {
    set k | k in keys :: k.secret
  }

  /** Parses the remaining entries after `keys`. */
  function ParsedEntries(keys: seq<APIKey>, entries: seq<string>): Result<seq<APIKey>, ParseError>
    decreases |entries|
  {
    if entries == [] then Ok(keys)
    else
      match ParsedKey(entries[0])
      case Err(e) => Err(e)
      case Ok(key) =>
        if key.secret in Secrets(keys) then Err(DuplicateSecret) else ParsedEntries(keys + [key], entries[1..])
  }

  function Parsed(raw: string): Result<seq<APIKey>, ParseError> {
    if IsBlank(raw) then Ok([]) else ParsedEntries([], Split(Trim(raw), ';'))
  }

  // ----- The parser --------------------------------------------------------------------

  lemma {:induction false} WithTenantsScope(key: APIKey, tenants: seq<string>)
    ensures var r := WithTenants(key, tenants); r.Ok? ==>
      && r.value.id == key.id && r.value.secret == key.secret
      && (tenants != [] || key.allowAllTenants || key.allowedTenants != {} ==>
            r.value.allowAllTenants || r.value.allowedTenants != {})
    decreases |tenants|
  {
    if tenants != [] && Trim(tenants[0]) != "" {
      var t := Trim(tenants[0]);
      if t == ALL_TENANTS {
        WithTenantsScope(key.(allowAllTenants := true), tenants[1..]);
      } else {
        assert t in key.allowedTenants + {t};
        WithTenantsScope(key.(allowedTenants := key.allowedTenants + {t}), tenants[1..]);
      }
    }
  }

  method ParseAPIKey(entry: string) returns (r: Result<APIKey, ParseError>)
    ensures r == ParsedKey(entry)
  {
    var parts := Split(Trim(entry), ':');
    if |parts| != 3 {
      return Err(BadFormat);
    }
    var id, secret, tenantList := Trim(parts[0]), Trim(parts[1]), Trim(parts[2]);
    if id == "" {
      return Err(IDRequired);
    }
    if secret == "" {
      return Err(SecretRequired);
    }
    if tenantList == "" {
      return Err(TenantListRequired);
    }
    var key := APIKey(id, secret, {}, false);
    var tenants := Split(tenantList, ',');
    for i := 0 to |tenants|
      invariant WithTenants(APIKey(id, secret, {}, false), tenants) == WithTenants(key, tenants[i..])
    {
      var tenant := Trim(tenants[i]);
      assert tenants[i..][1..] == tenants[i + 1..];
      if tenant == "" {
        return Err(TenantRequired);
      }
      if tenant == ALL_TENANTS {
        key := key.(allowAllTenants := true);
        continue;
      }
      key := key.(allowedTenants := key.allowedTenants + {tenant});
    }
    WithTenantsScope(APIKey(id, secret, {}, false), tenants);
    if !key.allowAllTenants && key.allowedTenants == {} {
      assert false;
    }
    r := Ok(key);
  }

  function Find(keys: seq<APIKey>, secret: string): Option<APIKey> {
    if keys == [] then None
    else if keys[0].secret == secret then Some(keys[0])
    else Find(keys[1..], secret)
  }

  function Authenticated(keys: seq<APIKey>, token: string): Option<APIKey> {
    if IsBlank(token) then None else Find(keys, Trim(token))
  }

  datatype APIKeyConfig = APIKeyConfig(keys: seq<APIKey>)
  {
    predicate Enabled() {
      |keys| > 0
    }

    /** Looks for the key whose secret is the token. */
    method Authenticate(token: string) returns (r: Option<APIKey>)
      ensures r == Authenticated(keys, token)
    {
      var t := Trim(token);
      if t == "" {
        return None;
      }
      for i := 0 to |keys|
        invariant Find(keys, t) == Find(keys[i..], t)
      {
        if keys[i].secret == t {
          return Some(keys[i]);
        }
      }
      return None;
    }
  }

  method ParseAPIKeys(raw: string) returns (r: Result<APIKeyConfig, ParseError>)
    ensures match Parsed(raw)
      case Ok(keys) => r == Ok(APIKeyConfig(keys))
      case Err(e) => r == Err(e)
  {
    var text := Trim(raw);
    if text == "" {
      return Ok(APIKeyConfig([]));
    }
    var seenSecrets := {};
    var entries := Split(text, ';');
    var keys := [];
    for i := 0 to |entries|
      invariant seenSecrets == Secrets(keys)
      invariant Parsed(raw) == ParsedEntries(keys, entries[i..])
    {
      var key := ParseAPIKey(entries[i]);
      assert entries[i..][1..] == entries[i + 1..];
      if key.Err? {
        return Err(key.error);
      }
      if key.value.secret in seenSecrets {
        return Err(DuplicateSecret);
      }
      seenSecrets := seenSecrets + {key.value.secret};
      keys := keys + [key.value];
    }
    r := Ok(APIKeyConfig(keys));
  }

  // ----- Authentication ----------------------------------------------------------------

  lemma {:induction false} FindIsFirst(keys: seq<APIKey>, secret: string)
    ensures Find(keys, secret).None? <==> forall i | 0 <= i < |keys| :: keys[i].secret != secret
    ensures forall i | 0 <= i < |keys| && keys[i].secret == secret
      && (forall j | 0 <= j < i :: keys[j].secret != secret) ::
      Find(keys, secret) == Some(keys[i])
    ensures Find(keys, secret).Some? ==> Find(keys, secret).value in keys && Find(keys, secret).value.secret == secret
  {
    if keys != [] {
      FindIsFirst(keys[1..], secret);
      forall i | 0 <= i < |keys| && keys[i].secret == secret && (forall j | 0 <= j < i :: keys[j].secret != secret)
        ensures Find(keys, secret) == Some(keys[i])
      {
        if i > 0 {
          assert keys[0].secret != secret && keys[1..][i - 1] == keys[i];
          assert forall j | 0 <= j < i - 1 :: keys[1..][j] == keys[j + 1];
        }
      }
    }
  }

  predicate DistinctSecrets(keys: seq<APIKey>) {
    forall i, j | 0 <= i < j < |keys| :: keys[i].secret != keys[j].secret
  }

  /** What every accepted key looks like. */
  predicate WellScoped(key: APIKey) {
    && key.id != "" && IsTrimmed(key.id)
    && key.secret != "" && IsTrimmed(key.secret)
    && (key.allowAllTenants || key.allowedTenants != {})
  }

  lemma ParsedKeyIsWellScoped(entry: string)
    ensures ParsedKey(entry).Ok? ==> WellScoped(ParsedKey(entry).value)
  {
    var parts := Split(Trim(entry), ':');
    if |parts| == 3 {
      TrimIsTrimmed(parts[0]);
      TrimIsTrimmed(parts[1]);
      WithTenantsScope(APIKey(Trim(parts[0]), Trim(parts[1]), {}, false), Split(Trim(parts[2]), ','));
    }
  }

  lemma {:induction false} ParsedEntriesAreDistinct(keys: seq<APIKey>, entries: seq<string>)
    requires DistinctSecrets(keys) && forall k | k in keys :: WellScoped(k)
    ensures var r := ParsedEntries(keys, entries); r.Ok? ==>
      DistinctSecrets(r.value) && forall k | k in r.value :: WellScoped(k)
    decreases |entries|
  {
    if entries != [] && ParsedKey(entries[0]).Ok? {
      var key := ParsedKey(entries[0]).value;
      ParsedKeyIsWellScoped(entries[0]);
      if key.secret !in Secrets(keys) {
        assert forall k | k in keys :: k.secret in Secrets(keys);
        ParsedEntriesAreDistinct(keys + [key], entries[1..]);
      }
    }
  }

  /** In every accepted configuration a token authenticates to a key exactly when, surrounding white space
      aside, it is that key's secret; every key can be authenticated to. */
  lemma AcceptedSecretsAuthenticate(raw: string, token: string, i: nat)
    requires Parsed(raw).Ok? && i < |Parsed(raw).value|
    ensures var keys := Parsed(raw).value;
      && WellScoped(keys[i])
      && (Authenticated(keys, token) == Some(keys[i]) <==> Trim(token) == keys[i].secret)
      && Authenticated(keys, keys[i].secret) == Some(keys[i])
      && (Authenticated(keys, token).Some? ==> Authenticated(keys, token).value in keys)
  {
    var keys := Parsed(raw).value;
    if !IsBlank(raw) {
      ParsedEntriesAreDistinct([], Split(Trim(raw), ';'));
    }
    assert keys[i] in keys;
    TrimOfTrimmed(keys[i].secret);
    FindIsFirst(keys, Trim(token));
    FindIsFirst(keys, keys[i].secret);
  }

  // ----- What a written key means ------------------------------------------------------

  /** A text that shows something and holds neither separator of entries and parts. */
  predicate Piece(s: string) {
    Visible(s) && Free(s, ';') && Free(s, ':')
  }

  function Trimmed(texts: seq<string>): set<string> {
    set t | t in texts :: Trim(t)
  }

  /** A tenant list is refused for a blank item; otherwise the key gets its trimmed items, the wildcard apart. */
  lemma {:induction false} TenantsMeaning(key: APIKey, tenants: seq<string>)
    ensures WithTenants(key, tenants) ==
      if exists t | t in tenants :: AllWhite(t) then Err(TenantRequired)
      else Ok(key.(allowedTenants := key.allowedTenants + (Trimmed(tenants) - {ALL_TENANTS}),
                   allowAllTenants := key.allowAllTenants || ALL_TENANTS in Trimmed(tenants)))
    decreases |tenants|
  {
    if tenants == [] {
      assert key.allowedTenants + (Trimmed(tenants) - {ALL_TENANTS}) == key.allowedTenants;
    } else {
      var rest := tenants[1..];
      var t := Trim(tenants[0]);
      BlankIffWhite(tenants[0]);
      assert tenants == [tenants[0]] + rest;
      assert Trimmed(tenants) == {t} + Trimmed(rest);
      if t != "" {
        var next := if t == ALL_TENANTS then key.(allowAllTenants := true)
          else key.(allowedTenants := key.allowedTenants + {t});
        TenantsMeaning(next, rest);
        assert next.allowedTenants + (Trimmed(rest) - {ALL_TENANTS})
            == key.allowedTenants + (Trimmed(tenants) - {ALL_TENANTS});
      }
    }
  }

  /** Only the trimmed items of a tenant list matter. */
  lemma {:induction false} TenantsUpToSpace(key: APIKey, a: seq<string>, b: seq<string>)
    requires |a| == |b| && forall i | 0 <= i < |a| :: Trim(a[i]) == Trim(b[i])
    ensures WithTenants(key, a) == WithTenants(key, b)
    decreases |a|
  {
    if a != [] {
      assert forall i | 0 <= i < |a[1..]| :: Trim(a[1..][i]) == Trim(b[1..][i]);
      assert Trim(a[0]) == Trim(b[0]);
      var t := Trim(a[0]);
      TenantsUpToSpace(key.(allowAllTenants := true), a[1..], b[1..]);
      TenantsUpToSpace(key.(allowedTenants := key.allowedTenants + {t}), a[1..], b[1..]);
    }
  }

  lemma ListedTenants(key: APIKey, tenants: seq<string>)
    requires tenants != [] && forall t :: t in tenants ==> Free(t, ',')
    ensures WithTenants(key, Split(Trim(Join(tenants, ',')), ',')) == WithTenants(key, tenants)
  {
    PiecesUpToSpace(tenants, ',');
    TenantsUpToSpace(key, Split(Trim(Join(tenants, ',')), ','), tenants);
  }

  /** What an entry of three pieces means, white space around any of them aside: the first thing missing is
      reported, else the key is as written. */
  lemma EntryMeaning(id: string, secret: string, tenants: seq<string>)
    requires tenants != [] && Free(id, ':') && Free(secret, ':')
    requires forall t :: t in tenants ==> Free(t, ':') && Free(t, ',')
    ensures ParsedKey(Join([id, secret, Join(tenants, ',')], ':')) ==
      if AllWhite(id) then Err(IDRequired)
      else if AllWhite(secret) then Err(SecretRequired)
      else if AllWhite(Join(tenants, ',')) then Err(TenantListRequired)
      else if exists t | t in tenants :: AllWhite(t) then Err(TenantRequired)
      else Ok(APIKey(Trim(id), Trim(secret), Trimmed(tenants) - {ALL_TENANTS}, ALL_TENANTS in Trimmed(tenants)))
  {
    var list := Join(tenants, ',');
    JoinFree(tenants, ',', ':');
    PiecesUpToSpace([id, secret, list], ':');
    BlankIffWhite(id);
    BlankIffWhite(secret);
    BlankIffWhite(list);
    var key := APIKey(Trim(id), Trim(secret), {}, false);
    ListedTenants(key, tenants);
    TenantsMeaning(key, tenants);
    assert {} + (Trimmed(tenants) - {ALL_TENANTS}) == Trimmed(tenants) - {ALL_TENANTS};
  }

  /** An entry of any other number of pieces is malformed. */
  lemma EntryOfThreePieces(entry: string)
    ensures ParsedKey(entry) == Err(BadFormat) <==> |Split(entry, ':')| != 3
  {
    JoinSplit(entry, ':');
    PiecesUpToSpace(Split(entry, ':'), ':');
    var parts := Split(Trim(entry), ':');
    if |parts| == 3 {
      TenantsMeaning(APIKey(Trim(parts[0]), Trim(parts[1]), {}, false), Split(Trim(parts[2]), ','));
    }
  }

  predicate AllParse(entries: seq<string>) {
    forall i | 0 <= i < |entries| :: ParsedKey(entries[i]).Ok?
  }

  /** The keys that entries parse to, one by one. */
  function KeysIn(entries: seq<string>): seq<APIKey>
    requires AllParse(entries)
  {
    seq(|entries|, i requires 0 <= i < |entries| => ParsedKey(entries[i]).value)
  }

  lemma Prepended<T>(before: seq<T>, all: seq<T>, rest: seq<T>)
    requires |all| == |rest| + 1 && forall i | 0 <= i < |rest| :: rest[i] == all[i + 1]
    ensures before + all == (before + [all[0]]) + rest
  {
  }

  lemma FirstKey(keys: seq<APIKey>, entries: seq<string>)
    requires AllParse(entries) && entries != []
    ensures AllParse(entries[1..])
    ensures keys + KeysIn(entries) == (keys + [ParsedKey(entries[0]).value]) + KeysIn(entries[1..])
  {
    var all, rest := KeysIn(entries), KeysIn(entries[1..]);
    forall i | 0 <= i < |rest| ensures rest[i] == all[i + 1] {
      assert entries[1..][i] == entries[i + 1];
    }
    Prepended(keys, all, rest);
  }

  lemma OneMoreSecret(keys: seq<APIKey>, key: APIKey)
    requires DistinctSecrets(keys) && key.secret !in Secrets(keys)
    ensures DistinctSecrets(keys + [key])
  {
    assert forall k | k in keys :: k.secret in Secrets(keys);
  }

  lemma {:induction false} EntriesMeaning(keys: seq<APIKey>, entries: seq<string>)
    requires AllParse(entries) && DistinctSecrets(keys)
    ensures ParsedEntries(keys, entries) ==
      if DistinctSecrets(keys + KeysIn(entries)) then Ok(keys + KeysIn(entries)) else Err(DuplicateSecret)
    decreases |entries|
  {
    if entries == [] {
      assert keys + KeysIn(entries) == keys;
    } else {
      var key := ParsedKey(entries[0]).value;
      var all := keys + KeysIn(entries);
      FirstKey(keys, entries);
      if key.secret in Secrets(keys) {
        var j :| 0 <= j < |keys| && keys[j].secret == key.secret;
        assert all[j].secret == all[|keys|].secret;
      } else {
        OneMoreSecret(keys, key);
        EntriesMeaning(keys + [key], entries[1..]);
      }
    }
  }

  lemma {:induction false} BadEntryIsRefused(keys: seq<APIKey>, entries: seq<string>)
    requires !AllParse(entries)
    ensures ParsedEntries(keys, entries).Err?
    decreases |entries|
  {
    var i :| 0 <= i < |entries| && ParsedKey(entries[i]).Err?;
    if i > 0 && ParsedKey(entries[0]).Ok? {
      assert entries[1..][i - 1] == entries[i];
      BadEntryIsRefused(keys + [ParsedKey(entries[0]).value], entries[1..]);
    }
  }

  /** A configuration is accepted exactly when it is blank, or every entry between semicolons is and no secret
      comes twice; its keys are then those of the entries, in order. */
  lemma AcceptedIff(raw: string)
    ensures AllWhite(raw) ==> Parsed(raw) == Ok([])
    ensures var entries := Split(Trim(raw), ';');
      !AllWhite(raw) ==>
        if !AllParse(entries) then Parsed(raw).Err?
        else Parsed(raw) == if DistinctSecrets(KeysIn(entries)) then Ok(KeysIn(entries)) else Err(DuplicateSecret)
  {
    BlankIffWhite(raw);
    var entries := Split(Trim(raw), ';');
    if AllParse(entries) {
      EntriesMeaning([], entries);
      assert [] + KeysIn(entries) == KeysIn(entries);
    } else {
      BadEntryIsRefused([], entries);
    }
  }

  // ----- Round trip --------------------------------------------------------------------

  /** A key as an operator writes it down. */
  datatype KeySpec = KeySpec(id: string, secret: string, tenants: seq<string>)
  {
    /** Nothing blank, and none of the separators of the format; white space around anything is fine. */
    predicate Writable() {
      && Piece(id) && Piece(secret) && tenants != []
      && forall t | t in tenants :: Piece(t) && Free(t, ',')
    }

    function Entry(): string
      requires tenants != []
    {
      Join([id, secret, Join(tenants, ',')], ':')
    }

    function Meaning(): APIKey {
      APIKey(Trim(id), Trim(secret), Trimmed(tenants) - {ALL_TENANTS}, ALL_TENANTS in Trimmed(tenants))
    }
  }

  predicate AllWritable(specs: seq<KeySpec>) {
    forall i | 0 <= i < |specs| :: specs[i].Writable()
  }

  function Entries(specs: seq<KeySpec>): seq<string>
    requires AllWritable(specs)
  {
    seq(|specs|, i requires 0 <= i < |specs| => specs[i].Entry())
  }

  function Meanings(specs: seq<KeySpec>): seq<APIKey> {
    seq(|specs|, i requires 0 <= i < |specs| => specs[i].Meaning())
  }

  function Render(specs: seq<KeySpec>): string
    requires AllWritable(specs)
  {
    if specs == [] then "" else Join(Entries(specs), ';')
  }

  /** A joined text shows whatever one of its pieces shows. */
  lemma {:induction false} JoinVisible(parts: seq<string>, sep: char, i: nat)
    requires i < |parts| && Visible(parts[i])
    ensures Visible(Join(parts, sep))
  {
    var j :| 0 <= j < |parts[i]| && !White(parts[i][j]);
    var s := Join(parts, sep);
    if i == 0 {
      assert s[j] == parts[0][j];
    } else {
      var rest := Join(parts[1..], sep);
      JoinVisible(parts[1..], sep, i - 1);
      var k :| 0 <= k < |rest| && !White(rest[k]);
      assert s[|parts[0]| + 1 + k] == rest[k];
    }
  }

  lemma EntryRoundTrip(spec: KeySpec)
    requires spec.Writable()
    ensures Visible(spec.Entry()) && Free(spec.Entry(), ';') && ParsedKey(spec.Entry()) == Ok(spec.Meaning())
  {
    var list := Join(spec.tenants, ',');
    assert spec.tenants[0] in spec.tenants;
    JoinVisible(spec.tenants, ',', 0);
    JoinFree(spec.tenants, ',', ';');
    JoinFree([spec.id, spec.secret, list], ':', ';');
    JoinVisible([spec.id, spec.secret, list], ':', 0);
    EntryMeaning(spec.id, spec.secret, spec.tenants);
  }

  /** Only the trimmed form of an entry matters. */
  lemma {:induction false} EntriesUpToSpace(keys: seq<APIKey>, a: seq<string>, b: seq<string>)
    requires |a| == |b| && forall i | 0 <= i < |a| :: Trim(a[i]) == Trim(b[i])
    ensures ParsedEntries(keys, a) == ParsedEntries(keys, b)
    decreases |a|
  {
    if a != [] {
      assert forall i | 0 <= i < |a[1..]| :: Trim(a[1..][i]) == Trim(b[1..][i]);
      assert Trim(a[0]) == Trim(b[0]);
      assert ParsedKey(a[0]) == ParsedKey(b[0]);
      if ParsedKey(a[0]).Ok? {
        EntriesUpToSpace(keys + [ParsedKey(a[0]).value], a[1..], b[1..]);
      }
    }
  }

  lemma WrittenEntries(specs: seq<KeySpec>)
    requires AllWritable(specs)
    ensures AllParse(Entries(specs)) && KeysIn(Entries(specs)) == Meanings(specs)
  {
    forall i | 0 <= i < |specs| ensures ParsedKey(Entries(specs)[i]) == Ok(specs[i].Meaning()) {
      EntryRoundTrip(specs[i]);
    }
  }

  /** Parsing what was written gives the keys back, trimmed, when their trimmed secrets are distinct, and is
      refused as a duplicate when they are not. */
  lemma RoundTrip(specs: seq<KeySpec>)
    requires AllWritable(specs)
    ensures Parsed(Render(specs)) ==
      if DistinctSecrets(Meanings(specs)) then Ok(Meanings(specs)) else Err(DuplicateSecret)
  {
    assert [] + Meanings(specs) == Meanings(specs);
    if specs != [] {
      var entries := Entries(specs);
      forall e | e in entries ensures Visible(e) && Free(e, ';') {
        var i :| 0 <= i < |entries| && entries[i] == e;
        EntryRoundTrip(specs[i]);
      }
      assert entries[0] in entries;
      JoinVisible(entries, ';', 0);
      BlankIffWhite(Render(specs));
      PiecesUpToSpace(entries, ';');
      EntriesUpToSpace([], Split(Trim(Render(specs)), ';'), entries);
      WrittenEntries(specs);
      EntriesMeaning([], entries);
    }
  }

  // ----- Access as configured ----------------------------------------------------------

  lemma ScopeAsWritten(spec: KeySpec, tenant: string)
    ensures spec.Meaning().AllowsTenant(tenant) <==>
      Visible(tenant) && exists t | t in spec.tenants :: Trim(t) == ALL_TENANTS || Trim(t) == Trim(tenant)
  {
    BlankIffWhite(tenant);
    if t :| t in spec.tenants && (Trim(t) == ALL_TENANTS || Trim(t) == Trim(tenant)) {
      assert Trim(t) in Trimmed(spec.tenants);
    }
  }

  /** From the written configuration to access: a token opens a tenant exactly when it is the secret of a
      written key whose tenant list names the tenant or the wildcard - white space around any of them aside. */
  lemma AccessAsWritten(specs: seq<KeySpec>, token: string, tenant: string)
    requires AllWritable(specs) && DistinctSecrets(Meanings(specs))
    ensures Parsed(Render(specs)).Ok?
    ensures var keys := Parsed(Render(specs)).value;
      Authenticated(keys, token).Some? && Authenticated(keys, token).value.AllowsTenant(tenant) <==>
        Visible(tenant) && exists i, t | 0 <= i < |specs| && t in specs[i].tenants ::
          Trim(specs[i].secret) == Trim(token) && (Trim(t) == ALL_TENANTS || Trim(t) == Trim(tenant))
  {
    RoundTrip(specs);
    var keys := Meanings(specs);
    FindIsFirst(keys, Trim(token));
    forall i | 0 <= i < |specs| && Trim(specs[i].secret) == Trim(token)
      ensures Authenticated(keys, token) == Some(keys[i])
    {
      AcceptedSecretsAuthenticate(Render(specs), token, i);
      assert keys[i].secret == Trim(token);
    }
    forall i | 0 <= i < |specs| ensures keys[i].AllowsTenant(tenant) <==>
      Visible(tenant) && exists t | t in specs[i].tenants :: Trim(t) == ALL_TENANTS || Trim(t) == Trim(tenant)
    {
      ScopeAsWritten(specs[i], tenant);
    }
    if Authenticated(keys, token).Some? {
      var i :| 0 <= i < |keys| && keys[i].secret == Trim(token);
      assert Trim(specs[i].secret) == Trim(token);
    }
  }
}
