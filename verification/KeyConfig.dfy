/**
 Keys from the environment: parsing a versioned keyring, the key-related part of
 `Settings.validate`, and the resolution of keys that later code relies on. The JSON and Base64
 decoders and `str.strip` are library functions and appear as parameters.
 */
module KeyConfig {

  import opened Common
  import opened Json
  import opened AuditChain
  import opened AuditLog
  import Utf8
  import ControlCrypto

  datatype SecretKey = SecretKey(keyId: string, material: string)

  datatype Libraries = Libraries(
    strip: string -> string,
    loads: string -> Option<Json>,
    base64: string -> Option<Bytes>)

  type Environment = map<string, string>

  datatype ConfigError =
    | KeyringTooLarge
    | KeyringNotJson
    | KeyringSize
    | EntryShape(index: nat)
    | EntryInvalid(index: nat)
    | MaterialTooShort(index: nat)
    | KeyIdRequired
    | KeyRequired
    | KeyUndecodable
    | ActiveKeyMissing

  // ----- parsing a keyring -----

  predicate IsSecretEnv(s: string) {
    9 <= |s| <= 120 && s[..8] == "COIFESP_" && forall c <- s[8..] :: 'A' <= c <= 'Z' || '0' <= c <= '9' || c == '_'
  }

  predicate HasEntryShape(v: Json) {
    v.Obj? && v.fields.Keys == {"key_id", "key_env"}
  }

  function KeyIds(keys: seq<SecretKey>): set<string> {
    set key <- keys :: key.keyId
  }

  function ByteLength(s: string): nat {
    |Utf8.Encode(s)|
  }

  function Lookup(source: Environment, name: string): string {
    if name in source then source[name] else ""
  }

  /** One turn of the parser's loop, after the entries already in `result`. */
  function ParseEntry(v: Json, source: Environment, result: seq<SecretKey>): Result<SecretKey, ConfigError> {
    if !HasEntryShape(v) then Err(EntryShape(|result|))
    else
      var id, env := v.fields["key_id"], v.fields["key_env"];
      if !id.Str? || !IsIdentifier(id.text) || id.text in KeyIds(result) || !env.Str? || !IsSecretEnv(env.text) then
        Err(EntryInvalid(|result|))
      else
        var material := Lookup(source, env.text);
        if ByteLength(material) < 32 then Err(MaterialTooShort(|result|)) else Ok(SecretKey(id.text, material))
  }

  function ParseEntries(values: seq<Json>, source: Environment): Result<seq<SecretKey>, ConfigError> {
    if values == [] then Ok([])
    else
      match ParseEntries(values[..|values| - 1], source)
      case Err(error) => Err(error)
      case Ok(result) =>
        match ParseEntry(values[|values| - 1], source, result)
        case Err(error) => Err(error)
        case Ok(key) => Ok(result + [key])
  }

  function ParseKeyring(lib: Libraries, raw: Option<string>, source: Environment): Result<seq<SecretKey>, ConfigError> {
    if raw.None? then Ok([])
    else if ByteLength(raw.value) > 16384 then Err(KeyringTooLarge)
    else match lib.loads(raw.value)
      case None => Err(KeyringNotJson)
      case Some(values) =>
        if !values.Arr? || !(1 <= |values.items| <= 16) then Err(KeyringSize) else ParseEntries(values.items, source)
  }

  method ParseSecretKeyring(lib: Libraries, raw: Option<string>, source: Environment)
    returns (r: Result<seq<SecretKey>, ConfigError>)
    ensures r == ParseKeyring(lib, raw, source)
    ensures r.Ok? ==> IsParsedKeyring(r.value)
  {
    ParsedKeyringIsSound(lib, raw, source);
    if raw.None? {
      return Ok([]);
    }
    if ByteLength(raw.value) > 16384 {
      return Err(KeyringTooLarge);
    }
    var parsed := lib.loads(raw.value);
    if parsed.None? {
      return Err(KeyringNotJson);
    }
    if !parsed.value.Arr? || !(1 <= |parsed.value.items| <= 16) {
      return Err(KeyringSize);
    }
    r := ParseItems(parsed.value.items, source);
  }

  /** The loop over the entries, which remembers the ids it has seen. */
  method ParseItems(values: seq<Json>, source: Environment) returns (r: Result<seq<SecretKey>, ConfigError>)
    ensures r == ParseEntries(values, source)
  {
    var result: seq<SecretKey> := [];
    var seen: set<string> := {};
    for i := 0 to |values|
      invariant ParseEntries(values[..i], source) == Ok(result) && seen == KeyIds(result) && |result| == i
    {
      var value := values[i];
      ParseTurn(values, i, source, result);
      if !HasEntryShape(value) {
        return Err(EntryShape(i));
      }
      var id, env := value.fields["key_id"], value.fields["key_env"];
      if !id.Str? || !IsIdentifier(id.text) || id.text in seen || !env.Str? || !IsSecretEnv(env.text) {
        return Err(EntryInvalid(i));
      }
      var material := Lookup(source, env.text);
      if ByteLength(material) < 32 {
        return Err(MaterialTooShort(i));
      }
      KeyIdsOneMore(result, SecretKey(id.text, material));
      seen := seen + {id.text};
      result := result + [SecretKey(id.text, material)];
    }
    assert values[..|values|] == values;
    r := Ok(result);
  }

  /** One turn of the loop: the entry decides, and an error is final. */
  lemma ParseTurn(values: seq<Json>, i: nat, source: Environment, result: seq<SecretKey>)
    requires i < |values| && ParseEntries(values[..i], source) == Ok(result)
    ensures var entry := ParseEntry(values[i], source, result);
            if entry.Ok? then ParseEntries(values[..i + 1], source) == Ok(result + [entry.value])
            else ParseEntries(values, source) == Err(entry.error)
  {
    assert values[..i + 1][..i] == values[..i];
    if ParseEntry(values[i], source, result).Err? {
      ErrorPersists(values, i + 1, source);
    }
  }

  lemma KeyIdsOneMore(keys: seq<SecretKey>, key: SecretKey)
    ensures KeyIds(keys + [key]) == KeyIds(keys) + {key.keyId}
  {
  }

  lemma {:induction false} ErrorPersists(values: seq<Json>, n: nat, source: Environment)
    requires n <= |values| && ParseEntries(values[..n], source).Err?
    ensures ParseEntries(values, source) == ParseEntries(values[..n], source)
    decreases |values| - n
  {
    if n == |values| {
      assert values[..n] == values;
    } else {
      assert values[..n + 1][..n] == values[..n];
      ErrorPersists(values, n + 1, source);
    }
  }

  ghost predicate HasDistinctIds(keys: seq<SecretKey>) {
    forall i, j | 0 <= i < j < |keys| :: keys[i].keyId != keys[j].keyId
  }

  ghost predicate IsParsedKeyring(keys: seq<SecretKey>) {
    HasDistinctIds(keys) && forall key <- keys :: IsIdentifier(key.keyId) && ByteLength(key.material) >= 32
  }

  lemma {:induction false} ParsedEntriesAreSound(values: seq<Json>, source: Environment)
    requires ParseEntries(values, source).Ok?
    ensures IsParsedKeyring(ParseEntries(values, source).value) && |ParseEntries(values, source).value| == |values|
    decreases |values|
  {
    if values != [] {
      var n := |values| - 1;
      ParsedEntriesAreSound(values[..n], source);
      var result := ParseEntries(values[..n], source).value;
      var key := ParseEntry(values[n], source, result).value;
      forall i | 0 <= i < |result| ensures result[i].keyId != key.keyId {
        assert result[i].keyId in KeyIds(result);
      }
    }
  }

  lemma ParsedKeyringIsSound(lib: Libraries, raw: Option<string>, source: Environment)
    ensures ParseKeyring(lib, raw, source).Ok? ==> IsParsedKeyring(ParseKeyring(lib, raw, source).value)
  {
    if raw.Some? && ParseKeyring(lib, raw, source).Ok? {
      ParsedEntriesAreSound(lib.loads(raw.value).value.items, source);
    }
  }

  // ----- what parsing means -----

  /** The entry is an object with exactly these two names, both strings. */
  predicate Names(v: Json, id: string, env: string) {
    v == Obj(map["key_id" := Str(id), "key_env" := Str(env)])
  }

  /** The entry names this key, and the variable it names holds the key's material. */
  ghost predicate Describes(v: Json, source: Environment, key: SecretKey) {
    IsIdentifier(key.keyId) && ByteLength(key.material) >= 32
    && exists env :: Names(v, key.keyId, env) && IsSecretEnv(env) && env in source && source[env] == key.material
  }

  /** One key for each entry, in order, and no id twice. */
  ghost predicate AreDescribed(values: seq<Json>, source: Environment, keys: seq<SecretKey>) {
    |keys| == |values| && HasDistinctIds(keys) && forall i | 0 <= i < |keys| :: Describes(values[i], source, keys[i])
  }

  lemma EntryMeans(v: Json, source: Environment, past: seq<SecretKey>, key: SecretKey)
    ensures ParseEntry(v, source, past) == Ok(key) <==> Describes(v, source, key) && key.keyId !in KeyIds(past)
  {
    if ParseEntry(v, source, past) == Ok(key) {
      var env := v.fields["key_env"].text;
      assert v.fields == map["key_id" := Str(key.keyId), "key_env" := Str(env)];
      EmptyIsShort();
      assert Names(v, key.keyId, env);
    }
    if Describes(v, source, key) {
      var env :| Names(v, key.keyId, env) && IsSecretEnv(env) && env in source && source[env] == key.material;
      assert v.fields.Keys == {"key_id", "key_env"};
      assert "key_id"[4] != "key_env"[4];
      assert v.fields["key_id"] == Str(key.keyId) && v.fields["key_env"] == Str(env);
    }
  }

  lemma EmptyIsShort()
    ensures ByteLength("") == 0
  {
  }

  lemma DescribedOneMore(values: seq<Json>, source: Environment, keys: seq<SecretKey>)
    requires values != []
    ensures AreDescribed(values, source, keys) <==>
            keys != [] && AreDescribed(values[..|values| - 1], source, keys[..|keys| - 1])
            && Describes(values[|values| - 1], source, keys[|keys| - 1]) && keys[|keys| - 1].keyId !in KeyIds(keys[..|keys| - 1])
  {
    if keys != [] {
      var past, key := keys[..|keys| - 1], keys[|keys| - 1];
      assert forall i | 0 <= i < |past| :: past[i] == keys[i] && past[i].keyId in KeyIds(past);
      assert forall i | 0 <= i < |values| - 1 :: values[..|values| - 1][i] == values[i];
    }
  }

  /**
   Parsing the entries gives exactly these keys when, and only when, each entry in turn names
   a valid id that none before it has, and a variable of the environment that holds at least 32 bytes.
   */
  lemma {:induction false} EntriesMean(values: seq<Json>, source: Environment, keys: seq<SecretKey>)
    ensures ParseEntries(values, source) == Ok(keys) <==> AreDescribed(values, source, keys)
    decreases |values|
  {
    if values != [] {
      var n := |values| - 1;
      DescribedOneMore(values, source, keys);
      if keys != [] {
        var past, key := keys[..|keys| - 1], keys[|keys| - 1];
        assert keys == past + [key];
        EntriesMean(values[..n], source, past);
        EntryMeans(values[n], source, past, key);
        LastEntry(values, source, past, key);
      }
    }
  }

  lemma LastEntry(values: seq<Json>, source: Environment, past: seq<SecretKey>, key: SecretKey)
    requires values != []
    ensures var n := |values| - 1;
            ParseEntries(values, source) == Ok(past + [key])
            <==> ParseEntries(values[..n], source) == Ok(past) && ParseEntry(values[n], source, past) == Ok(key)
  {
    var n := |values| - 1;
    var before := ParseEntries(values[..n], source);
    if before.Ok? && ParseEntry(values[n], source, before.value).Ok? {
      var last := ParseEntry(values[n], source, before.value).value;
      if before.value + [last] == past + [key] {
        assert (before.value + [last])[..|before.value|] == before.value && (past + [key])[..|past|] == past;
        assert (before.value + [last])[|before.value|] == last && (past + [key])[|past|] == key;
      }
    }
  }

  /** The same for the whole setting: none, or a list of 1 to 16 such entries in at most 16384 bytes. */
  lemma KeyringMeans(lib: Libraries, raw: Option<string>, source: Environment, keys: seq<SecretKey>)
    ensures ParseKeyring(lib, raw, source) == Ok(keys) <==>
            (raw.None? && keys == [])
            || (raw.Some? && ByteLength(raw.value) <= 16384
                && exists values :: lib.loads(raw.value) == Some(Arr(values)) && 1 <= |values| <= 16 && AreDescribed(values, source, keys))
  {
    if raw.Some? && ByteLength(raw.value) <= 16384 && lib.loads(raw.value).Some? && lib.loads(raw.value).value.Arr? {
      var values := lib.loads(raw.value).value.items;
      assert lib.loads(raw.value) == Some(Arr(values));
      EntriesMean(values, source, keys);
    }
  }

  /** An error names the first entry that cannot follow those before it, and what is wrong with it. */
  lemma {:induction false} ErrorMeans(values: seq<Json>, source: Environment)
    requires ParseEntries(values, source).Err?
    ensures exists i | 0 <= i < |values| :: IsFirstBad(values, source, i, ParseEntries(values, source).error)
    decreases |values|
  {
    var n := |values| - 1;
    if values != [] {
      if ParseEntries(values[..n], source).Err? {
        ErrorMeans(values[..n], source);
        var i :| 0 <= i < n && IsFirstBad(values[..n], source, i, ParseEntries(values, source).error);
        assert values[..n][..i] == values[..i];
        assert IsFirstBad(values, source, i, ParseEntries(values, source).error);
      } else {
        ParsedLength(values[..n], source);
        EntryErrors(values[n], source, ParseEntries(values[..n], source).value);
        assert IsFirstBad(values, source, n, ParseEntries(values, source).error);
      }
    }
  }

  lemma {:induction false} ParsedLength(values: seq<Json>, source: Environment)
    requires ParseEntries(values, source).Ok?
    ensures |ParseEntries(values, source).value| == |values|
  {
    EntriesMean(values, source, ParseEntries(values, source).value);
  }

  ghost predicate IsFirstBad(values: seq<Json>, source: Environment, i: nat, error: ConfigError)
    requires i < |values|
  {
    ParseEntries(values[..i], source).Ok? && IsErrorOf(values[i], source, ParseEntries(values[..i], source).value, i, error)
  }

  /** What each error says of the entry. */
  ghost predicate IsErrorOf(v: Json, source: Environment, past: seq<SecretKey>, i: nat, error: ConfigError) {
    match error
    case EntryShape(j) => j == i && !(v.Obj? && v.fields.Keys == {"key_id", "key_env"})
    case EntryInvalid(j) =>
      j == i && v.Obj? && v.fields.Keys == {"key_id", "key_env"}
      && !exists id, env :: Names(v, id, env) && IsIdentifier(id) && id !in KeyIds(past) && IsSecretEnv(env)
    case MaterialTooShort(j) =>
      j == i && exists id, env :: Names(v, id, env) && IsIdentifier(id) && id !in KeyIds(past) && IsSecretEnv(env)
                                  && (env in source ==> ByteLength(source[env]) < 32)
    case _ => false
  }

  lemma EntryErrors(v: Json, source: Environment, past: seq<SecretKey>)
    requires ParseEntry(v, source, past).Err?
    ensures IsErrorOf(v, source, past, |past|, ParseEntry(v, source, past).error)
  {
    assert "key_id"[4] != "key_env"[4];
    if HasEntryShape(v) {
      var id, env := v.fields["key_id"], v.fields["key_env"];
      if id.Str? && env.Str? {
        assert v.fields == map["key_id" := id, "key_env" := env];
        assert Names(v, id.text, env.text);
      }
    }
  }

  // ----- settings -----

  /** The key-related settings of one purpose (audit, envelope or memory). */
  datatype KeySettings = KeySettings(activeId: Option<string>, legacy: Option<string>, versioned: seq<SecretKey>)

  datatype Settings = Settings(production: bool, audit: KeySettings, envelope: KeySettings, memory: KeySettings,
                               envelopeLegacyId: Option<string>)

  function Optional(lib: Libraries, source: Environment, name: string): Option<string> {
    var value := lib.strip(Lookup(source, name));
    if value == "" then None else Some(value)
  }

  function LoadKeys(lib: Libraries, source: Environment, idName: string, legacyName: string, ringName: string)
    : Result<KeySettings, ConfigError> {
    match ParseKeyring(lib, Optional(lib, source, ringName), source)
    case Err(error) => Err(error)
    case Ok(keys) => Ok(KeySettings(Optional(lib, source, idName), Optional(lib, source, legacyName), keys))
  }

  /** The key-related part of `Settings.from_environment`. */
  function FromEnvironment(lib: Libraries, source: Environment, production: bool): Result<Settings, ConfigError> {
    match LoadKeys(lib, source, "COIFESP_AUDIT_KEY_ID", "COIFESP_AUDIT_SIGNING_KEY", "COIFESP_AUDIT_KEYS_JSON")
    case Err(error) => Err(error)
    case Ok(audit) =>
      match LoadKeys(lib, source, "COIFESP_ENVELOPE_KEY_ID", "COIFESP_ENVELOPE_SIGNING_KEY", "COIFESP_ENVELOPE_KEYS_JSON")
      case Err(error) => Err(error)
      case Ok(envelope) =>
        match LoadKeys(lib, source, "COIFESP_MEMORY_KEY_ID", "COIFESP_MEMORY_MASTER_KEY", "COIFESP_MEMORY_KEYS_JSON")
        case Err(error) => Err(error)
        case Ok(memory) =>
          Ok(Settings(production, audit, envelope, memory, Optional(lib, source, "COIFESP_ENVELOPE_LEGACY_V1_KEY_ID")))
  }

  /** The settings of one purpose come from these three variables. */
  ghost predicate ComeFrom(lib: Libraries, source: Environment, k: KeySettings, idName: string, legacyName: string, ringName: string) {
    k.activeId == Given(lib, source, idName) && k.legacy == Given(lib, source, legacyName)
    && ParseKeyring(lib, Given(lib, source, ringName), source) == Ok(k.versioned)
  }

  lemma LoadedNames(lib: Libraries, source: Environment, idName: string, legacyName: string, ringName: string)
    ensures var r := LoadKeys(lib, source, idName, legacyName, ringName);
            r.Ok? ==> ComeFrom(lib, source, r.value, idName, legacyName, ringName)
  {
  }

  /** Every setting comes from its own variable: unset or blank is none, and blanks around a value do not count. */
  lemma EnvironmentNames(lib: Libraries, source: Environment, production: bool)
    requires FromEnvironment(lib, source, production).Ok?
    ensures var s := FromEnvironment(lib, source, production).value;
            ComeFrom(lib, source, s.audit, "COIFESP_AUDIT_KEY_ID", "COIFESP_AUDIT_SIGNING_KEY", "COIFESP_AUDIT_KEYS_JSON")
            && ComeFrom(lib, source, s.envelope, "COIFESP_ENVELOPE_KEY_ID", "COIFESP_ENVELOPE_SIGNING_KEY", "COIFESP_ENVELOPE_KEYS_JSON")
            && ComeFrom(lib, source, s.memory, "COIFESP_MEMORY_KEY_ID", "COIFESP_MEMORY_MASTER_KEY", "COIFESP_MEMORY_KEYS_JSON")
            && s.envelopeLegacyId == Given(lib, source, "COIFESP_ENVELOPE_LEGACY_V1_KEY_ID") && s.production == production
  {
    LoadedNames(lib, source, "COIFESP_AUDIT_KEY_ID", "COIFESP_AUDIT_SIGNING_KEY", "COIFESP_AUDIT_KEYS_JSON");
    LoadedNames(lib, source, "COIFESP_ENVELOPE_KEY_ID", "COIFESP_ENVELOPE_SIGNING_KEY", "COIFESP_ENVELOPE_KEYS_JSON");
    LoadedNames(lib, source, "COIFESP_MEMORY_KEY_ID", "COIFESP_MEMORY_MASTER_KEY", "COIFESP_MEMORY_KEYS_JSON");
  }

  /** A variable's value without blanks around it, unless nothing is left. */
  function Given(lib: Libraries, source: Environment, name: string): Option<string> {
    var value := if name in source then lib.strip(source[name]) else lib.strip("");
    if |value| == 0 then None else Some(value)
  }

  datatype Problem =
    | IdRequired(purpose: string)
    | MaterialRequired(purpose: string)
    | LegacyTooShort(purpose: string)
    | IdInvalid(purpose: string)
    | IdUnavailable(purpose: string)
    | LegacyConflicts(purpose: string)
    | MemoryNotBase64
    | MemoryKeysNotBase64

  predicate IsBase64Key(lib: Libraries, value: string) {
    match lib.base64(value)
    case None => false
    case Some(bytes) => |bytes| == 32
  }

  /** The first entry of the active id, if any. */
  function Matching(keys: seq<SecretKey>, id: Option<string>): Option<SecretKey> {
    if keys == [] then None
    else if id == Some(keys[0].keyId) then Some(keys[0])
    else Matching(keys[1..], id)
  }

  function RingProblems(k: KeySettings, purpose: string): seq<Problem> {
    (if k.versioned != [] && (k.activeId.None? || k.activeId.value !in KeyIds(k.versioned)) then [IdUnavailable(purpose)] else [])
    + (if k.versioned != [] && k.legacy.Some? && Matching(k.versioned, k.activeId).Some?
          && Matching(k.versioned, k.activeId).value.material != k.legacy.value then [LegacyConflicts(purpose)] else [])
  }

  function IdProblems(id: Option<string>, purpose: string): seq<Problem> {
    if id.Some? && !IsIdentifier(id.value) then [IdInvalid(purpose)] else []
  }

  function ProductionProblems(s: Settings): seq<Problem> {
    (if s.audit.activeId.None? then [IdRequired("audit")] else [])
    + (if s.memory.activeId.None? then [IdRequired("memory")] else [])
    + (if s.audit.legacy.None? && s.audit.versioned == [] then [MaterialRequired("audit")] else [])
    + (if s.envelope.legacy.None? && s.envelope.versioned == [] then [MaterialRequired("envelope")] else [])
    + (if s.memory.legacy.None? && s.memory.versioned == [] then [MaterialRequired("memory")] else [])
    + (if s.audit.legacy.Some? && ByteLength(s.audit.legacy.value) < 32 then [LegacyTooShort("audit")] else [])
    + (if s.envelope.legacy.Some? && ByteLength(s.envelope.legacy.value) < 32 then [LegacyTooShort("envelope")] else [])
  }

  function MemoryProblems(lib: Libraries, m: KeySettings): seq<Problem> {
    (if m.activeId.None? || m.activeId.value == "" then [IdRequired("memory")] else [])
    + (if m.legacy.None? && m.versioned == [] then [MaterialRequired("memory")] else [])
    + (if m.legacy.Some? && !IsBase64Key(lib, m.legacy.value) then [MemoryNotBase64] else [])
    + (if exists key <- m.versioned :: !IsBase64Key(lib, key.material) then [MemoryKeysNotBase64] else [])
  }

  /** The key-related problems that `validate` collects, in its order; it raises unless there are none. */
  function Problems(lib: Libraries, s: Settings, requireMemory: bool): seq<Problem> {
    (if s.production then ProductionProblems(s) else [])
    + IdProblems(s.audit.activeId, "audit") + IdProblems(s.envelope.activeId, "envelope")
    + IdProblems(s.envelopeLegacyId, "envelope-legacy") + IdProblems(s.memory.activeId, "memory")
    + RingProblems(s.audit, "audit") + RingProblems(s.envelope, "envelope") + RingProblems(s.memory, "memory")
    + (if s.envelopeLegacyId.Some? && s.envelopeLegacyId.value !in KeyIds(s.envelope.versioned) then [IdUnavailable("envelope-legacy")] else [])
    + (if requireMemory || s.production then MemoryProblems(lib, s.memory) else [])
  }

  // ----- resolving keys -----

  /** `{item.key_id: item.material for item in versioned}`. */
  function MaterialOf(keys: seq<SecretKey>): map<string, string> {
    if keys == [] then map[] else MaterialOf(keys[..|keys| - 1])[keys[|keys| - 1].keyId := keys[|keys| - 1].material]
  }

  function Decode(lib: Libraries, value: string, base64: bool): Option<Bytes> {
    if !base64 then
      if ByteLength(value) < 32 then None else Some(Utf8.Encode(value))
    else if IsBase64Key(lib, value) then lib.base64(value)
    else None
  }

  /** `configured_keys`. */
  function ConfiguredKeys(lib: Libraries, k: KeySettings, base64: bool): Result<(string, map<string, Bytes>), ConfigError> {
    if k.activeId.None? || k.activeId.value == "" then Err(KeyIdRequired)
    else if k.versioned == [] && k.legacy.None? then Err(KeyRequired)
    else
      var values := if k.versioned != [] then MaterialOf(k.versioned) else map[k.activeId.value := k.legacy.value];
      if exists id <- values :: Decode(lib, values[id], base64).None? then Err(KeyUndecodable)
      else if k.activeId.value !in values then Err(ActiveKeyMissing)
      else Ok((k.activeId.value, map id <- values | Decode(lib, values[id], base64).Some? :: Decode(lib, values[id], base64).value))
  }

  /** The dictionary holds exactly these keys, each with its own material. */
  ghost predicate HoldsAll(material: map<string, string>, keys: seq<SecretKey>) {
    material.Keys == KeyIds(keys) && |material| == |keys|
    && forall key <- keys :: key.keyId in material && material[key.keyId] == key.material
  }

  /** One more entry with a new id. */
  lemma HoldsOneMore(material: map<string, string>, past: seq<SecretKey>, key: SecretKey)
    requires HoldsAll(material, past) && key.keyId !in material
    ensures HoldsAll(material[key.keyId := key.material], past + [key])
  {
    assert material[key.keyId := key.material].Keys == material.Keys + {key.keyId};
  }

  lemma MaterialOfOneMore(past: seq<SecretKey>, key: SecretKey)
    ensures MaterialOf(past + [key]) == MaterialOf(past)[key.keyId := key.material]
  {
    assert (past + [key])[..|past|] == past;
  }

  /** With distinct ids the dictionary loses no key. */
  lemma {:induction false} MaterialOfKeepsAll(keys: seq<SecretKey>)
    requires HasDistinctIds(keys)
    ensures HoldsAll(MaterialOf(keys), keys)
    decreases |keys|
  {
    if keys != [] {
      var past, key := keys[..|keys| - 1], keys[|keys| - 1];
      DistinctPast(keys);
      MaterialOfKeepsAll(past);
      assert key.keyId !in MaterialOf(past).Keys;
      HoldsOneMore(MaterialOf(past), past, key);
      MaterialOfOneMore(past, key);
      assert past + [key] == keys;
    }
  }

  lemma DistinctPast(keys: seq<SecretKey>)
    requires HasDistinctIds(keys) && keys != []
    ensures HasDistinctIds(keys[..|keys| - 1]) && keys[|keys| - 1].keyId !in KeyIds(keys[..|keys| - 1])
  {
  }

  ghost predicate IsLoaded(k: KeySettings) {
    IsParsedKeyring(k.versioned) && k.activeId != Some("")
  }

  lemma LoadedKeys(lib: Libraries, source: Environment, idName: string, legacyName: string, ringName: string)
    ensures var r := LoadKeys(lib, source, idName, legacyName, ringName); r.Ok? ==> IsLoaded(r.value)
  {
    ParsedKeyringIsSound(lib, Optional(lib, source, ringName), source);
  }

  /** What an environment can put into the settings. */
  lemma EnvironmentIsLoaded(lib: Libraries, source: Environment, production: bool)
    requires FromEnvironment(lib, source, production).Ok?
    ensures var s := FromEnvironment(lib, source, production).value;
            s.production == production && IsLoaded(s.audit) && IsLoaded(s.envelope) && IsLoaded(s.memory)
  {
    LoadedKeys(lib, source, "COIFESP_AUDIT_KEY_ID", "COIFESP_AUDIT_SIGNING_KEY", "COIFESP_AUDIT_KEYS_JSON");
    LoadedKeys(lib, source, "COIFESP_ENVELOPE_KEY_ID", "COIFESP_ENVELOPE_SIGNING_KEY", "COIFESP_ENVELOPE_KEYS_JSON");
    LoadedKeys(lib, source, "COIFESP_MEMORY_KEY_ID", "COIFESP_MEMORY_MASTER_KEY", "COIFESP_MEMORY_KEYS_JSON");
  }

  /** Every configured key of one purpose is resolved, under its own id and with its own material. */
  ghost predicate IsComplete(lib: Libraries, k: KeySettings, base64: bool, keys: map<string, Bytes>) {
    if k.versioned != [] then
      keys.Keys == KeyIds(k.versioned) && |keys| == |k.versioned|
      && forall key <- k.versioned :: Decode(lib, key.material, base64) == Some(keys[key.keyId])
    else
      k.activeId.Some? && k.legacy.Some? && keys.Keys == {k.activeId.value}
      && Decode(lib, k.legacy.value, base64) == Some(keys[k.activeId.value])
  }

  /** When the active id is known and everything decodes, resolution succeeds and loses nothing. */
  lemma ResolutionSucceeds(lib: Libraries, k: KeySettings, base64: bool)
    requires IsLoaded(k) && k.activeId.Some? && (k.versioned != [] || k.legacy.Some?)
    requires k.versioned != [] ==> k.activeId.value in KeyIds(k.versioned)
    requires forall key <- k.versioned :: Decode(lib, key.material, base64).Some?
    requires k.versioned == [] ==> Decode(lib, k.legacy.value, base64).Some?
    ensures ConfiguredKeys(lib, k, base64).Ok?
    ensures var (active, keys) := ConfiguredKeys(lib, k, base64).value;
            active == k.activeId.value && active in keys && IsComplete(lib, k, base64, keys)
  {
    if k.versioned != [] {
      VersionedResolves(lib, k, base64);
    }
  }

  lemma VersionedResolves(lib: Libraries, k: KeySettings, base64: bool)
    requires HasDistinctIds(k.versioned) && k.versioned != [] && k.activeId.Some? && k.activeId.value != ""
    requires k.activeId.value in KeyIds(k.versioned)
    requires forall key <- k.versioned :: Decode(lib, key.material, base64).Some?
    ensures ConfiguredKeys(lib, k, base64).Ok?
    ensures ConfiguredKeys(lib, k, base64).value.0 == k.activeId.value
    ensures IsComplete(lib, k, base64, ConfiguredKeys(lib, k, base64).value.1)
  {
    MaterialOfKeepsAll(k.versioned);
    var values := MaterialOf(k.versioned);
    forall id <- values ensures Decode(lib, values[id], base64).Some? {
      var key :| key in k.versioned && key.keyId == id;
    }
    assert ConfiguredKeys(lib, k, base64).value.1.Keys == values.Keys;
    SameSize(ConfiguredKeys(lib, k, base64).value.1, values);
  }

  lemma SameSize<A, B>(m: map<string, A>, n: map<string, B>)
    requires m.Keys == n.Keys
    ensures |m| == |n|
  {
    assert |m.Keys| == |m| && |n.Keys| == |n|;
  }

  lemma NoProblems(lib: Libraries, s: Settings, requireMemory: bool)
    requires Problems(lib, s, requireMemory) == []
    ensures s.production ==> ProductionProblems(s) == []
    ensures IdProblems(s.audit.activeId, "audit") == [] && IdProblems(s.memory.activeId, "memory") == []
    ensures RingProblems(s.audit, "audit") == [] && RingProblems(s.memory, "memory") == []
    ensures requireMemory || s.production ==> MemoryProblems(lib, s.memory) == []
  {
  }

  /** `memory_keys_from_settings` cannot fail after `validate(require_memory=True)` passes. */
  lemma MemoryKeysResolve(lib: Libraries, source: Environment, production: bool)
    requires FromEnvironment(lib, source, production).Ok?
    requires Problems(lib, FromEnvironment(lib, source, production).value, true) == []
    ensures var s := FromEnvironment(lib, source, production).value;
            var r := ConfiguredKeys(lib, s.memory, true);
            r.Ok? && r.value.0 != "" && r.value.0 in r.value.1 && IsComplete(lib, s.memory, true, r.value.1)
            && forall id <- r.value.1 :: |r.value.1[id]| == 32
  {
    var s := FromEnvironment(lib, source, production).value;
    EnvironmentIsLoaded(lib, source, production);
    NoProblems(lib, s, true);
    MemoryResolves(lib, s.memory);
  }

  lemma MemoryResolves(lib: Libraries, m: KeySettings)
    requires IsLoaded(m) && MemoryProblems(lib, m) == [] && RingProblems(m, "memory") == []
    ensures var r := ConfiguredKeys(lib, m, true);
            r.Ok? && r.value.0 != "" && r.value.0 in r.value.1 && IsComplete(lib, m, true, r.value.1)
            && forall id <- r.value.1 :: |r.value.1[id]| == 32
  {
    ResolutionSucceeds(lib, m, true);
  }

  /** So building the keyring for control content from settings cannot fail, and it keeps every key. */
  lemma ControlKeyringBuilds(lib: Libraries, source: Environment, production: bool)
    requires FromEnvironment(lib, source, production).Ok?
    requires Problems(lib, FromEnvironment(lib, source, production).value, true) == []
    ensures var keys := ConfiguredKeys(lib, FromEnvironment(lib, source, production).value.memory, true);
            keys.Ok? && ControlCrypto.NewRing([], "", keys.value.0, keys.value.1) == Ok(ControlCrypto.Ring(keys.value.0, keys.value.1))
  {
    MemoryKeysResolve(lib, source, production);
    var keys := ConfiguredKeys(lib, FromEnvironment(lib, source, production).value.memory, true).value;
    RingFromKeys(keys.0, keys.1);
  }

  lemma RingFromKeys(active: string, keys: map<string, Bytes>)
    requires active != "" && active in keys && forall id <- keys :: |keys[id]| == 32
    ensures ControlCrypto.NewRing([], "", active, keys) == Ok(ControlCrypto.Ring(active, keys))
  {
    assert keys != map[];
  }

  /** Building the audit keyring cannot fail after production validation passes. */
  lemma AuditKeyringBuilds(lib: Libraries, source: Environment)
    ensures var loaded := FromEnvironment(lib, source, true);
            loaded.Ok? && Problems(lib, loaded.value, false) == [] ==>
              var r := ConfiguredKeys(lib, loaded.value.audit, false);
              r.Ok? && NewKeyring(r.value.0, r.value.1).Ok? && IsComplete(lib, loaded.value.audit, false, r.value.1)
  {
    var loaded := FromEnvironment(lib, source, true);
    if loaded.Ok? && Problems(lib, loaded.value, false) == [] {
      EnvironmentIsLoaded(lib, source, true);
      NoProblems(lib, loaded.value, false);
      AuditResolves(lib, loaded.value);
    }
  }

  lemma AuditResolves(lib: Libraries, s: Settings)
    requires IsLoaded(s.audit) && ProductionProblems(s) == []
    requires IdProblems(s.audit.activeId, "audit") == [] && RingProblems(s.audit, "audit") == []
    ensures var r := ConfiguredKeys(lib, s.audit, false);
            r.Ok? && NewKeyring(r.value.0, r.value.1).Ok? && IsComplete(lib, s.audit, false, r.value.1)
  {
    ResolutionSucceeds(lib, s.audit, false);
    var (active, keys) := ConfiguredKeys(lib, s.audit, false).value;
    forall id <- keys ensures IsIdentifier(id) && |keys[id]| >= 32 {
      if s.audit.versioned != [] {
        var key :| key in s.audit.versioned && key.keyId == id;
      }
    }
  }

  // ----- exactly what validation accepts -----

  /** What `configured_keys` needs. */
  ghost predicate CanResolve(lib: Libraries, k: KeySettings, base64: bool) {
    k.activeId.Some? && k.activeId.value != ""
    && if k.versioned != []
       then k.activeId.value in KeyIds(k.versioned) && forall key <- k.versioned :: Decode(lib, key.material, base64).Some?
       else k.legacy.Some? && Decode(lib, k.legacy.value, base64).Some?
  }

  lemma ResolutionMeans(lib: Libraries, k: KeySettings, base64: bool)
    requires HasDistinctIds(k.versioned)
    ensures ConfiguredKeys(lib, k, base64).Ok? <==> CanResolve(lib, k, base64)
  {
    MaterialOfKeepsAll(k.versioned);
    if k.versioned != [] && k.activeId.Some? && k.activeId.value != "" {
      if forall key <- k.versioned :: Decode(lib, key.material, base64).Some? {
        if k.activeId.value in KeyIds(k.versioned) {
          VersionedResolves(lib, k, base64);
        }
      } else {
        var key :| key in k.versioned && Decode(lib, key.material, base64).None?;
        assert key.keyId in KeyIds(k.versioned) && MaterialOf(k.versioned)[key.keyId] == key.material;
      }
    }
  }

  /** A legacy key and the active entry of the keyring, where both are given, are the same. */
  ghost predicate HasNoConflict(k: KeySettings) {
    k.legacy.Some? ==> forall key <- k.versioned | k.activeId == Some(key.keyId) :: key.material == k.legacy.value
  }

  lemma {:induction false} MatchingMeans(keys: seq<SecretKey>, id: Option<string>)
    requires HasDistinctIds(keys)
    ensures forall key <- keys | id == Some(key.keyId) :: Matching(keys, id) == Some(key)
    ensures Matching(keys, id).Some? ==> Matching(keys, id).value in keys && id == Some(Matching(keys, id).value.keyId)
    decreases |keys|
  {
    if keys != [] {
      assert forall i | 0 <= i < |keys| - 1 :: keys[1..][i] == keys[i + 1];
      MatchingMeans(keys[1..], id);
      forall key <- keys | id == Some(key.keyId) ensures Matching(keys, id) == Some(key) {
        var i :| 0 <= i < |keys| && keys[i] == key;
        assert i > 0 ==> key in keys[1..] && keys[0].keyId != key.keyId;
      }
    }
  }

  lemma RingProblemsMean(k: KeySettings, purpose: string)
    requires HasDistinctIds(k.versioned)
    ensures RingProblems(k, purpose) == [] <==>
            (k.versioned != [] ==> k.activeId.Some? && k.activeId.value in KeyIds(k.versioned)) && HasNoConflict(k)
  {
    MatchingMeans(k.versioned, k.activeId);
  }

  /** Memory settings pass exactly when their keys resolve, their id is valid, and a legacy key is a key and agrees. */
  lemma MemoryIsExact(lib: Libraries, m: KeySettings)
    requires IsLoaded(m)
    ensures MemoryProblems(lib, m) == [] && RingProblems(m, "memory") == [] && IdProblems(m.activeId, "memory") == []
            <==> ConfiguredKeys(lib, m, true).Ok? && IsIdentifier(m.activeId.value) && HasNoConflict(m)
                 && (m.legacy.Some? ==> Decode(lib, m.legacy.value, true).Some?)
  {
    ResolutionMeans(lib, m, true);
    RingProblemsMean(m, "memory");
  }

  /** The audit settings of a production environment, likewise. */
  ghost predicate IsUsable(lib: Libraries, k: KeySettings) {
    ConfiguredKeys(lib, k, false).Ok? && IsIdentifier(k.activeId.value) && HasNoConflict(k)
    && (k.legacy.Some? ==> ByteLength(k.legacy.value) >= 32)
  }

  ghost predicate IsUsableEnvelope(s: Settings) {
    var k := s.envelope;
    (k.legacy.Some? || k.versioned != []) && (k.legacy.Some? ==> ByteLength(k.legacy.value) >= 32) && HasNoConflict(k)
    && (k.activeId.Some? ==> IsIdentifier(k.activeId.value))
    && (k.versioned != [] ==> k.activeId.Some? && k.activeId.value in KeyIds(k.versioned))
    && (s.envelopeLegacyId.Some? ==> IsIdentifier(s.envelopeLegacyId.value) && s.envelopeLegacyId.value in KeyIds(k.versioned))
  }

  lemma AuditIsExact(lib: Libraries, k: KeySettings)
    requires IsLoaded(k)
    ensures IsUsable(lib, k) <==>
            k.activeId.Some? && IsIdentifier(k.activeId.value) && (k.legacy.Some? || k.versioned != [])
            && (k.legacy.Some? ==> ByteLength(k.legacy.value) >= 32) && RingProblems(k, "audit") == []
  {
    ResolutionMeans(lib, k, false);
    RingProblemsMean(k, "audit");
  }

  /** As far as keys go, production validation passes exactly when the audit and memory keys resolve and nothing given is unusable. */
  lemma ValidationIsExact(lib: Libraries, s: Settings, requireMemory: bool)
    requires s.production && IsLoaded(s.audit) && IsLoaded(s.memory) && IsLoaded(s.envelope)
    ensures Problems(lib, s, requireMemory) == [] <==>
            IsUsable(lib, s.audit) && IsUsableEnvelope(s)
            && ConfiguredKeys(lib, s.memory, true).Ok? && IsIdentifier(s.memory.activeId.value) && HasNoConflict(s.memory)
            && (s.memory.legacy.Some? ==> Decode(lib, s.memory.legacy.value, true).Some?)
  {
    AuditIsExact(lib, s.audit);
    MemoryIsExact(lib, s.memory);
    RingProblemsMean(s.envelope, "envelope");
    ProductionMeans(s);
    ProblemsAreTheirParts(lib, s, requireMemory);
  }

  lemma ProductionMeans(s: Settings)
    ensures ProductionProblems(s) == [] <==>
            s.audit.activeId.Some? && s.memory.activeId.Some?
            && (s.audit.legacy.Some? || s.audit.versioned != []) && (s.envelope.legacy.Some? || s.envelope.versioned != [])
            && (s.memory.legacy.Some? || s.memory.versioned != [])
            && (s.audit.legacy.Some? ==> ByteLength(s.audit.legacy.value) >= 32)
            && (s.envelope.legacy.Some? ==> ByteLength(s.envelope.legacy.value) >= 32)
  {
  }

  lemma ProblemsAreTheirParts(lib: Libraries, s: Settings, requireMemory: bool)
    requires s.production
    ensures Problems(lib, s, requireMemory) == [] <==>
            ProductionProblems(s) == []
            && IdProblems(s.audit.activeId, "audit") == [] && IdProblems(s.envelope.activeId, "envelope") == []
            && IdProblems(s.envelopeLegacyId, "envelope-legacy") == [] && IdProblems(s.memory.activeId, "memory") == []
            && RingProblems(s.audit, "audit") == [] && RingProblems(s.envelope, "envelope") == [] && RingProblems(s.memory, "memory") == []
            && (s.envelopeLegacyId.Some? ==> s.envelopeLegacyId.value in KeyIds(s.envelope.versioned))
            && MemoryProblems(lib, s.memory) == []
  {
  }
}
