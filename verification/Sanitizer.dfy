/**
 Redaction of audit-log details (activity_store.py, ACTIVITY_DETAIL_VALUE_ALLOWLIST,
 _scrub_residual and _sanitize_detail).
 */
module Sanitizer {
  import opened Json
  import opened Wrappers

  const MASK := Text("***changed***")

  // --- secret names ---------------------------------------------------------------------

  /** How a character compares when case is ignored: to the letters of the pattern below, the
      capitals, the dotted capital and the dotless small i, the long s and the Kelvin sign. */
  function Fold(c: char): char {
    if 'A' <= c <= 'Z' then c - 'A' + 'a'
    else if c == '\U{130}' || c == '\U{131}' then 'i'
    else if c == '\U{17F}' then 's'
    else if c == '\U{212A}' then 'k'
    else c
  }

  /** name reads word from place i on, whatever the case. */
  predicate Reads(name: string, i: nat, word: string) {
    i + |word| <= |name| && forall k | 0 <= k < |word| :: Fold(name[i + k]) == word[k]
  }

  predicate Mentions(name: string, word: string) {
    exists i: nat | i <= |name| :: Reads(name, i, word)
  }

  function SecretWords(): set<string> {
    {"password", "token", "apikey", "api_key", "api-key", "secret", "authorization", "key", "credential", "bearer"}
  }

  predicate IsSecret(name: string) {
    exists word <- SecretWords() :: Mentions(name, word)
  }

  /** c is the letter l, or another form of it when case is ignored. */
  predicate IsFormOf(c: char, l: char) {
    || c == l
    || ('a' <= l <= 'z' && c == l - 'a' + 'A')
    || (l == 'i' && (c == '\U{130}' || c == '\U{131}'))
    || (l == 's' && c == '\U{17F}')
    || (l == 'k' && c == '\U{212A}')
  }

  predicate Spells(text: string, word: string) {
    |text| == |word| && forall k | 0 <= k < |word| :: IsFormOf(text[k], word[k])
  }

  /** The words that decide; apikey, api_key and api-key hold "key" already. */
  predicate Decides(word: string) {
    word in {"password", "token", "secret", "authorization", "key", "credential", "bearer"}
  }

  ghost predicate Holds(name: string, before: string, text: string, after: string, word: string) {
    name == before + text + after && Decides(word) && Spells(text, word)
  }

  predicate IsPlain(word: string) {
    forall k | 0 <= k < |word| :: !('A' <= word[k] <= 'Z') && word[k] < '\U{80}'
  }

  lemma ReadsWhatIsSpelt(name: string, i: nat, word: string)
    requires i + |word| <= |name| && IsPlain(word)
    ensures Reads(name, i, word) <==> Spells(name[i..i + |word|], word)
  {
    forall k | 0 <= k < |word| ensures Fold(name[i + k]) == word[k] <==> IsFormOf(name[i..i + |word|][k], word[k]) {
      assert name[i..i + |word|][k] == name[i + k];
    }
  }

  /** In a longer word the end is read behind the beginning. */
  lemma ReadsTheEnd(name: string, i: nat, word: string, m: nat)
    requires Reads(name, i, word) && m <= |word|
    ensures Reads(name, i + m, word[m..])
  {
    forall k | 0 <= k < |word| - m ensures Fold(name[i + m + k]) == word[m..][k] {
      assert Fold(name[i + (m + k)]) == word[m + k];
    }
  }

  lemma DecidersAreSecret(word: string)
    requires Decides(word)
    ensures word in SecretWords() && IsPlain(word)
  {
  }

  lemma SecretWordsEndInDeciders(word: string) returns (m: nat)
    requires word in SecretWords()
    ensures m <= |word| && Decides(word[m..])
  {
    if word == "apikey" {
      m := 3;
      assert word[m..] == "key";
    } else if word == "api_key" || word == "api-key" {
      m := 4;
      assert word[m..] == "key";
    } else {
      m := 0;
      assert word[m..] == word;
    }
  }

  lemma HoldsIsSecret(name: string, before: string, text: string, after: string, word: string)
    requires Holds(name, before, text, after, word)
    ensures IsSecret(name)
  {
    DecidersAreSecret(word);
    assert name[|before|..|before| + |word|] == text;
    ReadsWhatIsSpelt(name, |before|, word);
    assert Mentions(name, word);
  }

  lemma MentionedEnd(name: string, word: string, m: nat) returns (before: string, text: string, after: string)
    requires Mentions(name, word) && m <= |word| && IsPlain(word[m..])
    ensures name == before + text + after && Spells(text, word[m..])
  {
    var i: nat :| i <= |name| && Reads(name, i, word);
    ReadsTheEnd(name, i, word, m);
    ReadsWhatIsSpelt(name, i + m, word[m..]);
    before, text, after := name[..i + m], name[i + m..i + |word|], name[i + |word|..];
  }

  lemma SecretHolds(name: string) returns (before: string, text: string, after: string, word: string)
    requires IsSecret(name)
    ensures Holds(name, before, text, after, word)
  {
    var whole :| whole in SecretWords() && Mentions(name, whole);
    var m := SecretWordsEndInDeciders(whole);
    word := whole[m..];
    DecidersAreSecret(word);
    before, text, after := MentionedEnd(name, whole, m);
  }

  /** A name is secret exactly if one of seven words stands in it, in capitals or not. */
  lemma SecretExactlyWhen(name: string)
    ensures IsSecret(name) <==>
            exists before: string, text: string, after: string, word: string :: Holds(name, before, text, after, word)
  {
    if IsSecret(name) {
      var before, text, after, word := SecretHolds(name);
    }
    forall before: string, text: string, after: string, word: string | Holds(name, before, text, after, word)
      ensures IsSecret(name)
    {
      HoldsIsSecret(name, before, text, after, word);
    }
  }

  // --- the two passes ---------------------------------------------------------------------

  /** _scrub_residual. */
  function Scrub(v: Value): Value {
    match v
    case Object(fields) => Object(map k <- fields :: if IsSecret(k) then MASK else Scrub(fields[k]))
    case Array(items) => Array(seq(|items|, i requires 0 <= i < |items| => Scrub(items[i])))
    case _ => v
  }

  /** The values that Python takes for false. */
  predicate IsFalsy(v: Value) {
    match v
    case Null => true
    case Bool(b) => !b
    case Number(n) => n == 0.0
    case Text(s) => s == ""
    case Array(items) => items == []
    case Object(fields) => fields == map[]
  }

  /** The first pass: of the fields in allow the values stay, of any other only the name. */
  function DenyByDefault(allow: Option<set<string>>, fields: map<string, Value>): map<string, Value> {
    map k <- fields :: if allow.Some? && k in allow.value then fields[k] else MASK
  }

  function SanitizeWith(allow: Option<set<string>>, detail: Value): Value {
    if IsFalsy(detail) then Object(map[])
    else if !detail.Object? then Object(map["detail" := MASK])
    else Scrub(Object(DenyByDefault(allow, detail.fields)))
  }

  // --- what the scrub keeps and what it forgets -------------------------------------------

  datatype Place = Field(name: string) | Item(index: nat)

  /** The value at the end of a path into v. */
  function At(v: Value, path: seq<Place>): Option<Value>
    decreases |path|
  {
    if path == [] then Some(v)
    else
      match (v, path[0])
      case (Object(fields), Field(name)) => if name in fields then At(fields[name], path[1..]) else None
      case (Array(items), Item(i)) => if i < |items| then At(items[i], path[1..]) else None
      case _ => None
  }

  predicate IsSecretPlace(p: Place) {
    p.Field? && IsSecret(p.name)
  }

  /** At any depth of nested objects and lists, what is stored under a secret name is the mask. */
  lemma {:induction false} SecretsAreMasked(v: Value, path: seq<Place>)
    requires path != [] && IsSecretPlace(path[|path| - 1])
    ensures At(Scrub(v), path).Some? ==> At(Scrub(v), path).value == MASK
    decreases |path|
  {
    if |path| > 1 && At(Scrub(v), path).Some? {
      var rest := path[1..];
      match v
      case Object(fields) =>
        if !IsSecretPlace(path[0]) { SecretsAreMasked(fields[path[0].name], rest); }
      case Array(items) => SecretsAreMasked(items[path[0].index], rest);
      case _ =>
    } else if At(Scrub(v), path).Some? {
      assert At(Scrub(v), path) == At(Scrub(v).fields[path[0].name], path[1..]);
    }
  }

  /** Along a path without secret names everything stays where it was. */
  lemma {:induction false} OthersAreKept(v: Value, path: seq<Place>)
    requires forall p <- path :: !IsSecretPlace(p)
    ensures At(v, path).None? ==> At(Scrub(v), path).None?
    ensures At(v, path).Some? ==> At(Scrub(v), path) == Some(Scrub(At(v, path).value))
    decreases |path|
  {
    if path != [] {
      assert !IsSecretPlace(path[0]);
      match (v, path[0])
      case (Object(fields), Field(name)) => if name in fields { OthersAreKept(fields[name], path[1..]); }
      case (Array(items), Item(i)) => if i < |items| { OthersAreKept(items[i], path[1..]); }
      case _ =>
    }
  }

  /** v and w differ at most in what is stored under secret names. */
  predicate SameButSecrets(v: Value, w: Value) {
    match v
    case Object(fields) =>
      w.Object? && fields.Keys == w.fields.Keys
      && forall k <- fields :: IsSecret(k) || SameButSecrets(fields[k], w.fields[k])
    case Array(items) =>
      w.Array? && |items| == |w.items| && forall i | 0 <= i < |items| :: SameButSecrets(items[i], w.items[i])
    case _ => v == w
  }

  /** The scrub forgets the values under secret names and nothing else. */
  lemma {:induction false} ScrubForgetsSecrets(v: Value, w: Value)
    ensures Scrub(v) == Scrub(w) <==> SameButSecrets(v, w)
    decreases v, 1
  {
    match v
    case Object(_) => if w.Object? { ScrubbedFields(v, w); }
    case Array(_) => if w.Array? { ScrubbedItems(v, w); }
    case _ =>
  }

  lemma {:induction false} ScrubbedFields(v: Value, w: Value)
    requires v.Object? && w.Object?
    ensures Scrub(v) == Scrub(w) <==> SameButSecrets(v, w)
    decreases v, 0
  {
    var f, g := v.fields, w.fields;
    var sf, sg := Scrub(v).fields, Scrub(w).fields;
    assert sf.Keys == f.Keys && sg.Keys == g.Keys;
    if f.Keys == g.Keys {
      forall k | k in f ensures sf[k] == sg[k] <==> (IsSecret(k) || SameButSecrets(f[k], g[k])) {
        if !IsSecret(k) { ScrubForgetsSecrets(f[k], g[k]); }
      }
      if SameButSecrets(v, w) { assert sf == sg; }
    }
  }

  lemma {:induction false} ScrubbedItems(v: Value, w: Value)
    requires v.Array? && w.Array?
    ensures Scrub(v) == Scrub(w) <==> SameButSecrets(v, w)
    decreases v, 0
  {
    var a, b := v.items, w.items;
    var sa, sb := Scrub(v).items, Scrub(w).items;
    if |a| == |b| {
      forall i | 0 <= i < |a| ensures sa[i] == sb[i] <==> SameButSecrets(a[i], b[i]) {
        ScrubForgetsSecrets(a[i], b[i]);
      }
      if SameButSecrets(v, w) { assert sa == sb; }
    }
  }

  lemma {:induction false} ScrubTwice(v: Value)
    ensures Scrub(Scrub(v)) == Scrub(v)
  {
    match v
    case Object(fields) =>
      var once := Scrub(v).fields;
      assert once.Keys == fields.Keys;
      forall k | k in fields && !IsSecret(k) ensures Scrub(once[k]) == once[k] { ScrubTwice(fields[k]); }
      assert Scrub(Scrub(v)).fields == once;
    case Array(items) =>
      forall i | 0 <= i < |items| ensures Scrub(Scrub(items[i])) == Scrub(items[i]) { ScrubTwice(items[i]); }
      assert Scrub(Scrub(v)).items == Scrub(v).items;
    case _ =>
  }

  // --- what is stored of a detail --------------------------------------------------------------

  /** Sanitizing again changes nothing. */
  lemma SanitizeTwice(allow: Option<set<string>>, detail: Value)
    ensures SanitizeWith(allow, SanitizeWith(allow, detail)) == SanitizeWith(allow, detail)
  {
    var once := SanitizeWith(allow, detail);
    if !IsFalsy(detail) {
      var fields := once.fields;
      assert detail.Object? ==> fields.Keys == detail.fields.Keys;
      assert fields != map[] by { if !detail.Object? { assert "detail" in fields; } }
      if detail.Object? { ScrubTwice(Object(DenyByDefault(allow, detail.fields))); }
      forall k | k in fields ensures DenyByDefault(allow, fields)[k] == fields[k] {
        assert !(allow.Some? && k in allow.value) ==> fields[k] == MASK;
      }
      assert DenyByDefault(allow, fields) == fields;
      if !detail.Object? { assert Scrub(once).fields == fields; }
    }
  }

  predicate IsAllowed(allow: Option<set<string>>, k: string) {
    allow.Some? && k in allow.value
  }

  /** What is stored depends on the names of the fields and, up to the secrets inside, on the
      values of those allowed fields that have no secret name; and on nothing else. */
  lemma StoredDependsOn(allow: Option<set<string>>, f: map<string, Value>, g: map<string, Value>)
    ensures SanitizeWith(allow, Object(f)) == SanitizeWith(allow, Object(g)) <==>
            f.Keys == g.Keys && forall k | k in f && IsAllowed(allow, k) && !IsSecret(k) :: SameButSecrets(f[k], g[k])
  {
    var df, dg := DenyByDefault(allow, f), DenyByDefault(allow, g);
    StoredIsScrubbed(allow, f);
    StoredIsScrubbed(allow, g);
    ScrubForgetsSecrets(Object(df), Object(dg));
    assert df.Keys == f.Keys && dg.Keys == g.Keys;
    assert SameButSecrets(MASK, MASK);
  }

  lemma StoredIsScrubbed(allow: Option<set<string>>, f: map<string, Value>)
    ensures SanitizeWith(allow, Object(f)) == Scrub(Object(DenyByDefault(allow, f)))
    ensures SanitizeWith(allow, Object(f)).fields.Keys == f.Keys
  {
    if f == map[] {
      assert DenyByDefault(allow, f) == map[];
      assert Scrub(Object(map[])).fields == map[];
    }
    assert Scrub(Object(DenyByDefault(allow, f))).fields.Keys == f.Keys;
  }

  /** An allowed field without a secret name is stored with its value, scrubbed inside. */
  lemma AllowedIsStored(allow: Option<set<string>>, f: map<string, Value>, k: string)
    requires k in f && IsAllowed(allow, k) && !IsSecret(k)
    ensures k in SanitizeWith(allow, Object(f)).fields
    ensures SanitizeWith(allow, Object(f)).fields[k] == Scrub(f[k])
  {
    StoredIsScrubbed(allow, f);
    var stored := Scrub(Object(DenyByDefault(allow, f))).fields;
    assert stored[k] == Scrub(DenyByDefault(allow, f)[k]);
  }

  /** A detail that is no object leaves no value: an empty object for null, false, zero, empty
      text and the empty list, a mask for anything else. */
  lemma NoObjectIsStored(allow: Option<set<string>>, detail: Value)
    requires !detail.Object?
    ensures SanitizeWith(allow, detail) ==
            if detail == Null || detail == Bool(false) || detail == Number(0.0) || detail == Text("") || detail == Array([])
            then Object(map[]) else Object(map["detail" := Text("***changed***")])
  {
  }

  // --- the allowlist -----------------------------------------------------------------------------

  /** ACTIVITY_DETAIL_VALUE_ALLOWLIST; an unknown type allows nothing. */
  function Allowlist(activityType: string): Option<set<string>> {
    match activityType
    case "config-web" | "config-phone" =>
      Some({"engine", "lang", "scenario", "provider", "voice", "minimax_model", "model", "asr_filter"})
    case "voice-create" | "voice-update" | "voice-delete" =>
      Some({"provider", "voice_id", "label", "gender", "language", "locale", "polyglot", "engine", "boost"})
    case "user-create" | "user-update" | "user-delete" => Some({"role", "disabled"})
    case "mcp-upsert" | "mcp-delete" => Some({"id", "label", "transport", "enabled"})
    case "demo-edit" => Some({"changed"})
    case "login" | "logout" => Some({"username"})
    case "guest-link-create" => Some({"ttl_minutes", "scenario", "lang", "engine", "voice", "provider"})
    case "guest-login" => Some({"scenario"})
    case "call-start" | "call-end" => Some({"engine", "lang", "scenario", "voice"})
    case _ => None
  }

  /** _sanitize_detail. */
  function SanitizeDetail(activityType: string, detail: Value): Value {
    SanitizeWith(Allowlist(activityType), detail)
  }

  /** The names begin with other letters than any allowed one. */
  lemma NotAllowed(activityType: string, name: string)
    requires |name| >= 2 && [name[0], name[1]] in {"pa", "to", "ur", "he", "au"}
    ensures !IsAllowed(Allowlist(activityType), name)
  {
    match activityType
    case "config-web" | "config-phone" =>
    case "voice-create" | "voice-update" | "voice-delete" =>
    case _ =>
  }

  /** Whatever the type, the value of a field with one of these names is never stored. */
  lemma CredentialsAreNeverStored(activityType: string, f: map<string, Value>, name: string)
    requires name in {"password", "password_hash", "token", "url", "headers", "auth"} && name in f
    ensures name in SanitizeDetail(activityType, Object(f)).fields
    ensures SanitizeDetail(activityType, Object(f)).fields[name] == MASK
  {
    NotAllowed(activityType, name);
    OnlyTheName(Allowlist(activityType), f, name);
  }

  lemma OnlyTheName(allow: Option<set<string>>, f: map<string, Value>, name: string)
    requires name in f && !IsAllowed(allow, name)
    ensures SanitizeWith(allow, Object(f)).fields.Keys == f.Keys
    ensures SanitizeWith(allow, Object(f)).fields[name] == MASK
  {
    StoredIsScrubbed(allow, f);
  }

  lemma NoObjectIsStoredAsMasks(allow: Option<set<string>>, detail: Value, path: seq<Place>)
    requires !detail.Object? && path != []
    ensures At(SanitizeWith(allow, detail), path) == None || At(SanitizeWith(allow, detail), path) == Some(MASK)
  {
    if path[0].Field? && path[0].name == "detail" && !IsFalsy(detail) {
      assert At(SanitizeWith(allow, detail), path) == At(MASK, path[1..]);
    }
  }

  /** Whatever the allowlist and the detail, no value under a secret name is stored at any depth. */
  lemma StoredSecretsAreMasked(allow: Option<set<string>>, detail: Value, path: seq<Place>)
    requires path != [] && IsSecretPlace(path[|path| - 1])
    ensures At(SanitizeWith(allow, detail), path).Some? ==> At(SanitizeWith(allow, detail), path).value == MASK
  {
    if detail.Object? {
      StoredIsScrubbed(allow, detail.fields);
      SecretsAreMasked(Object(DenyByDefault(allow, detail.fields)), path);
    } else {
      NoObjectIsStoredAsMasks(allow, detail, path);
    }
  }
}
