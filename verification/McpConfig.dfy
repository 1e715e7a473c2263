/**
 The registry of MCP servers (mcp_config.py, validate_auth, mask_headers, validate_server and
 McpConfig).  Whether a URL is http or https with a host is a parameter.
 */
module McpRegistry {
  import opened Json
  import opened Wrappers

  const HEADER_MASK := "***"

  // --- strip and the id pattern ------------------------------------------------------------

  predicate IsSpace(c: char) {
    || '\U{9}' <= c <= '\U{D}' || '\U{1C}' <= c <= '\U{20}' || c == '\U{85}' || c == '\U{A0}' || c == '\U{1680}'
    || '\U{2000}' <= c <= '\U{200A}' || c == '\U{2028}' || c == '\U{2029}' || c == '\U{202F}' || c == '\U{205F}'
    || c == '\U{3000}'
  }

  function StripLeft(s: string): string {
    if s != "" && IsSpace(s[0]) then StripLeft(s[1..]) else s
  }

  function StripRight(s: string): string {
    if s != "" && IsSpace(s[|s| - 1]) then StripRight(s[..|s| - 1]) else s
  }

  function Strip(s: string): string {
    StripRight(StripLeft(s))
  }

  /** No space at either end. */
  predicate IsStripped(s: string) {
    s != "" ==> !IsSpace(s[0]) && !IsSpace(s[|s| - 1])
  }

  lemma {:induction false} StripLeftEnds(s: string)
    ensures StripLeft(s) != "" ==> !IsSpace(StripLeft(s)[0])
  {
    if s != "" && IsSpace(s[0]) { StripLeftEnds(s[1..]); }
  }

  lemma {:induction false} StripRightEnds(s: string)
    ensures StripRight(s) <= s
    ensures StripRight(s) != "" ==> !IsSpace(StripRight(s)[|StripRight(s)| - 1])
  {
    if s != "" && IsSpace(s[|s| - 1]) { StripRightEnds(s[..|s| - 1]); }
  }

  lemma StripStrips(s: string)
    ensures IsStripped(Strip(s))
    ensures IsStripped(s) <==> Strip(s) == s
  {
    StripLeftEnds(s);
    StripRightEnds(StripLeft(s));
  }

  predicate AllSpaces(s: string) {
    forall i | 0 <= i < |s| :: IsSpace(s[i])
  }

  lemma {:induction false} StripLeftDropsSpaces(s: string) returns (spaces: string)
    ensures s == spaces + StripLeft(s) && AllSpaces(spaces)
  {
    spaces := "";
    if s != "" && IsSpace(s[0]) {
      var more := StripLeftDropsSpaces(s[1..]);
      spaces := [s[0]] + more;
    }
  }

  lemma {:induction false} StripRightDropsSpaces(s: string) returns (spaces: string)
    ensures s == StripRight(s) + spaces && AllSpaces(spaces)
  {
    spaces := "";
    if s != "" && IsSpace(s[|s| - 1]) {
      var more := StripRightDropsSpaces(s[..|s| - 1]);
      spaces := more + [s[|s| - 1]];
      assert s == s[..|s| - 1] + [s[|s| - 1]];
    }
  }

  /** Only spaces are stripped, and only at the ends. */
  lemma StripDropsSpaces(s: string) returns (before: string, after: string)
    ensures s == before + Strip(s) + after && AllSpaces(before) && AllSpaces(after)
    ensures IsStripped(Strip(s))
  {
    before := StripLeftDropsSpaces(s);
    after := StripRightDropsSpaces(StripLeft(s));
    StripStrips(s);
  }

  predicate IsSlugChar(c: char) {
    'a' <= c <= 'z' || '0' <= c <= '9'
  }

  predicate IsSlug(s: string) {
    2 <= |s| <= 63 && IsSlugChar(s[0]) && forall i | 1 <= i < |s| :: IsSlugChar(s[i]) || s[i] == '-'
  }

  /** SERVER_ID_RE.match: the dollar sign also matches in front of a newline at the end. */
  predicate MatchesId(s: string) {
    IsSlug(s) || (s != "" && s[|s| - 1] == '\n' && IsSlug(s[..|s| - 1]))
  }

  // --- servers ---------------------------------------------------------------------------------

  datatype Auth = NoAuth | HeaderAuth | SigV4(service: string, region: string)

  datatype Server = Server(id: string, displayLabel: string, transport: string, url: string,
                           headers: map<string, string>, enabled: bool, auth: Auth)

  datatype Problem =
    | NotAnObject | BadId | StdioTransport | BadTransport | MissingUrl | BadUrl | BadLabel
    | BadHeaders | BadEnabled | BadAuth | WriteFailed

  /** dict.get. */
  function Get(fields: map<string, Value>, name: string): Value {
    if name in fields then fields[name] else Null
  }

  function ValidateAuth(auth: Value): Result<Auth, Problem> {
    match auth
    case Null => Success(NoAuth)
    case Object(fields) =>
      var kind := if "type" in fields then fields["type"] else Text("none");
      if kind == Text("none") then Success(NoAuth)
      else if kind == Text("header") then Success(HeaderAuth)
      else if kind == Text("sigv4") then
        var service := if Get(fields, "service").Null? then Text("bedrock-agentcore") else Get(fields, "service");
        var region := if Get(fields, "region").Null? then Text("us-east-1") else Get(fields, "region");
        if service.Text? && service.s != "" && region.Text? && region.s != "" then Success(SigV4(service.s, region.s))
        else Failure(BadAuth)
      else Failure(BadAuth)
    case _ => Failure(BadAuth)
  }

  predicate ValidHeaders(headers: Value) {
    || headers.Null?
    || (headers.Object? && forall k <- headers.fields :: k != "" && headers.fields[k].Text?)
  }

  function HeadersOf(headers: Value): map<string, string>
    requires ValidHeaders(headers)
  {
    if headers.Null? then map[] else map k <- headers.fields :: headers.fields[k].s
  }

  function LabelOf(lbl: Value, id: string): string
    requires lbl.Null? || lbl.Text?
  {
    var stripped := if lbl.Null? then "" else Strip(lbl.s);
    if stripped == "" then id else stripped
  }

  function ValidateServer(isHttpUrl: string -> bool, server: Value): Result<Server, Problem> {
    if !server.Object? then Failure(NotAnObject)
    else
      var f := server.fields;
      var id, transport, url, lbl := Get(f, "id"), Get(f, "transport"), Get(f, "url"), Get(f, "label");
      var enabled := if "enabled" in f then f["enabled"] else Bool(true);
      var auth := ValidateAuth(Get(f, "auth"));
      if !id.Text? || !MatchesId(id.s) then Failure(BadId)
      else if transport == Text("stdio") then Failure(StdioTransport)
      else if transport != Text("sse") && transport != Text("streamable_http") then Failure(BadTransport)
      else if !url.Text? || url.s == "" then Failure(MissingUrl)
      else if !isHttpUrl(url.s) then Failure(BadUrl)
      else if !lbl.Null? && !lbl.Text? then Failure(BadLabel)
      else if !ValidHeaders(Get(f, "headers")) then Failure(BadHeaders)
      else if !enabled.Bool? then Failure(BadEnabled)
      else if auth.Failure? then Failure(auth.error)
      else Success(Server(id.s, LabelOf(lbl, id.s), transport.s, url.s, HeadersOf(Get(f, "headers")), enabled.b,
                          auth.value))
  }

  // --- the shape in which servers go out and come back -----------------------------------------

  function AuthToValue(auth: Auth): Value {
    match auth
    case NoAuth => Object(map["type" := Text("none")])
    case HeaderAuth => Object(map["type" := Text("header")])
    case SigV4(service, region) =>
      Object(map["type" := Text("sigv4"), "service" := Text(service), "region" := Text(region)])
  }

  function ToValue(s: Server): Value {
    Object(map["id" := Text(s.id), "label" := Text(s.displayLabel), "transport" := Text(s.transport), "url" := Text(s.url),
               "headers" := Object(map k <- s.headers :: Text(s.headers[k])), "enabled" := Bool(s.enabled),
               "auth" := AuthToValue(s.auth)])
  }

  function MaskHeaders(s: Server): Server {
    s.(headers := map k <- s.headers :: HEADER_MASK)
  }

  // --- validation gives a canonical server -------------------------------------------------------

  predicate IsCanonicalAuth(auth: Auth) {
    auth.SigV4? ==> auth.service != "" && auth.region != ""
  }

  predicate IsCanonical(isHttpUrl: string -> bool, s: Server) {
    && MatchesId(s.id)
    && s.transport in {"sse", "streamable_http"}
    && s.url != "" && isHttpUrl(s.url)
    && s.displayLabel != "" && (IsStripped(s.displayLabel) || s.displayLabel == s.id)
    && "" !in s.headers
    && IsCanonicalAuth(s.auth)
  }

  lemma ValidationMakesCanonical(isHttpUrl: string -> bool, v: Value)
    ensures ValidateServer(isHttpUrl, v).Success? ==> IsCanonical(isHttpUrl, ValidateServer(isHttpUrl, v).value)
  {
    if ValidateServer(isHttpUrl, v).Success? {
      var lbl := Get(v.fields, "label");
      if lbl.Text? { StripStrips(lbl.s); }
    }
  }

  lemma AuthRoundTrip(auth: Auth)
    requires IsCanonicalAuth(auth)
    ensures ValidateAuth(AuthToValue(auth)) == Success(auth)
  {
  }

  lemma StrippedIdIsNotEmpty(id: string)
    requires MatchesId(id)
    ensures Strip(id) != ""
  {
    assert StripLeft(id) == id;
    if id != "" && IsSpace(id[|id| - 1]) {
      assert IsSlug(id[..|id| - 1]);
      assert StripRight(id[..|id| - 1]) == id[..|id| - 1];
    }
  }

  /** Validating a canonical server again only strips its label. */
  lemma ValidateAgain(isHttpUrl: string -> bool, s: Server)
    requires IsCanonical(isHttpUrl, s)
    ensures ValidateServer(isHttpUrl, ToValue(s)) == Success(s.(displayLabel := Strip(s.displayLabel)))
  {
    AuthRoundTrip(s.auth);
    StripStrips(s.displayLabel);
    StrippedIdIsNotEmpty(s.id);
    HeadersRoundTrip(s);
  }

  lemma HeadersRoundTrip(s: Server)
    requires "" !in s.headers
    ensures ValidHeaders(Get(ToValue(s).fields, "headers"))
    ensures HeadersOf(Get(ToValue(s).fields, "headers")) == s.headers
  {
  }

  /** The label that validation chose is its own strip unless the id, newline and all, stands
      in for it. */
  lemma ChosenLabel(lbl: Value, id: string)
    requires (lbl.Null? || lbl.Text?) && MatchesId(id)
    ensures Strip(LabelOf(lbl, id)) == LabelOf(lbl, id) <==>
            (lbl.Text? && Strip(lbl.s) != "") || id[|id| - 1] != '\n'
  {
    if lbl.Text? { StripStrips(lbl.s); }
    StripStrips(LabelOf(lbl, id));
    StripStrips(id);
  }

  lemma ChosenFields(isHttpUrl: string -> bool, v: Value)
    requires ValidateServer(isHttpUrl, v).Success?
    ensures var s, lbl, id := ValidateServer(isHttpUrl, v).value, Get(v.fields, "label"), Get(v.fields, "id");
            && (lbl.Null? || lbl.Text?) && id.Text? && MatchesId(id.s)
            && s.id == id.s && s.displayLabel == LabelOf(lbl, id.s)
  {
  }

  lemma AgainExactlyWhen(isHttpUrl: string -> bool, v: Value, s: Server)
    requires ValidateServer(isHttpUrl, v) == Success(s)
    ensures ValidateServer(isHttpUrl, ToValue(s)) == Success(s) <==> Strip(s.displayLabel) == s.displayLabel
  {
    ValidationMakesCanonical(isHttpUrl, v);
    ValidateAgain(isHttpUrl, s);
  }

  /** Validation is idempotent except for a label that fell back to an id with a newline. */
  lemma IdempotentExactlyWhen(isHttpUrl: string -> bool, v: Value)
    requires ValidateServer(isHttpUrl, v).Success?
    ensures var lbl, id := Get(v.fields, "label"), Get(v.fields, "id").s;
            ValidateServer(isHttpUrl, ToValue(ValidateServer(isHttpUrl, v).value)) == ValidateServer(isHttpUrl, v)
            <==> (lbl.Text? && Strip(lbl.s) != "") || id[|id| - 1] != '\n'
  {
    var s := ValidateServer(isHttpUrl, v).value;
    AgainExactlyWhen(isHttpUrl, v, s);
    ChosenFields(isHttpUrl, v);
    ChosenLabel(Get(v.fields, "label"), s.id);
  }

  // --- the registry as a list ----------------------------------------------------------------------

  /** The place of the first server with this id; |servers| when there is none. */
  function IndexOf(servers: seq<Server>, id: string): (i: nat)
    ensures i <= |servers|
    ensures i < |servers| ==> servers[i].id == id
    ensures forall j | 0 <= j < i :: servers[j].id != id
  {
    if servers == [] || servers[0].id == id then 0 else 1 + IndexOf(servers[1..], id)
  }

  function GetServer(servers: seq<Server>, id: string): Option<Server> {
    var i := IndexOf(servers, id);
    if i < |servers| then Some(servers[i]) else None
  }

  /** A new value stays, a mask stands for the stored value, and is dropped if there is none. */
  function Resolve(headers: map<string, string>, stored: map<string, string>): map<string, string> {
    map k | k in headers && (headers[k] != HEADER_MASK || k in stored) ::
      if headers[k] == HEADER_MASK then stored[k] else headers[k]
  }

  function StoredHeaders(servers: seq<Server>, id: string): map<string, string> {
    var existing := GetServer(servers, id);
    if existing.Some? then existing.value.headers else map[]
  }

  function Resolved(servers: seq<Server>, n: Server): Server {
    n.(headers := Resolve(n.headers, StoredHeaders(servers, n.id)))
  }

  function Put(servers: seq<Server>, n: Server): seq<Server> {
    var i := IndexOf(servers, n.id);
    if i < |servers| then servers[i := n] else servers + [n]
  }

  function Without(servers: seq<Server>, id: string): seq<Server> {
    if servers == [] then []
    else if servers[0].id == id then Without(servers[1..], id)
    else [servers[0]] + Without(servers[1..], id)
  }

  predicate UniqueIds(servers: seq<Server>) {
    forall i, j | 0 <= i < j < |servers| :: servers[i].id != servers[j].id
  }

  predicate IsStored(isHttpUrl: string -> bool, s: Server) {
    IsCanonical(isHttpUrl, s) && HEADER_MASK !in s.headers.Values
  }

  predicate IsRegistry(isHttpUrl: string -> bool, servers: seq<Server>) {
    UniqueIds(servers) && forall s <- servers :: IsStored(isHttpUrl, s)
  }

  lemma ResolvedIsStored(isHttpUrl: string -> bool, servers: seq<Server>, n: Server)
    requires IsRegistry(isHttpUrl, servers) && IsCanonical(isHttpUrl, n)
    ensures IsStored(isHttpUrl, Resolved(servers, n))
  {
    var existing := GetServer(servers, n.id);
    assert existing.Some? ==> IsStored(isHttpUrl, existing.value);
  }

  lemma PutKeepsRegistry(isHttpUrl: string -> bool, servers: seq<Server>, r: Server)
    requires IsRegistry(isHttpUrl, servers) && IsStored(isHttpUrl, r)
    ensures IsRegistry(isHttpUrl, Put(servers, r))
  {
  }

  /** A put is seen under its id and leaves every other id alone. */
  lemma GetAfterPut(servers: seq<Server>, n: Server, id: string)
    ensures GetServer(Put(servers, n), id) == if id == n.id then Some(n) else GetServer(servers, id)
  {
    var i := IndexOf(servers, n.id);
    FirstIs(Put(servers, n), n.id, i);
    if id != n.id {
      var j := IndexOf(servers, id);
      if j < |servers| { FirstIs(Put(servers, n), id, j); }
    }
  }

  lemma FirstIs(servers: seq<Server>, id: string, i: nat)
    requires i < |servers| && servers[i].id == id && forall j | 0 <= j < i :: servers[j].id != id
    ensures IndexOf(servers, id) == i
  {
  }

  lemma {:induction false} GetAfterWithout(servers: seq<Server>, deleted: string, id: string)
    ensures GetServer(Without(servers, deleted), id) == if id == deleted then None else GetServer(servers, id)
  {
    if servers != [] { GetAfterWithout(servers[1..], deleted, id); }
  }

  lemma {:induction false} WithoutHolds(servers: seq<Server>, id: string)
    ensures forall s <- Without(servers, id) :: s in servers && s.id != id
    ensures UniqueIds(servers) ==> UniqueIds(Without(servers, id))
  {
    if servers != [] {
      var rest := Without(servers[1..], id);
      WithoutHolds(servers[1..], id);
      assert UniqueIds(servers) ==> UniqueIds(servers[1..]);
      assert UniqueIds(servers) ==> forall s <- rest :: s.id != servers[0].id;
    }
  }

  lemma WithoutKeepsRegistry(isHttpUrl: string -> bool, servers: seq<Server>, id: string)
    requires IsRegistry(isHttpUrl, servers)
    ensures IsRegistry(isHttpUrl, Without(servers, id))
  {
    WithoutHolds(servers, id);
  }

  /** Deleting what an upsert added gives the old list back. */
  lemma {:induction false} DeleteUndoesInsert(servers: seq<Server>, n: Server)
    requires GetServer(servers, n.id) == None
    ensures Without(Put(servers, n), n.id) == servers
  {
    if servers != [] {
      assert GetServer(servers[1..], n.id) == None;
      DeleteUndoesInsert(servers[1..], n);
      assert Put(servers, n)[1..] == Put(servers[1..], n);
    }
  }

  // --- masked copies -------------------------------------------------------------------------------

  /** A masked copy tells everything about a server but the values of its headers: two servers
      have the same one exactly if they agree in all else. */
  lemma MaskedCopiesAgreeExactlyWhen(s: Server, t: Server)
    ensures MaskHeaders(s) == MaskHeaders(t) <==> t.(headers := s.headers) == s && t.headers.Keys == s.headers.Keys
  {
    var a, b := MaskHeaders(s), MaskHeaders(t);
    assert a.headers.Keys == s.headers.Keys && b.headers.Keys == t.headers.Keys;
    assert t.headers.Keys == s.headers.Keys ==> a.headers == b.headers;
    assert a == s.(headers := a.headers) && b == t.(headers := b.headers);
  }

  /** On the wire every header of a masked copy reads ***, and all else is that of the server. */
  lemma MaskedOnTheWire(s: Server)
    ensures var out, plain := ToValue(MaskHeaders(s)).fields, ToValue(s).fields;
            && out.Keys == plain.Keys
            && (forall name | name in plain && name != "headers" :: out[name] == plain[name])
            && out["headers"].Object? && out["headers"].fields.Keys == s.headers.Keys
            && forall k | k in s.headers :: out["headers"].fields[k] == Text("***")
  {
  }

  /** Header by header: a new value is taken, a mask keeps the stored value and creates nothing. */
  lemma HeaderAfterUpsert(isHttpUrl: string -> bool, s: State, v: Value, k: string)
    requires ValidateServer(isHttpUrl, v).Success?
    ensures var sent := ValidateServer(isHttpUrl, v).value;
            var before := GetServer(Loaded(s), sent.id);
            var after := GetServer(Loaded(Step(isHttpUrl, s, Upsert(v, true))), sent.id);
            && after.Some? && after.value == sent.(headers := after.value.headers)
            && HeaderRule(sent.headers, if before.Some? then before.value.headers else map[], after.value.headers, k)
  {
    var sent := ValidateServer(isHttpUrl, v).value;
    GetAfterPut(Loaded(s), Resolved(Loaded(s), sent), sent.id);
  }

  predicate HeaderRule(sent: map<string, string>, before: map<string, string>, after: map<string, string>, k: string) {
    if k !in sent then k !in after
    else if sent[k] != "***" then k in after && after[k] == sent[k]
    else if k in before then k in after && after[k] == before[k]
    else k !in after
  }

  function Ids(servers: seq<Server>): seq<string> {
    seq(|servers|, i requires 0 <= i < |servers| => servers[i].id)
  }

  /** A known id keeps its place in the list, a new one comes last. */
  lemma PlaceAfterPut(servers: seq<Server>, n: Server)
    ensures Ids(Put(servers, n)) == if n.id in Ids(servers) then Ids(servers) else Ids(servers) + [n.id]
  {
    var i := IndexOf(servers, n.id);
    if i < |servers| { assert Ids(servers)[i] == n.id; }
  }

  /** Sending back the masked copy of a server leaves the registry as it was exactly if its
      label has no space at the ends. */
  lemma ResendingTheMaskedServer(isHttpUrl: string -> bool, servers: seq<Server>, id: string)
    requires IsRegistry(isHttpUrl, servers) && GetServer(servers, id).Some?
    ensures var s := GetServer(servers, id).value;
            var back := ValidateServer(isHttpUrl, ToValue(MaskHeaders(s)));
            && back.Success?
            && (Put(servers, Resolved(servers, back.value)) == servers <==> IsStripped(s.displayLabel))
  {
    var s := GetServer(servers, id).value;
    assert IsStored(isHttpUrl, s);
    ValidateAgain(isHttpUrl, MaskHeaders(s));
    StripStrips(s.displayLabel);
    var n := MaskHeaders(s).(displayLabel := Strip(s.displayLabel));
    assert Resolve(n.headers, s.headers) == s.headers;
    assert Resolved(servers, n) == s.(displayLabel := Strip(s.displayLabel));
  }

  /** The labels that are not stripped are the ids that end with a newline. */
  lemma UnstrippedLabel(isHttpUrl: string -> bool, s: Server)
    requires IsCanonical(isHttpUrl, s)
    ensures !IsStripped(s.displayLabel) <==> s.displayLabel == s.id && s.id[|s.id| - 1] == '\n'
  {
  }

  /** Only the seven named fields matter. */
  lemma OtherFieldsDoNotMatter(isHttpUrl: string -> bool, f: map<string, Value>, g: map<string, Value>)
    requires forall name | name in {"id", "label", "transport", "url", "headers", "enabled", "auth"} ::
               (name in f <==> name in g) && (name in f ==> f[name] == g[name])
    ensures ValidateServer(isHttpUrl, Object(f)) == ValidateServer(isHttpUrl, Object(g))
  {
    assert forall name | name in {"id", "label", "transport", "url", "headers", "enabled", "auth"} ::
        Get(f, name) == Get(g, name);
  }

  /** No command is ever run: stdio is refused whatever else the object holds. */
  lemma StdioIsRefused(isHttpUrl: string -> bool, f: map<string, Value>)
    requires "transport" in f && f["transport"] == Text("stdio")
    ensures ValidateServer(isHttpUrl, Object(f)).Failure?
  {
  }

  /** What SigV4 signs for when the object does not say. */
  lemma SigV4Defaults(fields: map<string, Value>)
    requires "type" in fields && fields["type"] == Text("sigv4")
    ensures var service, region := Get(fields, "service"), Get(fields, "region");
            && (service.Null? && region.Null? ==>
                  ValidateAuth(Object(fields)) == Success(SigV4("bedrock-agentcore", "us-east-1")))
            && (service.Text? && service.s != "" && region.Null? ==>
                  ValidateAuth(Object(fields)) == Success(SigV4(service.s, "us-east-1")))
            && (service.Null? && region.Text? && region.s != "" ==>
                  ValidateAuth(Object(fields)) == Success(SigV4("bedrock-agentcore", region.s)))
            && (service == Text("") || region == Text("") ==> ValidateAuth(Object(fields)).Failure?)
  {
  }

  /** Such a server can be registered. */
  lemma NewlineIdIsAccepted(isHttpUrl: string -> bool, url: string)
    requires url != "" && isHttpUrl(url)
    ensures ValidateServer(isHttpUrl, Object(map["id" := Text("ab\n"), "transport" := Text("sse"), "url" := Text(url)]))
            == Success(Server("ab\n", "ab\n", "sse", url, map[], true, NoAuth))
  {
    assert "ab\n"[..2] == "ab";
  }

  // --- cache and file ---------------------------------------------------------------------------------

  datatype State = State(cache: Option<seq<Server>>, disk: seq<Server>)

  datatype Event =
    | Upsert(server: Value, writes: bool)
    | Delete(id: string, writes: bool)
    | Read
    | Reload

  function Loaded(s: State): seq<Server> {
    if s.cache.Some? then s.cache.value else s.disk
  }

  /** The changed list is in the cache before the file is written. */
  function Persist(s: State, servers: seq<Server>, writes: bool): State {
    State(Some(servers), if writes then servers else s.disk)
  }

  function Step(isHttpUrl: string -> bool, s: State, e: Event): State {
    match e
    case Upsert(v, writes) =>
      var n := ValidateServer(isHttpUrl, v);
      if n.Failure? then s else Persist(s, Put(Loaded(s), Resolved(Loaded(s), n.value)), writes)
    case Delete(id, writes) =>
      var rest := Without(Loaded(s), id);
      if |rest| == |Loaded(s)| then s.(cache := Some(rest)) else Persist(s, rest, writes)
    case Read => s.(cache := Some(Loaded(s)))
    case Reload => s.(cache := None)
  }

  /** ss[i] is the state before step tr[i]; the file does not exist yet. */
  ghost predicate IsRun(isHttpUrl: string -> bool, ss: seq<State>, tr: seq<Event>) {
    && |ss| == |tr| + 1
    && ss[0] == State(None, [])
    && forall i | 0 <= i < |tr| :: ss[i + 1] == Step(isHttpUrl, ss[i], tr[i])
  }

  /** In every state that is reached, whether or not writes failed on the way, ids are unique,
      servers are canonical and no stored header is the mask, in the cache and in the file. */
  lemma {:induction false} ReachedRegistries(isHttpUrl: string -> bool, ss: seq<State>, tr: seq<Event>, i: nat)
    requires IsRun(isHttpUrl, ss, tr) && i <= |tr|
    ensures IsRegistry(isHttpUrl, ss[i].disk)
    ensures IsRegistry(isHttpUrl, Loaded(ss[i]))
  {
    if i > 0 {
      ReachedRegistries(isHttpUrl, ss, tr, i - 1);
      var servers := Loaded(ss[i - 1]);
      match tr[i - 1]
      case Upsert(v, _) =>
        var n := ValidateServer(isHttpUrl, v);
        if n.Success? {
          ValidationMakesCanonical(isHttpUrl, v);
          ResolvedIsStored(isHttpUrl, servers, n.value);
          PutKeepsRegistry(isHttpUrl, servers, Resolved(servers, n.value));
        }
      case Delete(id, _) => WithoutKeepsRegistry(isHttpUrl, servers, id);
      case _ =>
    }
  }

  predicate FailsToWrite(e: Event) {
    (e.Upsert? || e.Delete?) && !e.writes
  }

  /** As long as no write fails, the cache is what the file holds. */
  lemma {:induction false} CacheIsTheFile(isHttpUrl: string -> bool, ss: seq<State>, tr: seq<Event>, i: nat, j: nat)
    requires IsRun(isHttpUrl, ss, tr) && i <= j <= |tr| && Loaded(ss[i]) == ss[i].disk
    requires forall k | i <= k < j :: !FailsToWrite(tr[k])
    ensures Loaded(ss[j]) == ss[j].disk
    decreases j
  {
    if i < j {
      CacheIsTheFile(isHttpUrl, ss, tr, i, j - 1);
      StepKeepsThemEqual(isHttpUrl, ss[j - 1], tr[j - 1]);
    }
  }

  lemma StepKeepsThemEqual(isHttpUrl: string -> bool, s: State, e: Event)
    requires Loaded(s) == s.disk && !FailsToWrite(e)
    ensures Loaded(Step(isHttpUrl, s, e)) == Step(isHttpUrl, s, e).disk
  {
    EqualExactlyWhen(isHttpUrl, s, e);
  }

  /** The step leaves the list of servers as it is: it only reads, validation fails, the server is
      stored already, or there is none to delete. */
  predicate ChangesNothing(isHttpUrl: string -> bool, s: State, e: Event) {
    match e
    case Upsert(v, _) =>
      var n := ValidateServer(isHttpUrl, v);
      n.Success? ==> GetServer(Loaded(s), n.value.id) == Some(Resolved(Loaded(s), n.value))
    case Delete(id, _) => GetServer(Loaded(s), id) == None
    case _ => true
  }

  lemma PutChangesNothing(servers: seq<Server>, r: Server)
    ensures Put(servers, r) == servers <==> GetServer(servers, r.id) == Some(r)
  {
    GetAfterPut(servers, r, r.id);
  }

  /** Cache and file part exactly when a write fails that would have changed something. */
  lemma EqualExactlyWhen(isHttpUrl: string -> bool, s: State, e: Event)
    requires Loaded(s) == s.disk
    ensures Loaded(Step(isHttpUrl, s, e)) == Step(isHttpUrl, s, e).disk <==>
            !FailsToWrite(e) || ChangesNothing(isHttpUrl, s, e)
  {
    match e
    case Upsert(v, _) =>
      var n := ValidateServer(isHttpUrl, v);
      if n.Success? { PutChangesNothing(Loaded(s), Resolved(Loaded(s), n.value)); }
    case Delete(id, _) => NothingToDelete(Loaded(s), id);
    case _ =>
  }

  lemma {:induction false} NothingToDelete(servers: seq<Server>, id: string)
    ensures |Without(servers, id)| <= |servers|
    ensures |Without(servers, id)| == |servers| ==> Without(servers, id) == servers
    ensures |Without(servers, id)| == |servers| <==> GetServer(servers, id) == None
  {
    if servers != [] { NothingToDelete(servers[1..], id); }
  }

  /** An upsert that raises because the file cannot be written is served all the same until
      the cache is dropped; then the file's version is back. */
  lemma FailedUpsertIsServedUntilReload(isHttpUrl: string -> bool, s: State, v: Value)
    requires ValidateServer(isHttpUrl, v).Success?
    ensures var t := Step(isHttpUrl, s, Upsert(v, false));
            var n := Resolved(Loaded(s), ValidateServer(isHttpUrl, v).value);
            && GetServer(Loaded(t), n.id) == Some(n)
            && Loaded(Step(isHttpUrl, t, Reload)) == s.disk
  {
    var n := Resolved(Loaded(s), ValidateServer(isHttpUrl, v).value);
    GetAfterPut(Loaded(s), n, n.id);
  }

  /** Likewise a delete that raises: the server is gone until the cache is dropped. */
  lemma FailedDeleteIsGoneUntilReload(isHttpUrl: string -> bool, s: State, id: string)
    ensures var t := Step(isHttpUrl, s, Delete(id, false));
            GetServer(Loaded(t), id) == None && Loaded(Step(isHttpUrl, t, Reload)) == s.disk
  {
    GetAfterWithout(Loaded(s), id, id);
  }

  // --- the object ---------------------------------------------------------------------------------------

  class McpConfig {
    const isHttpUrl: string -> bool
    var cache: Option<seq<Server>>
    var disk: seq<Server>

    function View(): State
      reads this
    {
      State(cache, disk)
    }

    constructor (isHttpUrl: string -> bool)
      ensures View() == State(None, []) && this.isHttpUrl == isHttpUrl
    {
      this.isHttpUrl := isHttpUrl;
      cache, disk := None, [];
    }

    method EnsureLoaded() returns (servers: seq<Server>)
      modifies this
      ensures servers == Loaded(old(View())) && View() == Step(isHttpUrl, old(View()), Read)
    {
      if cache.None? {
        cache := Some(disk);
      }
      return cache.value;
    }

    method Get(id: string) returns (server: Option<Server>)
      modifies this
      ensures server == GetServer(Loaded(old(View())), id)
      ensures View() == Step(isHttpUrl, old(View()), Read)
    {
      var servers := EnsureLoaded();
      for i := 0 to |servers|
        invariant forall j | 0 <= j < i :: servers[j].id != id
      {
        if servers[i].id == id {
          FirstIs(servers, id, i);
          return Some(servers[i]);
        }
      }
      return None;
    }

    method ResolveHeaders(headers: map<string, string>, stored: map<string, string>)
      returns (resolved: map<string, string>)
      ensures resolved == Resolve(headers, stored)
    {
      resolved := map[];
      var keys := headers.Keys;
      while keys != {}
        invariant keys <= headers.Keys
        invariant resolved == map k | k in Resolve(headers, stored) && k !in keys :: Resolve(headers, stored)[k]
        decreases |keys|
      {
        var k :| k in keys;
        keys := keys - {k};
        if headers[k] == HEADER_MASK {
          if k in stored {
            resolved := resolved[k := stored[k]];
          }
        } else {
          resolved := resolved[k := headers[k]];
        }
      }
    }

    method Upsert(server: Value, writes: bool) returns (result: Result<Server, Problem>)
      modifies this
      ensures View() == Step(isHttpUrl, old(View()), Event.Upsert(server, writes))
      ensures var n := ValidateServer(isHttpUrl, server);
              result == if n.Failure? then Failure(n.error)
                        else if !writes then Failure(WriteFailed)
                        else Success(Resolved(Loaded(old(View())), n.value))
    {
      var valid := ValidateServer(isHttpUrl, server);
      if valid.Failure? {
        return Failure(valid.error);
      }
      var normalized := valid.value;
      var servers := EnsureLoaded();
      var i := IndexOf(servers, normalized.id);
      if normalized.headers != map[] {
        var headers := ResolveHeaders(normalized.headers, if i < |servers| then servers[i].headers else map[]);
        normalized := normalized.(headers := headers);
      }
      if i < |servers| {
        cache := Some(servers[i := normalized]);
      } else {
        cache := Some(servers + [normalized]);
      }
      if !writes {
        return Failure(WriteFailed);
      }
      disk := cache.value;
      return Success(normalized);
    }

    method Delete(id: string, writes: bool) returns (result: Result<bool, Problem>)
      modifies this
      ensures View() == Step(isHttpUrl, old(View()), Event.Delete(id, writes))
      ensures result == if GetServer(Loaded(old(View())), id) == None then Success(false)
                        else if writes then Success(true) else Failure(WriteFailed)
    {
      var servers := EnsureLoaded();
      NothingToDelete(servers, id);
      cache := Some(Without(servers, id));
      if |cache.value| == |servers| {
        return Success(false);
      }
      if !writes {
        return Failure(WriteFailed);
      }
      disk := cache.value;
      return Success(true);
    }

    method Reload()
      modifies this
      ensures View() == Step(isHttpUrl, old(View()), Event.Reload)
    {
      cache := None;
    }
  }
}
