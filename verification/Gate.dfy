/** Policy and credentials: the capability gate (src/realtime/capability.rs), the upstream credential
    (src/realtime/headers.rs), and the order the WebSocket handler asks them in
    (src/realtime/websocket.rs). */
module Gate {
  import opened Common
  import opened Text
  import opened Contract
  import opened Bearer
  import CallId
  import Mime
  import Query
  import Subprotocol
  import Urls
  import MediaLanguage
  import RequestLanguage
  import Utf8

  // ----- Profiles -----

  datatype Profile =
    | ChatGptBackend(baseUrl: string, auth: string, accountId: Option<string>)
    | ApiKeyManaged(baseUrl: string, auth: string)
    | ApiKeyClient(baseUrl: string)

  datatype Kind = ManagedKind | ClientKind | ChatGptKind

  function KindOf(profile: Profile): Kind {
    match profile
    case ChatGptBackend(_, _, _) => ChatGptKind
    case ApiKeyManaged(_, _) => ManagedKind
    case ApiKeyClient(_) => ClientKind
  }

  function ManagedAuth(profile: Profile): Option<string> {
    match profile
    case ChatGptBackend(_, auth, _) => Some(auth)
    case ApiKeyManaged(_, auth) => Some(auth)
    case ApiKeyClient(_) => None
  }

  function ModeOf(profile: Profile): CredentialMode {
    match profile
    case ChatGptBackend(_, _, _) => ManagedMode
    case ApiKeyManaged(_, _) => ManagedMode
    case ApiKeyClient(_) => ClientMode
  }

  // ----- Capabilities -----

  datatype OfficialRest =
    | CreateCall
    | AcceptCall
    | RejectCall
    | ReferCall
    | HangupCall
    | CreateClientSecret
    | CreateLegacySession
    | CreateTranscriptionSession
    | CreateTranslationClientSecret
    | CreateTranslationCall

  datatype OfficialSocket = StandaloneSocket | ExistingCallSocket | TranslationSocket

  datatype Capability =
    | OverRest(rest: OfficialRest)
    | OverSocket(socket: OfficialSocket)
    | PrivateCallCreate(dialect: Dialect)
    | PrivateStandalone(dialect: Dialect)
    | PrivateExistingCall(dialect: Dialect)
    | PrivateSidebandAlias(dialect: Dialect)

  function FromRest(c: ClassifiedRest): Capability {
    if c.selection.dialect != OfficialGa then PrivateCallCreate(c.selection.dialect)
    else
      OverRest(match c.operation
        case CreateCall => CreateCall
        case AcceptCall(_) => AcceptCall
        case RejectCall(_) => RejectCall
        case ReferCall(_) => ReferCall
        case HangupCall(_) => HangupCall
        case CreateClientSecret => CreateClientSecret
        case CreateLegacySession => CreateLegacySession
        case CreateTranscriptionSession => CreateTranscriptionSession
        case CreateTranslationClientSecret => CreateTranslationClientSecret
        case CreateTranslationCall => CreateTranslationCall)
  }

  /** The source takes a private translation for unreachable; the requires is what makes it so. */
  function FromWebSocket(c: ClassifiedWebSocket): Capability
    requires c.target.TranslationOf? ==> c.selection.dialect == OfficialGa
  {
    match c.target
    case Standalone(_) =>
      if c.selection.dialect == OfficialGa then OverSocket(StandaloneSocket) else PrivateStandalone(c.selection.dialect)
    case ExistingCall(_) =>
      if c.selection.dialect == OfficialGa then OverSocket(ExistingCallSocket)
      else PrivateExistingCall(c.selection.dialect)
    case TranslationOf(_) => OverSocket(TranslationSocket)
  }

  datatype Support = Native | Adapted | Unsupported(required: seq<Kind>)

  const API_KEY_PROFILES := [ManagedKind, ClientKind]
  const MANAGED_PROFILES := [ManagedKind, ChatGptKind]
  const API_KEY_MANAGED_PROFILE := [ManagedKind]

  function SupportFor(kind: Kind, capability: Capability): Support {
    if capability.OverRest? || capability.OverSocket? then
      (if kind == ChatGptKind then Unsupported(API_KEY_PROFILES) else Native)
    else match kind
      case ManagedKind => Adapted
      case ClientKind =>
        Unsupported(if capability.PrivateStandalone? then API_KEY_MANAGED_PROFILE else MANAGED_PROFILES)
      case ChatGptKind => if capability.PrivateStandalone? then Unsupported(API_KEY_MANAGED_PROFILE) else Adapted
  }

  /** The profiles a refusal names are exactly those that support the capability. */
  lemma RefusalNamesTheSupporting(kind: Kind, other: Kind, capability: Capability)
    requires SupportFor(kind, capability).Unsupported?
    ensures other in SupportFor(kind, capability).required <==> !SupportFor(other, capability).Unsupported?
  {
    assert API_KEY_PROFILES[0] == ManagedKind && API_KEY_PROFILES[1] == ClientKind;
    assert MANAGED_PROFILES[0] == ManagedKind && MANAGED_PROFILES[1] == ChatGptKind;
    assert API_KEY_MANAGED_PROFILE[0] == ManagedKind;
  }

  // ----- The upstream credential -----

  datatype Refusal =
    | UnknownEndpoint
    | InvalidQuery
    | Contractual(error: Contract.Error)
    | UnsupportedBy(required: seq<Kind>)
    | Negotiation(subprotocol: Subprotocol.Error)
    | InvalidHeader
    | AmbiguousAuthorization
    | NoCredential

  type Headers = seq<(string, string)>

  /** `HeaderMap::get`: the first value. */
  function Get(headers: Headers, name: string): Option<string> {
    var values := Subprotocol.ValuesOf(headers, name);
    if values == [] then None else Some(values[0])
  }

  function Count(headers: Headers, name: string): nat { |Subprotocol.ValuesOf(headers, name)| }

  /** `HeaderValue::from_str`. */
  predicate HeaderSafe(value: string) {
    forall i :: 0 <= i < |value| ==> (value[i] as int >= 32 && value[i] as int != 127) || value[i] == '\t'
  }

  function Authorization(client: Headers, profile: Profile, policy: CredentialPolicy): Result<string, Refusal> {
    match policy
    case Managed =>
      (match ManagedAuth(profile)
       case None => Err(NoCredential)
       case Some(token) => if HeaderSafe("Bearer " + token) then Ok("Bearer " + token) else Err(NoCredential))
    case _ =>
      match Get(client, "authorization")
      case None => Err(NoCredential)
      case Some(value) => if ValidBearer(value) then Ok(value) else Err(NoCredential)
  }

  /** Every managed selection the gate lets through runs under a profile that holds a token, and every
      selection that asks the client for one runs under a key profile; a WebSocket never asks for an
      ephemeral one. */
  lemma ManagedHasToken(f: Facts, profile: Profile)
    requires f.mode == ModeOf(profile) && ClassifyWebSocket(f).Ok?
    requires !SupportFor(KindOf(profile), FromWebSocket(ClassifyWebSocket(f).value)).Unsupported?
    ensures var c := ClassifyWebSocket(f).value;
            && (c.selection.credential == Managed <==> ManagedAuth(profile).Some?)
            && (c.selection.credential == ClientBearer <==> profile.ApiKeyClient?)
  {
    WebSocketCoherent(f);
    hide ClassifyWebSocket;
  }

  lemma ManagedRestHasToken(f: Facts, profile: Profile)
    requires f.mode == ModeOf(profile) && ClassifyRest(f).Ok?
    requires !SupportFor(KindOf(profile), FromRest(ClassifyRest(f).value)).Unsupported?
    ensures var c := ClassifyRest(f).value;
            && (c.selection.credential == Managed ==> ManagedAuth(profile).Some?)
            && (c.selection.credential == ClientBearer ==> profile.ApiKeyClient?)
            && (c.selection.credential == Ephemeral ==> c.selection.dialect == OfficialGa && !profile.ChatGptBackend?)
  {
    RestCoherent(f);
    hide ClassifyRest, Media;
  }

  // ----- The WebSocket handler up to its upgrade -----

  datatype Request = Request(verb: string, path: string, query: Option<string>, headers: Headers)

  /** What is sent upstream of the credentials, and the classified target. */
  datatype Prepared = Prepared(classified: ClassifiedWebSocket, protocols: Subprotocol.Protocols,
                               alpha: Option<string>, authorization: Option<string>)

  function Alpha(headers: Headers): Option<string> {
    match Get(headers, "openai-alpha")
    case None => None
    case Some(value) => if Subprotocol.Readable(value) then Some(Trim(value, Mime.WHITESPACE)) else None
  }

  predicate IsUpgrade(headers: Headers) {
    match Get(headers, "upgrade")
    case None => false
    case Some(value) => Subprotocol.Readable(value) && Lower(value) == "websocket"
  }

  predicate SlashPrivate(r: Request) {
    r.path == "/v1/realtime/" && Alpha(r.headers) in {Some("quicksilver=v1"), Some("quicksilver=v2")}
  }

  predicate Routed(r: Request) {
    && r.verb == "GET"
    && (r.path == "/v1/realtime" || r.path == "/v1/realtime/translations" || SlashPrivate(r))
    && IsUpgrade(r.headers)
  }

  function FactsOf(r: Request, pairs: seq<(string, string)>, profile: Profile): Facts {
    Facts(r.verb, if SlashPrivate(r) then "/v1/realtime" else r.path, pairs, None, Alpha(r.headers), ModeOf(profile))
  }

  const SINGLETONS: seq<string> :=
    ["origin", "openai-organization", "openai-project", "openai-safety-identifier", "openai-alpha", "x-oai-attestation"]

  predicate SingletonsOnce(headers: Headers, dialect: Dialect) {
    forall name :: name in SINGLETONS && !(name == "x-oai-attestation" && dialect == OfficialGa)
        ==> Count(headers, name) <= 1
  }

  predicate MetadataReadable(headers: Headers) {
    forall name :: name in SINGLETONS + ["openai-beta"]
      ==> Subprotocol.AllReadable(Subprotocol.ValuesOf(headers, name))
  }

  function Validate(headers: Headers, dialect: Dialect, admission: Option<string>)
    : Result<Subprotocol.Protocols, Refusal>
  {
    match Subprotocol.Parse(Subprotocol.ValuesOf(headers, Subprotocol.PROTOCOL), admission)
    case Err(e) => Err(Negotiation(e))
    case Ok(protocols) =>
      var invalid := Negotiation(Subprotocol.InvalidRealtimeSubprotocol);
      if !SingletonsOnce(headers, dialect) then Err(InvalidHeader)
      else if Count(headers, "authorization") > 1 then Err(AmbiguousAuthorization)
      else if !MetadataReadable(headers) then Err(InvalidHeader)
      else if dialect != OfficialGa && protocols.offered != [] then Err(invalid)
      else if (protocols.hasOrganization && Count(headers, "openai-organization") > 0)
              || (protocols.hasProject && Count(headers, "openai-project") > 0) then Err(invalid)
      else if protocols.browserCredential.Some? && Count(headers, "authorization") != 0 then Err(invalid)
      else Ok(protocols)
  }

  predicate EmptyValue(value: string) { Subprotocol.Readable(value) && Trim(value, Mime.WHITESPACE) == "" }

  /** `copy_private_alpha`. */
  function CopyAlpha(headers: Headers, dialect: Dialect): Result<Option<string>, Refusal> {
    if dialect == OfficialGa then Ok(None)
    else
      var expected := if dialect == QuicksilverV1 then "quicksilver=v1" else "quicksilver=v2";
      match Get(headers, "openai-alpha")
      case None => Err(InvalidHeader)
      case Some(value) =>
        if EmptyValue(value) || !Subprotocol.Readable(value) || Trim(value, Mime.WHITESPACE) != expected then
          Err(InvalidHeader)
        else Ok(Some(value))
  }

  predicate AccountSafe(profile: Profile) {
    profile.ChatGptBackend? && profile.accountId.Some? ==> HeaderSafe(profile.accountId.value)
  }

  function Build(headers: Headers, profile: Profile, c: ClassifiedWebSocket, protocols: Subprotocol.Protocols)
    : Result<Prepared, Refusal>
  {
    match CopyAlpha(headers, c.selection.dialect)
    case Err(e) => Err(e)
    case Ok(alpha) =>
      if c.selection.dialect != OfficialGa && !AccountSafe(profile) then Err(InvalidHeader)
      else if protocols.browserCredential.Some? then Ok(Prepared(c, protocols, alpha, None))
      else match Authorization(headers, profile, c.selection.credential)
        case Err(e) => Err(e)
        case Ok(value) => Ok(Prepared(c, protocols, alpha, Some(value)))
  }

  function ClassifyRequest(r: Request, profile: Profile): (result: Result<ClassifiedWebSocket, Refusal>)
    ensures result.Ok? ==> result.value.target.TranslationOf? ==> result.value.selection.dialect == OfficialGa
  {
    if !Routed(r) then Err(UnknownEndpoint)
    else match Query.DecodeOrdered(r.query)
      case Err(_) => Err(InvalidQuery)
      case Ok(pairs) =>
        match ClassifyWebSocket(FactsOf(r, pairs, profile))
        case Err(e) => Err(Contractual(e))
        case Ok(c) => Ok(c)
  }

  /** From the request to the upstream's credentials: a refusal by an official target's profile comes
      before the metadata is looked at, one by a private target's profile after. */
  function Prepare(r: Request, profile: Profile, admission: Option<string>): Result<Prepared, Refusal> {
    match ClassifyRequest(r, profile)
    case Err(e) => Err(e)
    case Ok(c) =>
      var decision := SupportFor(KindOf(profile), FromWebSocket(c));
      if c.selection.dialect == OfficialGa && decision.Unsupported? then Err(UnsupportedBy(decision.required))
      else match Validate(r.headers, c.selection.dialect, admission)
        case Err(e) => Err(e)
        case Ok(protocols) =>
          if decision.Unsupported? then Err(UnsupportedBy(decision.required))
          else Build(r.headers, profile, c, protocols)
  }

  // ----- Whose credentials reach the upstream -----

  lemma ClassifiedFrom(r: Request, profile: Profile) returns (f: Facts)
    requires ClassifyRequest(r, profile).Ok?
    ensures f.mode == ModeOf(profile) && f.openaiAlpha == Alpha(r.headers)
    ensures ClassifyWebSocket(f) == Ok(ClassifyRequest(r, profile).value)
    ensures Query.DecodeOrdered(r.query) == Ok(f.query)
  {
    f := FactsOf(r, Query.DecodeOrdered(r.query).value, profile);
  }

  /** A private WebSocket reaches the upstream with the profile's own token, never with anything the
      client sent, and offers no subprotocol. */
  lemma PrivateRunsOnManaged(r: Request, profile: Profile, admission: Option<string>)
    requires Prepare(r, profile, admission).Ok?
    requires Prepare(r, profile, admission).value.classified.selection.dialect != OfficialGa
    ensures ManagedAuth(profile).Some?
    ensures var p := Prepare(r, profile, admission).value;
            && p.authorization == Some("Bearer " + ManagedAuth(profile).value)
            && p.protocols == Subprotocol.ProtocolsOf([])
            && p.alpha.Some? && PrivateDialect(p.alpha) == Some(p.classified.selection.dialect)
  {
    hide Subprotocol.Parse, SingletonsOnce, MetadataReadable, ClassifyRequest, HeaderSafe, ValidBearer;
    var f := ClassifiedFrom(r, profile);
    WebSocketCoherent(f);
    NothingIsOffered(r.headers, admission);
    hide ClassifyWebSocket, Get, Alpha;
  }

  lemma NothingIsOffered(headers: Headers, admission: Option<string>)
    ensures var parsed := Subprotocol.Parse(Subprotocol.ValuesOf(headers, Subprotocol.PROTOCOL), admission);
            parsed.Ok? && parsed.value.offered == [] ==> parsed.value == Subprotocol.ProtocolsOf([])
  {
    var fields := Subprotocol.ValuesOf(headers, Subprotocol.PROTOCOL);
    Subprotocol.ParseExactly(fields, admission);
  }

  /** An official WebSocket reaches the upstream with exactly one credential: the browser's, in its
      subprotocol, and then the client sent no Authorization; or else the profile's token, or the
      client's only Authorization, a valid bearer. */
  lemma OfficialHasOneCredential(r: Request, profile: Profile, admission: Option<string>)
    requires Prepare(r, profile, admission).Ok?
    requires Prepare(r, profile, admission).value.classified.selection.dialect == OfficialGa
    ensures !profile.ChatGptBackend?
    ensures var p := Prepare(r, profile, admission).value;
            && (p.authorization.Some? <==> p.protocols.browserCredential.None?)
            && (p.authorization.None? ==> Count(r.headers, "authorization") == 0
                                          && (admission.Some? ==> p.protocols.browserCredential != admission))
            && (p.authorization.Some? && profile.ApiKeyManaged? ==> p.authorization == Some("Bearer " + profile.auth))
            && (p.authorization.Some? && profile.ApiKeyClient?
                ==> ValidBearer(p.authorization.value)
                    && Subprotocol.ValuesOf(r.headers, "authorization") == [p.authorization.value])
  {
    hide ClassifyRequest, ValidBearer, Validate, Build;
    var f := ClassifiedFrom(r, profile);
    var c := ClassifyRequest(r, profile).value;
    ValidatedMeans(r.headers, c.selection.dialect, admission);
    BuiltMeans(r.headers, profile, c, Validate(r.headers, c.selection.dialect, admission).value);
    ManagedHasToken(f, profile);
    hide ClassifyWebSocket, Authorization;
    OneAuthorization(r.headers, profile, c.selection.credential);
  }

  lemma ValidatedMeans(headers: Headers, dialect: Dialect, admission: Option<string>)
    requires Validate(headers, dialect, admission).Ok?
    ensures Count(headers, "authorization") <= 1
    ensures var protocols := Validate(headers, dialect, admission).value;
            && (protocols.browserCredential.Some? ==> Count(headers, "authorization") == 0)
            && (admission.Some? ==> protocols.browserCredential != admission)
  {
    hide Subprotocol.Parse, SingletonsOnce, MetadataReadable;
    AdmissionStays(Subprotocol.ValuesOf(headers, Subprotocol.PROTOCOL), admission);
  }

  lemma BuiltMeans(headers: Headers, profile: Profile, c: ClassifiedWebSocket, protocols: Subprotocol.Protocols)
    requires Build(headers, profile, c, protocols).Ok?
    ensures var p := Build(headers, profile, c, protocols).value;
            && p.classified == c && p.protocols == protocols
            && (p.authorization.Some? <==> protocols.browserCredential.None?)
            && (p.authorization.Some? ==>
                  Authorization(headers, profile, c.selection.credential) == Ok(p.authorization.value))
  {
    hide CopyAlpha, Authorization;
  }

  /** The credential a policy resolves to. */
  lemma OneAuthorization(headers: Headers, profile: Profile, policy: CredentialPolicy)
    requires Count(headers, "authorization") <= 1
    ensures var r := Authorization(headers, profile, policy);
            && (r.Ok? && policy == Managed ==>
                  ManagedAuth(profile).Some? && r.value == "Bearer " + ManagedAuth(profile).value)
            && (r.Ok? && policy != Managed ==>
                  ValidBearer(r.value) && Subprotocol.ValuesOf(headers, "authorization") == [r.value])
  {
    hide HeaderSafe, ValidBearer, Subprotocol.ValuesOf;
  }

  /** The browser credential accepted is never the admission secret. */
  lemma AdmissionStays(fields: seq<string>, admission: Option<string>)
    ensures admission.Some? && Subprotocol.Parse(fields, admission).Ok?
            ==> Subprotocol.Parse(fields, admission).value.browserCredential != admission
  {
    if admission.Some? && Subprotocol.Parse(fields, admission).Ok? {
      Subprotocol.ParseExactly(fields, admission);
      SecretIsNone(Subprotocol.AllPieces(fields), admission);
    }
  }

  lemma {:induction false} SecretIsNone(offered: seq<string>, admission: Option<string>)
    requires Subprotocol.WellOffered(offered, admission) && admission.Some?
    ensures Subprotocol.OfferedSecret(offered) != admission
  {
    hide Subprotocol.ClassOf, Subprotocol.SecretOf, IsToken;
    if offered != [] {
      assert forall i :: 0 <= i < |offered[1..]| ==> offered[1..][i] == offered[i + 1];
      SecretIsNone(offered[1..], admission);
    }
  }

  /** Once a request is classified as private, its negotiation header is always accepted: what the
      builder expects is what the classifier read. */
  lemma AlphaAgrees(r: Request, profile: Profile)
    requires ClassifyRequest(r, profile).Ok?
    ensures CopyAlpha(r.headers, ClassifyRequest(r, profile).value.selection.dialect).Ok?
  {
    hide ClassifyRequest;
    var f := ClassifiedFrom(r, profile);
    WebSocketCoherent(f);
    hide ClassifyWebSocket, Get, Subprotocol.Readable;
    var value := Get(r.headers, "openai-alpha");
    if value.Some? {
      TrimTwice(value.value, Mime.WHITESPACE);
    }
  }

  lemma TrimTwice(s: string, blank: set<char>)
    ensures Trim(Trim(s, blank), blank) == Trim(s, blank)
  {
    var a, b := TrimSplits(s, blank);
    var t := Trim(s, blank);
    TrimPadded("", t, "", blank);
    assert "" + t + "" == t;
  }

  // ----- Which requests are let through -----

  /** The profiles a target runs under. */
  predicate Serves(profile: Profile, c: ClassifiedWebSocket) {
    if c.selection.dialect == OfficialGa then !profile.ChatGptBackend?
    else profile.ApiKeyManaged? || (profile.ChatGptBackend? && c.target.ExistingCall?)
  }

  /** Headers that may stand once stand once and can be read; a private target offers no subprotocol;
      and neither an identity nor a credential comes by header and subprotocol both. */
  predicate Presentable(headers: Headers, dialect: Dialect, protocols: Subprotocol.Protocols) {
    && SingletonsOnce(headers, dialect) && MetadataReadable(headers)
    && Count(headers, "authorization") <= (if protocols.browserCredential.Some? then 0 else 1)
    && (protocols.hasOrganization ==> Count(headers, "openai-organization") == 0)
    && (protocols.hasProject ==> Count(headers, "openai-project") == 0)
    && (dialect != OfficialGa ==> Count(headers, Subprotocol.PROTOCOL) == 0)
  }

  /** What can stand in a header: tabs, and bytes that are no control characters. */
  predicate SafeText(value: string) {
    forall i :: 0 <= i < |value| ==> value[i] as int == 9 || (value[i] as int > 31 && value[i] as int != 127)
  }

  lemma SafeExactly(value: string)
    ensures HeaderSafe(value) <==> SafeText(value)
    ensures HeaderSafe("Bearer " + value) <==> SafeText(value)
  {
    var bearer := "Bearer " + value;
    assert forall i :: 0 <= i < |value| ==> bearer[7 + i] == value[i];
    assert forall i :: 0 <= i < 7 ==> bearer[i] == "Bearer "[i] && 'z' >= bearer[i] >= ' ';
  }

  /** The account a private target is billed to, if the profile has one, can stand in a header. */
  predicate AccountText(profile: Profile) {
    match profile
    case ChatGptBackend(_, _, Some(account)) => SafeText(account)
    case _ => true
  }

  lemma AccountExactly(profile: Profile)
    ensures AccountSafe(profile) <==> AccountText(profile)
  {
    if profile.ChatGptBackend? && profile.accountId.Some? {
      SafeExactly(profile.accountId.value);
    }
    hide HeaderSafe, SafeText;
  }

  /** There is a credential to send: the browser's, the profile's, or the client's. */
  predicate HasCredential(headers: Headers, profile: Profile, protocols: Subprotocol.Protocols) {
    || protocols.browserCredential.Some?
    || (ManagedAuth(profile).Some? && SafeText(ManagedAuth(profile).value))
    || (profile.ApiKeyClient? && Get(headers, "authorization").Some?
        && ValidBearer(Get(headers, "authorization").value))
  }

  function Parsed(headers: Headers, admission: Option<string>): Result<Subprotocol.Protocols, Subprotocol.Error> {
    Subprotocol.Parse(Subprotocol.ValuesOf(headers, Subprotocol.PROTOCOL), admission)
  }

  lemma ServesExactly(r: Request, profile: Profile)
    requires ClassifyRequest(r, profile).Ok?
    ensures var c := ClassifyRequest(r, profile).value;
            && (!SupportFor(KindOf(profile), FromWebSocket(c)).Unsupported? <==> Serves(profile, c))
            && (Serves(profile, c) ==>
                  c.selection.credential == (if profile.ApiKeyClient? then ClientBearer else Managed))
  {
    hide ClassifyRequest;
    var f := ClassifiedFrom(r, profile);
    WebSocketCoherent(f);
    hide ClassifyWebSocket;
  }

  lemma ValidatedExactly(headers: Headers, dialect: Dialect, admission: Option<string>)
    ensures Validate(headers, dialect, admission).Ok?
            <==> Parsed(headers, admission).Ok? && Presentable(headers, dialect, Parsed(headers, admission).value)
    ensures Validate(headers, dialect, admission).Ok?
            ==> Validate(headers, dialect, admission).value == Parsed(headers, admission).value
  {
    Subprotocol.NothingOfferedExactly(Subprotocol.ValuesOf(headers, Subprotocol.PROTOCOL), admission);
    hide Subprotocol.Parse, SingletonsOnce, MetadataReadable, Subprotocol.ValuesOf;
  }

  lemma BuiltExactly(headers: Headers, profile: Profile, c: ClassifiedWebSocket, protocols: Subprotocol.Protocols)
    requires CopyAlpha(headers, c.selection.dialect).Ok?
    requires c.selection.credential == (if profile.ApiKeyClient? then ClientBearer else Managed)
    ensures Build(headers, profile, c, protocols).Ok?
            <==> (c.selection.dialect != OfficialGa ==> AccountText(profile))
                 && HasCredential(headers, profile, protocols)
  {
    AccountExactly(profile);
    if ManagedAuth(profile).Some? {
      SafeExactly(ManagedAuth(profile).value);
    }
    hide CopyAlpha, HeaderSafe, SafeText, ValidBearer, Get, AccountSafe, AccountText;
  }

  /** The handler lets through exactly the requests that are classified for a target the profile serves,
      whose headers are presentable, and for which there is a credential; the negotiation header the
      builder reads again is never a reason to refuse. It refuses for the profile exactly when the
      profile does not serve the target, and for a private target only once its headers are found
      presentable. */
  lemma LetThroughExactly(r: Request, profile: Profile, admission: Option<string>)
    ensures Prepare(r, profile, admission).Ok?
            <==> && ClassifyRequest(r, profile).Ok?
                 && var c := ClassifyRequest(r, profile).value;
                    && Serves(profile, c)
                    && Parsed(r.headers, admission).Ok?
                    && Presentable(r.headers, c.selection.dialect, Parsed(r.headers, admission).value)
                    && (c.selection.dialect != OfficialGa ==> AccountText(profile))
                    && HasCredential(r.headers, profile, Parsed(r.headers, admission).value)
    ensures (Prepare(r, profile, admission).Err? && Prepare(r, profile, admission).error.UnsupportedBy?)
            <==> && ClassifyRequest(r, profile).Ok?
                 && var c := ClassifyRequest(r, profile).value;
                    && !Serves(profile, c)
                    && (c.selection.dialect == OfficialGa
                        || (Parsed(r.headers, admission).Ok?
                            && Presentable(r.headers, c.selection.dialect, Parsed(r.headers, admission).value)))
  {
    hide ClassifyRequest, Validate, Build, Serves, Presentable, HasCredential, Parsed, AccountText;
    OtherRefusals(r, profile, admission);
    if ClassifyRequest(r, profile).Ok? {
      var c := ClassifyRequest(r, profile).value;
      ServesExactly(r, profile);
      ValidatedExactly(r.headers, c.selection.dialect, admission);
      if Serves(profile, c) && Validate(r.headers, c.selection.dialect, admission).Ok? {
        AlphaAgrees(r, profile);
        BuiltExactly(r.headers, profile, c, Parsed(r.headers, admission).value);
      }
    }
  }

  /** Only the profile's refusal names profiles. */
  lemma OtherRefusals(r: Request, profile: Profile, admission: Option<string>)
    ensures ClassifyRequest(r, profile).Err? ==> !ClassifyRequest(r, profile).error.UnsupportedBy?
    ensures forall dialect :: Validate(r.headers, dialect, admission).Err?
              ==> !Validate(r.headers, dialect, admission).error.UnsupportedBy?
    ensures forall c, protocols :: Build(r.headers, profile, c, protocols).Err?
              ==> !Build(r.headers, profile, c, protocols).error.UnsupportedBy?
  {
    hide ClassifyWebSocket, Query.DecodeOrdered, Routed, SingletonsOnce, MetadataReadable, Subprotocol.Parse,
         ValidBearer, HeaderSafe, Count, Get, Trim;
  }

  // ----- Requests that are let through -----

  /** A plain upgrade for a model, with a negotiation header or none. */
  function PlainRequest(model: string, alpha: Option<string>): Request
    requires Query.Bytes(model)
  {
    Request("GET", "/v1/realtime", Some(Urls.Assign("model", Query.Encode(model))), PlainHeaders(alpha))
  }

  function PlainHeaders(alpha: Option<string>): Headers {
    [("upgrade", "websocket")] + (if alpha.Some? then [("openai-alpha", alpha.value)] else [])
  }

  lemma PlainValues(alpha: Option<string>, name: string)
    ensures Subprotocol.ValuesOf(PlainHeaders(alpha), name)
            == if name == "upgrade" then ["websocket"]
               else if name == "openai-alpha" && alpha.Some? then [alpha.value]
               else []
  {
    assert |"upgrade"| == 7 && |"openai-alpha"| == 12;
    if alpha.Some? {
      var last := ("openai-alpha", alpha.value);
      assert PlainHeaders(alpha)[1..] == [last] && [last][1..] == [];
      assert Subprotocol.ValuesOf([last], name) == if name == "openai-alpha" then [alpha.value] else [];
    } else {
      assert PlainHeaders(alpha)[1..] == [];
      assert Subprotocol.ValuesOf([], name) == [];
    }
  }

  predicate KnownAlpha(alpha: Option<string>) {
    alpha.Some? ==> alpha.value in {"quicksilver=v1", "quicksilver=v2"}
  }

  lemma KnownIsReadable(value: string)
    requires value in {"quicksilver=v1", "quicksilver=v2"}
    ensures Subprotocol.Readable(value) && Tight(value, Mime.WHITESPACE)
  {
    assert value[0] == 'q' && |value| == 14 && (value[13] == '1' || value[13] == '2');
  }

  lemma PlainAlpha(alpha: Option<string>)
    requires KnownAlpha(alpha)
    ensures Alpha(PlainHeaders(alpha)) == alpha && (alpha.Some? ==> Subprotocol.Readable(alpha.value))
  {
    PlainValues(alpha, "openai-alpha");
    hide Subprotocol.ValuesOf, PlainHeaders, Trim, Subprotocol.Readable, Tight;
    assert |"upgrade"| == 7 && |"openai-alpha"| == 12;
    if alpha.Some? {
      var a := alpha.value;
      KnownIsReadable(a);
      NothingBlank();
      TrimPadded("", a, "", Mime.WHITESPACE);
      assert "" + a + "" == a;
    }
  }

  lemma NothingBlank()
    ensures Blank("", Mime.WHITESPACE)
  {
  }

  lemma UpgradeWord()
    ensures Lower("websocket") == "websocket" && Subprotocol.Readable("websocket")
  {
    hide Lower;
    LowerKeeps("websocket");
  }

  lemma PlainIsRouted(model: string, alpha: Option<string>)
    requires Query.Bytes(model)
    ensures Routed(PlainRequest(model, alpha)) && !SlashPrivate(PlainRequest(model, alpha))
  {
    hide Alpha, Query.Encode, Subprotocol.ValuesOf, PlainHeaders;
    PlainValues(alpha, "upgrade");
    UpgradeWord();
    hide Lower, Subprotocol.Readable;
    assert |"/v1/realtime"| == 12 && |"/v1/realtime/"| == 13;
  }

  lemma PlainReadable(alpha: Option<string>, name: string)
    requires KnownAlpha(alpha)
    ensures var values := Subprotocol.ValuesOf(PlainHeaders(alpha), name);
            |values| <= 1 && Subprotocol.AllReadable(values)
  {
    PlainAlpha(alpha);
    PlainValues(alpha, name);
    hide Subprotocol.ValuesOf, PlainHeaders, Alpha;
    UpgradeWord();
  }

  lemma NothingNamed()
    ensures var nothing := Subprotocol.ProtocolsOf([]);
            !nothing.hasOrganization && !nothing.hasProject && nothing.browserCredential.None?
  {
  }

  lemma PlainIsPresentable(alpha: Option<string>, dialect: Dialect, admission: Option<string>)
    requires KnownAlpha(alpha)
    ensures Parsed(PlainHeaders(alpha), admission) == Ok(Subprotocol.ProtocolsOf([]))
    ensures Presentable(PlainHeaders(alpha), dialect, Subprotocol.ProtocolsOf([]))
  {
    hide Subprotocol.Parse, Subprotocol.ProtocolsOf, PlainHeaders, Subprotocol.ValuesOf, Subprotocol.AllReadable,
         KnownAlpha;
    NothingNamed();
    Subprotocol.NothingOfferedExactly([], admission);
    assert |Subprotocol.PROTOCOL| == 22 && |"authorization"| == 13 && |"upgrade"| == 7 && |"openai-alpha"| == 12;
    PlainValues(alpha, Subprotocol.PROTOCOL);
    PlainValues(alpha, "authorization");
    forall name { PlainReadable(alpha, name); }
  }

  lemma PlainClassified(model: string, alpha: Option<string>, profile: Profile)
    requires Utf8.Valid(model) && Query.Bytes(model) && !AllWhite(model) && KnownAlpha(alpha)
    ensures var result := ClassifyRequest(PlainRequest(model, alpha), profile);
            && result.Ok? && result.value.target == Standalone(model)
            && result.value.selection.dialect == PrivateDialect(alpha).GetOr(OfficialGa)
  {
    hide Query.DecodeOrdered, Query.Pair, Query.Component, Query.Encode, Utf8.Valid, AllWhite, Routed, Alpha,
         ClassifyWebSocket, KnownAlpha, PlainHeaders, SlashPrivate, Urls.Assign;
    PlainIsRouted(model, alpha);
    PlainAlpha(alpha);
    PlainDecodes(model);
    var f := FactsOf(PlainRequest(model, alpha), [("model", model)], profile);
    Urls.SelectorsOfTarget(f, Standalone(model));
  }

  lemma PlainDecodes(model: string)
    requires Utf8.Valid(model) && Query.Bytes(model)
    ensures Query.DecodeOrdered(Some(Urls.Assign("model", Query.Encode(model)))) == Ok([("model", model)])
  {
    hide Query.DecodeOrdered, Query.Pair, Query.Component, Query.Encode, Utf8.Valid, Urls.Plain, Urls.Assign, Lacks,
         Query.QuerySafe;
    Query.EncodedComponent(model);
    Query.SafeLacks(Query.Encode(model));
    Urls.NamesArePlain();
    Urls.PairRead("model", Query.Encode(model), model);
    Urls.MarkedQuery(Urls.Assign("model", Query.Encode(model)), ("model", model));
  }

  /** The results above are about something: a plain upgrade is let through for every model that is not
      blank, in every dialect, under the managed profile with any token that can stand in a header; and
      it is the profile's token that is sent. */
  lemma PlainRequestServed(model: string, alpha: Option<string>, base: string, token: string, admission: Option<string>)
    requires Utf8.Valid(model) && !AllWhite(model) && KnownAlpha(alpha) && SafeText(token)
    ensures Query.Bytes(model)
    ensures var result := Prepare(PlainRequest(model, alpha), ApiKeyManaged(base, token), admission);
            && result.Ok? && result.value.classified.target == Standalone(model)
            && result.value.classified.selection.dialect == PrivateDialect(alpha).GetOr(OfficialGa)
            && result.value.authorization == Some("Bearer " + token)
  {
    hide ClassifyRequest, Prepare, Presentable, Parsed, SafeText, PrivateDialect, AllWhite, Utf8.Valid,
         Query.Bytes, KnownAlpha, PlainRequest, PlainHeaders, Subprotocol.ProtocolsOf;
    Query.ValidBytes(model);
    var r, profile := PlainRequest(model, alpha), ApiKeyManaged(base, token);
    PlainClassified(model, alpha, profile);
    PlainHas(model, alpha);
    PlainIsPresentable(alpha, PrivateDialect(alpha).GetOr(OfficialGa), admission);
    NothingNamed();
    LetThroughExactly(r, profile, admission);
    PreparedFrom(r, profile, admission);
    if PrivateDialect(alpha).GetOr(OfficialGa) == OfficialGa {
      OfficialHasOneCredential(r, profile, admission);
    } else {
      PrivateRunsOnManaged(r, profile, admission);
    }
  }

  lemma PlainHas(model: string, alpha: Option<string>)
    requires Query.Bytes(model)
    ensures PlainRequest(model, alpha).headers == PlainHeaders(alpha)
  {
  }

  lemma PreparedFrom(r: Request, profile: Profile, admission: Option<string>)
    requires Prepare(r, profile, admission).Ok?
    ensures ClassifyRequest(r, profile) == Ok(Prepare(r, profile, admission).value.classified)
    ensures Parsed(r.headers, admission) == Ok(Prepare(r, profile, admission).value.protocols)
  {
    hide ClassifyRequest, Validate, Build, Parsed;
    var c := ClassifyRequest(r, profile).value;
    ValidatedExactly(r.headers, c.selection.dialect, admission);
    BuiltMeans(r.headers, profile, c, Validate(r.headers, c.selection.dialect, admission).value);
  }

  // ----- Requests by their text -----

  /** The first negotiation header, when it can be read, says this word. */
  ghost predicate AlphaSays(headers: Headers, word: string) {
    Get(headers, "openai-alpha").Some?
    && Subprotocol.Readable(Get(headers, "openai-alpha").value)
    && RequestLanguage.Says(Get(headers, "openai-alpha").value, word)
  }

  lemma AlphaText(headers: Headers, word: string)
    requires Tight(word, Mime.WHITESPACE)
    ensures Alpha(headers) == Some(word) <==> AlphaSays(headers, word)
  {
    if Get(headers, "openai-alpha").Some? {
      RequestLanguage.TrimSays(Get(headers, "openai-alpha").value, word);
    }
    hide Get, Trim, Subprotocol.Readable, Tight;
  }

  /** Which requests are taken at all; anything else is an unknown endpoint. */
  lemma RoutedText(r: Request, profile: Profile)
    ensures ClassifyRequest(r, profile) != Err(UnknownEndpoint)
            <==> && r.verb == "GET"
                 && (r.path == "/v1/realtime" || r.path == "/v1/realtime/translations"
                     || (r.path == "/v1/realtime/"
                         && (AlphaSays(r.headers, "quicksilver=v1") || AlphaSays(r.headers, "quicksilver=v2"))))
                 && Get(r.headers, "upgrade").Some?
                 && MediaLanguage.SameName(Get(r.headers, "upgrade").value, "websocket")
  {
    RequestLanguage.DialectWords();
    AlphaText(r.headers, "quicksilver=v1");
    AlphaText(r.headers, "quicksilver=v2");
    hide ClassifyWebSocket, Query.DecodeOrdered, Get, Alpha, AlphaSays, MediaLanguage.SameName;
    UpgradeText(r.headers);
  }

  lemma UpgradeText(headers: Headers)
    ensures IsUpgrade(headers)
            <==> Get(headers, "upgrade").Some? && MediaLanguage.SameName(Get(headers, "upgrade").value, "websocket")
  {
    UpgradeWord();
    if Get(headers, "upgrade").Some? {
      var value := Get(headers, "upgrade").value;
      MediaLanguage.SameNameExactly(value, "websocket");
      hide Get, Lower, MediaLanguage.SameName;
      if Lower(value) == "websocket" {
        LettersReadable(value);
      }
    }
  }

  /** What is "websocket" but for case is readable. */
  lemma LettersReadable(value: string)
    requires Lower(value) == "websocket"
    ensures Subprotocol.Readable(value)
  {
    forall i | 0 <= i < |value| ensures ' ' <= value[i] <= '~' {
      assert LowerChar(value[i]) == "websocket"[i];
      assert 'a' <= "websocket"[i] <= 'z';
    }
  }

  /** Under a private dialect the path with a slash is the path without. */
  lemma SlashIsAlias(r: Request, profile: Profile)
    requires r.path == "/v1/realtime/"
    requires AlphaSays(r.headers, "quicksilver=v1") || AlphaSays(r.headers, "quicksilver=v2")
    ensures ClassifyRequest(r, profile) == ClassifyRequest(r.(path := "/v1/realtime"), profile)
  {
    RequestLanguage.DialectWords();
    AlphaText(r.headers, "quicksilver=v1");
    AlphaText(r.headers, "quicksilver=v2");
    assert |"/v1/realtime"| == 12 && |"/v1/realtime/"| == 13;
    hide ClassifyWebSocket, Query.DecodeOrdered, Get, Alpha, AlphaSays;
  }

  predicate Once(headers: Headers, name: string) { Count(headers, name) <= 1 }

  predicate Legible(headers: Headers, name: string) {
    forall value :: value in Subprotocol.ValuesOf(headers, name) ==> Subprotocol.Readable(value)
  }

  /** The headers that may stand once, by name. */
  lemma OnceByName(headers: Headers, dialect: Dialect)
    ensures SingletonsOnce(headers, dialect)
            <==> && Once(headers, "origin") && Once(headers, "openai-organization") && Once(headers, "openai-project")
                 && Once(headers, "openai-safety-identifier") && Once(headers, "openai-alpha")
                 && (dialect != OfficialGa ==> Once(headers, "x-oai-attestation"))
  {
    NamesDiffer();
    Listed();
    hide Count;
  }

  lemma LegibleExactly(headers: Headers, name: string)
    ensures Subprotocol.AllReadable(Subprotocol.ValuesOf(headers, name)) <==> Legible(headers, name)
  {
    var values := Subprotocol.ValuesOf(headers, name);
    hide Subprotocol.Readable, Subprotocol.ValuesOf;
    assert forall i :: 0 <= i < |values| ==> values[i] in values;
  }

  /** The headers that must be readable, by name. */
  lemma LegibleByName(headers: Headers)
    ensures MetadataReadable(headers)
            <==> && Legible(headers, "origin") && Legible(headers, "openai-organization")
                 && Legible(headers, "openai-project") && Legible(headers, "openai-safety-identifier")
                 && Legible(headers, "openai-alpha") && Legible(headers, "x-oai-attestation")
                 && Legible(headers, "openai-beta")
  {
    hide Subprotocol.ValuesOf, Subprotocol.AllReadable, Legible;
    Listed();
    forall name { LegibleExactly(headers, name); }
    assert MetadataReadable(headers)
           <==> (forall name :: name in SINGLETONS || name == "openai-beta" ==> Legible(headers, name));
  }

  lemma Listed()
    ensures forall name ::
              name in SINGLETONS
              <==> name == "origin" || name == "openai-organization" || name == "openai-project"
                   || name == "openai-safety-identifier" || name == "openai-alpha" || name == "x-oai-attestation"
    ensures forall name :: name in SINGLETONS + ["openai-beta"] <==> name in SINGLETONS || name == "openai-beta"
  {
    assert SINGLETONS[0] == "origin" && SINGLETONS[1] == "openai-organization" && SINGLETONS[2] == "openai-project";
    assert SINGLETONS[3] == "openai-safety-identifier" && SINGLETONS[4] == "openai-alpha";
    assert SINGLETONS[5] == "x-oai-attestation";
  }

  lemma NamesDiffer()
    ensures "origin" != "x-oai-attestation" && "openai-organization" != "x-oai-attestation"
    ensures "openai-project" != "x-oai-attestation" && "openai-safety-identifier" != "x-oai-attestation"
    ensures "openai-alpha" != "x-oai-attestation"
  {
    assert |"x-oai-attestation"| == 17 && |"origin"| == 6 && |"openai-organization"| == 19;
    assert |"openai-project"| == 14 && |"openai-safety-identifier"| == 24 && |"openai-alpha"| == 12;
  }

  /** Which profiles support a REST operation: official ones every key profile, private ones every managed
      profile. */
  lemma RestServes(f: Facts, profile: Profile)
    requires ClassifyRest(f).Ok? && f.mode == ModeOf(profile)
    ensures var c := ClassifyRest(f).value;
            !SupportFor(KindOf(profile), FromRest(c)).Unsupported?
            <==> if c.selection.dialect == OfficialGa then !profile.ChatGptBackend? else !profile.ApiKeyClient?
  {
    hide ClassifyRest;
  }

  // ----- Which refusal is given -----

  lemma ClassifyRefusals(r: Request, profile: Profile)
    ensures ClassifyRequest(r, profile) == Err(UnknownEndpoint) <==> !Routed(r)
    ensures ClassifyRequest(r, profile) == Err(InvalidQuery) <==> Routed(r) && Query.DecodeOrdered(r.query).Err?
    ensures forall e :: ClassifyRequest(r, profile) == Err(Contractual(e))
                        <==> && Routed(r) && Query.DecodeOrdered(r.query).Ok?
                             && ClassifyWebSocket(FactsOf(r, Query.DecodeOrdered(r.query).value, profile)) == Err(e)
    ensures ClassifyRequest(r, profile).Err? ==>
              var e := ClassifyRequest(r, profile).error; e.UnknownEndpoint? || e.InvalidQuery? || e.Contractual?
  {
    hide ClassifyWebSocket, Query.DecodeOrdered, Routed, FactsOf;
  }

  lemma ValidateRefusals(headers: Headers, dialect: Dialect, admission: Option<string>)
    ensures Validate(headers, dialect, admission) == Err(AmbiguousAuthorization)
            <==> Parsed(headers, admission).Ok? && SingletonsOnce(headers, dialect)
                 && Count(headers, "authorization") > 1
    ensures Validate(headers, dialect, admission) == Err(Negotiation(Subprotocol.AdmissionSecretNotForwardable))
            <==> Parsed(headers, admission) == Err(Subprotocol.AdmissionSecretNotForwardable)
    ensures Validate(headers, dialect, admission) == Err(InvalidHeader)
            <==> Parsed(headers, admission).Ok?
                 && (!SingletonsOnce(headers, dialect)
                     || (Count(headers, "authorization") <= 1 && !MetadataReadable(headers)))
    ensures Validate(headers, dialect, admission).Err? ==>
              var e := Validate(headers, dialect, admission).error;
              e.AmbiguousAuthorization? || e.Negotiation? || e.InvalidHeader?
  {
    hide Subprotocol.Parse, SingletonsOnce, MetadataReadable, Count;
  }

  lemma BuildRefusals(headers: Headers, profile: Profile, c: ClassifiedWebSocket, protocols: Subprotocol.Protocols)
    requires CopyAlpha(headers, c.selection.dialect).Ok?
    ensures Build(headers, profile, c, protocols) == Err(InvalidHeader)
            <==> c.selection.dialect != OfficialGa && !AccountText(profile)
    ensures Build(headers, profile, c, protocols).Err? ==>
              var e := Build(headers, profile, c, protocols).error; e.InvalidHeader? || e.NoCredential?
  {
    AccountExactly(profile);
    if ManagedAuth(profile).Some? {
      SafeExactly(ManagedAuth(profile).value);
    }
    hide CopyAlpha, HeaderSafe, SafeText, ValidBearer, Get, AccountSafe, AccountText;
  }

  /** The metadata of a request is looked at: an official target's only under a profile that serves it. */
  predicate Examined(r: Request, profile: Profile) {
    ClassifyRequest(r, profile).Ok?
    && var c := ClassifyRequest(r, profile).value; c.selection.dialect != OfficialGa || Serves(profile, c)
  }

  /** The exact cause of each refusal of a WebSocket: the request line, its query, its selectors, its
      headers, the admission secret, and the credential. */
  lemma RefusalsExactly(r: Request, profile: Profile, admission: Option<string>)
    ensures Prepare(r, profile, admission) == Err(UnknownEndpoint) <==> !Routed(r)
    ensures Prepare(r, profile, admission) == Err(InvalidQuery) <==> Routed(r) && Query.DecodeOrdered(r.query).Err?
    ensures forall e :: Prepare(r, profile, admission) == Err(Contractual(e))
                        <==> && Routed(r) && Query.DecodeOrdered(r.query).Ok?
                             && ClassifyWebSocket(FactsOf(r, Query.DecodeOrdered(r.query).value, profile)) == Err(e)
    ensures Prepare(r, profile, admission) == Err(Negotiation(Subprotocol.AdmissionSecretNotForwardable))
            <==> Examined(r, profile) && Parsed(r.headers, admission) == Err(Subprotocol.AdmissionSecretNotForwardable)
    ensures Prepare(r, profile, admission) == Err(AmbiguousAuthorization)
            <==> Examined(r, profile) && Parsed(r.headers, admission).Ok?
                 && SingletonsOnce(r.headers, ClassifyRequest(r, profile).value.selection.dialect)
                 && Count(r.headers, "authorization") > 1
    ensures Prepare(r, profile, admission) == Err(NoCredential)
            <==> && Examined(r, profile) && Parsed(r.headers, admission).Ok?
                 && var c, protocols := ClassifyRequest(r, profile).value, Parsed(r.headers, admission).value;
                    && Serves(profile, c)
                    && Presentable(r.headers, c.selection.dialect, protocols)
                    && (c.selection.dialect != OfficialGa ==> AccountText(profile))
                    && !HasCredential(r.headers, profile, protocols)
  {
    hide ClassifyRequest, Validate, Build, Serves, Presentable, HasCredential, Parsed, AccountText, Routed, FactsOf,
         ClassifyWebSocket, Query.DecodeOrdered, SingletonsOnce, Count;
    ClassifyRefusals(r, profile);
    if ClassifyRequest(r, profile).Ok? {
      var c := ClassifyRequest(r, profile).value;
      ServesExactly(r, profile);
      ValidatedExactly(r.headers, c.selection.dialect, admission);
      ValidateRefusals(r.headers, c.selection.dialect, admission);
      if Serves(profile, c) && Validate(r.headers, c.selection.dialect, admission).Ok? {
        AlphaAgrees(r, profile);
        BuiltExactly(r.headers, profile, c, Parsed(r.headers, admission).value);
        BuildRefusals(r.headers, profile, c, Parsed(r.headers, admission).value);
      }
    }
  }

  /** The value that counts of a name is its first. */
  lemma GetAsListed(first: (string, string), rest: Headers, name: string)
    ensures Get([], name) == None
    ensures Get([first] + rest, name) == if first.0 == name then Some(first.1) else Get(rest, name)
  {
    assert ([first] + rest)[0] == first && ([first] + rest)[1..] == rest;
  }
}
