/** The classification of requests (src/realtime/contract.rs). */
module Contract {
  import opened Common
  import opened Text
  import opened CallId
  import Mime

  datatype Dialect = OfficialGa | QuicksilverV1 | Frameless

  datatype Transport = Http | WebRtcCall | StandaloneWebSocket | ExistingCallWebSocket | TranslationWebSocket

  datatype SessionKind = Realtime | Transcription | Translation | Opaque

  datatype CredentialPolicy = Managed | ClientBearer | Ephemeral

  datatype CredentialMode = ManagedMode | ClientMode

  datatype Selection = Selection(dialect: Dialect, transport: Transport, sessionKind: SessionKind,
                                 credential: CredentialPolicy)

  datatype Facts = Facts(verb: string, path: string, query: seq<(string, string)>, contentType: Option<string>,
                         openaiAlpha: Option<string>, mode: CredentialMode)

  datatype Target = Standalone(model: string) | ExistingCall(callId: string) | TranslationOf(model: string)

  datatype Error =
    | UnknownRoute
    | MethodNotAllowed
    | MissingSelector
    | AmbiguousQuery
    | InvalidCallId
    | UnsupportedContentType
    | PrivateDialectNotSupported

  datatype ClassifiedRest = ClassifiedRest(operation: RestOperation, selection: Selection)

  datatype ClassifiedWebSocket = ClassifiedWebSocket(target: Target, selection: Selection)

  function PrivateDialect(alpha: Option<string>): (r: Option<Dialect>)
    ensures r != Some(OfficialGa)
  {
    match alpha
    case None => None
    case Some(value) =>
      if Trim(value, Mime.WHITESPACE) == "quicksilver=v1" then Some(QuicksilverV1)
      else if Trim(value, Mime.WHITESPACE) == "quicksilver=v2" then Some(Frameless)
      else None
  }

  function ConfiguredCredential(mode: CredentialMode): CredentialPolicy {
    match mode
    case ManagedMode => Managed
    case ClientMode => ClientBearer
  }

  // ----- REST -----

  /** The media type of the request, lower-cased. */
  function Media(contentType: Option<string>): Option<string> {
    match contentType
    case None => None
    case Some(raw) => match Mime.MediaType(raw) case None => None case Some(base) => Some(Lower(base))
  }

  function ClassifyCallCreate(f: Facts): Result<Selection, Error> {
    var private := PrivateDialect(f.openaiAlpha);
    if f.path == "/v1/live" && private != Some(Frameless) then Err(PrivateDialectNotSupported)
    else if f.path == "/v1/realtime/calls" && private == Some(Frameless) then Err(PrivateDialectNotSupported)
    else if f.path != "/v1/live" && f.path != "/v1/realtime/calls" then Err(Error.UnknownRoute)
    else
      var dialect := private.GetOr(OfficialGa);
      var media := Media(f.contentType);
      if media != Some("multipart/form-data") && media != Some("application/sdp") then Err(UnsupportedContentType)
      else if dialect != OfficialGa && media == Some("application/sdp") then Err(UnsupportedContentType)
      else
        Ok(Selection(dialect, WebRtcCall, Opaque,
                     if dialect != OfficialGa then Managed
                     else if media == Some("application/sdp") then Ephemeral
                     else ConfiguredCredential(f.mode)))
  }

  /** Call creation has its own classifier, so that arm of the source is not reachable. */
  function ClassifyOfficialRest(operation: RestOperation, f: Facts): Result<Selection, Error>
    requires operation != CreateCall
  {
    if PrivateDialect(f.openaiAlpha).Some? then Err(PrivateDialectNotSupported)
    else
      var configured := ConfiguredCredential(f.mode);
      match operation
      case AcceptCall(_) => Ok(Selection(OfficialGa, Http, Realtime, configured))
      case CreateClientSecret => Ok(Selection(OfficialGa, Http, Realtime, configured))
      case CreateLegacySession => Ok(Selection(OfficialGa, Http, Realtime, configured))
      case CreateTranscriptionSession => Ok(Selection(OfficialGa, Http, Transcription, configured))
      case CreateTranslationClientSecret => Ok(Selection(OfficialGa, Http, Translation, configured))
      case CreateTranslationCall =>
        if Media(f.contentType) == Some("application/sdp") then Ok(Selection(OfficialGa, Http, Translation, Ephemeral))
        else Err(UnsupportedContentType)
      case RejectCall(_) => Ok(Selection(OfficialGa, Http, Opaque, configured))
      case ReferCall(_) => Ok(Selection(OfficialGa, Http, Opaque, configured))
      case HangupCall(_) => Ok(Selection(OfficialGa, Http, Opaque, configured))
  }

  /** The private call-create alias enters the same classifier. */
  function OperationOf(path: string): Result<RestOperation, Error> {
    if path == "/v1/live" then Ok(CreateCall)
    else match ParseRestPath(path)
      case Ok(operation) => Ok(operation)
      case Err(e) => Err(if e == PathError.InvalidCallId then Error.InvalidCallId else Error.UnknownRoute)
  }

  function ClassifyRest(f: Facts): Result<ClassifiedRest, Error> {
    match OperationOf(f.path)
    case Err(e) => Err(e)
    case Ok(operation) =>
      if f.verb != "POST" then Err(MethodNotAllowed)
      else match (if operation == CreateCall then ClassifyCallCreate(f) else ClassifyOfficialRest(operation, f))
        case Err(e) => Err(e)
        case Ok(selection) => Ok(ClassifiedRest(operation, selection))
  }

  // ----- WebSockets -----

  function SelectorValues(query: seq<(string, string)>, key: string): seq<string> {
    if query == [] then []
    else (if query[0].0 == key then [query[0].1] else []) + SelectorValues(query[1..], key)
  }

  /** The length of the Unicode white space character at the head, 0 when there is none. */
  function WhiteLen(s: string): (n: nat)
    ensures n <= |s|
  {
    if s == "" then 0
    else if s[0] in Mime.WHITESPACE then 1
    else if |s| >= 2 && s[0] as int == 0xC2 && s[1] as int in {0x85, 0xA0} then 2
    else if |s| >= 3 && s[0] as int == 0xE1 && s[1] as int == 0x9A && s[2] as int == 0x80 then 3
    else if |s| >= 3 && s[0] as int == 0xE2 && s[1] as int == 0x80
            && (0x80 <= s[2] as int <= 0x8A || s[2] as int in {0xA8, 0xA9, 0xAF}) then 3
    else if |s| >= 3 && s[0] as int == 0xE2 && s[1] as int == 0x81 && s[2] as int == 0x9F then 3
    else if |s| >= 3 && s[0] as int == 0xE3 && s[1] as int == 0x80 && s[2] as int == 0x80 then 3
    else 0
  }

  /** `trim().is_empty()` of a text: white space only. */
  predicate AllWhite(s: string) {
    s == "" || (WhiteLen(s) > 0 && AllWhite(s[WhiteLen(s)..]))
  }

  function ModelOf(models: seq<string>): Result<string, Error> {
    if |models| > 1 then Err(AmbiguousQuery)
    else if models == [] || AllWhite(models[0]) then Err(MissingSelector)
    else Ok(models[0])
  }

  function ClassifyTranslation(f: Facts): Result<ClassifiedWebSocket, Error> {
    if PrivateDialect(f.openaiAlpha).Some? then Err(PrivateDialectNotSupported)
    else if SelectorValues(f.query, "call_id") != [] then Err(AmbiguousQuery)
    else match ModelOf(SelectorValues(f.query, "model"))
      case Err(e) => Err(e)
      case Ok(model) =>
        Ok(ClassifiedWebSocket(TranslationOf(model),
                               Selection(OfficialGa, TranslationWebSocket, Translation, ConfiguredCredential(f.mode))))
  }

  function TargetOf(query: seq<(string, string)>): Result<Target, Error> {
    var callIds := SelectorValues(query, "call_id");
    if |callIds| > 1 then Err(AmbiguousQuery)
    else if |callIds| == 1 then
      (if ValidCallId(callIds[0]) then Ok(ExistingCall(callIds[0])) else Err(Error.InvalidCallId))
    else match ModelOf(SelectorValues(query, "model"))
      case Err(e) => Err(e)
      case Ok(model) => Ok(Standalone(model))
  }

  function SelectionOf(target: Target, f: Facts): Selection {
    var dialect := PrivateDialect(f.openaiAlpha).GetOr(OfficialGa);
    Selection(dialect,
              if target.ExistingCall? then ExistingCallWebSocket else StandaloneWebSocket,
              if target.ExistingCall? then Opaque else Realtime,
              if dialect == OfficialGa then ConfiguredCredential(f.mode) else Managed)
  }

  function ClassifyWebSocket(f: Facts): Result<ClassifiedWebSocket, Error> {
    if f.path != "/v1/realtime" && f.path != "/v1/realtime/translations" then Err(Error.UnknownRoute)
    else if f.verb != "GET" then Err(MethodNotAllowed)
    else if f.path == "/v1/realtime/translations" then ClassifyTranslation(f)
    else match TargetOf(f.query)
      case Err(e) => Err(e)
      case Ok(target) => Ok(ClassifiedWebSocket(target, SelectionOf(target, f)))
  }

  // ----- What classification promises -----

  lemma {:induction false} SelectorsConcat(a: seq<(string, string)>, b: seq<(string, string)>, key: string)
    ensures SelectorValues(a + b, key) == SelectorValues(a, key) + SelectorValues(b, key)
    decreases |a|
  {
    if a == [] {
      assert a + b == b;
    } else {
      assert (a + b)[0] == a[0] && (a + b)[1..] == a[1..] + b;
      SelectorsConcat(a[1..], b, key);
      var head := if a[0].0 == key then [a[0].1] else [];
      var x, y := SelectorValues(a[1..], key), SelectorValues(b, key);
      assert head + (x + y) == head + x + y;
    }
  }

  lemma NoSelector(pair: (string, string), key: string)
    requires pair.0 != key
    ensures SelectorValues([pair], key) == []
  {
    assert [pair][1..] == [];
  }

  /** A pair that is no selector can stand anywhere in the query and changes nothing. */
  lemma NoiseIgnored(f: Facts, before: seq<(string, string)>, noise: (string, string), after: seq<(string, string)>)
    requires noise.0 != "model" && noise.0 != "call_id"
    ensures ClassifyWebSocket(f.(query := before + [noise] + after)) == ClassifyWebSocket(f.(query := before + after))
  {
    NoiseDropped(before, noise, after, "model");
    NoiseDropped(before, noise, after, "call_id");
    hide SelectorValues, AllWhite, ValidCallId, PrivateDialect;
  }

  lemma NoiseDropped(before: seq<(string, string)>, noise: (string, string), after: seq<(string, string)>, key: string)
    requires noise.0 != key
    ensures SelectorValues(before + [noise] + after, key) == SelectorValues(before + after, key)
  {
    hide SelectorValues;
    SelectorsConcat(before + [noise], after, key);
    SelectorsConcat(before, [noise], key);
    SelectorsConcat(before, after, key);
    NoSelector(noise, key);
    assert SelectorValues(before, key) + [] == SelectorValues(before, key);
  }

  /** How often a name occurs as a key. */
  function Occurrences(query: seq<(string, string)>, key: string): nat {
    |SelectorValues(query, key)|
  }

  lemma {:induction false} SelectorIsPair(query: seq<(string, string)>, key: string, value: string)
    ensures value in SelectorValues(query, key) <==> (key, value) in query
  {
    if query != [] {
      SelectorIsPair(query[1..], key, value);
      assert query == [query[0]] + query[1..];
    }
  }

  lemma OneSelector(query: seq<(string, string)>, key: string, value: string)
    ensures SelectorValues(query, key) == [value] <==> Occurrences(query, key) == 1 && (key, value) in query
  {
    SelectorIsPair(query, key, value);
    if Occurrences(query, key) == 1 {
      assert SelectorValues(query, key) == [SelectorValues(query, key)[0]];
    }
  }

  /** What the route's query must say for a target. */
  predicate Selects(query: seq<(string, string)>, target: Target) {
    match target
    case ExistingCall(id) => Occurrences(query, "call_id") == 1 && ("call_id", id) in query && ValidCallId(id)
    case Standalone(model) =>
      Occurrences(query, "call_id") == 0 && Occurrences(query, "model") == 1 && ("model", model) in query
      && !AllWhite(model)
    case TranslationOf(model) =>
      Occurrences(query, "call_id") == 0 && Occurrences(query, "model") == 1 && ("model", model) in query
      && !AllWhite(model)
  }

  /** A WebSocket is accepted for a target exactly when it is a GET of the target's route whose query
      selects it unambiguously, and a translation names no private dialect. A call id wins over any
      models. */
  lemma TargetExactly(f: Facts, target: Target)
    ensures (ClassifyWebSocket(f).Ok? && ClassifyWebSocket(f).value.target == target)
            <==> && f.verb == "GET" && Selects(f.query, target)
                 && (if target.TranslationOf?
                     then f.path == "/v1/realtime/translations" && PrivateDialect(f.openaiAlpha).None?
                     else f.path == "/v1/realtime")
  {
    hide AllWhite, ValidCallId, PrivateDialect, SelectorValues;
    match target {
      case ExistingCall(id) => OneSelector(f.query, "call_id", id);
      case Standalone(model) => OneSelector(f.query, "model", model);
      case TranslationOf(model) => OneSelector(f.query, "model", model);
    }
  }

  predicate CoherentSelection(c: ClassifiedWebSocket, mode: CredentialMode) {
    && (c.target.TranslationOf? ==> c.selection.dialect == OfficialGa)
    && c.selection.credential == (if c.selection.dialect == OfficialGa then ConfiguredCredential(mode) else Managed)
    && c.selection.transport
       == (match c.target case Standalone(_) => StandaloneWebSocket case ExistingCall(_) => ExistingCallWebSocket
                          case TranslationOf(_) => TranslationWebSocket)
  }

  /** The selection always matches the target, and no translation is private. */
  lemma WebSocketCoherent(f: Facts)
    requires ClassifyWebSocket(f).Ok?
    ensures CoherentSelection(ClassifyWebSocket(f).value, f.mode)
    ensures ClassifyWebSocket(f).value.selection.dialect == PrivateDialect(f.openaiAlpha).GetOr(OfficialGa)
  {
  }

  /** A private dialect only creates calls, always with the managed credential; an ephemeral one is
      asked for exactly where the body is a bare session description. */
  lemma RestCoherent(f: Facts)
    requires ClassifyRest(f).Ok?
    ensures f.verb == "POST"
    ensures var c := ClassifyRest(f).value;
            && (c.selection.dialect != OfficialGa ==> c.operation == CreateCall && c.selection.credential == Managed)
            && (c.selection.dialect == OfficialGa && c.selection.credential != Ephemeral
                ==> c.selection.credential == ConfiguredCredential(f.mode))
            && (c.selection.credential == Ephemeral
                <==> c.operation in {CreateCall, CreateTranslationCall}
                     && Media(f.contentType) == Some("application/sdp"))
  {
    hide Media, PrivateDialect, ParseRestPath;
  }

  /** Which requests create a call in a dialect. */
  predicate CreatesCall(f: Facts, dialect: Dialect) {
    && f.verb == "POST"
    && PrivateDialect(f.openaiAlpha).GetOr(OfficialGa) == dialect
    && f.path == (if dialect == Frameless then "/v1/live" else "/v1/realtime/calls")
    && (Media(f.contentType) == Some("multipart/form-data")
        || (dialect == OfficialGa && Media(f.contentType) == Some("application/sdp")))
  }

  lemma OnlyCallsCreates(path: string)
    ensures ParseRestPath(path) == Ok(CreateCall) <==> path == "/v1/realtime/calls"
  {
    hide StripPrefix, Split, StrictCallId;
  }

  /** A call is created in a dialect exactly by a POST of the dialect's route with its negotiation
      header and a form, or, officially, a bare session description. */
  lemma CallCreateExactly(f: Facts, dialect: Dialect)
    ensures (ClassifyRest(f).Ok? && ClassifyRest(f).value.operation == CreateCall
             && ClassifyRest(f).value.selection.dialect == dialect)
            <==> CreatesCall(f, dialect)
  {
    OnlyCallsCreates(f.path);
    hide ParseRestPath, Media, PrivateDialect;
  }
}
