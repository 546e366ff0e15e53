/** The classification by the text of a request: the negotiation header, the content type, every route's
    selection, and the exact cause of every refusal. */
module RequestLanguage {
  import opened Common
  import opened Text
  import opened CallId
  import opened Contract
  import opened MediaLanguage
  import Mime

  // ----- Headers -----

  /** The word with white space around it. */
  ghost predicate Says(value: string, word: string) {
    exists a, b :: SpaceText(a) && SpaceText(b) && value == a + word + b
  }

  lemma TrimSays(value: string, word: string)
    requires Tight(word, Mime.WHITESPACE)
    ensures Trim(value, Mime.WHITESPACE) == word <==> Says(value, word)
  {
    hide Trim, Tight;
    if Trim(value, Mime.WHITESPACE) == word {
      var a, b := TrimSplits(value, Mime.WHITESPACE);
      SpaceTextExactly(a);
      SpaceTextExactly(b);
    }
    if a, b :| SpaceText(a) && SpaceText(b) && value == a + word + b {
      SpaceTextExactly(a);
      SpaceTextExactly(b);
      TrimPadded(a, word, b, Mime.WHITESPACE);
    }
  }

  lemma DialectWords()
    ensures Tight("quicksilver=v1", Mime.WHITESPACE) && Tight("quicksilver=v2", Mime.WHITESPACE)
    ensures "quicksilver=v1" != "quicksilver=v2"
  {
    assert "quicksilver=v1"[13] == '1' && "quicksilver=v2"[13] == '2';
  }

  /** The negotiation header names a private dialect by exactly one of two words. */
  lemma DialectText(alpha: Option<string>)
    ensures PrivateDialect(alpha) == Some(QuicksilverV1) <==> alpha.Some? && Says(alpha.value, "quicksilver=v1")
    ensures PrivateDialect(alpha) == Some(Frameless) <==> alpha.Some? && Says(alpha.value, "quicksilver=v2")
  {
    DialectWords();
    if alpha.Some? {
      TrimSays(alpha.value, "quicksilver=v1");
      TrimSays(alpha.value, "quicksilver=v2");
    }
    hide Trim, Says, Tight;
  }

  /** A content type as written: one of a kind, whatever its case, its white space and its parameters. */
  ghost predicate TypeSays(contentType: Option<string>, kind: string) {
    contentType.Some?
    && exists m ::
         MediaText(m) && Mime.Print(m) == contentType.value && Bounded(m) && SameName(m.major + "/" + m.minor, kind)
  }

  lemma TypeText(contentType: Option<string>)
    ensures Media(contentType) == Some("multipart/form-data") <==> TypeSays(contentType, "multipart/form-data")
    ensures Media(contentType) == Some("application/sdp") <==> TypeSays(contentType, "application/sdp")
  {
    hide Lower, Media, TypeSays;
    FormIsLower();
    SdpIsLower();
    TypeIs(contentType, "multipart/form-data");
    TypeIs(contentType, "application/sdp");
  }

  lemma SdpIsLower()
    ensures Lower("application/sdp") == "application/sdp"
  {
    hide Lower;
    LowerKeeps("application/sdp");
  }

  lemma TypeIs(contentType: Option<string>, kind: string)
    requires Lower(kind) == kind
    ensures Media(contentType) == Some(kind) <==> TypeSays(contentType, kind)
  {
    hide Mime.MediaType, MediaText, Bounded, SameName, Lower, Mime.Print;
    if contentType.Some? {
      var raw := contentType.value;
      var parsed := Mime.MediaType(raw);
      if parsed.Some? {
        ParsesExactlyWritten(raw, parsed.value);
        SameNameExactly(parsed.value, kind);
      }
      forall m | MediaText(m) && Mime.Print(m) == raw && Bounded(m)
        ensures parsed == Some(m.major + "/" + m.minor)
      {
        WrittenParses(m);
      }
    }
  }

  // ----- REST -----

  function KindOfRest(operation: RestOperation): SessionKind {
    if operation.AcceptCall? || operation.CreateClientSecret? || operation.CreateLegacySession? then Realtime
    else if operation.CreateTranscriptionSession? then Transcription
    else if operation.CreateTranslationClientSecret? || operation.CreateTranslationCall? then Translation
    else Opaque
  }

  /** Every operation but call creation is accepted exactly as an official POST of its route, translation
      calls with a session description; and every accepted operation has its transport and session. */
  lemma RestExactly(f: Facts, operation: RestOperation)
    ensures operation != CreateCall ==>
              ((ClassifyRest(f).Ok? && ClassifyRest(f).value.operation == operation)
               <==> && f.verb == "POST" && ParseRestPath(f.path) == Ok(operation) && PrivateDialect(f.openaiAlpha).None?
                    && (operation == CreateTranslationCall ==> Media(f.contentType) == Some("application/sdp")))
    ensures ClassifyRest(f).Ok? ==>
              var c := ClassifyRest(f).value;
              && c.selection.sessionKind == KindOfRest(c.operation)
              && c.selection.transport == (if c.operation == CreateCall then WebRtcCall else Http)
  {
    OnlyCallsCreates(f.path);
    LiveIsNoRoute();
    hide ParseRestPath, Media, PrivateDialect;
  }

  lemma LiveIsNoRoute()
    ensures ParseRestPath("/v1/live") == Err(PathError.UnknownRoute)
  {
    assert |"/v1/live"| == 8;
  }

  /** A route, and the operation it stands for. */
  predicate IsRoute(path: string) { path == "/v1/live" || ParseRestPath(path).Ok? }

  predicate WrongDialect(f: Facts) {
    var dialect := PrivateDialect(f.openaiAlpha);
    if f.path == "/v1/live" then dialect != Some(Frameless)
    else if f.path == "/v1/realtime/calls" then dialect == Some(Frameless)
    else dialect != None
  }

  /** Calls are created from a form, official ones also from a session description; translation calls
      only from the latter; the other operations take any content. */
  predicate ContentFits(f: Facts) {
    var media := Media(f.contentType);
    if f.path == "/v1/live" then media == Some("multipart/form-data")
    else if f.path == "/v1/realtime/calls" then
      media == Some("multipart/form-data") || (media == Some("application/sdp") && PrivateDialect(f.openaiAlpha).None?)
    else ParseRestPath(f.path) == Ok(CreateTranslationCall) ==> media == Some("application/sdp")
  }

  /** The exact cause of every refusal of a REST request. */
  lemma RestRefusals(f: Facts)
    ensures ClassifyRest(f) == Err(Error.UnknownRoute)
            <==> f.path != "/v1/live" && ParseRestPath(f.path) == Err(PathError.UnknownRoute)
    ensures ClassifyRest(f) == Err(Error.InvalidCallId) <==> ParseRestPath(f.path) == Err(PathError.InvalidCallId)
    ensures ClassifyRest(f) == Err(MethodNotAllowed) <==> IsRoute(f.path) && f.verb != "POST"
    ensures ClassifyRest(f) == Err(PrivateDialectNotSupported)
            <==> IsRoute(f.path) && f.verb == "POST" && WrongDialect(f)
    ensures ClassifyRest(f) == Err(UnsupportedContentType)
            <==> IsRoute(f.path) && f.verb == "POST" && !WrongDialect(f) && !ContentFits(f)
  {
    OnlyCallsCreates(f.path);
    LiveIsNoRoute();
    hide ParseRestPath, Media, PrivateDialect;
  }

  // ----- WebSockets -----

  /** Which target the query of a route asks for, if it is clear. */
  predicate AsksModel(query: seq<(string, string)>) {
    Occurrences(query, "call_id") == 0 && Occurrences(query, "model") <= 1
  }

  ghost predicate NoModel(query: seq<(string, string)>) {
    Occurrences(query, "model") == 0 || exists m :: ("model", m) in query && AllWhite(m)
  }

  predicate Ambiguous(f: Facts) {
    var calls, models := Occurrences(f.query, "call_id"), Occurrences(f.query, "model");
    if f.path == "/v1/realtime" then calls > 1 || (calls == 0 && models > 1) else calls > 0 || models > 1
  }

  predicate Upgrades(f: Facts) {
    f.verb == "GET" && (f.path == "/v1/realtime"
                        || (f.path == "/v1/realtime/translations" && PrivateDialect(f.openaiAlpha).None?))
  }

  /** The exact cause of every refusal of a WebSocket. */
  lemma SocketRefusals(f: Facts)
    ensures ClassifyWebSocket(f) == Err(Error.UnknownRoute)
            <==> f.path != "/v1/realtime" && f.path != "/v1/realtime/translations"
    ensures ClassifyWebSocket(f) == Err(MethodNotAllowed)
            <==> (f.path == "/v1/realtime" || f.path == "/v1/realtime/translations") && f.verb != "GET"
    ensures ClassifyWebSocket(f) == Err(PrivateDialectNotSupported)
            <==> f.path == "/v1/realtime/translations" && f.verb == "GET" && PrivateDialect(f.openaiAlpha).Some?
    ensures ClassifyWebSocket(f) == Err(AmbiguousQuery) <==> Upgrades(f) && Ambiguous(f)
    ensures ClassifyWebSocket(f) == Err(Error.InvalidCallId)
            <==> f.path == "/v1/realtime" && f.verb == "GET" && Occurrences(f.query, "call_id") == 1
                 && !exists id :: ("call_id", id) in f.query && ValidCallId(id)
    ensures ClassifyWebSocket(f) == Err(MissingSelector) <==> Upgrades(f) && AsksModel(f.query) && NoModel(f.query)
  {
    SelectorsAsPairs(f.query, "model");
    SelectorsAsPairs(f.query, "call_id");
    assert |"/v1/realtime"| == 12 && |"/v1/realtime/translations"| == 25;
    hide AllWhite, ValidCallId, PrivateDialect, SelectorValues;
    var models, calls := SelectorValues(f.query, "model"), SelectorValues(f.query, "call_id");
    assert |models| == 1 ==> models[0] in models;
    assert |calls| == 1 ==> calls[0] in calls;
  }

  lemma SelectorsAsPairs(query: seq<(string, string)>, key: string)
    ensures forall value :: value in SelectorValues(query, key) <==> (key, value) in query
  {
    forall value { SelectorIsPair(query, key, value); }
  }

  /** The session of a WebSocket. */
  lemma SocketKinds(f: Facts)
    requires ClassifyWebSocket(f).Ok?
    ensures var c := ClassifyWebSocket(f).value;
            match c.target
            case Standalone(_) => c.selection.sessionKind == Realtime && c.selection.transport == StandaloneWebSocket
            case ExistingCall(_) => c.selection.sessionKind == Opaque && c.selection.transport == ExistingCallWebSocket
            case TranslationOf(_) =>
              c.selection.sessionKind == Translation && c.selection.transport == TranslationWebSocket
  {
    hide AllWhite, ValidCallId, PrivateDialect, SelectorValues;
  }
}
