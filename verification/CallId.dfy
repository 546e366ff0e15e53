/** The two parsers of a percent-encoded call id: the strict one of the REST paths
    (src/realtime/path.rs) and the lenient one of the sideband paths (src/live/sideband.rs). */
module CallId {
  import opened Common
  import opened Text
  import opened Utf8
  import opened Percent

  const MAX_CALL_ID_LEN: nat := 128

  predicate IsIdChar(c: char) { IsAlnum(c) || c == '_' || c == '-' }

  predicate ValidCallId(id: string) {
    1 <= |id| <= MAX_CALL_ID_LEN && forall i :: 0 <= i < |id| ==> IsIdChar(id[i])
  }

  /** `decode_call_id` then `validate_call_id`. */
  function StrictCallId(raw: string): Option<string> {
    if WellEscaped(raw) && Valid(PercentDecode(raw)) && ValidCallId(PercentDecode(raw)) then Some(PercentDecode(raw))
    else None
  }

  /** `decode_segment` then `validate_call_id`: malformed escapes are left as they are. */
  function LenientCallId(segment: string): Option<string> {
    if Valid(PercentDecode(segment)) && ValidCallId(PercentDecode(segment)) then Some(PercentDecode(segment)) else None
  }

  method DecodeCallId(raw: string) returns (r: Option<string>)
    ensures r.Some? <==> WellEscaped(raw) && Valid(PercentDecode(raw))
    ensures r.Some? ==> r.value == PercentDecode(raw)
  {
    var wellEscaped := ScanEscapes(raw);
    if !wellEscaped {
      return None;
    }
    var decoded := PercentDecode(raw);
    return if Valid(decoded) then Some(decoded) else None;
  }

  lemma {:induction false} AsciiIsValid(s: string)
    requires forall i :: 0 <= i < |s| ==> s[i] as int < 0x80
    ensures Valid(s)
    decreases |s|
  {
    if s != "" {
      assert ScalarLen(s) == 1;
      AsciiIsValid(s[1..]);
    }
  }

  lemma IdIsValidUtf8(id: string)
    requires ValidCallId(id)
    ensures Valid(id) && '%' !in id && Lacks(id, '/') && Lacks(id, '?') && Lacks(id, '&') && Lacks(id, '+')
        && Lacks(id, '=')
  {
    AsciiIsValid(id);
  }

  /** On every raw segment the strict and the lenient parser accept alike, with the same id. */
  lemma StrictAgreesWithLenient(raw: string)
    ensures StrictCallId(raw) == LenientCallId(raw)
  {
    if LenientCallId(raw).Some? {
      IdIsValidUtf8(PercentDecode(raw));
      if !WellEscaped(raw) {
        MalformedKeepsPercent(raw);
      }
    }
  }

  /** A segment parses to an id exactly when it is one of its spellings, any of its characters
      literal or escaped in either case. */
  lemma ParsesItsSpellings(raw: string, id: string)
    ensures StrictCallId(raw) == Some(id) <==> Spells(raw, id) && ValidCallId(id)
    ensures LenientCallId(raw) == Some(id) <==> Spells(raw, id) && ValidCallId(id)
  {
    StrictAgreesWithLenient(raw);
    DecodesWhatItSpells(raw, id);
    if ValidCallId(id) {
      IdIsValidUtf8(id);
    }
  }

  /** An id spells itself. */
  lemma {:induction false} SpellsItself(id: string)
    requires '%' !in id
    ensures Spells(id, id)
  {
    if id != "" {
      SpellsItself(id[1..]);
    }
  }

  /** No spelling of an id holds a slash. */
  lemma {:induction false} SpellingLacksSlash(raw: string, id: string)
    requires Spells(raw, id) && Lacks(id, '/')
    ensures Lacks(raw, '/')
    decreases |id|
  {
    if id != "" {
      if raw[0] == id[0] && raw[0] != '%' {
        SpellingLacksSlash(raw[1..], id[1..]);
        assert raw == [raw[0]] + raw[1..];
      } else {
        SpellingLacksSlash(raw[3..], id[1..]);
        assert raw == raw[..3] + raw[3..];
      }
    }
  }

  // ----- REST paths -----

  datatype RestOperation =
    | CreateCall
    | AcceptCall(callId: string)
    | RejectCall(callId: string)
    | ReferCall(callId: string)
    | HangupCall(callId: string)
    | CreateClientSecret
    | CreateLegacySession
    | CreateTranscriptionSession
    | CreateTranslationClientSecret
    | CreateTranslationCall

  datatype PathError = UnknownRoute | InvalidCallId

  const CALLS := "/v1/realtime/calls/"

  function FixedRoute(path: string): Option<RestOperation> {
    if path == "/v1/realtime/calls" then Some(CreateCall)
    else if path == "/v1/realtime/client_secrets" then Some(CreateClientSecret)
    else if path == "/v1/realtime/sessions" then Some(CreateLegacySession)
    else if path == "/v1/realtime/transcription_sessions" then Some(CreateTranscriptionSession)
    else if path == "/v1/realtime/translations/client_secrets" then Some(CreateTranslationClientSecret)
    else if path == "/v1/realtime/translations/calls" then Some(CreateTranslationCall)
    else None
  }

  function CallOperation(action: string, callId: string): Option<RestOperation> {
    if action == "accept" then Some(AcceptCall(callId))
    else if action == "reject" then Some(RejectCall(callId))
    else if action == "refer" then Some(ReferCall(callId))
    else if action == "hangup" then Some(HangupCall(callId))
    else None
  }

  function ParseRestPath(path: string): Result<RestOperation, PathError> {
    match FixedRoute(path)
    case Some(operation) => Ok(operation)
    case None =>
      match StripPrefix(path, CALLS)
      case None => Err(UnknownRoute)
      case Some(rest) => ParseCallPath(Split(rest, '/'))
  }

  function ParseCallPath(segments: seq<string>): Result<RestOperation, PathError> {
    if |segments| != 2 || segments[0] == "" || segments[1] == "" then Err(UnknownRoute)
    else if CallOperation(segments[1], "").None? then Err(UnknownRoute)
    else match StrictCallId(segments[0])
      case None => Err(InvalidCallId)
      case Some(callId) => Ok(CallOperation(segments[1], callId).value)
  }

  /** No fixed route lies below the call path. */
  lemma CallsIsNoFixedRoute(rest: string)
    ensures FixedRoute(CALLS + rest).None?
    ensures StripPrefix(CALLS + rest, CALLS) == Some(rest)
  {
    var path := CALLS + rest;
    assert |CALLS| == 19;
    assert path[13] == 'c' && path[14] == 'a' && |path| >= 19;
  }

  lemma ActionsDiffer(a: string, x: string, b: string, y: string)
    requires CallOperation(a, x).Some? && CallOperation(a, x) == CallOperation(b, y)
    ensures a == b && x == y
  {
  }

  lemma ActionKnown(action: string, x: string, y: string)
    ensures CallOperation(action, x).Some? <==> CallOperation(action, y).Some?
    ensures CallOperation(action, x).Some? ==> action != "" && Lacks(action, '/')
  {
  }

  lemma CallIsNotFixed(path: string, action: string, id: string)
    requires CallOperation(action, id).Some?
    ensures FixedRoute(path) != CallOperation(action, id)
  {
  }

  lemma SpelledPath(raw: string, action: string, id: string)
    requires CallOperation(action, id).Some? && Spells(raw, id) && ValidCallId(id)
    ensures ParseRestPath(CALLS + (raw + "/" + action)) == Ok(CallOperation(action, id).value)
  {
    hide FixedRoute, CallOperation;
    var rest := raw + "/" + action;
    CallsIsNoFixedRoute(rest);
    IdIsValidUtf8(id);
    SpellingLacksSlash(raw, id);
    ActionKnown(action, id, "");
    ActionKnown(action, "", id);
    SplitAt(raw, '/', action);
    SplitNone(action, '/');
    assert Split(rest, '/') == [raw, action];
    ParsesItsSpellings(raw, id);
  }

  lemma SegmentsOfPath(path: string, action: string, id: string)
    requires CallOperation(action, id).Some? && ParseRestPath(path) == Ok(CallOperation(action, id).value)
    ensures StripPrefix(path, CALLS).Some?
    ensures exists raw :: Split(StripPrefix(path, CALLS).value, '/') == [raw, action] && StrictCallId(raw) == Some(id)
  {
    hide FixedRoute, CallOperation, Split, StrictCallId;
    CallIsNotFixed(path, action, id);
    var segments := Split(StripPrefix(path, CALLS).value, '/');
    var callId := StrictCallId(segments[0]).value;
    ActionKnown(segments[1], "", callId);
    ActionsDiffer(segments[1], callId, action, id);
    assert segments == [segments[0], action];
  }

  lemma SpellingOfPath(path: string, action: string, id: string) returns (raw: string)
    requires CallOperation(action, id).Some? && ParseRestPath(path) == Ok(CallOperation(action, id).value)
    ensures path == CALLS + (raw + "/" + action) && Spells(raw, id) && ValidCallId(id)
  {
    hide ParseRestPath, CallOperation;
    SegmentsOfPath(path, action, id);
    var rest := StripPrefix(path, CALLS).value;
    raw :| Split(rest, '/') == [raw, action] && StrictCallId(raw) == Some(id);
    JoinSplit(rest, '/');
    assert [raw, action][1..] == [action];
    assert Join([raw, action], ['/']) == raw + "/" + action;
    ParsesItsSpellings(raw, id);
    assert path == CALLS + rest;
  }

  /** A call path is accepted exactly when it names one of the four actions on a spelling of a valid
      id, and the operation carries that id. */
  lemma CallPathExactly(path: string, action: string, id: string)
    requires CallOperation(action, id).Some?
    ensures ParseRestPath(path) == Ok(CallOperation(action, id).value)
            <==> exists raw :: path == CALLS + (raw + "/" + action) && Spells(raw, id) && ValidCallId(id)
  {
    hide ParseRestPath, CallOperation;
    if ParseRestPath(path) == Ok(CallOperation(action, id).value) {
      var raw := SpellingOfPath(path, action, id);
    }
    forall raw | path == CALLS + (raw + "/" + action) && Spells(raw, id) && ValidCallId(id)
      ensures ParseRestPath(path) == Ok(CallOperation(action, id).value)
    {
      SpelledPath(raw, action, id);
    }
  }

  // ----- The routes by their text -----

  /** A call id: 1 to 128 letters, digits, underscores and hyphens. */
  lemma ValidCallIdText(id: string)
    ensures ValidCallId(id)
            <==> 1 <= |id| <= 128
                 && forall i :: 0 <= i < |id| ==>
                      '0' <= id[i] <= '9' || 'A' <= id[i] <= 'Z' || 'a' <= id[i] <= 'z' || id[i] == '_' || id[i] == '-'
  {
  }

  /** The path of an action on a call. */
  predicate ActsOn(path: string, action: string, id: string, raw: string) {
    path == "/v1/realtime/calls/" + (raw + "/" + action) && Spells(raw, id) && ValidCallId(id)
  }

  lemma FixedOnly(path: string, operation: RestOperation)
    requires operation.CreateCall? || operation.CreateClientSecret? || operation.CreateLegacySession?
             || operation.CreateTranscriptionSession? || operation.CreateTranslationClientSecret?
             || operation.CreateTranslationCall?
    ensures ParseRestPath(path) == Ok(operation) <==> FixedRoute(path) == Some(operation)
  {
    hide FixedRoute, StripPrefix, Split, StrictCallId;
  }

  lemma FixedText(path: string)
    ensures FixedRoute(path) == Some(CreateCall) <==> path == "/v1/realtime/calls"
    ensures FixedRoute(path) == Some(CreateClientSecret) <==> path == "/v1/realtime/client_secrets"
    ensures FixedRoute(path) == Some(CreateLegacySession) <==> path == "/v1/realtime/sessions"
    ensures FixedRoute(path) == Some(CreateTranscriptionSession) <==> path == "/v1/realtime/transcription_sessions"
    ensures FixedRoute(path) == Some(CreateTranslationClientSecret)
            <==> path == "/v1/realtime/translations/client_secrets"
    ensures FixedRoute(path) == Some(CreateTranslationCall) <==> path == "/v1/realtime/translations/calls"
  {
    assert |"/v1/realtime/calls"| == 18 && |"/v1/realtime/client_secrets"| == 27 && |"/v1/realtime/sessions"| == 21;
    assert |"/v1/realtime/transcription_sessions"| == 35 && |"/v1/realtime/translations/client_secrets"| == 40;
    assert |"/v1/realtime/translations/calls"| == 31;
  }

  /** Every route of the REST surface and what it stands for. */
  lemma RoutesExactly(path: string, id: string)
    ensures ParseRestPath(path) == Ok(CreateCall) <==> path == "/v1/realtime/calls"
    ensures ParseRestPath(path) == Ok(CreateClientSecret) <==> path == "/v1/realtime/client_secrets"
    ensures ParseRestPath(path) == Ok(CreateLegacySession) <==> path == "/v1/realtime/sessions"
    ensures ParseRestPath(path) == Ok(CreateTranscriptionSession) <==> path == "/v1/realtime/transcription_sessions"
    ensures ParseRestPath(path) == Ok(CreateTranslationClientSecret)
            <==> path == "/v1/realtime/translations/client_secrets"
    ensures ParseRestPath(path) == Ok(CreateTranslationCall) <==> path == "/v1/realtime/translations/calls"
    ensures ParseRestPath(path) == Ok(AcceptCall(id)) <==> exists raw :: ActsOn(path, "accept", id, raw)
    ensures ParseRestPath(path) == Ok(RejectCall(id)) <==> exists raw :: ActsOn(path, "reject", id, raw)
    ensures ParseRestPath(path) == Ok(ReferCall(id)) <==> exists raw :: ActsOn(path, "refer", id, raw)
    ensures ParseRestPath(path) == Ok(HangupCall(id)) <==> exists raw :: ActsOn(path, "hangup", id, raw)
  {
    FixedText(path);
    FixedOnly(path, CreateCall);
    FixedOnly(path, CreateClientSecret);
    FixedOnly(path, CreateLegacySession);
    FixedOnly(path, CreateTranscriptionSession);
    FixedOnly(path, CreateTranslationClientSecret);
    FixedOnly(path, CreateTranslationCall);
    hide ParseRestPath, FixedRoute;
    Actions(id);
    hide CallOperation;
    ActionText(path, "accept", id);
    ActionText(path, "reject", id);
    ActionText(path, "refer", id);
    ActionText(path, "hangup", id);
  }

  lemma Actions(id: string)
    ensures CallOperation("accept", id) == Some(AcceptCall(id)) && CallOperation("reject", id) == Some(RejectCall(id))
    ensures CallOperation("refer", id) == Some(ReferCall(id)) && CallOperation("hangup", id) == Some(HangupCall(id))
  {
    assert "accept"[0] == 'a' && "reject"[0] == 'r' && |"refer"| == 5 && "hangup"[0] == 'h';
  }

  lemma ActionText(path: string, action: string, id: string)
    requires CallOperation(action, id).Some?
    ensures ParseRestPath(path) == Ok(CallOperation(action, id).value) <==> exists raw :: ActsOn(path, action, id, raw)
  {
    CallPathExactly(path, action, id);
    hide ParseRestPath, CallOperation, Spells, ValidCallId;
    if raw :| path == CALLS + (raw + "/" + action) && Spells(raw, id) && ValidCallId(id) {
      assert ActsOn(path, action, id, raw);
    }
    if raw :| ActsOn(path, action, id, raw) {
      assert path == CALLS + (raw + "/" + action) && Spells(raw, id) && ValidCallId(id);
    }
  }

  /** The error of a path: an invalid id is reported only for a known action on a non-empty segment that
      is no spelling of an id; any other path that is no route is unknown. */
  lemma PathErrors(path: string)
    ensures ParseRestPath(path) == Err(InvalidCallId)
            <==> exists raw, action ::
                   && path == "/v1/realtime/calls/" + (raw + "/" + action)
                   && raw != "" && Lacks(raw, '/') && StrictCallId(raw).None?
                   && action in {"accept", "reject", "refer", "hangup"}
  {
    hide FixedRoute, StrictCallId, Split, CallOperation;
    if ParseRestPath(path) == Err(InvalidCallId) {
      var rest := StripPrefix(path, CALLS).value;
      var segments := Split(rest, '/');
      JoinSplit(rest, '/');
      assert segments == [segments[0], segments[1]] && [segments[0], segments[1]][1..] == [segments[1]];
      assert rest == segments[0] + "/" + segments[1];
      assert Lacks(segments[0], '/');
      KnownAction(segments[1]);
      assert path == "/v1/realtime/calls/" + (segments[0] + "/" + segments[1]);
    }
    forall raw, action
      | && path == "/v1/realtime/calls/" + (raw + "/" + action)
        && raw != "" && Lacks(raw, '/') && StrictCallId(raw).None?
        && action in {"accept", "reject", "refer", "hangup"}
      ensures ParseRestPath(path) == Err(InvalidCallId)
    {
      KnownAction(action);
      CallsIsNoFixedRoute(raw + "/" + action);
      ActionKnown(action, "", "");
      SplitAt(raw, '/', action);
      SplitNone(action, '/');
      assert Split(raw + "/" + action, '/') == [raw, action];
    }
  }

  lemma KnownAction(action: string)
    ensures CallOperation(action, "").Some? <==> action in {"accept", "reject", "refer", "hangup"}
  {
  }
}
