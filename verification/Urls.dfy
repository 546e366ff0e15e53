/** The upstream URLs of WebSockets, and that they keep the target of the request: the private ones of
    src/realtime/websocket.rs and src/live/sideband.rs, the official one of src/realtime/http.rs. */
module Urls {
  import opened Common
  import opened Text
  import opened CallId
  import opened Contract
  import Utf8
  import Percent
  import Query

  // ----- Building -----

  function Origin(scheme: string, host: string): string { scheme + "://" + host }

  const SIDEBAND_API_ROOT := Origin("https", "api.openai.com") + "/v1"

  const SLASH: set<char> := {'/'}

  function ApiRoot(base: string, backendShape: bool): string {
    if backendShape then SIDEBAND_API_ROOT
    else
      var trimmed := TrimEnd(base, SLASH);
      StripSuffix(trimmed, "/v1").GetOr(trimmed) + "/v1"
  }

  function ToWebSocketScheme(url: string): string {
    match StripPrefix(url, "https://")
    case Some(rest) => "wss://" + rest
    case None =>
      match StripPrefix(url, "http://")
      case Some(rest) => "ws://" + rest
      case None => url
  }

  function Assign(key: string, value: string): string { key + "=" + value }

  /** The pair that marks the first private dialect. */
  const MARKER := Assign("intent", "quicksilver")

  /** What is appended to the root for a private target. The source takes official and translation
      targets for unreachable. */
  function PrivateTail(c: ClassifiedWebSocket): string
    requires c.selection.dialect != OfficialGa && !c.target.TranslationOf?
    requires c.target.Standalone? ==> Query.Bytes(c.target.model)
  {
    match (c.selection.dialect, c.target)
    case (QuicksilverV1, Standalone(model)) => "/realtime" + "?" + (MARKER + "&" + Assign("model", Query.Encode(model)))
    case (QuicksilverV1, ExistingCall(callId)) => "/realtime" + "?" + (MARKER + "&" + Assign("call_id", callId))
    case (Frameless, Standalone(model)) => "/live" + "?" + Assign("model", Query.Encode(model))
    case (Frameless, ExistingCall(callId)) => "/live/" + callId
  }

  function PrivateWebSocketUrl(base: string, backendShape: bool, c: ClassifiedWebSocket): string
    requires c.selection.dialect != OfficialGa && !c.target.TranslationOf?
    requires c.target.Standalone? ==> Query.Bytes(c.target.model)
  {
    ToWebSocketScheme(ApiRoot(base, backendShape) + PrivateTail(c))
  }

  datatype SidebandTarget =
    | FramelessPath(callId: string)
    | RealtimeCallsPath(callId: string)
    | RealtimeQuery(callId: string)

  function SidebandTail(target: SidebandTarget): string {
    match target
    case FramelessPath(callId) => "/live/" + callId
    case RealtimeCallsPath(callId) => "/realtime/calls/" + callId
    case RealtimeQuery(callId) => "/realtime" + "?" + (MARKER + "&" + Assign("call_id", callId))
  }

  function SidebandUpstreamUrl(base: string, backendShape: bool, target: SidebandTarget): string {
    ToWebSocketScheme(ApiRoot(base, backendShape) + SidebandTail(target))
  }

  datatype UrlError = OutsideV1

  function OfficialUrl(base: string, inbound: string): Result<string, UrlError> {
    var trimmed := TrimEnd(base, SLASH);
    if EndsWith(trimmed, "/v1") then
      (match StripPrefix(inbound, "/v1")
       case None => Err(OutsideV1)
       case Some(suffix) => Ok(trimmed + suffix))
    else Ok(trimmed + inbound)
  }

  // ----- Reading -----

  /** Up to the fragment. */
  function Unfragmented(url: string): string {
    match SplitOnce(url, '#')
    case None => url
    case Some((head, _)) => head
  }

  function UrlQuery(url: string): Option<string> {
    match SplitOnce(Unfragmented(url), '?')
    case None => None
    case Some((_, query)) => Some(query)
  }

  /** From the first slash after the host up to the query. */
  function UrlPath(url: string): Option<string> {
    var whole := Unfragmented(url);
    var (hier, _) := SplitOnce(whole, '?').GetOr((whole, ""));
    match SplitOnce(hier, ':')
    case None => None
    case Some((_, rest)) =>
      match StripPrefix(rest, "//")
      case None => None
      case Some(after) =>
        match SplitOnce(after, '/')
        case None => Some("/")
        case Some((_, path)) => Some("/" + path)
  }

  /** The map of the decoded pairs, a later value of a name instead of an earlier one. */
  function MapOf(pairs: seq<(string, string)>): map<string, string> {
    if pairs == [] then map[] else MapOf(pairs[..|pairs| - 1])[pairs[|pairs| - 1].0 := pairs[|pairs| - 1].1]
  }

  function SegmentId(rest: string): Option<string> {
    if Lacks(rest, '/') then LenientCallId(rest) else None
  }

  const VERSION := "/v1/"
  const LIVE := VERSION + "live/"
  const CALLS_BELOW := VERSION + "realtime/calls/"
  const REALTIME := VERSION + "realtime"

  function ParseSidebandTarget(path: string, query: map<string, string>): Option<SidebandTarget> {
    var trimmed := StripSuffix(path, "/").GetOr(path);
    match StripPrefix(trimmed, LIVE)
    case Some(rest) =>
      (match SegmentId(rest) case None => None case Some(id) => Some(FramelessPath(id)))
    case None =>
      match StripPrefix(trimmed, CALLS_BELOW)
      case Some(rest) =>
        (match SegmentId(rest) case None => None case Some(id) => Some(RealtimeCallsPath(id)))
      case None =>
        if trimmed == REALTIME && "call_id" in query && ValidCallId(query["call_id"]) then
          Some(RealtimeQuery(query["call_id"]))
        else None
  }

  /** The target a sideband upstream sees in a URL. */
  function TargetAt(url: string): Option<SidebandTarget> {
    match UrlPath(url)
    case None => None
    case Some(path) =>
      match Query.DecodeOrdered(UrlQuery(url))
      case Err(_) => None
      case Ok(pairs) => ParseSidebandTarget(path, MapOf(pairs))
  }

  // ----- Queries survive -----

  /** Switching the scheme does not reach behind the '?'. */
  lemma SchemeBeforeQuery(head: string, query: string)
    requires Lacks(head, '?')
    ensures ToWebSocketScheme(head + "?" + query) == ToWebSocketScheme(head) + "?" + query
    ensures Lacks(ToWebSocketScheme(head), '?')
  {
    SchemeLacks(head, '?');
    SchemesPlain();
    hide Lacks, StripPrefix;
    StripBefore(head, query, "https://");
    StripBefore(head, query, "http://");
  }

  lemma SchemesPlain()
    ensures Lacks("https://", '?') && Lacks("http://", '?')
  {
  }

  lemma StripBefore(head: string, query: string, prefix: string)
    requires Lacks(prefix, '?')
    ensures StripPrefix(head + "?" + query, prefix)
            == match StripPrefix(head, prefix) case None => None case Some(rest) => Some(rest + "?" + query)
  {
    PrefixBefore(head, query, prefix);
    if prefix <= head {
      assert (head + "?" + query)[|prefix|..] == head[|prefix|..] + "?" + query;
    }
  }

  lemma PrefixBefore(head: string, query: string, prefix: string)
    requires Lacks(prefix, '?')
    ensures prefix <= head + "?" + query <==> prefix <= head
  {
    var url := head + "?" + query;
    assert url[|head|] == '?' && url[..|head|] == head;
    if prefix <= url {
      assert forall i :: 0 <= i < |prefix| ==> prefix[i] == url[i];
      assert |prefix| <= |head|;
      assert prefix == head[..|prefix|];
    }
  }

  lemma QueryOfUrl(head: string, query: string)
    requires Lacks(head, '?') && Lacks(head, '#') && Lacks(query, '#')
    ensures UrlQuery(ToWebSocketScheme(head + "?" + query)) == Some(query)
  {
    SchemeBeforeQuery(head, query);
    SchemeLacks(head, '#');
    var head' := ToWebSocketScheme(head);
    assert Lacks(head' + "?" + query, '#');
    hide ToWebSocketScheme;
    SplitOnceNone(head' + "?" + query, '#');
    SplitOnceAt(head', '?', query);
  }

  lemma SchemeLacks(url: string, c: char)
    requires Lacks(url, c) && c in {'?', '#'}
    ensures Lacks(ToWebSocketScheme(url), c)
  {
  }

  lemma {:induction false} TrimEndPrefix(s: string, blank: set<char>)
    ensures TrimEnd(s, blank) <= s
    decreases |s|
  {
    if s != "" && s[|s| - 1] in blank {
      TrimEndPrefix(s[..|s| - 1], blank);
    }
  }

  lemma RootLacks(base: string, backendShape: bool, c: char)
    requires Lacks(base, c) && c in {'?', '#'}
    ensures Lacks(ApiRoot(base, backendShape), c)
  {
    var trimmed := TrimEnd(base, SLASH);
    TrimEndPrefix(base, SLASH);
    assert trimmed + base[|trimmed|..] == base;
    LacksConcat(trimmed, base[|trimmed|..], c);
    hide TrimEnd;
    var without := StripSuffix(trimmed, "/v1").GetOr(trimmed);
    assert without + trimmed[|without|..] == trimmed;
    LacksConcat(without, trimmed[|without|..], c);
    hide StripSuffix;
    LacksConcat(without, "/v1", c);
  }

  /** What a decoded query holds is UTF-8. */
  lemma {:induction false} DecodedValid(raws: seq<string>)
    requires Query.Pairs(raws).Ok?
    ensures Query.AllValid(Query.Pairs(raws).value)
  {
    hide Percent.PercentDecode, Percent.WellEscaped, Utf8.Valid;
    if raws != [] {
      DecodedValid(raws[1..]);
    }
  }

  lemma ModelIsValid(f: Facts, raw: Option<string>)
    requires Query.DecodeOrdered(raw) == Ok(f.query) && ClassifyWebSocket(f).Ok?
    ensures var target := ClassifyWebSocket(f).value.target;
            target.Standalone? ==> Utf8.Valid(target.model) && Query.Bytes(target.model)
  {
    var target := ClassifyWebSocket(f).value.target;
    if target.Standalone? {
      TargetExactly(f, target);
      hide ClassifyWebSocket, AllWhite, Utf8.Valid;
      DecodedValid(Split(raw.value, '&'));
      assert ("model", target.model) in f.query;
      Query.ValidBytes(target.model);
    }
  }

  /** Characters every encoder leaves alone. */
  predicate Plain(s: string) { forall i :: 0 <= i < |s| ==> IsIdChar(s[i]) }

  lemma PlainComponent(s: string)
    requires Plain(s)
    ensures Query.Component(s) == Ok(s)
    ensures Lacks(s, '=') && Lacks(s, '&') && Lacks(s, '#') && Lacks(s, '/') && Lacks(s, '?')
  {
    AsciiIsValid(s);
    SpellsItself(s);
    Query.PlusAbsent(s);
    hide Query.Component;
    Query.ComponentExactly(s, s);
  }

  lemma NamesArePlain()
    ensures Plain("intent") && Plain("quicksilver") && Plain("model") && Plain("call_id")
  {
  }

  lemma PairRead(key: string, encoded: string, value: string)
    requires Plain(key) && Query.Component(encoded) == Ok(value)
    ensures Query.Pair(Assign(key, encoded)) == Ok((key, value))
    ensures Lacks(encoded, '&') ==> Lacks(Assign(key, encoded), '&')
    ensures Lacks(encoded, '#') ==> Lacks(Assign(key, encoded), '#')
  {
    PlainComponent(key);
    hide Query.Component;
    SplitOnceAt(key, '=', encoded);
  }

  lemma MarkerRead()
    ensures Query.Pair(MARKER) == Ok(("intent", "quicksilver")) && Lacks(MARKER, '&') && Lacks(MARKER, '#')
  {
    NamesArePlain();
    PlainComponent("quicksilver");
    PairRead("intent", "quicksilver", "quicksilver");
  }

  /** A query of one pair, alone or behind the marker. */
  lemma MarkedQuery(last: string, pair: (string, string))
    requires Query.Pair(last) == Ok(pair) && Lacks(last, '&')
    ensures Query.DecodeOrdered(Some(last)) == Ok([pair])
    ensures Query.DecodeOrdered(Some(MARKER + "&" + last)) == Ok([("intent", "quicksilver"), pair])
  {
    hide Query.Pair;
    MarkerRead();
    SplitNone(last, '&');
    SplitAt(MARKER, '&', last);
    TwoPairs(MARKER, last, ("intent", "quicksilver"), pair);
    assert [MARKER] + [last] == [MARKER, last];
  }

  lemma TwoPairs(a: string, b: string, x: (string, string), y: (string, string))
    requires Query.Pair(a) == Ok(x) && Query.Pair(b) == Ok(y)
    ensures Query.Pairs([b]) == Ok([y]) && Query.Pairs([a, b]) == Ok([x, y])
  {
    hide Query.Pair;
    assert [a, b][1..] == [b] && [b][1..] == [];
    assert [y] + [] == [y] && [x] + [y] == [x, y];
    assert Query.Pairs([b]) == Ok([y]);
  }

  /** The value as the private URL writes it. */
  function Written(target: Target): string
    requires target.Standalone? ==> Query.Bytes(target.model)
  {
    match target
    case Standalone(model) => Query.Encode(model)
    case ExistingCall(callId) => callId
    case TranslationOf(model) => ""
  }

  function Key(target: Target): string { if target.ExistingCall? then "call_id" else "model" }

  function ValueOf(target: Target): string {
    match target
    case Standalone(model) => model
    case ExistingCall(callId) => callId
    case TranslationOf(model) => model
  }

  predicate Sound(target: Target) {
    match target
    case Standalone(model) => Utf8.Valid(model) && Query.Bytes(model) && !AllWhite(model)
    case ExistingCall(callId) => ValidCallId(callId)
    case TranslationOf(_) => false
  }

  lemma WrittenReads(target: Target)
    requires Sound(target)
    ensures Query.Component(Written(target)) == Ok(ValueOf(target))
    ensures Lacks(Written(target), '&') && Lacks(Written(target), '#')
  {
    match target {
      case Standalone(model) =>
        Query.EncodedComponent(model);
        Query.SafeLacks(Query.Encode(model));
      case ExistingCall(callId) =>
        PlainComponent(callId);
    }
  }

  lemma SelectorsOfTarget(f: Facts, target: Target)
    requires f.path == "/v1/realtime" && f.verb == "GET" && Sound(target)
    requires f.query == [(Key(target), ValueOf(target))]
             || f.query == [("intent", "quicksilver"), (Key(target), ValueOf(target))]
    ensures ClassifyWebSocket(f) == Ok(ClassifiedWebSocket(target, SelectionOf(target, f)))
  {
    var pair, marker := (Key(target), ValueOf(target)), ("intent", "quicksilver");
    assert [pair][1..] == [] && [marker, pair][1..] == [pair];
    assert SelectorValues([pair], Key(target)) == [ValueOf(target)];
    var other := if target.ExistingCall? then "model" else "call_id";
    NoSelector(pair, other);
    NoSelector(marker, other);
    assert SelectorValues([marker, pair], Key(target)) == [ValueOf(target)];
    assert SelectorValues([marker, pair], other) == [];
    hide AllWhite, ValidCallId, PrivateDialect;
  }

  /** The private URL that carries its target in the query. */
  predicate InQuery(c: ClassifiedWebSocket) { !(c.selection.dialect == Frameless && c.target.ExistingCall?) }

  /** The query of a private URL decodes and classifies to the same request. */
  lemma QueryReads(f: Facts, c: ClassifiedWebSocket)
    requires f.path == "/v1/realtime" && ClassifyWebSocket(f) == Ok(c) && Sound(c.target)
    requires c.selection.dialect != OfficialGa && InQuery(c)
    ensures var decoded := Query.DecodeOrdered(Some(PrivateQuery(c)));
            decoded.Ok? && ClassifyWebSocket(f.(query := decoded.value)) == Ok(c)
  {
    TargetExactly(f, c.target);
    WebSocketShape(f);
    hide ClassifyWebSocket, SelectionOf, AllWhite, Sound, Query.DecodeOrdered, Written, Lacks, Query.Pair,
         Query.Component, Selects;
    var pair := (Key(c.target), ValueOf(c.target));
    WrittenReads(c.target);
    NamesArePlain();
    PairRead(pair.0, Written(c.target), pair.1);
    MarkedQuery(Assign(pair.0, Written(c.target)), pair);
    var query := if c.selection.dialect == QuicksilverV1 then [("intent", "quicksilver"), pair] else [pair];
    SelectorsOfTarget(f.(query := query), c.target);
  }

  lemma WebSocketShape(f: Facts)
    requires ClassifyWebSocket(f).Ok? && f.path == "/v1/realtime"
    ensures var c := ClassifyWebSocket(f).value; c.selection == SelectionOf(c.target, f)
    ensures forall query, target :: SelectionOf(target, f.(query := query)) == SelectionOf(target, f)
  {
  }

  /** The query of a private URL. */
  function PrivateQuery(c: ClassifiedWebSocket): string
    requires c.target.Standalone? ==> Query.Bytes(c.target.model)
  {
    var last := Assign(Key(c.target), Written(c.target));
    if c.selection.dialect == QuicksilverV1 then MARKER + "&" + last else last
  }

  lemma UrlQueryIs(base: string, backendShape: bool, c: ClassifiedWebSocket)
    requires c.selection.dialect != OfficialGa && InQuery(c) && Sound(c.target)
    requires Lacks(base, '?') && Lacks(base, '#')
    ensures UrlQuery(PrivateWebSocketUrl(base, backendShape, c)) == Some(PrivateQuery(c))
  {
    var path := if c.selection.dialect == QuicksilverV1 then "/realtime" else "/live";
    HeadLacks(base, backendShape, path, '?');
    HeadLacks(base, backendShape, path, '#');
    QueryLacksFragment(c);
    TailIs(c, path);
    hide ApiRoot, UrlQuery, ToWebSocketScheme, Lacks, PrivateQuery, PrivateTail, Query.Encode, AllWhite, ValidCallId,
         Utf8.Valid;
    AppendedQuery(ApiRoot(base, backendShape), path, PrivateQuery(c));
  }

  lemma AppendedQuery(root: string, path: string, query: string)
    requires Lacks(root + path, '?') && Lacks(root + path, '#') && Lacks(query, '#')
    ensures UrlQuery(ToWebSocketScheme(root + (path + "?" + query))) == Some(query)
  {
    hide UrlQuery, ToWebSocketScheme, Lacks;
    QueryOfUrl(root + path, query);
    assert root + (path + "?" + query) == root + path + "?" + query;
  }

  lemma HeadLacks(base: string, backendShape: bool, path: string, c: char)
    requires Lacks(base, c) && c in {'?', '#'} && path in {"/realtime", "/live"}
    ensures Lacks(ApiRoot(base, backendShape) + path, c)
  {
    RootLacks(base, backendShape, c);
    hide ApiRoot;
  }

  lemma LastLacksFragment(c: ClassifiedWebSocket)
    requires Sound(c.target)
    ensures Lacks(Assign(Key(c.target), Written(c.target)), '#')
  {
    hide Plain, Lacks, Assign, Query.Component, Query.Pair, AllWhite, ValidCallId, Query.Encode, Utf8.Valid,
         Query.Bytes;
    WrittenReads(c.target);
    NamesArePlain();
    PairRead(Key(c.target), Written(c.target), ValueOf(c.target));
  }

  lemma QueryLacksFragment(c: ClassifiedWebSocket)
    requires Sound(c.target)
    ensures Lacks(PrivateQuery(c), '#')
  {
    hide Lacks, Assign, Written, Query.Pair, AllWhite, ValidCallId, Query.Encode, Utf8.Valid, Query.Bytes;
    LastLacksFragment(c);
    MarkerRead();
    AmpersandLacks();
    var last := Assign(Key(c.target), Written(c.target));
    LacksConcat(MARKER, "&", '#');
    LacksConcat(MARKER + "&", last, '#');
  }

  lemma AmpersandLacks()
    ensures Lacks("&", '#')
  {
  }

  lemma TailIs(c: ClassifiedWebSocket, path: string)
    requires c.selection.dialect != OfficialGa && InQuery(c) && Sound(c.target)
    requires path == if c.selection.dialect == QuicksilverV1 then "/realtime" else "/live"
    ensures PrivateTail(c) == path + "?" + PrivateQuery(c)
  {
    hide Query.Encode, AllWhite, ValidCallId, Utf8.Valid;
  }

  // ----- Paths survive -----

  predicate WellHosted(scheme: string, host: string) {
    && Lacks(scheme, ':') && Lacks(scheme, '?') && Lacks(scheme, '#')
    && host != "" && Lacks(host, '/') && Lacks(host, '?') && Lacks(host, '#')
  }

  /** A base without a path of its own: an origin, "/v1" or not, and slashes. */
  function BaseOf(scheme: string, host: string, v1: bool, slashes: string): string {
    Origin(scheme, host) + (if v1 then "/v1" else "") + slashes
  }

  lemma OriginEnd(scheme: string, host: string)
    requires WellHosted(scheme, host)
    ensures var origin := Origin(scheme, host); origin != "" && origin[|origin| - 1] != '/'
    ensures EndsWith(Origin(scheme, host), "/v1") <==> host == "v1"
  {
    var origin := Origin(scheme, host);
    var n := |origin|;
    assert n == |scheme| + 3 + |host|;
    assert origin[n - |host|..] == host;
    assert origin[|scheme|] == ':' && origin[|scheme| + 1] == '/' && origin[|scheme| + 2] == '/';
    assert |host| >= 3 ==> origin[n - 3] == host[|host| - 3] && origin[n - 3] != '/';
    assert |host| == 1 ==> origin[n - 2] == '/';
    assert |host| == 2 ==> origin[n - 3..] == "/" + host;
    var last := origin[n - 3..];
    assert last[0] == origin[n - 3] && last[1] == origin[n - 2];
    assert last == "/v1" ==> |host| == 2;
    assert ("/" + host)[1..] == host && "/v1"[1..] == "v1";
  }

  lemma TrimmedBase(scheme: string, host: string, v1: bool, slashes: string)
    requires WellHosted(scheme, host) && Blank(slashes, SLASH)
    ensures TrimEnd(BaseOf(scheme, host, v1, slashes), SLASH) == Origin(scheme, host) + (if v1 then "/v1" else "")
  {
    OriginEnd(scheme, host);
    hide Origin, WellHosted;
    var s := Origin(scheme, host) + (if v1 then "/v1" else "");
    TrimEndDrops(s, slashes, SLASH);
    assert v1 ==> s[|s| - 1] == "/v1"[2];
    assert !v1 ==> s == Origin(scheme, host);
  }

  /** When the root keeps its version segment: not when a host named "v1" is taken for one. */
  predicate KeepsVersion(host: string, v1: bool) { v1 || host != "v1" }

  lemma RootOf(scheme: string, host: string, v1: bool, slashes: string)
    requires WellHosted(scheme, host) && Blank(slashes, SLASH)
    ensures ApiRoot(BaseOf(scheme, host, v1, slashes), false)
            == Origin(scheme, host) + (if KeepsVersion(host, v1) then "/v1" else "")
  {
    TrimmedBase(scheme, host, v1, slashes);
    OriginEnd(scheme, host);
    hide Origin, WellHosted, BaseOf, TrimEnd;
    var origin := Origin(scheme, host);
    if v1 {
      assert (origin + "/v1")[|origin|..] == "/v1" && (origin + "/v1")[..|origin|] == origin;
    } else {
      assert origin + "" == origin;
      if host == "v1" {
        assert origin[..|origin| - 3] + origin[|origin| - 3..] == origin;
      }
    }
  }

  function WsScheme(scheme: string): string {
    if scheme == "https" then "wss" else if scheme == "http" then "ws" else scheme
  }

  lemma SchemePrefix(scheme: string, rest: string, name: string)
    requires Lacks(scheme, ':') && Lacks(name, ':')
    ensures name + "://" <= scheme + "://" + rest <==> scheme == name
  {
    var url, prefix := scheme + "://" + rest, name + "://";
    assert url[|scheme|] == ':' && prefix[|name|] == ':';
    assert |scheme| < |name| ==> prefix[|scheme|] == name[|scheme|] && name[|scheme|] != ':';
    assert |scheme| > |name| ==> url[|name|] == scheme[|name|] && scheme[|name|] != ':';
    if prefix <= url {
      assert url[..|prefix|] == prefix;
      assert |scheme| == |name|;
      assert scheme == url[..|scheme|] && name == prefix[..|name|];
    }
  }

  lemma WsOf(scheme: string, rest: string)
    requires Lacks(scheme, ':')
    ensures ToWebSocketScheme(scheme + "://" + rest) == WsScheme(scheme) + "://" + rest
  {
    SchemePrefix(scheme, rest, "https");
    SchemePrefix(scheme, rest, "http");
    assert "https" + "://" == "https://" && "http" + "://" == "http://";
    assert "wss" + "://" == "wss://" && "ws" + "://" == "ws://";
    var url := scheme + "://" + rest;
    assert url[|scheme| + 3..] == rest;
  }

  function QuerySuffix(query: Option<string>): string { if query.Some? then "?" + query.value else "" }

  lemma PlainScheme(scheme: string)
    requires Lacks(scheme, ':') && Lacks(scheme, '?') && Lacks(scheme, '#')
    ensures Lacks(WsScheme(scheme), ':') && Lacks(WsScheme(scheme), '?') && Lacks(WsScheme(scheme), '#')
  {
  }

  function Hier(scheme: string, host: string, rest: string): string { scheme + ":" + ("//" + (host + "/" + rest)) }

  lemma Regroup(scheme: string, host: string, rest: string, suffix: string)
    ensures scheme + "://" + (host + ("/" + rest + suffix)) == Hier(scheme, host, rest) + suffix
    ensures Origin(scheme, host) + ("/" + rest + suffix) == scheme + "://" + (host + ("/" + rest + suffix))
  {
    assert ":" + "//" == "://";
  }

  lemma HierLacks(scheme: string, host: string, rest: string, c: char)
    requires Lacks(scheme, c) && Lacks(host, c) && Lacks(rest, c) && c in {'?', '#'}
    ensures Lacks(Hier(scheme, host, rest), c)
  {
  }

  /** The path and the query of an URL on an origin. */
  lemma UrlParts(scheme: string, host: string, rest: string, query: Option<string>)
    requires WellHosted(scheme, host) && Lacks(rest, '?') && Lacks(rest, '#')
    requires query.Some? ==> Lacks(query.value, '#')
    ensures var url := ToWebSocketScheme(Origin(scheme, host) + ("/" + rest + QuerySuffix(query)));
            UrlPath(url) == Some("/" + rest) && UrlQuery(url) == query
  {
    hide ToWebSocketScheme, WsScheme, Lacks, Hier, Origin, UrlPath, UrlQuery;
    var s := WsScheme(scheme);
    PlainScheme(scheme);
    WsOf(scheme, host + ("/" + rest + QuerySuffix(query)));
    Regroup(scheme, host, rest, QuerySuffix(query));
    Regroup(s, host, rest, QuerySuffix(query));
    HierLacks(s, host, rest, '?');
    HierLacks(s, host, rest, '#');
    SplitHier(s, host, rest, query);
  }

  lemma SplitHier(scheme: string, host: string, rest: string, query: Option<string>)
    requires Lacks(Hier(scheme, host, rest), '?') && Lacks(Hier(scheme, host, rest), '#')
    requires Lacks(scheme, ':') && Lacks(host, '/') && (query.Some? ==> Lacks(query.value, '#'))
    ensures var url := Hier(scheme, host, rest) + QuerySuffix(query);
            UrlPath(url) == Some("/" + rest) && UrlQuery(url) == query
  {
    var hier := Hier(scheme, host, rest);
    HierPath(scheme, host, rest);
    hide Lacks, Hier;
    SuffixLacks(query);
    LacksConcat(hier, QuerySuffix(query), '#');
    SplitOnceNone(hier + QuerySuffix(query), '#');
    if query.Some? {
      assert hier + QuerySuffix(query) == hier + "?" + query.value;
      SplitOnceAt(hier, '?', query.value);
    } else {
      assert hier + QuerySuffix(query) == hier;
      SplitOnceNone(hier, '?');
    }
  }

  lemma SuffixLacks(query: Option<string>)
    requires query.Some? ==> Lacks(query.value, '#')
    ensures Lacks(QuerySuffix(query), '#')
  {
  }

  lemma HierPath(scheme: string, host: string, rest: string)
    requires Lacks(scheme, ':') && Lacks(host, '/')
    ensures SplitOnce(Hier(scheme, host, rest), ':') == Some((scheme, "//" + (host + "/" + rest)))
    ensures StripPrefix("//" + (host + "/" + rest), "//") == Some(host + "/" + rest)
    ensures SplitOnce(host + "/" + rest, '/') == Some((host, rest))
  {
    SplitOnceAt(scheme, ':', "//" + (host + "/" + rest));
    SplitOnceAt(host, '/', rest);
  }

  // ----- Sidebands keep their target -----

  function TailRest(target: SidebandTarget): string {
    match target
    case FramelessPath(callId) => "live/" + callId
    case RealtimeCallsPath(callId) => "realtime/calls/" + callId
    case RealtimeQuery(_) => "realtime"
  }

  function TailQuery(target: SidebandTarget): Option<string> {
    if target.RealtimeQuery? then Some(MARKER + "&" + Assign("call_id", target.callId)) else None
  }

  lemma TailParts(target: SidebandTarget)
    ensures SidebandTail(target) == "/" + TailRest(target) + QuerySuffix(TailQuery(target))
  {
    hide Assign;
    match target {
      case FramelessPath(id) => UnderSlash("live/", id);
      case RealtimeCallsPath(id) => UnderSlash("realtime/calls/", id);
      case RealtimeQuery(id) => assert "/" + "realtime" == "/realtime";
    }
    assert "/" + "live/" == "/live/" && "/" + "realtime/calls/" == "/realtime/calls/";
  }

  lemma UnderSlash(a: string, id: string)
    ensures "/" + (a + id) + "" == ("/" + a) + id
  {
  }

  lemma NamesLack(c: char)
    requires c in {'?', '#'}
    ensures Lacks("live/", c) && Lacks("realtime/calls/", c) && Lacks("realtime", c) && Lacks("&", c)
  {
  }

  lemma MarkedLacks(id: string)
    requires ValidCallId(id)
    ensures Lacks(MARKER + "&" + Assign("call_id", id), '#')
  {
    hide Query.Component, Query.Pair, ValidCallId, Assign, Lacks, Plain;
    CallIdPlain(id);
    PlainComponent(id);
    NamesArePlain();
    PairRead("call_id", id, id);
    MarkerRead();
    NamesLack('#');
    LacksConcat(MARKER, "&", '#');
    LacksConcat(MARKER + "&", Assign("call_id", id), '#');
  }

  lemma CallIdPlain(id: string)
    requires ValidCallId(id)
    ensures Plain(id)
  {
  }

  lemma TailClean(target: SidebandTarget)
    requires ValidCallId(target.callId)
    ensures Lacks(TailRest(target), '?') && Lacks(TailRest(target), '#')
    ensures TailQuery(target).Some? ==> Lacks(TailQuery(target).value, '#')
  {
    hide ValidCallId, Lacks, Assign;
    CallIdPlain(target.callId);
    PlainComponent(target.callId);
    MarkedLacks(target.callId);
    forall c | c in {'?', '#'}
      ensures Lacks(TailRest(target), c)
    {
      NamesLack(c);
      LacksConcat("live/", target.callId, c);
      LacksConcat("realtime/calls/", target.callId, c);
    }
  }

  lemma PlainId(id: string)
    requires ValidCallId(id)
    ensures LenientCallId(id) == Some(id) && SegmentId(id) == Some(id)
  {
    IdIsValidUtf8(id);
    SpellsItself(id);
    ParsesItsSpellings(id, id);
  }

  lemma NoTrailingSlash(head: string, id: string)
    requires id != "" && id[|id| - 1] != '/'
    ensures StripSuffix(head + id, "/").None?
  {
    var path := head + id;
    assert path[|path| - 1] == id[|id| - 1];
    assert path[|path| - 1..][0] == path[|path| - 1];
  }

  lemma Below(a: string, b: string, id: string)
    ensures a + (b + id) == (a + b) + id && StripPrefix((a + b) + id, a + b) == Some(id)
  {
    assert ((a + b) + id)[|a + b|..] == id;
  }

  /** The two routes and the bare path are told apart by the character behind the version. */
  lemma RoutesDiffer(id: string)
    ensures StripPrefix(CALLS_BELOW + id, LIVE).None?
    ensures StripPrefix(REALTIME, LIVE).None? && StripPrefix(REALTIME, CALLS_BELOW).None?
  {
    assert LIVE[4] == 'l' && CALLS_BELOW[4] == 'r' && REALTIME[4] == 'r';
    assert (CALLS_BELOW + id)[4] == 'r';
    assert |REALTIME| == 12 && |CALLS_BELOW| == 19;
  }

  lemma LivePath(id: string, query: map<string, string>)
    requires ValidCallId(id)
    ensures ParseSidebandTarget(VERSION + ("live/" + id), query) == Some(FramelessPath(id))
  {
    PlainId(id);
    IdEnds(id);
    hide SegmentId, ValidCallId, StripPrefix, StripSuffix;
    Below(VERSION, "live/", id);
    NoTrailingSlash(LIVE, id);
  }

  lemma CallsPath(id: string, query: map<string, string>)
    requires ValidCallId(id)
    ensures ParseSidebandTarget(VERSION + ("realtime/calls/" + id), query) == Some(RealtimeCallsPath(id))
  {
    PlainId(id);
    IdEnds(id);
    hide SegmentId, ValidCallId, StripPrefix, StripSuffix;
    Below(VERSION, "realtime/calls/", id);
    NoTrailingSlash(CALLS_BELOW, id);
    RoutesDiffer(id);
  }

  lemma QueryPath(id: string, query: map<string, string>)
    requires ValidCallId(id) && "call_id" in query && query["call_id"] == id
    ensures ParseSidebandTarget(REALTIME, query) == Some(RealtimeQuery(id))
  {
    hide SegmentId, ValidCallId, StripPrefix, StripSuffix;
    NoTrailingSlash(VERSION, "realtime");
    RoutesDiffer("");
  }

  lemma PathKept(target: SidebandTarget, query: map<string, string>)
    requires ValidCallId(target.callId)
    requires target.RealtimeQuery? ==> "call_id" in query && query["call_id"] == target.callId
    ensures ParseSidebandTarget(VERSION + TailRest(target), query) == Some(target)
  {
    hide ParseSidebandTarget, ValidCallId;
    match target {
      case FramelessPath(id) => LivePath(id, query);
      case RealtimeCallsPath(id) => CallsPath(id, query);
      case RealtimeQuery(id) => QueryPath(id, query);
    }
  }

  lemma IdEnds(id: string)
    requires ValidCallId(id)
    ensures id != "" && id[|id| - 1] != '/'
  {
  }

  /** Without the version segment nothing is recognized. */
  lemma PathLost(target: SidebandTarget, query: map<string, string>)
    ensures ParseSidebandTarget("/" + TailRest(target), query) == None
  {
    var path := "/" + TailRest(target);
    assert path[1] == 'l' || path[1] == 'r';
    var trimmed := StripSuffix(path, "/").GetOr(path);
    assert |trimmed| > 1 && trimmed[1] == path[1];
    assert LIVE[1] == 'v' && CALLS_BELOW[1] == 'v' && REALTIME[1] == 'v';
  }

  lemma TailDecodes(target: SidebandTarget)
    requires ValidCallId(target.callId)
    ensures var decoded := Query.DecodeOrdered(TailQuery(target));
            decoded.Ok? && (target.RealtimeQuery? ==> "call_id" in MapOf(decoded.value)
                                                      && MapOf(decoded.value)["call_id"] == target.callId)
  {
    var id := target.callId;
    PlainComponent(id);
    NamesArePlain();
    PairRead("call_id", id, id);
    var pair, marker := ("call_id", id), ("intent", "quicksilver");
    hide Query.Pair, Query.Component, Assign, MapOf, Lacks, Plain, ValidCallId, Query.DecodeOrdered;
    MarkedQuery(Assign("call_id", id), pair);
    MapOfTwo(marker, pair);
    NoQuery();
  }

  lemma NoQuery()
    ensures Query.DecodeOrdered(None) == Ok([])
  {
  }

  lemma MapOfTwo(a: (string, string), b: (string, string))
    ensures b.0 in MapOf([a, b]) && MapOf([a, b])[b.0] == b.1
  {
    assert [a, b][..1] == [a];
  }

  /** The path of a target's URL behind its first slash. */
  function RestAt(kept: bool, target: SidebandTarget): string {
    (if kept then "v1/" else "") + TailRest(target)
  }

  function UrlAt(scheme: string, host: string, kept: bool, target: SidebandTarget): string {
    ToWebSocketScheme(Origin(scheme, host) + (if kept then "/v1" else "") + SidebandTail(target))
  }

  lemma RestClean(kept: bool, rest: string, c: char)
    requires Lacks(rest, c) && c in {'?', '#'}
    ensures Lacks((if kept then "v1/" else "") + rest, c)
  {
    VersionLacks(c);
    hide Lacks;
    LacksConcat("v1/", rest, c);
    assert "" + rest == rest;
  }

  /** The path and the query of what is appended to a root. */
  lemma OriginParts(scheme: string, host: string, kept: bool, rest: string, query: Option<string>)
    requires WellHosted(scheme, host) && Lacks(rest, '?') && Lacks(rest, '#')
    requires query.Some? ==> Lacks(query.value, '#')
    ensures var tail := "/" + rest + QuerySuffix(query);
            var url := ToWebSocketScheme(Origin(scheme, host) + (if kept then "/v1" else "") + tail);
            UrlPath(url) == Some("/" + ((if kept then "v1/" else "") + rest)) && UrlQuery(url) == query
  {
    hide Lacks, WellHosted, ToWebSocketScheme, Origin, UrlPath, UrlQuery, QuerySuffix;
    RestClean(kept, rest, '?');
    RestClean(kept, rest, '#');
    UrlParts(scheme, host, (if kept then "v1/" else "") + rest, query);
    RestJoins(Origin(scheme, host), kept, rest, QuerySuffix(query));
  }

  lemma PartsAtOrigin(scheme: string, host: string, kept: bool, target: SidebandTarget)
    requires WellHosted(scheme, host) && ValidCallId(target.callId)
    ensures UrlPath(UrlAt(scheme, host, kept, target)) == Some("/" + RestAt(kept, target))
    ensures UrlQuery(UrlAt(scheme, host, kept, target)) == TailQuery(target)
  {
    hide Lacks, TailRest, TailQuery, SidebandTail, ValidCallId, WellHosted, ToWebSocketScheme, Origin, UrlPath,
         UrlQuery, QuerySuffix;
    TailParts(target);
    TailClean(target);
    OriginParts(scheme, host, kept, TailRest(target), TailQuery(target));
  }

  lemma VersionedRest(target: SidebandTarget)
    ensures "/" + RestAt(true, target) == VERSION + TailRest(target)
    ensures "/" + RestAt(false, target) == "/" + TailRest(target)
  {
    hide TailRest;
    assert "/" + "v1/" == VERSION;
  }

  lemma TargetAtOrigin(scheme: string, host: string, kept: bool, target: SidebandTarget)
    requires WellHosted(scheme, host) && ValidCallId(target.callId)
    ensures TargetAt(UrlAt(scheme, host, kept, target)) == if kept then Some(target) else None
  {
    hide TailRest, TailQuery, ParseSidebandTarget, Query.DecodeOrdered, MapOf, ValidCallId, WellHosted, RestAt, UrlAt,
         UrlPath, UrlQuery;
    PartsAtOrigin(scheme, host, kept, target);
    TailDecodes(target);
    VersionedRest(target);
    var pairs := Query.DecodeOrdered(TailQuery(target)).value;
    if kept {
      PathKept(target, MapOf(pairs));
    } else {
      PathLost(target, MapOf(pairs));
    }
  }

  lemma VersionLacks(c: char)
    requires c in {'?', '#'}
    ensures Lacks("v1/", c)
  {
  }

  lemma RestJoins(origin: string, kept: bool, rest: string, suffix: string)
    ensures origin + (if kept then "/v1" else "") + ("/" + rest + suffix)
            == origin + ("/" + ((if kept then "v1/" else "") + rest) + suffix)
  {
    if kept {
      assert "/v1" + ("/" + rest + suffix) == "/" + ("v1/" + rest) + suffix;
      assert origin + "/v1" + ("/" + rest + suffix) == origin + ("/v1" + ("/" + rest + suffix));
    } else {
      assert "" + rest == rest && origin + "" == origin;
    }
  }

  lemma ApiHost()
    ensures WellHosted("https", "api.openai.com")
  {
  }

  /** On a base without a path of its own, the URL built for a target names that target again, exactly
      unless the base is an origin whose host is "v1". */
  lemma SidebandKeepsTarget(scheme: string, host: string, v1: bool, slashes: string, backendShape: bool,
                            target: SidebandTarget)
    requires WellHosted(scheme, host) && Blank(slashes, SLASH) && ValidCallId(target.callId)
    ensures TargetAt(SidebandUpstreamUrl(BaseOf(scheme, host, v1, slashes), backendShape, target)) == Some(target)
            <==> backendShape || KeepsVersion(host, v1)
  {
    hide TargetAt, ToWebSocketScheme, SidebandTail, TailRest, ValidCallId, Blank, BaseOf, WellHosted, Origin;
    if backendShape {
      ApiHost();
      TargetAtOrigin("https", "api.openai.com", true, target);
    } else {
      RootOf(scheme, host, v1, slashes);
      TargetAtOrigin(scheme, host, KeepsVersion(host, v1), target);
    }
  }

  /** A base that loses the target. */
  lemma HostNamedV1()
    ensures TargetAt(SidebandUpstreamUrl("http://v1", false, FramelessPath("a"))) != Some(FramelessPath("a"))
  {
    hide TargetAt, SidebandUpstreamUrl;
    assert "http" + "://" + "v1" + "" + "" == "http://v1";
    SidebandKeepsTarget("http", "v1", false, "", false, FramelessPath("a"));
  }

  lemma ParsedIdIsValid(path: string, query: map<string, string>)
    requires ParseSidebandTarget(path, query).Some?
    ensures ValidCallId(ParseSidebandTarget(path, query).value.callId)
  {
    hide ValidCallId, StripSuffix, StripPrefix;
  }

  // ----- Private WebSockets keep their target -----

  /** For every private WebSocket accepted from a raw query, and every configured base, the query of the
      upstream URL decodes and classifies under the request's own route to the same request again,
      whatever escaping the model needs; a call joined by path has the URL of its sideband target. No
      target is one the URL builder takes for unreachable. */
  lemma PrivateQueryKeepsTarget(f: Facts, raw: Option<string>, c: ClassifiedWebSocket, base: string, backendShape: bool)
    requires Query.DecodeOrdered(raw) == Ok(f.query)
    requires ClassifyWebSocket(f) == Ok(c) && c.selection.dialect != OfficialGa
    requires Lacks(base, '?') && Lacks(base, '#')
    ensures !c.target.TranslationOf? && (c.target.Standalone? ==> Query.Bytes(c.target.model))
    ensures InQuery(c) ==>
              var decoded := Query.DecodeOrdered(UrlQuery(PrivateWebSocketUrl(base, backendShape, c)));
              decoded.Ok? && ClassifyWebSocket(f.(query := decoded.value)) == Ok(c)
    ensures !InQuery(c) ==> PrivateWebSocketUrl(base, backendShape, c)
                            == SidebandUpstreamUrl(base, backendShape, FramelessPath(c.target.callId))
  {
    AcceptedIsSound(f, raw, c);
    hide ClassifyWebSocket, Lacks, Query.DecodeOrdered, UrlQuery, ApiRoot, ToWebSocketScheme, AllWhite, ValidCallId,
         Utf8.Valid, Query.Bytes, PrivateDialect, Query.Encode;
    if InQuery(c) {
      UrlQueryIs(base, backendShape, c);
      QueryReads(f, c);
    }
  }

  lemma AcceptedIsSound(f: Facts, raw: Option<string>, c: ClassifiedWebSocket)
    requires Query.DecodeOrdered(raw) == Ok(f.query)
    requires ClassifyWebSocket(f) == Ok(c) && c.selection.dialect != OfficialGa
    ensures f.path == "/v1/realtime" && Sound(c.target)
    ensures !c.target.TranslationOf? && (c.target.Standalone? ==> Query.Bytes(c.target.model))
  {
    ModelIsValid(f, raw);
    WebSocketCoherent(f);
    TargetExactly(f, c.target);
    hide ClassifyWebSocket, Query.DecodeOrdered, AllWhite, ValidCallId, Utf8.Valid, Query.Bytes, PrivateDialect;
  }

  /** Where a private target lies below the version segment. */
  function PrivateRest(c: ClassifiedWebSocket): string {
    if c.selection.dialect == QuicksilverV1 then "realtime"
    else if c.target.ExistingCall? then "live/" + c.target.callId
    else "live"
  }

  function PrivateQueryAt(c: ClassifiedWebSocket): Option<string>
    requires c.target.Standalone? ==> Query.Bytes(c.target.model)
  {
    if InQuery(c) then Some(PrivateQuery(c)) else None
  }

  lemma PrivateTailParts(c: ClassifiedWebSocket)
    requires c.selection.dialect != OfficialGa && Sound(c.target)
    ensures PrivateTail(c) == "/" + PrivateRest(c) + QuerySuffix(PrivateQueryAt(c))
  {
    if InQuery(c) {
      var path := if c.selection.dialect == QuicksilverV1 then "/realtime" else "/live";
      TailIs(c, path);
      hide PrivateTail, PrivateQuery, Sound;
      assert "/" + "realtime" == "/realtime" && "/" + "live" == "/live";
      Associative(path, "?", PrivateQuery(c));
    } else {
      hide Sound;
      TailParts(FramelessPath(c.target.callId));
    }
  }

  lemma PrivateRestClean(c: ClassifiedWebSocket, ch: char)
    requires Sound(c.target) && ch in {'?', '#'}
    ensures Lacks(PrivateRest(c), ch)
  {
    NamesLack(ch);
    if c.target.ExistingCall? {
      CallIdPlain(c.target.callId);
      PlainComponent(c.target.callId);
      hide Lacks, ValidCallId;
      LacksConcat("live/", c.target.callId, ch);
    }
  }

  lemma PrivateParts(scheme: string, host: string, kept: bool, c: ClassifiedWebSocket)
    requires WellHosted(scheme, host) && c.selection.dialect != OfficialGa && Sound(c.target)
    ensures var url := ToWebSocketScheme(Origin(scheme, host) + (if kept then "/v1" else "") + PrivateTail(c));
            UrlPath(url) == Some("/" + ((if kept then "v1/" else "") + PrivateRest(c)))
                && UrlQuery(url) == PrivateQueryAt(c)
  {
    PrivateTailParts(c);
    PrivateRestClean(c, '?');
    PrivateRestClean(c, '#');
    QueryLacksFragment(c);
    hide Lacks, WellHosted, ToWebSocketScheme, Origin, UrlPath, UrlQuery, PrivateTail, PrivateRest, PrivateQuery,
         AllWhite, ValidCallId, Utf8.Valid, Query.Bytes;
    OriginParts(scheme, host, kept, PrivateRest(c), PrivateQueryAt(c));
  }

  /** The route of a private target. */
  function PrivateRoute(c: ClassifiedWebSocket): string { VERSION + PrivateRest(c) }

  /** The URL read as a request of its own: its path is the target's route, and path and query together
      name the target. The first dialect's URL classifies to the whole request again; the second's has
      its own route, with the model in the query or the call id in the path. */
  predicate NamesTarget(f: Facts, c: ClassifiedWebSocket, url: string) {
    var path, decoded := UrlPath(url), Query.DecodeOrdered(UrlQuery(url));
    && path.Some? && decoded.Ok?
    && path.value == PrivateRoute(c)
    && (c.selection.dialect == QuicksilverV1 ==>
          ClassifyWebSocket(f.(path := path.value, query := decoded.value)) == Ok(c))
    && (c.selection.dialect == Frameless && c.target.Standalone? ==>
          SelectorValues(decoded.value, "model") == [c.target.model])
    && (c.selection.dialect == Frameless && c.target.ExistingCall? ==>
          ParseSidebandTarget(path.value, MapOf(decoded.value)) == Some(FramelessPath(c.target.callId)))
  }

  lemma RouteNames(f: Facts, raw: Option<string>, c: ClassifiedWebSocket, url: string)
    requires Query.DecodeOrdered(raw) == Ok(f.query)
    requires ClassifyWebSocket(f) == Ok(c) && c.selection.dialect != OfficialGa && Sound(c.target)
    requires UrlPath(url) == Some(PrivateRoute(c)) && UrlQuery(url) == PrivateQueryAt(c)
    ensures NamesTarget(f, c, url)
  {
    hide ClassifyWebSocket, Query.DecodeOrdered, UrlQuery, UrlPath, Sound, PrivateQuery, SelectorValues,
         ParseSidebandTarget, MapOf, Query.Bytes, PrivateRest;
    AcceptedIsSound(f, raw, c);
    if InQuery(c) {
      QueryReads(f, c);
      ModelSelected(f, c, Query.DecodeOrdered(UrlQuery(url)).value);
      FirstRoute(c);
    } else {
      NoQuery();
      CallNamed(c);
    }
  }

  lemma FirstRoute(c: ClassifiedWebSocket)
    ensures c.selection.dialect == QuicksilverV1 ==> PrivateRoute(c) == "/v1/realtime"
  {
    assert VERSION + "realtime" == "/v1/realtime";
  }

  lemma ModelSelected(f: Facts, c: ClassifiedWebSocket, query: seq<(string, string)>)
    requires ClassifyWebSocket(f.(query := query)) == Ok(c)
    ensures c.target.Standalone? ==> SelectorValues(query, "model") == [c.target.model]
  {
    TargetExactly(f.(query := query), c.target);
    hide ClassifyWebSocket, SelectorValues;
    if c.target.Standalone? {
      OneSelector(query, "model", c.target.model);
    }
  }

  lemma CallNamed(c: ClassifiedWebSocket)
    requires Sound(c.target) && c.selection.dialect == Frameless && c.target.ExistingCall?
    ensures ParseSidebandTarget(PrivateRoute(c), MapOf([])) == Some(FramelessPath(c.target.callId))
  {
    hide ParseSidebandTarget, MapOf, ValidCallId;
    PathKept(FramelessPath(c.target.callId), MapOf([]));
  }

  lemma RouteLost(c: ClassifiedWebSocket)
    ensures "/" + PrivateRest(c) != PrivateRoute(c)
  {
    assert ("/" + PrivateRest(c))[1] == PrivateRest(c)[0];
    assert PrivateRoute(c)[1] == 'v';
  }

  /** For every private WebSocket accepted from a raw query, on a base without a path of its own, the
      upstream URL read as a request of its own names the same target, exactly unless the base is an
      origin whose host is "v1". */
  lemma PrivateUrlKeepsTarget(f: Facts, raw: Option<string>, c: ClassifiedWebSocket,
                              scheme: string, host: string, v1: bool, slashes: string, backendShape: bool)
    requires Query.DecodeOrdered(raw) == Ok(f.query)
    requires ClassifyWebSocket(f) == Ok(c) && c.selection.dialect != OfficialGa
    requires WellHosted(scheme, host) && Blank(slashes, SLASH)
    ensures !c.target.TranslationOf? && (c.target.Standalone? ==> Query.Bytes(c.target.model))
    ensures var url := PrivateWebSocketUrl(BaseOf(scheme, host, v1, slashes), backendShape, c);
            && (UrlPath(url) == Some(PrivateRoute(c)) <==> backendShape || KeepsVersion(host, v1))
            && (NamesTarget(f, c, url) <==> backendShape || KeepsVersion(host, v1))
  {
    hide ClassifyWebSocket, Query.DecodeOrdered, UrlQuery, UrlPath, Sound, PrivateRest, WellHosted, Blank,
         Query.Bytes, PrivateWebSocketUrl, PrivateRoute, KeepsVersion, BaseOf, PrivateQueryAt;
    AcceptedIsSound(f, raw, c);
    PrivatePartsAt(scheme, host, v1, slashes, backendShape, c);
    var url := PrivateWebSocketUrl(BaseOf(scheme, host, v1, slashes), backendShape, c);
    if backendShape || KeepsVersion(host, v1) {
      RouteNames(f, raw, c, url);
    }
  }

  lemma RoutePath(c: ClassifiedWebSocket)
    ensures "/" + ("v1/" + PrivateRest(c)) == PrivateRoute(c) && "/" + ("" + PrivateRest(c)) != PrivateRoute(c)
  {
    assert "/" + "v1/" == VERSION;
    Associative("/", "v1/", PrivateRest(c));
    assert "" + PrivateRest(c) == PrivateRest(c);
    RouteLost(c);
  }

  lemma PrivatePartsAt(scheme: string, host: string, v1: bool, slashes: string, backendShape: bool,
                       c: ClassifiedWebSocket)
    requires WellHosted(scheme, host) && Blank(slashes, SLASH) && c.selection.dialect != OfficialGa && Sound(c.target)
    ensures var url := PrivateWebSocketUrl(BaseOf(scheme, host, v1, slashes), backendShape, c);
            && (UrlPath(url) == Some(PrivateRoute(c)) <==> backendShape || KeepsVersion(host, v1))
            && UrlQuery(url) == PrivateQueryAt(c)
  {
    RoutePath(c);
    hide UrlQuery, UrlPath, ToWebSocketScheme, PrivateTail, PrivateRest, BaseOf, WellHosted, Origin, Blank,
         KeepsVersion, PrivateQueryAt, PrivateRoute, AllWhite, ValidCallId, Utf8.Valid;
    if backendShape {
      ApiHost();
      PrivateParts("https", "api.openai.com", true, c);
    } else {
      RootOf(scheme, host, v1, slashes);
      PrivateParts(scheme, host, KeepsVersion(host, v1), c);
    }
  }

  /** A base on which the private URL loses its version segment, and with it its target. */
  lemma PrivateHostNamedV1()
    ensures var c := ClassifiedWebSocket(ExistingCall("a"),
                                         Selection(QuicksilverV1, ExistingCallWebSocket, Opaque, Managed));
            UrlPath(PrivateWebSocketUrl("http://v1", false, c)) == Some("/realtime")
  {
    var c := ClassifiedWebSocket(ExistingCall("a"), Selection(QuicksilverV1, ExistingCallWebSocket, Opaque, Managed));
    hide UrlPath, ToWebSocketScheme, PrivateTail, ApiRoot;
    assert Origin("http", "v1") + "" + "" == "http://v1";
    RootOf("http", "v1", false, "");
    PrivateParts("http", "v1", false, c);
    assert "/" + ("" + "realtime") == "/realtime";
  }

  // ----- Official URLs -----

  lemma SuffixEnds(a: string)
    ensures EndsWith(a + "/v1", "/v1")
  {
    assert (a + "/v1")[|a|..] == "/v1";
  }

  /** On a base without a path of its own, an inbound path below "/v1" reaches the upstream's origin
      unchanged, exactly unless the base is an origin whose host is "v1"; others are refused on a
      base that ends in "/v1". */
  lemma OfficialKeepsPath(scheme: string, host: string, v1: bool, slashes: string, inbound: string)
    requires WellHosted(scheme, host) && Blank(slashes, SLASH)
    ensures "/v1" <= inbound ==>
              (OfficialUrl(BaseOf(scheme, host, v1, slashes), inbound) == Ok(Origin(scheme, host) + inbound)
               <==> KeepsVersion(host, v1))
    ensures !("/v1" <= inbound) ==>
              OfficialUrl(BaseOf(scheme, host, v1, slashes), inbound)
              == if v1 || host == "v1" then Err(OutsideV1) else Ok(Origin(scheme, host) + inbound)
  {
    TrimmedBase(scheme, host, v1, slashes);
    OriginEnd(scheme, host);
    SuffixEnds(Origin(scheme, host));
    hide Origin, WellHosted, BaseOf, TrimEnd, EndsWith, Blank;
    var origin := Origin(scheme, host);
    assert origin + "" == origin;
    if "/v1" <= inbound {
      assert inbound == "/v1" + inbound[3..];
      assert origin + "/v1" + inbound[3..] == origin + inbound;
      assert |origin + inbound[3..]| != |origin + inbound|;
    }
  }

  /** A base that loses the version segment of an official path. */
  lemma OfficialHostNamedV1()
    ensures OfficialUrl("http://v1", "/v1/realtime") == Ok("http://v1/realtime")
  {
    assert Origin("http", "v1") + "" + "" == "http://v1";
    TrimmedBase("http", "v1", false, "");
    OriginEnd("http", "v1");
    hide TrimEnd, EndsWith;
    assert "/v1/realtime"[..3] == "/v1" && "/v1/realtime"[3..] == "/realtime";
    assert "http://v1" + "/realtime" == "http://v1/realtime";
  }

  // ----- Paths and URLs as text -----

  /** The trimmed path of one written with a slash or without. */
  lemma TrailingSlash(body: string)
    requires body != "" && body[|body| - 1] != '/'
    ensures StripSuffix(body, "/").GetOr(body) == body
    ensures StripSuffix(body + "/", "/").GetOr(body + "/") == body
  {
    assert (body + "/")[|body|..] == "/" && (body + "/")[..|body|] == body;
    assert body[|body| - 1..][0] == body[|body| - 1];
  }

  /** A path below a route, ending in a slash or not. */
  predicate BelowRoute(path: string, route: string, raw: string) {
    path == route + raw || path == route + raw + "/"
  }

  lemma LastOfSpelling(raw: string, id: string)
    requires Percent.Spells(raw, id) && ValidCallId(id)
    ensures raw != "" && Lacks(raw, '/')
  {
    IdIsValidUtf8(id);
    SpellingLacksSlash(raw, id);
  }

  lemma RestRead(path: string, route: string) returns (raw: string)
    requires StripPrefix(StripSuffix(path, "/").GetOr(path), route).Some?
    ensures raw == StripPrefix(StripSuffix(path, "/").GetOr(path), route).value
    ensures BelowRoute(path, route, raw)
  {
    var trimmed := StripSuffix(path, "/").GetOr(path);
    raw := trimmed[|route|..];
    assert trimmed == route + raw;
    if trimmed != path {
      assert path == trimmed + path[|path| - 1..];
    }
  }

  lemma RestWritten(path: string, route: string, raw: string)
    requires BelowRoute(path, route, raw) && raw != "" && Lacks(raw, '/')
    ensures StripSuffix(path, "/").GetOr(path) == route + raw
    ensures StripPrefix(route + raw, route) == Some(raw)
  {
    assert (route + raw)[|route + raw| - 1] == raw[|raw| - 1];
    TrailingSlash(route + raw);
    assert (route + raw)[|route|..] == raw;
  }

  lemma SegmentExactly(rest: string, id: string)
    ensures SegmentId(rest) == Some(id) <==> Percent.Spells(rest, id) && ValidCallId(id)
  {
    ParsesItsSpellings(rest, id);
    hide LenientCallId, ValidCallId, Percent.Spells;
    if Percent.Spells(rest, id) && ValidCallId(id) {
      LastOfSpelling(rest, id);
    }
  }

  lemma RoutesApart(raw: string)
    ensures StripPrefix(CALLS_BELOW + raw, LIVE).None? && StripPrefix(REALTIME, LIVE).None?
    ensures StripPrefix(REALTIME, CALLS_BELOW).None?
  {
    RoutesDiffer(raw);
  }

  /** A sideband path is accepted for a call exactly when it is a spelling of the call's id below one of the
      two routes, or the bare path with the id in the query; a trailing slash makes no difference. */
  lemma SidebandPathsExactly(path: string, query: map<string, string>, id: string)
    ensures ParseSidebandTarget(path, query) == Some(FramelessPath(id))
            <==> exists raw :: BelowRoute(path, "/v1/live/", raw) && Percent.Spells(raw, id) && ValidCallId(id)
    ensures ParseSidebandTarget(path, query) == Some(RealtimeCallsPath(id))
            <==> exists raw ::
                   BelowRoute(path, "/v1/realtime/calls/", raw) && Percent.Spells(raw, id) && ValidCallId(id)
    ensures ParseSidebandTarget(path, query) == Some(RealtimeQuery(id))
            <==> (path == "/v1/realtime" || path == "/v1/realtime/")
                 && "call_id" in query && query["call_id"] == id && ValidCallId(id)
  {
    RouteTexts();
    LiveExactly(path, query, id);
    CallsExactly(path, query, id);
    QueryExactly(path, query, id);
  }

  lemma RouteTexts()
    ensures LIVE == "/v1/live/" && CALLS_BELOW == "/v1/realtime/calls/" && REALTIME == "/v1/realtime"
  {
  }

  lemma LiveExactly(path: string, query: map<string, string>, id: string)
    ensures ParseSidebandTarget(path, query) == Some(FramelessPath(id))
            <==> exists raw :: BelowRoute(path, LIVE, raw) && Percent.Spells(raw, id) && ValidCallId(id)
  {
    hide SegmentId, ValidCallId, Percent.Spells, StripPrefix, StripSuffix, BelowRoute;
    if ParseSidebandTarget(path, query) == Some(FramelessPath(id)) {
      var raw := RestRead(path, LIVE);
      SegmentExactly(raw, id);
    }
    forall raw | BelowRoute(path, LIVE, raw) && Percent.Spells(raw, id) && ValidCallId(id)
      ensures ParseSidebandTarget(path, query) == Some(FramelessPath(id))
    {
      LastOfSpelling(raw, id);
      RestWritten(path, LIVE, raw);
      SegmentExactly(raw, id);
    }
  }

  lemma CallsExactly(path: string, query: map<string, string>, id: string)
    ensures ParseSidebandTarget(path, query) == Some(RealtimeCallsPath(id))
            <==> exists raw :: BelowRoute(path, CALLS_BELOW, raw) && Percent.Spells(raw, id) && ValidCallId(id)
  {
    hide SegmentId, ValidCallId, Percent.Spells, StripPrefix, StripSuffix, BelowRoute;
    if ParseSidebandTarget(path, query) == Some(RealtimeCallsPath(id)) {
      var raw := RestRead(path, CALLS_BELOW);
      SegmentExactly(raw, id);
    }
    forall raw | BelowRoute(path, CALLS_BELOW, raw) && Percent.Spells(raw, id) && ValidCallId(id)
      ensures ParseSidebandTarget(path, query) == Some(RealtimeCallsPath(id))
    {
      LastOfSpelling(raw, id);
      RestWritten(path, CALLS_BELOW, raw);
      SegmentExactly(raw, id);
      RoutesApart(raw);
    }
  }

  lemma QueryExactly(path: string, query: map<string, string>, id: string)
    ensures ParseSidebandTarget(path, query) == Some(RealtimeQuery(id))
            <==> (path == REALTIME || path == REALTIME + "/")
                 && "call_id" in query && query["call_id"] == id && ValidCallId(id)
  {
    RoutesApart("");
    assert REALTIME[11] == 'e' && |REALTIME| == 12;
    TrailingSlash(REALTIME);
    var trimmed := StripSuffix(path, "/").GetOr(path);
    assert trimmed != path ==> path == trimmed + path[|path| - 1..];
    hide SegmentId, ValidCallId, StripPrefix, StripSuffix;
  }

  /** The schemes of the switch, written out. */
  lemma SchemesText()
    ensures WsScheme("https") == "wss" && WsScheme("http") == "ws"
    ensures forall scheme :: scheme != "https" && scheme != "http" ==> WsScheme(scheme) == scheme
  {
    assert |"https"| == 5 && |"http"| == 4;
  }

  /** The text of every private URL, behind the scheme, the host and the version segment. */
  lemma PrivateTailText(c: ClassifiedWebSocket)
    requires c.selection.dialect != OfficialGa && !c.target.TranslationOf?
    requires c.target.Standalone? ==> Query.Bytes(c.target.model)
    ensures PrivateTail(c)
            == match c.target
               case Standalone(model) =>
                 (if c.selection.dialect == QuicksilverV1 then "/realtime?intent=quicksilver&model="
                  else "/live?model=")
                 + Query.Encode(model)
               case ExistingCall(id) =>
                 (if c.selection.dialect == QuicksilverV1 then "/realtime?intent=quicksilver&call_id="
                  else "/live/") + id
               case TranslationOf(_) => ""
  {
    hide Query.Encode;
    match c.target
    case Standalone(model) =>
      if c.selection.dialect == QuicksilverV1 {
        MarkedText("model", Query.Encode(model));
        assert "/realtime?intent=quicksilver&" + "model" + "=" == "/realtime?intent=quicksilver&model=";
      } else {
        assert "/live" + "?" + "model" + "=" == "/live?model=";
        Glued("/live", "?", "model", "=", Query.Encode(model));
      }
    case ExistingCall(id) =>
      if c.selection.dialect == QuicksilverV1 {
        MarkedText("call_id", id);
        assert "/realtime?intent=quicksilver&" + "call_id" + "=" == "/realtime?intent=quicksilver&call_id=";
      }
    case TranslationOf(_) =>
  }

  lemma Glued(a: string, b: string, c: string, d: string, e: string)
    ensures a + b + (c + d + e) == (a + b + c + d) + e
  {
  }

  lemma MarkerText()
    ensures "/realtime" + "?" + MARKER + "&" == "/realtime?intent=quicksilver&"
  {
  }

  lemma MarkedText(key: string, value: string)
    ensures "/realtime" + "?" + (MARKER + "&" + Assign(key, value))
            == "/realtime?intent=quicksilver&" + key + "=" + value
  {
    MarkerText();
    Glued("/realtime", "?", MARKER, "&", Assign(key, value));
    assert "/realtime" + "?" + (MARKER + "&" + Assign(key, value))
           == ("/realtime" + "?" + MARKER + "&") + Assign(key, value);
  }

  lemma SidebandTailText(target: SidebandTarget)
    ensures SidebandTail(target)
            == match target
               case FramelessPath(id) => "/live/" + id
               case RealtimeCallsPath(id) => "/realtime/calls/" + id
               case RealtimeQuery(id) => "/realtime?intent=quicksilver&call_id=" + id
  {
    if target.RealtimeQuery? {
      MarkedText("call_id", target.callId);
      assert "/realtime?intent=quicksilver&" + "call_id" + "=" == "/realtime?intent=quicksilver&call_id=";
    }
  }

  /** The root of every URL built: the base's own origin and version, or the API's. */
  lemma RootText(scheme: string, host: string, v1: bool, slashes: string, backendShape: bool, tail: string)
    requires WellHosted(scheme, host) && Blank(slashes, SLASH)
    ensures ToWebSocketScheme(ApiRoot(BaseOf(scheme, host, v1, slashes), backendShape) + tail)
            == (if backendShape then "wss://api.openai.com/v1"
                else WsScheme(scheme) + "://" + host + (if KeepsVersion(host, v1) then "/v1" else "")) + tail
  {
    hide ToWebSocketScheme, WsScheme, BaseOf, Blank, KeepsVersion;
    if backendShape {
      SchemesText();
      ApiHost();
      RootGlued("https", "api.openai.com", "/v1", tail);
      WsOf("https", "api.openai.com" + "/v1" + tail);
      assert "wss" + "://" + ("api.openai.com" + "/v1" + tail) == "wss" + "://" + "api.openai.com" + "/v1" + tail;
      assert "wss" + "://" + "api.openai.com" + "/v1" == "wss://api.openai.com/v1";
    } else {
      RootOf(scheme, host, v1, slashes);
      var version := if KeepsVersion(host, v1) then "/v1" else "";
      RootGlued(scheme, host, version, tail);
      WsOf(scheme, host + version + tail);
      assert WsScheme(scheme) + "://" + (host + version + tail) == WsScheme(scheme) + "://" + host + version + tail;
    }
  }

  lemma RootGlued(scheme: string, host: string, version: string, tail: string)
    ensures Origin(scheme, host) + version + tail == scheme + "://" + (host + version + tail)
  {
  }
}
