/** The canonicalizer of the Sec-WebSocket-Protocol fields (src/realtime/subprotocol.rs) and its use
    on the downstream headers (src/realtime/websocket.rs). */
module Subprotocol {
  import opened Common
  import opened Text

  const REALTIME := "realtime"
  const CREDENTIAL_PREFIX := "openai-insecure-api-key."
  const ORGANIZATION_PREFIX := "openai-organization."
  const PROJECT_PREFIX := "openai-project."
  const MAX_TOKEN: nat := 4096
  const MAX_AGGREGATE: nat := 8192

  datatype Error = InvalidRealtimeSubprotocol | AdmissionSecretNotForwardable | UpstreamWebSocketProtocol

  datatype Protocols = Protocols(offered: seq<string>, upstreamHeader: Option<string>,
                                 browserCredential: Option<string>, hasOrganization: bool, hasProject: bool)

  // ----- The tokens -----

  datatype Class = Realtime | Credential | Organization | Project

  /** The class of a token: a prefix needs something after it. */
  function ClassOf(token: string): Option<Class> {
    if token == REALTIME then Some(Realtime)
    else if CREDENTIAL_PREFIX <= token then (if token == CREDENTIAL_PREFIX then None else Some(Credential))
    else if ORGANIZATION_PREFIX <= token then (if token == ORGANIZATION_PREFIX then None else Some(Organization))
    else if PROJECT_PREFIX <= token then (if token == PROJECT_PREFIX then None else Some(Project))
    else None
  }

  function SecretOf(token: string): Option<string> {
    if ClassOf(token) == Some(Credential) then Some(token[|CREDENTIAL_PREFIX|..]) else None
  }

  predicate Offers(offered: seq<string>, kind: Class) {
    exists t :: t in offered && ClassOf(t) == Some(kind)
  }

  /** `HeaderValue::to_str`: visible ASCII and tabs. */
  predicate Readable(field: string) {
    forall i :: 0 <= i < |field| ==> ' ' <= field[i] <= '~' || field[i] == '\t'
  }

  function TrimAll(pieces: seq<string>): (r: seq<string>)
    ensures |r| == |pieces| && forall i :: 0 <= i < |r| ==> r[i] == Trim(pieces[i], SPACE_TAB)
  {
    if pieces == [] then [] else [Trim(pieces[0], SPACE_TAB)] + TrimAll(pieces[1..])
  }

  /** The tokens of one field, and of all of them. */
  function Pieces(field: string): (r: seq<string>)
    ensures r != []
  {
    TrimAll(Split(field, ','))
  }

  function AllPieces(fields: seq<string>): seq<string> {
    if fields == [] then [] else Pieces(fields[0]) + AllPieces(fields[1..])
  }

  function TotalBytes(fields: seq<string>): nat {
    if fields == [] then 0 else |fields[0]| + TotalBytes(fields[1..])
  }

  /** The bytes of the canonical header: the tokens, and two for each ", ". */
  function CanonicalLength(offered: seq<string>): nat {
    if offered == [] then 0
    else if |offered| == 1 then |offered[0]|
    else |offered[0]| + 2 + CanonicalLength(offered[1..])
  }

  // ----- Parsing, token after token -----

  /** Why a token cannot follow those offered. */
  function Fault(offered: seq<string>, token: string, admission: Option<string>): Option<Error> {
    if |token| > MAX_TOKEN || !IsToken(token) || token in offered then Some(InvalidRealtimeSubprotocol)
    else match ClassOf(token)
      case None => Some(InvalidRealtimeSubprotocol)
      case Some(kind) =>
        if Offers(offered, kind) then Some(InvalidRealtimeSubprotocol)
        else if admission.Some? && SecretOf(token) == admission then Some(AdmissionSecretNotForwardable)
        else None
  }

  function OfferAll(offered: seq<string>, tokens: seq<string>, admission: Option<string>): Result<seq<string>, Error>
    decreases |tokens|
  {
    if tokens == [] then Ok(offered)
    else match Fault(offered, tokens[0], admission)
      case Some(e) => Err(e)
      case None => OfferAll(offered + [tokens[0]], tokens[1..], admission)
  }

  function OfferFields(offered: seq<string>, bytes: nat, fields: seq<string>,
                       admission: Option<string>): Result<seq<string>, Error>
    decreases |fields|
  {
    if fields == [] then Ok(offered)
    else if !Readable(fields[0]) || bytes + |fields[0]| > MAX_AGGREGATE then Err(InvalidRealtimeSubprotocol)
    else match OfferAll(offered, Pieces(fields[0]), admission)
      case Err(e) => Err(e)
      case Ok(o) => OfferFields(o, bytes + |fields[0]|, fields[1..], admission)
  }

  /** The secret of the credential offered, if there is one. */
  function OfferedSecret(offered: seq<string>): Option<string> {
    if offered == [] then None
    else if ClassOf(offered[0]) == Some(Credential) then SecretOf(offered[0])
    else OfferedSecret(offered[1..])
  }

  function ProtocolsOf(offered: seq<string>): Protocols {
    Protocols(offered, if offered == [] then None else Some(Join(offered, ", ")),
              OfferedSecret(offered), Offers(offered, Organization), Offers(offered, Project))
  }

  /** The other classes need "realtime". */
  predicate Anchored(offered: seq<string>) {
    Offers(offered, Credential) || Offers(offered, Organization) || Offers(offered, Project)
    ==> Offers(offered, Realtime)
  }

  function Parse(fields: seq<string>, admission: Option<string>): Result<Protocols, Error> {
    match OfferFields([], 0, fields, admission)
    case Err(e) => Err(e)
    case Ok(offered) =>
      if !Anchored(offered) || CanonicalLength(offered) > MAX_AGGREGATE then Err(InvalidRealtimeSubprotocol)
      else Ok(ProtocolsOf(offered))
  }

  // ----- The loops -----

  /** The flags the loops keep, for the tokens offered so far. */
  datatype Seen = Seen(realtime: bool, credential: Option<string>, organization: bool, project: bool)

  predicate Tracks(seen: Seen, offered: seq<string>) {
    && seen.realtime == Offers(offered, Realtime)
    && seen.credential == OfferedSecret(offered)
    && seen.organization == Offers(offered, Organization)
    && seen.project == Offers(offered, Project)
  }

  lemma OffersSnoc(offered: seq<string>, token: string, kind: Class)
    ensures Offers(offered + [token], kind) <==> Offers(offered, kind) || ClassOf(token) == Some(kind)
  {
    hide ClassOf;
    var more := offered + [token];
    if Offers(offered, kind) {
      var t :| t in offered && ClassOf(t) == Some(kind);
      assert t in more;
    }
    assert token in more;
  }

  lemma {:induction false} SecretSnoc(offered: seq<string>, token: string)
    ensures OfferedSecret(offered + [token])
            == if OfferedSecret(offered).Some? then OfferedSecret(offered) else SecretOf(token)
    ensures OfferedSecret(offered).Some? <==> Offers(offered, Credential)
    decreases |offered|
  {
    hide ClassOf;
    var more := offered + [token];
    if offered == [] {
      assert more == [token] && [token][1..] == [];
    } else {
      assert more[1..] == offered[1..] + [token];
      SecretSnoc(offered[1..], token);
      assert offered == [offered[0]] + offered[1..];
      if Offers(offered, Credential) {
        var t :| t in offered && ClassOf(t) == Some(Credential);
        assert t == offered[0] || t in offered[1..];
      }
    }
  }

  /** One pass of the inner loop. */
  method OfferToken(seen: Seen, offered: seq<string>, token: string, admission: Option<string>)
      returns (r: Result<Seen, Error>)
    requires Tracks(seen, offered)
    ensures Fault(offered, token, admission).Some? ==> r == Err(Fault(offered, token, admission).value)
    ensures Fault(offered, token, admission).None? ==> r.Ok? && Tracks(r.value, offered + [token])
  {
    hide Offers, OfferedSecret, IsToken;
    forall kind { OffersSnoc(offered, token, kind); }
    SecretSnoc(offered, token);
    if token == "" || |token| > MAX_TOKEN || !IsToken(token) || token in offered {
      return Err(InvalidRealtimeSubprotocol);
    }
    if token == REALTIME {
      if seen.realtime {
        return Err(InvalidRealtimeSubprotocol);
      }
      return Ok(seen.(realtime := true));
    }
    var suffix := StripPrefix(token, CREDENTIAL_PREFIX);
    if suffix.Some? {
      if suffix.value == "" || seen.credential.Some? {
        return Err(InvalidRealtimeSubprotocol);
      }
      if admission == suffix {
        return Err(AdmissionSecretNotForwardable);
      }
      return Ok(seen.(credential := suffix));
    }
    suffix := StripPrefix(token, ORGANIZATION_PREFIX);
    if suffix.Some? {
      if suffix.value == "" || seen.organization {
        return Err(InvalidRealtimeSubprotocol);
      }
      return Ok(seen.(organization := true));
    }
    suffix := StripPrefix(token, PROJECT_PREFIX);
    if suffix.Some? {
      if suffix.value == "" || seen.project {
        return Err(InvalidRealtimeSubprotocol);
      }
      return Ok(seen.(project := true));
    }
    return Err(InvalidRealtimeSubprotocol);
  }

  method ComputeParse(fields: seq<string>, admission: Option<string>) returns (r: Result<Protocols, Error>)
    ensures r == Parse(fields, admission)
  {
    hide Fault, ClassOf, Split, Trim, Offers, Readable, Join;
    var offered: seq<string> := [];
    var aggregate: nat := 0;
    var seen := Seen(false, None, false, false);
    NothingTracked();
    var i := 0;
    while i < |fields|
      invariant 0 <= i <= |fields| && Tracks(seen, offered)
      invariant OfferFields([], 0, fields, admission) == OfferFields(offered, aggregate, fields[i..], admission)
    {
      var raw := fields[i];
      assert fields[i..][1..] == fields[i + 1..];
      if !Readable(raw) {
        return Err(InvalidRealtimeSubprotocol);
      }
      aggregate := aggregate + |raw|;
      if aggregate > MAX_AGGREGATE {
        return Err(InvalidRealtimeSubprotocol);
      }
      var pieces := Split(raw, ',');
      ghost var before := offered;
      var j := 0;
      while j < |pieces|
        invariant 0 <= j <= |pieces| && Tracks(seen, offered)
        invariant OfferAll(before, Pieces(raw), admission) == OfferAll(offered, Pieces(raw)[j..], admission)
      {
        var token := Trim(pieces[j], SPACE_TAB);
        assert Pieces(raw)[j..][0] == token && Pieces(raw)[j..][1..] == Pieces(raw)[j + 1..];
        var next := OfferToken(seen, offered, token, admission);
        if next.Err? {
          return Err(next.error);
        }
        seen := next.value;
        offered := offered + [token];
        j := j + 1;
      }
      i := i + 1;
    }
    if (seen.credential.Some? || seen.organization || seen.project) && !seen.realtime {
      SecretSnoc(offered, "");
      return Err(InvalidRealtimeSubprotocol);
    }
    SecretSnoc(offered, "");
    var length := MeasureCanonical(offered);
    if length > MAX_AGGREGATE {
      return Err(InvalidRealtimeSubprotocol);
    }
    return Ok(Protocols(offered, if offered == [] then None else Some(Join(offered, ", ")),
                        seen.credential, seen.organization, seen.project));
  }

  lemma NothingTracked()
    ensures Tracks(Seen(false, None, false, false), [])
  {
  }

  /** The fold over the enumerated tokens: two bytes before every token but the first. */
  method MeasureCanonical(offered: seq<string>) returns (length: nat)
    ensures length == CanonicalLength(offered)
  {
    length := 0;
    for index := 0 to |offered|
      invariant length == CanonicalLength(offered[..index])
    {
      assert offered[..index + 1] == offered[..index] + [offered[index]];
      CanonicalSnoc(offered[..index], offered[index]);
      length := length + (if index != 0 then 2 else 0) + |offered[index]|;
    }
    assert offered[..|offered|] == offered;
  }

  lemma {:induction false} CanonicalSnoc(offered: seq<string>, token: string)
    ensures CanonicalLength(offered + [token])
            == CanonicalLength(offered) + (if offered == [] then 0 else 2) + |token|
    decreases |offered|
  {
    if offered == [] {
      assert offered + [token] == [token];
    } else {
      assert (offered + [token])[1..] == offered[1..] + [token];
      CanonicalSnoc(offered[1..], token);
    }
  }

  // ----- What is accepted -----

  /** An offer that is fine as a whole. */
  predicate WellOffered(offered: seq<string>, admission: Option<string>) {
    && (forall i :: 0 <= i < |offered| ==>
          |offered[i]| <= MAX_TOKEN && IsToken(offered[i]) && ClassOf(offered[i]).Some?
          && (admission.Some? ==> SecretOf(offered[i]) != admission))
    && (forall i, j :: 0 <= i < j < |offered| ==> ClassOf(offered[i]) != ClassOf(offered[j]))
  }

  lemma FaultNone(offered: seq<string>, token: string, admission: Option<string>)
    requires WellOffered(offered, admission)
    ensures Fault(offered, token, admission).None? <==> WellOffered(offered + [token], admission)
  {
    hide IsToken, ClassOf, SecretOf;
    var more := offered + [token];
    assert more[|offered|] == token;
    assert forall i :: 0 <= i < |offered| ==> more[i] == offered[i];
    if Fault(offered, token, admission).None? {
      forall i | 0 <= i < |offered| ensures ClassOf(more[i]) != ClassOf(more[|offered|]) {
        assert offered[i] in offered;
      }
    }
    if WellOffered(more, admission) {
      assert forall t :: t in offered ==> exists i :: 0 <= i < |offered| && more[i] == t;
      assert ClassOf(more[|offered|]).Some? && |more[|offered|]| <= MAX_TOKEN && IsToken(more[|offered|]);
    }
  }

  lemma {:induction false} OfferAllExactly(offered: seq<string>, tokens: seq<string>, admission: Option<string>)
    requires WellOffered(offered, admission)
    ensures OfferAll(offered, tokens, admission).Ok? <==> WellOffered(offered + tokens, admission)
    ensures OfferAll(offered, tokens, admission).Ok? ==> OfferAll(offered, tokens, admission).value == offered + tokens
    decreases |tokens|
  {
    if tokens == [] {
      assert offered + tokens == offered;
    } else {
      var next := offered + [tokens[0]];
      assert next + tokens[1..] == offered + tokens;
      FaultNone(offered, tokens[0], admission);
      if Fault(offered, tokens[0], admission).None? {
        OfferAllExactly(next, tokens[1..], admission);
      } else if WellOffered(offered + tokens, admission) {
        PrefixWellOffered(next, tokens[1..], admission);
      }
    }
  }

  lemma PrefixWellOffered(a: seq<string>, b: seq<string>, admission: Option<string>)
    requires WellOffered(a + b, admission)
    ensures WellOffered(a, admission)
  {
    hide IsToken, ClassOf, SecretOf;
    assert forall i :: 0 <= i < |a| ==> (a + b)[i] == a[i];
  }

  predicate AllReadable(fields: seq<string>) {
    forall i :: 0 <= i < |fields| ==> Readable(fields[i])
  }

  lemma {:induction false} OfferFieldsExactly(offered: seq<string>, bytes: nat, fields: seq<string>,
                                              admission: Option<string>)
    requires WellOffered(offered, admission) && bytes <= MAX_AGGREGATE
    ensures OfferFields(offered, bytes, fields, admission).Ok?
            <==> AllReadable(fields) && bytes + TotalBytes(fields) <= MAX_AGGREGATE
                 && WellOffered(offered + AllPieces(fields), admission)
    ensures OfferFields(offered, bytes, fields, admission).Ok?
            ==> OfferFields(offered, bytes, fields, admission).value == offered + AllPieces(fields)
    decreases |fields|
  {
    hide Readable, WellOffered, OfferAll, Pieces;
    if fields == [] {
      assert offered + AllPieces(fields) == offered;
    } else {
      var pieces := Pieces(fields[0]);
      var next := offered + pieces;
      assert next + AllPieces(fields[1..]) == offered + AllPieces(fields);
      OfferAllExactly(offered, pieces, admission);
      assert fields == [fields[0]] + fields[1..];
      if Readable(fields[0]) && bytes + |fields[0]| <= MAX_AGGREGATE && WellOffered(next, admission) {
        OfferFieldsExactly(next, bytes + |fields[0]|, fields[1..], admission);
      } else if WellOffered(offered + AllPieces(fields), admission) {
        PrefixWellOffered(next, AllPieces(fields[1..]), admission);
      }
    }
  }

  /** Parsing accepts exactly the fields of visible characters, of at most 8192 bytes together, whose
      trimmed tokens in wire order have at most one of each class, no unknown one, none that carries
      the admission secret, "realtime" with any other class, and a canonical header within the bound. */
  lemma ParseExactly(fields: seq<string>, admission: Option<string>)
    ensures Parse(fields, admission).Ok?
            <==> && AllReadable(fields) && TotalBytes(fields) <= MAX_AGGREGATE
                 && WellOffered(AllPieces(fields), admission)
                 && Anchored(AllPieces(fields))
                 && CanonicalLength(AllPieces(fields)) <= MAX_AGGREGATE
    ensures Parse(fields, admission).Ok? ==> Parse(fields, admission).value == ProtocolsOf(AllPieces(fields))
  {
    hide OfferFields, WellOffered, AllReadable, Anchored, TotalBytes, CanonicalLength, AllPieces, ProtocolsOf;
    NothingOffered(admission);
    OfferFieldsExactly([], 0, fields, admission);
    assert [] + AllPieces(fields) == AllPieces(fields);
  }

  lemma {:induction false} SecretBlamed(offered: seq<string>, tokens: seq<string>, admission: Option<string>)
    requires OfferAll(offered, tokens, admission) == Err(AdmissionSecretNotForwardable)
    ensures admission.Some? && exists t :: t in tokens && SecretOf(t) == admission
    decreases |tokens|
  {
    hide ClassOf, SecretOf;
    if Fault(offered, tokens[0], admission).None? {
      SecretBlamed(offered + [tokens[0]], tokens[1..], admission);
    } else {
      assert tokens[0] in tokens && SecretOf(tokens[0]) == admission;
    }
  }

  lemma {:induction false} FieldsBlamed(offered: seq<string>, bytes: nat, fields: seq<string>,
                                        admission: Option<string>)
    requires OfferFields(offered, bytes, fields, admission) == Err(AdmissionSecretNotForwardable)
    ensures admission.Some? && exists t :: t in AllPieces(fields) && SecretOf(t) == admission
    decreases |fields|
  {
    hide Readable, Pieces, SecretOf;
    match OfferAll(offered, Pieces(fields[0]), admission)
    case Err(e) => SecretBlamed(offered, Pieces(fields[0]), admission);
    case Ok(o) => FieldsBlamed(o, bytes + |fields[0]|, fields[1..], admission);
  }

  /** A token with the admission secret is never accepted, and the error that names the secret comes
      only from one. */
  lemma SecretNeverForwarded(fields: seq<string>, secret: string)
    ensures Parse(fields, Some(secret)) == Err(AdmissionSecretNotForwardable)
            ==> exists t :: t in AllPieces(fields) && SecretOf(t) == Some(secret)
    ensures (exists t :: t in AllPieces(fields) && SecretOf(t) == Some(secret)) ==> Parse(fields, Some(secret)).Err?
    ensures Parse(fields, None) != Err(AdmissionSecretNotForwardable)
  {
    hide SecretOf, AllPieces, OfferFields;
    ParseExactly(fields, Some(secret));
    if OfferFields([], 0, fields, Some(secret)) == Err(AdmissionSecretNotForwardable) {
      FieldsBlamed([], 0, fields, Some(secret));
    }
    if OfferFields([], 0, fields, None) == Err(AdmissionSecretNotForwardable) {
      FieldsBlamed([], 0, fields, None);
      assert false;
    }
  }

  lemma NothingOffered(admission: Option<string>)
    ensures WellOffered([], admission)
  {
  }

  /** Every accepted offer has at most four tokens, all different, one a class. */
  lemma OfferIsSmall(fields: seq<string>, admission: Option<string>)
    requires Parse(fields, admission).Ok?
    ensures var offered := Parse(fields, admission).value.offered;
            && |offered| <= 4
            && (forall i, j :: 0 <= i < j < |offered| ==>
                  offered[i] != offered[j] && ClassOf(offered[i]) != ClassOf(offered[j]))
            && (offered != [] ==> REALTIME in offered)
  {
    ParseExactly(fields, admission);
    var offered := AllPieces(fields);
    hide ClassOf;
    if |offered| > 4 {
      FiveClassesClash(ClassOf(offered[0]).value, ClassOf(offered[1]).value, ClassOf(offered[2]).value,
                       ClassOf(offered[3]).value, ClassOf(offered[4]).value);
      assert false;
    }
    if offered != [] {
      var kind := ClassOf(offered[0]).value;
      assert offered[0] in offered && ClassOf(offered[0]) == Some(kind);
      AnchoredOffers(offered, kind);
      var t :| t in offered && ClassOf(t) == Some(Realtime);
      OnlyRealtime(t);
    }
  }

  lemma AnchoredOffers(offered: seq<string>, kind: Class)
    requires Anchored(offered) && Offers(offered, kind)
    ensures Offers(offered, Realtime)
  {
    match kind
    case Realtime =>
    case Credential =>
    case Organization =>
    case Project =>
  }

  lemma OnlyRealtime(t: string)
    ensures ClassOf(t) == Some(Realtime) <==> t == REALTIME
  {
  }

  lemma FiveClassesClash(a: Class, b: Class, c: Class, d: Class, e: Class)
    ensures a == b || a == c || a == d || a == e || b == c || b == d || b == e || c == d || c == e || d == e
  {
  }

  // ----- Canonical headers -----

  /** Trimming what ", " leaves between the tokens. */
  lemma {:induction false} PiecesOfJoin(offered: seq<string>)
    requires offered != [] && forall i :: 0 <= i < |offered| ==> IsToken(offered[i])
    ensures Pieces(Join(offered, ", ")) == offered
    ensures Readable(Join(offered, ", ")) && |Join(offered, ", ")| == CanonicalLength(offered)
    decreases |offered|
  {
    TokenIsPlain(offered[0]);
    hide IsToken, Readable, Trim;
    if |offered| == 1 {
      SplitNone(offered[0], ',');
      assert Pieces(offered[0]) == [offered[0]];
    } else {
      PiecesOfJoin(offered[1..]);
      var rest := Join(offered[1..], ", ");
      assert offered[0] + ", " + rest == offered[0] + "," + (" " + rest);
      SplitAt(offered[0], ',', " " + rest);
      SpaceBefore(rest);
      assert Pieces(offered[0] + "," + (" " + rest)) == [offered[0]] + Pieces(" " + rest);
      ReadableJoin(offered[0], rest);
    }
  }

  lemma TokenIsPlain(token: string)
    requires IsToken(token)
    ensures Lacks(token, ',') && Readable(token) && Trim(token, SPACE_TAB) == token
  {
    TrimPadded("", token, "", SPACE_TAB);
    assert "" + token + "" == token;
  }

  lemma ReadableJoin(a: string, b: string)
    requires Readable(a) && Readable(b)
    ensures Readable(a + ", " + b)
  {
  }

  /** A space in front of a field changes none of its tokens. */
  lemma SpaceBefore(s: string)
    ensures Pieces(" " + s) == Pieces(s)
  {
    assert (" " + s)[1..] == s;
    var parts := Split(s, ',');
    assert Split(" " + s, ',') == [" " + parts[0]] + parts[1..];
    TrimStartDrops(" ", parts[0], SPACE_TAB);
    assert TrimAll([" " + parts[0]] + parts[1..]) == TrimAll(parts);
  }

  lemma OneField(header: string)
    ensures AllPieces([header]) == Pieces(header) && TotalBytes([header]) == |header|
    ensures AllReadable([header]) <==> Readable(header)
  {
    assert [header][1..] == [] && Pieces(header) + [] == Pieces(header);
    assert AllReadable([header]) ==> Readable([header][0]);
  }

  /** Parsing is idempotent: the canonical header of an accepted offer is accepted, and yields the same
      tokens in the same order, the same credential and the same flags. */
  lemma CanonicalIsFixed(fields: seq<string>, admission: Option<string>)
    requires Parse(fields, admission).Ok? && Parse(fields, admission).value.offered != []
    ensures Parse(fields, admission).value.upstreamHeader.Some?
    ensures Parse([Parse(fields, admission).value.upstreamHeader.value], admission) == Parse(fields, admission)
  {
    ParseExactly(fields, admission);
    var offered := AllPieces(fields);
    var header := Join(offered, ", ");
    PiecesOfJoin(offered);
    OneField(header);
    hide Anchored, WellOffered, AllReadable, AllPieces, Parse;
    ParseExactly([header], admission);
  }

  /** Nothing is offered exactly when there is no field. */
  lemma NothingOfferedExactly(fields: seq<string>, admission: Option<string>)
    ensures Parse([], admission) == Ok(ProtocolsOf([]))
    ensures Parse(fields, admission).Ok? ==> (Parse(fields, admission).value.offered == [] <==> fields == [])
  {
    ParseExactly(fields, admission);
    ParseExactly([], admission);
    NothingOffered(admission);
    if fields != [] {
      assert Pieces(fields[0]) + AllPieces(fields[1..]) != [];
    }
  }

  // ----- The header map -----

  const PROTOCOL := "sec-websocket-protocol"

  function ValuesOf(entries: seq<(string, string)>, name: string): seq<string> {
    if entries == [] then []
    else (if entries[0].0 == name then [entries[0].1] else []) + ValuesOf(entries[1..], name)
  }

  function Without(entries: seq<(string, string)>, name: string): seq<(string, string)> {
    if entries == [] then []
    else (if entries[0].0 == name then [] else [entries[0]]) + Without(entries[1..], name)
  }

  lemma WithoutAt(entries: seq<(string, string)>, i: nat, name: string)
    requires i < |entries|
    ensures entries[i].0 == name ==> Without(entries[i..], name) == Without(entries[i + 1..], name)
    ensures entries[i].0 != name ==> Without(entries[i..], name) == [entries[i]] + Without(entries[i + 1..], name)
  {
    assert entries[i..][1..] == entries[i + 1..] && entries[i..][0] == entries[i];
    assert [] + Without(entries[i + 1..], name) == Without(entries[i + 1..], name);
  }

  lemma WithoutStarts(entries: seq<(string, string)>, name: string)
    ensures [] + Without(entries[0..], name) == Without(entries, name)
  {
    assert entries[0..] == entries;
  }

  lemma WithoutEnds(entries: seq<(string, string)>, kept: seq<(string, string)>, name: string)
    requires kept + Without(entries[|entries|..], name) == Without(entries, name)
    ensures kept == Without(entries, name)
  {
    assert entries[|entries|..] == [];
  }

  class HeaderMap {
    var entries: seq<(string, string)>

    constructor (entries: seq<(string, string)>)
      ensures this.entries == entries
    {
      this.entries := entries;
    }

    /** The values of a name, in order. */
    function GetAll(name: string): seq<string>
      reads this
    {
      ValuesOf(entries, name)
    }

    method Remove(name: string)
      modifies this
      ensures entries == Without(old(entries), name)
    {
      hide Without;
      var kept: seq<(string, string)> := [];
      WithoutStarts(entries, name);
      for i := 0 to |entries|
        invariant entries == old(entries)
        invariant kept + Without(entries[i..], name) == Without(entries, name)
      {
        WithoutAt(entries, i, name);
        if entries[i].0 != name {
          Associative(kept, [entries[i]], Without(entries[i + 1..], name));
          kept := kept + [entries[i]];
        }
      }
      WithoutEnds(entries, kept, name);
      entries := kept;
    }

    method Insert(name: string, value: string)
      modifies this
      ensures entries == Without(old(entries), name) + [(name, value)]
    {
      Remove(name);
      entries := entries + [(name, value)];
    }

    /** The downstream headers as the upgrade answers them: the canonical offer is their only one, so
        parsing them again yields the same protocols. The other headers stay. */
    method CanonicalizeDownstreamProtocol(built: Protocols)
      modifies this
      ensures Without(entries, PROTOCOL) == Without(old(entries), PROTOCOL)
      ensures GetAll(PROTOCOL) == if built.upstreamHeader.Some? then [built.upstreamHeader.value] else []
      ensures forall fields, admission ::
                Parse(fields, admission) == Ok(built) ==> Parse(GetAll(PROTOCOL), admission) == Ok(built)
    {
      Remove(PROTOCOL);
      WithoutHasNone(old(entries), PROTOCOL);
      if built.upstreamHeader.Some? {
        Insert(PROTOCOL, built.upstreamHeader.value);
        WithoutAppend(Without(old(entries), PROTOCOL), PROTOCOL, built.upstreamHeader.value);
      }
      forall fields, admission | Parse(fields, admission) == Ok(built)
        ensures Parse(GetAll(PROTOCOL), admission) == Ok(built)
      {
        Reparsed(fields, admission);
      }
    }
  }

  /** The canonical field, or none, parses to the same protocols. */
  lemma Reparsed(fields: seq<string>, admission: Option<string>)
    requires Parse(fields, admission).Ok?
    ensures var h := Parse(fields, admission).value.upstreamHeader;
            Parse(if h.Some? then [h.value] else [], admission) == Parse(fields, admission)
  {
    NothingOfferedExactly(fields, admission);
    if Parse(fields, admission).value.offered != [] {
      CanonicalIsFixed(fields, admission);
    }
  }

  lemma {:induction false} WithoutHasNone(entries: seq<(string, string)>, name: string)
    ensures ValuesOf(Without(entries, name), name) == []
    ensures Without(Without(entries, name), name) == Without(entries, name)
  {
    if entries != [] {
      WithoutHasNone(entries[1..], name);
      if entries[0].0 != name {
        assert ([entries[0]] + Without(entries[1..], name))[1..] == Without(entries[1..], name);
      } else {
        assert Without(entries, name) == Without(entries[1..], name);
      }
    }
  }

  lemma {:induction false} WithoutAppend(entries: seq<(string, string)>, name: string, value: string)
    requires ValuesOf(entries, name) == [] && Without(entries, name) == entries
    ensures Without(entries + [(name, value)], name) == entries
    ensures ValuesOf(entries + [(name, value)], name) == [value]
    decreases |entries|
  {
    var more := entries + [(name, value)];
    if entries == [] {
      assert more == [(name, value)] && more[1..] == [];
    } else {
      assert more[1..] == entries[1..] + [(name, value)];
      assert Without(entries, name)[0] == entries[0];
      WithoutAppend(entries[1..], name, value);
    }
  }

  // ----- The upstream's choice -----

  function ValidateSelected(selected: seq<string>, offered: Protocols): Result<Option<string>, Error> {
    if selected == [] then Ok(None)
    else if |selected| > 1 || !Readable(selected[0]) then Err(UpstreamWebSocketProtocol)
    else
      var token := Trim(selected[0], SPACE_TAB);
      if token != REALTIME || !IsToken(token) || token !in offered.offered then Err(UpstreamWebSocketProtocol)
      else Ok(Some(REALTIME))
  }

  /** With protocols that were parsed, the upstream may choose nothing, or a single "realtime" that
      white space may pad, and that only when anything was offered. */
  lemma SelectedExactly(fields: seq<string>, admission: Option<string>, selected: seq<string>)
    requires Parse(fields, admission).Ok?
    ensures var offered := Parse(fields, admission).value;
            ValidateSelected(selected, offered).Ok?
            <==> selected == []
                 || (fields != [] && |selected| == 1
                     && exists a, b :: Blank(a, SPACE_TAB) && Blank(b, SPACE_TAB) && selected[0] == a + REALTIME + b)
    ensures var r := ValidateSelected(selected, Parse(fields, admission).value);
            if r.Ok? then r.value == (if selected == [] then None else Some(REALTIME))
            else r.error == UpstreamWebSocketProtocol
  {
    OfferIsSmall(fields, admission);
    NothingOfferedExactly(fields, admission);
    hide Parse;
    if |selected| == 1 {
      if ValidateSelected(selected, Parse(fields, admission).value).Ok? {
        var a, b := TrimSplits(selected[0], SPACE_TAB);
      }
      forall a, b | Blank(a, SPACE_TAB) && Blank(b, SPACE_TAB) && selected[0] == a + REALTIME + b
        ensures Trim(selected[0], SPACE_TAB) == REALTIME && Readable(selected[0])
      {
        TrimPadded(a, REALTIME, b, SPACE_TAB);
      }
    }
  }
}
