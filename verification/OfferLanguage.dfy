/** What the subprotocol canonicalizer accepts and yields, by the text on the wire. */
module OfferLanguage {
  import opened Common
  import opened Text
  import opened Subprotocol

  // ----- By the text -----

  /** The prefix and something after it. */
  predicate Carries(token: string, prefix: string) { prefix <= token && token != prefix }

  predicate KnownText(token: string) {
    || token == "realtime"
    || Carries(token, "openai-insecure-api-key.")
    || Carries(token, "openai-organization.")
    || Carries(token, "openai-project.")
  }

  /** Two tokens of one kind. */
  predicate SameKind(a: string, b: string) {
    || (a == "realtime" && b == "realtime")
    || (Carries(a, "openai-insecure-api-key.") && Carries(b, "openai-insecure-api-key."))
    || (Carries(a, "openai-organization.") && Carries(b, "openai-organization."))
    || (Carries(a, "openai-project.") && Carries(b, "openai-project."))
  }

  /** Visible ASCII, spaces and tabs. */
  predicate VisibleText(field: string) {
    forall i :: 0 <= i < |field| ==> 0x20 <= field[i] as int <= 0x7E || field[i] as int == 9
  }

  predicate OfferText(offered: seq<string>, admission: Option<string>) {
    && (forall i :: 0 <= i < |offered| ==> TokenText(offered[i]) && |offered[i]| <= 4096 && KnownText(offered[i]))
    && (forall i, j :: 0 <= i < j < |offered| ==> !SameKind(offered[i], offered[j]))
    && (admission.Some? ==> "openai-insecure-api-key." + admission.value !in offered)
    && (offered != [] ==> "realtime" in offered)
    && |Join(offered, ", ")| <= 8192
  }

  // ----- The classes by their text -----

  lemma Prefixes()
    ensures |CREDENTIAL_PREFIX| == 24 && CREDENTIAL_PREFIX[7] == 'i' && |REALTIME| == 8 && REALTIME[0] == 'r'
    ensures |ORGANIZATION_PREFIX| == 20 && ORGANIZATION_PREFIX[7] == 'o'
    ensures |PROJECT_PREFIX| == 15 && PROJECT_PREFIX[7] == 'p'
  {
  }

  lemma PrefixesExclude(token: string)
    ensures CREDENTIAL_PREFIX <= token
            ==> !(ORGANIZATION_PREFIX <= token) && !(PROJECT_PREFIX <= token) && token != REALTIME
    ensures ORGANIZATION_PREFIX <= token ==> !(PROJECT_PREFIX <= token) && token != REALTIME
    ensures PROJECT_PREFIX <= token ==> token != REALTIME
  {
    Prefixes();
    assert CREDENTIAL_PREFIX <= token ==> token[7] == CREDENTIAL_PREFIX[7];
    assert ORGANIZATION_PREFIX <= token ==> token[7] == ORGANIZATION_PREFIX[7];
    assert PROJECT_PREFIX <= token ==> token[7] == PROJECT_PREFIX[7];
  }

  lemma ClassText(token: string)
    ensures ClassOf(token) == Some(Realtime) <==> token == "realtime"
    ensures ClassOf(token) == Some(Credential) <==> Carries(token, "openai-insecure-api-key.")
    ensures ClassOf(token) == Some(Organization) <==> Carries(token, "openai-organization.")
    ensures ClassOf(token) == Some(Project) <==> Carries(token, "openai-project.")
  {
    PrefixesExclude(token);
  }

  lemma KnownExactly(a: string, b: string)
    ensures ClassOf(a).Some? <==> KnownText(a)
    ensures ClassOf(a).Some? ==> (ClassOf(a) == ClassOf(b) <==> SameKind(a, b))
  {
    ClassText(a);
    ClassText(b);
    hide ClassOf, Carries;
    match ClassOf(a)
    case None =>
    case Some(Realtime) =>
    case Some(Credential) =>
    case Some(Organization) =>
    case Some(Project) =>
  }

  lemma SecretText(token: string, x: string)
    ensures SecretOf(token) == Some(x) <==> x != "" && token == "openai-insecure-api-key." + x
  {
    ClassText(token);
    hide ClassOf;
    assert |CREDENTIAL_PREFIX| == 24;
    if token == CREDENTIAL_PREFIX + x {
      assert token[24..] == x && token[..24] == CREDENTIAL_PREFIX;
    }
    if CREDENTIAL_PREFIX <= token {
      assert token == CREDENTIAL_PREFIX + token[24..];
    }
  }

  lemma {:induction false} OfferedText(offered: seq<string>, x: string)
    requires forall i, j ::
               0 <= i < j < |offered| && ClassOf(offered[i]).Some? ==> ClassOf(offered[i]) != ClassOf(offered[j])
    ensures OfferedSecret(offered) == Some(x) <==> x != "" && "openai-insecure-api-key." + x in offered
    decreases |offered|
  {
    if offered != [] {
      var tail := offered[1..];
      assert forall i :: 0 <= i < |tail| ==> tail[i] == offered[i + 1];
      OfferedText(tail, x);
      assert offered == [offered[0]] + tail;
      SecretText(offered[0], x);
      if ClassOf(offered[0]) == Some(Credential) {
        NoOther(offered, x);
      }
      hide ClassOf;
    }
  }

  /** One credential only. */
  lemma NoOther(offered: seq<string>, x: string)
    requires offered != []
    requires forall j :: 0 < j < |offered| ==> ClassOf(offered[j]) != Some(Credential)
    ensures x != "" ==> "openai-insecure-api-key." + x !in offered[1..]
  {
    forall t | t in offered[1..]
      ensures SecretOf(t) == None
    {
      var j :| 0 <= j < |offered| - 1 && offered[1..][j] == t;
      assert offered[j + 1] == t;
    }
    SecretText("openai-insecure-api-key." + x, x);
  }

  lemma OffersText(offered: seq<string>)
    ensures Offers(offered, Realtime) <==> "realtime" in offered
    ensures Offers(offered, Organization) <==> exists t :: t in offered && Carries(t, "openai-organization.")
    ensures Offers(offered, Project) <==> exists t :: t in offered && Carries(t, "openai-project.")
  {
    forall t ensures (ClassOf(t) == Some(Realtime) <==> t == "realtime")
                     && (ClassOf(t) == Some(Organization) <==> Carries(t, "openai-organization."))
                     && (ClassOf(t) == Some(Project) <==> Carries(t, "openai-project."))
    {
      ClassText(t);
    }
    hide ClassOf, Carries;
  }

  // ----- What is accepted, and what it yields -----

  lemma WellOfferedText(offered: seq<string>, admission: Option<string>)
    ensures WellOffered(offered, admission) && Anchored(offered) && CanonicalLength(offered) <= MAX_AGGREGATE
            <==> OfferText(offered, admission)
  {
    if WellOffered(offered, admission) {
      OfferedIsText(offered, admission);
    }
    if OfferText(offered, admission) {
      TextIsOffered(offered, admission);
    }
  }

  lemma TokensText(offered: seq<string>, admission: Option<string>)
    ensures forall t :: t in offered ==> (IsToken(t) <==> TokenText(t)) && (ClassOf(t).Some? <==> KnownText(t))
    ensures forall t, u ::
              t in offered && u in offered && ClassOf(t).Some? ==> (ClassOf(t) == ClassOf(u) <==> SameKind(t, u))
    ensures admission.Some? ==>
              forall t :: t in offered ==>
                (SecretOf(t) == admission
                 <==> admission.value != "" && t == "openai-insecure-api-key." + admission.value)
  {
    forall t | t in offered
      ensures (IsToken(t) <==> TokenText(t)) && (ClassOf(t).Some? <==> KnownText(t))
      ensures admission.Some? ==>
                (SecretOf(t) == admission
                 <==> admission.value != "" && t == "openai-insecure-api-key." + admission.value)
    {
      TokenTextExactly(t);
      KnownExactly(t, t);
      if admission.Some? {
        SecretText(t, admission.value);
      }
    }
    forall t, u | t in offered && u in offered && ClassOf(t).Some?
      ensures ClassOf(t) == ClassOf(u) <==> SameKind(t, u)
    {
      KnownExactly(t, u);
    }
  }

  /** A prefix alone is no known token. */
  lemma BareIsUnknown()
    ensures !KnownText("openai-insecure-api-key." + "")
  {
    Prefixes();
    assert CREDENTIAL_PREFIX + "" == CREDENTIAL_PREFIX;
    PrefixesExclude(CREDENTIAL_PREFIX);
  }

  lemma AnchoredText(offered: seq<string>)
    requires forall i :: 0 <= i < |offered| ==> ClassOf(offered[i]).Some?
    ensures Anchored(offered) <==> (offered != [] ==> "realtime" in offered)
  {
    OffersText(offered);
    hide ClassOf;
    if offered != [] {
      var kind := ClassOf(offered[0]).value;
      assert offered[0] in offered && ClassOf(offered[0]) == Some(kind);
      assert Offers(offered, kind);
      if Anchored(offered) {
        AnchoredOffers(offered, kind);
      }
    }
  }

  lemma LengthText(offered: seq<string>)
    requires forall i :: 0 <= i < |offered| ==> IsToken(offered[i])
    ensures |Join(offered, ", ")| == CanonicalLength(offered)
  {
    if offered != [] {
      PiecesOfJoin(offered);
    }
  }

  lemma OfferedIsText(offered: seq<string>, admission: Option<string>)
    requires WellOffered(offered, admission)
    ensures OfferText(offered, admission) <==> Anchored(offered) && CanonicalLength(offered) <= MAX_AGGREGATE
  {
    TokensText(offered, admission);
    hide IsToken, TokenText, ClassOf, KnownText, SameKind, Join, CanonicalLength, SecretOf;
    AnchoredText(offered);
    LengthText(offered);
    BareIsUnknown();
    hide Anchored;
    assert forall i :: 0 <= i < |offered| ==> offered[i] in offered;
  }

  lemma TextIsOffered(offered: seq<string>, admission: Option<string>)
    requires OfferText(offered, admission)
    ensures WellOffered(offered, admission) && Anchored(offered) && CanonicalLength(offered) <= MAX_AGGREGATE
  {
    TokensText(offered, admission);
    hide IsToken, TokenText, ClassOf, KnownText, SameKind, Join, CanonicalLength, SecretOf;
    assert forall i :: 0 <= i < |offered| ==> offered[i] in offered;
    AnchoredText(offered);
    LengthText(offered);
    hide Anchored;
  }

  /** Parsing by the text: which fields are accepted, and what is read from them. */
  lemma ParsedText(fields: seq<string>, admission: Option<string>)
    ensures Parse(fields, admission).Ok?
            <==> && (forall i :: 0 <= i < |fields| ==> VisibleText(fields[i]))
                 && TotalBytes(fields) <= 8192
                 && OfferText(AllPieces(fields), admission)
    ensures Parse(fields, admission).Ok? ==>
              var p := Parse(fields, admission).value;
              && p.offered == AllPieces(fields)
              && p.upstreamHeader == (if p.offered == [] then None else Some(Join(p.offered, ", ")))
              && (forall x ::
                    p.browserCredential == Some(x) <==> x != "" && "openai-insecure-api-key." + x in p.offered)
              && (p.hasOrganization <==> exists t :: t in p.offered && Carries(t, "openai-organization."))
              && (p.hasProject <==> exists t :: t in p.offered && Carries(t, "openai-project."))
  {
    ParseExactly(fields, admission);
    var offered := AllPieces(fields);
    WellOfferedText(offered, admission);
    OffersText(offered);
    forall i | 0 <= i < |fields| ensures Readable(fields[i]) <==> VisibleText(fields[i]) {
      ReadableText(fields[i]);
    }
    if WellOffered(offered, admission) {
      forall x ensures OfferedSecret(offered) == Some(x) <==> x != "" && "openai-insecure-api-key." + x in offered {
        OfferedText(offered, x);
      }
    }
    hide Parse, Readable, VisibleText, WellOffered, OfferText, AllPieces, Join, Offers, OfferedSecret, Anchored,
         CanonicalLength, TotalBytes;
  }

  lemma ReadableText(field: string)
    ensures Readable(field) <==> VisibleText(field)
  {
  }

  /** The admission secret as a credential is never accepted, wherever it stands, and the error that
      names it comes only from it. */
  lemma SecretRefused(fields: seq<string>, secret: string)
    ensures "openai-insecure-api-key." + secret in AllPieces(fields) ==> Parse(fields, Some(secret)).Err?
    ensures Parse(fields, Some(secret)) == Err(AdmissionSecretNotForwardable)
            ==> "openai-insecure-api-key." + secret in AllPieces(fields)
    ensures Parse(fields, None) != Err(AdmissionSecretNotForwardable)
  {
    ParsedText(fields, Some(secret));
    SecretNeverForwarded(fields, secret);
    hide Parse, SecretOf, AllPieces, Join;
    if Parse(fields, Some(secret)) == Err(AdmissionSecretNotForwardable) {
      var t :| t in AllPieces(fields) && SecretOf(t) == Some(secret);
      SecretText(t, secret);
    }
  }

  lemma {:induction false} TokensUnderSecret(offered: seq<string>, tokens: seq<string>, secret: string)
    requires OfferAll(offered, tokens, None).Ok?
    ensures OfferAll(offered, tokens, Some(secret))
            == if exists t :: t in tokens && SecretOf(t) == Some(secret) then Err(AdmissionSecretNotForwardable)
               else OfferAll(offered, tokens, None)
    decreases |tokens|
  {
    hide ClassOf, SecretOf, IsToken, Offers;
    if tokens != [] {
      assert tokens == [tokens[0]] + tokens[1..];
      assert Fault(offered, tokens[0], None) == None;
      TokensUnderSecret(offered + [tokens[0]], tokens[1..], secret);
    }
  }

  lemma {:induction false} FieldsUnderSecret(offered: seq<string>, bytes: nat, fields: seq<string>, secret: string)
    requires OfferFields(offered, bytes, fields, None).Ok?
    ensures OfferFields(offered, bytes, fields, Some(secret))
            == if exists t :: t in AllPieces(fields) && SecretOf(t) == Some(secret)
               then Err(AdmissionSecretNotForwardable)
               else OfferFields(offered, bytes, fields, None)
    decreases |fields|
  {
    hide SecretOf, Readable, Pieces, OfferAll;
    if fields != [] {
      var pieces := Pieces(fields[0]);
      TokensUnderSecret(offered, pieces, secret);
      FieldsUnderSecret(OfferAll(offered, pieces, None).value, bytes + |fields[0]|, fields[1..], secret);
    }
  }

  /** All the admission secret does is refuse itself: fields that are fine without it are fine with it,
      and alike, unless it is offered as a credential, and then that is the error. */
  lemma SecretRefusesItself(fields: seq<string>, secret: string)
    requires Parse(fields, None).Ok?
    ensures Parse(fields, Some(secret))
            == if "openai-insecure-api-key." + secret in AllPieces(fields) then Err(AdmissionSecretNotForwardable)
               else Parse(fields, None)
  {
    FieldsUnderSecret([], 0, fields, secret);
    SecretText("openai-insecure-api-key." + secret, secret);
    if secret == "" {
      ParsedText(fields, None);
      BareIsUnknown();
    }
    hide OfferFields, SecretOf, AllPieces, Anchored, CanonicalLength, ProtocolsOf;
    if t :| t in AllPieces(fields) && SecretOf(t) == Some(secret) {
      SecretText(t, secret);
    }
  }

  // ----- The pieces of a field -----

  /** A token with white space around it. */
  datatype Padded = Padded(before: string, token: string, after: string)

  function PaddedText(ps: seq<Padded>): seq<string> {
    if ps == [] then [] else [ps[0].before + ps[0].token + ps[0].after] + PaddedText(ps[1..])
  }

  function TokensOf(ps: seq<Padded>): seq<string> {
    if ps == [] then [] else [ps[0].token] + TokensOf(ps[1..])
  }

  predicate BlankText(s: string) { forall i :: 0 <= i < |s| ==> s[i] == ' ' || s[i] == '\t' }

  /** However the tokens of a field are padded with spaces and tabs, they are its pieces. */
  lemma {:induction false} PiecesAsWritten(ps: seq<Padded>)
    requires ps != []
    requires forall i :: 0 <= i < |ps| ==> TokenText(ps[i].token) && BlankText(ps[i].before) && BlankText(ps[i].after)
    ensures Pieces(Join(PaddedText(ps), ",")) == TokensOf(ps)
  {
    PaddedPlain(ps);
    SplitJoin(PaddedText(ps), ',');
    TrimPaddedAll(ps);
    hide PaddedText, TokensOf, Join, Split, Trim;
    assert Pieces(Join(PaddedText(ps), ",")) == TrimAll(PaddedText(ps));
  }

  lemma PaddedOne(p: Padded)
    requires TokenText(p.token) && BlankText(p.before) && BlankText(p.after)
    ensures Lacks(p.before + p.token + p.after, ',') && Trim(p.before + p.token + p.after, SPACE_TAB) == p.token
  {
    TokenTextExactly(p.token);
    TrimPadded(p.before, p.token, p.after, SPACE_TAB);
    hide Trim;
    LacksConcat(p.before, p.token, ',');
    LacksConcat(p.before + p.token, p.after, ',');
  }

  lemma {:induction false} PaddedPlain(ps: seq<Padded>)
    requires forall i :: 0 <= i < |ps| ==> TokenText(ps[i].token) && BlankText(ps[i].before) && BlankText(ps[i].after)
    ensures |PaddedText(ps)| == |ps| && forall i :: 0 <= i < |ps| ==> Lacks(PaddedText(ps)[i], ',')
  {
    hide Lacks, TokenText, BlankText;
    if ps != [] {
      PaddedOne(ps[0]);
      PaddedPlain(ps[1..]);
    }
  }

  lemma {:induction false} TrimPaddedAll(ps: seq<Padded>)
    requires forall i :: 0 <= i < |ps| ==> TokenText(ps[i].token) && BlankText(ps[i].before) && BlankText(ps[i].after)
    ensures TrimAll(PaddedText(ps)) == TokensOf(ps)
  {
    hide Lacks, TokenText, BlankText, Trim;
    if ps != [] {
      PaddedOne(ps[0]);
      TrimPaddedAll(ps[1..]);
      assert PaddedText(ps)[1..] == PaddedText(ps[1..]);
    }
  }
}
