/** The language of media types by their bytes (sections 5.6.2, 5.6.4, 5.6.6 and 8.3.1 of RFC 9110, as
    far as src/realtime/contract.rs follows them), and that the parser accepts exactly it. */
module MediaLanguage {
  import opened Common
  import opened Text
  import opened Mime

  // ----- By the bytes -----

  predicate SpaceText(s: string) {
    forall i :: 0 <= i < |s| ==> 9 <= s[i] as int <= 13 || s[i] as int == 32
  }

  /** A byte that is no control character. */
  predicate Shown(c: char) { c as int > 31 && c as int != 127 }

  /** One character of a quoted string: a byte other than quote and backslash, or a quoted pair. */
  predicate QuotedPiece(s: string) {
    || (|s| == 1 && Shown(s[0]) && s[0] != '"' && s[0] != '\\')
    || (|s| == 2 && s[0] == '\\' && Shown(s[1]))
  }

  function Concat(pieces: seq<string>): string {
    if pieces == [] then "" else pieces[0] + Concat(pieces[1..])
  }

  predicate AllQuoted(pieces: seq<string>) {
    forall i :: 0 <= i < |pieces| ==> QuotedPiece(pieces[i])
  }

  predicate QuotedOf(value: string, pieces: seq<string>) {
    pieces != [] && AllQuoted(pieces) && value == "\"" + Concat(pieces) + "\""
  }

  /** A value: a token, or a quoted string that is not empty. */
  ghost predicate ValueText(value: string) {
    TokenText(value) || exists pieces :: QuotedOf(value, pieces)
  }

  function Fold(c: char): int { if 65 <= c as int <= 90 then c as int + 32 else c as int }

  /** The same name, whatever the case of its ASCII letters. */
  predicate SameName(a: string, b: string) {
    |a| == |b| && forall i :: 0 <= i < |a| ==> Fold(a[i]) == Fold(b[i])
  }

  // ----- The parser's predicates say the same -----

  lemma SpaceTextExactly(s: string)
    ensures Blank(s, WHITESPACE) <==> SpaceText(s)
  {
    assert forall c: char :: c in WHITESPACE <==> (9 <= c as int <= 13 || c as int == 32);
  }

  lemma SameNameExactly(a: string, b: string)
    ensures Lower(a) == Lower(b) <==> SameName(a, b)
  {
    assert forall i :: 0 <= i < |a| ==> Lower(a)[i] as int == Fold(a[i]);
    assert forall i :: 0 <= i < |b| ==> Lower(b)[i] as int == Fold(b[i]);
    if Lower(a) == Lower(b) {
      forall i | 0 <= i < |a| ensures Fold(a[i]) == Fold(b[i]) {
        assert Lower(a)[i] == Lower(b)[i];
      }
    }
    if SameName(a, b) {
      assert forall i :: 0 <= i < |a| ==> Fold(a[i]) == Fold(b[i]) && Lower(a)[i] == Lower(b)[i];
      assert Lower(a) == Lower(b);
    }
  }

  lemma {:induction false} BodyToPieces(body: string) returns (pieces: seq<string>)
    requires QuotedBody(body, false)
    ensures AllQuoted(pieces) && Concat(pieces) == body
    decreases |body|
  {
    if body == "" {
      pieces := [];
    } else {
      var n := if body[0] == '\\' then 2 else 1;
      if n == 2 {
        assert body[1..][1..] == body[2..];
      }
      var rest := BodyToPieces(body[n..]);
      pieces := [body[..n]] + rest;
      assert pieces[1..] == rest && body[..n] + body[n..] == body;
    }
  }

  lemma {:induction false} PiecesToBody(pieces: seq<string>)
    requires AllQuoted(pieces)
    ensures QuotedBody(Concat(pieces), false) && (pieces != [] ==> Concat(pieces) != "")
  {
    if pieces != [] {
      PiecesToBody(pieces[1..]);
      var p, rest := pieces[0], Concat(pieces[1..]);
      assert QuotedPiece(p);
      if |p| == 1 {
        assert p == [p[0]];
        PlainFirst(p[0], rest);
      } else {
        assert p == ['\\', p[1]];
        PairFirst(p[1], rest);
      }
    }
  }

  /** The values the parser accepts are exactly tokens and non-empty quoted strings. */
  lemma ValueTextExactly(value: string)
    ensures ValidValue(value) <==> ValueText(value)
  {
    TokenTextExactly(value);
    hide TokenText, IsToken, AllQuoted;
    if value != "" && value[0] == '"' {
      QuotedIsNoToken(value);
      if ValidValue(value) {
        var body := value[1..|value| - 1];
        var pieces := BodyToPieces(body);
        ConcatOfNone();
        assert value == "\"" + body + "\"";
        assert QuotedOf(value, pieces);
      }
    }
    forall pieces | QuotedOf(value, pieces)
      ensures ValidValue(value)
    {
      PiecesToBody(pieces);
      assert value[1..|value| - 1] == Concat(pieces);
    }
  }

  lemma QuotedIsNoToken(value: string)
    requires value != "" && value[0] == '"'
    ensures !TokenText(value)
  {
  }

  lemma ConcatOfNone()
    ensures Concat([]) == ""
  {
  }

  // ----- Media types as written -----

  ghost predicate ParamText(p: Param) {
    && TokenText(p.name) && ValueText(p.value)
    && SpaceText(p.before) && SpaceText(p.pad) && SpaceText(p.pad') && SpaceText(p.after)
  }

  /** A media type as it can be written: tokens, parameters with different names, white space around
      all of them. */
  ghost predicate MediaText(m: Media) {
    && TokenText(m.major) && TokenText(m.minor) && SpaceText(m.before) && SpaceText(m.after)
    && (forall i :: 0 <= i < |m.params| ==> ParamText(m.params[i]))
    && (forall i, j :: 0 <= i < j < |m.params| ==> !SameName(m.params[i].name, m.params[j].name))
  }

  /** A multipart form has a parameter named "boundary". */
  predicate Bounded(m: Media) {
    SameName(m.major + "/" + m.minor, "multipart/form-data")
    ==> exists i :: 0 <= i < |m.params| && SameName(m.params[i].name, "boundary")
  }

  lemma ParamTextExactly(p: Param)
    ensures WellFormedParam(p) <==> ParamText(p)
  {
    hide IsToken, TokenText, ValidValue, ValueText, Blank, SpaceText;
    TokenTextExactly(p.name);
    ValueTextExactly(p.value);
    SpaceTextExactly(p.before);
    SpaceTextExactly(p.pad);
    SpaceTextExactly(p.pad');
    SpaceTextExactly(p.after);
  }

  lemma MediaTextExactly(m: Media)
    ensures WellFormed(m) <==> MediaText(m)
  {
    hide IsToken, TokenText, Blank, SpaceText, WellFormedParam, ParamText, SameName, Lower;
    TokenTextExactly(m.major);
    TokenTextExactly(m.minor);
    SpaceTextExactly(m.before);
    SpaceTextExactly(m.after);
    forall i | 0 <= i < |m.params| ensures WellFormedParam(m.params[i]) <==> ParamText(m.params[i]) {
      ParamTextExactly(m.params[i]);
    }
    forall i, j | 0 <= i < j < |m.params|
      ensures Lower(m.params[i].name) == Lower(m.params[j].name) <==> SameName(m.params[i].name, m.params[j].name)
    {
      SameNameExactly(m.params[i].name, m.params[j].name);
    }
  }

  lemma {:induction false} NamesOfParams(params: seq<Param>, name: string)
    ensures name in NamesOf(params) <==> exists i :: 0 <= i < |params| && Lower(params[i].name) == name
  {
    hide Lower;
    if params != [] {
      NamesOfParams(params[1..], name);
      assert forall i :: 0 < i < |params| ==> params[i] == params[1..][i - 1];
    }
  }

  lemma LowerLiterals()
    ensures Lower("multipart/form-data") == "multipart/form-data" && Lower("boundary") == "boundary"
  {
    hide Lower;
    FormIsLower();
    LowerKeeps("boundary");
  }

  lemma FormIsLower()
    ensures Lower("multipart/form-data") == "multipart/form-data"
  {
    hide Lower;
    LowerKeeps("multipart/form-data");
  }

  lemma BoundedExactly(m: Media)
    ensures BoundaryMet(Base(m), NamesOf(m.params)) <==> Bounded(m)
  {
    hide Lower, SameName, NamesOf;
    LowerLiterals();
    SameNameExactly(Base(m), "multipart/form-data");
    NamesOfParams(m.params, "boundary");
    forall i | 0 <= i < |m.params|
      ensures Lower(m.params[i].name) == "boundary" <==> SameName(m.params[i].name, "boundary")
    {
      SameNameExactly(m.params[i].name, "boundary");
    }
  }

  /** Parsing what was written gives the base back, but for a multipart form without boundary. */
  lemma WrittenParses(m: Media)
    requires MediaText(m)
    ensures MediaType(Print(m)) == if Bounded(m) then Some(m.major + "/" + m.minor) else None
  {
    hide MediaText, Bounded, WellFormed, MediaType, Print;
    MediaTextExactly(m);
    BoundedExactly(m);
    MediaTypeRoundTrip(m);
  }

  /** And nothing else parses. */
  lemma ParsesExactlyWritten(raw: string, base: string)
    ensures MediaType(raw) == Some(base)
            <==> exists m :: MediaText(m) && Print(m) == raw && m.major + "/" + m.minor == base && Bounded(m)
  {
    hide MediaText, Bounded, WellFormed, MediaType, Print, BoundaryMet, NamesOf;
    if MediaType(raw) == Some(base) {
      var m := MediaRead(raw);
      MediaTextExactly(m);
      BoundedExactly(m);
    }
    forall m | MediaText(m) && Print(m) == raw && m.major + "/" + m.minor == base && Bounded(m)
      ensures MediaType(raw) == Some(base)
    {
      WrittenParses(m);
    }
  }
}
