/** The strict, ordered query decoding (src/realtime/query.rs) against the query encoder of
    src/realtime/websocket.rs. */
module Query {
  import opened Common
  import opened Text
  import opened Utf8
  import opened Percent

  // ----- Decoding -----

  datatype Error = MalformedPercentEscape | InvalidUtf8

  function PlusAsSpace(s: string): (r: string)
    ensures |r| == |s| && forall i :: 0 <= i < |s| ==> r[i] == if s[i] == '+' then ' ' else s[i]
  {
    if s == "" then "" else [if s[0] == '+' then ' ' else s[0]] + PlusAsSpace(s[1..])
  }

  function Component(raw: string): Result<string, Error> {
    if !WellEscaped(raw) then Err(MalformedPercentEscape)
    else if !Valid(PercentDecode(PlusAsSpace(raw))) then Err(InvalidUtf8)
    else Ok(PercentDecode(PlusAsSpace(raw)))
  }

  method DecodeComponent(raw: string) returns (r: Result<string, Error>)
    ensures r == Component(raw)
  {
    var wellEscaped := ScanEscapes(raw);
    if !wellEscaped {
      return Err(MalformedPercentEscape);
    }
    var decoded := PercentDecode(PlusAsSpace(raw));
    return if Valid(decoded) then Ok(decoded) else Err(InvalidUtf8);
  }

  function Pair(raw: string): Result<(string, string), Error> {
    var (key, value) := SplitOnce(raw, '=').GetOr((raw, ""));
    match Component(key)
    case Err(e) => Err(e)
    case Ok(k) =>
      match Component(value)
      case Err(e) => Err(e)
      case Ok(v) => Ok((k, v))
  }

  /** `collect` into a `Result`: the pairs, or the first error. */
  function Pairs(raws: seq<string>): Result<seq<(string, string)>, Error> {
    if raws == [] then Ok([])
    else match Pair(raws[0])
      case Err(e) => Err(e)
      case Ok(p) =>
        match Pairs(raws[1..])
        case Err(e) => Err(e)
        case Ok(ps) => Ok([p] + ps)
  }

  function DecodeOrdered(raw: Option<string>): Result<seq<(string, string)>, Error> {
    match raw
    case None => Ok([])
    case Some(r) => Pairs(Split(r, '&'))
  }

  // ----- Encoding -----

  predicate Unreserved(c: char) { IsAlnum(c) || c in {'-', '.', '_', '~'} }

  predicate Bytes(s: string) {
    forall i :: 0 <= i < |s| ==> s[i] as int < 256
  }

  function EncodeByte(c: char): string
    requires c as int < 256
  {
    if Unreserved(c) then [c] else ['%', UpperHex(c as int / 16), UpperHex(c as int % 16)]
  }

  function Encode(value: string): string
    requires Bytes(value)
  {
    if value == "" then "" else EncodeByte(value[0]) + Encode(value[1..])
  }

  lemma {:induction false} EncodeAppend(value: string, c: char)
    requires Bytes(value) && c as int < 256
    ensures Bytes(value + [c]) && Encode(value + [c]) == Encode(value) + EncodeByte(c)
    decreases |value|
  {
    if value == "" {
      assert value + [c] == [c] && [c][1..] == "";
    } else {
      hide EncodeByte;
      assert (value + [c])[1..] == value[1..] + [c] && (value + [c])[0] == value[0];
      EncodeAppend(value[1..], c);
      Associative(EncodeByte(value[0]), Encode(value[1..]), EncodeByte(c));
    }
  }

  method EncodeQueryComponent(value: string) returns (encoded: string)
    requires Bytes(value)
    ensures encoded == Encode(value)
  {
    encoded := "";
    for i := 0 to |value|
      invariant encoded == Encode(value[..i])
    {
      assert value[..i + 1] == value[..i] + [value[i]];
      EncodeAppend(value[..i], value[i]);
      var byte := value[i];
      if Unreserved(byte) {
        encoded := encoded + [byte];
      } else {
        encoded := encoded + ['%', UpperHex(byte as int / 16), UpperHex(byte as int % 16)];
      }
    }
    assert value[..|value|] == value;
  }

  /** A query string of the pairs, each component encoded. */
  function EncodePair(p: (string, string)): string
    requires Bytes(p.0) && Bytes(p.1)
  {
    Encode(p.0) + "=" + Encode(p.1)
  }

  function EncodePairs(ps: seq<(string, string)>): seq<string>
    requires forall p :: p in ps ==> Bytes(p.0) && Bytes(p.1)
  {
    if ps == [] then [] else [EncodePair(ps[0])] + EncodePairs(ps[1..])
  }

  function EncodeQuery(ps: seq<(string, string)>): string
    requires forall p :: p in ps ==> Bytes(p.0) && Bytes(p.1)
  {
    Join(EncodePairs(ps), "&")
  }

  // ----- What decoding accepts -----

  lemma {:induction false} PlusKeepsEscapes(raw: string)
    ensures WellEscaped(PlusAsSpace(raw)) <==> WellEscaped(raw)
    decreases |raw|
  {
    if raw != "" {
      var t := PlusAsSpace(raw);
      if EscapeAtHead(raw) {
        PlusKeepsEscapes(raw[3..]);
        assert t[3..] == PlusAsSpace(raw[3..]);
      } else {
        PlusKeepsEscapes(raw[1..]);
        assert t[1..] == PlusAsSpace(raw[1..]);
      }
    }
  }

  /** A component decodes to `value` exactly when it spells it, '+' standing for a space, and `value`
      is UTF-8; it is malformed exactly when some '%' starts no escape. */
  lemma ComponentExactly(raw: string, value: string)
    ensures Component(raw) == Ok(value) <==> Spells(PlusAsSpace(raw), value) && Valid(value)
    ensures Component(raw) == Err(MalformedPercentEscape) <==> !WellEscaped(raw)
  {
    PlusKeepsEscapes(raw);
    DecodesWhatItSpells(PlusAsSpace(raw), value);
  }

  // ----- The round trip -----

  lemma {:induction false} ValidBytes(s: string)
    requires Valid(s)
    ensures Bytes(s)
    decreases |s|
  {
    if s != "" {
      ValidBytes(s[ScalarLen(s)..]);
      assert forall i :: 0 <= i < |s| && i >= ScalarLen(s) ==> s[i] == s[ScalarLen(s)..][i - ScalarLen(s)];
    }
  }

  /** What the encoder emits: unreserved characters and escapes. */
  predicate QuerySafe(s: string) {
    forall i :: 0 <= i < |s| ==> Unreserved(s[i]) || s[i] == '%'
  }

  lemma SafeLacks(s: string)
    requires QuerySafe(s)
    ensures Lacks(s, '&') && Lacks(s, '=') && Lacks(s, '+') && Lacks(s, '?') && Lacks(s, '#') && Lacks(s, '/')
  {
  }

  lemma {:induction false} EncodeSpells(value: string)
    requires Bytes(value)
    ensures Spells(Encode(value), value) && QuerySafe(Encode(value))
  {
    if value != "" {
      EncodeSpells(value[1..]);
      var head, rest := EncodeByte(value[0]), Encode(value[1..]);
      assert Encode(value) == head + rest;
      assert Encode(value)[|head|..] == rest;
    }
  }

  lemma {:induction false} PlusAbsent(s: string)
    requires Lacks(s, '+')
    ensures PlusAsSpace(s) == s
  {
    if s != "" {
      PlusAbsent(s[1..]);
    }
  }

  lemma EncodedComponent(value: string)
    requires Valid(value)
    ensures Bytes(value) && QuerySafe(Encode(value)) && Component(Encode(value)) == Ok(value)
  {
    ValidBytes(value);
    EncodeSpells(value);
    SafeLacks(Encode(value));
    hide Encode, QuerySafe, Lacks;
    PlusAbsent(Encode(value));
    ComponentExactly(Encode(value), value);
  }

  lemma EncodedPair(p: (string, string))
    requires Valid(p.0) && Valid(p.1)
    ensures Bytes(p.0) && Bytes(p.1) && Pair(EncodePair(p)) == Ok(p) && Lacks(EncodePair(p), '&')
  {
    EncodedComponent(p.0);
    EncodedComponent(p.1);
    SafeLacks(Encode(p.0));
    SafeLacks(Encode(p.1));
    hide Encode, Component, QuerySafe;
    SplitOnceAt(Encode(p.0), '=', Encode(p.1));
  }

  predicate AllValid(ps: seq<(string, string)>) {
    forall p :: p in ps ==> Valid(p.0) && Valid(p.1)
  }

  lemma {:induction false} EncodedPairs(ps: seq<(string, string)>)
    requires AllValid(ps)
    ensures forall p :: p in ps ==> Bytes(p.0) && Bytes(p.1)
    ensures |EncodePairs(ps)| == |ps|
    ensures Pairs(EncodePairs(ps)) == Ok(ps)
    ensures forall i :: 0 <= i < |ps| ==> Lacks(EncodePairs(ps)[i], '&')
  {
    if ps != [] {
      EncodedPair(ps[0]);
      EncodedPairs(ps[1..]);
      assert EncodePairs(ps)[1..] == EncodePairs(ps[1..]);
      assert [ps[0]] + ps[1..] == ps;
    }
  }

  /** Decoding an encoded query gives back every pair, in order, duplicates and empty components
      included. */
  lemma QueryRoundTrip(ps: seq<(string, string)>)
    requires ps != [] && AllValid(ps)
    ensures forall p :: p in ps ==> Bytes(p.0) && Bytes(p.1)
    ensures DecodeOrdered(Some(EncodeQuery(ps))) == Ok(ps)
  {
    EncodedPairs(ps);
    SplitJoin(EncodePairs(ps), '&');
  }

  // ----- The homomorphism -----

  /** Two decodings one after the other: the first error wins. */
  function Then<T>(a: Result<seq<T>, Error>, b: Result<seq<T>, Error>): Result<seq<T>, Error> {
    match a
    case Err(e) => Err(e)
    case Ok(x) =>
      match b
      case Err(e) => Err(e)
      case Ok(y) => Ok(x + y)
  }

  lemma {:induction false} PairsConcat(a: seq<string>, b: seq<string>)
    ensures Pairs(a + b) == Then(Pairs(a), Pairs(b))
    decreases |a|
  {
    if a == [] {
      assert a + b == b;
      assert Pairs(b).Ok? ==> [] + Pairs(b).value == Pairs(b).value;
    } else {
      assert (a + b)[0] == a[0] && (a + b)[1..] == a[1..] + b;
      PairsConcat(a[1..], b);
      if Pair(a[0]).Ok? && Pairs(a[1..]).Ok? && Pairs(b).Ok? {
        var p, x, y := Pair(a[0]).value, Pairs(a[1..]).value, Pairs(b).value;
        assert [p] + (x + y) == [p] + x + y;
      }
    }
  }

  /** Decoding "a&b" is decoding a, then decoding b. */
  lemma QueryHomomorphism(a: string, b: string)
    ensures DecodeOrdered(Some(a + "&" + b)) == Then(DecodeOrdered(Some(a)), DecodeOrdered(Some(b)))
  {
    SplitConcat(a, '&', b);
    PairsConcat(Split(a, '&'), Split(b, '&'));
  }

  // ----- Pairs and bytes as written -----

  /** A piece without '=' is a key with an empty value; with one, the first '=' separates them. The key is
      decoded first, so its error is the one that is reported. */
  lemma PairAsWritten(key: string, value: string)
    requires Lacks(key, '=')
    ensures Pair(key) == match Component(key) case Err(e) => Err(e) case Ok(k) => Ok((k, ""))
    ensures Pair(key + "=" + value)
            == match Component(key)
               case Err(e) => Err(e)
               case Ok(k) => match Component(value) case Err(e) => Err(e) case Ok(v) => Ok((k, v))
  {
    SplitOnceNone(key, '=');
    SplitOnceAt(key, '=', value);
    EmptyComponent();
    hide Component, SplitOnce;
  }

  lemma EmptyComponent()
    ensures Component("") == Ok("")
  {
  }

  /** No query is no pair; an empty one is a pair of empty texts. */
  lemma EmptyQueries()
    ensures DecodeOrdered(None) == Ok([]) && DecodeOrdered(Some("")) == Ok([("", "")])
  {
    EmptyComponent();
    assert Split("", '&') == [""];
    PairAsWritten("", "");
    assert [""][1..] == [] && [("", "")] + [] == [("", "")];
    hide Component, Pair;
    assert Pairs([]) == Ok([]) && Pairs([""]) == Ok([("", "")]);
  }

  /** The encoder writes letters, digits and "-._~" as they are, and any other byte as '%' and its two
      upper-case digits. */
  lemma EncodedAsWritten(byte: nat, rest: string)
    requires byte < 256 && Bytes(rest)
    ensures Bytes([byte as char] + rest)
    ensures var c := byte as char;
            var plain := '0' <= c <= '9' || 'A' <= c <= 'Z' || 'a' <= c <= 'z'
                         || c == '-' || c == '.' || c == '_' || c == '~';
            Encode([c] + rest)
            == (if plain then [c] else ['%', UPPER_DIGITS[byte / 16], UPPER_DIGITS[byte % 16]]) + Encode(rest)
  {
    DigitsRead(byte / 16);
    DigitsRead(byte % 16);
    assert ([byte as char] + rest)[1..] == rest;
  }
}
