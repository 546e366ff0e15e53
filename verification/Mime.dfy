/** The content-type parser of src/realtime/contract.rs: splitting at the semicolons outside quoted
    strings, parameter values, and the media type. */
module Mime {
  import opened Common
  import opened Text

  // ----- Splitting -----

  /** The two flags of the one-pass scan. */
  datatype Scan = Scan(quoted: bool, escaped: bool)

  const OUTSIDE := Scan(false, false)

  function ScanStep(st: Scan, c: char): Scan {
    if st.escaped then st.(escaped := false)
    else if st.quoted && c == '\\' then st.(escaped := true)
    else if c == '"' then st.(quoted := !st.quoted)
    else st
  }

  predicate Cuts(st: Scan, c: char) { c == ';' && !st.quoted && !st.escaped }

  /** Put a piece in front of the first part. */
  function Prepend(piece: string, parts: Option<seq<string>>): Option<seq<string>> {
    match parts
    case None => None
    case Some(ps) => if ps == [] then Some([piece]) else Some([piece + ps[0]] + ps[1..])
  }

  function NewPart(parts: Option<seq<string>>): Option<seq<string>> {
    match parts
    case None => None
    case Some(ps) => Some([""] + ps)
  }

  /** What the scan makes of the rest of the input. */
  function PartsFrom(s: string, st: Scan): (parts: Option<seq<string>>)
    ensures parts.Some? ==> parts.value != []
  {
    if s == "" then (if st.quoted || st.escaped then None else Some([""]))
    else if Cuts(st, s[0]) then NewPart(PartsFrom(s[1..], st))
    else Prepend([s[0]], PartsFrom(s[1..], ScanStep(st, s[0])))
  }

  function Parts(raw: string): Option<seq<string>> { PartsFrom(raw, OUTSIDE) }

  /** Parts already cut, the piece being read, and what the rest of the input makes. */
  function Assemble(parts: seq<string>, piece: string, rest: Option<seq<string>>): Option<seq<string>> {
    match Prepend(piece, rest)
    case None => None
    case Some(ps) => Some(parts + ps)
  }

  lemma PrependTwice(a: string, b: string, parts: Option<seq<string>>)
    requires parts.Some? ==> parts.value != []
    ensures Prepend(a, Prepend(b, parts)) == Prepend(a + b, parts)
  {
    if parts.Some? {
      assert a + (b + parts.value[0]) == a + b + parts.value[0];
    }
  }

  lemma AssembleNothing(rest: Option<seq<string>>)
    requires rest.Some? ==> rest.value != []
    ensures Assemble([], "", rest) == rest
  {
    if rest.Some? {
      assert "" + rest.value[0] == rest.value[0];
      assert [] + ([rest.value[0]] + rest.value[1..]) == rest.value;
    }
  }

  lemma AssembleCut(parts: seq<string>, piece: string, rest: Option<seq<string>>)
    requires rest.Some? ==> rest.value != []
    ensures Assemble(parts, piece, NewPart(rest)) == Assemble(parts + [piece], "", rest)
  {
    if rest.Some? {
      assert ([""] + rest.value)[0] == "" && ([""] + rest.value)[1..] == rest.value;
      assert piece + "" == piece && "" + rest.value[0] == rest.value[0];
      assert [rest.value[0]] + rest.value[1..] == rest.value;
      assert parts + ([piece] + rest.value) == parts + [piece] + rest.value;
    }
  }

  /** The split loop. */
  method SplitMimeParts(raw: string) returns (r: Option<seq<string>>)
    ensures r == Parts(raw)
  {
    hide Assemble;
    var parts: seq<string> := [];
    var start := 0;
    var quoted, escaped := false, false;
    var index := 0;
    assert raw[0..0] == "" && raw[0..] == raw;
    AssembleNothing(Parts(raw));
    while index < |raw|
      invariant 0 <= start <= index <= |raw|
      invariant Parts(raw) == Assemble(parts, raw[start..index], PartsFrom(raw[index..], Scan(quoted, escaped)))
    {
      var byte := raw[index];
      assert raw[index..][1..] == raw[index + 1..];
      index := index + 1;
      if byte == ';' && !quoted && !escaped {
        AssembleCut(parts, raw[start..index - 1], PartsFrom(raw[index..], Scan(quoted, escaped)));
        parts := parts + [raw[start..index - 1]];
        start := index;
        assert raw[start..index] == "";
        continue;
      }
      ghost var piece := raw[start..index - 1];
      if escaped {
        escaped := false;
      } else if quoted && byte == '\\' {
        escaped := true;
      } else if byte == '"' {
        quoted := !quoted;
      }
      AssembleChar(parts, piece, byte, PartsFrom(raw[index..], Scan(quoted, escaped)));
      assert raw[start..index] == piece + [byte];
    }
    if quoted || escaped {
      AssembleEnd(parts, raw[start..index], None);
      return None;
    }
    AssembleEnd(parts, raw[start..index], Some([""]));
    assert raw[start..index] == raw[start..];
    return Some(parts + [raw[start..]]);
  }

  lemma AssembleChar(parts: seq<string>, piece: string, byte: char, rest: Option<seq<string>>)
    requires rest.Some? ==> rest.value != []
    ensures Assemble(parts, piece, Prepend([byte], rest)) == Assemble(parts, piece + [byte], rest)
  {
    PrependTwice(piece, [byte], rest);
  }

  lemma AssembleEnd(parts: seq<string>, piece: string, rest: Option<seq<string>>)
    requires rest == None || rest == Some([""])
    ensures Assemble(parts, piece, rest) == if rest == None then None else Some(parts + [piece])
  {
    if rest.Some? {
      assert rest.value[0] == "" && rest.value[1..] == [];
      assert piece + "" == piece;
      assert [piece] + [] == [piece];
    }
  }

  // ----- The same by the grammar (section 5.6.4 of RFC 9110) -----

  /** The length of a quoted string's rest, closing quote included, when its opening quote has been
      read: characters and quoted pairs up to the first bare quote. Zero when it is not closed. */
  function QuotedRest(s: string): (n: nat)
    ensures n <= |s|
  {
    if s == "" then 0
    else if s[0] == '"' then 1
    else if s[0] == '\\' then
      (if |s| == 1 || QuotedRest(s[2..]) == 0 then 0 else 2 + QuotedRest(s[2..]))
    else if QuotedRest(s[1..]) == 0 then 0
    else 1 + QuotedRest(s[1..])
  }

  /** A recursive descent: quoted strings whole, other characters one by one, a new part at each
      semicolon met. */
  function GrammarParts(s: string): Option<seq<string>> {
    if s == "" then Some([""])
    else if s[0] == ';' then NewPart(GrammarParts(s[1..]))
    else if s[0] == '"' then
      var n := QuotedRest(s[1..]);
      if n == 0 then None else Prepend(s[..n + 1], GrammarParts(s[n + 1..]))
    else Prepend(s[..1], GrammarParts(s[1..]))
  }

  lemma {:induction false} QuotedScan(s: string)
    ensures PartsFrom(s, Scan(true, false))
            == if QuotedRest(s) == 0 then None else Prepend(s[..QuotedRest(s)], PartsFrom(s[QuotedRest(s)..], OUTSIDE))
    decreases |s|
  {
    if s != "" && s[0] != '"' {
      var k := if s[0] == '\\' then 2 else 1;
      if k <= |s| {
        QuotedScan(s[k..]);
        var n := QuotedRest(s[k..]);
        if k == 2 {
          assert s[1..][1..] == s[2..];
          PrependTwice([s[0]], [s[1]], PartsFrom(s[2..], Scan(true, false)));
          assert [s[0]] + [s[1]] == s[..2];
        } else {
          assert [s[0]] == s[..1];
        }
        if n > 0 {
          PrependTwice(s[..k], s[k..][..n], PartsFrom(s[k..][n..], OUTSIDE));
          assert s[..k] + s[k..][..n] == s[..k + n] && s[k..][n..] == s[k + n..];
        }
      }
    } else if s != "" {
      assert [s[0]] == s[..1];
    }
  }

  /** The one-pass automaton and the grammar agree on every input. */
  lemma {:induction false} ScanIsGrammar(s: string)
    ensures Parts(s) == GrammarParts(s)
    decreases |s|
  {
    if s != "" {
      if s[0] == '"' {
        QuotedScan(s[1..]);
        var n := QuotedRest(s[1..]);
        if n > 0 {
          ScanIsGrammar(s[n + 1..]);
          assert s[1..][n..] == s[n + 1..] && [s[0]] + s[1..][..n] == s[..n + 1];
          PrependTwice([s[0]], s[1..][..n], PartsFrom(s[n + 1..], OUTSIDE));
        }
      } else {
        ScanIsGrammar(s[1..]);
        assert [s[0]] == s[..1];
      }
    }
  }

  // ----- What splitting means -----

  /** A part on its own: quotes closed, no semicolon outside them. */
  predicate Closed(part: string) { Parts(part) == Some([part]) }

  lemma {:induction false} PartsLossless(s: string, st: Scan)
    requires PartsFrom(s, st).Some?
    ensures Join(PartsFrom(s, st).value, ";") == s
    decreases |s|
  {
    if s != "" {
      var st' := if Cuts(st, s[0]) then st else ScanStep(st, s[0]);
      PartsLossless(s[1..], st');
      var ps := PartsFrom(s[1..], st').value;
      assert [s[0]] + s[1..] == s;
      if Cuts(st, s[0]) {
        assert ([""] + ps)[1..] == ps;
        assert "" + ";" + s[1..] == s;
      } else {
        JoinHead([s[0]], ps, ";");
      }
    }
  }

  /** A part closed from any state, then whatever follows outside quotes. */
  lemma {:induction false} ClosedThen(part: string, st: Scan, rest: string)
    requires PartsFrom(part, st) == Some([part])
    ensures PartsFrom(part + rest, st) == Prepend(part, PartsFrom(rest, OUTSIDE))
    decreases |part|
  {
    if part == "" {
      assert part + rest == rest;
      if PartsFrom(rest, OUTSIDE).Some? {
        var ps := PartsFrom(rest, OUTSIDE).value;
        assert "" + ps[0] == ps[0] && [ps[0]] + ps[1..] == ps;
      }
    } else {
      assert !Cuts(st, part[0]);
      var st' := ScanStep(st, part[0]);
      assert [part[0]] + part[1..] == part;
      HeadOfOne([part[0]], PartsFrom(part[1..], st'), part[1..]);
      assert (part + rest)[1..] == part[1..] + rest;
      ClosedThen(part[1..], st', rest);
      PrependTwice([part[0]], part[1..], PartsFrom(rest, OUTSIDE));
    }
  }

  lemma HeadOfOne(a: string, parts: Option<seq<string>>, b: string)
    requires Prepend(a, parts) == Some([a + b]) && (parts.Some? ==> parts.value != [])
    ensures parts == Some([b])
  {
    var ps := parts.value;
    assert ([a + ps[0]] + ps[1..])[0] == a + b;
    assert (a + ps[0])[|a|..] == ps[0] && (a + b)[|a|..] == b;
    assert |[a + ps[0]] + ps[1..]| == 1;
    assert ps == [ps[0]];
  }

  lemma PrependOne(a: string, b: string)
    ensures Prepend(a, Some([b])) == Some([a + b])
  {
    assert [b][1..] == [];
    assert [a + b] + [] == [a + b];
  }

  lemma ClosedConcat(a: string, b: string)
    requires Closed(a) && Closed(b)
    ensures Closed(a + b)
  {
    ClosedThen(a, OUTSIDE, b);
    PrependOne(a, b);
  }

  predicate AllClosed(parts: seq<string>) {
    forall i :: 0 <= i < |parts| ==> Closed(parts[i])
  }

  lemma {:induction false} ClosedJoin(parts: seq<string>)
    requires parts != [] && AllClosed(parts)
    ensures Parts(Join(parts, ";")) == Some(parts)
  {
    if |parts| > 1 {
      ClosedJoin(parts[1..]);
      var tail := Join(parts[1..], ";");
      ClosedThen(parts[0], OUTSIDE, ";" + tail);
      assert (";" + tail)[1..] == tail;
      assert parts[0] + ";" + tail == parts[0] + (";" + tail);
      assert ([""] + parts[1..])[1..] == parts[1..] && parts[0] + "" == parts[0];
      assert [parts[0]] + parts[1..] == parts;
    } else {
      assert [parts[0]] == parts;
    }
  }

  /** Every part is closed from the state the scan reaches it in; the first from `st`. */
  lemma {:induction false} PartsClosed(s: string, st: Scan)
    requires PartsFrom(s, st).Some?
    ensures PartsFrom(PartsFrom(s, st).value[0], st) == Some([PartsFrom(s, st).value[0]])
    ensures AllClosed(PartsFrom(s, st).value[1..])
    decreases |s|
  {
    if s != "" {
      if Cuts(st, s[0]) {
        var ps := PartsFrom(s[1..], st).value;
        PartsClosed(s[1..], st);
        assert ([""] + ps)[1..] == ps && ps == [ps[0]] + ps[1..];
        assert st == OUTSIDE;
      } else {
        var st' := ScanStep(st, s[0]);
        PartsClosed(s[1..], st');
        var ps := PartsFrom(s[1..], st').value;
        assert ([[s[0]] + ps[0]] + ps[1..])[1..] == ps[1..];
        assert ([s[0]] + ps[0])[1..] == ps[0];
      PrependOne([s[0]], ps[0]);
      }
    }
  }

  /** Splitting loses nothing and cuts at exactly the semicolons outside quoted strings: it yields the
      one list of closed parts that joined with semicolons is the input, and fails when there is no
      such list. */
  lemma SplitsExactly(raw: string, parts: seq<string>)
    ensures Parts(raw) == Some(parts) <==> parts != [] && AllClosed(parts) && Join(parts, ";") == raw
  {
    if Parts(raw) == Some(parts) {
      PartsLossless(raw, OUTSIDE);
      PartsClosed(raw, OUTSIDE);
      assert parts == [parts[0]] + parts[1..];
    }
    if parts != [] && AllClosed(parts) {
      ClosedJoin(parts);
    }
  }

  lemma {:induction false} PlainIsClosed(s: string)
    requires Lacks(s, '"') && Lacks(s, ';')
    ensures Closed(s)
    decreases |s|
  {
    if s != "" {
      PlainIsClosed(s[1..]);
      PrependOne([s[0]], s[1..]);
      assert [s[0]] + s[1..] == s;
    }
  }

  // ----- Parameter values -----

  predicate Printable(c: char) { c as int >= 0x20 && c as int != 0x7F }

  /** The inside of a quoted string, after an escape or not. */
  predicate QuotedBody(s: string, escaped: bool) {
    if s == "" then !escaped
    else if escaped then Printable(s[0]) && QuotedBody(s[1..], false)
    else if s[0] == '\\' then QuotedBody(s[1..], true)
    else s[0] != '"' && Printable(s[0]) && QuotedBody(s[1..], false)
  }

  predicate ValidValue(value: string) {
    if value != "" && value[0] == '"'
    then |value| > 2 && value[|value| - 1] == '"' && QuotedBody(value[1..|value| - 1], false)
    else IsToken(value)
  }

  method ValidParameterValue(value: string) returns (valid: bool)
    ensures valid == ValidValue(value)
  {
    if value != "" && value[0] == '"' {
      if |value| <= 2 || value[|value| - 1] != '"' {
        return false;
      }
      var body := value[1..|value| - 1];
      var escaped := false;
      var i := 0;
      while i < |body|
        invariant 0 <= i <= |body|
        invariant QuotedBody(body, false) == QuotedBody(body[i..], escaped)
      {
        var byte := body[i];
        assert body[i..][1..] == body[i + 1..];
        if escaped {
          if !Printable(byte) {
            return false;
          }
          escaped := false;
        } else if byte == '\\' {
          escaped := true;
        } else if byte == '"' || !Printable(byte) {
          return false;
        }
        i := i + 1;
      }
      return !escaped;
    }
    return IsToken(value);
  }

  /** A text as the inside of a quoted string: quotes and backslashes escaped. */
  function Escape(text: string): string {
    if text == "" then ""
    else (if text[0] == '"' || text[0] == '\\' then ['\\', text[0]] else [text[0]]) + Escape(text[1..])
  }

  function Quote(text: string): string { "\"" + Escape(text) + "\"" }

  lemma {:induction false} EscapeIsBody(text: string)
    requires forall i :: 0 <= i < |text| ==> Printable(text[i])
    ensures QuotedBody(Escape(text), false) && |Escape(text)| >= |text|
    decreases |text|
  {
    if text != "" {
      EscapeIsBody(text[1..]);
      EscapedChar(text[0], Escape(text[1..]));
    }
  }

  lemma PlainFirst(c: char, rest: string)
    requires Printable(c) && c != '"' && c != '\\' && QuotedBody(rest, false)
    ensures QuotedBody([c] + rest, false)
  {
    assert ([c] + rest)[1..] == rest;
  }

  lemma PairFirst(c: char, rest: string)
    requires Printable(c) && QuotedBody(rest, false)
    ensures QuotedBody(['\\', c] + rest, false)
  {
    assert ([c] + rest)[1..] == rest;
    assert QuotedBody([c] + rest, true);
    assert (['\\', c] + rest)[1..] == [c] + rest;
  }

  lemma EscapedChar(c: char, rest: string)
    requires Printable(c) && QuotedBody(rest, false)
    ensures QuotedBody((if c == '"' || c == '\\' then ['\\', c] else [c]) + rest, false)
  {
    hide QuotedBody, Printable;
    if c == '"' || c == '\\' {
      PairFirst(c, rest);
    } else {
      PlainFirst(c, rest);
    }
  }

  /** Any non-empty printable text, semicolons and quotes included, can be a value when quoted. */
  lemma QuoteIsValid(text: string)
    requires text != "" && forall i :: 0 <= i < |text| ==> Printable(text[i])
    ensures ValidValue(Quote(text))
  {
    EscapeIsBody(text);
    var v := Quote(text);
    assert v[1..|v| - 1] == Escape(text);
  }

  lemma {:induction false} BodyCloses(body: string)
    requires QuotedBody(body, false)
    ensures QuotedRest(body + "\"") == |body| + 1
    decreases |body|
  {
    var s := body + "\"";
    if body != "" {
      if body[0] == '\\' {
        assert body[1..][1..] == body[2..];
        BodyCloses(body[2..]);
        assert s[2..] == body[2..] + "\"";
      } else {
        BodyCloses(body[1..]);
        assert s[1..] == body[1..] + "\"";
      }
    }
  }

  /** A valid value is closed: no semicolon of its can split it. */
  lemma ValueIsClosed(value: string)
    requires ValidValue(value)
    ensures Closed(value)
  {
    if value[0] == '"' {
      var body := value[1..|value| - 1];
      BodyCloses(body);
      assert value[1..] == body + "\"";
      ScanIsGrammar(value);
      assert value[..|value|] == value && value[|value|..] == "";
      PrependOne(value, "");
      assert value + "" == value;
    } else {
      PlainIsClosed(value);
    }
  }

  // ----- The media type -----

  /** The ASCII characters `str::trim` drops. */
  const WHITESPACE: set<char> := {'\t', '\n', '\U{000B}', '\U{000C}', '\r', ' '}

  /** The lower-cased name of a well-formed parameter. */
  function ParamName(part: string): Option<string> {
    match SplitOnce(Trim(part, WHITESPACE), '=')
    case None => None
    case Some((n, v)) =>
      var name, value := Trim(n, WHITESPACE), Trim(v, WHITESPACE);
      if !IsToken(name) || !ValidValue(value) then None else Some(Lower(name))
  }

  /** The names of the parameters, distinct from each other and from those seen. */
  function ParamNames(parts: seq<string>, seen: seq<string>): Option<seq<string>> {
    if parts == [] then Some(seen)
    else match ParamName(parts[0])
      case None => None
      case Some(name) => if name in seen then None else ParamNames(parts[1..], seen + [name])
  }

  predicate IsBase(base: string) {
    SplitOnce(base, '/').Some? && IsToken(SplitOnce(base, '/').value.0) && IsToken(SplitOnce(base, '/').value.1)
  }

  /** A multipart form needs its boundary. */
  predicate BoundaryMet(base: string, names: seq<string>) {
    Lower(base) == "multipart/form-data" ==> "boundary" in names
  }

  function MediaTypeOfParts(parts: seq<string>): Option<string>
    requires parts != []
  {
    var base := Trim(parts[0], WHITESPACE);
    var names := ParamNames(parts[1..], []);
    if IsBase(base) && names.Some? && BoundaryMet(base, names.value) then Some(base) else None
  }

  function MediaType(raw: string): Option<string> {
    match Parts(raw)
    case None => None
    case Some(parts) => MediaTypeOfParts(parts)
  }

  method ComputeMediaType(raw: string) returns (r: Option<string>)
    ensures r == MediaType(raw)
  {
    var split := SplitMimeParts(raw);
    if split.None? {
      return None;
    }
    var parts := split.value;
    var base := Trim(parts[0], WHITESPACE);
    var slash := SplitOnce(base, '/');
    if slash.None? || !IsToken(slash.value.0) || !IsToken(slash.value.1) {
      return None;
    }
    var names: seq<string> := [];
    var hasBoundary := false;
    var i := 1;
    while i < |parts|
      invariant 1 <= i <= |parts|
      invariant ParamNames(parts[1..], []) == ParamNames(parts[i..], names)
      invariant hasBoundary <==> "boundary" in names
    {
      assert parts[i..][0] == parts[i] && parts[i..][1..] == parts[i + 1..];
      var equals := SplitOnce(Trim(parts[i], WHITESPACE), '=');
      if equals.None? {
        return None;
      }
      var name, value := Trim(equals.value.0, WHITESPACE), Trim(equals.value.1, WHITESPACE);
      var valid := ValidParameterValue(value);
      if !IsToken(name) || !valid {
        return None;
      }
      var normalized := Lower(name);
      if normalized in names {
        return None;
      }
      hasBoundary := hasBoundary || normalized == "boundary";
      names := names + [normalized];
      i := i + 1;
    }
    if Lower(base) == "multipart/form-data" && !hasBoundary {
      return None;
    }
    return Some(base);
  }

  // ----- The language of media types -----

  /** A parameter as written, with the white space around its pieces. */
  datatype Param = Param(before: string, name: string, pad: string, pad': string, value: string, after: string)

  datatype Media = Media(before: string, major: string, minor: string, after: string, params: seq<Param>)

  predicate WellFormedParam(p: Param) {
    && IsToken(p.name) && ValidValue(p.value)
    && Blank(p.before, WHITESPACE) && Blank(p.pad, WHITESPACE) && Blank(p.pad', WHITESPACE)
        && Blank(p.after, WHITESPACE)
  }

  predicate WellFormed(m: Media) {
    && IsToken(m.major) && IsToken(m.minor)
    && Blank(m.before, WHITESPACE) && Blank(m.after, WHITESPACE)
    && (forall i :: 0 <= i < |m.params| ==> WellFormedParam(m.params[i]))
    && (forall i, j :: 0 <= i < j < |m.params| ==> Lower(m.params[i].name) != Lower(m.params[j].name))
  }

  function Base(m: Media): string { m.major + "/" + m.minor }

  function NamesOf(params: seq<Param>): seq<string> {
    if params == [] then [] else [Lower(params[0].name)] + NamesOf(params[1..])
  }

  function PrintParam(p: Param): string { p.before + ((p.name + p.pad) + "=" + (p.pad' + p.value)) + p.after }

  function PrintParams(params: seq<Param>): seq<string> {
    if params == [] then [] else [PrintParam(params[0])] + PrintParams(params[1..])
  }

  function Print(m: Media): string {
    Join([m.before + Base(m) + m.after] + PrintParams(m.params), ";")
  }

  lemma TokenIsTight(s: string)
    requires IsToken(s)
    ensures Tight(s, WHITESPACE) && Closed(s)
    ensures Lacks(s, '=') && Lacks(s, '/') && Lacks(s, '"') && Lacks(s, ';')
  {
    PlainIsClosed(s);
  }

  lemma ValueIsTight(value: string)
    requires ValidValue(value)
    ensures value != "" && Tight(value, WHITESPACE)
  {
  }

  lemma BlankIsClosed(s: string)
    requires Blank(s, WHITESPACE)
    ensures Closed(s) && Lacks(s, '=')
  {
    PlainIsClosed(s);
  }

  lemma ParamPrinted(p: Param)
    requires WellFormedParam(p)
    ensures ParamName(PrintParam(p)) == Some(Lower(p.name)) && Closed(PrintParam(p))
  {
    TokenIsTight(p.name);
    ValueIsTight(p.value);
    BlankIsClosed(p.pad);
    var head, tail := p.name + p.pad, p.pad' + p.value;
    var middle := head + "=" + tail;
    TrimPadded(p.before, middle, p.after, WHITESPACE);
    SplitOnceAt(head, '=', tail);
    TrimPadded("", p.name, p.pad, WHITESPACE);
    TrimPadded(p.pad', p.value, "", WHITESPACE);
    assert "" + p.name + p.pad == head && p.pad' + p.value + "" == tail;
    ParamClosed(p);
  }

  lemma ParamClosed(p: Param)
    requires WellFormedParam(p)
    ensures Closed(PrintParam(p))
  {
    hide Closed;
    TokenIsTight(p.name);
    ValueIsClosed(p.value);
    PlainIsClosed("=");
    BlankIsClosed(p.before);
    BlankIsClosed(p.pad);
    BlankIsClosed(p.pad');
    BlankIsClosed(p.after);
    ClosedConcat(p.name, p.pad);
    ClosedConcat(p.name + p.pad, "=");
    ClosedConcat(p.pad', p.value);
    ClosedConcat((p.name + p.pad) + "=", p.pad' + p.value);
    ClosedConcat(p.before, (p.name + p.pad) + "=" + (p.pad' + p.value));
    ClosedConcat(p.before + ((p.name + p.pad) + "=" + (p.pad' + p.value)), p.after);
  }

  lemma {:induction false} SplitOnceSplits(s: string, sep: char)
    requires SplitOnce(s, sep).Some?
    ensures s == SplitOnce(s, sep).value.0 + [sep] + SplitOnce(s, sep).value.1
    ensures Lacks(SplitOnce(s, sep).value.0, sep)
  {
    if s[0] != sep {
      SplitOnceSplits(s[1..], sep);
      assert s == [s[0]] + s[1..];
    } else {
      assert s == "" + [sep] + s[1..];
    }
  }

  /** Nothing blank is left at the ends of a tight string. */
  lemma TightEnds(t: string, a: string, rest: string, b: string, blank: set<char>)
    requires t == a + rest + b && Blank(a, blank) && Blank(b, blank)
    ensures Tight(t, blank) ==> a == "" && b == ""
  {
    if a != "" {
      assert t[0] == a[0];
    }
    if b != "" {
      assert t[|t| - 1] == b[|b| - 1];
    }
  }

  lemma ParamRead(part: string) returns (p: Param)
    requires ParamName(part).Some?
    ensures WellFormedParam(p) && PrintParam(p) == part && ParamName(part) == Some(Lower(p.name))
  {
    hide IsToken, ValidValue, SplitOnce, Trim, Blank, Tight, Lower, Lacks;
    var before, after := TrimSplits(part, WHITESPACE);
    var t := Trim(part, WHITESPACE);
    var (n, v) := SplitOnce(t, '=').value;
    SplitOnceSplits(t, '=');
    var n0, pad := TrimSplits(n, WHITESPACE);
    var pad', v1 := TrimSplits(v, WHITESPACE);
    var name, value := Trim(n, WHITESPACE), Trim(v, WHITESPACE);
    PiecesOf(t, n0, name, pad, pad', value, v1);
    p := Param(before, name, pad, pad', value, after);
  }

  lemma PiecesOf(t: string, n0: string, name: string, pad: string, pad': string, value: string, v1: string)
    requires t == n0 + name + pad + "=" + (pad' + value + v1)
    requires Tight(t, WHITESPACE) && Blank(n0, WHITESPACE) && Blank(v1, WHITESPACE)
    ensures t == (name + pad) + "=" + (pad' + value)
  {
    assert t == n0 + (name + pad + "=" + pad' + value) + v1;
    TightEnds(t, n0, name + pad + "=" + pad' + value, v1, WHITESPACE);
  }

  /** Parameter names that are new and differ from each other. */
  predicate Distinct(params: seq<Param>, seen: seq<string>) {
    && (forall i :: 0 <= i < |params| ==> Lower(params[i].name) !in seen)
    && (forall i, j :: 0 <= i < j < |params| ==> Lower(params[i].name) != Lower(params[j].name))
  }

  lemma DistinctCons(params: seq<Param>, seen: seq<string>)
    requires params != []
    ensures Distinct(params, seen)
            <==> Lower(params[0].name) !in seen && Distinct(params[1..], seen + [Lower(params[0].name)])
  {
    hide Lower;
    var tail, name := params[1..], Lower(params[0].name);
    assert params == [params[0]] + tail;
    if name !in seen && Distinct(tail, seen + [name]) {
      forall i | 0 <= i < |params| ensures Lower(params[i].name) !in seen {
        assert i > 0 ==> params[i] == tail[i - 1] && Lower(tail[i - 1].name) !in seen + [name];
      }
      forall i, j | 0 <= i < j < |params| ensures Lower(params[i].name) != Lower(params[j].name) {
        assert params[j] == tail[j - 1] && Lower(tail[j - 1].name) !in seen + [name];
        assert i > 0 ==> params[i] == tail[i - 1];
      }
    }
    if Distinct(params, seen) {
      forall i | 0 <= i < |tail| ensures Lower(tail[i].name) !in seen + [name] {
        assert tail[i] == params[i + 1] && Lower(params[0].name) != Lower(params[i + 1].name);
      }
      forall i, j | 0 <= i < j < |tail| ensures Lower(tail[i].name) != Lower(tail[j].name) {
        assert tail[i] == params[i + 1] && tail[j] == params[j + 1];
      }
      assert Lower(params[0].name) !in seen;
    }
  }

  lemma AllClosedCons(part: string, parts: seq<string>)
    requires Closed(part) && AllClosed(parts)
    ensures AllClosed([part] + parts)
  {
    hide Closed;
  }

  lemma NamesCons(part: string, parts: seq<string>, seen: seq<string>)
    ensures ParamNames([part] + parts, seen)
            == if ParamName(part).None? || ParamName(part).value in seen then None
               else ParamNames(parts, seen + [ParamName(part).value])
  {
    hide ParamName;
    assert ([part] + parts)[1..] == parts;
  }

  lemma {:induction false} ParamsPrinted(params: seq<Param>, seen: seq<string>)
    requires forall i :: 0 <= i < |params| ==> WellFormedParam(params[i])
    requires Distinct(params, seen)
    ensures ParamNames(PrintParams(params), seen) == Some(seen + NamesOf(params))
    ensures AllClosed(PrintParams(params))
    decreases |params|
  {
    hide ParamName, PrintParam, WellFormedParam, Distinct, Lower, AllClosed, Closed;
    if params == [] {
      assert seen + [] == seen;
      DistinctNone(seen);
    } else {
      ParamPrinted(params[0]);
      DistinctCons(params, seen);
      hide ParamNames;
      var name := Lower(params[0].name);
      var tail := PrintParams(params[1..]);
      ParamsPrinted(params[1..], seen + [name]);
      NamesCons(PrintParam(params[0]), tail, seen);
      assert seen + [name] + NamesOf(params[1..]) == seen + NamesOf(params);
      AllClosedCons(PrintParam(params[0]), tail);
    }
  }

  lemma {:induction false} ParamsRead(parts: seq<string>, seen: seq<string>) returns (params: seq<Param>)
    requires ParamNames(parts, seen).Some?
    ensures forall i :: 0 <= i < |params| ==> WellFormedParam(params[i])
    ensures Distinct(params, seen) && PrintParams(params) == parts
    ensures ParamNames(parts, seen) == Some(seen + NamesOf(params))
    decreases |parts|
  {
    hide ParamName, PrintParam, WellFormedParam, Distinct, Lower;
    if parts == [] {
      params := [];
      assert seen + [] == seen;
      DistinctNone(seen);
    } else {
      var p := ParamRead(parts[0]);
      var tail := parts[1..];
      assert parts == [parts[0]] + tail;
      NamesCons(parts[0], tail, seen);
      hide ParamNames;
      var name := Lower(p.name);
      var rest := ParamsRead(tail, seen + [name]);
      params := [p] + rest;
      assert params[1..] == rest;
      assert seen + [name] + NamesOf(rest) == seen + NamesOf(params);
      DistinctCons(params, seen);
    }
  }

  lemma DistinctNone(seen: seq<string>)
    ensures Distinct([], seen) && AllClosed([])
  {
  }

  lemma BasePrinted(before: string, major: string, minor: string, after: string)
    requires IsToken(major) && IsToken(minor) && Blank(before, WHITESPACE) && Blank(after, WHITESPACE)
    ensures Trim(before + (major + "/" + minor) + after, WHITESPACE) == major + "/" + minor
    ensures IsBase(major + "/" + minor) && Closed(before + (major + "/" + minor) + after)
  {
    TokenIsTight(major);
    TokenIsTight(minor);
    BlankIsClosed(before);
    BlankIsClosed(after);
    PlainIsClosed("/");
    TrimPadded(before, major + "/" + minor, after, WHITESPACE);
    SplitOnceAt(major, '/', minor);
    hide Closed;
    ClosedConcat(major, "/");
    ClosedConcat(major + "/", minor);
    ClosedConcat(before, major + "/" + minor);
    ClosedConcat(before + (major + "/" + minor), after);
  }

  /** Printing then parsing gives back the base, unless it is a multipart form without a boundary:
      for every white space around the pieces and every quoted value, semicolons and escaped quotes
      included. */
  lemma MediaTypeRoundTrip(m: Media)
    requires WellFormed(m)
    ensures MediaType(Print(m)) == if BoundaryMet(Base(m), NamesOf(m.params)) then Some(Base(m)) else None
  {
    BasePrinted(m.before, m.major, m.minor, m.after);
    ParamsPrinted(m.params, []);
    assert [] + NamesOf(m.params) == NamesOf(m.params);
    hide Closed, IsBase, ParamNames, BoundaryMet, Parts, WellFormedParam, PrintParams;
    var first := m.before + Base(m) + m.after;
    var parts := [first] + PrintParams(m.params);
    assert parts[1..] == PrintParams(m.params);
    SplitsExactly(Print(m), parts);
  }

  /** And nothing else is accepted: `media_type` yields a base exactly for the printed forms of it
      whose boundary requirement is met. */
  lemma MediaTypeExactly(raw: string, base: string)
    ensures MediaType(raw) == Some(base)
            <==> exists m :: WellFormed(m) && Print(m) == raw && Base(m) == base && BoundaryMet(base, NamesOf(m.params))
  {
    if MediaType(raw) == Some(base) {
      var m := MediaRead(raw);
    }
    forall m | WellFormed(m) && Print(m) == raw && Base(m) == base && BoundaryMet(base, NamesOf(m.params))
      ensures MediaType(raw) == Some(base)
    {
      MediaTypeRoundTrip(m);
    }
  }

  /** The pieces of a base as written. */
  lemma BaseRead(part: string) returns (before: string, major: string, minor: string, after: string)
    requires IsBase(Trim(part, WHITESPACE))
    ensures part == before + (major + "/" + minor) + after && Trim(part, WHITESPACE) == major + "/" + minor
    ensures IsToken(major) && IsToken(minor) && Blank(before, WHITESPACE) && Blank(after, WHITESPACE)
  {
    hide IsToken, Blank, Tight, Trim, SplitOnce, Lacks;
    before, after := TrimSplits(part, WHITESPACE);
    var base := Trim(part, WHITESPACE);
    SplitOnceSplits(base, '/');
    major, minor := SplitOnce(base, '/').value.0, SplitOnce(base, '/').value.1;
  }

  lemma DistinctNames(params: seq<Param>)
    requires Distinct(params, [])
    ensures forall i, j :: 0 <= i < j < |params| ==> Lower(params[i].name) != Lower(params[j].name)
  {
    hide Lower;
  }

  lemma MediaTypeUnfolds(raw: string)
    requires MediaType(raw).Some?
    ensures var parts := Parts(raw).value;
            var names := ParamNames(parts[1..], []);
            && Parts(raw) == Some(parts) && parts != [] && names.Some?
            && IsBase(Trim(parts[0], WHITESPACE))
            && MediaType(raw) == Some(Trim(parts[0], WHITESPACE))
            && BoundaryMet(Trim(parts[0], WHITESPACE), names.value)
  {
    hide PartsFrom, ParamNames, IsBase, BoundaryMet, Trim;
  }

  lemma MediaRead(raw: string) returns (m: Media)
    requires MediaType(raw).Some?
    ensures WellFormed(m) && Print(m) == raw && Some(Base(m)) == MediaType(raw)
    ensures BoundaryMet(Base(m), NamesOf(m.params))
  {
    hide MediaType, Closed, AllClosed, ParamNames, BoundaryMet, Parts, WellFormedParam, PrintParams, IsToken, Blank,
         IsBase, Trim, Distinct, Join, NamesOf, Lower;
    MediaTypeUnfolds(raw);
    var parts := Parts(raw).value;
    SplitsExactly(raw, parts);
    var before, major, minor, after := BaseRead(parts[0]);
    var params := ParamsRead(parts[1..], []);
    DistinctNames(params);
    assert [] + NamesOf(params) == NamesOf(params);
    m := Media(before, major, minor, after, params);
    assert [parts[0]] + parts[1..] == parts;
  }
}
