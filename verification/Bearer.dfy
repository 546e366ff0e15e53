/** The one-pass scan of a client's bearer credential (src/realtime/headers.rs). */
module Bearer {
  import opened Common
  import opened Text
  import opened Subprotocol

  /** What `split_ascii_whitespace` splits at. */
  const ASCII_SPACE: set<char> := {' ', '\t', '\n', '\U{000C}', '\r'}

  /** The length of the word at the head. */
  function WordEnd(s: string): (n: nat)
    ensures n <= |s| && (forall i :: 0 <= i < n ==> s[i] !in ASCII_SPACE)
    ensures n < |s| ==> s[n] in ASCII_SPACE
  {
    if s == "" || s[0] in ASCII_SPACE then 0 else 1 + WordEnd(s[1..])
  }

  /** `split_ascii_whitespace`: the words between the white space. */
  function Words(s: string): seq<string>
    decreases |s|
  {
    if s == "" then []
    else if s[0] in ASCII_SPACE then Words(s[1..])
    else [s[..WordEnd(s)]] + Words(s[WordEnd(s)..])
  }

  predicate BaseChar(c: char) { IsAlnum(c) || c in {'-', '.', '_', '~', '+', '/'} }

  predicate AllBase(s: string) { forall i :: 0 <= i < |s| ==> BaseChar(s[i]) }

  predicate AllPadding(s: string) { forall i :: 0 <= i < |s| ==> s[i] == '=' }

  /** A token68 (section 11.2 of RFC 9110): base characters, at least one, then padding. */
  predicate Token68(s: string) {
    exists n :: 0 < n <= |s| && AllBase(s[..n]) && AllPadding(s[n..])
  }

  /** The scan of the token. */
  method ScanToken68(token: string) returns (valid: bool)
    ensures valid <==> Token68(token)
  {
    var padding, hasBase := false, false;
    ghost var base := 0;
    var i := 0;
    while i < |token|
      invariant 0 <= base <= i <= |token|
      invariant AllBase(token[..base]) && AllPadding(token[base..i])
      invariant hasBase <==> base > 0
      invariant padding <==> base < i
      invariant padding ==> hasBase
    {
      var byte := token[i];
      if byte == '=' {
        if !hasBase {
          NoToken68(token, base, i);
          return false;
        }
        padding := true;
        assert token[base..i + 1] == token[base..i] + [byte];
      } else if padding || !BaseChar(byte) {
        NoToken68(token, base, i);
        return false;
      } else {
        hasBase := true;
        assert token[..i + 1] == token[..base] + [byte] && token[i + 1..i + 1] == "";
        base := i + 1;
      }
      i := i + 1;
    }
    if hasBase {
      assert token[base..] == token[base..i];
    }
    return hasBase;
  }

  /** Where the scan stops, no cut into base characters and padding is left. */
  lemma NoToken68(token: string, base: nat, i: nat)
    requires base <= i < |token| && AllBase(token[..base]) && AllPadding(token[base..i])
    requires token[i] == '=' ==> base == 0
    requires token[i] != '=' ==> base < i || !BaseChar(token[i])
    ensures !Token68(token)
  {
    forall n | 0 < n <= |token| && AllBase(token[..n])
      ensures !AllPadding(token[n..])
    {
      assert token[..n][0] == token[0];
      if n <= i {
        assert token[n..][i - n] == token[i];
      } else {
        assert token[..n][i] == token[i];
      }
      if base < i {
        assert token[base..i][0] == token[base];
        assert n > base ==> token[..n][base] == token[base];
      }
    }
  }

  /** What `valid_bearer` decides. */
  predicate ValidBearer(value: string) {
    && Readable(value)
    && |Words(value)| == 2
    && Lower(Words(value)[0]) == "bearer"
    && Token68(Words(value)[1])
  }

  method IsValidBearer(value: string) returns (valid: bool)
    ensures valid <==> ValidBearer(value)
  {
    if !Readable(value) {
      return false;
    }
    var parts := Words(value);
    if |parts| != 2 || Lower(parts[0]) != "bearer" || parts[1] == "" {
      return false;
    }
    valid := ScanToken68(parts[1]);
  }

  // ----- The credentials accepted -----

  /** No white space inside, and not empty. */
  predicate IsWord(w: string) {
    w != "" && forall i :: 0 <= i < |w| ==> w[i] !in ASCII_SPACE
  }

  lemma {:induction false} WordsOfBlank(a: string, s: string)
    requires Blank(a, ASCII_SPACE)
    ensures Words(a + s) == Words(s)
    decreases |a|
  {
    if a == "" {
      assert a + s == s;
    } else {
      assert (a + s)[1..] == a[1..] + s;
      WordsOfBlank(a[1..], s);
    }
  }

  lemma {:induction false} WordEndsAtSpace(w: string, s: string)
    requires (forall i :: 0 <= i < |w| ==> w[i] !in ASCII_SPACE) && (s == "" || s[0] in ASCII_SPACE)
    ensures WordEnd(w + s) == |w|
    decreases |w|
  {
    if w == "" {
      assert w + s == s;
    } else {
      assert (w + s)[1..] == w[1..] + s;
      WordEndsAtSpace(w[1..], s);
    }
  }

  lemma WordsOfWord(w: string, s: string)
    requires IsWord(w) && (s == "" || s[0] in ASCII_SPACE)
    ensures Words(w + s) == [w] + Words(s)
  {
    WordEndsAtSpace(w, s);
    assert (w + s)[0] == w[0] && (w + s)[..|w|] == w && (w + s)[|w|..] == s;
  }

  lemma WordsOfNothing()
    ensures Words("") == []
  {
  }

  lemma SkipSpace(s: string)
    requires s != "" && s[0] in ASCII_SPACE
    ensures Words(s) == Words(s[1..])
  {
  }

  lemma TakeWord(s: string)
    requires s != "" && s[0] !in ASCII_SPACE
    ensures Words(s) == [s[..WordEnd(s)]] + Words(s[WordEnd(s)..]) && IsWord(s[..WordEnd(s)])
  {
  }

  lemma BlankGrows(c: char, a: string)
    requires c in ASCII_SPACE && Blank(a, ASCII_SPACE)
    ensures Blank([c] + a, ASCII_SPACE)
  {
  }

  /** The first word and what surrounds it. */
  lemma {:induction false} FirstWord(s: string) returns (a: string, w: string, rest: string)
    requires Words(s) != []
    ensures s == a + w + rest && Blank(a, ASCII_SPACE) && IsWord(w) && (rest == "" || rest[0] in ASCII_SPACE)
    ensures Words(s) == [w] + Words(rest)
    decreases |s|
  {
    hide Words, WordEnd, IsWord, Blank;
    WordsOfNothing();
    if s[0] in ASCII_SPACE {
      SkipSpace(s);
      a, w, rest := FirstWord(s[1..]);
      assert s == [s[0]] + (a + w + rest);
      BlankGrows(s[0], a);
      a := [s[0]] + a;
    } else {
      TakeWord(s);
      BlankNothing();
      a, w, rest := "", s[..WordEnd(s)], s[WordEnd(s)..];
    }
  }

  lemma BlankNothing()
    ensures Blank("", ASCII_SPACE)
  {
  }

  lemma {:induction false} NoWords(s: string)
    requires Words(s) == []
    ensures Blank(s, ASCII_SPACE)
    decreases |s|
  {
    if s != "" {
      NoWords(s[1..]);
      assert s == [s[0]] + s[1..];
    }
  }

  /** The white space around the two words of a credential. */
  predicate SpacedAs(value: string, a: string, scheme: string, gap: string, token: string, b: string) {
    && value == a + scheme + gap + token + b
    && Blank(a, ASCII_SPACE) && Blank(gap, ASCII_SPACE) && Blank(b, ASCII_SPACE) && gap != ""
  }

  /** A value is accepted exactly when it is readable and made of the scheme "bearer", in any case,
      white space, and one token68. */
  lemma BearerExactly(value: string)
    ensures ValidBearer(value)
            <==> Readable(value)
                 && exists a, scheme, gap, token, b ::
                      SpacedAs(value, a, scheme, gap, token, b) && Lower(scheme) == "bearer" && Token68(token)
  {
    hide Words, Token68;
    if ValidBearer(value) {
      var a, scheme, rest := FirstWord(value);
      var gap, token, b := FirstWord(rest);
      NoWords(b);
      GapNeeded(rest, gap, token + b, token);
      assert value == a + scheme + gap + token + b;
      assert SpacedAs(value, a, scheme, gap, token, b);
    }
    forall a, scheme, gap, token, b
      | SpacedAs(value, a, scheme, gap, token, b) && Lower(scheme) == "bearer" && Token68(token)
      ensures Words(value) == [scheme, token]
    {
      TwoWords(a, scheme, gap, token, b);
    }
  }

  lemma GapNeeded(rest: string, gap: string, after: string, token: string)
    requires rest == gap + after && IsWord(token) && token <= after
    ensures gap == "" ==> rest != "" && rest[0] !in ASCII_SPACE
  {
    if gap == "" {
      assert rest[0] == token[0];
    }
  }

  lemma Token68IsWord(token: string)
    requires Token68(token)
    ensures IsWord(token)
  {
    var n :| 0 < n <= |token| && AllBase(token[..n]) && AllPadding(token[n..]);
    forall i | 0 <= i < |token| ensures token[i] !in ASCII_SPACE {
      assert i < n ==> token[..n][i] == token[i];
      assert i >= n ==> token[n..][i - n] == token[i];
    }
  }

  lemma TwoWords(a: string, scheme: string, gap: string, token: string, b: string)
    requires SpacedAs(a + scheme + gap + token + b, a, scheme, gap, token, b)
    requires Lower(scheme) == "bearer" && Token68(token)
    ensures Words(a + scheme + gap + token + b) == [scheme, token]
  {
    SchemeIsWord(scheme);
    Token68IsWord(token);
    hide Words, Token68, Lower;
    assert a + scheme + gap + token + b == a + (scheme + (gap + (token + b)));
    WordsOfBlank(a, scheme + (gap + (token + b)));
    WordsOfWord(scheme, gap + (token + b));
    WordsOfBlank(gap, token + b);
    WordsOfWord(token, b);
    WordsOfBlank(b, "");
    assert b + "" == b;
    WordsOfNothing();
  }

  lemma SchemeIsWord(scheme: string)
    requires Lower(scheme) == "bearer"
    ensures IsWord(scheme)
  {
    forall i | 0 <= i < |scheme| ensures scheme[i] !in ASCII_SPACE {
      assert Lower(scheme)[i] == LowerChar(scheme[i]);
      assert "bearer"[i] !in ASCII_SPACE;
    }
  }

  // ----- Bearer values that are built -----

  lemma SchemeWord()
    ensures IsWord("Bearer") && Readable("Bearer ") && Lower("Bearer") == "bearer"
  {
  }

  lemma WordsOfBearer(token: string)
    ensures Words("Bearer " + token) == ["Bearer"] + Words(token)
  {
    SchemeWord();
    hide Words, IsWord;
    assert "Bearer " + token == "Bearer" + (" " + token);
    WordsOfWord("Bearer", " " + token);
    WordsOfBlank(" ", token);
  }

  lemma ReadableConcat(a: string, b: string)
    ensures Readable(a + b) <==> Readable(a) && Readable(b)
  {
    assert forall i :: 0 <= i < |a| ==> (a + b)[i] == a[i];
    assert forall i :: 0 <= i < |b| ==> (a + b)[|a| + i] == b[i];
  }

  lemma Token68IsReadable(token: string)
    requires Token68(token)
    ensures Readable(token)
  {
    var n :| 0 < n <= |token| && AllBase(token[..n]) && AllPadding(token[n..]);
    forall i | 0 <= i < |token| ensures ' ' <= token[i] <= '~' {
      assert i < n ==> token[..n][i] == token[i];
      assert i >= n ==> token[n..][i - n] == token[i];
    }
  }

  lemma OnlyWord(token: string)
    requires IsWord(token)
    ensures Words(token) == [token]
  {
    WordsOfNothing();
    hide Words, IsWord;
    WordsOfWord(token, "");
    assert token + "" == token;
  }

  /** A bearer value built from a token is accepted exactly when a token68 is all the token holds. */
  lemma BuiltBearer(token: string)
    ensures IsWord(token) ==> Words("Bearer " + token) == ["Bearer", token]
    ensures ValidBearer("Bearer " + token) <==> Readable(token) && exists w :: Words(token) == [w] && Token68(w)
    ensures IsWord(token) ==> (ValidBearer("Bearer " + token) <==> Token68(token))
    ensures forall other: string :: "Bearer " + token == "Bearer " + other ==> token == other
  {
    forall other: string | "Bearer " + token == "Bearer " + other ensures token == other {
      assert token == ("Bearer " + token)[7..] && other == ("Bearer " + other)[7..];
    }
    SchemeWord();
    WordsOfBearer(token);
    ReadableConcat("Bearer ", token);
    hide Words, IsWord, Token68, Readable, Lower;
    if IsWord(token) {
      OnlyWord(token);
      assert ["Bearer"] + [token] == ["Bearer", token];
      if Token68(token) {
        Token68IsReadable(token);
      }
    }
    if ValidBearer("Bearer " + token) {
      assert Words("Bearer " + token)[1] == Words(token)[0];
      assert Words(token) == [Words(token)[0]];
    }
  }

  // ----- Credentials by their text -----

  /** The characters of a token68: letters, digits and "-._~+/". */
  predicate BaseText(c: char) {
    var b := c as int;
    || 0x30 <= b <= 0x39 || 0x41 <= b <= 0x5A || 0x61 <= b <= 0x7A
    || b == 0x2D || b == 0x2E || b == 0x5F || b == 0x7E || b == 0x2B || b == 0x2F
  }

  /** At least one of them, then "=" as often as one likes. */
  predicate Token68Text(token: string) {
    exists n :: 0 < n <= |token| && BaseBefore(token, n) && PaddingFrom(token, n)
  }

  predicate BaseBefore(token: string, n: nat)
    requires n <= |token|
  {
    forall i :: 0 <= i < n ==> BaseText(token[i])
  }

  predicate PaddingFrom(token: string, n: nat)
    requires n <= |token|
  {
    forall i :: n <= i < |token| ==> token[i] as int == 0x3D
  }

  /** Spaces and tabs. */
  predicate GapText(s: string) { forall i :: 0 <= i < |s| ==> s[i] as int == 0x20 || s[i] as int == 0x09 }

  /** The scheme, whatever the case of its letters. */
  predicate SchemeText(scheme: string) {
    && |scheme| == 6
    && (scheme[0] == 'b' || scheme[0] == 'B') && (scheme[1] == 'e' || scheme[1] == 'E')
    && (scheme[2] == 'a' || scheme[2] == 'A') && (scheme[3] == 'r' || scheme[3] == 'R')
    && (scheme[4] == 'e' || scheme[4] == 'E') && (scheme[5] == 'r' || scheme[5] == 'R')
  }

  predicate CredentialOf(value: string, a: string, scheme: string, gap: string, token: string, b: string) {
    && value == a + scheme + gap + token + b && GapText(a) && GapText(gap) && GapText(b) && gap != ""
    && SchemeText(scheme) && Token68Text(token)
  }

  lemma Token68TextExactly(token: string)
    ensures Token68(token) <==> Token68Text(token)
  {
    forall n: nat | n <= |token|
      ensures AllBase(token[..n]) <==> BaseBefore(token, n)
      ensures AllPadding(token[n..]) <==> PaddingFrom(token, n)
    {
      assert forall i :: 0 <= i < n ==> token[..n][i] == token[i];
      assert forall i :: n <= i < |token| ==> token[n..][i - n] == token[i];
    }
    hide AllBase, AllPadding, BaseBefore, PaddingFrom;
  }

  lemma SchemeTextExactly(scheme: string)
    ensures Lower(scheme) == "bearer" <==> SchemeText(scheme)
  {
    assert |"bearer"| == 6;
    if SchemeText(scheme) {
      assert forall i :: 0 <= i < 6 ==> Lower(scheme)[i] == "bearer"[i];
    }
    if Lower(scheme) == "bearer" {
      assert |scheme| == 6;
      assert forall i :: 0 <= i < 6 ==> LowerChar(scheme[i]) == Lower(scheme)[i];
      assert Lower(scheme)[0] == 'b' && Lower(scheme)[1] == 'e' && Lower(scheme)[2] == 'a';
      assert Lower(scheme)[3] == 'r' && Lower(scheme)[4] == 'e' && Lower(scheme)[5] == 'r';
    }
  }

  lemma GapTextExactly(s: string)
    ensures Blank(s, ASCII_SPACE) && Readable(s) <==> GapText(s)
  {
  }

  lemma ReadableParts(a: string, scheme: string, gap: string, token: string, b: string)
    ensures Readable(a + scheme + gap + token + b)
            <==> Readable(a) && Readable(scheme) && Readable(gap) && Readable(token) && Readable(b)
  {
    ReadableConcat(a, scheme);
    ReadableConcat(a + scheme, gap);
    ReadableConcat(a + scheme + gap, token);
    ReadableConcat(a + scheme + gap + token, b);
  }

  lemma SchemeIsReadable(scheme: string)
    requires SchemeText(scheme)
    ensures Readable(scheme)
  {
  }

  /** A client's credential is accepted exactly when it is made of the scheme, a gap and one token68. */
  lemma CredentialText(value: string)
    ensures ValidBearer(value) <==> exists a, scheme, gap, token, b :: CredentialOf(value, a, scheme, gap, token, b)
  {
    hide ValidBearer, Blank, Readable, Lower, Token68, SchemeText, Token68Text, GapText;
    BearerExactly(value);
    ValidIsReadable(value);
    if ValidBearer(value) {
      var a, scheme, gap, token, b :|
        SpacedAs(value, a, scheme, gap, token, b) && Lower(scheme) == "bearer" && Token68(token);
      PartsText(a, scheme, gap, token, b);
      assert CredentialOf(value, a, scheme, gap, token, b);
    }
    forall a, scheme, gap, token, b | CredentialOf(value, a, scheme, gap, token, b)
      ensures ValidBearer(value)
    {
      PartsText(a, scheme, gap, token, b);
      SchemeIsReadable(scheme);
      Token68IsReadable(token);
      assert SpacedAs(value, a, scheme, gap, token, b);
    }
  }

  lemma ValidIsReadable(value: string)
    ensures ValidBearer(value) ==> Readable(value)
  {
  }

  lemma PartsText(a: string, scheme: string, gap: string, token: string, b: string)
    ensures Readable(a + scheme + gap + token + b)
            <==> Readable(a) && Readable(scheme) && Readable(gap) && Readable(token) && Readable(b)
    ensures Blank(a, ASCII_SPACE) && Readable(a) <==> GapText(a)
    ensures Blank(gap, ASCII_SPACE) && Readable(gap) <==> GapText(gap)
    ensures Blank(b, ASCII_SPACE) && Readable(b) <==> GapText(b)
    ensures Lower(scheme) == "bearer" <==> SchemeText(scheme)
    ensures Token68(token) <==> Token68Text(token)
  {
    hide Blank, Readable, Lower, Token68, SchemeText, Token68Text, GapText;
    ReadableParts(a, scheme, gap, token, b);
    GapTextExactly(a);
    GapTextExactly(gap);
    GapTextExactly(b);
    SchemeTextExactly(scheme);
    Token68TextExactly(token);
  }
}
