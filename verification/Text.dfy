/** Byte strings and the ASCII operations the hand-written parsers use. A Rust `&str` or byte slice is
    the sequence of its bytes, one char per byte. */
module Text {
  import opened Common

  predicate IsDigit(c: char) { '0' <= c <= '9' }

  predicate IsAlnum(c: char) { IsDigit(c) || 'a' <= c <= 'z' || 'A' <= c <= 'Z' }

  /** A token character (section 5.6.2 of RFC 9110). */
  predicate IsTokenChar(c: char) {
    IsAlnum(c) ||
    c in {'!', '#', '$', '%', '&', '\'', '*', '+', '-', '.', '^', '_', '`', '|', '~'}
  }

  predicate IsToken(s: string) {
    s != "" && forall i :: 0 <= i < |s| ==> IsTokenChar(s[i])
  }

  /** The delimiters, which no token holds. */
  const DELIMITERS: set<char> :=
    {'"', '(', ')', ',', '/', ':', ';', '<', '=', '>', '?', '@', '[', '\\', ']', '{', '}'}

  /** A token: visible ASCII without delimiters. */
  predicate TokenText(s: string) {
    s != "" && forall i :: 0 <= i < |s| ==> 0x21 <= s[i] as int <= 0x7E && s[i] !in DELIMITERS
  }

  lemma TokenTextExactly(s: string)
    ensures IsToken(s) <==> TokenText(s)
  {
    forall c: char
      ensures IsTokenChar(c) <==> 0x21 <= c as int <= 0x7E && c !in DELIMITERS
    {
      TokenCharText(c);
    }
    hide IsTokenChar;
  }

  lemma TokenCharText(c: char)
    ensures IsTokenChar(c) <==> 0x21 <= c as int <= 0x7E && c !in DELIMITERS
  {
  }

  function LowerChar(c: char): char {
    if 'A' <= c <= 'Z' then c - 'A' + 'a' else c
  }

  function Lower(s: string): (r: string)
    ensures |r| == |s| && forall i :: 0 <= i < |s| ==> r[i] == LowerChar(s[i])
  {
    if s == "" then "" else [LowerChar(s[0])] + Lower(s[1..])
  }

  lemma LowerKeeps(s: string)
    requires forall i :: 0 <= i < |s| ==> !('A' <= s[i] <= 'Z')
    ensures Lower(s) == s
  {
  }

  predicate Lacks(s: string, c: char) {
    forall i :: 0 <= i < |s| ==> s[i] != c
  }

  lemma LacksConcat(a: string, b: string, c: char)
    ensures Lacks(a + b, c) <==> Lacks(a, c) && Lacks(b, c)
  {
    assert forall i :: 0 <= i < |a| ==> (a + b)[i] == a[i];
    assert forall i :: 0 <= i < |b| ==> (a + b)[|a| + i] == b[i];
  }

  // ----- Splitting and joining -----

  /** `str::split` at a character. */
  function Split(s: string, sep: char): (parts: seq<string>)
    ensures parts != []
  {
    if s == "" then [""]
    else
      var rest := Split(s[1..], sep);
      if s[0] == sep then [""] + rest else [[s[0]] + rest[0]] + rest[1..]
  }

  /** `str::split_once` at a character: around its first occurrence. */
  function SplitOnce(s: string, sep: char): Option<(string, string)> {
    if s == "" then None
    else if s[0] == sep then Some(("", s[1..]))
    else match SplitOnce(s[1..], sep)
      case None => None
      case Some((head, tail)) => Some(([s[0]] + head, tail))
  }

  function Join(parts: seq<string>, glue: string): string {
    if parts == [] then ""
    else if |parts| == 1 then parts[0]
    else parts[0] + glue + Join(parts[1..], glue)
  }

  /** Splitting a piece without the separator, then the separator, then more. */
  lemma {:induction false} SplitAt(a: string, sep: char, b: string)
    requires Lacks(a, sep)
    ensures Split(a + [sep] + b, sep) == [a] + Split(b, sep)
    decreases |a|
  {
    var s := a + [sep] + b;
    if a == "" {
      assert s[1..] == b;
    } else {
      assert s[1..] == a[1..] + [sep] + b && [a[0]] + a[1..] == a;
      SplitAt(a[1..], sep, b);
    }
  }

  lemma {:induction false} SplitNone(a: string, sep: char)
    requires Lacks(a, sep)
    ensures Split(a, sep) == [a]
    decreases |a|
  {
    if a != "" {
      assert [a[0]] + a[1..] == a;
      SplitNone(a[1..], sep);
    }
  }

  /** Splitting undoes joining with the separator. */
  lemma {:induction false} SplitJoin(parts: seq<string>, sep: char)
    requires parts != [] && forall i :: 0 <= i < |parts| ==> Lacks(parts[i], sep)
    ensures Split(Join(parts, [sep]), sep) == parts
  {
    if |parts| == 1 {
      SplitNone(parts[0], sep);
    } else {
      SplitAt(parts[0], sep, Join(parts[1..], [sep]));
      SplitJoin(parts[1..], sep);
    }
  }

  /** Splitting distributes over the separator between any two strings. */
  lemma {:induction false} SplitConcat(a: string, sep: char, b: string)
    ensures Split(a + [sep] + b, sep) == Split(a, sep) + Split(b, sep)
    decreases |a|
  {
    var s := a + [sep] + b;
    if a == "" {
      assert s[1..] == b;
    } else {
      assert s[1..] == a[1..] + [sep] + b;
      SplitConcat(a[1..], sep, b);
    }
  }

  lemma {:induction false} SplitOnceAt(a: string, sep: char, b: string)
    requires Lacks(a, sep)
    ensures SplitOnce(a + [sep] + b, sep) == Some((a, b))
    decreases |a|
  {
    var s := a + [sep] + b;
    if a == "" {
      assert s[1..] == b;
    } else {
      assert s[1..] == a[1..] + [sep] + b && [a[0]] + a[1..] == a;
      SplitOnceAt(a[1..], sep, b);
    }
  }

  lemma {:induction false} SplitOnceNone(a: string, sep: char)
    requires Lacks(a, sep)
    ensures SplitOnce(a, sep) == None
    decreases |a|
  {
    if a != "" {
      SplitOnceNone(a[1..], sep);
    }
  }

  // ----- Trimming -----

  const SPACE_TAB: set<char> := {' ', '\t'}

  predicate Blank(s: string, blank: set<char>) {
    forall i :: 0 <= i < |s| ==> s[i] in blank
  }

  function TrimStart(s: string, blank: set<char>): string {
    if s != "" && s[0] in blank then TrimStart(s[1..], blank) else s
  }

  function TrimEnd(s: string, blank: set<char>): string {
    if s != "" && s[|s| - 1] in blank then TrimEnd(s[..|s| - 1], blank) else s
  }

  /** `str::trim_matches`. */
  function Trim(s: string, blank: set<char>): string {
    TrimEnd(TrimStart(s, blank), blank)
  }

  /** A string that neither starts nor ends with a blank. */
  predicate Tight(s: string, blank: set<char>) {
    s != "" ==> s[0] !in blank && s[|s| - 1] !in blank
  }

  lemma {:induction false} TrimStartDrops(a: string, s: string, blank: set<char>)
    requires Blank(a, blank)
    ensures TrimStart(a + s, blank) == TrimStart(s, blank)
    decreases |a|
  {
    if a == "" {
      assert a + s == s;
    } else {
      assert (a + s)[1..] == a[1..] + s;
      TrimStartDrops(a[1..], s, blank);
    }
  }

  lemma {:induction false} TrimEndDrops(s: string, b: string, blank: set<char>)
    requires Blank(b, blank)
    ensures TrimEnd(s + b, blank) == TrimEnd(s, blank)
    decreases |b|
  {
    if b == "" {
      assert s + b == s;
    } else {
      assert (s + b)[..|s + b| - 1] == s + b[..|b| - 1];
      TrimEndDrops(s, b[..|b| - 1], blank);
    }
  }

  /** Trimming drops exactly the blanks around a tight string. */
  lemma TrimPadded(a: string, s: string, b: string, blank: set<char>)
    requires Blank(a, blank) && Blank(b, blank) && Tight(s, blank)
    ensures Trim(a + s + b, blank) == s
  {
    assert a + s + b == a + (s + b);
    TrimStartDrops(a, s + b, blank);
    if s == "" {
      assert s + b == b + "";
      TrimStartDrops(b, "", blank);
    } else {
      assert TrimStart(s + b, blank) == s + b;
      TrimEndDrops(s, b, blank);
    }
  }

  /** What is left after trimming is tight, and a middle piece of the string. */
  lemma {:induction false} TrimStartSplits(s: string, blank: set<char>) returns (a: string)
    ensures Blank(a, blank) && s == a + TrimStart(s, blank)
    ensures TrimStart(s, blank) != "" ==> TrimStart(s, blank)[0] !in blank
    decreases |s|
  {
    if s != "" && s[0] in blank {
      a := TrimStartSplits(s[1..], blank);
      a := [s[0]] + a;
    } else {
      a := "";
    }
  }

  lemma {:induction false} TrimEndSplits(s: string, blank: set<char>) returns (b: string)
    ensures Blank(b, blank) && s == TrimEnd(s, blank) + b
    ensures TrimEnd(s, blank) != "" ==> TrimEnd(s, blank)[|TrimEnd(s, blank)| - 1] !in blank
    decreases |s|
  {
    if s != "" && s[|s| - 1] in blank {
      b := TrimEndSplits(s[..|s| - 1], blank);
      b := b + [s[|s| - 1]];
    } else {
      b := "";
    }
  }

  lemma TrimSplits(s: string, blank: set<char>) returns (a: string, b: string)
    ensures Blank(a, blank) && Blank(b, blank) && Tight(Trim(s, blank), blank)
    ensures s == a + Trim(s, blank) + b
  {
    a := TrimStartSplits(s, blank);
    b := TrimEndSplits(TrimStart(s, blank), blank);
  }

  // ----- Splitting loses nothing -----

  lemma {:induction false} JoinSplit(s: string, sep: char)
    ensures Join(Split(s, sep), [sep]) == s
    ensures forall i :: 0 <= i < |Split(s, sep)| ==> Lacks(Split(s, sep)[i], sep)
  {
    if s != "" {
      JoinSplit(s[1..], sep);
      var rest := Split(s[1..], sep);
      assert s == [s[0]] + s[1..];
      if s[0] != sep {
        assert ([[s[0]] + rest[0]] + rest[1..])[1..] == rest[1..];
        JoinHead([s[0]], rest, [sep]);
      }
    }
  }

  lemma JoinHead(a: string, parts: seq<string>, glue: string)
    requires parts != []
    ensures Join([a + parts[0]] + parts[1..], glue) == a + Join(parts, glue)
  {
    assert ([a + parts[0]] + parts[1..])[1..] == parts[1..];
    if |parts| > 1 {
      assert a + parts[0] + glue + Join(parts[1..], glue) == a + (parts[0] + glue + Join(parts[1..], glue));
    }
  }

  // ----- Prefixes and suffixes -----

  function StripPrefix(s: string, prefix: string): Option<string> {
    if prefix <= s then Some(s[|prefix|..]) else None
  }

  predicate EndsWith(s: string, suffix: string) {
    |suffix| <= |s| && s[|s| - |suffix|..] == suffix
  }

  function StripSuffix(s: string, suffix: string): Option<string> {
    if EndsWith(s, suffix) then Some(s[..|s| - |suffix|]) else None
  }
}
