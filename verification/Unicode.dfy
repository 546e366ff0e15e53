/** Unicode scalar values and their encoding in bytes (section 3 of RFC 3629), independently of the
    validating scan: what is valid is what encodes scalar values, and what is white space. */
module Unicode {
  import opened Utf8
  import Contract

  predicate IsScalar(cp: int) { 0 <= cp < 0xD800 || 0xE000 <= cp < 0x11_0000 }

  function Trail(v: int): char
    requires 0 <= v
  {
    (0x80 + v % 64) as char
  }

  function Encoded(cp: int): (bytes: string)
    requires IsScalar(cp)
    ensures bytes != ""
  {
    if cp < 0x80 then [cp as char]
    else if cp < 0x800 then [(0xC0 + cp / 64) as char, Trail(cp)]
    else if cp < 0x1_0000 then [(0xE0 + cp / 4096) as char, Trail(cp / 64), Trail(cp)]
    else [(0xF0 + cp / 262_144) as char, Trail(cp / 4096), Trail(cp / 64), Trail(cp)]
  }

  predicate AllScalars(cps: seq<int>) { forall i :: 0 <= i < |cps| ==> IsScalar(cps[i]) }

  function EncodedAll(cps: seq<int>): string
    requires AllScalars(cps)
  {
    if cps == [] then "" else Encoded(cps[0]) + EncodedAll(cps[1..])
  }

  lemma ThreeLong(a: int, b: int, c: int)
    requires 0 <= a < 16 && 0 <= b < 64 && 0 <= c < 64 && (a == 0 ==> b >= 32) && (a == 13 ==> b < 32)
    ensures ScalarLen([(0xE0 + a) as char, (0x80 + b) as char, (0x80 + c) as char]) == 3
  {
  }

  lemma FourLong(a: int, b: int, c: int, d: int)
    requires 0 <= a <= 4 && 0 <= b < 64 && 0 <= c < 64 && 0 <= d < 64 && (a == 0 ==> b >= 16) && (a == 4 ==> b < 16)
    ensures ScalarLen([(0xF0 + a) as char, (0x80 + b) as char, (0x80 + c) as char, (0x80 + d) as char]) == 4
  {
  }

  lemma ThreeRange(cp: int)
    requires IsScalar(cp) && 0x800 <= cp < 0x1_0000
    ensures cp / 4096 == 0 ==> cp / 64 % 64 >= 32
    ensures cp / 4096 == 13 ==> cp / 64 % 64 < 32
  {
  }

  lemma FourRange(cp: int)
    requires 0x1_0000 <= cp < 0x11_0000
    ensures cp / 262_144 == 0 ==> cp / 4096 % 64 >= 16
    ensures cp / 262_144 == 4 ==> cp / 4096 % 64 < 16
  {
  }

  lemma EncodedOne(cp: int)
    requires IsScalar(cp)
    ensures ScalarLen(Encoded(cp)) == |Encoded(cp)|
  {
    if cp < 0x800 {
      assert cp >= 0x80 ==> 2 <= cp / 64 < 32;
    } else {
      hide ScalarLen;
      if cp < 0x1_0000 {
        ThreeRange(cp);
        ThreeLong(cp / 4096, cp / 64 % 64, cp % 64);
      } else {
        FourRange(cp);
        FourLong(cp / 262_144, cp / 4096 % 64, cp / 64 % 64, cp % 64);
      }
    }
  }

  lemma EncodedHead(cp: int, rest: string)
    requires IsScalar(cp)
    ensures ScalarLen(Encoded(cp) + rest) == |Encoded(cp)|
    ensures (Encoded(cp) + rest)[..|Encoded(cp)|] == Encoded(cp) && (Encoded(cp) + rest)[|Encoded(cp)|..] == rest
  {
    EncodedOne(cp);
    ScalarLocal(Encoded(cp), rest);
  }

  function Low(c: char): int { c as int - 0x80 }

  /** The scalar value a valid string starts with. */
  lemma Decoded(s: string) returns (cp: int)
    requires ScalarLen(s) > 0
    ensures IsScalar(cp) && Encoded(cp) == s[..ScalarLen(s)]
  {
    if ScalarLen(s) == 1 {
      cp := s[0] as int;
    } else if ScalarLen(s) == 2 {
      cp := DecodedTwo(s);
    } else if ScalarLen(s) == 3 {
      cp := DecodedThree(s);
    } else {
      cp := DecodedFour(s);
    }
  }

  lemma DecodedTwo(s: string) returns (cp: int)
    requires ScalarLen(s) == 2
    ensures IsScalar(cp) && Encoded(cp) == s[..2]
  {
    cp := 64 * (s[0] as int - 0xC0) + Low(s[1]);
    TwoBytes(s[0] as int - 0xC0, Low(s[1]));
  }

  lemma DecodedThree(s: string) returns (cp: int)
    requires ScalarLen(s) == 3
    ensures IsScalar(cp) && Encoded(cp) == s[..3]
  {
    var a, b, c := s[0] as int - 0xE0, Low(s[1]), Low(s[2]);
    assert 0 <= a < 16 && 0 <= b < 64 && 0 <= c < 64 && (a == 0 ==> b >= 32) && (a == 13 ==> b < 32);
    cp := 4096 * a + 64 * b + c;
    ThreeBytes(a, b, c);
    hide ScalarLen;
    assert Encoded(cp) == [(0xE0 + a) as char, (0x80 + b) as char, (0x80 + c) as char];
  }

  lemma DecodedFour(s: string) returns (cp: int)
    requires ScalarLen(s) == 4
    ensures IsScalar(cp) && Encoded(cp) == s[..4]
  {
    var a, b, c, d := s[0] as int - 0xF0, Low(s[1]), Low(s[2]), Low(s[3]);
    assert 0 <= a <= 4 && 0 <= b < 64 && 0 <= c < 64 && 0 <= d < 64 && (a == 0 ==> b >= 16) && (a == 4 ==> b < 16);
    cp := 262_144 * a + 4096 * b + 64 * c + d;
    FourBytes(a, b, c, d);
    hide ScalarLen;
    assert Encoded(cp) == [(0xF0 + a) as char, (0x80 + b) as char, (0x80 + c) as char, (0x80 + d) as char];
  }

  lemma TwoBytes(a: int, b: int)
    requires 0 <= b < 64
    ensures (64 * a + b) / 64 == a && (64 * a + b) % 64 == b
  {
  }

  lemma ThreeBytes(a: int, b: int, c: int)
    requires 0 <= b < 64 && 0 <= c < 64
    ensures var cp := 4096 * a + 64 * b + c; cp / 4096 == a && cp / 64 % 64 == b && cp % 64 == c
  {
    TwoBytes(64 * a + b, c);
    TwoBytes(a, b);
  }

  lemma FourBytes(a: int, b: int, c: int, d: int)
    requires 0 <= b < 64 && 0 <= c < 64 && 0 <= d < 64
    ensures var cp := 262_144 * a + 4096 * b + 64 * c + d;
            cp / 262_144 == a && cp / 4096 % 64 == b && cp / 64 % 64 == c && cp % 64 == d
  {
    ThreeBytes(64 * a + b, c, d);
    TwoBytes(a, b);
  }

  /** A byte string is valid exactly when it encodes scalar values. */
  lemma ValidExactly(s: string)
    ensures Valid(s) <==> exists cps :: AllScalars(cps) && EncodedAll(cps) == s
  {
    if Valid(s) {
      var cps := DecodedAll(s);
    }
    forall cps | AllScalars(cps) && EncodedAll(cps) == s ensures Valid(s) {
      EncodedIsValid(cps);
    }
  }

  lemma {:induction false} DecodedAll(s: string) returns (cps: seq<int>)
    requires Valid(s)
    ensures AllScalars(cps) && EncodedAll(cps) == s
    decreases |s|
  {
    hide ScalarLen, Encoded;
    if s == "" {
      cps := [];
    } else {
      var cp := Decoded(s);
      var rest := DecodedAll(s[ScalarLen(s)..]);
      cps := [cp] + rest;
      assert cps[1..] == rest && s[..ScalarLen(s)] + s[ScalarLen(s)..] == s;
    }
  }

  lemma {:induction false} EncodedIsValid(cps: seq<int>)
    requires AllScalars(cps)
    ensures Valid(EncodedAll(cps))
  {
    hide ScalarLen, Encoded;
    if cps != [] {
      EncodedHead(cps[0], EncodedAll(cps[1..]));
      EncodedIsValid(cps[1..]);
    }
  }

  /** The replacement character is the one the frame log looks for. */
  lemma ReplacementIsScalar(s: string, k: nat)
    ensures ReplacementAt(s, k) <==> k + 3 <= |s| && s[k..k + 3] == Encoded(0xFFFD)
  {
  }

  // ----- White space -----

  /** The scalar values with the property White_Space. */
  predicate IsWhite(cp: int) {
    || 0x9 <= cp <= 0xD || cp == 0x20 || cp == 0x85 || cp == 0xA0 || cp == 0x1680
    || 0x2000 <= cp <= 0x200A || cp == 0x2028 || cp == 0x2029 || cp == 0x202F || cp == 0x205F || cp == 0x3000
  }

  lemma WhiteHead(cp: int, rest: string)
    requires IsScalar(cp)
    ensures Contract.WhiteLen(Encoded(cp) + rest) == if IsWhite(cp) then |Encoded(cp)| else 0
  {
    var s := Encoded(cp) + rest;
    assert forall i :: 0 <= i < |Encoded(cp)| ==> s[i] == Encoded(cp)[i];
  }

  /** A text is blank exactly when all its characters are white space. */
  lemma {:induction false} BlankExactly(cps: seq<int>)
    requires AllScalars(cps)
    ensures Contract.AllWhite(EncodedAll(cps)) <==> forall i :: 0 <= i < |cps| ==> IsWhite(cps[i])
  {
    hide Encoded, IsWhite, Contract.WhiteLen;
    if cps != [] {
      var rest := EncodedAll(cps[1..]);
      WhiteHead(cps[0], rest);
      EncodedHead(cps[0], rest);
      BlankExactly(cps[1..]);
      assert cps == [cps[0]] + cps[1..];
    }
  }
}
