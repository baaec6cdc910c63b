/** The size line of a chunk (RFC 9112, section 7.1) as the agent reads it. */
module ChunkSizes {
  import opened Base
  import opened ByteSearch

  const SEMICOLON: byte := 59
  const PLUS: byte := 43
  const MINUS: byte := 45
  const MAX_INT64 := 0x7FFF_FFFF_FFFF_FFFF

  predicate IsAsciiSpace(c: byte) {
    9 <= c <= 13 || c == 32
  }

  /** The two- and three-byte UTF-8 forms of the white space code points above ASCII. */
  predicate IsWideSpace(r: seq<byte>)
    ensures IsWideSpace(r) ==> |r| >= 2 && r[0] >= 0xC2 && r[|r| - 1] >= 0x80
  {
    || r == [0xC2, 0x85] || r == [0xC2, 0xA0]
    || r == [0xE1, 0x9A, 0x80] || r == [0xE2, 0x81, 0x9F] || r == [0xE3, 0x80, 0x80]
    || (|r| == 3 && r[..2] == [0xE2, 0x80] &&
        (r[2] <= 0x8A || r[2] == 0xA8 || r[2] == 0xA9 || r[2] == 0xAF) && 0x80 <= r[2])
  }

  /** How many bytes the white space character at the front of `s` takes; 0 if there is none. */
  function SpaceFront(s: seq<byte>): (n: nat)
    ensures n <= |s|
  {
    if 1 <= |s| && IsAsciiSpace(s[0]) then 1
    else if 2 <= |s| && IsWideSpace(s[..2]) then 2
    else if 3 <= |s| && IsWideSpace(s[..3]) then 3
    else 0
  }

  function SpaceBack(s: seq<byte>): (n: nat)
    ensures n <= |s|
  {
    if 1 <= |s| && IsAsciiSpace(s[|s| - 1]) then 1
    else if 2 <= |s| && IsWideSpace(s[|s| - 2..]) then 2
    else if 3 <= |s| && IsWideSpace(s[|s| - 3..]) then 3
    else 0
  }

  function TrimSpace(s: seq<byte>): seq<byte>
    decreases |s|
  {
    if SpaceFront(s) > 0 then TrimSpace(s[SpaceFront(s)..])
    else if SpaceBack(s) > 0 then TrimSpace(s[..|s| - SpaceBack(s)])
    else s
  }

  function HexDigit(c: byte): Option<nat> {
    if 48 <= c <= 57 then Some(c - 48)
    else if 65 <= c <= 70 then Some(c - 55)
    else if 97 <= c <= 102 then Some(c - 87)
    else None
  }

  predicate IsHex(s: seq<byte>) {
    forall i :: 0 <= i < |s| ==> HexDigit(s[i]).Some?
  }

  function HexValue(s: seq<byte>): nat
    requires IsHex(s)
  {
    if s == [] then 0 else 16 * HexValue(s[..|s| - 1]) + HexDigit(s[|s| - 1]).value
  }

  /** `strconv.ParseInt(s, 16, 64)` */
  function ParseHexInt(s: seq<byte>): Option<int> {
    var signed := s != [] && (s[0] == PLUS || s[0] == MINUS);
    var digits := if signed then s[1..] else s;
    if digits == [] || !IsHex(digits) then None else
    var v := HexValue(digits);
    if signed && s[0] == MINUS then (if v > MAX_INT64 + 1 then None else Some(0 - v as int))
    else if v > MAX_INT64 then None else Some(v)
  }

  function ChunkSize(line: seq<byte>): Option<int> {
    var semi := Index(line, [SEMICOLON]);
    ParseHexInt(TrimSpace(if semi >= 0 then line[..semi] else line))
  }

  // ----- hexadecimal numbers -----

  const LOWER := "0123456789abcdef"
  const UPPER := "0123456789ABCDEF"

  /** `c` is the digit `d`, in either case. */
  predicate IsDigit(c: byte, d: nat) {
    d < 16 && (c == LOWER[d] as int || c == UPPER[d] as int)
  }

  /** `s` is the number `n` in base 16, perhaps with leading zeros. */
  predicate Spells(s: seq<byte>, n: nat) {
    && s != [] && IsDigit(s[|s| - 1], n % 16)
    && if |s| == 1 then n < 16 else Spells(s[..|s| - 1], n / 16)
  }

  function HexOf(n: nat, alphabet: string): seq<byte>
    requires alphabet == LOWER || alphabet == UPPER
  {
    (if n < 16 then [] else HexOf(n / 16, alphabet)) + [alphabet[n % 16] as int]
  }

  lemma {:induction false} HexOfSpells(n: nat, alphabet: string)
    requires alphabet == LOWER || alphabet == UPPER
    ensures Spells(HexOf(n, alphabet), n)
  {
    if 16 <= n {
      HexOfSpells(n / 16, alphabet);
      var front := HexOf(n / 16, alphabet);
      assert (front + [alphabet[n % 16] as int])[..|front|] == front;
    }
  }

  lemma {:induction false} DigitValue(c: byte, d: nat)
    ensures IsDigit(c, d) <==> HexDigit(c) == Some(d)
  {
  }

  /** Reading digits is the inverse of spelling a number, and every string of digits spells one. */
  lemma {:induction false} SpellsExactly(s: seq<byte>, n: nat)
    ensures Spells(s, n) <==> s != [] && IsHex(s) && HexValue(s) == n
  {
    if s != [] {
      var k := |s| - 1;
      DigitValue(s[k], n % 16);
      hide IsDigit, HexDigit;
      assert IsHex(s) <==> IsHex(s[..k]) && HexDigit(s[k]).Some?;
      hide IsHex;
      if k > 0 {
        SpellsExactly(s[..k], n / 16);
      } else {
        assert s[..k] == [];
        assert IsHex([]) && HexValue([]) == 0 by { NoDigits(); }
      }
      if HexDigit(s[k]).Some? {
        DigitBelow(s[k]);
        LastDigit(if IsHex(s[..k]) then HexValue(s[..k]) else 0, HexDigit(s[k]).value, n);
      }
    }
  }

  lemma {:induction false} NoDigits()
    ensures IsHex([]) && HexValue([]) == 0
  {
  }

  lemma {:induction false} DigitBelow(c: byte)
    ensures HexDigit(c).Some? ==> HexDigit(c).value < 16
  {
  }

  lemma {:induction false} LastDigit(q: nat, d: nat, n: nat)
    requires d < 16
    ensures 16 * q + d == n <==> q == n / 16 && d == n % 16
  {
  }

  /** An optional sign and a number in base 16, in the range of 64 bits; all of it stands for `v`. */
  predicate Numeral(s: seq<byte>, v: int) {
    || (0 <= v <= MAX_INT64 && Spells(s, v))
    || (0 <= v <= MAX_INT64 && s != [] && s[0] == PLUS && Spells(s[1..], v))
    || (-MAX_INT64 - 1 <= v <= 0 && s != [] && s[0] == MINUS && Spells(s[1..], -v))
  }

  /** A string is read as a number exactly if it is such a numeral. */
  lemma {:induction false} ParseHexExactly(s: seq<byte>, v: int)
    ensures ParseHexInt(s) == Some(v) <==> Numeral(s, v)
  {
    hide Spells, HexValue;
    if s != [] {
      SpellsExactly(s, Abs(v));
      SpellsExactly(s[1..], Abs(v));
      if s[0] == PLUS || s[0] == MINUS {
        assert HexDigit(s[0]).None?;
      }
    } else {
      SpellsExactly(s, Abs(v));
    }
  }

  /** Writing a number in base 16, in either case, and reading it again. */
  lemma {:induction false} HexRoundTrip(n: nat, alphabet: string)
    requires (alphabet == LOWER || alphabet == UPPER) && n <= MAX_INT64
    ensures ParseHexInt(HexOf(n, alphabet)) == Some(n)
  {
    HexOfSpells(n, alphabet);
    hide ParseHexInt, HexOf, Spells;
    ParseHexExactly(HexOf(n, alphabet), n);
  }

  function Abs(v: int): nat {
    if v < 0 then -v else v
  }

  // ----- white space -----

  /** The white space characters of Unicode. */
  type White = c: int |
    || 9 <= c <= 13 || c == 0x20 || c == 0x85 || c == 0xA0 || c == 0x1680 || 0x2000 <= c <= 0x200A
    || c == 0x2028 || c == 0x2029 || c == 0x202F || c == 0x205F || c == 0x3000
    witness 0x20

  /** One of these characters in UTF-8 (RFC 3629, section 3). */
  function Utf8(c: White): (r: seq<byte>)
    ensures r != []
  {
    if c < 0x80 then [c]
    else if c < 0x800 then [0xC0 + c / 64, 0x80 + c % 64]
    else [0xE0 + c / 4096, 0x80 + c / 64 % 64, 0x80 + c % 64]
  }

  function Utf8Text(cs: seq<White>): seq<byte>
  {
    if cs == [] then [] else Utf8Text(cs[..|cs| - 1]) + Utf8(cs[|cs| - 1])
  }

  lemma {:induction false} Utf8Front(c: White, cs: seq<White>)
    ensures Utf8Text([c] + cs) == Utf8(c) + Utf8Text(cs)
  {
    hide Utf8;
    var all := [c] + cs;
    if cs == [] {
      assert all[..0] == [];
    } else {
      var n := |cs| - 1;
      assert all[..|all| - 1] == [c] + cs[..n];
      Utf8Front(c, cs[..n]);
    }
  }

  /** A white space character is recognised at the front of a string and at its back. */
  lemma {:induction false} WhiteAtEnds(c: White, t: seq<byte>)
    ensures SpaceFront(Utf8(c) + t) == |Utf8(c)| && SpaceBack(t + Utf8(c)) == |Utf8(c)|
  {
    WideWhite(c);
    var u := Utf8(c);
    var s, r := u + t, t + u;
    if |u| == 1 {
      assert s[0] == c && r[|r| - 1] == c;
    } else if |u| == 2 {
      assert s[..2] == u && r[|r| - 2..] == u;
    } else {
      assert s[..3] == u && r[|r| - 3..] == u;
      assert s[..2] == u[..2] && r[|r| - 2..] == u[1..];
    }
  }

  lemma {:induction false} WideWhite(c: White)
    ensures var u := Utf8(c);
      && |u| <= 3
      && (|u| == 1 <==> IsAsciiSpace(u[0])) && (|u| == 1 <==> IsAsciiSpace(u[|u| - 1]))
      && (|u| == 1 ==> u == [c])
      && (|u| > 1 ==> IsWideSpace(u))
      && (|u| == 3 ==> !IsWideSpace(u[..2]) && !IsWideSpace(u[1..]))
  {
  }

  /** A character of one byte that is not white space. */
  predicate Plain(c: byte) {
    c < 0x80 && !(9 <= c <= 13) && c != 0x20
  }

  /** Trimming takes white space, and only white space, from both ends. */
  lemma {:induction false} Trimmed(before: seq<White>, core: seq<byte>, after: seq<White>)
    requires core != []
    requires Plain(core[0]) && Plain(core[|core| - 1])
    ensures TrimSpace(Utf8Text(before) + core + Utf8Text(after)) == core
    decreases |before| + |after|
  {
    hide IsWideSpace, Utf8, Plain;
    var s := Utf8Text(before) + core + Utf8Text(after);
    if before != [] {
      var c, rest := before[0], before[1..];
      assert before == [c] + rest;
      Utf8Front(c, rest);
      var t := Utf8Text(rest) + core + Utf8Text(after);
      assert s == Utf8(c) + t;
      WhiteAtEnds(c, t);
      assert s[SpaceFront(s)..] == t;
      hide SpaceFront, SpaceBack;
      Trimmed(rest, core, after);
    } else {
      assert s == core + Utf8Text(after);
      NoSpaceInFront(s);
      if after == [] {
        assert s == core;
        NoSpaceBehind(s);
      } else {
        var n := |after| - 1;
        var t := core + Utf8Text(after[..n]);
        assert s == t + Utf8(after[n]);
        WhiteAtEnds(after[n], t);
        assert s[..|s| - SpaceBack(s)] == t;
        hide SpaceFront, SpaceBack;
        Trimmed([], core, after[..n]);
        assert Utf8Text([]) + core + Utf8Text(after[..n]) == t;
      }
    }
  }

  lemma {:induction false} NoSpaceInFront(s: seq<byte>)
    requires s != [] && Plain(s[0])
    ensures SpaceFront(s) == 0
  {
    hide IsWideSpace;
    assert forall k :: 1 <= k <= |s| ==> s[..k][0] == s[0];
  }

  lemma {:induction false} NoSpaceBehind(s: seq<byte>)
    requires s != [] && Plain(s[|s| - 1])
    ensures SpaceBack(s) == 0
  {
    hide IsWideSpace;
    if 2 <= |s| {
      NotWide(s, 2);
    }
    if 3 <= |s| {
      NotWide(s, 3);
    }
  }

  lemma {:induction false} NotWide(s: seq<byte>, k: nat)
    requires 1 <= k <= |s| && s[|s| - 1] < 0x80
    ensures !IsWideSpace(s[|s| - k..])
  {
    hide IsWideSpace;
    var r := s[|s| - k..];
    assert r[|r| - 1] == s[|s| - 1];
  }

  // ----- size lines -----

  lemma {:induction false} DigitsAreAscii(s: seq<byte>)
    requires IsHex(s)
    ensures forall i :: 0 <= i < |s| ==> Plain(s[i]) && s[i] != SEMICOLON
    ensures s != [] ==> s[0] != PLUS && s[0] != MINUS
  {
    forall i | 0 <= i < |s|
      ensures Plain(s[i]) && s[i] != SEMICOLON && s[i] != PLUS && s[i] != MINUS
    {
      assert HexDigit(s[i]).Some?;
    }
  }

  lemma {:induction false} NumeralsArePlain(s: seq<byte>, v: int)
    requires Numeral(s, v)
    ensures s != [] && forall i :: 0 <= i < |s| ==> Plain(s[i]) && s[i] != SEMICOLON
  {
    SpellsExactly(s, Abs(v));
    if IsHex(s) {
      DigitsAreAscii(s);
    } else {
      SpellsExactly(s[1..], Abs(v));
      DigitsAreAscii(s[1..]);
      hide Spells, IsHex;
      assert forall i :: 0 < i < |s| ==> s[i] == s[1..][i - 1];
    }
  }

  /** A numeral between white space is read as its number. */
  lemma {:induction false} SizeText(before: seq<White>, numeral: seq<byte>, after: seq<White>, v: int)
    requires Numeral(numeral, v)
    ensures var t := Utf8Text(before) + numeral + Utf8Text(after);
      && ParseHexInt(TrimSpace(t)) == Some(v)
      && forall i :: 0 <= i < |t| ==> t[i] != SEMICOLON
  {
    NumeralsArePlain(numeral, v);
    hide Numeral, Plain, TrimSpace, ParseHexInt, Utf8Text;
    Trimmed(before, numeral, after);
    ParseHexExactly(numeral, v);
    NoSemicolon(before);
    NoSemicolon(after);
  }

  lemma {:induction false} NoSemicolon(cs: seq<White>)
    ensures forall i :: 0 <= i < |Utf8Text(cs)| ==> Utf8Text(cs)[i] != SEMICOLON
  {
    if cs != [] {
      NoSemicolon(cs[..|cs| - 1]);
      var u := Utf8(cs[|cs| - 1]);
      WhiteBytes(cs[|cs| - 1]);
      assert forall j :: 0 <= j < |u| ==> u[j] != SEMICOLON;
    }
  }

  lemma {:induction false} WhiteBytes(c: White)
    ensures SEMICOLON !in Utf8(c)
  {
  }

  /** An extension, if there is one, is no part of the size. */
  lemma {:induction false} LineSize(size: seq<byte>, extension: seq<byte>)
    requires forall i :: 0 <= i < |size| ==> size[i] != SEMICOLON
    requires extension != [] ==> extension[0] == SEMICOLON
    ensures ChunkSize(size + extension) == ParseHexInt(TrimSpace(size))
  {
    hide TrimSpace, ParseHexInt;
    var line, n := size + extension, |size|;
    forall j | 0 <= j < n
      ensures !At(line, [SEMICOLON], j)
    {
      assert line[j] == size[j];
      assert line[j..j + 1] == [line[j]];
    }
    if extension == [] {
      assert line == size;
      assert Index(line, [SEMICOLON]) == -1;
    } else {
      assert line[n..n + 1] == [SEMICOLON];
      IndexIs(line, [SEMICOLON], n);
      assert line[..n] == size;
    }
  }

  // ----- what a size line is -----

  lemma {:induction false} WideIsWhite(r: seq<byte>) returns (c: White)
    requires IsWideSpace(r)
    ensures Utf8(c) == r
  {
    if |r| == 2 {
      c := r[1];
    } else {
      var x: int, y: int, z: int := r[0], r[1], r[2];
      c := (x - 0xE0) * 4096 + (y - 0x80) * 64 + (z - 0x80);
    }
  }

  lemma {:induction false} AsciiIsWhite(b: byte) returns (c: White)
    requires IsAsciiSpace(b)
    ensures Utf8(c) == [b]
  {
    c := b;
  }

  lemma {:induction false} FrontIsWhite(s: seq<byte>) returns (c: White)
    requires SpaceFront(s) > 0
    ensures Utf8(c) == s[..SpaceFront(s)]
  {
    hide IsWideSpace, IsAsciiSpace, Utf8;
    if SpaceFront(s) == 1 {
      c := AsciiIsWhite(s[0]);
    } else {
      c := WideIsWhite(s[..SpaceFront(s)]);
    }
  }

  lemma {:induction false} BackIsWhite(s: seq<byte>) returns (c: White)
    requires SpaceBack(s) > 0
    ensures Utf8(c) == s[|s| - SpaceBack(s)..]
  {
    hide IsWideSpace, IsAsciiSpace, Utf8;
    if SpaceBack(s) == 1 {
      c := AsciiIsWhite(s[|s| - 1]);
    } else {
      c := WideIsWhite(s[|s| - SpaceBack(s)..]);
    }
  }

  /** Only white space is trimmed. */
  lemma {:induction false} OnlyWhiteTrimmed(s: seq<byte>) returns (before: seq<White>, after: seq<White>)
    ensures s == Utf8Text(before) + TrimSpace(s) + Utf8Text(after)
    decreases |s|
  {
    hide SpaceFront, SpaceBack, Utf8;
    if SpaceFront(s) > 0 {
      var c := FrontIsWhite(s);
      before, after := OnlyWhiteTrimmed(s[SpaceFront(s)..]);
      Utf8Front(c, before);
      before := [c] + before;
    } else if SpaceBack(s) > 0 {
      var c := BackIsWhite(s);
      before, after := OnlyWhiteTrimmed(s[..|s| - SpaceBack(s)]);
      assert (after + [c])[..|after|] == after;
      after := after + [c];
    } else {
      before, after := [], [];
    }
  }

  /** A size line: a numeral between white space, and perhaps an extension. */
  ghost predicate IsSizeLine(line: seq<byte>, v: int, before: seq<White>, numeral: seq<byte>, after: seq<White>,
                             extension: seq<byte>)
  {
    && line == Utf8Text(before) + numeral + Utf8Text(after) + extension
    && Numeral(numeral, v) && (extension != [] ==> extension[0] == SEMICOLON)
  }

  /** A line gives a chunk's size exactly if it is made up like that. */
  lemma {:induction false} ChunkSizeExactly(line: seq<byte>, v: int)
    ensures ChunkSize(line) == Some(v) <==>
      exists before, numeral, after, extension :: IsSizeLine(line, v, before, numeral, after, extension)
  {
    hide ParseHexInt, TrimSpace, Utf8Text, Numeral;
    if ChunkSize(line) == Some(v) {
      var semi := Index(line, [SEMICOLON]);
      var size, extension := if semi >= 0 then line[..semi] else line, if semi >= 0 then line[semi..] else [];
      var before, after := OnlyWhiteTrimmed(size);
      ParseHexExactly(TrimSpace(size), v);
      assert line == size + extension;
      assert IsSizeLine(line, v, before, TrimSpace(size), after, extension);
    }
    if before, numeral, after, extension :| IsSizeLine(line, v, before, numeral, after, extension) {
      SizeText(before, numeral, after, v);
      LineSize(Utf8Text(before) + numeral + Utf8Text(after), extension);
    }
  }
}
