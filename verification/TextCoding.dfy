/** Text as UTF-8 bytes, and bytes as base64 text, with the forgiving decoders of Node buffers. */
module TextCoding {
  newtype Byte = x: int | 0 <= x < 256

  // ---------------------------------------------------------------------------------------------
  // UTF-8

  function Tail(n: int): Byte { (0x80 + n % 64) as Byte }

  function CharBytes(c: char): (b: seq<Byte>)
    ensures b != []
  {
    var n := c as int;
    if n < 0x80 then [n as Byte]
    else if n < 0x800 then [(0xC0 + n / 64) as Byte, Tail(n)]
    else if n < 0x10000 then [(0xE0 + n / 64 / 64) as Byte, Tail(n / 64), Tail(n)]
    else [(0xF0 + n / 64 / 64 / 64) as Byte, Tail(n / 64 / 64), Tail(n / 64), Tail(n)]
  }

  function ToBytes(s: string): seq<Byte> {
    if s == [] then [] else CharBytes(s[0]) + ToBytes(s[1..])
  }

  /** How many bytes follow a lead byte. */
  function Following(lead: Byte): nat {
    if 0xC2 <= lead <= 0xDF then 1 else if 0xE0 <= lead <= 0xEF then 2 else if 0xF0 <= lead <= 0xF4 then 3 else 0
  }

  /** May `b` stand in place `i` behind `lead`? Rules out overlong forms, surrogates and values past the last character.
      */
  predicate Fits(lead: Byte, i: nat, b: Byte) {
    && 0x80 <= b <= 0xBF
    && (i == 1 ==>
      && (lead == 0xE0 ==> b >= 0xA0) && (lead == 0xED ==> b <= 0x9F)
      && (lead == 0xF0 ==> b >= 0x90) && (lead == 0xF4 ==> b <= 0x8F))
  }

  /** The length of the longest well-formed beginning of one character. */
  function Reach(b: seq<Byte>, i: nat): (n: nat)
    requires 0 < i <= |b|
    ensures i <= n <= |b| && (n == i || n <= Following(b[0]) + 1)
    ensures forall j :: i <= j < n ==> Fits(b[0], j, b[j])
    decreases |b| - i
  {
    if i < |b| && i <= Following(b[0]) && Fits(b[0], i, b[i]) then Reach(b, i + 1) else i
  }

  const REPLACEMENT: char := '\U{FFFD}'

  function Part(b: Byte): int { b as int - 0x80 }

  /** The first character and how many bytes it took. */
  function FirstChar(b: seq<Byte>): (r: (char, nat))
    requires b != []
    ensures 0 < r.1 <= |b|
  {
    var lead := b[0];
    var k := Following(lead);
    var n := Reach(b, 1);
    if lead < 0x80 then (lead as char, 1)
    else if k == 0 || n <= k then (REPLACEMENT, n)
    else if k == 1 then (((lead as int - 0xC0) * 64 + Part(b[1])) as char, 2)
    else if k == 2 then
      assert Fits(lead, 1, b[1]) && Fits(lead, 2, b[2]);
      ((((lead as int - 0xE0) * 64 + Part(b[1])) * 64 + Part(b[2])) as char, 3)
    else
      assert Fits(lead, 1, b[1]) && Fits(lead, 2, b[2]) && Fits(lead, 3, b[3]);
      (((((lead as int - 0xF0) * 64 + Part(b[1])) * 64 + Part(b[2])) * 64 + Part(b[3])) as char, 4)
  }

  function ToText(b: seq<Byte>): string {
    if b == [] then [] else var (c, n) := FirstChar(b); [c] + ToText(b[n..])
  }

  lemma {:induction false} ReadShort(c: char, b: seq<Byte>)
    requires c as int < 0x800 && CharBytes(c) <= b
    ensures FirstChar(b) == (c, |CharBytes(c)|)
  {
    var n := c as int;
    if n >= 0x80 {
      assert Following(b[0]) == 1 && b[1] == Tail(n);
      assert Reach(b, 1) == Reach(b, 2) == 2;
    }
  }

  lemma {:induction false} ReadThree(c: char, b: seq<Byte>)
    requires 0x800 <= c as int < 0x10000 && CharBytes(c) <= b
    ensures FirstChar(b) == (c, 3)
  {
    var n := c as int;
    assert Following(b[0]) == 2 && b[1] == Tail(n / 64) && b[2] == Tail(n);
    assert Reach(b, 1) == Reach(b, 2) == Reach(b, 3) == 3;
  }

  lemma {:induction false} ReadFour(c: char, b: seq<Byte>)
    requires 0x10000 <= c as int && CharBytes(c) <= b
    ensures FirstChar(b) == (c, 4)
  {
    var n := c as int;
    assert Following(b[0]) == 3 && b[1] == Tail(n / 64 / 64) && b[2] == Tail(n / 64) && b[3] == Tail(n);
    assert Reach(b, 1) == Reach(b, 2) == Reach(b, 3) == Reach(b, 4) == 4;
  }

  lemma {:induction false} ReadChar(c: char, rest: seq<Byte>)
    ensures FirstChar(CharBytes(c) + rest) == (c, |CharBytes(c)|)
  {
    var b := CharBytes(c) + rest;
    if c as int < 0x800 { ReadShort(c, b); } else if c as int < 0x10000 { ReadThree(c, b); } else { ReadFour(c, b); }
  }

  lemma {:induction false} TextRoundTrip(s: string)
    ensures ToText(ToBytes(s)) == s
  {
    if s != [] {
      var b := ToBytes(s);
      ReadChar(s[0], ToBytes(s[1..]));
      assert b[|CharBytes(s[0])|..] == ToBytes(s[1..]);
      TextRoundTrip(s[1..]);
      assert s == [s[0]] + s[1..];
    }
  }

  // ---------------------------------------------------------------------------------------------
  // Base64

  newtype Sextet = x: int | 0 <= x < 64

  function Letter(v: Sextet): char {
    var n := v as int;
    if n < 26 then ('A' as int + n) as char
    else if n < 52 then ('a' as int + n - 26) as char
    else if n < 62 then ('0' as int + n - 52) as char
    else if n == 62 then '+' else '/'
  }

  predicate IsLetter(c: char) {
    'A' <= c <= 'Z' || 'a' <= c <= 'z' || '0' <= c <= '9' || c == '+' || c == '/' || c == '-' || c == '_'
  }

  /** Both the standard and the URL-safe letters are read. */
  function SextetOf(c: char): Sextet
    requires IsLetter(c)
  {
    if 'A' <= c <= 'Z' then (c as int - 'A' as int) as Sextet
    else if 'a' <= c <= 'z' then (c as int - 'a' as int + 26) as Sextet
    else if '0' <= c <= '9' then (c as int - '0' as int + 52) as Sextet
    else if c == '+' || c == '-' then 62 else 63
  }

  function Join(a: Byte, b: Byte, c: Byte): seq<Sextet> {
    [(a / 4) as Sextet, (a % 4 * 16 + b / 16) as Sextet, (b % 16 * 4 + c / 64) as Sextet, (c % 64) as Sextet]
  }

  function Letters(v: seq<Sextet>): string { seq(|v|, i requires 0 <= i < |v| => Letter(v[i])) }

  function ToBase64(b: seq<Byte>): string {
    if b == [] then []
    else if |b| == 1 then Letters(Join(b[0], 0, 0)[..2]) + "=="
    else if |b| == 2 then Letters(Join(b[0], b[1], 0)[..3]) + "="
    else Letters(Join(b[0], b[1], b[2])) + ToBase64(b[3..])
  }

  /** Decoding stops at the first '=' and skips what is not a letter. */
  function Sextets(s: string): seq<Sextet> {
    if s == [] || s[0] == '=' then []
    else (if IsLetter(s[0]) then [SextetOf(s[0])] else []) + Sextets(s[1..])
  }

  function High(v: Sextet, w: Sextet): Byte { (v as int * 4 + w as int / 16) as Byte }

  function Middle(v: Sextet, w: Sextet): Byte { (v as int % 16 * 16 + w as int / 4) as Byte }

  function Low(v: Sextet, w: Sextet): Byte { (v as int % 4 * 64 + w as int) as Byte }

  function Pack(v: seq<Sextet>): seq<Byte> {
    if |v| < 2 then []
    else
      var first := High(v[0], v[1]);
      if |v| == 2 then [first] else if |v| == 3 then [first, Middle(v[1], v[2])]
      else [first, Middle(v[1], v[2]), Low(v[2], v[3])] + Pack(v[4..])
  }

  function FromBase64(s: string): seq<Byte> { Pack(Sextets(s)) }

  lemma {:induction false} ReadLetters(v: seq<Sextet>, rest: string)
    ensures Sextets(Letters(v) + rest) == v + Sextets(rest)
  {
    if v == [] {
      assert Letters(v) + rest == rest;
    } else {
      var s := Letters(v) + rest;
      ReadLetters(v[1..], rest);
      assert s[0] == Letter(v[0]) && SextetOf(s[0]) == v[0];
      assert s[1..] == Letters(v[1..]) + rest;
      assert v == [v[0]] + v[1..];
    }
  }

  lemma {:induction false} JoinSplits(a: Byte, b: Byte, c: Byte)
    ensures
      var v := Join(a, b, c);
      High(v[0], v[1]) == a && Middle(v[1], v[2]) == b && Low(v[2], v[3]) == c
  {
  }

  lemma {:induction false} PackJoin(a: Byte, b: Byte, c: Byte, rest: seq<Sextet>)
    ensures Pack(Join(a, b, c) + rest) == [a, b, c] + Pack(rest)
  {
    JoinSplits(a, b, c);
    assert (Join(a, b, c) + rest)[4..] == rest;
  }

  lemma {:induction false} BytesRoundTrip(b: seq<Byte>)
    ensures FromBase64(ToBase64(b)) == b
  {
    if b == [] {
    } else if |b| == 1 {
      ReadLetters(Join(b[0], 0, 0)[..2], "==");
      JoinSplits(b[0], 0, 0);
    } else if |b| == 2 {
      ReadLetters(Join(b[0], b[1], 0)[..3], "=");
      JoinSplits(b[0], b[1], 0);
    } else {
      var v := Join(b[0], b[1], b[2]);
      ReadLetters(v, ToBase64(b[3..]));
      PackJoin(b[0], b[1], b[2], Sextets(ToBase64(b[3..])));
      BytesRoundTrip(b[3..]);
      assert b == [b[0], b[1], b[2]] + b[3..];
    }
  }

  function Armor(text: string): string { ToBase64(ToBytes(text)) }

  function Unarmor(s: string): string { ToText(FromBase64(s)) }

  lemma {:induction false} ArmorRoundTrip(text: string)
    ensures Unarmor(Armor(text)) == text
  {
    BytesRoundTrip(ToBytes(text));
    TextRoundTrip(text);
  }
}
