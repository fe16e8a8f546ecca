/**
 UTF-8 as RFC 3629 defines it, section 3: how characters are encoded, and that
 the decoder of pack names accepts exactly the encodings.
 */
module Utf8 {
  import opened TextOrder
  import PackIndex
  import ShellWords

  function Tail(n: int): byte
    requires 0 <= n < 64
  {
    (0x80 + n) as byte
  }

  function EncodedChar(c: char): Text {
    var n := c as int;
    if n < 0x80 then [n as byte]
    else if n < 0x800 then [(0xC0 + n / 64) as byte, Tail(n % 64)]
    else if n < 0x1_0000 then [(0xE0 + n / 4096) as byte, Tail(n / 64 % 64), Tail(n % 64)]
    else [(0xF0 + n / 262144) as byte, Tail(n / 4096 % 64), Tail(n / 64 % 64), Tail(n % 64)]
  }

  function EncodedString(s: string): Text {
    if s == "" then [] else EncodedChar(s[0]) + EncodedString(s[1..])
  }

  lemma AfterOne(x: byte, rest: Text)
    requires x < 0x80
    ensures PackIndex.ValidUtf8([x] + rest) <==> PackIndex.ValidUtf8(rest)
  {
    assert ([x] + rest)[1..] == rest;
  }

  lemma AfterTwo(x: byte, y: byte, rest: Text)
    requires 0xC2 <= x < 0xE0 && 0x80 <= y < 0xC0
    ensures PackIndex.ValidUtf8([x, y] + rest) <==> PackIndex.ValidUtf8(rest)
  {
    assert ([x, y] + rest)[2..] == rest;
  }

  lemma AfterThree(x: byte, y: byte, z: byte, rest: Text)
    requires 0xE0 <= x < 0xF0 && 0x80 <= y < 0xC0 && 0x80 <= z < 0xC0
    requires (x == 0xE0 ==> y >= 0xA0) && (x == 0xED ==> y < 0xA0)
    ensures PackIndex.ValidUtf8([x, y, z] + rest) <==> PackIndex.ValidUtf8(rest)
  {
    assert ([x, y, z] + rest)[3..] == rest;
  }

  lemma AfterFour(x: byte, y: byte, z: byte, w: byte, rest: Text)
    requires 0xF0 <= x < 0xF5 && 0x80 <= y < 0xC0 && 0x80 <= z < 0xC0 && 0x80 <= w < 0xC0
    requires (x == 0xF0 ==> y >= 0x90) && (x == 0xF4 ==> y < 0x90)
    ensures PackIndex.ValidUtf8([x, y, z, w] + rest) <==> PackIndex.ValidUtf8(rest)
  {
    assert ([x, y, z, w] + rest)[4..] == rest;
  }

  lemma CharIsValid(c: char, rest: Text)
    ensures PackIndex.ValidUtf8(EncodedChar(c) + rest) <==> PackIndex.ValidUtf8(rest)
  {
    hide PackIndex.ValidUtf8;
    var n := c as int;
    var b := EncodedChar(c);
    if n < 0x80 {
      AfterOne(b[0], rest);
    } else if n < 0x800 {
      AfterTwo(b[0], b[1], rest);
    } else if n < 0x1_0000 {
      AfterThree(b[0], b[1], b[2], rest);
    } else {
      AfterFour(b[0], b[1], b[2], b[3], rest);
    }
  }

  lemma {:induction false} EncodedIsValid(s: string)
    ensures PackIndex.ValidUtf8(EncodedString(s))
  {
    if s != "" {
      EncodedIsValid(s[1..]);
      CharIsValid(s[0], EncodedString(s[1..]));
    }
  }

  lemma FirstChar(b: Text) returns (c: char)
    requires b != [] && PackIndex.ValidUtf8(b)
    ensures EncodedChar(c) <= b && PackIndex.ValidUtf8(b[|EncodedChar(c)|..])
  {
    if b[0] < 0x80 {
      c := b[0] as char;
    } else if b[0] < 0xE0 {
      c := Two(b[0], b[1]);
    } else if b[0] < 0xF0 {
      c := Three(b[0], b[1], b[2]);
    } else {
      c := Four(b[0], b[1], b[2], b[3]);
    }
  }

  lemma Two(x: byte, y: byte) returns (c: char)
    requires 0xC2 <= x < 0xE0 && 0x80 <= y < 0xC0
    ensures EncodedChar(c) == [x, y]
  {
    c := ((x as int - 0xC0) * 64 + (y as int - 0x80)) as char;
  }

  lemma ThreeDigits(x: int, y: int, z: int) returns (n: int)
    requires 0 <= x < 64 && 0 <= y < 64 && 0 <= z < 64
    ensures n == x * 4096 + y * 64 + z && n / 4096 == x && n / 64 % 64 == y && n % 64 == z
    ensures n / 64 == x * 64 + y
  {
    n := x * 4096 + y * 64 + z;
  }

  lemma Three(x: byte, y: byte, z: byte) returns (c: char)
    requires 0xE0 <= x < 0xF0 && 0x80 <= y < 0xC0 && 0x80 <= z < 0xC0
    requires (x == 0xE0 ==> y >= 0xA0) && (x == 0xED ==> y < 0xA0)
    ensures EncodedChar(c) == [x, y, z]
  {
    var n := ThreeDigits(x as int - 0xE0, y as int - 0x80, z as int - 0x80);
    c := n as char;
    assert c as int == n;
  }

  lemma Four(x: byte, y: byte, z: byte, w: byte) returns (c: char)
    requires 0xF0 <= x < 0xF5 && 0x80 <= y < 0xC0 && 0x80 <= z < 0xC0 && 0x80 <= w < 0xC0
    requires (x == 0xF0 ==> y >= 0x90) && (x == 0xF4 ==> y < 0x90)
    ensures EncodedChar(c) == [x, y, z, w]
  {
    var high := ThreeDigits(x as int - 0xF0, y as int - 0x80, z as int - 0x80);
    var n := high * 64 + (w as int - 0x80);
    assert n / 64 == high && n % 64 == w as int - 0x80 && n / 4096 == high / 64 && n / 262144 == high / 4096;
    c := n as char;
    assert c as int == n;
  }

  lemma {:induction false} ValidIsEncoded(b: Text) returns (s: string)
    requires PackIndex.ValidUtf8(b)
    ensures EncodedString(s) == b
    decreases |b|
  {
    if b == [] {
      s := "";
    } else {
      var c := FirstChar(b);
      var n := |EncodedChar(c)|;
      var rest := ValidIsEncoded(b[n..]);
      s := [c] + rest;
      assert s[1..] == rest && b == b[..n] + b[n..];
    }
  }

  /** A name is accepted as UTF-8 exactly if it encodes some string. */
  lemma ValidIffEncoded(b: Text)
    ensures PackIndex.ValidUtf8(b) <==> exists s: string :: EncodedString(s) == b
  {
    if PackIndex.ValidUtf8(b) {
      var s := ValidIsEncoded(b);
    }
    if s: string :| EncodedString(s) == b {
      EncodedIsValid(s);
    }
  }

  /** The sizes that the line scanner counts are those of the encoding. */
  lemma {:induction false} SizeIsEncoded(s: string)
    ensures ShellWords.Utf8Size(s) == |EncodedString(s)|
  {
    if s != "" {
      SizeIsEncoded(s[1..]);
      ShellWords.Utf8SizeConcat([s[0]], s[1..]);
      assert s == [s[0]] + s[1..] && [s[0]][..0] == "";
      assert ShellWords.Utf8Size([s[0]]) == ShellWords.Utf8Length(s[0]);
    }
  }
}
