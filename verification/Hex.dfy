/** Hexadecimal text: the two printers of the cipher examples and the parser of filecrypt.cc. */
module Hex {
  import opened Bytes
  import opened Errors

  /** Anything that is not a hexadecimal digit counts as zero. */
  function ParseHexToNum(c: char): (v: Byte)
    ensures v < 16
  {
    if 'a' <= c <= 'f' then (c - 'a') as int + 10
    else if 'A' <= c <= 'F' then (c - 'A') as int + 10
    else if '0' <= c <= '9' then (c - '0') as int
    else 0
  }

  function Digit(n: nat): char
    requires n < 16
  {
    "0123456789abcdef"[n]
  }

  function Print(b: seq<Byte>): (s: string)
    ensures |s| == 2 * |b|
  {
    if b == [] then "" else [Digit(b[0] / 16), Digit(b[0] % 16)] + Print(b[1..])
  }

  function Parse(s: string): (b: seq<Byte>)
    requires |s| % 2 == 0
    ensures |b| == |s| / 2
  {
    if s == "" then [] else [ParseHexToNum(s[0]) * 16 + ParseHexToNum(s[1])] + Parse(s[2..])
  }

  predicate IsHex(c: char) {
    '0' <= c <= '9' || 'a' <= c <= 'f' || 'A' <= c <= 'F'
  }

  function ToLower(c: char): char {
    if 'A' <= c <= 'Z' then 'a' + (c - 'A') else c
  }

  function Lower(s: string): (l: string)
    ensures |l| == |s| && forall i :: 0 <= i < |s| ==> l[i] == ToLower(s[i])
  {
    if s == "" then "" else [ToLower(s[0])] + Lower(s[1..])
  }

  lemma DigitValue(n: nat)
    requires n < 16
    ensures ParseHexToNum(Digit(n)) == n && Digit(n) == if n >= 10 then 'a' + (n - 10) as char else '0' + n as char
  {
  }

  /** Printing the value of a character gives it back in lower case exactly for the digits. */
  lemma DigitOfValue(c: char)
    ensures Digit(ParseHexToNum(c)) == ToLower(c) <==> IsHex(c)
  {
    if IsHex(c) {
      DigitValue(ParseHexToNum(c));
    }
  }

  lemma {:induction false} ParsePrint(b: seq<Byte>)
    ensures Parse(Print(b)) == b
  {
    if b != [] {
      DigitValue(b[0] / 16);
      DigitValue(b[0] % 16);
      ParsePrint(b[1..]);
      assert Print(b)[2..] == Print(b[1..]);
    }
  }

  /** Two digits a byte, the upper four bits first, in both directions. */
  lemma {:induction false} PrintAt(b: seq<Byte>, i: nat)
    requires i < |b|
    ensures Print(b)[2 * i] == "0123456789abcdef"[b[i] / 16] && Print(b)[2 * i + 1] == "0123456789abcdef"[b[i] % 16]
  {
    if i > 0 {
      PrintAt(b[1..], i - 1);
    }
  }

  lemma {:induction false} ParseAt(s: string, i: nat)
    requires |s| % 2 == 0 && i < |s| / 2
    ensures Parse(s)[i] == 16 * ParseHexToNum(s[2 * i]) as int + ParseHexToNum(s[2 * i + 1])
  {
    if i > 0 {
      ParseAt(s[2..], i - 1);
    }
  }

  /** The value of a character. */
  lemma DigitValues(c: char)
    ensures '0' <= c <= '9' ==> ParseHexToNum(c) == c as int - 48
    ensures 'a' <= c <= 'f' ==> ParseHexToNum(c) == c as int - 87
    ensures 'A' <= c <= 'F' ==> ParseHexToNum(c) == c as int - 55
    ensures !('0' <= c <= '9' || 'a' <= c <= 'f' || 'A' <= c <= 'F') ==> ParseHexToNum(c) == 0
  {
  }

  /** One pair of characters in front of a text. */
  lemma PairPrinted(c: char, d: char, p: string, l: string)
    ensures [Digit(ParseHexToNum(c)), Digit(ParseHexToNum(d))] + p == [ToLower(c), ToLower(d)] + l
            <==> IsHex(c) && IsHex(d) && p == l
  {
    DigitOfValue(c);
    DigitOfValue(d);
    var x, y := [Digit(ParseHexToNum(c)), Digit(ParseHexToNum(d))] + p, [ToLower(c), ToLower(d)] + l;
    assert x[0] == Digit(ParseHexToNum(c)) && x[1] == Digit(ParseHexToNum(d)) && x[2..] == p;
    assert y[0] == ToLower(c) && y[1] == ToLower(d) && y[2..] == l;
  }

  predicate AllHex(s: string) {
    forall i :: 0 <= i < |s| ==> IsHex(s[i])
  }

  /** Parsing and printing yields the lower-case text exactly when all characters are digits. */
  lemma {:induction false} PrintParse(s: string)
    requires |s| % 2 == 0
    ensures Print(Parse(s)) == Lower(s) <==> AllHex(s)
  {
    if s != "" {
      PrintParse(s[2..]);
      PairPrinted(s[0], s[1], Print(Parse(s[2..])), Lower(s[2..]));
      ParseStep(s);
      LowerStep(s);
      AllHexStep(s);
    }
  }

  lemma LowerStep(s: string)
    requires |s| >= 2
    ensures Lower(s) == [ToLower(s[0]), ToLower(s[1])] + Lower(s[2..])
  {
    var t := s[1..];
    assert t != "" && t[1..] == s[2..] && t[0] == s[1];
    hide ToLower;
    assert Lower(s) == [ToLower(s[0])] + Lower(t) && Lower(t) == [ToLower(s[1])] + Lower(s[2..]);
    TwoInFront(ToLower(s[0]), ToLower(s[1]), Lower(s[2..]));
  }

  lemma TwoInFront(a: char, b: char, rest: string)
    ensures [a] + ([b] + rest) == [a, b] + rest
  {
  }

  lemma AllHexStep(s: string)
    requires |s| >= 2
    ensures AllHex(s) <==> IsHex(s[0]) && IsHex(s[1]) && AllHex(s[2..])
  {
    hide IsHex;
    assert forall i :: 2 <= i < |s| ==> s[i] == s[2..][i - 2];
  }

  lemma ParseStep(s: string)
    requires |s| % 2 == 0 && s != ""
    ensures Print(Parse(s)) == [Digit(ParseHexToNum(s[0])), Digit(ParseHexToNum(s[1]))] + Print(Parse(s[2..]))
  {
    var h, l := ParseHexToNum(s[0]), ParseHexToNum(s[1]);
    ParseTwo(s);
    Nibbles(h, l);
    PrintFirst(h * 16 + l, Parse(s[2..]));
  }

  lemma Nibbles(h: nat, l: nat)
    requires h < 16 && l < 16
    ensures h * 16 + l < 256 && (h * 16 + l) / 16 == h && (h * 16 + l) % 16 == l
  {
  }

  lemma PrintFirst(x: Byte, rest: seq<Byte>)
    ensures Print([x] + rest) == [Digit(x / 16), Digit(x % 16)] + Print(rest)
  {
    assert ([x] + rest)[1..] == rest;
  }

  /** The parser; reading past the end of an odd-length string throws, which is None. */
  method ParseHexStrToBin(input: string) returns (r: Option<seq<Byte>>)
    ensures r == if |input| % 2 == 0 then Some(Parse(input)) else None
  {
    var v: seq<Byte>, ind := [], 0;
    var i := 0;
    assert input[0..] == input;
    while i < |input|
      invariant ind == i <= |input| && i % 2 == 0
      invariant |input| % 2 == 0 ==> v + Parse(input[i..]) == Parse(input)
    {
      if ind + 1 >= |input| {
        return None;
      }
      var val: Byte := ParseHexToNum(input[ind]) * 16 + ParseHexToNum(input[ind + 1]);
      if |input| % 2 == 0 {
        ParseTwo(input[i..]);
        assert input[i..][2..] == input[i + 2..];
        Joined(v, [val], Parse(input[i + 2..]), Parse(input[i..]));
      }
      v := v + [val];
      ind, i := ind + 2, i + 2;
    }
    assert input[i..] == "" && v + [] == v;
    r := Some(v);
  }

  lemma ParseTwo(s: string)
    requires |s| % 2 == 0 && s != ""
    ensures Parse(s) == [ParseHexToNum(s[0]) * 16 + ParseHexToNum(s[1])] + Parse(s[2..])
  {
  }

  /** The characters written so far: the digits of the first i bytes. */
  ghost predicate Filled(a: seq<char>, bytes: seq<Byte>, i: nat) {
    2 * i <= |a| && i <= |bytes| && a[..2 * i] == Print(bytes[..i])
  }

  lemma {:induction false} PrintAppend(b: seq<Byte>, x: Byte)
    ensures Print(b + [x]) == Print(b) + [Digit(x / 16), Digit(x % 16)]
  {
    if b == [] {
      assert [x][1..] == [] && b + [x] == [x];
    } else {
      PrintAppend(b[1..], x);
      assert (b + [x])[1..] == b[1..] + [x];
    }
  }

  lemma FilledNext(a: seq<char>, bytes: seq<Byte>, i: nat)
    requires i < |bytes| && 2 * i + 2 <= |a| && Filled(a, bytes, i)
    requires a[2 * i] == Digit(bytes[i] / 16) && a[2 * i + 1] == Digit(bytes[i] % 16)
    ensures Filled(a, bytes, i + 1)
  {
    assert bytes[..i + 1] == bytes[..i] + [bytes[i]];
    PrintAppend(bytes[..i], bytes[i]);
    assert a[..2 * (i + 1)] == a[..2 * i] + [a[2 * i], a[2 * i + 1]];
  }

  /** printHexString of aes-cfb.c: each nibble is turned into its digit by arithmetic. */
  method PrintHexString(bytes: seq<Byte>) returns (hex: array<char>)
    ensures fresh(hex) && hex[..] == Print(bytes) + ['\0']
  {
    hex := new char[2 * |bytes| + 1];
    for i := 0 to |bytes|
      invariant Filled(hex[..], bytes, i)
    {
      ghost var before := hex[..];
      var c0: int, c1: int := bytes[i] / 16, bytes[i] % 16;
      DigitValue(c0);
      DigitValue(c1);
      hex[2 * i] := if c0 >= 10 then 'a' + (c0 - 10) as char else '0' + c0 as char;
      hex[2 * i + 1] := if c1 >= 10 then 'a' + (c1 - 10) as char else '0' + c1 as char;
      assert hex[..][..2 * i] == before[..2 * i];
      FilledNext(hex[..], bytes, i);
    }
    hex[2 * |bytes|] := '\0';
    assert bytes[..|bytes|] == bytes;
  }

  /** BytesToHexString of chacha20-poly1305.c: each nibble is looked up in a switch. */
  method BytesToHexString(bytes: seq<Byte>) returns (hex: array<char>)
    ensures fresh(hex) && hex[..] == Print(bytes) + ['\0']
  {
    hex := new char[2 * |bytes| + 1];
    for i := 0 to |bytes|
      invariant Filled(hex[..], bytes, i)
    {
      ghost var before := hex[..];
      var c0 := SwitchDigit(bytes[i] / 16);
      var c1 := SwitchDigit(bytes[i] % 16);
      hex[2 * i] := c0;
      hex[2 * i + 1] := c1;
      assert hex[..][..2 * i] == before[..2 * i];
      FilledNext(hex[..], bytes, i);
    }
    hex[2 * |bytes|] := '\0';
    assert bytes[..|bytes|] == bytes;
  }

  method SwitchDigit(n: nat) returns (c: char)
    requires n < 16
    ensures c == Digit(n)
  {
    match n
    case 0 => c := '0';
    case 1 => c := '1';
    case 2 => c := '2';
    case 3 => c := '3';
    case 4 => c := '4';
    case 5 => c := '5';
    case 6 => c := '6';
    case 7 => c := '7';
    case 8 => c := '8';
    case 9 => c := '9';
    case 10 => c := 'a';
    case 11 => c := 'b';
    case 12 => c := 'c';
    case 13 => c := 'd';
    case 14 => c := 'e';
    case 15 => c := 'f';
  }
}
