/**
 * The creation time of a card, read from its id: the first 8 characters of
 * a Trello id are the creation time in seconds, written in base 16.
 */
module CardId {

  predicate IsHexDigit(c: char) {
    ('0' <= c <= '9') || ('a' <= c <= 'f') || ('A' <= c <= 'F')
  }

  predicate AllHex(s: string) {
    forall i :: 0 <= i < |s| ==> IsHexDigit(s[i])
  }

  /** The id starts with the 8 hexadecimal digits of its creation time. */
  predicate HasHexPrefix(id: string) {
    |id| >= 8 && AllHex(id[..8])
  }

  function DigitValue(c: char): (d: nat)
    requires IsHexDigit(c)
    ensures d < 16
  {
    if '0' <= c <= '9' then c as int - '0' as int
    else if 'a' <= c <= 'f' then c as int - 'a' as int + 10
    else c as int - 'A' as int + 10
  }

  function Pow16(n: nat): (p: nat)
    ensures p >= 1
  {
    if n == 0 then 1 else 16 * Pow16(n - 1)
  }

  /** The value of a string of hexadecimal digits, most significant digit first. */
  function HexValue(s: string): (v: nat)
    requires AllHex(s)
    ensures v < Pow16(|s|)
  {
    if s == [] then 0 else 16 * HexValue(s[..|s| - 1]) + DigitValue(s[|s| - 1])
  }

  /** `1000*parseInt(card.id.substring(0,8),16)`: the creation time in milliseconds. */
  function CreatedTime(id: string): (ms: int)
    requires HasHexPrefix(id)
    ensures 0 <= ms <= 1000 * 0xFFFF_FFFF && ms % 1000 == 0
  {
    var seconds := HexValue(id[..8]);
    assert Pow16(8) == 0x1_0000_0000;
    1000 * seconds
  }

  /** The lower-case hexadecimal digit of `d`. */
  function HexDigit(d: nat): (c: char)
    requires d < 16
    ensures IsHexDigit(c) && DigitValue(c) == d
  {
    if d < 10 then ('0' as int + d) as char else ('a' as int + d - 10) as char
  }

  /** `n` written with exactly `width` hexadecimal digits: how a Trello id encodes its creation time. */
  function HexDigits(n: nat, width: nat): (s: string)
    requires n < Pow16(width)
    ensures |s| == width && AllHex(s)
  {
    if width == 0 then [] else HexDigits(n / 16, width - 1) + [HexDigit(n % 16)]
  }

  /** Reading back the digits of `n` gives `n`. */
  lemma {:induction false} HexValueOfDigits(n: nat, width: nat)
    requires n < Pow16(width)
    ensures HexValue(HexDigits(n, width)) == n
  {
    if width > 0 {
      var s := HexDigits(n, width);
      assert s[..|s| - 1] == HexDigits(n / 16, width - 1);
      HexValueOfDigits(n / 16, width - 1);
    }
  }

  /** An id whose first 8 characters encode `seconds` decodes to `seconds` * 1000 milliseconds, whatever follows. */
  lemma CreatedTimeOfEncoded(seconds: nat, rest: string)
    requires seconds < Pow16(8)
    ensures HasHexPrefix(HexDigits(seconds, 8) + rest)
    ensures CreatedTime(HexDigits(seconds, 8) + rest) == 1000 * seconds
  {
    var id := HexDigits(seconds, 8) + rest;
    assert id[..8] == HexDigits(seconds, 8);
    HexValueOfDigits(seconds, 8);
  }

  /** The prefix `5a1f2b3c` is 1511992124 seconds after the epoch. */
  lemma CreatedTimeExample()
    ensures HasHexPrefix("5a1f2b3c0000000000000000")
    ensures CreatedTime("5a1f2b3c0000000000000000") == 1511992124000
  {
    var id := "5a1f2b3c0000000000000000";
    assert id[..8] == "5a1f2b3c";
    var p := "5a1f2b3c";
    ExamplePrefixValue();
    assert p[..5][..4] == p[..4];
    assert HexValue(p[..5]) == 369138;
    assert p[..6][..5] == p[..5];
    assert HexValue(p[..6]) == 5906219;
    assert p[..7][..6] == p[..6];
    assert HexValue(p[..7]) == 94499507;
    assert p[..8][..7] == p[..7];
    assert HexValue(p[..8]) == 1511992124;
    assert p[..8] == p;
  }

  lemma ExamplePrefixValue()
    ensures HexValue("5a1f2b3c"[..4]) == 23071
  {
    var p := "5a1f2b3c";
    assert HexValue(p[..1]) == 5;
    assert p[..2][..1] == p[..1];
    assert HexValue(p[..2]) == 90;
    assert p[..3][..2] == p[..2];
    assert HexValue(p[..3]) == 1441;
    assert p[..4][..3] == p[..3];
  }
}
