/** Hexadecimal text of keys, challenges and nonces (controller_link.c). */
module LinkHex {
  import opened Crc
  import opened HistoryRecord

  const DIGITS: string := "0123456789abcdef"

  function Nibble(c: char): int {
    if '0' <= c <= '9' then c as int - '0' as int
    else if 'a' <= c <= 'f' then c as int - 'a' as int + 10
    else if 'A' <= c <= 'F' then c as int - 'A' as int + 10
    else -1
  }

  function Hex(b: seq<byte>): (s: string)
    ensures |s| == 2 * |b|
  {
    if b == [] then ""
    else Hex(b[..|b| - 1]) + [DIGITS[b[|b| - 1] / 16], DIGITS[b[|b| - 1] % 16]]
  }

  predicate IsHexDigit(c: char) { '0' <= c <= '9' || 'a' <= c <= 'f' || 'A' <= c <= 'F' }

  predicate HexText(s: string) { forall i :: 0 <= i < |s| ==> IsHexDigit(s[i]) }

  /** Both cases of a letter have the digit's value, and nothing else has one. */
  lemma NibbleIsDigit(c: char)
    ensures Nibble(c) >= 0 <==> IsHexDigit(c)
    ensures forall n: nat :: n < 16 ==> DIGITS[n] as int == (if n < 10 then 48 + n else 87 + n) && Nibble(DIGITS[n]) == n
    ensures 'A' <= c <= 'F' ==> Nibble(c) == Nibble((c as int + 32) as char)
  {
  }

  function Byte(high: char, low: char): byte
    requires Nibble(high) >= 0 && Nibble(low) >= 0
  {
    16 * Nibble(high) + Nibble(low)
  }

  function Lower(s: string): (t: string)
    ensures |t| == |s|
  {
    if s == "" then ""
    else
      var c := s[|s| - 1];
      Lower(s[..|s| - 1]) + [if 'A' <= c <= 'F' then (c as int + 32) as char else c]
  }

  /** `cl_hex`; the text ends with a zero. */
  method ToHex(b: seq<byte>, out: array<char>)
    requires out.Length > 2 * |b|
    modifies out
    ensures out[..2 * |b|] == Hex(b) && out[2 * |b|] == 0 as char
    ensures forall i :: 2 * |b| < i < out.Length ==> out[i] == old(out[i])
  {
    for i := 0 to |b|
      invariant out[..2 * i] == Hex(b[..i])
      invariant forall k :: 2 * |b| < k < out.Length ==> out[k] == old(out[k])
    {
      out[i * 2] := DIGITS[b[i] / 16];
      out[i * 2 + 1] := DIGITS[b[i] % 16];
      assert b[..i + 1][..i] == b[..i];
      assert out[..2 * (i + 1)] == out[..2 * i] + [out[2 * i], out[2 * i + 1]];
    }
    assert b[..|b|] == b;
    out[2 * |b|] := 0 as char;
  }

  /** `cl_unhex`: true exactly for hexadecimal text of twice the length, and then
      `out` begins with the one byte string whose text it is, in either case. */
  method FromHex(s: string, out: array<byte>, len: nat) returns (ok: bool)
    requires len <= out.Length
    modifies out
    ensures ok <==> |s| == 2 * len && HexText(s)
    ensures ok ==> Hex(out[..len]) == Lower(s)
    ensures forall i :: len <= i < out.Length ==> out[i] == old(out[i])
  {
    hide Hex, Lower, Byte, Nibble, IsHexDigit;
    EmptyText();
    if |s| != len * 2 {
      return false;
    }
    for i := 0 to len
      invariant forall k :: 0 <= k < 2 * i ==> IsHexDigit(s[k])
      invariant Hex(out[..i]) == Lower(s[..2 * i])
      invariant forall k :: len <= k < out.Length ==> out[k] == old(out[k])
    {
      var a, b := Nibble(s[2 * i]), Nibble(s[2 * i + 1]);
      NibbleIsDigit(s[2 * i]);
      NibbleIsDigit(s[2 * i + 1]);
      if a < 0 || b < 0 {
        return false;
      }
      ghost var before := out[..i];
      out[i] := Byte(s[2 * i], s[2 * i + 1]);
      assert out[..i + 1] == before + [out[i]];
      PairToText(before, s[..2 * i], s[2 * i], s[2 * i + 1]);
      assert s[..2 * (i + 1)] == s[..2 * i] + [s[2 * i], s[2 * i + 1]];
    }
    assert s[..2 * len] == s;
    return true;
  }

  lemma EmptyText()
    ensures Hex([]) == Lower("") == ""
  {
  }

  lemma DigitOfNibble(c: char)
    requires Nibble(c) >= 0
    ensures Nibble(c) < 16 && [DIGITS[Nibble(c)]] == Lower([c])
  {
    assert Lower([c][..0]) == "";
  }

  lemma {:induction false} HexGrows(before: seq<byte>, b: byte)
    ensures Hex(before + [b]) == Hex(before) + [DIGITS[b / 16], DIGITS[b % 16]]
  {
    assert (before + [b])[..|before|] == before;
  }

  lemma {:induction false} LowerGrows(text: string, c: char)
    ensures Lower(text + [c]) == Lower(text) + Lower([c])
  {
    assert (text + [c])[..|text|] == text && [c][..0] == "";
  }

  lemma {:induction false} PairToText(before: seq<byte>, text: string, high: char, low: char)
    requires Nibble(high) >= 0 && Nibble(low) >= 0 && Hex(before) == Lower(text)
    ensures Hex(before + [Byte(high, low)]) == Lower(text + [high, low])
  {
    hide Hex, Lower, Nibble;
    DigitOfNibble(high);
    DigitOfNibble(low);
    var b := Byte(high, low);
    assert b / 16 == Nibble(high) && b % 16 == Nibble(low);
    HexGrows(before, b);
    LowerGrows(text, high);
    LowerGrows(text + [high], low);
    assert text + [high, low] == text + [high] + [low];
  }

  lemma {:induction false} HexIsHexText(b: seq<byte>)
    ensures HexText(Hex(b)) && Lower(Hex(b)) == Hex(b)
    decreases |b|
  {
    if b != [] {
      var init, last := b[..|b| - 1], b[|b| - 1];
      HexIsHexText(init);
      DigitIsLower(last / 16);
      DigitIsLower(last % 16);
      PairIsLower(Hex(init), DIGITS[last / 16], DIGITS[last % 16]);
    }
  }

  lemma DigitIsLower(n: nat)
    requires n < 16
    ensures Nibble(DIGITS[n]) == n && !('A' <= DIGITS[n] <= 'F')
  {
  }

  lemma {:induction false} PairIsLower(text: string, high: char, low: char)
    requires Lower(text) == text && !('A' <= high <= 'F') && !('A' <= low <= 'F')
    ensures Lower(text + [high, low]) == text + [high, low]
  {
    var longer := text + [high, low];
    assert longer[..|longer| - 1] == text + [high] && (text + [high])[..|text|] == text;
  }

  /** Different byte strings have different texts. */
  lemma {:induction false} HexIsInjective(a: seq<byte>, b: seq<byte>)
    requires Hex(a) == Hex(b)
    ensures a == b
    decreases |a|
  {
    hide Hex;
    assert |a| == |b|;
    if a != [] {
      var m := |a| - 1;
      assert a == a[..m] + [a[m]] && b == b[..m] + [b[m]];
      HexGrows(a[..m], a[m]);
      HexGrows(b[..m], b[m]);
      var s, t := Hex(a), Hex(b);
      assert Hex(a[..m]) == s[..2 * m] && Hex(b[..m]) == t[..2 * m];
      HexIsInjective(a[..m], b[..m]);
      assert s[2 * m] == DIGITS[a[m] / 16] && t[2 * m] == DIGITS[b[m] / 16];
      assert s[2 * m + 1] == DIGITS[a[m] % 16] && t[2 * m + 1] == DIGITS[b[m] % 16];
      SameDigits(a[m], b[m]);
    }
  }

  lemma SameDigits(a: byte, b: byte)
    requires DIGITS[a / 16] == DIGITS[b / 16] && DIGITS[a % 16] == DIGITS[b % 16]
    ensures a == b
  {
    DigitIsLower(a / 16);
    DigitIsLower(b / 16);
    DigitIsLower(a % 16);
    DigitIsLower(b % 16);
  }

  /** Reading back what was written, in either case, gives the bytes. */
  lemma {:induction false} ReadsBack(b: seq<byte>, bytes: seq<byte>)
    ensures HexText(Hex(b)) && (Hex(bytes) == Lower(Hex(b)) <==> bytes == b)
  {
    HexIsHexText(b);
    if Hex(bytes) == Hex(b) {
      HexIsInjective(bytes, b);
    }
  }
}
