/** HexHelper: bytes as an upper-case hexadecimal text and back. */
module Hex {
  import opened Basics

  function HexChar(d: nat): (c: char)
    requires d < 16
  {
    if d < 10 then ('0' as int + d) as char else ('A' as int + d - 10) as char
  }

  /** Value of a hexadecimal digit, or -1. */
  function HexValue(c: char): (d: int)
    ensures -1 <= d < 16
  {
    if '0' <= c <= '9' then c as int - '0' as int
    else if 'a' <= c <= 'f' then c as int - 'a' as int + 10
    else if 'A' <= c <= 'F' then c as int - 'A' as int + 10
    else -1
  }

  function ByteText(b: Byte): (s: string)
    ensures |s| == 2
  {
    [HexChar(b as int / 16), HexChar(b as int % 16)]
  }

  function TextOf(bytes: seq<Byte>): (s: string)
    ensures |s| == 2 * |bytes|
  {
    if bytes == [] then "" else TextOf(bytes[..|bytes| - 1]) + ByteText(bytes[|bytes| - 1])
  }

  /** The printing loop; its counter is a uint32, so it ends only below 2^32 bytes. */
  method ToHex(bytes: seq<Byte>) returns (text: string)
    requires |bytes| < 0x1_0000_0000
    ensures text == "0x" + TextOf(bytes) && |text| == 2 + 2 * |bytes|
  {
    text := "0x";
    var k := 0;
    while k < |bytes|
      invariant 0 <= k <= |bytes| && text == "0x" + TextOf(bytes[..k])
    {
      assert bytes[..k + 1][..k] == bytes[..k];
      text := text + ByteText(bytes[k]);
      k := k + 1;
    }
    assert bytes[..k] == bytes;
  }

  /** std::stoul(s, nullptr, 16) of a two-character text, truncated to a byte; -1 where it throws.
      White space and a sign may precede the digit, a non-digit may follow it, and "0x" alone is 0. */
  function Stoul2(s: string): (v: int)
    requires |s| == 2
    ensures -1 <= v < 256
  {
    var hi, lo := HexValue(s[0]), HexValue(s[1]);
    if hi >= 0 && lo >= 0 then 16 * hi + lo
    else if hi >= 0 then hi
    else if (IsSpace(s[0]) || s[0] == '+') && lo >= 0 then lo
    else if s[0] == '-' && lo >= 0 then (256 - lo) % 256
    else -1
  }

  datatype Parsed = Bytes(bytes: seq<Byte>) | InvalidArgument

  /** The bytes of the first n pairs after the prefix; an exception once a pair is not a number. */
  function Pairs(hex: string, n: nat): Parsed
    requires 2 + 2 * n <= |hex|
  {
    if n == 0 then Bytes([]) else
      match Pairs(hex, n - 1)
      case InvalidArgument => InvalidArgument
      case Bytes(front) =>
        var v := Stoul2(hex[2 * n..2 * n + 2]);
        if v < 0 then InvalidArgument else Bytes(front + [v as Byte])
  }

  function Decode(hex: string): Parsed {
    if !("0x" <= hex) || |hex| % 2 != 0 then Bytes([]) else Pairs(hex, |hex| / 2 - 1)
  }

  method FromHex(hex: string) returns (r: Parsed)
    requires |hex| / 2 - 1 < 0x1_0000_0000
    ensures r == Decode(hex)
  {
    hide Stoul2;
    if !("0x" <= hex) {
      return Bytes([]);
    }
    if |hex| % 2 != 0 {
      return Bytes([]);
    }
    var count := |hex| / 2 - 1;
    var bytes: seq<Byte> := [];
    var k := 0;
    while k < count
      invariant 0 <= k <= count && Pairs(hex, k) == Bytes(bytes)
    {
      var offset := 2 + 2 * k;
      var v := Stoul2(hex[offset..offset + 2]);
      if v < 0 {
        InvalidStays(hex, k + 1, count);
        return InvalidArgument;
      }
      bytes := bytes + [v as Byte];
      k := k + 1;
    }
    return Bytes(bytes);
  }

  lemma {:induction false} InvalidStays(hex: string, k: nat, n: nat)
    requires k <= n && 2 + 2 * n <= |hex| && Pairs(hex, k).InvalidArgument?
    ensures Pairs(hex, n).InvalidArgument?
  {
    if k < n {
      InvalidStays(hex, k, n - 1);
    }
  }

  lemma ByteRoundTrip(b: Byte)
    ensures Stoul2(ByteText(b)) == b as int
  {
  }

  lemma {:induction false} PairsPrefix(hex: string, more: string, n: nat)
    requires 2 + 2 * n <= |hex|
    ensures Pairs(hex + more, n) == Pairs(hex, n)
  {
    if n > 0 {
      PairsPrefix(hex, more, n - 1);
      assert (hex + more)[2 * n..2 * n + 2] == hex[2 * n..2 * n + 2];
    }
  }

  /** One more byte of text is one more byte read. */
  lemma {:induction false} PairsSnoc(hex: string, bytes: seq<Byte>, b: Byte)
    requires |hex| == 2 + 2 * |bytes| && Pairs(hex, |bytes|) == Bytes(bytes)
    ensures Pairs(hex + ByteText(b), |bytes| + 1) == Bytes(bytes + [b])
  {
    hide Stoul2, ByteText;
    var n := |bytes| + 1;
    PairsPrefix(hex, ByteText(b), n - 1);
    assert (hex + ByteText(b))[2 * n..2 * n + 2] == ByteText(b);
    ByteRoundTrip(b);
  }

  lemma {:induction false} PairsOfText(bytes: seq<Byte>)
    ensures Pairs("0x" + TextOf(bytes), |bytes|) == Bytes(bytes)
  {
    hide Pairs, ByteText;
    if bytes == [] {
      NoPairs("0x" + TextOf(bytes));
    } else {
      var n := |bytes| - 1;
      PairsOfText(bytes[..n]);
      PairsSnoc("0x" + TextOf(bytes[..n]), bytes[..n], bytes[n]);
      assert "0x" + TextOf(bytes) == "0x" + TextOf(bytes[..n]) + ByteText(bytes[n]);
      assert bytes == bytes[..n] + [bytes[n]];
    }
  }

  lemma NoPairs(hex: string)
    requires 2 <= |hex|
    ensures Pairs(hex, 0) == Bytes([])
  {
  }

  /** Round trip for every byte sequence, the empty one included. */
  lemma {:induction false} HexRoundTrip(bytes: seq<Byte>)
    ensures Decode("0x" + TextOf(bytes)) == Bytes(bytes)
  {
    PairsOfText(bytes);
  }

  // ----- the characters

  /** Two upper-case digits per byte, the more significant one first. */
  lemma {:induction false} TextDigits(bytes: seq<Byte>, i: nat)
    requires i < |bytes|
    ensures TextOf(bytes)[2 * i] == "0123456789ABCDEF"[bytes[i] as int / 16]
    ensures TextOf(bytes)[2 * i + 1] == "0123456789ABCDEF"[bytes[i] as int % 16]
  {
    var n := |bytes| - 1;
    DigitText(bytes[i] as int / 16);
    DigitText(bytes[i] as int % 16);
    if i < n {
      TextDigits(bytes[..n], i);
    }
  }

  lemma DigitText(d: nat)
    requires d < 16
    ensures HexChar(d) == "0123456789ABCDEF"[d]
  {
  }

  /** Which digit a character is, if any. */
  predicate IsHex(c: char, d: int) {
    0 <= d < 16 && (c == "0123456789ABCDEF"[d] || c == "0123456789abcdef"[d])
  }

  lemma {:induction false} HexValueMeans(c: char, d: int)
    ensures HexValue(c) == d && d != -1 <==> IsHex(c, d)
  {
  }

  /** What is read from two characters: both digits, or the first one alone, or one digit after white
      space or a sign; anything else is no number. */
  lemma {:induction false} PairMeans(s: string, hi: int, lo: int)
    requires |s| == 2
    ensures IsHex(s[0], hi) && IsHex(s[1], lo) ==> Stoul2(s) == 16 * hi + lo
    ensures IsHex(s[0], hi) && (forall d :: !IsHex(s[1], d)) ==> Stoul2(s) == hi
    ensures s[0] in [' ', '\t', '\n', 11 as char, 12 as char, '\r', '+'] && IsHex(s[1], lo) ==> Stoul2(s) == lo
    ensures s[0] == '-' && IsHex(s[1], lo) ==> Stoul2(s) == if lo == 0 then 0 else 256 - lo
    ensures (forall d :: !IsHex(s[0], d))
            && (s[0] !in [' ', '\t', '\n', 11 as char, 12 as char, '\r', '+', '-'] || forall d :: !IsHex(s[1], d)) ==>
              Stoul2(s) == -1
  {
    hide IsHex;
    HexValueMeans(s[0], HexValue(s[0]));
    HexValueMeans(s[1], HexValue(s[1]));
    HexValueMeans(s[0], hi);
    HexValueMeans(s[1], lo);
    NotADigit(s[0]);
    NotADigit(s[1]);
  }

  lemma NotADigit(c: char)
    ensures forall d :: '0' <= c <= '9' || 'a' <= c <= 'f' || 'A' <= c <= 'F' || !IsHex(c, d)
    ensures c in [' ', '\t', '\n', 11 as char, 12 as char, '\r', '+', '-'] ==> forall d :: !IsHex(c, d)
  {
  }

  /** Decoding any text: nothing without the prefix or for an odd length, an exception exactly if some
      pair is no number, otherwise one byte per pair. */
  lemma {:induction false} DecodeMeans(hex: string)
    ensures |hex| < 2 || hex[0] != '0' || hex[1] != 'x' || |hex| % 2 == 1 ==> Decode(hex) == Bytes([])
    ensures |hex| >= 2 && hex[0] == '0' && hex[1] == 'x' && |hex| % 2 == 0 ==>
              && (Decode(hex).InvalidArgument? <==>
                    exists i :: 1 <= i < |hex| / 2 && Stoul2(hex[2 * i..2 * i + 2]) == -1)
              && (Decode(hex).Bytes? ==>
                    && |Decode(hex).bytes| == |hex| / 2 - 1
                    && forall i :: 1 <= i < |hex| / 2 ==>
                         Decode(hex).bytes[i - 1] as int == Stoul2(hex[2 * i..2 * i + 2]))
  {
    hide Stoul2;
    assert "0x" <= hex <==> |hex| >= 2 && hex[0] == '0' && hex[1] == 'x';
    if |hex| >= 2 && |hex| % 2 == 0 {
      PairsMean(hex, |hex| / 2 - 1);
    }
  }

  lemma {:induction false} PairsMean(hex: string, n: nat)
    requires 2 + 2 * n <= |hex|
    ensures Pairs(hex, n).InvalidArgument? <==> exists i :: 1 <= i <= n && Stoul2(hex[2 * i..2 * i + 2]) == -1
    ensures Pairs(hex, n).Bytes? ==>
              && |Pairs(hex, n).bytes| == n
              && forall i :: 1 <= i <= n ==> Pairs(hex, n).bytes[i - 1] as int == Stoul2(hex[2 * i..2 * i + 2])
  {
    hide Stoul2;
    if n > 0 {
      PairsMean(hex, n - 1);
    }
  }
}
