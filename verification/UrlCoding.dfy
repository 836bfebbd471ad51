/** Percent-encoding of byte strings, as in sections 2.1 and 2.3 of RFC 3986. */
module UrlCoding {

  type Bytes = seq<int>

  const PERCENT := 37
  const PLUS := 43
  const SPACE := 32
  const SLASH := 47
  const MINUS := 45
  const ZERO := 48
  const UPPER_X := 88
  const LOWER_X := 120

  predicate IsBytes(s: Bytes) {
    forall i :: 0 <= i < |s| ==> 0 <= s[i] < 256
  }

  /** Letters, digits, '_', '-', '~' and '.' stand for themselves. */
  predicate Unreserved(c: int) {
    65 <= c <= 90 || 97 <= c <= 122 || 48 <= c <= 57 || c == 95 || c == 45 || c == 126 || c == 46
  }

  /** "0123456789ABCDEF"[d] */
  function HexDigit(d: int): int
    requires 0 <= d < 16
  {
    if d < 10 then 48 + d else 55 + d
  }

  predicate IsHex(c: int) {
    48 <= c <= 57 || 65 <= c <= 70 || 97 <= c <= 102
  }

  function HexValue(c: int): int
    requires IsHex(c)
  {
    if c <= 57 then c - 48 else if c <= 70 then c - 55 else c - 87
  }

  function EncodeByte(c: int, encodeSlash: bool): Bytes
    requires 0 <= c < 256
  {
    if Unreserved(c) || (c == SLASH && !encodeSlash) then [c] else [PERCENT, HexDigit(c / 16), HexDigit(c % 16)]
  }

  function Encode(s: Bytes, encodeSlash: bool): Bytes
    requires IsBytes(s)
  {
    if s == [] then [] else EncodeByte(s[0], encodeSlash) + Encode(s[1..], encodeSlash)
  }

  /** The text with every '+' replaced by a space. */
  function Spaced(s: Bytes): (t: Bytes)
    ensures |t| == |s| && forall i :: 0 <= i < |s| ==> t[i] == if s[i] == PLUS then SPACE else s[i]
  {
    if s == [] then [] else [if s[0] == PLUS then SPACE else s[0]] + Spaced(s[1..])
  }

  /** The text of at most two characters after the '%' at position i. */
  function Text(s: Bytes, i: nat): Bytes
    requires i < |s|
  {
    s[i + 1..if i + 3 <= |s| then i + 3 else |s|]
  }

  /** What reading a hexadecimal number from the text t leaves in a byte, or else, if there is no number. */
  function Scan(t: Bytes, otherwise: int): int {
    if |t| == 2 && IsHex(t[0]) && IsHex(t[1]) then 16 * HexValue(t[0]) + HexValue(t[1])
    else if |t| == 2 && (t[0] == SPACE || 9 <= t[0] <= 13) && IsHex(t[1]) then HexValue(t[1])
    else if |t| == 2 && t[0] == MINUS && IsHex(t[1]) then (256 - HexValue(t[1])) % 256
    else if 1 <= |t| && IsHex(t[0])
        && !(|t| == 2 && t[0] == ZERO && (t[1] == UPPER_X || t[1] == LOWER_X)) then HexValue(t[0])
    else otherwise
  }

  /** The text from position i on, decoded; unset(k) is what a '%' at k gives when no number follows it. */
  function Decode(s: Bytes, i: nat, unset: nat -> int): Bytes
    decreases |s| - i
  {
    if |s| <= i then []
    else if s[i] == PERCENT then [Scan(Text(s, i), unset(i))] + Decode(s, i + 3, unset)
    else [s[i]] + Decode(s, i + 1, unset)
  }

  lemma EncodeHead(s: Bytes, i: nat, encodeSlash: bool)
    requires IsBytes(s) && i < |s|
    ensures Encode(s[i..], encodeSlash) == EncodeByte(s[i], encodeSlash) + Encode(s[i + 1..], encodeSlash)
  {
    assert s[i..][1..] == s[i + 1..];
  }

  lemma Moved(r: Bytes, c: Bytes, d: Bytes)
    ensures r + (c + d) == (r + c) + d
  {
  }

  method UrlEncode(input: Bytes, encodeSlash: bool) returns (result: Bytes)
    requires IsBytes(input)
    ensures result == Encode(input, encodeSlash)
  {
    hide Encode;
    result := [];
    var i := 0;
    assert input[i..] == input;
    while i < |input|
      invariant 0 <= i <= |input| && result + Encode(input[i..], encodeSlash) == Encode(input, encodeSlash)
    {
      var ch := input[i];
      EncodeHead(input, i, encodeSlash);
      Moved(result, EncodeByte(ch, encodeSlash), Encode(input[i + 1..], encodeSlash));
      if Unreserved(ch) {
        result := result + [ch];
      } else if ch == SLASH {
        if encodeSlash {
          result := result + [PERCENT, 50, 70];
        } else {
          result := result + [ch];
        }
      } else {
        result := result + [PERCENT, HexDigit(ch / 16), HexDigit(ch % 16)];
      }
      i := i + 1;
    }
    assert input[i..] == [];
    EncodeNothing(encodeSlash);
  }

  lemma EncodeNothing(encodeSlash: bool)
    ensures Encode([], encodeSlash) == []
  {
  }

  method UrlDecode(input: Bytes, unset: nat -> int) returns (result: Bytes)
    ensures result == Decode(Spaced(input), 0, unset)
  {
    hide Scan;
    var text := Spaced(input);
    result := [];
    var i := 0;
    while i < |text|
      invariant 0 <= i && result + Decode(text, i, unset) == Decode(text, 0, unset)
    {
      if text[i] == PERCENT {
        var c := Scan(Text(text, i), unset(i));
        Moved(result, [c], Decode(text, i + 3, unset));
        result := result + [c];
        i := i + 3;
      } else {
        Moved(result, [text[i]], Decode(text, i + 1, unset));
        result := result + [text[i]];
        i := i + 1;
      }
    }
  }

  lemma HexRound(c: int)
    requires 0 <= c < 256
    ensures 0 <= c / 16 < 16 && IsHex(HexDigit(c / 16)) && IsHex(HexDigit(c % 16))
    ensures 16 * HexValue(HexDigit(c / 16)) + HexValue(HexDigit(c % 16)) == c
  {
  }

  /** From the end of any text on, an encoded byte string decodes to itself. */
  lemma {:induction false} DecodeFrom(before: Bytes, s: Bytes, encodeSlash: bool, unset: nat -> int)
    requires IsBytes(s)
    ensures Decode(before + Encode(s, encodeSlash), |before|, unset) == s
    decreases |s|
  {
    hide HexDigit;
    if s != [] {
      var e, rest := EncodeByte(s[0], encodeSlash), Encode(s[1..], encodeSlash);
      var all := before + (e + rest);
      Moved(before, e, rest);
      DecodeFrom(before + e, s[1..], encodeSlash, unset);
      if |e| == 3 {
        HexRound(s[0]);
        assert Text(all, |before|) == e[1..];
      }
    }
  }

  lemma {:induction false} SpacedSame(s: Bytes)
    requires PLUS !in s
    ensures Spaced(s) == s
  {
    forall i | 0 <= i < |s|
      ensures Spaced(s)[i] == s[i]
    {
      assert s[i] in s;
    }
  }

  /** Decoding undoes encoding, for every byte string and whatever unreadable escapes would give. */
  lemma DecodeEncode(s: Bytes, encodeSlash: bool, unset: nat -> int)
    requires IsBytes(s)
    ensures Decode(Spaced(Encode(s, encodeSlash)), 0, unset) == s
  {
    EncodeIsSafe(s, encodeSlash);
    SpacedSame(Encode(s, encodeSlash));
    DecodeFrom([], s, encodeSlash, unset);
    assert [] + Encode(s, encodeSlash) == Encode(s, encodeSlash);
  }

  /** What is sent is made of unreserved characters, '%' and, unless it is encoded too, '/'. */
  lemma {:induction false} EncodeIsSafe(s: Bytes, encodeSlash: bool)
    requires IsBytes(s)
    ensures forall c :: c in Encode(s, encodeSlash) ==>
      Unreserved(c) || c == PERCENT || (!encodeSlash && c == SLASH)
  {
    if s != [] {
      EncodeIsSafe(s[1..], encodeSlash);
    }
  }

  /** The unreserved characters of section 2.3 of RFC 3986. */
  lemma UnreservedAre(c: int)
    requires 0 <= c < 256
    ensures Unreserved(c) <==>
        'A' <= c as char <= 'Z' || 'a' <= c as char <= 'z' || '0' <= c as char <= '9' || c as char in {'-', '.', '_',
            '~'}
  {
  }

  /** The encoding of a text is put together from the encodings of its parts. */
  lemma {:induction false} EncodeJoins(s: Bytes, t: Bytes, encodeSlash: bool)
    requires IsBytes(s) && IsBytes(t)
    ensures IsBytes(s + t) && Encode(s + t, encodeSlash) == Encode(s, encodeSlash) + Encode(t, encodeSlash)
  {
    if s == [] {
      assert s + t == t;
    } else {
      EncodeJoins(s[1..], t, encodeSlash);
      assert (s + t)[1..] == s[1..] + t;
      Moved(EncodeByte(s[0], encodeSlash), Encode(s[1..], encodeSlash), Encode(t, encodeSlash));
    }
  }

  /** A byte stands for itself exactly if it is unreserved, or a slash that is not to be encoded; any other byte becomes
      a percent sign and its two hexadecimal digits. */
  lemma EncodeOne(c: int, encodeSlash: bool)
    requires 0 <= c < 256
    ensures Encode([c], encodeSlash) == [c] <==> Unreserved(c) || (c == SLASH && !encodeSlash)
    ensures Encode([c], encodeSlash) != [c] ==>
        |Encode([c], encodeSlash)| == 3 && Encode([c], encodeSlash)[0] == PERCENT
        && IsHex(Encode([c], encodeSlash)[1]) && IsHex(Encode([c], encodeSlash)[2])
        && 16 * HexValue(Encode([c], encodeSlash)[1]) + HexValue(Encode([c], encodeSlash)[2]) == c
  {
    HexRound(c);
    assert Encode([c], encodeSlash) == EncodeByte(c, encodeSlash) + Encode([], encodeSlash);
  }

  /** So a text of unreserved characters is sent as it is. */
  lemma {:induction false} UnreservedStay(s: Bytes, encodeSlash: bool)
    requires forall c :: c in s ==> 0 <= c < 256 && Unreserved(c)
    ensures IsBytes(s) && Encode(s, encodeSlash) == s
  {
    if s != [] {
      assert s[0] in s && forall c :: c in s[1..] ==> c in s;
      UnreservedStay(s[1..], encodeSlash);
    }
  }
}
