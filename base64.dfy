/**
 * Base64 with '=' padding: the standard alphabet of section 4 of RFC 4648
 * and the URL- and filename-safe alphabet of section 5.
 *
 * Decoding follows the non-strict decoder the server relies on: carriage
 * returns and line feeds are skipped, the text must come in whole quanta of
 * four symbols, padding may only close the final quantum, and bits a final
 * quantum leaves over are ignored.
 */
module Base64 {
  import opened Wrappers
  import opened Bytes

  /** A six-bit value: what one symbol encodes. */
  type Sextet = v: int | 0 <= v < 64

  /** The two alphabets agree on A-Z, a-z and 0-9 and differ in the symbols for 62 and 63. */
  datatype Alphabet = Alphabet(c62: char, c63: char)

  /** Section 4 of RFC 4648. */
  const Std := Alphabet('+', '/')

  /** Section 5 of RFC 4648. */
  const Url := Alphabet('-', '_')

  const Pad := '='

  predicate IsNewline(c: char) {
    c == '\r' || c == '\n'
  }

  /** The two extra symbols are distinct ASCII characters that cannot be confused with the rest. */
  predicate ValidAlphabet(e: Alphabet) {
    && e.c62 != e.c63
    && e.c62 < 128 as char && e.c63 < 128 as char
    && !IsAlphanumeric(e.c62) && !IsAlphanumeric(e.c63)
    && e.c62 != Pad && e.c63 != Pad
    && !IsNewline(e.c62) && !IsNewline(e.c63)
  }

  /** The symbol that encodes `v`. */
  function Symbol(e: Alphabet, v: Sextet): (c: char)
    ensures ValidAlphabet(e) ==> Value(e, c) == Some(v)
    ensures ValidAlphabet(e) ==> c != Pad && !IsNewline(c) && c < 128 as char
  {
    if v < 26 then ('A' as int + v) as char
    else if v < 52 then ('a' as int + (v - 26)) as char
    else if v < 62 then ('0' as int + (v - 52)) as char
    else if v == 62 then e.c62
    else e.c63
  }

  /** The value a symbol encodes, or None for a character outside the alphabet. */
  function Value(e: Alphabet, c: char): Option<Sextet> {
    if 'A' <= c <= 'Z' then Some(c as int - 'A' as int)
    else if 'a' <= c <= 'z' then Some(c as int - 'a' as int + 26)
    else if '0' <= c <= '9' then Some(c as int - '0' as int + 52)
    else if c == e.c62 then Some(62)
    else if c == e.c63 then Some(63)
    else None
  }

  /** The four symbols for a 24-bit group, most significant bits first. */
  function EncodeGroup(e: Alphabet, a: byte, b: byte, c: byte): (q: string)
    ensures |q| == 4
  {
    [Symbol(e, a / 4), Symbol(e, (a % 4) * 16 + b / 16), Symbol(e, (b % 16) * 4 + c / 64), Symbol(e, c % 64)]
  }

  /**
   * Encoding: each group of three bytes becomes four symbols; a final group
   * of one or two bytes is filled with zero bits and padded to four
   * characters with '='.
   */
  function Encode(e: Alphabet, b: seq<byte>): (s: string)
    ensures |s| == 4 * ((|b| + 2) / 3)
    ensures ValidAlphabet(e) ==> forall i :: 0 <= i < |s| ==> s[i] == Pad || Value(e, s[i]).Some?
    ensures ValidAlphabet(e) ==> forall i :: 0 <= i < |s| - 2 ==> s[i] != Pad
    ensures ValidAlphabet(e) ==> forall i :: 0 <= i < |s| ==> !IsNewline(s[i]) && s[i] < 128 as char
    decreases |b|
  {
    if |b| == 0 then ""
    else if |b| == 1 then EncodeGroup(e, b[0], 0, 0)[..2] + [Pad, Pad]
    else if |b| == 2 then EncodeGroup(e, b[0], b[1], 0)[..3] + [Pad]
    else EncodeGroup(e, b[0], b[1], b[2]) + Encode(e, b[3..])
  }

  /** Four symbols without padding give three bytes. */
  function DecodeGroup(e: Alphabet, q: string): Option<seq<byte>>
    requires |q| == 4
  {
    match (Value(e, q[0]), Value(e, q[1]), Value(e, q[2]), Value(e, q[3]))
    case (Some(a), Some(b), Some(c), Some(d)) =>
      var out: seq<byte> := [a as int * 4 + b / 16, (b as int % 16) * 16 + c / 4, (c as int % 4) * 64 + d];
      Some(out)
    case _ => None
  }

  /** The last quantum may end in "==" (one byte) or "=" (two bytes); leftover low bits are ignored. */
  function DecodeFinal(e: Alphabet, q: string): Option<seq<byte>>
    requires |q| == 4
  {
    if q[2] == Pad && q[3] == Pad then
      match (Value(e, q[0]), Value(e, q[1]))
      case (Some(a), Some(b)) =>
        var out: seq<byte> := [a as int * 4 + b / 16];
        Some(out)
      case _ => None
    else if q[3] == Pad then
      match (Value(e, q[0]), Value(e, q[1]), Value(e, q[2]))
      case (Some(a), Some(b), Some(c)) =>
        var out: seq<byte> := [a as int * 4 + b / 16, (b as int % 16) * 16 + c / 4];
        Some(out)
      case _ => None
    else
      DecodeGroup(e, q)
  }

  /** Decoding of text without line breaks: None for any malformed input. */
  function Decode(e: Alphabet, s: string): (r: Option<seq<byte>>)
    ensures r.Some? ==> |s| % 4 == 0
    ensures r.Some? ==> 3 * (|s| / 4) - 2 <= |r.value| <= 3 * (|s| / 4)
    decreases |s|
  {
    if |s| == 0 then Some([])
    else if |s| < 4 then None
    else if |s| == 4 then DecodeFinal(e, s)
    else
      match DecodeGroup(e, s[..4])
      case None => None
      case Some(head) =>
        match Decode(e, s[4..])
        case None => None
        case Some(tail) => Some(head + tail)
  }

  /** The text with every carriage return and line feed removed, as the decoder skips them. */
  function StripNewlines(s: string): (t: string)
    ensures |t| <= |s|
    ensures forall i :: 0 <= i < |t| ==> !IsNewline(t[i])
  {
    if |s| == 0 then ""
    else if IsNewline(s[0]) then StripNewlines(s[1..])
    else [s[0]] + StripNewlines(s[1..])
  }

  /** The decoder applied to stored text: line breaks are skipped, anything else malformed is an error. */
  function DecodeString(e: Alphabet, s: string): Option<seq<byte>> {
    Decode(e, StripNewlines(s))
  }

  lemma GroupRoundTrip(e: Alphabet, a: byte, b: byte, c: byte)
    requires ValidAlphabet(e)
    ensures DecodeGroup(e, EncodeGroup(e, a, b, c)) == Some([a, b, c])
    ensures DecodeFinal(e, EncodeGroup(e, a, b, c)) == Some([a, b, c])
    ensures DecodeFinal(e, EncodeGroup(e, a, 0, 0)[..2] + [Pad, Pad]) == Some([a])
    ensures DecodeFinal(e, EncodeGroup(e, a, b, 0)[..3] + [Pad]) == Some([a, b])
  {
    var q := EncodeGroup(e, a, b, c);
    assert a / 4 * 4 + ((a % 4) * 16 + b / 16) / 16 == a;
    assert (((a % 4) * 16 + b / 16) % 16) * 16 + ((b % 16) * 4 + c / 64) / 4 == b;
    assert (((b % 16) * 4 + c / 64) % 4) * 64 + c % 64 == c;
    var q1 := EncodeGroup(e, a, 0, 0)[..2] + [Pad, Pad];
    assert q1[2] == Pad && q1[3] == Pad;
    var q2 := EncodeGroup(e, a, b, 0)[..3] + [Pad];
    assert q2[2] != Pad && q2[3] == Pad;
  }

  /** The final quantum: one to three bytes. */
  lemma DecodeEncodeFinal(e: Alphabet, b: seq<byte>)
    requires ValidAlphabet(e)
    requires 1 <= |b| <= 3
    ensures Decode(e, Encode(e, b)) == Some(b)
  {
    if |b| == 1 {
      GroupRoundTrip(e, b[0], 0, 0);
      assert Encode(e, b) == EncodeGroup(e, b[0], 0, 0)[..2] + [Pad, Pad];
      assert b == [b[0]];
    } else if |b| == 2 {
      GroupRoundTrip(e, b[0], b[1], 0);
      assert Encode(e, b) == EncodeGroup(e, b[0], b[1], 0)[..3] + [Pad];
      assert b == [b[0], b[1]];
    } else {
      GroupRoundTrip(e, b[0], b[1], b[2]);
      assert Encode(e, b[3..]) == "";
      assert Encode(e, b) == EncodeGroup(e, b[0], b[1], b[2]);
      assert b == [b[0], b[1], b[2]];
    }
  }

  /** Decoding what was encoded gives back the bytes exactly. */
  lemma {:induction false} DecodeEncode(e: Alphabet, b: seq<byte>)
    requires ValidAlphabet(e)
    ensures Decode(e, Encode(e, b)) == Some(b)
    decreases |b|
  {
    if |b| == 0 {
    } else if |b| <= 3 {
      DecodeEncodeFinal(e, b);
    } else {
      DecodeEncode(e, b[3..]);
      DecodeEncodeStep(e, b);
    }
  }

  /** The round trip extends from the bytes after the first group to all of them. */
  lemma DecodeEncodeStep(e: Alphabet, b: seq<byte>)
    requires ValidAlphabet(e)
    requires |b| > 3 && Decode(e, Encode(e, b[3..])) == Some(b[3..])
    ensures Decode(e, Encode(e, b)) == Some(b)
  {
    var s, head, tail := Encode(e, b), [b[0], b[1], b[2]], b[3..];
    assert DecodeGroup(e, s[..4]) == Some(head) by {
      EncodeSplit(e, b);
      GroupRoundTrip(e, b[0], b[1], b[2]);
    }
    assert Decode(e, s[4..]) == Some(tail) by {
      EncodeSplit(e, b);
    }
    DecodeStep(e, s, head, tail);
    assert head + tail == b;
  }

  /** More than three bytes encode as the first group followed by the encoding of the rest. */
  lemma EncodeSplit(e: Alphabet, b: seq<byte>)
    requires |b| > 3
    ensures |Encode(e, b)| > 4 && |Encode(e, b[3..])| >= 4
    ensures Encode(e, b)[..4] == EncodeGroup(e, b[0], b[1], b[2])
    ensures Encode(e, b)[4..] == Encode(e, b[3..])
  {
    var s := Encode(e, b);
    assert s == EncodeGroup(e, b[0], b[1], b[2]) + Encode(e, b[3..]);
  }

  /** Text longer than one quantum decodes as its first quantum followed by the rest. */
  lemma DecodeStep(e: Alphabet, s: string, head: seq<byte>, tail: seq<byte>)
    requires |s| > 4
    requires DecodeGroup(e, s[..4]) == Some(head) && Decode(e, s[4..]) == Some(tail)
    ensures Decode(e, s) == Some(head + tail)
  {
  }

  lemma {:induction false} StripNewlinesIdentity(s: string)
    requires forall i :: 0 <= i < |s| ==> !IsNewline(s[i])
    ensures StripNewlines(s) == s
  {
    if |s| > 0 {
      assert !IsNewline(s[0]);
      StripNewlinesIdentity(s[1..]);
      assert [s[0]] + s[1..] == s;
    }
  }

  /** A character that is not a line break survives stripping. */
  lemma {:induction false} StripNewlinesKeeps(s: string, i: nat)
    requires i < |s| && !IsNewline(s[i])
    ensures exists j :: 0 <= j < |StripNewlines(s)| && StripNewlines(s)[j] == s[i]
  {
    if i == 0 {
      assert StripNewlines(s)[0] == s[0];
    } else {
      StripNewlinesKeeps(s[1..], i - 1);
      var j :| 0 <= j < |StripNewlines(s[1..])| && StripNewlines(s[1..])[j] == s[1..][i - 1];
      if !IsNewline(s[0]) {
        assert StripNewlines(s)[j + 1] == s[i];
      } else {
        assert StripNewlines(s)[j] == s[i];
      }
    }
  }

  /** What the encoder writes, the decoder reads back as the same bytes. */
  lemma DecodeStringEncode(e: Alphabet, b: seq<byte>)
    requires ValidAlphabet(e)
    ensures DecodeString(e, Encode(e, b)) == Some(b)
  {
    StripNewlinesIdentity(Encode(e, b));
    DecodeEncode(e, b);
  }

  /**
   * A character outside the alphabet makes decoding fail unless it is
   * padding at the end: the last character, or the last two.
   */
  lemma {:induction false} DecodeRejectsStraySymbol(e: Alphabet, s: string, i: nat)
    requires i < |s|
    requires Value(e, s[i]).None?
    requires s[i] != Pad || i < |s| - 2 || (i == |s| - 2 && s[|s| - 1] != Pad)
    ensures Decode(e, s) == None
    decreases |s|
  {
    if |s| > 4 && i >= 4 {
      assert s[4..][i - 4] == s[i];
      DecodeRejectsStraySymbol(e, s[4..], i - 4);
    }
  }
}
