/** The standard base64 alphabet with padding (section 4 of RFC 4648), as
    Go's base64.StdEncoding.DecodeString applies it to a content block's
    `src`: carriage returns and line feeds are skipped, and on malformed
    input the bytes of every quantum decoded before the fault are still
    returned alongside the error. */
module Base64 {
  import opened FileSystem

  predicate IsAlphabetChar(c: char) {
    'A' <= c <= 'Z' || 'a' <= c <= 'z' || '0' <= c <= '9' || c == '+' || c == '/'
  }

  predicate IsNewline(c: char) {
    c == '\n' || c == '\r'
  }

  /** The 6-bit value of an alphabet character. */
  function CharValue(c: char): (v: nat)
    requires IsAlphabetChar(c)
    ensures v < 64
  {
    if 'A' <= c <= 'Z' then c as int - 'A' as int
    else if 'a' <= c <= 'z' then c as int - 'a' as int + 26
    else if '0' <= c <= '9' then c as int - '0' as int + 52
    else if c == '+' then 62
    else 63
  }

  /** The alphabet character of a 6-bit value. */
  function Alphabet(v: nat): (c: char)
    requires v < 64
    ensures IsAlphabetChar(c) && CharValue(c) == v
  {
    if v < 26 then 'A' + v as char
    else if v < 52 then 'a' + (v - 26) as char
    else if v < 62 then '0' + (v - 52) as char
    else if v == 62 then '+'
    else '/'
  }

  /** How the decoder treats one input character. */
  datatype CharClass = Sextet(value: nat) | Newline | Pad | Invalid

  function Classify(c: char): (k: CharClass)
    ensures k.Sextet? <==> IsAlphabetChar(c)
    ensures k.Sextet? ==> k.value == CharValue(c) && k.value < 64
    ensures k.Newline? <==> IsNewline(c)
    ensures k.Pad? <==> c == '='
  {
    if IsAlphabetChar(c) then Sextet(CharValue(c))
    else if IsNewline(c) then Newline
    else if c == '=' then Pad
    else Invalid
  }

  predicate Sextets(d: seq<nat>) {
    forall i :: 0 <= i < |d| ==> d[i] < 64
  }

  /** The bytes of a quantum of 2, 3 or 4 sextets: 1, 2 or 3 bytes of the
      24-bit group they spell, missing sextets read as 0. */
  function QuantumBytes(d: seq<nat>): (r: seq<byte>)
    requires 2 <= |d| <= 4 && Sextets(d)
    ensures |r| == |d| - 1
  {
    var d2 := if |d| > 2 then d[2] else 0;
    var d3 := if |d| > 3 then d[3] else 0;
    var b := [d[0] * 4 + d[1] / 16, (d[1] % 16) * 16 + d2 / 4, (d2 % 4) * 64 + d3];
    b[..|d| - 1]
  }

  /** `s` without its leading carriage returns and line feeds. */
  function SkipNewlines(s: string): (r: string)
    ensures |r| <= |s|
  {
    if |s| > 0 && Classify(s[0]).Newline? then SkipNewlines(s[1..]) else s
  }

  /** The outcome of decoding one quantum: the input left, the bytes it
      contributes, and whether it was well formed. */
  datatype Quantum = Quantum(rest: string, out: seq<byte>, ok: bool)

  /** decodeQuantum: read sextets until four are collected, skipping
      newlines. Input that ends inside a quantum, a character outside the
      alphabet, or padding after fewer than two sextets is an error with no
      output. */
  function ReadQuantum(s: string, digits: seq<nat>): (r: Quantum)
    requires |digits| < 4 && Sextets(digits)
    ensures |r.rest| <= |s| && (|s| > 0 ==> |r.rest| < |s|)
    decreases |s|
  {
    if |s| == 0 then Quantum([], [], |digits| == 0)
    else
      match Classify(s[0])
      case Sextet(v) =>
        var d := digits + [v];
        if |d| == 4 then Quantum(s[1..], QuantumBytes(d), true) else ReadQuantum(s[1..], d)
      case Newline => ReadQuantum(s[1..], digits)
      case Pad => if |digits| < 2 then Quantum(s[1..], [], false) else ReadPadding(s[1..], digits)
      case Invalid => Quantum(s[1..], [], false)
  }

  /** The rest of a quantum after its first '=': after two sextets a second
      '=' must follow (newlines may come between); after the padding only
      newlines may follow, and anything else is an error that still keeps
      the quantum's bytes. */
  function ReadPadding(t: string, digits: seq<nat>): (r: Quantum)
    requires 2 <= |digits| <= 3 && Sextets(digits)
    ensures |r.rest| <= |t|
  {
    var u := SkipNewlines(t);
    if |digits| == 3 then Quantum(u, QuantumBytes(digits), u == [])
    else if u == [] || !Classify(u[0]).Pad? then Quantum(u, [], false)
    else
      var v := SkipNewlines(u[1..]);
      Quantum(v, QuantumBytes(digits), v == [])
  }

  /** What DecodeString returns: the bytes decoded and whether there was no error. */
  datatype Decoded = Decoded(bytes: seq<byte>, ok: bool)

  /** base64.StdEncoding.DecodeString: quanta are decoded in order until
      the input is used up or one of them is malformed. */
  function DecodeString(s: string): (r: Decoded)
    decreases |s|
  {
    if |s| == 0 then Decoded([], true)
    else
      var q := ReadQuantum(s, []);
      if !q.ok then Decoded(q.out, false)
      else
        var tail := DecodeString(q.rest);
        Decoded(q.out + tail.bytes, tail.ok)
  }

  /** The four characters encoding three bytes. */
  function EncodeQuantum(b0: byte, b1: byte, b2: byte): (s: string)
    ensures |s| == 4 && forall i :: 0 <= i < 4 ==> IsAlphabetChar(s[i])
  {
    [Alphabet(b0 / 4), Alphabet((b0 % 4) * 16 + b1 / 16), Alphabet((b1 % 16) * 4 + b2 / 64), Alphabet(b2 % 64)]
  }

  /** The final quantum of one byte: two characters and "==". */
  function EncodeOne(b0: byte): (s: string)
    ensures |s| == 4
  {
    [Alphabet(b0 / 4), Alphabet((b0 % 4) * 16), '=', '=']
  }

  /** The final quantum of two bytes: three characters and "=". */
  function EncodeTwo(b0: byte, b1: byte): (s: string)
    ensures |s| == 4
  {
    [Alphabet(b0 / 4), Alphabet((b0 % 4) * 16 + b1 / 16), Alphabet((b1 % 16) * 4), '=']
  }

  /** base64.StdEncoding.EncodeToString: three bytes at a time, the last
      one or two bytes padded. */
  function Encode(b: seq<byte>): (s: string)
    decreases |b|
  {
    if |b| == 0 then []
    else if |b| == 1 then EncodeOne(b[0])
    else if |b| == 2 then EncodeTwo(b[0], b[1])
    else EncodeQuantum(b[0], b[1], b[2]) + Encode(b[3..])
  }

  /** The sextets of three bytes give the three bytes back. */
  lemma SextetsOfBytes(b0: byte, b1: byte, b2: byte)
    ensures QuantumBytes([b0 / 4, (b0 % 4) * 16 + b1 / 16, (b1 % 16) * 4 + b2 / 64, b2 % 64]) == [b0, b1, b2]
  {
    var c1 := (b0 % 4) * 16 + b1 / 16;
    var c2 := (b1 % 16) * 4 + b2 / 64;
    assert c1 / 16 == b0 % 4 && c1 % 16 == b1 / 16;
    assert c2 / 4 == b1 % 16 && c2 % 4 == b2 / 64;
  }

  /** Reading one alphabet character that does not complete the quantum. */
  lemma ReadOne(s: string, digits: seq<nat>)
    requires |s| > 0 && IsAlphabetChar(s[0]) && |digits| < 3 && Sextets(digits)
    ensures ReadQuantum(s, digits) == ReadQuantum(s[1..], digits + [CharValue(s[0])])
  {
  }

  /** Two alphabet characters at the start of a quantum. */
  lemma ReadTwo(c0: char, c1: char, rest: string)
    requires IsAlphabetChar(c0) && IsAlphabetChar(c1)
    ensures ReadQuantum([c0, c1] + rest, []) == ReadQuantum(rest, [CharValue(c0), CharValue(c1)])
  {
    var s := [c0, c1] + rest;
    ReadOne(s, []);
    assert [] + [CharValue(c0)] == [CharValue(c0)];
    assert s[1..] == [c1] + rest;
    ReadOne(s[1..], [CharValue(c0)]);
    assert [CharValue(c0)] + [CharValue(c1)] == [CharValue(c0), CharValue(c1)];
    assert s[1..][1..] == rest;
  }

  /** Three alphabet characters at the start of a quantum. */
  lemma ReadThree(c0: char, c1: char, c2: char, rest: string)
    requires IsAlphabetChar(c0) && IsAlphabetChar(c1) && IsAlphabetChar(c2)
    ensures ReadQuantum([c0, c1, c2] + rest, []) == ReadQuantum(rest, [CharValue(c0), CharValue(c1), CharValue(c2)])
  {
    ReadTwo(c0, c1, [c2] + rest);
    assert [c0, c1, c2] + rest == [c0, c1] + ([c2] + rest);
    ReadOne([c2] + rest, [CharValue(c0), CharValue(c1)]);
    assert [CharValue(c0), CharValue(c1)] + [CharValue(c2)] == [CharValue(c0), CharValue(c1), CharValue(c2)];
    assert ([c2] + rest)[1..] == rest;
  }

  /** Four alphabet characters form one complete quantum. */
  lemma ReadFour(e: string, rest: string)
    requires |e| == 4 && forall i :: 0 <= i < 4 ==> IsAlphabetChar(e[i])
    ensures ReadQuantum(e + rest, []) ==
            Quantum(rest, QuantumBytes([CharValue(e[0]), CharValue(e[1]), CharValue(e[2]), CharValue(e[3])]), true)
  {
    ReadThree(e[0], e[1], e[2], [e[3]] + rest);
    assert e + rest == [e[0], e[1], e[2]] + ([e[3]] + rest);
    assert ([e[3]] + rest)[1..] == rest;
  }

  /** A full quantum decodes to the three bytes it encodes. */
  lemma QuantumRoundTrip(b0: byte, b1: byte, b2: byte, rest: string)
    ensures ReadQuantum(EncodeQuantum(b0, b1, b2) + rest, []) == Quantum(rest, [b0, b1, b2], true)
  {
    ReadFour(EncodeQuantum(b0, b1, b2), rest);
    SextetsOfBytes(b0, b1, b2);
  }

  /** Padding after two sextets: a second '=' must follow, then only newlines. */
  lemma ReadDoublePad(t: string, digits: seq<nat>)
    requires |digits| == 2 && Sextets(digits)
    ensures ReadQuantum(['=', '='] + t, digits) == Quantum(SkipNewlines(t), QuantumBytes(digits), SkipNewlines(t) == [])
  {
    var s := ['=', '='] + t;
    assert ReadQuantum(s, digits) == ReadPadding(['='] + t, digits) by {
      assert s[0] == '=' && s[1..] == ['='] + t;
    }
    assert SkipNewlines(['='] + t) == ['='] + t;
    assert (['='] + t)[1..] == t;
  }

  /** Padding after three sextets: only newlines may follow. */
  lemma ReadSinglePad(t: string, digits: seq<nat>)
    requires |digits| == 3 && Sextets(digits)
    ensures ReadQuantum(['='] + t, digits) == Quantum(SkipNewlines(t), QuantumBytes(digits), SkipNewlines(t) == [])
  {
    assert (['='] + t)[1..] == t;
  }

  lemma OneByteSextets(b0: byte)
    ensures QuantumBytes([b0 / 4, (b0 % 4) * 16]) == [b0]
  {
  }

  lemma TwoBytesSextets(b0: byte, b1: byte)
    ensures QuantumBytes([b0 / 4, (b0 % 4) * 16 + b1 / 16, (b1 % 16) * 4]) == [b0, b1]
  {
    var v1 := (b0 % 4) * 16 + b1 / 16;
    assert v1 / 16 == b0 % 4 && v1 % 16 == b1 / 16;
  }

  /** A final quantum holding one byte decodes to it, and decoding ends there. */
  lemma PaddedOne(b0: byte, t: string)
    ensures ReadQuantum(EncodeOne(b0) + t, []) == Quantum(SkipNewlines(t), [b0], SkipNewlines(t) == [])
  {
    var c0, c1 := Alphabet(b0 / 4), Alphabet((b0 % 4) * 16);
    assert EncodeOne(b0) + t == [c0, c1] + (['=', '='] + t);
    ReadTwo(c0, c1, ['=', '='] + t);
    ReadDoublePad(t, [b0 / 4, (b0 % 4) * 16]);
    OneByteSextets(b0);
  }

  /** A final quantum holding two bytes decodes to them, and decoding ends there. */
  lemma PaddedTwo(b0: byte, b1: byte, t: string)
    ensures ReadQuantum(EncodeTwo(b0, b1) + t, []) == Quantum(SkipNewlines(t), [b0, b1], SkipNewlines(t) == [])
  {
    var v0, v1, v2 := b0 / 4, (b0 % 4) * 16 + b1 / 16, (b1 % 16) * 4;
    var c0, c1, c2 := Alphabet(v0), Alphabet(v1), Alphabet(v2);
    assert EncodeTwo(b0, b1) + t == [c0, c1, c2] + (['='] + t);
    ReadThree(c0, c1, c2, ['='] + t);
    ReadSinglePad(t, [v0, v1, v2]);
    TwoBytesSextets(b0, b1);
  }

  /** Decoding a padded final quantum followed by `t`. */
  lemma DecodePadded(q: string, t: string, out: seq<byte>)
    requires ReadQuantum(q + t, []) == Quantum(SkipNewlines(t), out, SkipNewlines(t) == [])
    requires |q| > 0
    ensures DecodeString(q + t) == Decoded(out, SkipNewlines(t) == [])
  {
    if SkipNewlines(t) == [] {
      assert out + [] == out;
    }
  }

  /** Decoding the encoding of `b` followed by more input: a whole number of
      quanta decodes to `b` and decoding goes on; a padded final quantum
      ends decoding, which succeeds only if nothing but newlines follows. */
  lemma {:induction false} EncodeThenDecode(b: seq<byte>, t: string)
    ensures |b| % 3 == 0 ==> DecodeString(Encode(b) + t) == Decoded(b + DecodeString(t).bytes, DecodeString(t).ok)
    ensures |b| % 3 != 0 ==> DecodeString(Encode(b) + t) == Decoded(b, SkipNewlines(t) == [])
    decreases |b|
  {
    if |b| == 0 {
      assert Encode(b) + t == t;
      assert b + DecodeString(t).bytes == DecodeString(t).bytes;
    } else if |b| <= 2 {
      PaddedTail(b, t);
    } else {
      var tail := b[3..];
      assert |tail| % 3 == |b| % 3;
      EncodeThenDecode(tail, t);
      FullQuantumFirst(b, t);
      var r := DecodeString(Encode(tail) + t);
      if |b| % 3 == 0 {
        assert r.bytes == tail + DecodeString(t).bytes;
        assert b[..3] + (tail + DecodeString(t).bytes) == (b[..3] + tail) + DecodeString(t).bytes;
      } else {
        assert r.bytes == tail;
      }
      assert b[..3] + tail == b;
    }
  }

  /** The padded final quantum of one or two bytes ends decoding. */
  lemma PaddedTail(b: seq<byte>, t: string)
    requires 1 <= |b| <= 2
    ensures DecodeString(Encode(b) + t) == Decoded(b, SkipNewlines(t) == [])
  {
    if |b| == 1 {
      PaddedOne(b[0], t);
      DecodePadded(EncodeOne(b[0]), t, [b[0]]);
      assert b == [b[0]];
    } else {
      PaddedTwo(b[0], b[1], t);
      DecodePadded(EncodeTwo(b[0], b[1]), t, [b[0], b[1]]);
      assert b == [b[0], b[1]];
    }
  }

  /** Decoding the encoding of three or more bytes starts with their first
      quantum and goes on with the encoding of the rest. */
  lemma FullQuantumFirst(b: seq<byte>, t: string)
    requires |b| >= 3
    ensures DecodeString(Encode(b) + t) ==
            Decoded(b[..3] + DecodeString(Encode(b[3..]) + t).bytes, DecodeString(Encode(b[3..]) + t).ok)
  {
    var rest := Encode(b[3..]) + t;
    assert Encode(b) + t == EncodeQuantum(b[0], b[1], b[2]) + rest;
    QuantumRoundTrip(b[0], b[1], b[2], rest);
    assert b[..3] == [b[0], b[1], b[2]];
  }

  /** Decoding inverts encoding. */
  lemma DecodeEncode(b: seq<byte>)
    ensures DecodeString(Encode(b)) == Decoded(b, true)
  {
    EncodeThenDecode(b, []);
    assert Encode(b) + [] == Encode(b);
  }

  /** A stray character after well-formed input is an error, yet every byte
      decoded before it is still returned. */
  lemma PartialOutputOnError(b: seq<byte>, c: char, u: string)
    requires !IsAlphabetChar(c) && !IsNewline(c) && c != '='
    ensures DecodeString(Encode(b) + ([c] + u)) == Decoded(b, false)
  {
    var t := [c] + u;
    EncodeThenDecode(b, t);
    if |b| % 3 == 0 {
      assert DecodeString(t) == Decoded([], false);
      assert b + [] == b;
    }
  }

  /** Input that ends inside a quantum is an error that decodes nothing
      from that quantum, yet keeps every byte decoded before it. */
  lemma TruncatedQuantum(b: seq<byte>, c0: char, c1: char)
    requires |b| % 3 == 0 && IsAlphabetChar(c0) && IsAlphabetChar(c1)
    ensures DecodeString(Encode(b) + [c0, c1]) == Decoded(b, false)
  {
    EncodeThenDecode(b, [c0, c1]);
    ReadTwo(c0, c1, []);
    assert [c0, c1] + [] == [c0, c1];
    assert b + [] == b;
  }
}
