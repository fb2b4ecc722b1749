/** Base64 as in sections 4 and 5 of RFC 4648, padded and unpadded (section 3.2), with the
    leniency of Go's `encoding/base64`: line breaks are skipped and the unused bits of the
    last character are ignored. */
module Base64 {
  import opened Common

  datatype Alphabet = Std | Url

  predicate IsBytes(s: string) { forall i :: 0 <= i < |s| ==> s[i] as int < 256 }

  function EncodeChar(a: Alphabet, v: nat): (c: char)
    requires v < 64
  {
    if v < 26 then (v + 'A' as int) as char
    else if v < 52 then (v - 26 + 'a' as int) as char
    else if v < 62 then (v - 52 + '0' as int) as char
    else if v == 62 then (if a.Std? then '+' else '-')
    else (if a.Std? then '/' else '_')
  }

  function DecodeChar(a: Alphabet, c: char): (r: Option<nat>)
    ensures r.Some? ==> r.value < 64
  {
    if 'A' <= c <= 'Z' then Some(c as int - 'A' as int)
    else if 'a' <= c <= 'z' then Some(c as int - 'a' as int + 26)
    else if '0' <= c <= '9' then Some(c as int - '0' as int + 52)
    else if c == (if a.Std? then '+' else '-') then Some(62)
    else if c == (if a.Std? then '/' else '_') then Some(63)
    else None
  }

  lemma CharRoundTrip(a: Alphabet, v: nat)
    requires v < 64
    ensures DecodeChar(a, EncodeChar(a, v)) == Some(v)
  {}

  type Sextet = n: nat | n < 64

  /** A byte string as 6-bit values, the last one filled up with zero bits. */
  function Sextets(s: string): (v: seq<Sextet>)
    requires IsBytes(s)
    ensures |v| % 4 == if |s| % 3 == 0 then 0 else |s| % 3 + 1
  {
    if s == "" then []
    else
      var b0 := s[0] as int;
      if |s| == 1 then [b0 / 4, b0 % 4 * 16]
      else
        var b1 := s[1] as int;
        if |s| == 2 then [b0 / 4, b0 % 4 * 16 + b1 / 16, b1 % 16 * 4]
        else
          var b2 := s[2] as int;
          [b0 / 4, b0 % 4 * 16 + b1 / 16, b1 % 16 * 4 + b2 / 64, b2 % 64] + Sextets(s[3..])
  }

  function FirstByte(v0: Sextet, v1: Sextet): char { (v0 * 4 + v1 / 16) as char }

  function SecondByte(v1: Sextet, v2: Sextet): char { (v1 % 16 * 16 + v2 / 4) as char }

  function ThirdByte(v2: Sextet, v3: Sextet): char { (v2 % 4 * 64 + v3) as char }

  /** The bytes of 6-bit values; one value alone is no byte. */
  function Bytes(v: seq<Sextet>): Option<string> {
    if v == [] then Some("")
    else if |v| == 1 then None
    else if |v| == 2 then Some([FirstByte(v[0], v[1])])
    else if |v| == 3 then Some([FirstByte(v[0], v[1]), SecondByte(v[1], v[2])])
    else
      match Bytes(v[4..])
      case None => None
      case Some(rest) => Some([FirstByte(v[0], v[1]), SecondByte(v[1], v[2]), ThirdByte(v[2], v[3])] + rest)
  }

  function Chars(a: Alphabet, v: seq<Sextet>): (s: string)
    ensures |s| == |v|
  {
    if v == [] then "" else [EncodeChar(a, v[0])] + Chars(a, v[1..])
  }

  function Values(a: Alphabet, s: string): (v: Option<seq<Sextet>>)
    ensures v.Some? ==> |v.value| == |s|
  {
    if s == "" then Some([])
    else
      match (DecodeChar(a, s[0]), Values(a, s[1..]))
      case (Some(v), Some(rest)) => Some([v] + rest)
      case _ => None
  }

  /** `RawEncoding.EncodeToString`. */
  function Encode(a: Alphabet, s: string): string
    requires IsBytes(s)
  {
    Chars(a, Sextets(s))
  }

  function SkipNewlines(s: string): string {
    if s == "" then ""
    else if s[0] == '\n' || s[0] == '\r' then SkipNewlines(s[1..])
    else [s[0]] + SkipNewlines(s[1..])
  }

  function DecodeRaw(a: Alphabet, s: string): Option<string> {
    match Values(a, s)
    case None => None
    case Some(v) => Bytes(v)
  }

  /** The text before the padding of a well-padded text. */
  function Unpadded(s: string): string {
    if |s| >= 2 && s[|s|-2..] == "==" then s[..|s|-2]
    else if s != "" && s[|s|-1] == '=' then s[..|s|-1]
    else s
  }

  /** `DecodeString` of the padded or the raw encoding. */
  function Decode(a: Alphabet, padded: bool, s: string): Option<string> {
    var s := SkipNewlines(s);
    if !padded then DecodeRaw(a, s)
    else if |s| % 4 != 0 then None
    else DecodeRaw(a, Unpadded(s))
  }

  /** Filled with `=` to a multiple of four. */
  function Pad(s: string): string {
    s + match |s| % 4 case 0 => "" case 1 => "===" case 2 => "==" case _ => "="
  }

  lemma PadShape(s: string)
    ensures var p := Pad(s);
            && |p| % 4 == 0 && |s| <= |p| <= |s| + 3 && p[..|s|] == s
            && forall i :: |s| <= i < |p| ==> p[i] == '='
  {}

  /** The parser's padding loop. */
  method PadLoop(s: string) returns (padded: string)
    ensures padded == Pad(s)
  {
    padded := s;
    PadShape(s);
    while |padded| % 4 != 0
      invariant |s| <= |padded| <= |Pad(s)| && padded == Pad(s)[..|padded|]
      decreases |Pad(s)| - |padded|
    {
      padded := padded + "=";
    }
  }

  predicate InAlphabet(c: char) {
    'A' <= c <= 'Z' || 'a' <= c <= 'z' || '0' <= c <= '9' || c == '+' || c == '/' || c == '-' || c == '_'
  }

  lemma {:induction false} CharsInAlphabet(a: Alphabet, v: seq<Sextet>)
    ensures forall c :: c in Chars(a, v) ==> InAlphabet(c) && (a.Std? ==> c != '-' && c != '_')
  {
    if v != [] { CharsInAlphabet(a, v[1..]); }
  }

  lemma {:induction false} ValuesOfChars(a: Alphabet, v: seq<Sextet>)
    ensures Values(a, Chars(a, v)) == Some(v)
  {
    if v != [] {
      CharRoundTrip(a, v[0]);
      ValuesOfChars(a, v[1..]);
      assert Chars(a, v)[0] == EncodeChar(a, v[0]) && Chars(a, v)[1..] == Chars(a, v[1..]);
      assert [v[0]] + v[1..] == v;
    }
  }

  lemma {:induction false} NothingToSkip(s: string)
    requires '\n' !in s && '\r' !in s
    ensures SkipNewlines(s) == s
  {
    if s != "" { NothingToSkip(s[1..]); }
  }

  lemma BitsRoundTrip(c0: char, c1: char, c2: char)
    requires c0 as int < 256 && c1 as int < 256 && c2 as int < 256
    ensures var b0, b1, b2 := c0 as int, c1 as int, c2 as int;
            && FirstByte(b0 / 4, b0 % 4 * 16 + b1 / 16) == c0
            && SecondByte(b0 % 4 * 16 + b1 / 16, b1 % 16 * 4 + b2 / 64) == c1
            && ThirdByte(b1 % 16 * 4 + b2 / 64, b2 % 64) == c2
  {}

  /** The bytes of four values and what follows them. */
  lemma BytesAhead(v: seq<Sextet>)
    requires |v| >= 4
    ensures Bytes(v) == match Bytes(v[4..])
                        case None => None
                        case Some(rest) => Some([FirstByte(v[0], v[1]), SecondByte(v[1], v[2]), ThirdByte(v[2], v[3])] + rest)
  {}

  lemma {:induction false} BytesOfSextets(s: string)
    requires IsBytes(s)
    ensures Bytes(Sextets(s)) == Some(s)
  {
    if |s| >= 3 {
      var v := Sextets(s);
      BitsRoundTrip(s[0], s[1], s[2]);
      BytesOfSextets(s[3..]);
      assert v[4..] == Sextets(s[3..]);
      BytesAhead(v);
      assert s == [s[0], s[1], s[2]] + s[3..];
    } else if |s| == 2 {
      BytesOfTwo(s);
    } else if |s| == 1 {
      BytesOfOne(s);
    }
  }

  lemma LastBits(c0: char, c1: char)
    requires c0 as int < 256 && c1 as int < 256
    ensures var b0, b1 := c0 as int, c1 as int;
            && FirstByte(b0 / 4, b0 % 4 * 16) == c0
            && FirstByte(b0 / 4, b0 % 4 * 16 + b1 / 16) == c0
            && SecondByte(b0 % 4 * 16 + b1 / 16, b1 % 16 * 4) == c1
  {}

  /** One byte at the end. */
  lemma BytesOfOne(s: string)
    requires IsBytes(s) && |s| == 1
    ensures Bytes(Sextets(s)) == Some(s)
  {
    LastBits(s[0], s[0]);
    assert s == [s[0]];
  }

  /** Two bytes at the end. */
  lemma BytesOfTwo(s: string)
    requires IsBytes(s) && |s| == 2
    ensures Bytes(Sextets(s)) == Some(s)
  {
    LastBits(s[0], s[1]);
    assert s == [s[0], s[1]];
  }

  /** Section 3.2 of RFC 4648: unpadded decoding undoes unpadded encoding, for every byte
      string and both alphabets. */
  lemma RawRoundTrip(a: Alphabet, s: string)
    requires IsBytes(s)
    ensures Decode(a, false, Encode(a, s)) == Some(s)
  {
    CharsInAlphabet(a, Sextets(s));
    NothingToSkip(Encode(a, s));
    ValuesOfChars(a, Sextets(s));
    BytesOfSextets(s);
  }

  lemma UnpaddedFilled(s: string, fill: string)
    requires '=' !in s && (fill == "" || fill == "=" || fill == "==")
    ensures Unpadded(s + fill) == s
  {
    var p := s + fill;
    if fill == "==" {
      assert p[|p|-2..] == "==" && p[..|p|-2] == s;
    } else if s == "" {
    } else {
      assert s[|s|-1] in s && s[|s|-1] != '=';
      if |p| >= 2 { assert p[|p|-2..] == [p[|p|-2], p[|p|-1]]; }
      assert (fill == "=" ==> p[|p|-2] == s[|s|-1]) && (fill == "" ==> p[|p|-1] == s[|s|-1]);
      if fill == "=" { assert p[..|p|-1] == s; } else { assert p == s; }
    }
  }

  lemma DecodePadded(a: Alphabet, e: string)
    requires |e| % 4 != 1 && '=' !in e && '\n' !in e && '\r' !in e
    ensures Decode(a, true, Pad(e)) == DecodeRaw(a, e)
  {
    PadShape(e);
    NothingToSkip(Pad(e));
    UnpaddedPad(e);
  }

  lemma UnpaddedPad(e: string)
    requires |e| % 4 != 1 && '=' !in e
    ensures Unpadded(Pad(e)) == e
  {
    if |e| % 4 == 0 { UnpaddedFilled(e, ""); assert e + "" == e; }
    else if |e| % 4 == 2 { UnpaddedFilled(e, "=="); }
    else { UnpaddedFilled(e, "="); }
  }

  /** Stripping the padding and filling it up again loses nothing. */
  lemma PaddedRoundTrip(a: Alphabet, s: string)
    requires IsBytes(s)
    ensures Decode(a, true, Pad(Encode(a, s))) == Some(s)
  {
    CharsInAlphabet(a, Sextets(s));
    DecodePadded(a, Encode(a, s));
    ValuesOfChars(a, Sextets(s));
    BytesOfSextets(s);
  }

  // ---------------------------------------------------------------- two alphabets

  lemma {:induction false} SkipAppend(s: string, fill: string)
    requires forall i :: 0 <= i < |fill| ==> fill[i] == '='
    ensures SkipNewlines(s + fill) == SkipNewlines(s) + fill
  {
    if s == "" {
      assert s + fill == fill;
      NothingToSkip(fill);
    } else {
      assert (s + fill)[1..] == s[1..] + fill;
      SkipAppend(s[1..], fill);
    }
  }

  /** A text decoded with the standard alphabet has no padding left, and the other
      alphabet reads the same values unless a `+` or a `/` is in it. */
  lemma {:induction false} ValuesAgree(s: string)
    requires Values(Std, s).Some?
    ensures '=' !in s
    ensures Values(Url, s) == if '+' in s || '/' in s then None else Values(Std, s)
  {
    if s != "" {
      ValuesAgree(s[1..]);
      assert s == [s[0]] + s[1..];
    }
  }

  lemma FourMore(n: nat)
    ensures (n + 4) % 4 == n % 4
  {}

  lemma {:induction false} BytesLength(v: seq<Sextet>)
    requires Bytes(v).Some?
    ensures |v| % 4 != 1
  {
    if |v| >= 4 {
      BytesAhead(v);
      BytesLength(v[4..]);
      FourMore(|v[4..]|);
    }
  }

  lemma {:induction false} PaddingIsNoValue(a: Alphabet, s: string)
    requires '=' in s
    ensures Values(a, s) == None
  {
    if s[0] != '=' { PaddingIsNoValue(a, s[1..]); }
  }

  lemma DecodeAsItStands(a: Alphabet, s: string)
    requires '=' !in SkipNewlines(s)
    ensures Decode(a, true, s) == if |SkipNewlines(s)| % 4 == 0 then DecodeRaw(a, SkipNewlines(s)) else None
  {
    var t := SkipNewlines(s);
    UnpaddedFilled(t, "");
    assert t + "" == t;
  }

  /** The fill depends on the length modulo 4 alone. */
  lemma SameFill(s: string, t: string)
    requires |t| % 4 != 1
    ensures Pad(s)[..|s|] == s
    ensures var filled := t + Pad(s)[|s|..];
            if |s| % 4 == |t| % 4 then filled == Pad(t) else |filled| % 4 != 0
  {}

  /** Padding a text that holds line breaks counts them: it decodes only if that makes no
      difference to the length modulo 4. */
  lemma DecodePaddedLines(a: Alphabet, s: string)
    requires var t := SkipNewlines(s); '=' !in t && |t| % 4 != 1
    ensures var t := SkipNewlines(s);
            Decode(a, true, Pad(s)) == if |s| % 4 == |t| % 4 then DecodeRaw(a, t) else None
  {
    var t, fill := SkipNewlines(s), Pad(s)[|s|..];
    SameFill(s, t);
    PadShape(s);
    assert Pad(s) == s + fill;
    assert SkipNewlines(Pad(s)) == t + fill by { SkipAppend(s, fill); }
    if |s| % 4 == |t| % 4 { UnpaddedPad(t); PadShape(t); }
  }

  lemma SextetsOfThree(s: string, rest: string, b0: nat, b1: nat, b2: nat)
    requires IsBytes(s + rest) && |s| == 3 && s[0] as int == b0 && s[1] as int == b1 && s[2] as int == b2
    ensures b0 < 256 && b1 < 256 && b2 < 256
    ensures IsBytes(rest) && Sextets(s + rest) == [b0 / 4, b0 % 4 * 16 + b1 / 16, b1 % 16 * 4 + b2 / 64, b2 % 64] + Sextets(rest)
  {
    assert (s + rest)[3..] == rest && (s + rest)[..3] == s;
    assert forall i :: 0 <= i < |rest| ==> rest[i] == (s + rest)[i+3];
  }

  lemma FoobarSextets()
    ensures Sextets("foobar") == [25, 38, 61, 47] + [24, 38, 5, 50]
  {
    assert "foo" + "bar" == "foobar" && "bar" + "" == "bar";
    SextetsOfThree("foo", "bar", 102, 111, 111);
    SextetsOfThree("bar", "", 98, 97, 114);
    assert Sextets("bar") == [24, 38, 5, 50];
  }

  /** A test vector of section 10 of RFC 4648. */
  lemma FoobarEncodes(a: Alphabet)
    ensures Encode(a, "foobar") == "Zm9vYmFy"
  {
    FoobarSextets();
    var tail: seq<Sextet> := [24, 38, 5, 50];
    CharsOfFour(a, 25, 38, 61, 47, tail);
    CharsOfFour(a, 24, 38, 5, 50, []);
    assert tail + [] == tail && [24, 38, 5, 50] + [] == tail;
    assert EncodeChar(a, 25) == 'Z' && EncodeChar(a, 38) == 'm' && EncodeChar(a, 61) == '9' && EncodeChar(a, 47) == 'v';
    assert EncodeChar(a, 24) == 'Y' && EncodeChar(a, 5) == 'F' && EncodeChar(a, 50) == 'y';
    assert Chars(a, tail) == "YmFy" + "";
    assert Encode(a, "foobar") == "Zm9v" + "YmFy" && "Zm9v" + "YmFy" == "Zm9vYmFy";
  }

  /** The last two characters of the standard and of the URL-safe alphabet. */
  lemma LastCharacters()
    ensures Encode(Std, [0xFB as char, 0xFF as char]) == "+/8" && Encode(Url, [0xFB as char, 0xFF as char]) == "-_8"
  {
    assert Sextets([0xFB as char, 0xFF as char]) == [62, 63, 60];
    CharsOfThree(Std);
    CharsOfThree(Url);
  }

  lemma CharsAhead(a: Alphabet, v: Sextet, rest: seq<Sextet>)
    ensures Chars(a, [v] + rest) == [EncodeChar(a, v)] + Chars(a, rest)
  {
    assert ([v] + rest)[1..] == rest;
  }

  lemma CharsOfFour(a: Alphabet, p: Sextet, q: Sextet, r: Sextet, s: Sextet, rest: seq<Sextet>)
    ensures Chars(a, [p, q, r, s] + rest) == [EncodeChar(a, p), EncodeChar(a, q), EncodeChar(a, r), EncodeChar(a, s)] + Chars(a, rest)
  {
    CharsAhead(a, s, rest);
    CharsAhead(a, r, [s] + rest);
    CharsAhead(a, q, [r] + ([s] + rest));
    CharsAhead(a, p, [q] + ([r] + ([s] + rest)));
    assert [p, q, r, s] + rest == [p] + ([q] + ([r] + ([s] + rest)));
  }

  lemma CharsOfThree(a: Alphabet)
    ensures Chars(a, [62, 63, 60]) == [EncodeChar(a, 62), EncodeChar(a, 63), EncodeChar(a, 60)]
  {
    var v: seq<Sextet> := [62, 63, 60];
    assert v[1..] == [63, 60] && v[1..][1..] == [60] && v[1..][1..][1..] == [];
  }
}
