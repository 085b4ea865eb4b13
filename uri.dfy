/**
 * `decodeURIComponent` (the Decode operation of ECMAScript with an empty reserved
 * set): `%XX` escapes are read as UTF-8 octets and every malformed escape or
 * octet sequence is a URIError. `encodeURIComponent` is given as its inverse.
 */
module Uri {
  import opened Outcomes

  datatype UriError = MalformedUri

  predicate IsHexDigit(c: char) {
    '0' <= c <= '9' || 'a' <= c <= 'f' || 'A' <= c <= 'F'
  }

  function HexDigitValue(c: char): (v: nat)
    requires IsHexDigit(c)
    ensures v < 16
  {
    if '0' <= c <= '9' then c as int - '0' as int
    else if 'a' <= c <= 'f' then c as int - 'a' as int + 10
    else c as int - 'A' as int + 10
  }

  /** The octet written as `%XX` at index `k` of `s`, if there is one. */
  function OctetAt(s: string, k: nat): (r: Option<nat>)
    ensures r.Some? ==> k + 3 <= |s| && r.value < 256
  {
    if k + 2 < |s| && s[k] == '%' && IsHexDigit(s[k + 1]) && IsHexDigit(s[k + 2])
    then Some(HexDigitValue(s[k + 1]) * 16 + HexDigitValue(s[k + 2]))
    else None
  }

  /** The number of leading one bits of an octet (5 stands for "five or more"). */
  function LeadingOnes(b: nat): nat
    requires b < 256
  {
    if b < 0x80 then 0 else if b < 0xC0 then 1 else if b < 0xE0 then 2
    else if b < 0xF0 then 3 else if b < 0xF8 then 4 else 5
  }

  /** `count` continuation octets `%XX` (each 10xxxxxx) starting at index `k`. */
  function Continuations(s: string, k: nat, count: nat): (r: Option<seq<nat>>)
    ensures r.Some? ==> |r.value| == count && (count > 0 ==> k + 3 * count <= |s|)
    ensures r.Some? ==> forall j :: 0 <= j < count ==> 0x80 <= r.value[j] < 0xC0
    decreases count
  {
    if count == 0 then Some([])
    else match OctetAt(s, k)
      case None => None
      case Some(b) =>
        if b < 0x80 || b >= 0xC0 then None
        else match Continuations(s, k + 3, count - 1)
          case None => None
          case Some(rest) => Some([b] + rest)
  }

  /** The code point an `n`-octet UTF-8 sequence encodes. */
  function CodePoint(lead: nat, n: nat, cont: seq<nat>): int
    requires 2 <= n <= 4 && |cont| == n - 1
  {
    var c0, c1, c2 := cont[0] as int - 0x80, if n > 2 then cont[1] as int - 0x80 else 0, if n > 3 then cont[2] as int - 0x80 else 0;
    if n == 2 then (lead as int - 0xC0) * 64 + c0
    else if n == 3 then (lead as int - 0xE0) * 4096 + c0 * 64 + c1
    else (lead as int - 0xF0) * 262144 + c0 * 4096 + c1 * 64 + c2
  }

  /** The octets are the shortest encoding of a Unicode scalar value. */
  predicate ValidScalar(cp: int, n: nat) {
    if n == 2 then 0x80 <= cp < 0x800
    else if n == 3 then 0x800 <= cp < 0x10000 && !(0xD800 <= cp <= 0xDFFF)
    else 0x10000 <= cp <= 0x10FFFF
  }

  /** decodeURIComponent(s). */
  function DecodeComponent(s: string): (r: Result<string, UriError>)
    decreases |s|
  {
    if |s| == 0 then Ok("")
    else if s[0] != '%' then Prepend(s[0], DecodeComponent(s[1..]))
    else match OctetAt(s, 0)
      case None => Err(MalformedUri)
      case Some(b) =>
        if b < 0x80 then Prepend(b as char, DecodeComponent(s[3..]))
        else
          var n := LeadingOnes(b);
          if n < 2 || n > 4 then Err(MalformedUri)
          else match Continuations(s, 3, n - 1)
            case None => Err(MalformedUri)
            case Some(cont) =>
              var cp := CodePoint(b, n, cont);
              if ValidScalar(cp, n) then Prepend(cp as char, DecodeComponent(s[3 * n..]))
              else Err(MalformedUri)
  }

  function Prepend(c: char, r: Result<string, UriError>): Result<string, UriError> {
    match r
    case Ok(t) => Ok([c] + t)
    case Err(e) => Err(e)
  }

  /** A string without `%` decodes to itself. */
  lemma {:induction false} DecodeWithoutPercent(s: string)
    requires '%' !in s
    ensures DecodeComponent(s) == Ok(s)
  {
    if |s| > 0 {
      DecodeWithoutPercent(s[1..]);
      assert [s[0]] + s[1..] == s;
    }
  }

  /** Characters encodeURIComponent leaves as they are. */
  predicate IsUnescaped(c: char) {
    'a' <= c <= 'z' || 'A' <= c <= 'Z' || '0' <= c <= '9'
    || c == '-' || c == '_' || c == '.' || c == '!' || c == '~' || c == '*' || c == '\'' || c == '(' || c == ')'
  }

  const UpperHex: string := "0123456789ABCDEF"

  function EscapeOctet(b: nat): (e: string)
    requires b < 256
    ensures |e| == 3 && e[0] == '%' && OctetAt(e, 0) == Some(b)
  {
    var e := "%" + [UpperHex[b / 16], UpperHex[b % 16]];
    assert HexDigitValue(e[1]) == b / 16 && HexDigitValue(e[2]) == b % 16;
    e
  }

  /** The UTF-8 octets of a Unicode scalar value. */
  function Utf8(c: char): (octets: seq<nat>)
    ensures 1 <= |octets| <= 4
    ensures forall j :: 0 <= j < |octets| ==> octets[j] < 256
  {
    var cp := c as int;
    if cp < 0x80 then [cp]
    else if cp < 0x800 then [0xC0 + cp / 64, 0x80 + cp % 64]
    else if cp < 0x10000 then [0xE0 + cp / 4096, 0x80 + (cp / 64) % 64, 0x80 + cp % 64]
    else [0xF0 + cp / 262144, 0x80 + (cp / 4096) % 64, 0x80 + (cp / 64) % 64, 0x80 + cp % 64]
  }

  function EscapeOctets(octets: seq<nat>): (e: string)
    requires forall j :: 0 <= j < |octets| ==> octets[j] < 256
    ensures |e| == 3 * |octets|
  {
    if |octets| == 0 then "" else EscapeOctet(octets[0]) + EscapeOctets(octets[1..])
  }

  lemma OctetAtShift(a: string, b: string, k: nat)
    ensures OctetAt(a + b, |a| + k) == OctetAt(b, k)
  {
    if k + 2 < |b| {
      assert (a + b)[|a| + k] == b[k] && (a + b)[|a| + k + 1] == b[k + 1] && (a + b)[|a| + k + 2] == b[k + 2];
    }
  }

  lemma OctetAtPrefix(a: string, b: string, k: nat)
    requires k + 3 <= |a|
    ensures OctetAt(a + b, k) == OctetAt(a, k)
  {
    assert (a + b)[k] == a[k] && (a + b)[k + 1] == a[k + 1] && (a + b)[k + 2] == a[k + 2];
  }

  /** The `j`-th escape of an escaped octet sequence reads back as the `j`-th octet. */
  lemma {:induction false} EscapedOctetAt(octets: seq<nat>, rest: string, j: nat)
    requires forall i :: 0 <= i < |octets| ==> octets[i] < 256
    requires j < |octets|
    ensures OctetAt(EscapeOctets(octets) + rest, 3 * j) == Some(octets[j])
  {
    var head := EscapeOctet(octets[0]);
    var tail := EscapeOctets(octets[1..]);
    assert EscapeOctets(octets) == head + tail;
    if j == 0 {
      assert EscapeOctets(octets) + rest == head + (tail + rest);
      OctetAtPrefix(head, tail + rest, 0);
    } else {
      EscapedOctetAt(octets[1..], rest, j - 1);
      OctetAfterEscape(head, tail, rest, 3 * (j - 1), octets[j]);
    }
  }

  /** An octet read after one escape is read three characters further on. */
  lemma OctetAfterEscape(head: string, tail: string, rest: string, k: nat, v: nat)
    requires |head| == 3 && OctetAt(tail + rest, k) == Some(v)
    ensures OctetAt(head + tail + rest, 3 + k) == Some(v)
  {
    assert head + tail + rest == head + (tail + rest);
    OctetAtShift(head, tail + rest, k);
  }

  /** The text encodeURIComponent writes for one character. */
  function EncodeChar(c: char): (e: string)
    ensures |e| > 0
  {
    if IsUnescaped(c) then [c] else EscapeOctets(Utf8(c))
  }

  /** encodeURIComponent(s), for strings of Unicode scalar values. */
  function EncodeComponent(s: string): string {
    if |s| == 0 then "" else EncodeChar(s[0]) + EncodeComponent(s[1..])
  }

  lemma ContinuationsOfEscaped(rest: string, octets: seq<nat>)
    requires 2 <= |octets| <= 4
    requires forall j :: 0 <= j < |octets| ==> octets[j] < 256
    requires forall j :: 1 <= j < |octets| ==> 0x80 <= octets[j] < 0xC0
    ensures Continuations(EscapeOctets(octets) + rest, 3, |octets| - 1) == Some(octets[1..])
  {
    var s := EscapeOctets(octets) + rest;
    forall j | 0 <= j < |octets|
      ensures OctetAt(s, 3 * j) == Some(octets[j])
    {
      EscapedOctetAt(octets, rest, j);
    }
    ContinuationsFrom(s, octets, 1);
  }

  lemma {:induction false} ContinuationsFrom(s: string, octets: seq<nat>, i: nat)
    requires 1 <= i <= |octets|
    requires forall j :: 0 <= j < |octets| ==> OctetAt(s, 3 * j) == Some(octets[j])
    requires forall j :: 1 <= j < |octets| ==> 0x80 <= octets[j] < 0xC0
    ensures Continuations(s, 3 * i, |octets| - i) == Some(octets[i..])
    decreases |octets| - i
  {
    if i < |octets| {
      ContinuationsFrom(s, octets, i + 1);
      assert 3 * i + 3 == 3 * (i + 1);
      assert octets[i..] == [octets[i]] + octets[i + 1..];
    }
  }

  /** Decoding the UTF-8 escapes of one character gives that character and continues after them. */
  lemma DecodeEncodedChar(c: char, rest: string)
    ensures DecodeComponent(EncodeChar(c) + rest) == Prepend(c, DecodeComponent(rest))
  {
    var s := EncodeChar(c) + rest;
    if IsUnescaped(c) {
      assert s[0] == c && s[1..] == rest;
    } else {
      var octets := Utf8(c);
      var n := |octets|;
      assert s == EscapeOctets(octets) + rest;
      EscapedOctetAt(octets, rest, 0);
      assert s[0] == '%';
      assert s[3 * n..] == rest;
      if n == 1 {
        assert (octets[0] as char) == c;
      } else {
        Utf8Lead(c);
        ContinuationsOfEscaped(rest, octets);
      }
    }
  }

  /** The lead octet announces the length and the octets encode the character's code point. */
  lemma Utf8Lead(c: char)
    requires |Utf8(c)| >= 2
    ensures LeadingOnes(Utf8(c)[0]) == |Utf8(c)|
    ensures forall j :: 1 <= j < |Utf8(c)| ==> 0x80 <= Utf8(c)[j] < 0xC0
    ensures CodePoint(Utf8(c)[0], |Utf8(c)|, Utf8(c)[1..]) == c as int
    ensures ValidScalar(c as int, |Utf8(c)|)
  {
    Utf8Arith(c as int);
  }

  lemma Utf8Arith(cp: int)
    requires 0 <= cp
    ensures (cp / 64) * 64 + cp % 64 == cp
    ensures (cp / 4096) * 4096 + ((cp / 64) % 64) * 64 + cp % 64 == cp
    ensures (cp / 262144) * 262144 + ((cp / 4096) % 64) * 4096 + ((cp / 64) % 64) * 64 + cp % 64 == cp
  {
    var a := cp / 64;
    assert a * 64 + cp % 64 == cp;
    assert (a / 64) * 64 + a % 64 == a;
    assert cp / 4096 == a / 64;
    var b := a / 64;
    assert (b / 64) * 64 + b % 64 == b;
    assert cp / 262144 == b / 64;
    assert (cp / 4096) % 64 == b % 64;
  }

  /** decodeURIComponent inverts encodeURIComponent on every string. */
  lemma {:induction false} DecodeEncode(s: string)
    ensures DecodeComponent(EncodeComponent(s)) == Ok(s)
  {
    if |s| > 0 {
      DecodeEncode(s[1..]);
      DecodeEncodedChar(s[0], EncodeComponent(s[1..]));
      assert [s[0]] + s[1..] == s;
    }
  }

  // ---------------------------------------------------------------------------
  // Refusals

  /** A `%` anywhere in the text that is not followed by two hex digits makes decoding fail. */
  lemma {:induction false} BadEscapeRefused(s: string, k: nat)
    requires k < |s| && s[k] == '%' && OctetAt(s, k).None?
    ensures DecodeComponent(s) == Err(MalformedUri)
    decreases |s|
  {
    if s[0] != '%' {
      assert [s[0]] + s[1..] == s;
      OctetAtShift([s[0]], s[1..], k - 1);
      BadEscapeRefused(s[1..], k - 1);
    } else if OctetAt(s, 0).Some? {
      var b := OctetAt(s, 0).value;
      assert k >= 3;
      if b < 0x80 {
        SkipDecoded(s, 3, k);
        BadEscapeRefused(s[3..], k - 3);
      } else {
        var n := LeadingOnes(b);
        if 2 <= n <= 4 && Continuations(s, 3, n - 1).Some? {
          var cont := Continuations(s, 3, n - 1).value;
          if ValidScalar(CodePoint(b, n, cont), n) {
            ContinuationsBefore(s, 3, n - 1, k);
            SkipDecoded(s, 3 * n, k);
            BadEscapeRefused(s[3 * n..], k - 3 * n);
          }
        }
      }
    }
  }

  /** The escape at `k` is the escape at `k - m` once the first `m` characters are decoded. */
  lemma SkipDecoded(s: string, m: nat, k: nat)
    requires m <= k < |s|
    ensures OctetAt(s[m..], k - m) == OctetAt(s, k) && s[m..][k - m] == s[k]
  {
    assert s[..m] + s[m..] == s;
    OctetAtShift(s[..m], s[m..], k - m);
  }

  /** A bad escape cannot stand inside a run of continuation octets; it comes after it. */
  lemma {:induction false} ContinuationsBefore(s: string, p: nat, count: nat, k: nat)
    requires Continuations(s, p, count).Some?
    requires p <= k < |s| && s[k] == '%' && OctetAt(s, k).None?
    ensures k >= p + 3 * count
    decreases count
  {
    if count > 0 {
      assert OctetAt(s, p).Some?;
      assert k >= p + 3;
      ContinuationsBefore(s, p + 3, count - 1, k);
    }
  }

  /** An escape of a continuation octet (10xxxxxx) with no lead octet before it is refused. */
  lemma LoneContinuationRefused(s: string)
    requires OctetAt(s, 0).Some? && 0x80 <= OctetAt(s, 0).value < 0xC0
    ensures DecodeComponent(s) == Err(MalformedUri)
  {
  }

  /** Lead octets C0 and C1 can only start an overlong encoding of an ASCII character, which is refused. */
  lemma OverlongRefused(s: string)
    requires OctetAt(s, 0).Some? && 0xC0 <= OctetAt(s, 0).value < 0xC2
    ensures DecodeComponent(s) == Err(MalformedUri)
  {
    var b := OctetAt(s, 0).value;
    if Continuations(s, 3, 1).Some? {
      var cont := Continuations(s, 3, 1).value;
      assert CodePoint(b, 2, cont) < 0x80;
    }
  }

  /** `%80` and the overlong NUL `%C0%80` are refused. */
  lemma ContinuationExamples(lone: string, overlong: string)
    requires lone == "%80" && overlong == "%C0%80"
    ensures DecodeComponent(lone) == Err(MalformedUri)
    ensures DecodeComponent(overlong) == Err(MalformedUri)
  {
    assert HexDigitValue('8') == 8 && HexDigitValue('0') == 0 && HexDigitValue('C') == 12;
    LoneContinuationRefused(lone);
    OverlongRefused(overlong);
  }
}
