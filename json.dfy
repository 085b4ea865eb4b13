/**
 * The JSON text `JSON.stringify(content, null, 2)` writes for the error bodies:
 * strings, integral numbers and objects whose members keep their insertion order.
 */
module Json {
  import opened Outcomes
  import Numbers

  datatype Json = JStr(str: string) | JNum(num: int) | JObj(members: seq<Member>)
  datatype Member = Member(key: string, value: Json)

  const HexDigits: string := "0123456789abcdef"

  /** The escape JSON.stringify writes for one character of a string. */
  function EscapeChar(c: char): (e: string)
    ensures |e| > 0
  {
    if c == '"' then "\\\""
    else if c == '\\' then "\\\\"
    else if c == '\U{0008}' then "\\b"
    else if c == '\U{000C}' then "\\f"
    else if c == '\n' then "\\n"
    else if c == '\r' then "\\r"
    else if c == '\t' then "\\t"
    else if (c as int) < 0x20 then "\\u00" + [HexDigits[c as int / 16], HexDigits[c as int % 16]]
    else [c]
  }

  function Escape(s: string): string {
    if |s| == 0 then "" else EscapeChar(s[0]) + Escape(s[1..])
  }

  /** QuoteJSONString. */
  function Quote(s: string): string {
    "\"" + Escape(s) + "\""
  }

  function HexValue(c: char): Option<nat> {
    if '0' <= c <= '9' then Some(c as int - '0' as int)
    else if 'a' <= c <= 'f' then Some(c as int - 'a' as int + 10)
    else None
  }

  /** Reads one escaped character at the start of `e`: the character and how many characters it took. */
  function UnescapeOne(e: string): Option<(char, nat)>
    requires |e| > 0
  {
    if e[0] != '\\' then (if e[0] == '"' || (e[0] as int) < 0x20 then None else Some((e[0], 1)))
    else if |e| < 2 then None
    else if e[1] == '"' then Some(('"', 2))
    else if e[1] == '\\' then Some(('\\', 2))
    else if e[1] == 'b' then Some(('\U{0008}', 2))
    else if e[1] == 'f' then Some(('\U{000C}', 2))
    else if e[1] == 'n' then Some(('\n', 2))
    else if e[1] == 'r' then Some(('\r', 2))
    else if e[1] == 't' then Some(('\t', 2))
    else if |e| >= 6 && e[1] == 'u' && e[2] == '0' && e[3] == '0'
            && HexValue(e[4]).Some? && HexValue(e[5]).Some? && HexValue(e[4]).value < 2 then
      Some(((HexValue(e[4]).value * 16 + HexValue(e[5]).value) as char, 6))
    else None
  }

  /** Reads the body of a JSON string literal produced by Quote (up to the closing quote). */
  function Unescape(e: string): Option<string>
    decreases |e|
  {
    if |e| == 0 then Some("")
    else match UnescapeOne(e)
      case None => None
      case Some((c, k)) =>
        if 0 < k <= |e| then
          match Unescape(e[k..])
          case None => None
          case Some(rest) => Some([c] + rest)
        else None
  }

  /** Reads a JSON string literal back to the string it denotes. */
  function Unquote(q: string): Option<string> {
    if |q| >= 2 && q[0] == '"' && q[|q| - 1] == '"' then Unescape(q[1..|q| - 1]) else None
  }

  lemma UnescapeOneEscapeChar(c: char, rest: string)
    ensures UnescapeOne(EscapeChar(c) + rest) == Some((c, |EscapeChar(c)|))
  {
    var e := EscapeChar(c) + rest;
    if (c as int) < 0x20 && c != '\U{0008}' && c != '\U{000C}' && c != '\n' && c != '\r' && c != '\t' {
      var hi, lo := c as int / 16, c as int % 16;
      assert e[4] == HexDigits[hi] && e[5] == HexDigits[lo];
      assert HexValue(HexDigits[hi]) == Some(hi);
      assert HexValue(HexDigits[lo]) == Some(lo);
    }
  }

  lemma {:induction false} UnescapeEscape(s: string)
    ensures Unescape(Escape(s)) == Some(s)
  {
    if |s| > 0 {
      var e := Escape(s);
      var head := EscapeChar(s[0]);
      assert e == head + Escape(s[1..]);
      UnescapeOneEscapeChar(s[0], Escape(s[1..]));
      assert e[|head|..] == Escape(s[1..]);
      UnescapeEscape(s[1..]);
      assert [s[0]] + s[1..] == s;
    }
  }

  /** Every string survives quoting: the JSON text of a string denotes that string. */
  lemma UnquoteQuote(s: string)
    ensures Unquote(Quote(s)) == Some(s)
  {
    var q := Quote(s);
    assert q[1..|q| - 1] == Escape(s);
    UnescapeEscape(s);
  }

  /** `JSON.stringify(v, null, 2)` at nesting `indent`. */
  function Stringify(v: Json, indent: string): (t: string)
    ensures |t| > 0
    decreases v, 1
  {
    match v
    case JStr(s) => Quote(s)
    case JNum(n) => Numbers.Decimal(n)
    case JObj(ms) =>
      if |ms| == 0 then "{}"
      else "{\n" + indent + "  " + MembersText(v, ms, indent + "  ") + "\n" + indent + "}"
  }

  /** The members of an object, one per line, separated by `,` and a new line. */
  function MembersText(parent: Json, ms: seq<Member>, indent: string): string
    requires forall i :: 0 <= i < |ms| ==> ms[i] < parent
    decreases parent, 0, |ms|
  {
    if |ms| == 0 then ""
    else
      var first := Quote(ms[0].key) + ": " + Stringify(ms[0].value, indent);
      if |ms| == 1 then first else first + ",\n" + indent + MembersText(parent, ms[1..], indent)
  }

  /** An object holding a single member, as the server's error bodies do. */
  lemma SingleMemberText(key: string, value: Json)
    ensures Stringify(JObj([Member(key, value)]), "") == "{\n  " + Quote(key) + ": " + Stringify(value, "  ") + "\n}"
  {
    var v := JObj([Member(key, value)]);
    assert v.members[0] < v;
    var m := Quote(key) + ": " + Stringify(value, "  ");
    assert "" + "  " == "  ";
    assert MembersText(v, v.members, "  ") == m;
    assert Stringify(v, "") == "{\n" + "" + "  " + m + "\n" + "" + "}";
    assert "{\n" + "" + "  " + m + "\n" + "" + "}" == "{\n  " + m + "\n}";
  }
}
