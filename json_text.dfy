/**
 * JSON text (RFC 8259) for the values of module JsonValue: the output of
 * JSON.stringify without indentation, and a reader with JSON.parse's
 * behaviour on that grammar (numbers restricted to integers).
 */
module JsonText {
  import opened Wrappers
  import opened Decimal
  import opened JsonValue

  // ---------------------------------------------------------------------
  // Writing
  // ---------------------------------------------------------------------

  function HexChar(d: nat): char
    requires d < 16
  {
    if d < 10 then DigitChar(d) else ('a' as int + d - 10) as char
  }

  predicate IsHex(c: char) {
    IsDigit(c) || 'a' <= c <= 'f' || 'A' <= c <= 'F'
  }

  function HexOf(c: char): (d: nat)
    requires IsHex(c)
    ensures d < 16
  {
    if IsDigit(c) then DigitOf(c)
    else if 'a' <= c <= 'f' then c as int - 'a' as int + 10
    else c as int - 'A' as int + 10
  }

  /** How JSON.stringify writes one character inside a string literal. */
  function EscapeChar(c: char): string {
    if c == '"' then "\\\""
    else if c == '\\' then "\\\\"
    else if c as int == 0x08 then "\\b"
    else if c == '\t' then "\\t"
    else if c == '\n' then "\\n"
    else if c as int == 0x0C then "\\f"
    else if c == '\r' then "\\r"
    else if c as int < 0x20 then "\\u00" + [HexChar(c as int / 16), HexChar(c as int % 16)]
    else [c]
  }

  function Escape(s: string): string {
    if s == [] then [] else EscapeChar(s[0]) + Escape(s[1..])
  }

  /** A string literal: the escaped characters between double quotes. */
  function Quote(s: string): string {
    "\"" + Escape(s) + "\""
  }

  /** JSON.stringify(v) with no indentation. */
  function Stringify(v: Json): string {
    match v
    case JObject(ms) => "{" + MembersText(ms) + "}"
    case JArray(es) => "[" + ElementsText(es) + "]"
    case JString(s) => Quote(s)
    case JNumber(n) => IntText(n)
    case JTrue => "true"
    case JFalse => "false"
    case JNull => "null"
  }

  function ElementsText(es: seq<Json>): string {
    if es == [] then ""
    else if |es| == 1 then Stringify(es[0])
    else Stringify(es[0]) + "," + ElementsText(es[1..])
  }

  function MembersText(ms: seq<Member>): string {
    if ms == [] then ""
    else
      assert ms[0] in ms && ms[0].1 < ms[0];
      var head := Quote(ms[0].0) + ":" + Stringify(ms[0].1);
      if |ms| == 1 then head else head + "," + MembersText(ms[1..])
  }

  // ---------------------------------------------------------------------
  // Reading
  // ---------------------------------------------------------------------

  predicate IsSpace(c: char) {
    c == ' ' || c == '\t' || c == '\n' || c == '\r'
  }

  function SkipSpace(s: string): (r: string)
    ensures |r| <= |s|
  {
    if s != [] && IsSpace(s[0]) then SkipSpace(s[1..]) else s
  }

  /** Four hexadecimal digits. */
  function Hex4(s: string): (r: Option<(nat, string)>)
    ensures r.Some? ==> r.value.0 < 0x10000 && |r.value.1| + 4 == |s|
  {
    if |s| >= 4 && IsHex(s[0]) && IsHex(s[1]) && IsHex(s[2]) && IsHex(s[3]) then
      Some((((HexOf(s[0]) * 16 + HexOf(s[1])) * 16 + HexOf(s[2])) * 16 + HexOf(s[3]), s[4..]))
    else None
  }

  /**
   * The character an escape sequence stands for; `s` follows the backslash.
   * A surrogate pair of \u escapes stands for one character; a lone
   * surrogate has no character of its own here and is refused.
   */
  function ParseEscape(s: string): (r: Option<(char, string)>)
    ensures r.Some? ==> |r.value.1| < |s|
  {
    if s == [] then None
    else if s[0] == '"' || s[0] == '\\' || s[0] == '/' then Some((s[0], s[1..]))
    else if s[0] == 'b' then Some((0x08 as char, s[1..]))
    else if s[0] == 'f' then Some((0x0C as char, s[1..]))
    else if s[0] == 'n' then Some(('\n', s[1..]))
    else if s[0] == 'r' then Some(('\r', s[1..]))
    else if s[0] == 't' then Some(('\t', s[1..]))
    else if s[0] == 'u' then
      var h :- Hex4(s[1..]);
      if h.0 < 0xD800 || 0xE000 <= h.0 then Some((h.0 as char, h.1))
      else if 0xDC00 <= h.0 then None
      else if |h.1| >= 2 && h.1[0] == '\\' && h.1[1] == 'u' then
        var l :- Hex4(h.1[2..]);
        if 0xDC00 <= l.0 < 0xE000 then
          Some(((0x10000 + (h.0 - 0xD800) * 0x400 + (l.0 - 0xDC00)) as char, l.1))
        else None
      else None
    else None
  }

  /** The characters of a string literal up to its closing quote; `s` follows the opening quote. */
  function ParseStringBody(s: string): (r: Option<(string, string)>)
    ensures r.Some? ==> |r.value.1| < |s|
  {
    if s == [] then None
    else if s[0] == '"' then Some(([], s[1..]))
    else if s[0] == '\\' then
      var e :- ParseEscape(s[1..]);
      var b :- ParseStringBody(e.1);
      Some(([e.0] + b.0, b.1))
    else if s[0] as int < 0x20 then None
    else
      var b :- ParseStringBody(s[1..]);
      Some(([s[0]] + b.0, b.1))
  }

  /** An unsigned integer: a lone `0`, or digits not starting with `0`. */
  function ParseNat(s: string): (r: Option<(nat, string)>)
    ensures r.Some? ==> |r.value.1| < |s|
  {
    if s == [] || !IsDigit(s[0]) then None
    else if s[0] == '0' then Some((0, s[1..]))
    else
      var k := LeadingDigits(s);
      Some((DigitsValue(s[..k]), s[k..]))
  }

  function ParseNumber(s: string): (r: Option<(Json, string)>)
    ensures r.Some? ==> |r.value.1| < |s|
  {
    if s != [] && s[0] == '-' then
      var u :- ParseNat(s[1..]);
      Some((JNumber(-(u.0 as int)), u.1))
    else
      var u :- ParseNat(s);
      Some((JNumber(u.0), u.1))
  }

  function ParseWord(s: string, word: string, v: Json): (r: Option<(Json, string)>)
    requires |word| > 0
    ensures r.Some? ==> |r.value.1| < |s|
  {
    if |s| >= |word| && s[..|word|] == word then Some((v, s[|word|..])) else None
  }

  /** One value, after optional white space. */
  function ParseValue(s: string): (r: Option<(Json, string)>)
    ensures r.Some? ==> |r.value.1| < |s|
    decreases |s|, 0
  {
    var t := SkipSpace(s);
    if t == [] then None
    else if t[0] == '{' then ParseObject(t[1..])
    else if t[0] == '[' then ParseArray(t[1..])
    else if t[0] == '"' then
      var b :- ParseStringBody(t[1..]);
      Some((JString(b.0), b.1))
    else if t[0] == '-' || IsDigit(t[0]) then ParseNumber(t)
    else if t[0] == 't' then ParseWord(t, "true", JTrue)
    else if t[0] == 'f' then ParseWord(t, "false", JFalse)
    else if t[0] == 'n' then ParseWord(t, "null", JNull)
    else None
  }

  /** The rest of an array; `s` follows the opening bracket. */
  function ParseArray(s: string): (r: Option<(Json, string)>)
    ensures r.Some? ==> |r.value.1| < |s|
    decreases |s|, 2
  {
    var t := SkipSpace(s);
    if t != [] && t[0] == ']' then Some((JArray([]), t[1..]))
    else
      var es :- ParseElements(t);
      Some((JArray(es.0), es.1))
  }

  /** Elements separated by commas, through the closing bracket. */
  function ParseElements(s: string): (r: Option<(seq<Json>, string)>)
    ensures r.Some? ==> |r.value.1| < |s|
    decreases |s|, 1
  {
    var v :- ParseValue(s);
    var t := SkipSpace(v.1);
    if t == [] then None
    else if t[0] == ']' then Some(([v.0], t[1..]))
    else if t[0] == ',' then
      var more :- ParseElements(t[1..]);
      Some(([v.0] + more.0, more.1))
    else None
  }

  /**
   * The rest of an object; `s` follows the opening brace. The members are
   * assigned in order, so a repeated name keeps its first place and its
   * last value, as JSON.parse does.
   */
  function ParseObject(s: string): (r: Option<(Json, string)>)
    ensures r.Some? ==> |r.value.1| < |s|
    decreases |s|, 2
  {
    var t := SkipSpace(s);
    if t != [] && t[0] == '}' then Some((JObject([]), t[1..]))
    else
      var ps :- ParseMembers(t);
      Some((JObject(Collapse(ps.0)), ps.1))
  }

  /** One name-value pair: a string literal, a colon and a value. */
  function ParseMember(s: string): (r: Option<(Member, string)>)
    ensures r.Some? ==> |r.value.1| < |s|
    decreases |s|, 0
  {
    var t := SkipSpace(s);
    if t == [] || t[0] != '"' then None
    else
      var k :- ParseStringBody(t[1..]);
      var t2 := SkipSpace(k.1);
      if t2 == [] || t2[0] != ':' then None
      else
        var v :- ParseValue(t2[1..]);
        Some(((k.0, v.0), v.1))
  }

  /** Name-value pairs separated by commas, through the closing brace. */
  function ParseMembers(s: string): (r: Option<(seq<Member>, string)>)
    ensures r.Some? ==> |r.value.1| < |s|
    decreases |s|, 1
  {
    var m :- ParseMember(s);
    var t := SkipSpace(m.1);
    if t == [] then None
    else if t[0] == '}' then Some(([m.0], t[1..]))
    else if t[0] == ',' then
      var more :- ParseMembers(t[1..]);
      Some(([m.0] + more.0, more.1))
    else None
  }

  /** JSON.parse(text): one value, with nothing but white space around it. */
  function Parse(text: string): Option<Json> {
    match ParseValue(text)
    case None => None
    case Some((v, rest)) => if SkipSpace(rest) == [] then Some(v) else None
  }

  // ---------------------------------------------------------------------
  // Reading back what was written
  // ---------------------------------------------------------------------

  /** What may follow a value inside JSON text written by Stringify. */
  predicate Ends(rest: string) {
    rest == [] || rest[0] == ',' || rest[0] == ']' || rest[0] == '}'
  }

  predicate StartsValue(c: char) {
    c == '{' || c == '[' || c == '"' || c == '-' || IsDigit(c) || c == 't' || c == 'f' || c == 'n'
  }

  lemma {:induction false} StringifyStarts(v: Json)
    ensures |Stringify(v)| > 0 && StartsValue(Stringify(v)[0])
  {
  }

  lemma {:induction false} HexRead(d: nat)
    requires d < 16
    ensures IsHex(HexChar(d)) && HexOf(HexChar(d)) == d
  {
  }

  function Prepend(c: char, r: Option<(string, string)>): Option<(string, string)> {
    if r.None? then None else Some(([c] + r.value.0, r.value.1))
  }

  /** Reading one written character consumes exactly its escape sequence. */
  /** A backslash followed by an escape that reads back as `c`. */
  lemma {:induction false} BackslashRead(esc: string, c: char, tail: string)
    requires ParseEscape(esc + tail) == Some((c, tail))
    ensures ParseStringBody("\\" + esc + tail) == Prepend(c, ParseStringBody(tail))
  {
    Assoc("\\", esc, tail);
    DropFirst("\\", esc + tail);
  }

  /** The six-character escape of a control character reads back as it. */
  lemma {:induction false} HexEscapeRead(c: char, tail: string)
    requires c as int < 0x20
    ensures ParseEscape("u00" + [HexChar(c as int / 16), HexChar(c as int % 16)] + tail) == Some((c, tail))
  {
    var hi, lo := c as int / 16, c as int % 16;
    var digits := ['0', '0', HexChar(hi), HexChar(lo)];
    var s := "u00" + [HexChar(hi), HexChar(lo)] + tail;
    assert s == "u" + (digits + tail);
    DropFirst("u", digits + tail);
    HexRead(hi);
    HexRead(lo);
    assert (digits + tail)[4..] == tail;
  }

  lemma {:induction false} EscapeCharRead(c: char, tail: string)
    ensures ParseStringBody(EscapeChar(c) + tail) == Prepend(c, ParseStringBody(tail))
  {
    if c == '"' || c == '\\' || c as int == 0x08 || c == '\t' || c == '\n' || c as int == 0x0C || c == '\r' {
      var esc := EscapeChar(c)[1..];
      assert EscapeChar(c) == "\\" + esc;
      DropFirst(esc, tail);
      BackslashRead(esc, c, tail);
    } else if c as int < 0x20 {
      var esc := "u00" + [HexChar(c as int / 16), HexChar(c as int % 16)];
      assert EscapeChar(c) == "\\" + esc;
      HexEscapeRead(c, tail);
      BackslashRead(esc, c, tail);
    } else {
      DropFirst([c], tail);
    }
  }

  /** A written string literal is read back up to its closing quote. */
  lemma {:induction false} EscapeRead(str: string, tail: string)
    ensures ParseStringBody(Escape(str) + "\"" + tail) == Some((str, tail))
  {
    if str == [] {
      assert Escape(str) + "\"" + tail == "\"" + tail;
    } else {
      EscapeRead(str[1..], tail);
      assert Escape(str) + "\"" + tail == EscapeChar(str[0]) + (Escape(str[1..]) + "\"" + tail);
      EscapeCharRead(str[0], Escape(str[1..]) + "\"" + tail);
      assert [str[0]] + str[1..] == str;
    }
  }

  /** The decimal text of a natural number is read back whole. */
  lemma {:induction false} ReadNatText(n: nat, rest: string)
    requires rest == [] || !IsDigit(rest[0])
    ensures ParseNat(NatText(n) + rest) == Some((n, rest))
  {
    var t := NatText(n) + rest;
    if n == 0 {
      assert t[1..] == rest;
    } else {
      LeadingDigitsOfRun(NatText(n), rest);
      assert t[..|NatText(n)|] == NatText(n);
      assert t[|NatText(n)|..] == rest;
      NatTextValue(n);
    }
  }

  lemma {:induction false} Assoc(a: string, b: string, c: string)
    ensures a + b + c == a + (b + c)
  {
  }

  /** A non-empty sequence is its first element followed by the rest. */
  lemma {:induction false} HeadTail<T>(s: seq<T>)
    requires s != []
    ensures [s[0]] + s[1..] == s
    ensures |s| == 1 ==> [s[0]] == s
  {
  }

  /** Appending leaves the front of a sequence as it was. */
  lemma {:induction false} AppendPrefix<T>(a: seq<T>, b: seq<T>)
    ensures (a + b)[..|a|] == a
  {
  }

  lemma {:induction false} DropFirst(a: string, b: string)
    requires |a| == 1
    ensures (a + b)[1..] == b && (a + b)[0] == a[0]
  {
  }

  /** White space is skipped only where there is some. */
  lemma {:induction false} NoSpaceToSkip(s: string)
    requires s != [] && !IsSpace(s[0])
    ensures SkipSpace(s) == s
  {
  }

  /** Written JSON text is read back as the value it was written from. */
  lemma {:induction false} ReadStringify(v: Json, rest: string)
    requires WellFormed(v) && Ends(rest)
    ensures ParseValue(Stringify(v) + rest) == Some((v, rest))
    decreases v, 1
  {
    match v
    case JObject(ms) => ReadObject(ms, rest);
    case JArray(es) => ReadArray(es, rest);
    case JString(str) => ReadString(str, rest);
    case JNumber(n) => ReadNumber(n, rest);
    case _ => ReadWord(v, rest);
  }

  lemma {:induction false} ReadWord(v: Json, rest: string)
    requires v.JTrue? || v.JFalse? || v.JNull?
    ensures ParseValue(Stringify(v) + rest) == Some((v, rest))
  {
    var s := Stringify(v) + rest;
    NoSpaceToSkip(s);
    var w := Stringify(v);
    assert s[..|w|] == w && s[|w|..] == rest;
  }

  lemma {:induction false} ReadString(str: string, rest: string)
    ensures ParseValue(Stringify(JString(str)) + rest) == Some((JString(str), rest))
  {
    var s := Stringify(JString(str)) + rest;
    NoSpaceToSkip(s);
    assert s[1..] == Escape(str) + "\"" + rest;
    EscapeRead(str, rest);
  }

  lemma {:induction false} NumberDispatch(s: string)
    requires s != [] && (s[0] == '-' || IsDigit(s[0]))
    ensures ParseValue(s) == ParseNumber(s)
  {
    NoSpaceToSkip(s);
  }

  lemma {:induction false} NumberTextRead(n: int, rest: string)
    requires Ends(rest)
    ensures ParseNumber(IntText(n) + rest) == Some((JNumber(n), rest))
  {
    if n < 0 {
      var t := NatText(-n);
      assert IntText(n) == "-" + t;
      Assoc("-", t, rest);
      DropFirst("-", t + rest);
      ReadNatText(-n, rest);
    } else {
      ReadNatText(n, rest);
    }
  }
  lemma {:induction false} ReadNumber(n: int, rest: string)
    requires Ends(rest)
    ensures ParseValue(Stringify(JNumber(n)) + rest) == Some((JNumber(n), rest))
  {
    NumberDispatch(IntText(n) + rest);
    NumberTextRead(n, rest);
  }

  lemma {:induction false} ReadObject(ms: seq<Member>, rest: string)
    requires WellFormed(JObject(ms)) && Ends(rest)
    ensures ParseValue(Stringify(JObject(ms)) + rest) == Some((JObject(ms), rest))
    decreases JObject(ms), 0
  {
    var t := MembersText(ms);
    var body := t + "}" + rest;
    var s := Stringify(JObject(ms)) + rest;
    assert Stringify(JObject(ms)) == "{" + t + "}";
    Assoc("{" + t, "}", rest);
    Assoc("{", t, "}" + rest);
    Assoc(t, "}", rest);
    DropFirst("{", body);
    NoSpaceToSkip(s);
    if ms == [] {
      assert body == "}" + rest;
      DropFirst("}", rest);
      NoSpaceToSkip(body);
    } else {
      MembersTextSplit(ms, rest);
      assert body[0] == '"';
      NoSpaceToSkip(body);
      ReadMembers(ms, rest);
      CollapseDistinct(ms);
    }
  }
  lemma {:induction false} ReadArray(es: seq<Json>, rest: string)
    requires WellFormed(JArray(es)) && Ends(rest)
    ensures ParseValue(Stringify(JArray(es)) + rest) == Some((JArray(es), rest))
    decreases JArray(es), 0
  {
    var t := ElementsText(es);
    var body := t + "]" + rest;
    var s := Stringify(JArray(es)) + rest;
    assert Stringify(JArray(es)) == "[" + t + "]";
    Assoc("[" + t, "]", rest);
    Assoc("[", t, "]" + rest);
    Assoc(t, "]", rest);
    DropFirst("[", body);
    NoSpaceToSkip(s);
    if es == [] {
      assert body == "]" + rest;
      DropFirst("]", rest);
      NoSpaceToSkip(body);
    } else {
      ElementsTextStarts(es);
      assert body[0] == t[0];
      NoSpaceToSkip(body);
      ReadElements(es, rest);
    }
  }
  lemma {:induction false} ElementsTextStarts(es: seq<Json>)
    requires es != []
    ensures |ElementsText(es)| > 0 && StartsValue(ElementsText(es)[0])
  {
    StringifyStarts(es[0]);
  }

  function PrependElement(x: Json, r: Option<(seq<Json>, string)>): Option<(seq<Json>, string)> {
    if r.None? then None else Some(([x] + r.value.0, r.value.1))
  }

  /** How ParseElements goes on after one value that is followed by a bracket or a comma. */
  lemma {:induction false} ElementsStep(s: string, x: Json, after: string)
    requires ParseValue(s) == Some((x, after))
    requires after != [] && (after[0] == ']' || after[0] == ',')
    ensures ParseElements(s) ==
      if after[0] == ']' then Some(([x], after[1..])) else PrependElement(x, ParseElements(after[1..]))
  {
    NoSpaceToSkip(after);
  }

  /** The written elements, split after the first one. */
  lemma {:induction false} ElementsTextSplit(es: seq<Json>, rest: string)
    requires es != []
    ensures ElementsText(es) + "]" + rest ==
      Stringify(es[0]) + (if |es| == 1 then "]" + rest else "," + (ElementsText(es[1..]) + "]" + rest))
  {
    var h := Stringify(es[0]);
    if |es| == 1 {
      assert ElementsText(es) == h;
      Assoc(h, "]", rest);
    } else {
      var t := ElementsText(es[1..]);
      assert ElementsText(es) == h + "," + t;
      Assoc(h + "," + t, "]", rest);
      Assoc(h + ",", t, "]" + rest);
      Assoc(h, ",", t + ("]" + rest));
      Assoc(t, "]", rest);
    }
  }

  lemma {:induction false} ReadElements(es: seq<Json>, rest: string)
    requires es != [] && Ends(rest)
    requires forall i :: 0 <= i < |es| ==> WellFormed(es[i])
    ensures ParseElements(ElementsText(es) + "]" + rest) == Some((es, rest))
    decreases es, 0
  {
    var s := ElementsText(es) + "]" + rest;
    ElementsTextSplit(es, rest);
    if |es| == 1 {
      var after := "]" + rest;
      DropFirst("]", rest);
      ReadStringify(es[0], after);
      ElementsStep(s, es[0], after);
      HeadTail(es);
    } else {
      var tail := ElementsText(es[1..]) + "]" + rest;
      var after := "," + tail;
      DropFirst(",", tail);
      ReadStringify(es[0], after);
      ElementsStep(s, es[0], after);
      ReadElements(es[1..], rest);
      HeadTail(es);
    }
  }
  function PrependMember(m: Member, r: Option<(seq<Member>, string)>): Option<(seq<Member>, string)> {
    if r.None? then None else Some(([m] + r.value.0, r.value.1))
  }

  /** A written name, a colon and a value that reads back are read back as one member. */
  lemma {:induction false} MemberRead(k: string, w: string, x: Json, after: string)
    requires ParseValue(w + after) == Some((x, after))
    ensures ParseMember(Quote(k) + ":" + w + after) == Some(((k, x), after))
  {
    var e := Escape(k);
    var q := Quote(k);
    var colon := ":" + w + after;
    var s := q + ":" + w + after;
    Assoc(q + ":", w, after);
    Assoc(q, ":", w + after);
    Assoc(":", w, after);
    assert s == q + colon;
    Assoc("\"" + e, "\"", colon);
    Assoc("\"", e, "\"" + colon);
    Assoc(e, "\"", colon);
    assert s == "\"" + (e + "\"" + colon);
    DropFirst("\"", e + "\"" + colon);
    NoSpaceToSkip(s);
    EscapeRead(k, colon);
    DropFirst(":", w + after);
    NoSpaceToSkip(colon);
  }
  /** How ParseMembers goes on after one member that is followed by a brace or a comma. */
  lemma {:induction false} MembersStep(s: string, m: Member, after: string)
    requires ParseMember(s) == Some((m, after))
    requires after != [] && (after[0] == '}' || after[0] == ',')
    ensures ParseMembers(s) ==
      if after[0] == '}' then Some(([m], after[1..])) else PrependMember(m, ParseMembers(after[1..]))
  {
    NoSpaceToSkip(after);
  }

  /** A member whose value reads back, followed by a brace or a comma. */
  lemma {:induction false} MembersHead(m: Member, w: string, after: string)
    requires ParseValue(w + after) == Some((m.1, after))
    requires after != [] && (after[0] == '}' || after[0] == ',')
    ensures ParseMembers(Quote(m.0) + ":" + w + after) ==
      if after[0] == '}' then Some(([m], after[1..])) else PrependMember(m, ParseMembers(after[1..]))
  {
    MemberRead(m.0, w, m.1, after);
    MembersStep(Quote(m.0) + ":" + w + after, m, after);
  }


  /** The written members, split after the first one. */
  lemma {:induction false} MembersTextSplit(ms: seq<Member>, rest: string)
    requires ms != []
    ensures MembersText(ms) + "}" + rest ==
      Quote(ms[0].0) + ":" + Stringify(ms[0].1) +
        (if |ms| == 1 then "}" + rest else "," + (MembersText(ms[1..]) + "}" + rest))
  {
    var h := Quote(ms[0].0) + ":" + Stringify(ms[0].1);
    if |ms| == 1 {
      assert MembersText(ms) == h;
      Assoc(h, "}", rest);
    } else {
      var t := MembersText(ms[1..]);
      assert MembersText(ms) == h + "," + t;
      Assoc(h + "," + t, "}", rest);
      Assoc(h + ",", t, "}" + rest);
      Assoc(h, ",", t + ("}" + rest));
      Assoc(t, "}", rest);
    }
  }

  lemma {:induction false} ReadMembers(ms: seq<Member>, rest: string)
    requires ms != [] && Ends(rest)
    requires forall i :: 0 <= i < |ms| ==> WellFormed(ms[i].1)
    ensures ParseMembers(MembersText(ms) + "}" + rest) == Some((ms, rest))
    decreases ms, 0
  {
    var m := ms[0];
    assert m in ms && m.1 < m;
    assert WellFormed(m.1);
    MembersTextSplit(ms, rest);
    if |ms| == 1 {
      var after := "}" + rest;
      DropFirst("}", rest);
      ReadStringify(m.1, after);
      MembersHead(m, Stringify(m.1), after);
      HeadTail(ms);
    } else {
      var tail := MembersText(ms[1..]) + "}" + rest;
      var after := "," + tail;
      DropFirst(",", tail);
      ReadStringify(m.1, after);
      MembersHead(m, Stringify(m.1), after);
      ReadMembers(ms[1..], rest);
      HeadTail(ms);
    }
  }

  /** JSON.parse(JSON.stringify(v)) gives back v. */
  lemma {:induction false} ParseStringify(v: Json)
    requires WellFormed(v)
    ensures Parse(Stringify(v)) == Some(v)
  {
    ReadStringify(v, []);
    assert Stringify(v) + [] == Stringify(v);
  }

  // ---------------------------------------------------------------------
  // What is read is a value JavaScript can hold
  // ---------------------------------------------------------------------

  lemma {:induction false} ValueWellFormed(s: string)
    ensures ParseValue(s).Some? ==> WellFormed(ParseValue(s).value.0)
    decreases |s|, 0
  {
    var t := SkipSpace(s);
    if t != [] && t[0] == '{' {
      ObjectWellFormed(t[1..]);
    } else if t != [] && t[0] == '[' {
      ArrayWellFormed(t[1..]);
    }
  }

  lemma {:induction false} ArrayWellFormed(s: string)
    ensures ParseArray(s).Some? ==> WellFormed(ParseArray(s).value.0)
    decreases |s|, 2
  {
    var t := SkipSpace(s);
    if !(t != [] && t[0] == ']') {
      ElementsWellFormed(t);
    }
  }

  lemma {:induction false} ElementsWellFormed(s: string)
    ensures ParseElements(s).Some? ==>
      forall i :: 0 <= i < |ParseElements(s).value.0| ==> WellFormed(ParseElements(s).value.0[i])
    decreases |s|, 1
  {
    var v := ParseValue(s);
    if v.Some? {
      ValueWellFormed(s);
      var t := SkipSpace(v.value.1);
      if t != [] && t[0] == ',' {
        ElementsWellFormed(t[1..]);
      }
    }
  }

  lemma {:induction false} ObjectWellFormed(s: string)
    ensures ParseObject(s).Some? ==> WellFormed(ParseObject(s).value.0)
    decreases |s|, 2
  {
    var t := SkipSpace(s);
    var ps := ParseMembers(t);
    if !(t != [] && t[0] == '}') && ps.Some? {
      MembersWellFormed(t);
      CollapseMembers(ps.value.0);
      var ms := Collapse(ps.value.0);
      forall i | 0 <= i < |ms| ensures WellFormed(ms[i].1) {
        var j :| 0 <= j < |ps.value.0| && ps.value.0[j] == ms[i];
      }
    }
  }

  lemma {:induction false} MemberWellFormed(s: string)
    ensures ParseMember(s).Some? ==> WellFormed(ParseMember(s).value.0.1)
    decreases |s|, 0
  {
    var t := SkipSpace(s);
    if t != [] && t[0] == '"' {
      var k := ParseStringBody(t[1..]);
      if k.Some? {
        var t2 := SkipSpace(k.value.1);
        if t2 != [] && t2[0] == ':' {
          ValueWellFormed(t2[1..]);
        }
      }
    }
  }

  lemma {:induction false} MembersWellFormed(s: string)
    ensures ParseMembers(s).Some? ==>
      forall i :: 0 <= i < |ParseMembers(s).value.0| ==> WellFormed(ParseMembers(s).value.0[i].1)
    decreases |s|, 1
  {
    var m := ParseMember(s);
    if m.Some? {
      MemberWellFormed(s);
      var t := SkipSpace(m.value.1);
      if t != [] && t[0] == ',' {
        MembersWellFormed(t[1..]);
      }
    }
  }

  /** Whatever JSON.parse accepts is a value with distinct member names throughout. */
  lemma {:induction false} ParseWellFormed(text: string)
    ensures Parse(text).Some? ==> WellFormed(Parse(text).value)
  {
    ValueWellFormed(text);
  }
}
