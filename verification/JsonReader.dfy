// A reader for the JSON grammar of RFC 8259, written from the standard and not
// from the printer.
module JsonReader {
  import opened ByteStrings
  import opened Wrappers

  datatype Json =
    | JNull
    | JBool(b: bool)
    | JInt(i: int)
    | JReal(token: Bytes)  // a number with a fraction or an exponent
    | JString(s: Bytes)
    | JArray(items: seq<Json>)
    | JObject(members: seq<Member>)

  datatype Member = Member(key: Bytes, value: Json)

  // ---- section 2: whitespace ----------------------------------------------

  predicate IsSpace(b: Byte) {
    b == ' ' || b == '\t' || b == '\n' || b == '\r'
  }

  function SkipSpace(s: Bytes): (r: Bytes)
    ensures |r| <= |s|
    ensures r == [] || !IsSpace(r[0])
  {
    if s != [] && IsSpace(s[0]) then SkipSpace(s[1..]) else s
  }

  // ---- section 6: numbers -------------------------------------------------

  predicate IsDigit(b: Byte) {
    '0' <= b <= '9'
  }

  predicate IsNumberByte(b: Byte) {
    IsDigit(b) || b == '+' || b == '-' || b == '.' || b == 'e' || b == 'E'
  }

  predicate AllDigits(s: Bytes) {
    forall k :: 0 <= k < |s| ==> IsDigit(s[k])
  }

  // The length of the longest prefix of number bytes.
  function NumberRun(s: Bytes): (n: nat)
    ensures n <= |s|
  {
    if s != [] && IsNumberByte(s[0]) then 1 + NumberRun(s[1..]) else 0
  }

  function DigitRun(s: Bytes): (n: nat)
    ensures n <= |s|
  {
    if s != [] && IsDigit(s[0]) then 1 + DigitRun(s[1..]) else 0
  }

  function Unsigned(t: Bytes): Bytes {
    if t != [] && t[0] == '-' then t[1..] else t
  }

  // exp = e [ minus / plus ] 1*DIGIT, or nothing
  predicate IsExponent(t: Bytes) {
    t == [] ||
    (t[0] in "eE" &&
     var u := if |t| > 1 && t[1] in "+-" then t[2..] else t[1..];
     u != [] && AllDigits(u))
  }

  // [ frac ] [ exp ]
  predicate IsFraction(t: Bytes) {
    IsExponent(t) ||
    (t[0] == '.' &&
     var n := DigitRun(t[1..]);
     n > 0 && IsExponent(t[1 + n..]))
  }

  // int = zero / ( digit1-9 *DIGIT )
  predicate IsInteger(t: Bytes) {
    t != [] && AllDigits(t) && (t[0] == '0' ==> |t| == 1)
  }

  // number = [ minus ] int [ frac ] [ exp ]
  predicate IsNumber(t: Bytes) {
    var u := Unsigned(t);
    var n := DigitRun(u);
    (forall k :: 0 <= k < |t| ==> IsNumberByte(t[k])) && IsInteger(u[..n]) && IsFraction(u[n..])
  }

  function DigitsValue(t: Bytes): int {
    if t == [] then 0 else DigitsValue(t[..|t| - 1]) * 10 + (t[|t| - 1] as int - 48)
  }

  function NumberValue(t: Bytes): Json {
    var u := Unsigned(t);
    if AllDigits(u) then JInt(if u == t then DigitsValue(u) else -DigitsValue(u)) else JReal(t)
  }

  function ReadNumber(s: Bytes): (r: Option<(Json, Bytes)>)
    ensures r.Some? ==> |r.value.1| < |s|
  {
    var n := NumberRun(s);
    if n > 0 && IsNumber(s[..n]) then Some((NumberValue(s[..n]), s[n..])) else None
  }

  // ---- section 7: strings -------------------------------------------------

  function HexDigit(b: Byte): Option<nat> {
    if '0' <= b <= '9' then Some(b as int - 48)
    else if 'a' <= b <= 'f' then Some(b as int - 87)
    else if 'A' <= b <= 'F' then Some(b as int - 55)
    else None
  }

  function Hex4(s: Bytes): (r: Option<nat>)
    ensures r.Some? ==> |s| >= 4 && r.value < 0x10000
  {
    if |s| < 4 then None
    else match (HexDigit(s[0]), HexDigit(s[1]), HexDigit(s[2]), HexDigit(s[3]))
      case (Some(a), Some(b), Some(c), Some(d)) =>
        assert a < 16 && b < 16 && c < 16 && d < 16;
        Some(a * 4096 + b * 256 + c * 16 + d)
      case _ => None
  }

  function Utf8Encode(c: nat): Bytes
    requires c < 0x110000
  {
    if c < 0x80 then [c as char]
    else if c < 0x800 then [(0xc0 + c / 0x40) as char, (0x80 + c % 0x40) as char]
    else if c < 0x10000 then
      [(0xe0 + c / 0x1000) as char, (0x80 + c / 0x40 % 0x40) as char, (0x80 + c % 0x40) as char]
    else
      [(0xf0 + c / 0x40000) as char, (0x80 + c / 0x1000 % 0x40) as char,
       (0x80 + c / 0x40 % 0x40) as char, (0x80 + c % 0x40) as char]
  }

  // What follows a reverse solidus; an unpaired surrogate is rejected.
  function ReadEscape(s: Bytes): (r: Option<(Bytes, Bytes)>)
    ensures r.Some? ==> |r.value.1| < |s|
  {
    if s == [] then None
    else match s[0]
      case '"' => Some(("\"", s[1..]))
      case '\\' => Some(("\\", s[1..]))
      case '/' => Some(("/", s[1..]))
      case 'b' => Some(([8 as char], s[1..]))
      case 'f' => Some(([12 as char], s[1..]))
      case 'n' => Some(("\n", s[1..]))
      case 'r' => Some(("\r", s[1..]))
      case 't' => Some(("\t", s[1..]))
      case 'u' =>
        (match Hex4(s[1..])
         case None => None
         case Some(u) =>
           var t := s[5..];
           if !(0xd800 <= u < 0xe000) then Some((Utf8Encode(u), t))
           else if u < 0xdc00 && |t| >= 2 && t[0] == '\\' && t[1] == 'u' then
             (match Hex4(t[2..])
              case Some(v) =>
                if 0xdc00 <= v < 0xe000
                then Some((Utf8Encode(0x10000 + (u - 0xd800) * 0x400 + (v - 0xdc00)), t[6..]))
                else None
              case None => None)
           else None)
      case _ => None
  }

  // The bytes up to the closing quotation mark.
  function ReadChars(s: Bytes): (r: Option<(Bytes, Bytes)>)
    ensures r.Some? ==> |r.value.1| < |s|
    decreases |s|
  {
    if s == [] || s[0] as int < 0x20 then None
    else if s[0] == '"' then Some(([], s[1..]))
    else if s[0] == '\\' then
      match ReadEscape(s[1..])
      case None => None
      case Some((c, t)) => Prepend(c, ReadChars(t))
    else Prepend([s[0]], ReadChars(s[1..]))
  }

  function Prepend(c: Bytes, r: Option<(Bytes, Bytes)>): Option<(Bytes, Bytes)> {
    match r
    case None => None
    case Some((cs, rest)) => Some((c + cs, rest))
  }

  // ---- sections 3 to 5: values, objects, arrays ---------------------------

  function ReadValue(s: Bytes): (r: Option<(Json, Bytes)>)
    ensures r.Some? ==> |r.value.1| < |s|
    decreases |s|, 0
  {
    var t := SkipSpace(s);
    if t == [] then None
    else if t[0] == '"' then
      match ReadChars(t[1..])
      case None => None
      case Some((cs, rest)) => Some((JString(cs), rest))
    else if t[0] == '[' then
      match ReadItems(t[1..], true)
      case None => None
      case Some((items, rest)) => Some((JArray(items), rest))
    else if t[0] == '{' then
      match ReadMembers(t[1..], true)
      case None => None
      case Some((ms, rest)) => Some((JObject(ms), rest))
    else if t[0] == 'n' then if "null" <= t then Some((JNull, t[4..])) else None
    else if t[0] == 't' then if "true" <= t then Some((JBool(true), t[4..])) else None
    else if t[0] == 'f' then if "false" <= t then Some((JBool(false), t[5..])) else None
    else ReadNumber(t)
  }

  // Before every item but the first, a comma.
  function SkipComma(s: Bytes, first: bool): (r: Option<Bytes>)
    ensures r.Some? ==> |r.value| <= |s|
  {
    if first then Some(s)
    else if s != [] && s[0] == ',' then Some(s[1..])
    else None
  }

  function ReadItems(s: Bytes, first: bool): (r: Option<(seq<Json>, Bytes)>)
    ensures r.Some? ==> |r.value.1| < |s|
    decreases |s|, 1
  {
    var t := SkipSpace(s);
    if t != [] && t[0] == ']' then Some(([], t[1..]))
    else
      match SkipComma(t, first)
      case None => None
      case Some(u) =>
        match ReadValue(u)
        case None => None
        case Some((v, w)) =>
          match ReadItems(w, false)
          case None => None
          case Some((vs, rest)) => Some(([v] + vs, rest))
  }

  function ReadMember(s: Bytes): (r: Option<(Member, Bytes)>)
    ensures r.Some? ==> |r.value.1| < |s|
    decreases |s|, 0
  {
    var t := SkipSpace(s);
    if t == [] || t[0] != '"' then None
    else
      match ReadChars(t[1..])
      case None => None
      case Some((key, u)) =>
        var w := SkipSpace(u);
        if w == [] || w[0] != ':' then None
        else
          match ReadValue(w[1..])
          case None => None
          case Some((v, rest)) => Some((Member(key, v), rest))
  }

  function ReadMembers(s: Bytes, first: bool): (r: Option<(seq<Member>, Bytes)>)
    ensures r.Some? ==> |r.value.1| < |s|
    decreases |s|, 1
  {
    var t := SkipSpace(s);
    if t != [] && t[0] == '}' then Some(([], t[1..]))
    else
      match SkipComma(t, first)
      case None => None
      case Some(u) =>
        match ReadMember(u)
        case None => None
        case Some((m, w)) =>
          match ReadMembers(w, false)
          case None => None
          case Some((ms, rest)) => Some(([m] + ms, rest))
  }

  // JSON-text = ws value ws
  function ReadText(s: Bytes): Option<Json> {
    match ReadValue(s)
    case None => None
    case Some((v, rest)) => if SkipSpace(rest) == [] then Some(v) else None
  }
}
