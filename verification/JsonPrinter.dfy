// The JSON printer of crates/fr-pyiface/src/json_fast.rs.
module JsonPrinter {
  import opened ByteStrings
  import opened Sequences
  import opened Wrappers

  // ---- Python values ------------------------------------------------------

  // A `str`; `to_str` fails on one that holds a lone surrogate.
  datatype Text = Utf8(bytes: Bytes) | LoneSurrogate

  // `ryu` is the text the float printer emits, an opaque token.
  datatype Float = NonFinite | Finite(ryu: Bytes)

  datatype Key =
    | StrKey(text: Text)
    | NoneKey
    | BoolKey(b: bool)
    | IntKey(i: int)
    | FloatKey(repr: Bytes)  // `str(k)`
    | OtherKey

  datatype Value =
    | NoneValue
    | BoolValue(b: bool)
    | IntValue(i: int)
    | FloatValue(f: Float)
    | StrValue(text: Text)
    | DictValue(entries: seq<DictEntry>)
    | ListValue(items: seq<Value>)
    | TupleValue(items: seq<Value>)
    | OtherValue

  datatype DictEntry = DictEntry(key: Key, value: Value)

  // ---- what the printer emits ---------------------------------------------

  function Digits(n: nat): (s: Bytes)
    ensures |s| > 0
    ensures forall c <- s :: '0' <= c <= '9'
    ensures n != 0 ==> s[0] != '0'
    ensures n == 0 ==> s == "0"
  {
    if n < 10 then [(n + 48) as char] else Digits(n / 10) + [(n % 10 + 48) as char]
  }

  function Decimal(i: int): Bytes {
    if i < 0 then "-" + Digits(-i) else Digits(i)
  }

  // `str(i)`; CPython refuses more than `limit` digits (0: no limit).
  function PyStr(i: int, limit: nat): Option<Bytes> {
    if limit == 0 || |Digits(if i < 0 then -i else i)| <= limit then Some(Decimal(i)) else None
  }

  function IntText(i: int, limit: nat): Option<Bytes> {
    if -0x8000_0000_0000_0000 <= i < 0x8000_0000_0000_0000 then Some(Decimal(i)) else PyStr(i, limit)
  }

  predicate NeedsEscape(b: Byte) {
    b == '"' || b == '\\' || b as int < 0x20
  }

  const HEX: Bytes := "0123456789abcdef"

  // The byte-by-byte escape map of section 7 of RFC 8259.
  function EscapeByte(b: Byte): Bytes {
    if b == '"' then "\\\""
    else if b == '\\' then "\\\\"
    else if b == '\n' then "\\n"
    else if b == '\r' then "\\r"
    else if b == '\t' then "\\t"
    else if b as int == 0x08 then "\\b"
    else if b as int == 0x0c then "\\f"
    else if b as int < 0x20 then "\\u00" + [HEX[b as int / 16], HEX[b as int % 16]]
    else [b]
  }

  function Escaped(s: Bytes): Bytes {
    FlatMap(EscapeByte, s)
  }

  function Quoted(s: Bytes): Bytes {
    "\"" + Escaped(s) + "\""
  }

  // The text of a dictionary key; None for a key the printer rejects.
  function KeyText(k: Key, limit: nat): Option<Bytes> {
    match k
    case StrKey(Utf8(s)) => Some(s)
    case StrKey(LoneSurrogate) => None
    case NoneKey => Some("null")
    case BoolKey(b) => Some(if b then "true" else "false")
    case IntKey(i) => PyStr(i, limit)
    case FloatKey(repr) => Some(repr)
    case OtherKey => None
  }

  function Encoded(v: Value, limit: nat): Option<Bytes>
    decreases v
  {
    match v
    case NoneValue => Some("null")
    case BoolValue(b) => Some(if b then "true" else "false")
    case IntValue(i) => IntText(i, limit)
    case FloatValue(f) => Some(if f.NonFinite? then "null" else f.ryu)
    case StrValue(t) => if t.Utf8? then Some(Quoted(t.bytes)) else None
    case DictValue(es) =>
      var r := EncodedEntries(es, true, limit);
      if r.Some? then Some("{" + r.value + "}") else None
    case ListValue(items) =>
      var r := EncodedItems(items, true, limit);
      if r.Some? then Some("[" + r.value + "]") else None
    case TupleValue(items) =>
      var r := EncodedItems(items, true, limit);
      if r.Some? then Some("[" + r.value + "]") else None
    case OtherValue => None
  }

  function Comma(first: bool): Bytes {
    if first then [] else ","
  }

  function EncodedItems(items: seq<Value>, first: bool, limit: nat): Option<Bytes>
    decreases items
  {
    if items == [] then Some([])
    else
      var a, b := Encoded(items[0], limit), EncodedItems(items[1..], false, limit);
      if a.Some? && b.Some? then Some(Comma(first) + a.value + b.value) else None
  }

  function EncodedEntry(e: DictEntry, limit: nat): Option<Bytes>
    decreases e
  {
    var k, a := KeyText(e.key, limit), Encoded(e.value, limit);
    if k.Some? && a.Some? then Some(Quoted(k.value) + ":" + a.value) else None
  }

  function EncodedEntries(es: seq<DictEntry>, first: bool, limit: nat): Option<Bytes>
    decreases es
  {
    if es == [] then Some([])
    else
      var a, b := EncodedEntry(es[0], limit), EncodedEntries(es[1..], false, limit);
      if a.Some? && b.Some? then Some(Comma(first) + a.value + b.value) else None
  }

  // ---- the printer --------------------------------------------------------

  // The two-character escapes; None for a control byte written as \u00XX.
  function ShortEscape(b: Byte): (r: Option<Bytes>)
    requires NeedsEscape(b)
    ensures r.Some? ==> r.value == EscapeByte(b)
    ensures r.None? ==> EscapeByte(b) == "\\u00" + [HEX[b as int / 16], HEX[b as int % 16]]
  {
    if b == '"' then Some("\\\"")
    else if b == '\\' then Some("\\\\")
    else if b == '\n' then Some("\\n")
    else if b == '\r' then Some("\\r")
    else if b == '\t' then Some("\\t")
    else if b as int == 0x08 then Some("\\b")
    else if b as int == 0x0c then Some("\\f")
    else None
  }

  // A plain run and the escaped byte after it.
  lemma EscapedRun(s: Bytes, start: nat, i: nat)
    requires start <= i < |s|
    requires forall k :: start <= k < i ==> !NeedsEscape(s[k])
    ensures Escaped(s[..i + 1]) == Escaped(s[..start]) + s[start..i] + EscapeByte(s[i])
  {
    forall k | start <= k < i
      ensures EscapeByte(s[k]) == [s[k]]
    {
    }
    FlatMapRun(EscapeByte, s, start, i);
  }

  // The plain run that ends the string.
  lemma EscapedTail(s: Bytes, start: nat)
    requires start <= |s|
    requires forall k :: start <= k < |s| ==> !NeedsEscape(s[k])
    ensures Escaped(s) == Escaped(s[..start]) + s[start..]
  {
    FlatMapIdentity(EscapeByte, s[start..]);
    FlatMapConcat(EscapeByte, s[..start], s[start..]);
    assert s[..start] + s[start..] == s;
  }

  // The chunk-flushing loop: runs of plain bytes are copied as slices.
  method WriteStr(s: Bytes, out: ByteBuffer)
    modifies out
    ensures out.bytes == old(out.bytes) + Quoted(s)
  {
    out.Push('"');
    ghost var base := out.bytes;
    var start := 0;
    for i := 0 to |s|
      invariant start <= i
      invariant out.bytes == base + Escaped(s[..start])
      invariant forall k :: start <= k < i ==> !NeedsEscape(s[k])
    {
      var b := s[i];
      if !NeedsEscape(b) {
        continue;
      }
      EscapedRun(s, start, i);
      Assoc(base, Escaped(s[..start]), s[start..i]);
      Assoc(base, Escaped(s[..start]) + s[start..i], EscapeByte(b));
      if i > start {
        out.Extend(s[start..i]);
      }
      match ShortEscape(b) {
        case Some(esc) =>
          out.Extend(esc);
        case None =>
          WriteControl(b, out);
      }
      start := i + 1;
    }
    EscapedTail(s, start);
    Assoc(base, Escaped(s[..start]), s[start..]);
    if start < |s| {
      out.Extend(s[start..]);
    }
    assert out.bytes == base + Escaped(s);
    out.Push('"');
    Assoc(old(out.bytes), "\"", Escaped(s));
    Assoc(old(out.bytes), "\"" + Escaped(s), "\"");
  }

  method WriteControl(b: Byte, out: ByteBuffer)
    requires b as int < 0x20
    modifies out
    ensures out.bytes == old(out.bytes) + ("\\u00" + [HEX[b as int / 16], HEX[b as int % 16]])
  {
    out.Extend("\\u00");
    var hi, lo := b as int / 16, b as int % 16;
    out.Push(HEX[hi]);
    out.Push(HEX[lo]);
  }

  // Appends the encoding of `v`; on failure leaves a partial text behind.
  method WriteValue(v: Value, limit: nat, out: ByteBuffer) returns (ok: bool)
    modifies out
    ensures ok <==> Encoded(v, limit).Some?
    ensures ok ==> out.bytes == old(out.bytes) + Encoded(v, limit).value
    decreases v
  {
    match v
    case NoneValue =>
      out.Extend("null");
      return true;
    case BoolValue(b) =>
      out.Extend(if b then "true" else "false");
      return true;
    case IntValue(i) =>
      if -0x8000_0000_0000_0000 <= i < 0x8000_0000_0000_0000 {
        out.Extend(Decimal(i));
        return true;
      }
      match PyStr(i, limit) {
        case None => return false;
        case Some(s) =>
          out.Extend(s);
          return true;
      }
    case FloatValue(f) =>
      match f {
        case NonFinite => out.Extend("null");
        case Finite(s) => out.Extend(s);
      }
      return true;
    case StrValue(t) =>
      match t {
        case LoneSurrogate => return false;
        case Utf8(s) =>
          WriteStr(s, out);
          return true;
      }
    case DictValue(es) =>
      ok := WriteEntries(es, limit, out);
    case ListValue(items) =>
      ok := WriteItems(items, limit, out);
    case TupleValue(items) =>
      ok := WriteItems(items, limit, out);
    case OtherValue =>
      return false;
  }

  method WriteKey(k: Key, limit: nat, out: ByteBuffer) returns (ok: bool)
    modifies out
    ensures ok <==> KeyText(k, limit).Some?
    ensures ok ==> out.bytes == old(out.bytes) + Quoted(KeyText(k, limit).value)
  {
    match k {
      case StrKey(t) =>
        match t {
          case LoneSurrogate => return false;
          case Utf8(s) => WriteStr(s, out);
        }
      case NoneKey => WriteStr("null", out);
      case BoolKey(b) => WriteStr(if b then "true" else "false", out);
      case IntKey(n) =>
        match PyStr(n, limit) {
          case None => return false;
          case Some(s) => WriteStr(s, out);
        }
      case FloatKey(s) => WriteStr(s, out);
      case OtherKey => return false;
    }
    return true;
  }

  method WriteEntry(e: DictEntry, limit: nat, out: ByteBuffer) returns (ok: bool)
    modifies out
    ensures ok <==> EncodedEntry(e, limit).Some?
    ensures ok ==> out.bytes == old(out.bytes) + EncodedEntry(e, limit).value
    decreases e
  {
    ok := WriteKey(e.key, limit, out);
    if !ok {
      return;
    }
    out.Push(':');
    ok := WriteValue(e.value, limit, out);
    if ok {
      ghost var before, k, a := old(out.bytes), Quoted(KeyText(e.key, limit).value), Encoded(e.value, limit).value;
      Assoc(before, k, ":");
      Assoc(before, k + ":", a);
    }
  }

  lemma EntriesStep(es: seq<DictEntry>, i: nat, first: bool, limit: nat)
    requires i < |es|
    ensures
      var a, b := EncodedEntry(es[i], limit), EncodedEntries(es[i + 1..], false, limit);
      EncodedEntries(es[i..], first, limit) ==
        if a.Some? && b.Some? then Some((Comma(first) + a.value) + b.value) else None
  {
    assert es[i..][0] == es[i] && es[i..][1..] == es[i + 1..];
  }

  // The dictionary loop: keys are coerced to text, values written recursively.
  method WriteEntries(es: seq<DictEntry>, limit: nat, out: ByteBuffer) returns (ok: bool)
    modifies out
    ensures ok <==> EncodedEntries(es, true, limit).Some?
    ensures ok ==> out.bytes == old(out.bytes) + ("{" + EncodedEntries(es, true, limit).value + "}")
    decreases es
  {
    out.Push('{');
    ghost var base := out.bytes;
    var first := true;
    ghost var all := EncodedEntries(es, true, limit);
    for i := 0 to |es|
      invariant first <==> i == 0
      invariant all.Some? <==> EncodedEntries(es[i..], first, limit).Some?
      invariant all.Some? ==> base + all.value == out.bytes + EncodedEntries(es[i..], first, limit).value
    {
      EntriesStep(es, i, first, limit);
      ghost var before, comma := out.bytes, Comma(first);
      if !first {
        out.Push(',');
      }
      assert out.bytes == before + comma;
      first := false;
      ok := WriteEntry(es[i], limit, out);
      if !ok {
        return;
      }
      ghost var a := EncodedEntry(es[i], limit).value;
      if all.Some? {
        ghost var b := EncodedEntries(es[i + 1..], false, limit).value;
        Assoc(before, comma + a, b);
        Assoc(before, comma, a);
      }
    }
    assert es[|es|..] == [];
    out.Push('}');
    if all.Some? {
      Assoc(old(out.bytes), "{", all.value);
      Assoc(old(out.bytes), "{" + all.value, "}");
    }
    return true;
  }

  lemma ItemsStep(items: seq<Value>, i: nat, first: bool, limit: nat)
    requires i < |items|
    ensures
      var a, b := Encoded(items[i], limit), EncodedItems(items[i + 1..], false, limit);
      EncodedItems(items[i..], first, limit) ==
        if a.Some? && b.Some? then Some((Comma(first) + a.value) + b.value) else None
  {
    assert items[i..][0] == items[i] && items[i..][1..] == items[i + 1..];
  }

  // The loop that lists and tuples share.
  method WriteItems(items: seq<Value>, limit: nat, out: ByteBuffer) returns (ok: bool)
    modifies out
    ensures ok <==> EncodedItems(items, true, limit).Some?
    ensures ok ==> out.bytes == old(out.bytes) + ("[" + EncodedItems(items, true, limit).value + "]")
    decreases items
  {
    out.Push('[');
    ghost var base := out.bytes;
    var first := true;
    ghost var all := EncodedItems(items, true, limit);
    for i := 0 to |items|
      invariant first <==> i == 0
      invariant all.Some? <==> EncodedItems(items[i..], first, limit).Some?
      invariant all.Some? ==> base + all.value == out.bytes + EncodedItems(items[i..], first, limit).value
    {
      ItemsStep(items, i, first, limit);
      ghost var before, comma := out.bytes, Comma(first);
      if !first {
        out.Push(',');
      }
      assert out.bytes == before + comma;
      first := false;
      ok := WriteValue(items[i], limit, out);
      if !ok {
        return;
      }
      ghost var a := Encoded(items[i], limit).value;
      if all.Some? {
        ghost var b := EncodedItems(items[i + 1..], false, limit).value;
        Assoc(before, comma + a, b);
        Assoc(before, comma, a);
      }
    }
    assert items[|items|..] == [];
    out.Push(']');
    if all.Some? {
      Assoc(old(out.bytes), "[", all.value);
      Assoc(old(out.bytes), "[" + all.value, "]");
    }
    return true;
  }

  method Encode(v: Value, limit: nat) returns (r: Result<Bytes, ()>)
    ensures r == (match Encoded(v, limit) case Some(s) => Ok(s) case None => Err(()))
  {
    var out := new ByteBuffer();
    var ok := WriteValue(v, limit, out);
    assert ok ==> out.bytes == Encoded(v, limit).value;
    return if ok then Ok(out.bytes) else Err(());
  }
}
