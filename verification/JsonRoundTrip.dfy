// Reading what the printer wrote gives the value back.
module JsonRoundTrip {
  import opened ByteStrings
  import opened Sequences
  import opened Wrappers
  import opened JsonPrinter
  import opened JsonReader

  // ---- strings ------------------------------------------------------------

  lemma HexRoundTrip(n: nat)
    requires n < 16
    ensures HexDigit(HEX[n]) == Some(n)
  {
  }

  lemma ReadControlByte(b: Byte, x: Bytes)
    requires b as int < 0x20
    ensures ReadEscape("u00" + [HEX[b as int / 16], HEX[b as int % 16]] + x) == Some(([b], x))
  {
    var t := "u00" + [HEX[b as int / 16], HEX[b as int % 16]] + x;
    HexRoundTrip(b as int / 16);
    HexRoundTrip(b as int % 16);
    assert t[5..] == x;
    assert Hex4(t[1..]) == Some(b as int);
  }

  // One escaped byte is read back as that byte, whatever follows it.
  lemma ReadEscapedByte(b: Byte, x: Bytes)
    ensures ReadChars(EscapeByte(b) + x) == Prepend([b], ReadChars(x))
  {
    var e := EscapeByte(b);
    var s := e + x;
    assert s[0] == e[0];
    if !NeedsEscape(b) {
      assert s[1..] == x;
    } else if |e| == 2 {
      assert s[1..][0] == e[1] && s[1..][1..] == x;
    } else {
      ReadControlByte(b, x);
      assert s[1..] == "u00" + [HEX[b as int / 16], HEX[b as int % 16]] + x;
    }
  }

  // Unescaping inverts the escape map.
  lemma {:induction false} StringRoundTrip(s: Bytes, rest: Bytes)
    ensures ReadChars(Escaped(s) + ("\"" + rest)) == Some((s, rest))
  {
    var tail := "\"" + rest;
    if s == [] {
      assert Escaped(s) + tail == tail;
      assert tail[1..] == rest;
    } else {
      StringRoundTrip(s[1..], rest);
      Assoc(EscapeByte(s[0]), Escaped(s[1..]), tail);
      ReadEscapedByte(s[0], Escaped(s[1..]) + tail);
      assert [s[0]] + s[1..] == s;
    }
  }

  // No control byte, and every quotation mark is escaped.
  predicate IsStringBody(t: Bytes) {
    if t == [] then true
    else if t[0] == '\\' then |t| > 1 && t[1] as int >= 0x20 && IsStringBody(t[2..])
    else t[0] != '"' && t[0] as int >= 0x20 && IsStringBody(t[1..])
  }

  lemma BodyPrefix(e: Bytes, t: Bytes)
    requires IsStringBody(t)
    requires |e| == 1 && e[0] != '"' && e[0] != '\\' && e[0] as int >= 0x20
    ensures IsStringBody(e + t)
  {
    assert (e + t)[1..] == t;
  }

  lemma ControlByteBody(hi: Byte, lo: Byte, t: Bytes)
    requires IsStringBody(t) && hi in HEX && lo in HEX
    ensures IsStringBody("\\u00" + [hi, lo] + t)
  {
    var s := "\\u00" + [hi, lo] + t;
    BodyPrefix([lo], t);
    BodyPrefix([hi], [lo] + t);
    var u := [hi] + ([lo] + t);
    BodyPrefix("0", u);
    BodyPrefix("0", "0" + u);
    assert s[0] == '\\' && s[1] == 'u' && s[2..] == "0" + ("0" + u);
  }

  lemma EscapedByteBody(b: Byte, t: Bytes)
    requires IsStringBody(t)
    ensures IsStringBody(EscapeByte(b) + t)
  {
    var e := EscapeByte(b);
    if !NeedsEscape(b) {
      BodyPrefix(e, t);
    } else if |e| == 2 {
      assert (e + t)[2..] == t;
    } else {
      ControlByteBody(HEX[b as int / 16], HEX[b as int % 16], t);
    }
  }

  lemma {:induction false} EscapedIsStringBody(s: Bytes)
    ensures IsStringBody(Escaped(s))
  {
    if s != [] {
      EscapedIsStringBody(s[1..]);
      EscapedByteBody(s[0], Escaped(s[1..]));
    }
  }

  // ---- numbers ------------------------------------------------------------

  // `rest` does not continue a number.
  predicate Delimited(rest: Bytes) {
    rest == [] || !IsNumberByte(rest[0])
  }

  lemma {:induction false} NumberRunStops(t: Bytes, rest: Bytes)
    requires forall k :: 0 <= k < |t| ==> IsNumberByte(t[k])
    requires Delimited(rest)
    ensures NumberRun(t + rest) == |t|
  {
    if t == [] {
      assert t + rest == rest;
    } else {
      assert (t + rest)[1..] == t[1..] + rest;
      NumberRunStops(t[1..], rest);
    }
  }

  lemma {:induction false} DigitRunWhole(t: Bytes)
    requires AllDigits(t)
    ensures DigitRun(t) == |t|
  {
    if t != [] {
      DigitRunWhole(t[1..]);
    }
  }

  lemma ReadToken(t: Bytes, rest: Bytes)
    requires t != [] && IsNumber(t) && Delimited(rest)
    ensures ReadNumber(t + rest) == Some((NumberValue(t), rest))
  {
    NumberRunStops(t, rest);
    assert (t + rest)[..|t|] == t && (t + rest)[|t|..] == rest;
  }

  lemma {:induction false} DigitsRoundTrip(n: nat)
    ensures DigitsValue(Digits(n)) == n
  {
    var s := Digits(n);
    if n < 10 {
      assert s[..|s| - 1] == [];
    } else {
      DigitsRoundTrip(n / 10);
      assert s[..|s| - 1] == Digits(n / 10);
    }
  }

  lemma DigitsAreDigits(n: nat)
    ensures AllDigits(Digits(n))
  {
    forall k | 0 <= k < |Digits(n)|
      ensures IsDigit(Digits(n)[k])
    {
      assert Digits(n)[k] in Digits(n);
    }
  }

  lemma DecimalRoundTrip(i: int)
    ensures IsNumber(Decimal(i)) && NumberValue(Decimal(i)) == JInt(i)
  {
    var n: nat := if i < 0 then -i else i;
    var u := Digits(n);
    DigitsAreDigits(n);
    DigitsRoundTrip(n);
    DigitRunWhole(u);
    assert Unsigned(Decimal(i)) == u;
    assert u[..|u|] == u && u[|u|..] == [];
    assert IsInteger(u);
  }

  // ---- values -------------------------------------------------------------

  // Every float token is a JSON number, as the float printer guarantees.
  predicate FloatsAreNumbers(v: Value)
    decreases v
  {
    match v
    case FloatValue(Finite(t)) => t != [] && IsNumber(t)
    case ListValue(items) => forall x <- items :: FloatsAreNumbers(x)
    case TupleValue(items) => forall x <- items :: FloatsAreNumbers(x)
    case DictValue(es) => forall e <- es :: EntryFloats(e)
    case _ => true
  }

  predicate EntryFloats(e: DictEntry)
    decreases e
  {
    FloatsAreNumbers(e.value)
  }

  // The text of a key, where the printer accepts it.
  function KeyOf(k: Key): Bytes {
    match k
    case StrKey(Utf8(s)) => s
    case NoneKey => "null"
    case BoolKey(b) => if b then "true" else "false"
    case IntKey(i) => Decimal(i)
    case FloatKey(repr) => repr
    case _ => []
  }

  // The JSON value a Python value stands for: tuples are arrays, NaN and the
  // infinities are null, keys become text.
  function ToJson(v: Value): Json
    decreases v
  {
    match v
    case NoneValue => JNull
    case BoolValue(b) => JBool(b)
    case IntValue(i) => JInt(i)
    case FloatValue(NonFinite) => JNull
    case FloatValue(Finite(t)) => NumberValue(t)
    case StrValue(Utf8(s)) => JString(s)
    case ListValue(items) => JArray(ItemsToJson(items))
    case TupleValue(items) => JArray(ItemsToJson(items))
    case DictValue(es) => JObject(EntriesToJson(es))
    case _ => JNull
  }

  function ItemsToJson(items: seq<Value>): seq<Json>
    decreases items
  {
    if items == [] then [] else [ToJson(items[0])] + ItemsToJson(items[1..])
  }

  function EntryToJson(e: DictEntry): Member
    decreases e
  {
    Member(KeyOf(e.key), ToJson(e.value))
  }

  function EntriesToJson(es: seq<DictEntry>): seq<Member>
    decreases es
  {
    if es == [] then [] else [EntryToJson(es[0])] + EntriesToJson(es[1..])
  }

  // No encoding starts with white space, a closing bracket or a comma.
  predicate StartsValue(s: Bytes) {
    s != [] && !IsSpace(s[0]) && s[0] != ']' && s[0] != ','
  }

  lemma NumberStart(t: Bytes)
    requires t != [] && IsNumber(t)
    ensures StartsValue(t) && IsNumberByte(t[0])
  {
    assert IsNumberByte(t[0]);
  }

  lemma EncodedStart(v: Value, limit: nat)
    requires Encoded(v, limit).Some? && FloatsAreNumbers(v)
    ensures StartsValue(Encoded(v, limit).value)
  {
    match v
    case IntValue(i) =>
      DecimalRoundTrip(i);
      NumberStart(Decimal(i));
    case FloatValue(Finite(t)) =>
      NumberStart(t);
    case _ =>
  }

  lemma KeyTextIsKeyOf(k: Key, limit: nat)
    requires KeyText(k, limit).Some?
    ensures KeyText(k, limit).value == KeyOf(k)
  {
  }

  // ---- one step of the reader ---------------------------------------------

  // The first byte decides that a number must follow.
  lemma ReadOther(s: Bytes)
    requires s != [] && IsNumberByte(s[0])
    ensures ReadValue(s) == ReadNumber(s)
  {
    assert SkipSpace(s) == s;
    var r := ReadNumber(s);
    assert s[0] != '"' && s[0] != '[' && s[0] != '{' && s[0] != 'n' && s[0] != 't' && s[0] != 'f';
  }

  lemma ReadNumberValue(t: Bytes, rest: Bytes)
    requires t != [] && IsNumber(t) && Delimited(rest)
    ensures ReadValue(t + rest) == Some((NumberValue(t), rest))
  {
    NumberStart(t);
    ReadToken(t, rest);
    assert (t + rest)[0] == t[0];
    ReadOther(t + rest);
  }

  lemma ReadWord(s: Bytes, rest: Bytes)
    requires s in ["null", "true", "false"]
    ensures ReadValue(s + rest) == Some((if s == "null" then JNull else JBool(s == "true"), rest))
  {
    if s == "null" {
      assert SkipSpace("null" + rest) == "null" + rest;
    } else if s == "true" {
      assert SkipSpace("true" + rest) == "true" + rest;
    } else {
      assert SkipSpace("false" + rest) == "false" + rest;
    }
  }

  lemma ReadQuoted(k: Bytes, rest: Bytes)
    ensures Quoted(k) + rest == ['"'] + (Escaped(k) + ("\"" + rest))
    ensures ReadChars((Quoted(k) + rest)[1..]) == Some((k, rest))
  {
    StringRoundTrip(k, rest);
    Assoc("\"", Escaped(k), "\"");
    Assoc("\"" + Escaped(k), "\"", rest);
    Assoc("\"", Escaped(k), "\"" + rest);
  }

  lemma ReadStringValue(k: Bytes, rest: Bytes)
    ensures ReadValue(Quoted(k) + rest) == Some((JString(k), rest))
  {
    ReadQuoted(k, rest);
    assert SkipSpace(Quoted(k) + rest) == Quoted(k) + rest;
  }

  lemma ReadArray(inner: Bytes, items: seq<Json>, rest: Bytes)
    requires ReadItems(inner + ("]" + rest), true) == Some((items, rest))
    ensures ReadValue("[" + inner + "]" + rest) == Some((JArray(items), rest))
  {
    var s := "[" + inner + "]" + rest;
    Assoc("[" + inner, "]", rest);
    Assoc("[", inner, "]" + rest);
    assert SkipSpace(s) == s;
    assert s[1..] == inner + ("]" + rest);
  }

  lemma ReadObject(inner: Bytes, members: seq<Member>, rest: Bytes)
    requires ReadMembers(inner + ("}" + rest), true) == Some((members, rest))
    ensures ReadValue("{" + inner + "}" + rest) == Some((JObject(members), rest))
  {
    var s := "{" + inner + "}" + rest;
    Assoc("{" + inner, "}", rest);
    Assoc("{", inner, "}" + rest);
    assert SkipSpace(s) == s;
    assert s[1..] == inner + ("}" + rest);
  }

  lemma SkipPrinted(first: bool, a: Bytes, tail: Bytes)
    requires a != [] && !IsSpace(a[0])
    ensures
      var s := Comma(first) + a + tail;
      SkipSpace(s) == s && s != [] && s[0] == (if first then a[0] else ',') &&
      SkipComma(s, first) == Some(a + tail)
  {
    Assoc(Comma(first), a, tail);
    var s := Comma(first) + (a + tail);
    if first {
      assert s == a + tail;
    } else {
      assert s[1..] == a + tail;
    }
  }

  // ---- values, arrays, objects --------------------------------------------

  // The reader inverts the printer, for every value and every following text
  // that does not extend a number.
  lemma {:induction false} ValueRoundTrip(v: Value, limit: nat, rest: Bytes)
    requires Encoded(v, limit).Some? && FloatsAreNumbers(v) && Delimited(rest)
    ensures ReadValue(Encoded(v, limit).value + rest) == Some((ToJson(v), rest))
    decreases v
  {
    match v
    case NoneValue => ReadWord("null", rest);
    case BoolValue(b) => ReadWord(if b then "true" else "false", rest);
    case IntValue(i) =>
      DecimalRoundTrip(i);
      ReadNumberValue(Decimal(i), rest);
    case FloatValue(NonFinite) => ReadWord("null", rest);
    case FloatValue(Finite(t)) => ReadNumberValue(t, rest);
    case StrValue(t) => ReadStringValue(t.bytes, rest);
    case ListValue(items) =>
      ItemsRoundTrip(items, true, limit, rest);
      ReadArray(EncodedItems(items, true, limit).value, ItemsToJson(items), rest);
    case TupleValue(items) =>
      ItemsRoundTrip(items, true, limit, rest);
      ReadArray(EncodedItems(items, true, limit).value, ItemsToJson(items), rest);
    case DictValue(es) =>
      EntriesRoundTrip(es, true, limit, rest);
      ReadObject(EncodedEntries(es, true, limit).value, EntriesToJson(es), rest);
  }

  lemma ItemsDelimited(items: seq<Value>, limit: nat, rest: Bytes)
    requires EncodedItems(items, false, limit).Some?
    ensures Delimited(EncodedItems(items, false, limit).value + ("]" + rest))
  {
  }

  lemma {:induction false} ItemsRoundTrip(items: seq<Value>, first: bool, limit: nat, rest: Bytes)
    requires EncodedItems(items, first, limit).Some? && forall x <- items :: FloatsAreNumbers(x)
    ensures ReadItems(EncodedItems(items, first, limit).value + ("]" + rest), first)
         == Some((ItemsToJson(items), rest))
    decreases items
  {
    var close := "]" + rest;
    if items == [] {
      assert [] + close == close && close[1..] == rest;
    } else {
      var a, b := Encoded(items[0], limit).value, EncodedItems(items[1..], false, limit).value;
      EncodedStart(items[0], limit);
      ItemsRoundTrip(items[1..], false, limit, rest);
      ItemsDelimited(items[1..], limit, rest);
      ValueRoundTrip(items[0], limit, b + close);
      Assoc(Comma(first) + a, b, close);
      SkipPrinted(first, a, b + close);
    }
  }

  lemma {:induction false} EntryRoundTrip(e: DictEntry, limit: nat, rest: Bytes)
    requires EncodedEntry(e, limit).Some? && EntryFloats(e) && Delimited(rest)
    ensures ReadMember(EncodedEntry(e, limit).value + rest) == Some((EntryToJson(e), rest))
    decreases e
  {
    KeyTextIsKeyOf(e.key, limit);
    var k, a := Quoted(KeyOf(e.key)), Encoded(e.value, limit).value;
    var after := ":" + (a + rest);
    Assoc(k + ":", a, rest);
    Assoc(k, ":", a + rest);
    ReadQuoted(KeyOf(e.key), after);
    assert SkipSpace(k + after) == k + after;
    assert SkipSpace(after) == after && after[1..] == a + rest;
    ValueRoundTrip(e.value, limit, rest);
  }

  lemma EntriesDelimited(es: seq<DictEntry>, limit: nat, rest: Bytes)
    requires EncodedEntries(es, false, limit).Some?
    ensures Delimited(EncodedEntries(es, false, limit).value + ("}" + rest))
  {
  }

  lemma {:induction false} EntriesRoundTrip(es: seq<DictEntry>, first: bool, limit: nat, rest: Bytes)
    requires EncodedEntries(es, first, limit).Some? && forall e <- es :: EntryFloats(e)
    ensures ReadMembers(EncodedEntries(es, first, limit).value + ("}" + rest), first)
         == Some((EntriesToJson(es), rest))
    decreases es
  {
    var close := "}" + rest;
    if es == [] {
      assert [] + close == close && close[1..] == rest;
    } else {
      var a, b := EncodedEntry(es[0], limit).value, EncodedEntries(es[1..], false, limit).value;
      EntriesRoundTrip(es[1..], false, limit, rest);
      EntriesDelimited(es[1..], limit, rest);
      EntryRoundTrip(es[0], limit, b + close);
      Assoc(Comma(first) + a, b, close);
      assert a[0] == '"';
      SkipPrinted(first, a, b + close);
    }
  }

  // ---- what the printer guarantees ----------------------------------------

  // Reading the printed text gives the value, with nothing left over.
  lemma EncodeRoundTrip(v: Value, limit: nat)
    requires Encoded(v, limit).Some? && FloatsAreNumbers(v)
    ensures ReadText(Encoded(v, limit).value) == Some(ToJson(v))
  {
    var s := Encoded(v, limit).value;
    ValueRoundTrip(v, limit, []);
    assert s + [] == s;
  }

  // Two values with one text stand for the same JSON value.
  lemma EncodeInjective(v: Value, w: Value, limit: nat)
    requires Encoded(v, limit).Some? && Encoded(v, limit) == Encoded(w, limit)
    requires FloatsAreNumbers(v) && FloatsAreNumbers(w)
    ensures ToJson(v) == ToJson(w)
  {
    EncodeRoundTrip(v, limit);
    EncodeRoundTrip(w, limit);
  }

  // Values with nothing the printer identifies: no tuples, no floats, and
  // string keys only.
  predicate IsCanonical(v: Value)
    decreases v
  {
    match v
    case FloatValue(_) => false
    case StrValue(t) => t.Utf8?
    case TupleValue(_) => false
    case ListValue(items) => forall x <- items :: IsCanonical(x)
    case DictValue(es) => forall e <- es :: IsCanonicalEntry(e)
    case OtherValue => false
    case _ => true
  }

  predicate IsCanonicalEntry(e: DictEntry)
    decreases e
  {
    e.key.StrKey? && e.key.text.Utf8? && IsCanonical(e.value)
  }

  function FromJson(j: Json): Value
    decreases j
  {
    match j
    case JNull => NoneValue
    case JBool(b) => BoolValue(b)
    case JInt(i) => IntValue(i)
    case JReal(t) => FloatValue(Finite(t))
    case JString(s) => StrValue(Utf8(s))
    case JArray(items) => ListValue(ItemsFromJson(items))
    case JObject(ms) => DictValue(MembersFromJson(ms))
  }

  function ItemsFromJson(items: seq<Json>): seq<Value>
    decreases items
  {
    if items == [] then [] else [FromJson(items[0])] + ItemsFromJson(items[1..])
  }

  function MemberFromJson(m: Member): DictEntry
    decreases m
  {
    DictEntry(StrKey(Utf8(m.key)), FromJson(m.value))
  }

  function MembersFromJson(ms: seq<Member>): seq<DictEntry>
    decreases ms
  {
    if ms == [] then [] else [MemberFromJson(ms[0])] + MembersFromJson(ms[1..])
  }

  lemma {:induction false} FromToJson(v: Value)
    requires IsCanonical(v)
    ensures FromJson(ToJson(v)) == v
    decreases v
  {
    match v
    case ListValue(items) => ItemsFromToJson(items);
    case DictValue(es) => EntriesFromToJson(es);
    case _ =>
  }

  lemma {:induction false} ItemsFromToJson(items: seq<Value>)
    requires forall x <- items :: IsCanonical(x)
    ensures ItemsFromJson(ItemsToJson(items)) == items
    decreases items
  {
    if items != [] {
      FromToJson(items[0]);
      ItemsFromToJson(items[1..]);
    }
  }

  lemma {:induction false} EntryFromToJson(e: DictEntry)
    requires IsCanonicalEntry(e)
    ensures MemberFromJson(EntryToJson(e)) == e
    decreases e
  {
    FromToJson(e.value);
  }

  lemma {:induction false} EntriesFromToJson(es: seq<DictEntry>)
    requires forall e <- es :: IsCanonicalEntry(e)
    ensures MembersFromJson(EntriesToJson(es)) == es
    decreases es
  {
    if es != [] {
      EntryFromToJson(es[0]);
      EntriesFromToJson(es[1..]);
    }
  }

  lemma {:induction false} CanonicalFloats(v: Value)
    requires IsCanonical(v)
    ensures FloatsAreNumbers(v)
    decreases v
  {
    match v
    case ListValue(items) =>
      forall x <- items
        ensures FloatsAreNumbers(x)
      {
        CanonicalFloats(x);
      }
    case DictValue(es) =>
      forall e <- es
        ensures EntryFloats(e)
      {
        CanonicalEntryFloats(e);
      }
    case _ =>
  }

  lemma {:induction false} CanonicalEntryFloats(e: DictEntry)
    requires IsCanonicalEntry(e)
    ensures EntryFloats(e)
    decreases e
  {
    CanonicalFloats(e.value);
  }

  // On canonical values the printer is injective outright.
  lemma EncodeInjectiveCanonical(v: Value, w: Value, limit: nat)
    requires IsCanonical(v) && IsCanonical(w)
    requires Encoded(v, limit).Some? && Encoded(v, limit) == Encoded(w, limit)
    ensures v == w
  {
    CanonicalFloats(v);
    CanonicalFloats(w);
    EncodeInjective(v, w, limit);
    FromToJson(v);
    FromToJson(w);
  }

  // ---- when the printer fails ---------------------------------------------

  // An int too long for `str`; a 64-bit one is never printed that way.
  predicate TooLong(i: int, limit: nat) {
    limit != 0 && |Digits(if i < 0 then -i else i)| > limit
  }

  predicate BadKey(k: Key, limit: nat) {
    k.OtherKey? || k == StrKey(LoneSurrogate) || (k.IntKey? && TooLong(k.i, limit))
  }

  // Some subtree or key has an unsupported type, or a text the interpreter
  // refuses to produce.
  predicate HasUnsupported(v: Value, limit: nat)
    decreases v
  {
    match v
    case OtherValue => true
    case StrValue(t) => t.LoneSurrogate?
    case IntValue(i) => !(-0x8000_0000_0000_0000 <= i < 0x8000_0000_0000_0000) && TooLong(i, limit)
    case ListValue(items) => exists x <- items :: HasUnsupported(x, limit)
    case TupleValue(items) => exists x <- items :: HasUnsupported(x, limit)
    case DictValue(es) => exists e <- es :: EntryUnsupported(e, limit)
    case _ => false
  }

  predicate EntryUnsupported(e: DictEntry, limit: nat)
    decreases e
  {
    BadKey(e.key, limit) || HasUnsupported(e.value, limit)
  }

  lemma {:induction false} EncodeFailsIff(v: Value, limit: nat)
    ensures Encoded(v, limit).None? <==> HasUnsupported(v, limit)
    decreases v
  {
    match v
    case ListValue(items) => ItemsFailIff(items, true, limit);
    case TupleValue(items) => ItemsFailIff(items, true, limit);
    case DictValue(es) => EntriesFailIff(es, true, limit);
    case _ =>
  }

  lemma {:induction false} ItemsFailIff(items: seq<Value>, first: bool, limit: nat)
    ensures EncodedItems(items, first, limit).None? <==> exists x <- items :: HasUnsupported(x, limit)
    decreases items
  {
    if items != [] {
      EncodeFailsIff(items[0], limit);
      ItemsFailIff(items[1..], false, limit);
      assert items == [items[0]] + items[1..];
    }
  }

  lemma {:induction false} EntryFailsIff(e: DictEntry, limit: nat)
    ensures EncodedEntry(e, limit).None? <==> EntryUnsupported(e, limit)
    decreases e
  {
    EncodeFailsIff(e.value, limit);
  }

  lemma {:induction false} EntriesFailIff(es: seq<DictEntry>, first: bool, limit: nat)
    ensures EncodedEntries(es, first, limit).None? <==> exists e <- es :: EntryUnsupported(e, limit)
    decreases es
  {
    if es != [] {
      EntryFailsIff(es[0], limit);
      EntriesFailIff(es[1..], false, limit);
      assert es == [es[0]] + es[1..];
    }
  }
}
