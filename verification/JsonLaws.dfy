// What the printed text is among all texts: none for the same value is shorter,
// and values that JSON cannot tell apart have the same one.
module JsonLaws {
  import opened ByteStrings
  import opened Sequences
  import opened Wrappers
  import opened JsonPrinter
  import opened JsonReader
  import opened JsonRoundTrip

  // ---- the least length of a text -----------------------------------------

  function Size(j: Json): nat
    decreases j
  {
    match j
    case JNull => 4
    case JBool(b) => if b then 4 else 5
    case JInt(i) => |Decimal(i)|
    case JReal(t) => |t|
    case JString(s) => 2 + |Escaped(s)|
    case JArray(items) => 2 + ItemsSize(items, true)
    case JObject(ms) => 2 + MembersSize(ms, true)
  }

  function ItemsSize(items: seq<Json>, first: bool): nat
    decreases items
  {
    if items == [] then 0 else (if first then 0 else 1) + Size(items[0]) + ItemsSize(items[1..], false)
  }

  function MemberSize(m: Member): nat
    decreases m
  {
    2 + |Escaped(m.key)| + 1 + Size(m.value)
  }

  function MembersSize(ms: seq<Member>, first: bool): nat
    decreases ms
  {
    if ms == [] then 0 else (if first then 0 else 1) + MemberSize(ms[0]) + MembersSize(ms[1..], false)
  }

  // ---- numbers ------------------------------------------------------------

  // Digits without a leading zero are the digits of their value.
  lemma {:induction false} DigitsAreUnique(t: Bytes)
    requires IsInteger(t)
    ensures DigitsValue(t) >= 0 && Digits(DigitsValue(t)) == t
    ensures t[0] != '0' ==> DigitsValue(t) > 0
  {
    var n := |t| - 1;
    if n > 0 {
      assert IsInteger(t[..n]);
      DigitsAreUnique(t[..n]);
      assert t == t[..n] + [t[n]];
    } else {
      assert t[..0] == [] && t == [t[0]];
    }
  }

  lemma NumberIsLong(t: Bytes)
    requires t != [] && IsNumber(t)
    ensures Size(NumberValue(t)) <= |t|
  {
    var u := Unsigned(t);
    if AllDigits(u) {
      DigitRunWhole(u);
      assert u[..DigitRun(u)] == u;
      DigitsAreUnique(u);
    }
  }

  // ---- strings ------------------------------------------------------------

  lemma {:induction false} HighBytesAreKept(s: Bytes)
    requires forall k :: 0 <= k < |s| ==> s[k] as int >= 0x80
    ensures Escaped(s) == s
  {
    FlatMapIdentity(EscapeByte, s);
  }

  lemma EncodedCharIsShort(c: nat)
    requires c < 0x110000
    ensures |Escaped(Utf8Encode(c))| <= 6
  {
    if c < 0x80 {
      FlatMapSingle(EscapeByte, Utf8Encode(c)[0]);
      assert Utf8Encode(c) == [Utf8Encode(c)[0]];
    } else {
      HighBytesAreKept(Utf8Encode(c));
    }
  }

  lemma EscapeIsLong(s: Bytes)
    requires ReadEscape(s).Some?
    ensures |Escaped(ReadEscape(s).value.0)| + |ReadEscape(s).value.1| <= |s| + 1
  {
    var (c, t) := ReadEscape(s).value;
    if s[0] == 'u' {
      var u := Hex4(s[1..]).value;
      if !(0xd800 <= u < 0xe000) {
        EncodedCharIsShort(u);
      } else {
        var v := Hex4(s[5..][2..]).value;
        EncodedCharIsShort(0x10000 + (u - 0xd800) * 0x400 + (v - 0xdc00));
      }
    } else {
      FlatMapSingle(EscapeByte, c[0]);
      assert c == [c[0]];
    }
  }

  lemma {:induction false} CharsAreLong(s: Bytes)
    requires ReadChars(s).Some?
    ensures |Escaped(ReadChars(s).value.0)| + 1 + |ReadChars(s).value.1| <= |s|
    decreases |s|
  {
    if s[0] != '"' {
      var (c, t) := if s[0] == '\\' then ReadEscape(s[1..]).value else ([s[0]], s[1..]);
      if s[0] == '\\' {
        EscapeIsLong(s[1..]);
      } else {
        FlatMapSingle(EscapeByte, s[0]);
      }
      CharsAreLong(t);
      FlatMapConcat(EscapeByte, c, ReadChars(t).value.0);
    }
  }

  // ---- values -------------------------------------------------------------

  lemma {:induction false} ValueIsLong(s: Bytes)
    requires ReadValue(s).Some?
    ensures Size(ReadValue(s).value.0) + |ReadValue(s).value.1| <= |s|
    decreases |s|, 0
  {
    var t := SkipSpace(s);
    if t[0] == '"' {
      CharsAreLong(t[1..]);
    } else if t[0] == '[' {
      ItemsAreLong(t[1..], true);
    } else if t[0] == '{' {
      MembersAreLong(t[1..], true);
    } else if t[0] != 'n' && t[0] != 't' && t[0] != 'f' {
      NumberIsLong(t[..NumberRun(t)]);
    }
  }

  lemma {:induction false} ItemsAreLong(s: Bytes, first: bool)
    requires ReadItems(s, first).Some?
    ensures ItemsSize(ReadItems(s, first).value.0, first) + 1 + |ReadItems(s, first).value.1| <= |s|
    decreases |s|, 1
  {
    var t := SkipSpace(s);
    if !(t != [] && t[0] == ']') {
      var u := SkipComma(t, first).value;
      ValueIsLong(u);
      var (v, w) := ReadValue(u).value;
      ItemsAreLong(w, false);
      var vs := ReadItems(w, false).value.0;
      assert ([v] + vs)[1..] == vs;
    }
  }

  lemma {:induction false} MemberIsLong(s: Bytes)
    requires ReadMember(s).Some?
    ensures MemberSize(ReadMember(s).value.0) + |ReadMember(s).value.1| <= |s|
    decreases |s|, 0
  {
    var t := SkipSpace(s);
    CharsAreLong(t[1..]);
    var u := ReadChars(t[1..]).value.1;
    ValueIsLong(SkipSpace(u)[1..]);
  }

  lemma {:induction false} MembersAreLong(s: Bytes, first: bool)
    requires ReadMembers(s, first).Some?
    ensures MembersSize(ReadMembers(s, first).value.0, first) + 1 + |ReadMembers(s, first).value.1| <= |s|
    decreases |s|, 1
  {
    var t := SkipSpace(s);
    if !(t != [] && t[0] == '}') {
      var u := SkipComma(t, first).value;
      MemberIsLong(u);
      var (m, w) := ReadMember(u).value;
      MembersAreLong(w, false);
      var ms := ReadMembers(w, false).value.0;
      assert ([m] + ms)[1..] == ms;
    }
  }

  // ---- the printed text is the shortest -----------------------------------

  // Every float token has a fraction or an exponent.
  predicate FloatsAreReal(v: Value)
    decreases v
  {
    match v
    case FloatValue(Finite(t)) => NumberValue(t).JReal?
    case ListValue(items) => forall x <- items :: FloatsAreReal(x)
    case TupleValue(items) => forall x <- items :: FloatsAreReal(x)
    case DictValue(es) => forall e <- es :: EntryFloatsAreReal(e)
    case _ => true
  }

  predicate EntryFloatsAreReal(e: DictEntry)
    decreases e
  {
    FloatsAreReal(e.value)
  }

  lemma {:induction false} EncodedSize(v: Value, limit: nat)
    requires Encoded(v, limit).Some? && FloatsAreReal(v)
    ensures |Encoded(v, limit).value| == Size(ToJson(v))
    decreases v
  {
    match v
    case ListValue(items) => ItemsEncodedSize(items, true, limit);
    case TupleValue(items) => ItemsEncodedSize(items, true, limit);
    case DictValue(es) => EntriesEncodedSize(es, true, limit);
    case _ =>
  }

  lemma {:induction false} ItemsEncodedSize(items: seq<Value>, first: bool, limit: nat)
    requires EncodedItems(items, first, limit).Some? && forall x <- items :: FloatsAreReal(x)
    ensures |EncodedItems(items, first, limit).value| == ItemsSize(ItemsToJson(items), first)
    decreases items
  {
    if items != [] {
      EncodedSize(items[0], limit);
      ItemsEncodedSize(items[1..], false, limit);
      assert ItemsToJson(items)[1..] == ItemsToJson(items[1..]);
    }
  }

  lemma {:induction false} EntryEncodedSize(e: DictEntry, limit: nat)
    requires EncodedEntry(e, limit).Some? && EntryFloatsAreReal(e)
    ensures |EncodedEntry(e, limit).value| == MemberSize(EntryToJson(e))
    decreases e
  {
    KeyTextIsKeyOf(e.key, limit);
    EncodedSize(e.value, limit);
  }

  lemma {:induction false} EntriesEncodedSize(es: seq<DictEntry>, first: bool, limit: nat)
    requires EncodedEntries(es, first, limit).Some? && forall e <- es :: EntryFloatsAreReal(e)
    ensures |EncodedEntries(es, first, limit).value| == MembersSize(EntriesToJson(es), first)
    decreases es
  {
    if es != [] {
      EntryEncodedSize(es[0], limit);
      EntriesEncodedSize(es[1..], false, limit);
      assert EntriesToJson(es)[1..] == EntriesToJson(es[1..]);
    }
  }

  // Any JSON text for the same value is at least as long: the printer writes no
  // white space and escapes nothing that may stand as it is.
  lemma PrintedIsShortest(v: Value, limit: nat, t: Bytes)
    requires Encoded(v, limit).Some? && FloatsAreReal(v)
    requires ReadText(t) == Some(ToJson(v))
    ensures |Encoded(v, limit).value| <= |t|
  {
    EncodedSize(v, limit);
    ValueIsLong(t);
  }

  lemma HexIsLower(n: nat)
    requires n < 16
    ensures '0' <= HEX[n] <= '9' || 'a' <= HEX[n] <= 'f'
  {
  }

  // Of the two ways to write a hexadecimal digit the printer takes lower case.
  lemma EscapesAreLower(b: Byte)
    requires NeedsEscape(b)
    ensures forall k :: 0 <= k < |EscapeByte(b)| ==> !('A' <= EscapeByte(b)[k] <= 'Z')
  {
    if b as int < 0x20 {
      HexIsLower(b as int / 16);
      HexIsLower(b as int % 16);
    }
  }

  // ---- values with the same text ------------------------------------------

  // The value whose text a key is coerced to; a float key keeps its own text.
  function KeyValue(k: Key): Value {
    match k
    case NoneKey => NoneValue
    case BoolKey(b) => BoolValue(b)
    case IntKey(i) => IntValue(i)
    case _ => OtherValue
  }

  // A key of another type reads as the text of its own value.
  lemma KeyIsValueText(k: Key, limit: nat)
    requires KeyText(k, limit).Some? && !k.StrKey? && !k.FloatKey?
    ensures KeyText(k, limit) == Encoded(KeyValue(k), limit)
  {
  }

  // The plain form: tuples become lists, NaN and the infinities null, and every
  // accepted key a string.
  function Plain(v: Value, limit: nat): Value
    decreases v
  {
    match v
    case FloatValue(NonFinite) => NoneValue
    case ListValue(items) => ListValue(PlainItems(items, limit))
    case TupleValue(items) => ListValue(PlainItems(items, limit))
    case DictValue(es) => DictValue(PlainEntries(es, limit))
    case _ => v
  }

  function PlainItems(items: seq<Value>, limit: nat): seq<Value>
    decreases items
  {
    if items == [] then [] else [Plain(items[0], limit)] + PlainItems(items[1..], limit)
  }

  function PlainKey(k: Key, limit: nat): Key {
    if k.FloatKey? then StrKey(Utf8(k.repr))
    else
      var t := Encoded(KeyValue(k), limit);
      if t.Some? then StrKey(Utf8(t.value)) else k
  }

  function PlainEntry(e: DictEntry, limit: nat): DictEntry
    decreases e
  {
    DictEntry(PlainKey(e.key, limit), Plain(e.value, limit))
  }

  function PlainEntries(es: seq<DictEntry>, limit: nat): seq<DictEntry>
    decreases es
  {
    if es == [] then [] else [PlainEntry(es[0], limit)] + PlainEntries(es[1..], limit)
  }

  // Whatever can be printed has the text of its plain form.
  lemma {:induction false} PlainHasSameText(v: Value, limit: nat)
    requires Encoded(v, limit).Some?
    ensures Encoded(Plain(v, limit), limit) == Encoded(v, limit)
    decreases v
  {
    match v
    case ListValue(items) => PlainItemsHaveSameText(items, true, limit);
    case TupleValue(items) => PlainItemsHaveSameText(items, true, limit);
    case DictValue(es) => PlainEntriesHaveSameText(es, true, limit);
    case _ =>
  }

  lemma {:induction false} PlainItemsHaveSameText(items: seq<Value>, first: bool, limit: nat)
    requires EncodedItems(items, first, limit).Some?
    ensures EncodedItems(PlainItems(items, limit), first, limit) == EncodedItems(items, first, limit)
    decreases items
  {
    if items != [] {
      PlainHasSameText(items[0], limit);
      PlainItemsHaveSameText(items[1..], false, limit);
      assert PlainItems(items, limit)[1..] == PlainItems(items[1..], limit);
    }
  }

  lemma {:induction false} PlainEntryHasSameText(e: DictEntry, limit: nat)
    requires EncodedEntry(e, limit).Some?
    ensures EncodedEntry(PlainEntry(e, limit), limit) == EncodedEntry(e, limit)
    decreases e
  {
    PlainHasSameText(e.value, limit);
    if !e.key.StrKey? && !e.key.FloatKey? {
      KeyIsValueText(e.key, limit);
    }
  }

  lemma {:induction false} PlainEntriesHaveSameText(es: seq<DictEntry>, first: bool, limit: nat)
    requires EncodedEntries(es, first, limit).Some?
    ensures EncodedEntries(PlainEntries(es, limit), first, limit) == EncodedEntries(es, first, limit)
    decreases es
  {
    if es != [] {
      PlainEntryHasSameText(es[0], limit);
      PlainEntriesHaveSameText(es[1..], false, limit);
      assert PlainEntries(es, limit)[1..] == PlainEntries(es[1..], limit);
    }
  }
}
