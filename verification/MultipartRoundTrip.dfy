// A printer for multipart/form-data bodies (section 5.1.1 of RFC 2046, with the
// part headers of section 4.2 of RFC 7578), and what parsing its output gives.
module MultipartRoundTrip {
  import opened ByteStrings
  import opened Sequences
  import opened Wrappers
  import opened Multipart

  datatype Part = Part(name: Bytes, filename: Option<Bytes>, contentType: Option<Bytes>, content: Bytes)

  // ---- the printer --------------------------------------------------------

  const HEADER_NAME: Bytes := "Content-Disposition"
  const FORM_DATA: Bytes := "form-data; "
  const TYPE_HEADER_NAME: Bytes := "Content-Type"
  const FILENAME_SEPARATOR: Bytes := "; "

  // name="..." and, for a file, filename="..."
  function Parameters(p: Part): Bytes {
    NAME_KEY + p.name + "\"" +
    if p.filename.Some? then FILENAME_SEPARATOR + FILENAME_KEY + p.filename.value + "\"" else []
  }

  function Disposition(p: Part): Bytes {
    FORM_DATA + Parameters(p)
  }

  function DispositionLine(p: Part): Bytes {
    HEADER_NAME + ":" + (" " + Disposition(p))
  }

  function TypeLine(t: Bytes): Bytes {
    TYPE_HEADER_NAME + ":" + (" " + t)
  }

  function HeaderBlock(p: Part): Bytes {
    DispositionLine(p) + if p.contentType.Some? then CRLF + TypeLine(p.contentType.value) else []
  }

  // Headers, a blank line and the content.
  function BodyPart(p: Part): Bytes {
    HeaderBlock(p) + BLANK_LINE + p.content
  }

  // A body part with the line breaks that belong to the delimiters around it.
  function PrintPart(p: Part): Bytes {
    CRLF + BodyPart(p) + CRLF
  }

  // ---- occurrences --------------------------------------------------------

  predicate At(s: Bytes, k: int, pat: Bytes) {
    0 <= k && k + |pat| <= |s| && s[k..k + |pat|] == pat
  }

  lemma AtIndex(s: Bytes, k: int, pat: Bytes, j: int)
    requires At(s, k, pat) && 0 <= j < |pat|
    ensures s[k + j] == pat[j]
  {
    assert s[k..k + |pat|][j] == s[k + j];
  }

  lemma Mismatch(s: Bytes, k: int, pat: Bytes, j: int)
    requires 0 <= j < |pat| && (0 <= k && k + j < |s| ==> s[k + j] != pat[j])
    ensures !At(s, k, pat)
  {
    if At(s, k, pat) {
      AtIndex(s, k, pat, j);
      assert false;
    }
  }

  lemma AtTail(s: Bytes, k: int, pat: Bytes)
    requires s != [] && k > 0
    ensures At(s, k, pat) <==> At(s[1..], k - 1, pat)
  {
    if k + |pat| <= |s| {
      assert s[1..][k - 1..k - 1 + |pat|] == s[k..k + |pat|];
    }
  }

  lemma AtStart(s: Bytes, pat: Bytes)
    ensures At(s, 0, pat) <==> pat <= s
  {
  }

  lemma {:induction false} FindIs(s: Bytes, pat: Bytes, i: nat)
    requires pat != [] && At(s, i, pat)
    requires forall k :: 0 <= k < i ==> !At(s, k, pat)
    ensures Find(s, pat) == Some(i)
  {
    AtStart(s, pat);
    if i > 0 {
      forall k | 0 <= k < i
        ensures At(s, k + 1, pat) <==> At(s[1..], k, pat)
      {
        AtTail(s, k + 1, pat);
      }
      assert At(s[1..], i - 1, pat);
      FindIs(s[1..], pat, i - 1);
    }
  }

  lemma {:induction false} FindGives(s: Bytes, pat: Bytes)
    requires pat != []
    ensures match Find(s, pat)
            case Some(i) => At(s, i, pat) && forall k :: 0 <= k < i ==> !At(s, k, pat)
            case None => forall k :: !At(s, k, pat)
  {
    AtStart(s, pat);
    if !(pat <= s) && s != [] {
      FindGives(s[1..], pat);
      forall k | k > 0
        ensures At(s, k, pat) <==> At(s[1..], k - 1, pat)
      {
        AtTail(s, k, pat);
      }
    }
  }

  // The first occurrence starts at the first byte that can start one.
  lemma FindByFirstByte(a: Bytes, pat: Bytes, b: Bytes)
    requires pat != [] && pat[0] !in a
    ensures Find(a + pat + b, pat) == Some(|a|)
  {
    var s := a + pat + b;
    assert s[|a|..|a| + |pat|] == pat;
    forall k | 0 <= k < |a|
      ensures !At(s, k, pat)
    {
      assert s[k] == a[k] && a[k] in a;
      Mismatch(s, k, pat, 0);
    }
    FindIs(s, pat, |a|);
  }

  lemma FindAbsentByte(s: Bytes, pat: Bytes)
    requires pat != [] && pat[0] !in s
    ensures Find(s, pat).None?
  {
    FindGives(s, pat);
    if Find(s, pat).Some? {
      AtIndex(s, Find(s, pat).value, pat, 0);
    }
  }

  lemma {:induction false} UpToIs(a: Bytes, b: Byte, rest: Bytes)
    requires b !in a
    ensures UpTo(a + [b] + rest, b) == a
  {
    var s := a + [b] + rest;
    if a == [] {
      assert s[0] == b;
    } else {
      UpToIs(a[1..], b, rest);
      assert s[1..] == a[1..] + [b] + rest;
      assert [a[0]] + a[1..] == a;
    }
  }

  // ---- parameters of the disposition --------------------------------------

  lemma QuotedIs(s: Bytes, key: Bytes, value: Bytes, rest: Bytes, i: nat)
    requires key != [] && Find(s, key) == Some(i)
    requires s[i + |key|..] == value + "\"" + rest && '"' !in value
    ensures QuotedAfter(s, key) == Some(value)
  {
    UpToIs(value, '"', rest);
  }

  lemma NameIsRead(p: Part)
    requires '"' !in p.name
    ensures QuotedAfter(Disposition(p), NAME_KEY) == Some(p.name)
  {
    var d := Disposition(p);
    var rest := if p.filename.Some? then FILENAME_SEPARATOR + FILENAME_KEY + p.filename.value + "\"" else [];
    var tail := p.name + "\"" + rest;
    assert d == FORM_DATA + NAME_KEY + tail;
    FindByFirstByte(FORM_DATA, NAME_KEY, tail);
    assert d[|FORM_DATA| + |NAME_KEY|..] == tail;
    QuotedIs(d, NAME_KEY, p.name, rest, |FORM_DATA|);
  }

  const FILENAME_EQUALS: Bytes := "filename="

  // An occurrence of filename=" ends at a quotation mark and holds no other.
  lemma FilenameAt(d: Bytes, k: int)
    ensures At(d, k, FILENAME_KEY) <==>
      0 <= k && k + 10 <= |d| && d[k + 9] == '"' && d[k..k + 9] == FILENAME_EQUALS
  {
    assert FILENAME_KEY == FILENAME_EQUALS + "\"";
    if 0 <= k && k + 10 <= |d| {
      assert d[k..k + 10] == d[k..k + 9] + [d[k + 9]];
      assert d[k..k + 10][..9] == d[k..k + 9];
    }
  }

  // Up to the mark that closes the name, filename=" occurs only where the name
  // ends with it.
  lemma FilenameInName(name: Bytes, rest: Bytes, k: int)
    requires '"' !in name
    requires k + 10 <= |FORM_DATA + NAME_KEY + name| + 1
    ensures At(FORM_DATA + NAME_KEY + name + "\"" + rest, k, FILENAME_KEY) <==>
      EndsWith(name, FILENAME_EQUALS) && k == |FORM_DATA + NAME_KEY + name| - 9
  {
    var head := FORM_DATA + NAME_KEY;
    var d := head + name + "\"" + rest;
    var q := 17 + |name|;
    FilenameAt(d, k);
    assert head[16] == '"' && head[7] == 't' && forall j :: 0 <= j < 16 ==> head[j] != '"';
    assert d[16] == '"' && d[7] == 't' && d[q] == '"' && forall j :: 0 <= j < 16 ==> d[j] == head[j];
    assert forall j :: 17 <= j < q ==> d[j] == name[j - 17] && name[j - 17] in name;
    if k == 7 {
      Mismatch(d, k, FILENAME_KEY, 0);
    } else if k + 9 < q {
      assert 0 <= k ==> d[k + 9] != '"';
    } else if |name| >= 9 {
      assert d[k..k + 9] == name[|name| - 9..];
    } else {
      Mismatch(d, k, FILENAME_KEY, 16 - k);
    }
  }

  const CAPTURED_BETWEEN: Bytes := "; filename="

  // The disposition up to and including the mark that closes the name.
  function NamePart(name: Bytes): Bytes {
    FORM_DATA + NAME_KEY + name + "\""
  }

  function FilenamePart(filename: Bytes): Bytes {
    CAPTURED_BETWEEN + "\"" + (filename + "\"")
  }

  lemma DispositionShape(p: Part)
    ensures Disposition(p) ==
      NamePart(p.name) + if p.filename.Some? then FilenamePart(p.filename.value) else []
  {
    assert CAPTURED_BETWEEN + "\"" == FILENAME_SEPARATOR + FILENAME_KEY;
    var rest := if p.filename.Some? then FilenamePart(p.filename.value) else [];
    assert Parameters(p) == NAME_KEY + p.name + "\"" + rest;
  }

  lemma NoFilename(name: Bytes)
    requires '"' !in name
    ensures QuotedAfter(NamePart(name) + [], FILENAME_KEY).None?
  {
    var d := NamePart(name) + [];
    FindGives(d, FILENAME_KEY);
    if Find(d, FILENAME_KEY).Some? {
      var k := Find(d, FILENAME_KEY).value;
      FilenameInName(name, [], k);
      assert d[k + 10..] == [];
    }
  }

  lemma FilenameHidden(name: Bytes, filename: Bytes)
    requires '"' !in name && EndsWith(name, FILENAME_EQUALS)
    ensures QuotedAfter(NamePart(name) + FilenamePart(filename), FILENAME_KEY) == Some(CAPTURED_BETWEEN)
  {
    var rest := FilenamePart(filename);
    var d, q := NamePart(name) + rest, |NamePart(name)|;
    FilenameInName(name, rest, q - 10);
    forall k | 0 <= k < q - 10
      ensures !At(d, k, FILENAME_KEY)
    {
      FilenameInName(name, rest, k);
    }
    FindIs(d, FILENAME_KEY, q - 10);
    assert d[q..] == rest;
    assert d[q - 10 + |FILENAME_KEY|..] == CAPTURED_BETWEEN + "\"" + (filename + "\"");
    QuotedIs(d, FILENAME_KEY, CAPTURED_BETWEEN, filename + "\"", q - 10);
  }

  lemma FilenameFound(name: Bytes, filename: Bytes)
    requires '"' !in name && '"' !in filename && !EndsWith(name, FILENAME_EQUALS)
    ensures QuotedAfter(NamePart(name) + FilenamePart(filename), FILENAME_KEY) == Some(filename)
  {
    var rest := FilenamePart(filename);
    var d, q := NamePart(name) + rest, |NamePart(name)|;
    assert d[q + 2..q + 12] == FILENAME_KEY;
    forall k | 0 <= k < q + 2
      ensures !At(d, k, FILENAME_KEY)
    {
      if k + 10 <= q {
        FilenameInName(name, rest, k);
      } else {
        assert d[k + 9] == CAPTURED_BETWEEN[k + 9 - q];
        Mismatch(d, k, FILENAME_KEY, 9);
      }
    }
    FindIs(d, FILENAME_KEY, q + 2);
    assert d[q + 12..] == filename + "\"" + [];
    QuotedIs(d, FILENAME_KEY, filename, [], q + 2);
  }

  // The file name is read back, unless the name ends with filename= : then the
  // text up to the next quotation mark is taken instead.
  lemma FilenameIsRead(p: Part)
    requires '"' !in p.name && (p.filename.Some? ==> '"' !in p.filename.value)
    ensures QuotedAfter(Disposition(p), FILENAME_KEY) ==
      if p.filename.Some? && EndsWith(p.name, FILENAME_EQUALS) then Some(CAPTURED_BETWEEN) else p.filename
  {
    DispositionShape(p);
    match p.filename
    case None => NoFilename(p.name);
    case Some(f) =>
      if EndsWith(p.name, FILENAME_EQUALS) {
        FilenameHidden(p.name, f);
      } else {
        FilenameFound(p.name, f);
      }
  }

  // ---- the header block ---------------------------------------------------

  // What `strip` leaves of a value printed after a blank.
  lemma StripAfterBlank(v: Bytes)
    ensures Strip(" " + v) == Strip(v)
  {
    assert (" " + v)[1..] == v;
  }

  lemma StripNothing(v: Bytes)
    requires v != [] && !IsBlank(v[0]) && !IsBlank(v[|v| - 1])
    ensures Strip(v) == v
  {
  }

  lemma HeaderIsAdded(m: map<Bytes, Bytes>, key: Bytes, value: Bytes)
    requires ':' !in key
    ensures AddHeader(m, key + ":" + (" " + value)) == m[Lower(Strip(key)) := Strip(value)]
  {
    var line := key + ":" + (" " + value);
    FindByFirstByte(key, ":", " " + value);
    assert line[..|key|] == key && line[|key| + 1..] == " " + value;
    StripAfterBlank(value);
  }

  lemma HeaderNames()
    ensures ':' !in HEADER_NAME && Lower(Strip(HEADER_NAME)) == DISPOSITION
    ensures ':' !in TYPE_HEADER_NAME && Lower(Strip(TYPE_HEADER_NAME)) == CONTENT_TYPE
  {
    StripNothing(HEADER_NAME);
    StripNothing(TYPE_HEADER_NAME);
    assert Lower(HEADER_NAME) == DISPOSITION;
    assert Lower(TYPE_HEADER_NAME) == CONTENT_TYPE;
  }

  predicate OneLine(s: Bytes) {
    '\r' !in s && '\n' !in s
  }

  // Names and file names hold no quotation mark and, like the type, no line
  // break.
  predicate WellFormed(p: Part) {
    OneLine(p.name) && '"' !in p.name &&
    (p.filename.Some? ==> OneLine(p.filename.value) && '"' !in p.filename.value) &&
    (p.contentType.Some? ==> OneLine(p.contentType.value))
  }

  lemma LinesAreSingle(p: Part)
    requires WellFormed(p)
    ensures OneLine(DispositionLine(p))
    ensures p.contentType.Some? ==> OneLine(TypeLine(p.contentType.value))
  {
    DispositionShape(p);
    assert OneLine(HEADER_NAME) && OneLine(FORM_DATA) && OneLine(NAME_KEY) && OneLine(CAPTURED_BETWEEN);
    assert OneLine(NamePart(p.name));
    assert p.filename.Some? ==> OneLine(FilenamePart(p.filename.value));
    assert OneLine(Disposition(p));
    assert OneLine(TYPE_HEADER_NAME);
  }

  lemma SplitOne(l: Bytes, sep: Bytes)
    requires sep != [] && sep[0] !in l
    ensures SplitBy(l, sep) == [l]
  {
    FindAbsentByte(l, sep);
  }

  lemma SplitFirst(l: Bytes, sep: Bytes, rest: Bytes)
    requires sep != [] && Find(l + sep + rest, sep) == Some(|l|)
    ensures SplitBy(l + sep + rest, sep) == [l] + SplitBy(rest, sep)
  {
    var s := l + sep + rest;
    assert s[..|l|] == l && s[|l| + |sep|..] == rest;
  }

  function HeaderLines(p: Part): seq<Bytes> {
    [DispositionLine(p)] + if p.contentType.Some? then [TypeLine(p.contentType.value)] else []
  }

  lemma LinesOfBlock(p: Part)
    requires WellFormed(p)
    ensures Lines(HeaderBlock(p)) == HeaderLines(p)
  {
    var l := DispositionLine(p);
    LinesAreSingle(p);
    match p.contentType
    case None =>
      assert HeaderBlock(p) == l;
      FindAbsentByte(l, CRLF);
      SplitOne(l, LF);
    case Some(t) =>
      assert HeaderBlock(p) == l + CRLF + TypeLine(t);
      FindByFirstByte(l, CRLF, TypeLine(t));
      SplitFirst(l, CRLF, TypeLine(t));
      SplitOne(TypeLine(t), CRLF);
  }

  lemma HeadersOfOne(m: map<Bytes, Bytes>, p: Part)
    ensures AddHeader(m, DispositionLine(p)) == m[DISPOSITION := Disposition(p)]
  {
    HeaderNames();
    HeaderIsAdded(m, HEADER_NAME, Disposition(p));
    DispositionShape(p);
    StripNothing(Disposition(p));
  }

  lemma HeadersOfTwo(m: map<Bytes, Bytes>, t: Bytes)
    ensures AddHeader(m, TypeLine(t)) == m[CONTENT_TYPE := Strip(t)]
  {
    HeaderNames();
    HeaderIsAdded(m, TYPE_HEADER_NAME, t);
  }

  lemma HeadersOfLines(p: Part)
    ensures
      var h := Headers(HeaderLines(p));
      Get(h, DISPOSITION, "") == Disposition(p) &&
      Get(h, CONTENT_TYPE, OCTET_STREAM) ==
        if p.contentType.Some? then Strip(p.contentType.value) else "application/octet-stream"
  {
    var l := DispositionLine(p);
    assert Headers([l][..0]) == map[];
    HeadersOfOne(map[], p);
    assert DISPOSITION[8] != CONTENT_TYPE[8];
    match p.contentType
    case None =>
    case Some(t) =>
      assert [l, TypeLine(t)][..1] == [l];
      HeadersOfTwo(Headers([l]), t);
  }

  lemma HeadersOfBlock(p: Part)
    requires WellFormed(p)
    ensures
      var h := Headers(Lines(HeaderBlock(p)));
      Get(h, DISPOSITION, "") == Disposition(p) &&
      Get(h, CONTENT_TYPE, OCTET_STREAM) ==
        if p.contentType.Some? then Strip(p.contentType.value) else "application/octet-stream"
  {
    LinesOfBlock(p);
    HeadersOfLines(p);
  }

  // ---- one part -----------------------------------------------------------

  lemma SectionsOfPart(p: Part)
    requires WellFormed(p)
    ensures Sections(BodyPart(p)) == Some((HeaderBlock(p), p.content))
  {
    var h, s, l := HeaderBlock(p), BodyPart(p), DispositionLine(p);
    LinesAreSingle(p);
    assert s[|h|..|h| + 4] == BLANK_LINE;
    forall k | 0 <= k < |h|
      ensures !At(s, k, BLANK_LINE)
    {
      assert s[k] == h[k];
      if k < |l| {
        assert h[k] == l[k] && l[k] in l;
        Mismatch(s, k, BLANK_LINE, 0);
      } else if k == |l| {
        assert s[k + 2] == h[k + 2] == TypeLine(p.contentType.value)[0] == 'C';
        Mismatch(s, k, BLANK_LINE, 2);
      } else if k == |l| + 1 {
        assert h[k] == '\n';
        Mismatch(s, k, BLANK_LINE, 0);
      } else {
        var t := TypeLine(p.contentType.value);
        assert h[k] == t[k - |l| - 2] && h[k] in t;
        Mismatch(s, k, BLANK_LINE, 0);
      }
    }
    FindIs(s, BLANK_LINE, |h|);
    assert s[..|h|] == h && s[|h| + 4..] == p.content;
  }

  lemma BreaksDropped(x: Bytes)
    ensures DropTrailingBreak(DropLeadingBreak(CRLF + x + CRLF)) == x
  {
    var s := CRLF + x + CRLF;
    assert s[..2] == CRLF && s[2..] == x + CRLF;
    assert (x + CRLF)[|x|..] == CRLF && (x + CRLF)[..|x|] == x;
  }

  // The field a part stands for.
  function FieldOf(p: Part): Field {
    match p.filename
    case None => Text(p.content)
    case Some(f) =>
      Upload(f, if p.contentType.Some? then Strip(p.contentType.value) else "application/octet-stream", p.content)
  }

  // The name and the exact content come back, whatever the content holds.  The
  // file name does iff the name does not end with filename=
  lemma PartRoundTripIff(p: Part)
    requires WellFormed(p)
    ensures
      var r := ParsePart(PrintPart(p));
      r.Some? && r.value.0 == p.name &&
      (p.filename.None? ==> r.value.1 == Text(p.content)) &&
      (p.filename.Some? ==> r.value.1.Upload? && r.value.1.content == p.content) &&
      (r.value.1 == FieldOf(p) <==>
        p.filename.None? || !EndsWith(p.name, FILENAME_EQUALS) || p.filename.value == CAPTURED_BETWEEN)
  {
    BreaksDropped(BodyPart(p));
    SectionsOfPart(p);
    HeadersOfBlock(p);
    NameIsRead(p);
    FilenameIsRead(p);
  }

  // ---- the whole body -----------------------------------------------------

  // *encapsulation close-delimiter epilogue
  function Encapsulated(pieces: seq<Bytes>, dash: Bytes, last: Bytes): Bytes
    decreases |pieces|
  {
    if pieces == [] then dash + last
    else dash + (pieces[0] + Encapsulated(pieces[1..], dash, last))
  }

  function Printed(parts: seq<Part>): (r: seq<Bytes>)
    ensures |r| == |parts| && forall i :: 0 <= i < |parts| ==> r[i] == PrintPart(parts[i])
  {
    seq(|parts|, i requires 0 <= i < |parts| => PrintPart(parts[i]))
  }

  function PrintBody(parts: seq<Part>, boundary: Bytes, preamble: Bytes, epilogue: Bytes): Bytes {
    preamble + Encapsulated(Printed(parts), "--" + boundary, "--" + epilogue)
  }

  // A piece that holds no delimiter and ends where a line ends.
  predicate Clean(x: Bytes, dash: Bytes)
    requires dash != []
  {
    !Occurs(dash, x) && (x == [] || x[|x| - 1] == '\n')
  }

  lemma CleanSplits(x: Bytes, dash: Bytes, rest: Bytes)
    requires dash != [] && OneLine(dash) && Clean(x, dash)
    ensures Find(x + dash + rest, dash) == Some(|x|)
  {
    var s := x + dash + rest;
    FindGives(x, dash);
    assert s[|x|..|x| + |dash|] == dash;
    forall k | 0 <= k < |x|
      ensures !At(s, k, dash)
    {
      if k + |dash| <= |x| {
        assert s[k..k + |dash|] == x[k..k + |dash|];
        assert !At(x, k, dash);
      } else {
        assert dash[|x| - 1 - k] in dash;
        Mismatch(s, k, dash, |x| - 1 - k);
      }
    }
    FindIs(s, dash, |x|);
  }

  lemma SplitClean(x: Bytes, dash: Bytes, rest: Bytes)
    requires dash != [] && OneLine(dash) && Clean(x, dash)
    ensures SplitBy(x + (dash + rest), dash) == [x] + SplitBy(rest, dash)
  {
    Assoc(x, dash, rest);
    CleanSplits(x, dash, rest);
    SplitFirst(x, dash, rest);
  }

  predicate AllClean(pieces: seq<Bytes>, dash: Bytes)
    requires dash != []
    decreases |pieces|
  {
    pieces == [] || (Clean(pieces[0], dash) && AllClean(pieces[1..], dash))
  }

  lemma {:induction false} SplitBody(x: Bytes, pieces: seq<Bytes>, dash: Bytes, last: Bytes)
    requires dash != [] && OneLine(dash) && Clean(x, dash) && AllClean(pieces, dash)
    requires !Occurs(dash, last)
    ensures SplitBy(x + Encapsulated(pieces, dash, last), dash) == [x] + (pieces + [last])
    decreases |pieces|
  {
    if pieces == [] {
      SplitClean(x, dash, last);
    } else {
      var rest := pieces[0] + Encapsulated(pieces[1..], dash, last);
      SplitClean(x, dash, rest);
      SplitBody(pieces[0], pieces[1..], dash, last);
      HeadTail(pieces, [last]);
    }
  }

  // The (name, field) pairs the parts stand for.
  function Entries(parts: seq<Part>): (r: seq<(Bytes, Field)>)
    ensures |r| == |parts| && forall i :: 0 <= i < |parts| ==> r[i] == (parts[i].name, FieldOf(parts[i]))
  {
    seq(|parts|, i requires 0 <= i < |parts| => (parts[i].name, FieldOf(parts[i])))
  }

  // The fields of one name, in order.
  function FieldsNamed(entries: seq<(Bytes, Field)>, name: Bytes): seq<Field>
    decreases |entries|
  {
    if entries == [] then []
    else
      var (n, f) := entries[|entries| - 1];
      FieldsNamed(entries[..|entries| - 1], name) + if n == name then [f] else []
  }

  predicate Named(entries: seq<(Bytes, Field)>, name: Bytes) {
    exists e <- entries :: e.0 == name
  }

  lemma {:induction false} GroupedFields(entries: seq<(Bytes, Field)>, name: Bytes)
    ensures
      var form := Group(entries);
      (name in form <==> Named(entries, name)) &&
      (name in form ==> form[name] == FieldsNamed(entries, name)) &&
      (name !in form ==> FieldsNamed(entries, name) == [])
    decreases |entries|
  {
    if entries != [] {
      var n := |entries| - 1;
      GroupedFields(entries[..n], name);
      assert entries == entries[..n] + [entries[n]];
    }
  }

  predicate Readable(p: Part) {
    WellFormed(p) && (p.filename.Some? ==> !EndsWith(p.name, FILENAME_EQUALS))
  }

  lemma {:induction false} PrintedClean(parts: seq<Part>, dash: Bytes)
    requires dash != [] && forall p <- parts :: !Occurs(dash, PrintPart(p))
    ensures AllClean(Printed(parts), dash)
  {
    if parts != [] {
      assert parts[0] in parts;
      PrintedClean(parts[1..], dash);
      assert Printed(parts)[1..] == Printed(parts[1..]);
    }
  }

  lemma PartRoundTrip(p: Part)
    requires Readable(p)
    ensures ParsePart(PrintPart(p)) == Some((p.name, FieldOf(p)))
  {
    PartRoundTripIff(p);
    var r := ParsePart(PrintPart(p)).value;
    assert r == (r.0, r.1);
  }

  lemma PrintedParses(parts: seq<Part>)
    requires forall p <- parts :: Readable(p)
    ensures ParseParts(Printed(parts)) == Entries(parts)
  {
    forall i | 0 <= i < |parts|
      ensures ParsePart(Printed(parts)[i]) == Some(Entries(parts)[i])
    {
      assert parts[i] in parts;
      PartRoundTrip(parts[i]);
    }
    FilterMapAll(ParsePart, Printed(parts), Entries(parts));
  }

  // The names of the form are those of the parts, and each name has its parts'
  // fields in order, with none lost: file names, types and exact contents.
  lemma BodyRoundTrip(parts: seq<Part>, boundary: Bytes, preamble: Bytes, epilogue: Bytes, contentType: Bytes, name: Bytes)
    requires BoundaryOf(contentType) == Some(boundary) && OneLine(boundary)
    requires forall p <- parts :: Readable(p) && !Occurs("--" + boundary, PrintPart(p))
    requires Clean(preamble, "--" + boundary) && !Occurs("--" + boundary, "--" + epilogue)
    ensures
      var form := FormOf(PrintBody(parts, boundary, preamble, epilogue), contentType);
      (name in form <==> exists p <- parts :: p.name == name) &&
      (name in form ==> form[name] == FieldsNamed(Entries(parts), name))
  {
    var dash, pieces, last := "--" + boundary, Printed(parts), "--" + epilogue;
    PrintedClean(parts, dash);
    SplitBody(preamble, pieces, dash, last);
    MiddleOf(preamble, pieces, last);
    PrintedParses(parts);
    GroupedFields(Entries(parts), name);
    NamedEntries(parts, name);
  }

  lemma MiddleOf(first: Bytes, pieces: seq<Bytes>, last: Bytes)
    ensures Middle([first] + (pieces + [last])) == pieces
  {
  }

  lemma NamedEntries(parts: seq<Part>, name: Bytes)
    ensures Named(Entries(parts), name) <==> exists p <- parts :: p.name == name
  {
    if Named(Entries(parts), name) {
      var i :| 0 <= i < |parts| && Entries(parts)[i].0 == name;
      assert parts[i] in parts;
    }
    forall i | 0 <= i < |parts| && parts[i].name == name
      ensures Named(Entries(parts), name)
    {
      assert Entries(parts)[i] in Entries(parts);
    }
  }

  // ---- the content type ---------------------------------------------------

  const MULTIPART: Bytes := "multipart/form-data; "

  // A boundary sent between quotation marks is found as it is.
  lemma QuotedBoundaryIsRead(boundary: Bytes)
    requires '\n' !in boundary
    ensures BoundaryOf(MULTIPART + BOUNDARY_KEY + ("\"" + boundary + "\"")) == Some(boundary)
  {
    var quoted := "\"" + boundary + "\"";
    var ct := MULTIPART + BOUNDARY_KEY + quoted;
    FindByFirstByte(MULTIPART, BOUNDARY_KEY, quoted);
    assert ct[|MULTIPART| + 9..] == quoted;
    UpToAll(quoted, '\n');
    StripNothing(quoted);
    assert quoted[1..|quoted| - 1] == boundary;
  }

  // A bare one too, if it has no white space around it and does not itself
  // look quoted.
  lemma BareBoundaryIsRead(boundary: Bytes)
    requires boundary != [] && '\n' !in boundary && boundary[0] != '"'
    requires !IsBlank(boundary[0]) && !IsBlank(boundary[|boundary| - 1])
    ensures BoundaryOf(MULTIPART + BOUNDARY_KEY + boundary) == Some(boundary)
  {
    var ct := MULTIPART + BOUNDARY_KEY + boundary;
    FindByFirstByte(MULTIPART, BOUNDARY_KEY, boundary);
    assert ct[|MULTIPART| + 9..] == boundary;
    UpToAll(boundary, '\n');
    StripNothing(boundary);
  }

  lemma {:induction false} UpToAll(s: Bytes, b: Byte)
    requires b !in s
    ensures UpTo(s, b) == s
  {
    if s != [] {
      UpToAll(s[1..], b);
      assert [s[0]] + s[1..] == s;
    }
  }
}
