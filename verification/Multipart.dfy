// _parse_multipart of python/hyperfastapi/_routing.py.
module Multipart {
  import opened ByteStrings
  import opened Sequences
  import opened Wrappers

  // One value of the form dictionary.  A text field's bytes are decoded later.
  datatype Field =
    | Text(raw: Bytes)
    | Upload(filename: Bytes, contentType: Bytes, content: Bytes)

  type Form = map<Bytes, seq<Field>>

  const CRLF: Bytes := "\r\n"
  const LF: Bytes := "\n"
  const BLANK_LINE: Bytes := "\r\n\r\n"
  const BOUNDARY_KEY: Bytes := "boundary="
  const NAME_KEY: Bytes := "name=\""
  const FILENAME_KEY: Bytes := "filename=\""
  const DISPOSITION: Bytes := "content-disposition"
  const CONTENT_TYPE: Bytes := "content-type"
  const OCTET_STREAM: Bytes := "application/octet-stream"

  // ---- byte-string library functions --------------------------------------

  // `s.find(pat)`: the first occurrence.
  function Find(s: Bytes, pat: Bytes): (r: Option<nat>)
    requires pat != []
    ensures r.Some? ==> r.value + |pat| <= |s|
  {
    if pat <= s then Some(0)
    else if s == [] then None
    else
      match Find(s[1..], pat)
      case None => None
      case Some(i) => Some(i + 1)
  }

  predicate Occurs(pat: Bytes, s: Bytes)
    requires pat != []
  {
    Find(s, pat).Some?
  }

  // `s.split(sep)`
  function SplitBy(s: Bytes, sep: Bytes): (r: seq<Bytes>)
    requires sep != []
    ensures r != []
    decreases |s|
  {
    match Find(s, sep)
    case None => [s]
    case Some(i) => [s[..i]] + SplitBy(s[i + |sep|..], sep)
  }

  predicate EndsWith(s: Bytes, suffix: Bytes) {
    |suffix| <= |s| && s[|s| - |suffix|..] == suffix
  }

  // White space of Latin-1 text, as `str.strip` sees it.
  predicate IsBlank(b: Byte) {
    9 <= b as int <= 13 || 28 <= b as int <= 32 || b as int == 0x85 || b as int == 0xa0
  }

  function StripLeft(s: Bytes): (r: Bytes)
    ensures |r| <= |s|
  {
    if s != [] && IsBlank(s[0]) then StripLeft(s[1..]) else s
  }

  function StripRight(s: Bytes): Bytes {
    if s != [] && IsBlank(s[|s| - 1]) then StripRight(s[..|s| - 1]) else s
  }

  function Strip(s: Bytes): Bytes {
    StripRight(StripLeft(s))
  }

  // `lower` on Latin-1 text.
  function LowerByte(b: Byte): Byte {
    var c := b as int;
    if 65 <= c <= 90 || (0xc0 <= c <= 0xde && c != 0xd7) then (c + 32) as char else b
  }

  function Lower(s: Bytes): Bytes {
    seq(|s|, i requires 0 <= i < |s| => LowerByte(s[i]))
  }

  // ---- the boundary -------------------------------------------------------

  function UpTo(s: Bytes, b: Byte): (r: Bytes)
    ensures r <= s && b !in r
    ensures r == s || s[|r|] == b
  {
    if s == [] || s[0] == b then [] else [s[0]] + UpTo(s[1..], b)
  }

  // re.search(r"boundary=(.+)"): the rest of the line, if it is not empty.
  function BoundaryText(ct: Bytes): Option<Bytes>
    decreases |ct|
  {
    match Find(ct, BOUNDARY_KEY)
    case None => None
    case Some(i) =>
      var rest := UpTo(ct[i + 9..], '\n');
      if rest == [] then BoundaryText(ct[i + 1..]) else Some(rest)
  }

  function Unquoted(b: Bytes): Bytes {
    if "\"" <= b && EndsWith(b, "\"") then
      if |b| == 1 then [] else b[1..|b| - 1]
    else b
  }

  function BoundaryOf(ct: Bytes): Option<Bytes> {
    match BoundaryText(ct)
    case None => None
    case Some(t) => Some(Unquoted(Strip(t)))
  }

  // ---- one part -----------------------------------------------------------

  function DropLeadingBreak(p: Bytes): Bytes {
    if CRLF <= p then p[2..] else if LF <= p then p[1..] else p
  }

  function DropTrailingBreak(p: Bytes): Bytes {
    if EndsWith(p, CRLF) then p[..|p| - 2]
    else if EndsWith(p, LF) then p[..|p| - 1]
    else p
  }

  // Header block and content, around the first blank line.
  function Sections(p: Bytes): Option<(Bytes, Bytes)> {
    match Find(p, BLANK_LINE)
    case Some(i) => Some((p[..i], p[i + 4..]))
    case None =>
      match Find(p, "\n\n")
      case Some(i) => Some((p[..i], p[i + 2..]))
      case None => None
  }

  function Lines(block: Bytes): seq<Bytes> {
    SplitBy(block, if Occurs(CRLF, block) then CRLF else LF)
  }

  // A later header replaces an earlier one of the same name.
  function AddHeader(m: map<Bytes, Bytes>, line: Bytes): map<Bytes, Bytes> {
    match Find(line, ":")
    case None => m
    case Some(i) => m[Lower(Strip(line[..i])) := Strip(line[i + 1..])]
  }

  function Headers(lines: seq<Bytes>): map<Bytes, Bytes> {
    if lines == [] then map[]
    else AddHeader(Headers(lines[..|lines| - 1]), lines[|lines| - 1])
  }

  function Get(m: map<Bytes, Bytes>, key: Bytes, default: Bytes): Bytes {
    if key in m then m[key] else default
  }

  // re.search of a prefix ending in a quotation mark, then ([^"]*)".  When the
  // leftmost prefix has no closing mark, no later prefix exists.
  function QuotedAfter(s: Bytes, prefix: Bytes): Option<Bytes>
    requires prefix != []
  {
    match Find(s, prefix)
    case None => None
    case Some(i) =>
      var rest := s[i + |prefix|..];
      var value := UpTo(rest, '"');
      if value == rest then None else Some(value)
  }

  function FieldFrom(headers: map<Bytes, Bytes>, content: Bytes): Option<(Bytes, Field)> {
    var disposition := Get(headers, DISPOSITION, "");
    match QuotedAfter(disposition, NAME_KEY)
    case None => None
    case Some(name) =>
      match QuotedAfter(disposition, FILENAME_KEY)
      case Some(filename) =>
        Some((name, Upload(filename, Get(headers, CONTENT_TYPE, OCTET_STREAM), content)))
      case None => Some((name, Text(content)))
  }

  function ParsePart(part: Bytes): Option<(Bytes, Field)> {
    match Sections(DropTrailingBreak(DropLeadingBreak(part)))
    case None => None
    case Some((block, content)) => FieldFrom(Headers(Lines(block)), content)
  }

  // ---- the whole body -----------------------------------------------------

  // `out.setdefault(name, []).append(field)`
  function AddField(m: Form, name: Bytes, field: Field): Form {
    m[name := (if name in m then m[name] else []) + [field]]
  }

  function Group(entries: seq<(Bytes, Field)>): Form {
    if entries == [] then map[]
    else
      var (name, field) := entries[|entries| - 1];
      AddField(Group(entries[..|entries| - 1]), name, field)
  }

  lemma GroupStep(entries: seq<(Bytes, Field)>, e: (Bytes, Field))
    ensures Group(entries + [e]) == AddField(Group(entries), e.0, e.1)
  {
    assert (entries + [e])[..|entries|] == entries;
  }

  // The parts that parse, in order; the others are skipped.
  function ParseParts(parts: seq<Bytes>): seq<(Bytes, Field)> {
    FilterMap(ParsePart, parts)
  }

  // parts[1:-1]
  function Middle(parts: seq<Bytes>): seq<Bytes> {
    if |parts| <= 2 then [] else parts[1..|parts| - 1]
  }

  function FormOf(body: Bytes, contentType: Bytes): Form {
    match BoundaryOf(contentType)
    case None => map[]
    case Some(b) => Group(ParseParts(Middle(SplitBy(body, "--" + b))))
  }

  // ---- the parser ---------------------------------------------------------

  method ParseHeaders(block: Bytes) returns (headers: map<Bytes, Bytes>)
    ensures headers == Headers(Lines(block))
  {
    headers := map[];
    var lines := SplitBy(block, if Occurs(CRLF, block) then CRLF else LF);
    for i := 0 to |lines|
      invariant headers == Headers(lines[..i])
    {
      assert lines[..i + 1][..i] == lines[..i];
      var colon := Find(lines[i], ":");
      if colon.Some? {
        var k, v := lines[i][..colon.value], lines[i][colon.value + 1..];
        headers := headers[Lower(Strip(k)) := Strip(v)];
      }
    }
    assert lines[..|lines|] == lines;
  }

  // One line break off each end.
  method DropBreaks(raw: Bytes) returns (part: Bytes)
    ensures part == DropTrailingBreak(DropLeadingBreak(raw))
  {
    part := raw;
    if CRLF <= part {
      part := part[2..];
    } else if LF <= part {
      part := part[1..];
    }
    assert part == DropLeadingBreak(raw);
    if EndsWith(part, CRLF) {
      part := part[..|part| - 2];
    } else if EndsWith(part, LF) {
      part := part[..|part| - 1];
    }
  }

  // The body of the loop over the parts.
  method ParseBodyPart(raw: Bytes) returns (r: Option<(Bytes, Field)>)
    ensures r == ParsePart(raw)
  {
    var part := DropBreaks(raw);
    var sep, sepLen := Find(part, BLANK_LINE), 4;
    if sep.None? {
      sep, sepLen := Find(part, "\n\n"), 2;
    }
    if sep.None? {
      return None;
    }
    var content := part[sep.value + sepLen..];
    var headers := ParseHeaders(part[..sep.value]);
    var disposition := Get(headers, DISPOSITION, "");
    var name := QuotedAfter(disposition, NAME_KEY);
    if name.None? {
      return None;
    }
    var filename := QuotedAfter(disposition, FILENAME_KEY);
    if filename.Some? {
      var fileType := Get(headers, CONTENT_TYPE, OCTET_STREAM);
      return Some((name.value, Upload(filename.value, fileType, content)));
    }
    return Some((name.value, Text(content)));
  }

  method ParseMultipart(body: Bytes, contentType: Bytes) returns (out: Form)
    ensures out == FormOf(body, contentType)
  {
    out := map[];
    var text := BoundaryText(contentType);
    if text.None? {
      return;
    }
    var boundary := Unquoted(Strip(text.value));
    var parts := SplitBy(body, "--" + boundary);
    var middle := Middle(parts);
    for n := 0 to |middle|
      invariant out == Group(ParseParts(middle[..n]))
    {
      FilterMapStep(ParsePart, middle, n);
      ghost var before := ParseParts(middle[..n]);
      var r := ParseBodyPart(middle[n]);
      if r.None? {
        assert before + [] == before;
        continue;
      }
      var (name, field) := r.value;
      GroupStep(before, r.value);
      out := out[name := (if name in out then out[name] else []) + [field]];
    }
    assert middle[..|middle|] == middle;
  }
}
