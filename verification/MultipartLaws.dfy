// What the pieces of the multipart parser find, whatever the input: its three
// regular expressions, its header lines, and bodies with bare line feeds.
module MultipartLaws {
  import opened ByteStrings
  import opened Sequences
  import opened Wrappers
  import opened Multipart
  import opened MultipartRoundTrip

  // ---- regular expressions ------------------------------------------------

  // boundary=(.+) can match at i: at least one character of the line is left.
  predicate BoundaryAt(ct: Bytes, i: int) {
    At(ct, i, "boundary=") && i + 9 < |ct| && ct[i + 9] != '\n'
  }

  lemma UpToStops(s: Bytes, b: Byte)
    ensures UpTo(s, b) == [] <==> s == [] || s[0] == b
  {
  }

  // The first match is at i and takes the rest of the line.
  predicate FirstBoundary(ct: Bytes, i: int, t: Bytes) {
    BoundaryAt(ct, i) && (forall j :: 0 <= j < i ==> !BoundaryAt(ct, j)) &&
    t <= ct[i + 9..] && '\n' !in t && (i + 9 + |t| < |ct| ==> ct[i + 9 + |t|] == '\n')
  }

  lemma BoundaryShift(ct: Bytes, n: nat, j: int)
    requires n <= |ct| && j >= n
    ensures BoundaryAt(ct, j) <==> BoundaryAt(ct[n..], j - n)
  {
    if j + 9 <= |ct| {
      assert ct[n..][j - n..j - n + 9] == ct[j..j + 9];
    }
  }

  // What the search gives: the first match, or nothing if there is none.
  ghost predicate BoundaryIs(ct: Bytes, r: Option<Bytes>) {
    match r
    case None => forall i :: !BoundaryAt(ct, i)
    case Some(t) => exists i :: FirstBoundary(ct, i, t)
  }

  lemma BoundaryIsShift(ct: Bytes, n: nat, r: Option<Bytes>)
    requires n <= |ct| && BoundaryIs(ct[n..], r) && forall j :: 0 <= j < n ==> !BoundaryAt(ct, j)
    ensures BoundaryIs(ct, r)
  {
    var d := ct[n..];
    forall j | j >= n
      ensures BoundaryAt(ct, j) <==> BoundaryAt(d, j - n)
    {
      BoundaryShift(ct, n, j);
    }
    if r.Some? {
      var k :| FirstBoundary(d, k, r.value);
      assert ct[n + k + 9..] == d[k + 9..];
      assert FirstBoundary(ct, n + k, r.value);
    }
  }

  lemma BoundaryHere(ct: Bytes, i: nat)
    requires At(ct, i, BOUNDARY_KEY) && forall j :: 0 <= j < i ==> !At(ct, j, BOUNDARY_KEY)
    ensures
      var t := UpTo(ct[i + 9..], '\n');
      (forall j :: 0 <= j < i ==> !BoundaryAt(ct, j)) &&
      if t == [] then !BoundaryAt(ct, i) else FirstBoundary(ct, i, t)
  {
    UpToStops(ct[i + 9..], '\n');
  }

  // One step of the search.
  lemma BoundaryStep(ct: Bytes) returns (i: nat)
    requires Find(ct, BOUNDARY_KEY).Some?
    ensures i < |ct| && forall j :: 0 <= j < i ==> !BoundaryAt(ct, j)
    ensures
      (BoundaryText(ct).Some? && FirstBoundary(ct, i, BoundaryText(ct).value)) ||
      (BoundaryText(ct) == BoundaryText(ct[i + 1..]) && !BoundaryAt(ct, i))
  {
    i := Find(ct, BOUNDARY_KEY).value;
    FindGives(ct, BOUNDARY_KEY);
    BoundaryHere(ct, i);
  }

  lemma {:induction false} BoundaryTextIs(ct: Bytes)
    ensures BoundaryIs(ct, BoundaryText(ct))
    decreases |ct|
  {
    if Find(ct, BOUNDARY_KEY).None? {
      FindGives(ct, BOUNDARY_KEY);
    } else {
      var i := BoundaryStep(ct);
      if BoundaryText(ct) == BoundaryText(ct[i + 1..]) && !BoundaryAt(ct, i) {
        BoundaryTextIs(ct[i + 1..]);
        BoundaryIsShift(ct, i + 1, BoundaryText(ct));
      }
    }
  }

  // prefix([^"]*)" matches at i with the group v.
  predicate QuotedAt(s: Bytes, prefix: Bytes, i: int, v: Bytes) {
    '"' !in v && At(s, i, prefix + v + "\"")
  }

  lemma QuotedAtParts(s: Bytes, prefix: Bytes, i: nat, v: Bytes)
    requires '"' !in v && i + |prefix| + |v| < |s|
    ensures QuotedAt(s, prefix, i, v) <==>
      At(s, i, prefix) && s[i + |prefix|..i + |prefix| + |v|] == v && s[i + |prefix| + |v|] == '"'
  {
    var n := |prefix| + |v|;
    var t := s[i..i + n + 1];
    var u := prefix + v + "\"";
    assert t[..|prefix|] == s[i..i + |prefix|] && t[|prefix|..n] == s[i + |prefix|..i + n] && t[n] == s[i + n];
    assert u[..|prefix|] == prefix && u[|prefix|..n] == v && u[n] == '"';
    assert t == t[..|prefix|] + t[|prefix|..n] + [t[n]];
  }

  // The match is the first possible one.  That the parser looks no further than
  // the first prefix is right because a prefix ends with a quotation mark.
  lemma QuotedAfterIs(s: Bytes, prefix: Bytes)
    requires prefix != [] && prefix[|prefix| - 1] == '"'
    ensures
      match QuotedAfter(s, prefix)
      case None => forall i, v :: !QuotedAt(s, prefix, i, v)
      case Some(v) =>
        exists i :: QuotedAt(s, prefix, i, v) && forall j, u :: 0 <= j < i ==> !QuotedAt(s, prefix, j, u)
  {
    FindGives(s, prefix);
    match Find(s, prefix)
    case None =>
      forall i, v
        ensures !QuotedAt(s, prefix, i, v)
      {
        QuotedHasPrefix(s, prefix, i, v);
      }
    case Some(i) =>
      var rest := s[i + |prefix|..];
      var value := UpTo(rest, '"');
      forall j, u | 0 <= j < i
        ensures !QuotedAt(s, prefix, j, u)
      {
        QuotedHasPrefix(s, prefix, j, u);
      }
      if value != rest {
        assert s[i + |prefix|..i + |prefix| + |value|] == rest[..|value|] == value;
        QuotedAtParts(s, prefix, i, value);
        assert QuotedAt(s, prefix, i, value);
      } else {
        assert forall k :: i + |prefix| <= k < |s| ==> s[k] == rest[k - i - |prefix|];
        forall j, u
          ensures !QuotedAt(s, prefix, j, u)
        {
          QuotedHasPrefix(s, prefix, j, u);
        }
      }
  }

  lemma QuotedHasPrefix(s: Bytes, prefix: Bytes, i: int, v: Bytes)
    ensures QuotedAt(s, prefix, i, v) ==>
      At(s, i, prefix) && i + |prefix| + |v| < |s| && s[i + |prefix| + |v|] == '"'
  {
    if QuotedAt(s, prefix, i, v) {
      AtIndex(s, i, prefix + v + "\"", |prefix| + |v|);
      var u := prefix + v + "\"";
      assert s[i..i + |u|][..|prefix|] == s[i..i + |prefix|] && u[..|prefix|] == prefix;
    }
  }

  // Without a blank line of either kind a part has no sections.
  lemma NoSectionsIff(piece: Bytes)
    ensures Sections(piece).None? <==> forall k :: !At(piece, k, "\r\n\r\n") && !At(piece, k, "\n\n")
  {
    FindGives(piece, BLANK_LINE);
    FindGives(piece, "\n\n");
  }

  // And without a name its content belongs to no field.
  lemma NoFieldIff(h: map<Bytes, Bytes>, content: Bytes)
    ensures FieldFrom(h, content).None? <==>
      "content-disposition" !in h || forall i, v :: !QuotedAt(h["content-disposition"], "name=\"", i, v)
  {
    var d := Get(h, DISPOSITION, "");
    QuotedAfterIs(d, NAME_KEY);
    if "content-disposition" !in h {
      assert Find(d, NAME_KEY).None?;
    }
  }

  // ---- header lines -------------------------------------------------------

  // White space of Latin-1 text.
  predicate Blanks(s: Bytes) {
    forall c <- s :: c as int in {9, 10, 11, 12, 13, 28, 29, 30, 31, 32, 0x85, 0xa0}
  }

  lemma {:induction false} StripLeftIs(lead: Bytes, s: Bytes)
    requires Blanks(lead)
    ensures StripLeft(lead + s) == StripLeft(s)
  {
    if lead == [] {
      assert lead + s == s;
    } else {
      assert forall c <- lead[1..] :: c in lead;
      assert lead[0] in lead && (lead + s)[1..] == lead[1..] + s;
      StripLeftIs(lead[1..], s);
    }
  }

  lemma {:induction false} StripRightIs(s: Bytes, trail: Bytes)
    requires Blanks(trail)
    ensures StripRight(s + trail) == StripRight(s)
    decreases |trail|
  {
    if trail == [] {
      assert s + trail == s;
    } else {
      var n := |trail| - 1;
      assert forall c <- trail[..n] :: c in trail;
      assert trail[n] in trail && (s + trail)[..|s + trail| - 1] == s + trail[..n];
      StripRightIs(s, trail[..n]);
    }
  }

  // Exactly the white space around a text goes.
  lemma StripTrims(lead: Bytes, v: Bytes, trail: Bytes)
    requires Blanks(lead) && Blanks(trail)
    requires v != [] ==> !Blanks([v[0]]) && !Blanks([v[|v| - 1]])
    ensures Strip(lead + v + trail) == v
  {
    Assoc(lead, v, trail);
    StripLeftIs(lead, v + trail);
    if v == [] {
      assert v + trail == trail + [];
      StripLeftIs(trail, []);
    } else {
      assert v[0] in [v[0]] && v[|v| - 1] in [v[|v| - 1]];
      StripRightIs(v, trail);
    }
  }

  // The same text but for the case of letters; `key` is in lower case.
  predicate SameName(name: Bytes, key: Bytes) {
    |name| == |key| &&
    forall i :: 0 <= i < |name| ==>
      if 'A' <= name[i] <= 'Z' then key[i] as int == name[i] as int + 32 else key[i] == name[i] && key[i] as int < 0x80
  }

  // The line is no header of this name.
  predicate OtherHeader(line: Bytes, key: Bytes) {
    match Find(line, ":")
    case None => true
    case Some(i) => Lower(Strip(line[..i])) != key
  }

  lemma {:induction false} OthersKeep(lines: seq<Bytes>, after: seq<Bytes>, key: Bytes)
    requires forall l <- after :: OtherHeader(l, key)
    ensures key in Headers(lines) ==>
      key in Headers(lines + after) && Headers(lines + after)[key] == Headers(lines)[key]
    decreases |after|
  {
    if after == [] {
      assert lines + after == lines;
    } else {
      var n := |after| - 1;
      var all := lines + after;
      assert all[..|all| - 1] == lines + after[..n] && all[|all| - 1] == after[n] && after[n] in after;
      OthersKeep(lines, after[..n], key);
    }
  }

  // The last line of a name gives its value, whatever the case of the name and
  // the white space around name and value.
  lemma HeaderIs(before: seq<Bytes>, after: seq<Bytes>, lead: Bytes, name: Bytes, trail: Bytes, value: Bytes, key: Bytes)
    requires Blanks(lead) && Blanks(trail) && ':' !in name && SameName(name, key)
    requires name != [] ==> !Blanks([name[0]]) && !Blanks([name[|name| - 1]])
    requires forall l <- after :: OtherHeader(l, key)
    ensures
      var h := Headers(before + [lead + name + trail + ":" + value] + after);
      key in h && h[key] == Strip(value)
  {
    var k := lead + name + trail;
    var line := k + ":" + value;
    var lines := before + [line];
    assert ':' !in lead && ':' !in trail && ':' !in k;
    FindByFirstByte(k, ":", value);
    StripTrims(lead, name, trail);
    assert Lower(name) == key;
    assert line[..|k|] == k && line[|k| + 1..] == value;
    assert lines[..|lines| - 1] == before && lines[|lines| - 1] == line;
    OthersKeep(lines, after, key);
  }

  // ---- bare line feeds ----------------------------------------------------

  function LfBlock(p: Part): Bytes {
    DispositionLine(p) + if p.contentType.Some? then LF + TypeLine(p.contentType.value) else []
  }

  function LfPart(p: Part): Bytes {
    LF + (LfBlock(p) + "\n\n" + p.content) + LF
  }

  lemma LfBlockHasNoReturn(p: Part)
    requires WellFormed(p)
    ensures '\r' !in LfBlock(p)
  {
    LinesAreSingle(p);
  }

  lemma LinesOfLfBlock(p: Part)
    requires WellFormed(p)
    ensures Lines(LfBlock(p)) == HeaderLines(p)
  {
    var l := DispositionLine(p);
    LinesAreSingle(p);
    LfBlockHasNoReturn(p);
    FindAbsentByte(LfBlock(p), CRLF);
    match p.contentType
    case None =>
      assert LfBlock(p) == l;
      SplitOne(l, LF);
    case Some(t) =>
      assert LfBlock(p) == l + LF + TypeLine(t);
      FindByFirstByte(l, LF, TypeLine(t));
      SplitFirst(l, LF, TypeLine(t));
      SplitOne(TypeLine(t), LF);
  }

  lemma LfBreaksDropped(x: Bytes)
    requires x != []
    ensures DropTrailingBreak(DropLeadingBreak(LF + x + LF)) == if x[|x| - 1] == '\r' then x[..|x| - 1] else x
  {
    var s := LF + x + LF;
    assert s[0] == '\n' && s[1..] == x + LF;
    var t := x + LF;
    assert t[|t| - 1..] == LF && t[..|t| - 1] == x && t[|t| - 2..] == [x[|x| - 1], '\n'];
    assert t[..|t| - 2] == x[..|x| - 1];
  }

  lemma LfSections(p: Part, content: Bytes)
    requires WellFormed(p)
    ensures
      var r := Sections(LfBlock(p) + "\n\n" + content);
      r.Some? && |r.value.1| <= |content| &&
      (r.value.1 == content <==> !Occurs(BLANK_LINE, content)) &&
      (!Occurs(BLANK_LINE, content) ==> r.value.0 == LfBlock(p))
  {
    var h, s := LfBlock(p), LfBlock(p) + "\n\n" + content;
    var n := |h| + 2;
    assert s[n..] == content;
    FindGives(s, BLANK_LINE);
    FindGives(content, BLANK_LINE);
    forall k | 0 <= k
      ensures At(s, k, BLANK_LINE) <==> k >= n && At(content, k - n, BLANK_LINE)
    {
      LfBlankLine(p, content, k);
    }
    if Occurs(BLANK_LINE, content) {
      assert At(s, Find(content, BLANK_LINE).value + n, BLANK_LINE);
    } else {
      LfBlankFound(p, content);
      assert s[..|h|] == h;
    }
  }

  // A blank line of carriage returns can only be in the content.
  lemma LfBlankLine(p: Part, content: Bytes, k: nat)
    requires WellFormed(p)
    ensures
      var n := |LfBlock(p)| + 2;
      At(LfBlock(p) + "\n\n" + content, k, BLANK_LINE) <==> k >= n && At(content, k - n, BLANK_LINE)
  {
    var h, s := LfBlock(p), LfBlock(p) + "\n\n" + content;
    var n := |h| + 2;
    LfBlockHasNoReturn(p);
    if k >= n {
      if k + 4 <= |s| {
        assert s[k..k + 4] == content[k - n..k - n + 4];
      }
    } else {
      assert k < |h| ==> s[k] == h[k] && h[k] in h;
      Mismatch(s, k, BLANK_LINE, 0);
    }
  }

  lemma LfBlankFound(p: Part, content: Bytes)
    requires WellFormed(p)
    ensures Find(LfBlock(p) + "\n\n" + content, "\n\n") == Some(|LfBlock(p)|)
  {
    var h, s, l := LfBlock(p), LfBlock(p) + "\n\n" + content, DispositionLine(p);
    LinesAreSingle(p);
    assert s[|h|..|h| + 2] == "\n\n";
    forall k | 0 <= k < |h|
      ensures !At(s, k, "\n\n")
    {
      assert s[k] == h[k];
      if k < |l| {
        assert h[k] == l[k] && l[k] in l;
        Mismatch(s, k, "\n\n", 0);
      } else if k == |l| {
        assert s[k + 1] == h[k + 1] == TypeLine(p.contentType.value)[0] == 'C';
        Mismatch(s, k, "\n\n", 1);
      } else {
        var t := TypeLine(p.contentType.value);
        assert h[k] == t[k - |l| - 1] && h[k] in t;
        Mismatch(s, k, "\n\n", 0);
      }
    }
    FindIs(s, "\n\n", |h|);
  }

  function ContentOf(f: Field): Bytes {
    if f.Text? then f.raw else f.content
  }

  lemma FieldHasContent(headers: map<Bytes, Bytes>, content: Bytes)
    ensures FieldFrom(headers, content).Some? ==> ContentOf(FieldFrom(headers, content).value.1) == content
  {
  }

  // What is made of a part once the line breaks around it are gone.
  function FieldIn(piece: Bytes): Option<(Bytes, Field)> {
    match Sections(piece)
    case None => None
    case Some((block, content)) => FieldFrom(Headers(Lines(block)), content)
  }

  lemma LfPieceParses(p: Part, content: Bytes)
    requires Readable(p)
    ensures
      var r := FieldIn(LfBlock(p) + "\n\n" + content);
      if Occurs(BLANK_LINE, content) then r.Some? ==> |ContentOf(r.value.1)| < |content|
      else r == Some((p.name, FieldOf(p.(content := content))))
  {
    LfSections(p, content);
    var (block, c) := Sections(LfBlock(p) + "\n\n" + content).value;
    FieldHasContent(Headers(Lines(block)), c);
    if !Occurs(BLANK_LINE, content) {
      LinesOfLfBlock(p);
      HeadersOfLines(p);
      NameIsRead(p);
      FilenameIsRead(p);
    }
  }

  // The content that is left of a part's.
  function LfKept(content: Bytes): Bytes {
    if content != [] && content[|content| - 1] == '\r' then content[..|content| - 1] else content
  }

  lemma PartIsPiece(part: Bytes)
    ensures ParsePart(part) == FieldIn(DropTrailingBreak(DropLeadingBreak(part)))
  {
  }

  lemma LfPieceIs(head: Bytes, content: Bytes)
    requires head != [] && head[|head| - 1] == '\n'
    ensures DropTrailingBreak(DropLeadingBreak(LF + (head + content) + LF)) == head + LfKept(content)
  {
    var x, n := head + content, |content| - 1;
    LfBreaksDropped(x);
    if content == [] {
      assert x == head;
    } else {
      assert x[..|x| - 1] == head + content[..n] && x[|x| - 1] == content[n];
    }
  }

  // A part whose lines end with a bare line feed comes back iff its content does
  // not end with a carriage return, which would be dropped as part of a line
  // break, and holds no blank line of carriage returns, at which it would be cut.
  lemma LfRoundTripIff(p: Part)
    requires Readable(p)
    ensures ParsePart(LfPart(p)) == Some((p.name, FieldOf(p))) <==>
      (p.content == [] || p.content[|p.content| - 1] != '\r') && !Occurs(BLANK_LINE, p.content)
  {
    PartIsPiece(LfPart(p));
    LfPieceIs(LfBlock(p) + "\n\n", p.content);
    LfPieceParses(p, LfKept(p.content));
    assert ContentOf(FieldOf(p)) == p.content;
    assert ContentOf(FieldOf(p.(content := LfKept(p.content)))) == LfKept(p.content);
  }

  // ---- a file name before the name ----------------------------------------

  lemma NameInFilename(filename: Bytes, rest: Bytes)
    requires '"' !in filename
    ensures QuotedAfter("form-data; " + FILENAME_KEY + (filename + "\"" + rest), NAME_KEY) == Some(filename)
  {
    var tail := filename + "\"" + rest;
    var d := "form-data; file" + NAME_KEY + tail;
    assert d == "form-data; " + FILENAME_KEY + tail;
    FindByFirstByte("form-data; file", NAME_KEY, tail);
    assert d[15 + |NAME_KEY|..] == tail;
    QuotedIs(d, NAME_KEY, filename, rest, 15);
  }

  lemma FilenameAfterFormData(filename: Bytes, rest: Bytes)
    requires '"' !in filename
    ensures QuotedAfter("form-data; " + FILENAME_KEY + (filename + "\"" + rest), FILENAME_KEY) == Some(filename)
  {
    var tail := filename + "\"" + rest;
    var d := "form-data; " + FILENAME_KEY + tail;
    FilenameFoundFirst(tail);
    assert d[11 + |FILENAME_KEY|..] == tail;
    QuotedIs(d, FILENAME_KEY, filename, rest, 11);
  }

  // The expression for the name also matches inside filename="...": a file whose
  // name parameter comes second is filed under its file name.
  lemma FilenameFirstTakesName(filename: Bytes, rest: Bytes, content: Bytes)
    requires '"' !in filename
    ensures
      var d := "form-data; " + FILENAME_KEY + (filename + "\"" + rest);
      FieldFrom(map["content-disposition" := d], content) ==
        Some((filename, Upload(filename, "application/octet-stream", content)))
  {
    NameInFilename(filename, rest);
    FilenameAfterFormData(filename, rest);
    assert CONTENT_TYPE[8] != DISPOSITION[8];
  }

  lemma FilenameFoundFirst(tail: Bytes)
    ensures Find("form-data; " + FILENAME_KEY + tail, FILENAME_KEY) == Some(11)
  {
    var s := "form-data; " + FILENAME_KEY + tail;
    assert s[11..21] == FILENAME_KEY;
    Mismatch(s, 0, FILENAME_KEY, 1);
    forall k | 1 <= k < 11
      ensures !At(s, k, FILENAME_KEY)
    {
      assert s[k] == "form-data; "[k];
      Mismatch(s, k, FILENAME_KEY, 0);
    }
    FindIs(s, FILENAME_KEY, 11);
  }
}
