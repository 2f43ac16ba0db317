/**
 Reading back what was written: the canonical text of a list of parts.
 */
module MultipartRoundTrip {
  import opened MultipartScan
  import opened MultipartSpec
  import opened MultipartText
  import opened Options

  // ---------------------------------------------------------------- the canonical text

  function Quoted(s: string): string { ['"'] + s + ['"'] }

  function NameParam(h: Header): string { NAME + Quoted(h.name) }

  function FileParam(h: Header): string { FILENAME + Quoted(h.filename) }

  // What stands behind the colon of the disposition header.
  function Params(h: Header): string {
    " form-data" + [';'] + (([' '] + NameParam(h)) + (if h.filename == "" then "" else [';'] + ([' '] + FileParam(h))))
  }

  function DispositionLine(h: Header): string { DISPOSITION + Params(h) }

  function TypeLine(h: Header): string { TYPE + ([' '] + h.contentType) }

  function TypeLines(h: Header): string {
    if h.contentType == "" then "" else TypeLine(h) + CRLF
  }

  // From behind a delimiter to the end: each part with the delimiter behind it, then the end mark.
  function Tail(parts: seq<Part>, boundary: string): string {
    if parts == [] then DASHES + CRLF
    else
      var p := parts[0];
      var content := p.data + DELIM_PREFIX + boundary + Tail(parts[1..], boundary);
      CRLF + (DispositionLine(p.header) + CRLF + (TypeLines(p.header) + (CRLF + content)))
  }

  function Render(parts: seq<Part>, boundary: string): string { DASHES + boundary + Tail(parts, boundary) }

  // ---------------------------------------------------------------- what can be written so

  predicate Plain(s: string) { OneLine(s) && Without(s, ';') && Without(s, '"') }

  predicate WritableHeader(h: Header) {
    && h.name != "" && Plain(h.name) && Plain(h.filename)
    && (h.contentType == "" || (Bare(h.contentType, ' ') && OneLine(h.contentType)))
  }

  ghost predicate Writable(p: Part, boundary: string)
    requires boundary != ""
  {
    WritableHeader(p.header) && p.data != "" && Delimited(p.data, boundary)
  }

  // The part's data comes back exactly when the data is delimited.
  lemma ContentBackIff(h: Header, data: string, boundary: string, tail: string)
    requires boundary != "" && h.name != "" && data != ""
    ensures
      ReadContent(h, CRLF + (data + DELIM_PREFIX + boundary + tail), boundary)
        == Outcome(DASHES + boundary + tail, Ready, Some(Part(h, data)))
      <==> Delimited(data, boundary)
  {
    hide FindDashed, Delimited;
    var content := data + DELIM_PREFIX + boundary + tail;
    FoundLonger(data, boundary, tail);
    CutContent(data, boundary, tail);
    DashedTail(content, boundary);
    CutIff(h, content, data, FindDashed(content, boundary), boundary, tail);
    ContentRead(h, content, boundary);
  }

  lemma ContentRead(h: Header, content: string, boundary: string)
    requires boundary != "" && h.name != ""
    ensures
      var pos := FindDashed(content, boundary);
      ReadContent(h, CRLF + content, boundary)
      == if pos == NPOS then Bad(content) else if pos == 2 then Bad(content[pos..])
         else Outcome(content[pos..], Ready, Some(Part(h, content[..pos - 2])))
  {
    hide FindDashed;
    assert (CRLF + content)[2..] == content && CRLF <= CRLF + content;
  }

  lemma CutIff(h: Header, content: string, data: string, pos: int, boundary: string, tail: string)
    requires data != "" && |content| >= |data| + 2 && (pos == NPOS || 2 <= pos <= |content|)
    requires content[..|data|] == data && content[|data| + 2..] == DASHES + boundary + tail
    ensures
      (if pos == NPOS then Bad(content) else if pos == 2 then Bad(content[pos..])
       else Outcome(content[pos..], Ready, Some(Part(h, content[..pos - 2]))))
        == Outcome(DASHES + boundary + tail, Ready, Some(Part(h, data)))
      <==> pos == |data| + 2
  {
    if pos > 2 { assert |content[..pos - 2]| == pos - 2; }
  }

  lemma CutContent(data: string, boundary: string, tail: string)
    ensures
      var content := data + DELIM_PREFIX + boundary + tail;
      content[..|data|] == data && content[|data| + 2..] == DASHES + boundary + tail
  {
  }

  // ---------------------------------------------------------------- headers come back

  lemma QuotedFits(s: string)
    requires s != "" && Plain(s)
    ensures Trim(Quoted(s), '"') == s && OneLine(Quoted(s)) && Without(Quoted(s), ';')
  {
    TrimAround(s, '"');
  }

  // A parameter behind a space, trimmed and cut behind its key.
  lemma ParamFits(key: string, s: string)
    requires s != "" && Plain(s) && Bare(key, ' ') && Bare(key, '\r') && OneLine(key) && Without(key, ';')
    ensures Trim([' '] + (key + Quoted(s)), ' ') == key + Quoted(s) && key <= key + Quoted(s)
    ensures Trim((key + Quoted(s))[|key|..], '"') == s
    ensures Without([' '] + (key + Quoted(s)), ';') && OneLine([' '] + (key + Quoted(s)))
  {
    QuotedFits(s);
    hide Trim;
    var param := key + Quoted(s);
    TrimLead(param, ' ');
    assert param[|key|..] == Quoted(s);
    OneLineConcat(key, Quoted(s));
    OneLineConcat([' '], param);
  }

  lemma KeysFit()
    ensures Bare(NAME, ' ') && Bare(NAME, '\r') && OneLine(NAME) && Without(NAME, ';')
    ensures Bare(FILENAME, ' ') && Bare(FILENAME, '\r') && OneLine(FILENAME) && Without(FILENAME, ';')
  {
  }

  lemma NameParamFits(h: Header)
    requires WritableHeader(h)
    ensures Trim([' '] + NameParam(h), ' ') == NameParam(h) && NAME <= NameParam(h)
    ensures Trim(NameParam(h)[|NAME|..], '"') == h.name
    ensures Without([' '] + NameParam(h), ';') && OneLine([' '] + NameParam(h))
  {
    hide Trim, Quoted, Without, OneLine, Bare;
    KeysFit();
    ParamFits(NAME, h.name);
  }

  lemma FileParamFits(h: Header)
    requires WritableHeader(h) && h.filename != ""
    ensures Trim([' '] + FileParam(h), ' ') == FileParam(h) && FILENAME <= FileParam(h)
    ensures Trim(FileParam(h)[|FILENAME|..], '"') == h.filename
    ensures Without([' '] + FileParam(h), ';') && OneLine([' '] + FileParam(h))
  {
    hide Trim, Quoted, Without, OneLine, Bare;
    KeysFit();
    ParamFits(FILENAME, h.filename);
  }

  lemma FormDataTrims()
    ensures Trim(" form-data", ' ') == FORM_DATA && Without(" form-data", ';') && OneLine(" form-data")
  {
    TrimLead(FORM_DATA, ' ');
    assert [' '] + FORM_DATA == " form-data";
  }

  // The parameters split into what they were put together from.
  lemma ParamsSplit(h: Header)
    requires WritableHeader(h)
    ensures
      TrimAll(Split(Params(h), ';'))
      == if h.filename == "" then [FORM_DATA, NameParam(h)] else [FORM_DATA, NameParam(h), FileParam(h)]
  {
    hide NameParam, FileParam, Trim;
    FormDataTrims();
    NameParamFits(h);
    var name := [' '] + NameParam(h);
    if h.filename == "" {
      assert Params(h) == " form-data" + [';'] + name by { assert name + "" == name; }
      SplitMore(" form-data", ';', name);
      SplitOne(name, ';');
      TrimTwo(" form-data", name);
    } else {
      FileParamFits(h);
      var file := [' '] + FileParam(h);
      assert Params(h) == " form-data" + [';'] + (name + [';'] + file) by {
        assert name + ([';'] + file) == name + [';'] + file;
      }
      SplitMore(" form-data", ';', name + [';'] + file);
      SplitMore(name, ';', file);
      SplitOne(file, ';');
      TrimThree(" form-data", name, file);
    }
  }

  lemma TrimTwo(a: string, b: string)
    ensures TrimAll([a] + [b]) == [Trim(a, ' '), Trim(b, ' ')]
  {
  }

  lemma TrimThree(a: string, b: string, c: string)
    ensures TrimAll([a] + ([b] + [c])) == [Trim(a, ' '), Trim(b, ' '), Trim(c, ' ')]
  {
  }

  lemma ParamsRead(h: Header, before: Header)
    requires WritableHeader(h) && before == Header("", "", "")
    ensures
      ReadParams(TrimAll(Split(Params(h), ';')), before) == Some(Header(h.name, h.filename, ""))
  {
    ParamsSplit(h);
    NameParamFits(h);
    if h.filename != "" { FileParamFits(h); }
    hide TrimAll, Split, Params, NameParam, FileParam, Trim;
  }

  lemma ParamsOneLine(h: Header)
    requires WritableHeader(h)
    ensures OneLine(Params(h)) && Params(h)[0] == ' '
  {
    FormDataTrims();
    NameParamFits(h);
    if h.filename != "" { FileParamFits(h); }
    hide NameParam, FileParam, Trim;
    var name := [' '] + NameParam(h);
    var file := if h.filename == "" then "" else [';'] + ([' '] + FileParam(h));
    OneLineConcat(name, file);
    OneLineConcat([';'], name + file);
    OneLineConcat(" form-data", [';'] + (name + file));
    assert Params(h) == " form-data" + ([';'] + (name + file));
  }

  lemma LiteralsOneLine()
    ensures OneLine(DISPOSITION) && OneLine(TYPE)
  {
  }

  // A header line is read up to its break.
  lemma ConsumeLine(line: string, rest: string, h: Header)
    requires OneLine(line)
    ensures
      ConsumeHeader(line + CRLF + rest, h)
      == var read :=
           if StartsIgnoringCase(line, DISPOSITION) then ReadDisposition(line, h)
           else if StartsIgnoringCase(line, TYPE) then ReadType(line, h)
           else None;
         if read.None? then None else Some((read.value, rest))
  {
    hide StartsIgnoringCase, ReadDisposition, ReadType, Find;
    FindBreak(line, rest);
    var body := line + CRLF + rest;
    assert body[..|line|] == line && body[|line| + 2..] == rest;
  }

  lemma DispositionRead(h: Header, rest: string)
    requires WritableHeader(h)
    ensures ConsumeHeader(DispositionLine(h) + CRLF + rest, Header("", "", ""))
      == Some((Header(h.name, h.filename, ""), rest))
  {
    hide Params, ReadParams, TrimAll, Split, OneLine, WritableHeader;
    var line := DispositionLine(h);
    LiteralsOneLine();
    ParamsOneLine(h);
    OneLineConcat(DISPOSITION, Params(h));
    ConsumeLine(line, rest, Header("", "", ""));
    assert line[..|DISPOSITION|] == DISPOSITION && line[|DISPOSITION|..] == Params(h);
    ParamsRead(h, Header("", "", ""));
  }

  lemma NotDisposition(h: Header)
    ensures !StartsIgnoringCase(TypeLine(h), DISPOSITION)
  {
    assert |TypeLine(h)| >= 20 ==> TypeLine(h)[..20][8] == 'T' && DISPOSITION[8] == 'D';
  }

  lemma TypeRead(h: Header, before: Header, rest: string)
    requires WritableHeader(h) && h.contentType != ""
    ensures ConsumeHeader(TypeLine(h) + CRLF + rest, before) == Some((before.(contentType := h.contentType), rest))
  {
    var line := TypeLine(h);
    LiteralsOneLine();
    OneLineConcat([' '], h.contentType);
    OneLineConcat(TYPE, [' '] + h.contentType);
    ConsumeLine(line, rest, before);
    NotDisposition(h);
    assert line[..|TYPE|] == TYPE && line[|TYPE|..] == [' '] + h.contentType;
    TrimLead(h.contentType, ' ');
  }

  // Both headers of a part are read, up to the empty line.
  lemma HeadersRead(h: Header, content: string, boundary: string)
    requires WritableHeader(h) && boundary != ""
    ensures
      ReadHeaders(DispositionLine(h) + CRLF + (TypeLines(h) + (CRLF + content)), boundary)
      == ReadContent(h, CRLF + content, boundary)
  {
    hide ConsumeHeader, ReadContent, DispositionLine, TypeLine, WritableHeader;
    var rest := TypeLines(h) + (CRLF + content);
    DispositionRead(h, rest);
    if h.contentType == "" {
      assert rest == CRLF + content;
    } else {
      TypeRead(h, Header(h.name, h.filename, ""), CRLF + content);
      assert rest == TypeLine(h) + CRLF + (CRLF + content);
      TypeStarts(h, rest);
    }
  }

  lemma TypeStarts(h: Header, rest: string)
    requires TypeLine(h) <= rest
    ensures !(CRLF <= rest)
  {
    assert rest[0] == TypeLine(h)[0] == 'C';
  }

  // ---------------------------------------------------------------- the whole text

  // One read gives the first part back exactly when its data is not empty and is delimited.
  lemma PartBackIff(parts: seq<Part>, boundary: string)
    requires parts != [] && boundary != "" && WritableHeader(parts[0].header)
    ensures
      ReadNext(Render(parts, boundary), boundary) == Outcome(Render(parts[1..], boundary), Ready, Some(parts[0]))
      <==> parts[0].data != "" && Delimited(parts[0].data, boundary)
  {
    hide ReadHeaders, ReadContent, Delimited, WritableHeader, DispositionLine, TypeLines;
    if parts[0].data == "" {
      hide ReadNext, Render;
      ReadNextProgress(Render(parts, boundary), boundary);
      return;
    }
    var p, tail := parts[0], Tail(parts[1..], boundary);
    var content := p.data + DELIM_PREFIX + boundary + tail;
    var headers := DispositionLine(p.header) + CRLF + (TypeLines(p.header) + (CRLF + content));
    assert Tail(parts, boundary) == CRLF + headers;
    ReadDelimiter(boundary, CRLF + headers);
    assert (CRLF + headers)[2..] == headers && (CRLF + headers)[0] == '\r';
    HeadersRead(p.header, content, boundary);
    NamePresent(p.header);
    ContentBackIff(p.header, p.data, boundary, tail);
  }

  lemma NamePresent(h: Header)
    requires WritableHeader(h)
    ensures h.name != ""
  {
  }

  // Behind the delimiter either the end mark or a part follows.
  lemma ReadDelimiter(boundary: string, rest: string)
    requires boundary != ""
    ensures
      ReadNext(DASHES + boundary + rest, boundary)
      == if DASHES <= rest then (if rest[2..] == CRLF then Outcome(rest[2..], Done, None) else Bad(rest[2..]))
         else if !(CRLF <= rest) then Bad(rest)
         else ReadHeaders(rest[2..], boundary)
  {
    hide ReadHeaders;
    var body := DASHES + boundary + rest;
    assert body[2..] == boundary + rest && body[2..][|boundary|..] == rest;
  }

  // Read until the reader is not ready any more.
  function ReadAll(body: string, boundary: string): (seq<Part>, Status)
    requires boundary != ""
    decreases |body|
  {
    ReadNextProgress(body, boundary);
    var r := ReadNext(body, boundary);
    if r.status != Ready then ([], r.status)
    else
      var rest := ReadAll(r.body, boundary);
      ([r.part.value] + rest.0, rest.1)
  }

  // Any list of writable parts comes back exactly, and the reader ends done.
  lemma {:induction false} RoundTrip(parts: seq<Part>, boundary: string)
    requires boundary != "" && forall i :: 0 <= i < |parts| ==> Writable(parts[i], boundary)
    ensures ReadAll(Render(parts, boundary), boundary) == (parts, Done)
  {
    hide ReadNext, Delimited, WritableHeader;
    if parts == [] {
      ReadDelimiter(boundary, DASHES + CRLF);
      assert (DASHES + CRLF)[2..] == CRLF;
      hide Render;
    } else {
      PartBackIff(parts, boundary);
      RoundTrip(parts[1..], boundary);
      assert [parts[0]] + parts[1..] == parts;
    }
  }

  // A part that does not come back, whatever its headers say: its data is its own boundary.
  lemma DataIsBoundary(h: Header)
    requires WritableHeader(h)
    ensures ReadNext(Render([Part(h, "B")], "B"), "B").status == Malformed
  {
    hide ReadHeaders, WritableHeader, DispositionLine, TypeLines, FindDashed;
    var parts := [Part(h, "B")];
    var tail := Tail(parts[1..], "B");
    var content := "B" + DELIM_PREFIX + "B" + tail;
    var headers := DispositionLine(h) + CRLF + (TypeLines(h) + (CRLF + content));
    assert Tail(parts, "B") == CRLF + headers;
    ReadDelimiter("B", CRLF + headers);
    assert (CRLF + headers)[2..] == headers && (CRLF + headers)[0] == '\r';
    HeadersRead(h, content, "B");
    assert (CRLF + content)[2..] == content;
    TooEarly(content, "B");
  }
}
