/**
 The reader as functions of the text that is left: what one read consumes and returns.
 */
module MultipartSpec {
  import opened MultipartText
  import opened Options

  datatype Status = Ready | Done | Malformed

  datatype Header = Header(name: string, filename: string, contentType: string)

  datatype Part = Part(header: Header, data: string)

  // What one read leaves: the text not consumed, the status and the part, if one was read.
  datatype Outcome = Outcome(body: string, status: Status, part: Option<Part>)

  const DISPOSITION := "Content-Disposition:"
  const TYPE := "Content-Type:"
  const NAME := "name="
  const FILENAME := "filename="
  const FORM_DATA := "form-data"
  const DELIM_PREFIX := "\r\n--"

  // ---------------------------------------------------------------- the delimiter

  // The boundary occurrences from `pos` on, one after the other, until one stands behind the
  // delimiter's prefix; an occurrence too close to the start ends the search.
  function FindDashedFrom(s: string, boundary: string, pos: nat): (r: int)
    requires boundary != ""
    ensures r != NPOS ==> 2 <= r && r + 2 + |boundary| <= |s| && s[r - 2..r + 2 + |boundary|] == DELIM_PREFIX + boundary
    decreases |s| - pos
  {
    var x := Find(s, boundary, pos);
    if x == NPOS || x < |DELIM_PREFIX| then NPOS
    else if DELIM_PREFIX <= s[x - 4..] then DashedAt(s, boundary, x); x - 2
    else FindDashedFrom(s, boundary, x + |boundary|)
  }

  lemma DashedAt(s: string, boundary: string, x: nat)
    requires 4 <= x <= |s| && boundary <= s[x..] && DELIM_PREFIX <= s[x - 4..]
    ensures x + |boundary| <= |s| && s[x - 4..x + |boundary|] == DELIM_PREFIX + boundary
  {
    assert s[x - 4..x] == s[x - 4..][..4] && s[x..x + |boundary|] == s[x..][..|boundary|];
    assert s[x - 4..x + |boundary|] == s[x - 4..x] + s[x..x + |boundary|];
  }

  function FindDashed(s: string, boundary: string): int
    requires boundary != ""
  {
    FindDashedFrom(s, boundary, 0)
  }

  // ---------------------------------------------------------------- headers

  function ReadType(line: string, h: Header): Option<Header>
    requires |TYPE| <= |line|
  {
    var value := Trim(line[|TYPE|..], ' ');
    if value == "" then None else Some(h.(contentType := value))
  }

  function TrimAll(tokens: seq<string>): (r: seq<string>)
    ensures |r| == |tokens| && forall i :: 0 <= i < |r| ==> r[i] == Trim(tokens[i], ' ')
  {
    if tokens == [] then [] else [Trim(tokens[0], ' ')] + TrimAll(tokens[1..])
  }

  function ReadParams(params: seq<string>, h: Header): Option<Header> {
    if |params| != 2 && |params| != 3 then None
    else if !SameIgnoringCase(params[0], FORM_DATA) || !(NAME <= params[1]) then None
    else if |params| == 3 && !(FILENAME <= params[2]) then None
    else
      var h' := if |params| == 3 then h.(filename := Trim(params[2][|FILENAME|..], '"')) else h;
      Some(h'.(name := Trim(params[1][|NAME|..], '"')))
  }

  function ReadDisposition(line: string, h: Header): Option<Header>
    requires |DISPOSITION| <= |line|
  {
    ReadParams(TrimAll(Split(line[|DISPOSITION|..], ';')), h)
  }

  // One header line: the header with what it says, and the text behind it.
  function ConsumeHeader(body: string, h: Header): Option<(Header, string)> {
    var pos := Find(body, CRLF, 0);
    if pos == NPOS then None
    else
      var line := body[..pos];
      var read :=
        if StartsIgnoringCase(line, DISPOSITION) then ReadDisposition(line, h)
        else if StartsIgnoringCase(line, TYPE) then ReadType(line, h)
        else None;
      if read.None? then None else Some((read.value, body[pos + 2..]))
  }

  // ---------------------------------------------------------------- one read

  function Bad(body: string): Outcome { Outcome(body, Malformed, None) }

  function ReadNext(body: string, boundary: string): Outcome
    requires boundary != ""
  {
    if !(DASHES <= body) then Bad(body)
    else
      var body1 := body[2..];
      if !(boundary <= body1) then Bad(body1)
      else
        var body2 := body1[|boundary|..];
        if DASHES <= body2 then (if body2[2..] == CRLF then Outcome(body2[2..], Done, None) else Bad(body2[2..]))
        else if !(CRLF <= body2) then Bad(body2)
        else ReadHeaders(body2[2..], boundary)
  }

  function ReadHeaders(body: string, boundary: string): Outcome
    requires boundary != ""
  {
    var first := ConsumeHeader(body, Header("", "", ""));
    if first.None? then Bad(body)
    else if CRLF <= first.value.1 then ReadContent(first.value.0, first.value.1, boundary)
    else
      var second := ConsumeHeader(first.value.1, first.value.0);
      if second.None? then Bad(first.value.1) else ReadContent(second.value.0, second.value.1, boundary)
  }

  function ReadContent(h: Header, body: string, boundary: string): Outcome
    requires boundary != ""
  {
    if h.name == "" || !(CRLF <= body) then Bad(body)
    else
      var content := body[2..];
      var pos := FindDashed(content, boundary);
      if pos == NPOS then Bad(content)
      else if pos == 2 then Bad(content[pos..])
      else Outcome(content[pos..], Ready, Some(Part(h, content[..pos - 2])))
  }

  // A part is read exactly when the reader stays ready; then the text got shorter, the part has a
  // name and data, and the next delimiter comes next.
  lemma ReadNextProgress(body: string, boundary: string)
    requires boundary != ""
    ensures
      var r := ReadNext(body, boundary);
      && (r.status == Ready <==> r.part.Some?)
      && (r.status == Ready ==> |r.body| < |body| && r.part.value.data != "" && r.part.value.header.name != "")
      && (r.status == Ready ==> DASHES + boundary <= r.body)
      && (r.status == Done ==> body == DASHES + boundary + DASHES + CRLF)
  {
    if DASHES <= body && boundary <= body[2..] {
      var body2 := body[2..][|boundary|..];
      assert body == DASHES + boundary + body2;
      if DASHES <= body2 {
        assert body2 == DASHES + body2[2..];
      } else if CRLF <= body2 {
        HeadersProgress(body2[2..], boundary);
      }
    }
  }

  lemma HeadersProgress(body: string, boundary: string)
    requires boundary != ""
    ensures
      var r := ReadHeaders(body, boundary);
      && r.status != Done && (r.status == Ready <==> r.part.Some?)
      && (r.status == Ready ==> |r.body| < |body| && r.part.value.data != "" && r.part.value.header.name != "")
      && (r.status == Ready ==> DASHES + boundary <= r.body)
  {
    hide Find, ReadDisposition, ReadType, StartsIgnoringCase, FindDashed;
    var first := ConsumeHeader(body, Header("", "", ""));
    if first.Some? {
      ContentProgress(first.value.0, first.value.1, boundary);
      var second := ConsumeHeader(first.value.1, first.value.0);
      if second.Some? { ContentProgress(second.value.0, second.value.1, boundary); }
    }
  }

  lemma ContentProgress(h: Header, body: string, boundary: string)
    requires boundary != ""
    ensures
      var r := ReadContent(h, body, boundary);
      && r.status != Done && (r.status == Ready <==> r.part.Some?)
      && (r.status == Ready ==> |r.body| < |body| && r.part.value.data != "" && r.part.value.header.name != "")
      && (r.status == Ready ==> DASHES + boundary <= r.body)
  {
    hide FindDashed;
    if CRLF <= body {
      var content := body[2..];
      var pos := FindDashed(content, boundary);
      DashedTail(content, boundary);
    }
  }

  lemma DashedTail(s: string, boundary: string)
    requires boundary != ""
    ensures
      var r := FindDashed(s, boundary);
      r != NPOS ==> 2 <= r && r + 2 + |boundary| <= |s| && DASHES + boundary <= s[r..]
  {
    hide Find;
    var r := FindDashed(s, boundary);
    if r != NPOS {
      Slices(s, r, 2 + |boundary|);
      assert s[r..r + 2 + |boundary|] == s[r - 2..r + 2 + |boundary|][2..] == DASHES + boundary;
    }
  }

  lemma Slices(s: string, at: nat, n: nat)
    requires at + n <= |s|
    ensures s[at..][..n] == s[at..at + n]
  {
  }
}
