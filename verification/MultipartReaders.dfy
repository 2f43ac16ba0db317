/**
 The reader as an object that consumes its text step by step.
 */
module MultipartReaders {
  import opened MultipartForms
  import opened MultipartRoundTrip
  import opened MultipartScan
  import opened MultipartSpec
  import opened MultipartText
  import opened Options

  method FindDashedBoundary(s: string, boundary: string) returns (r: int)
    requires boundary != ""
    ensures r == FindDashed(s, boundary)
  {
    hide Find, FindDashedFrom;
    var pos := 0;
    while true
      invariant 0 <= pos && FindDashedFrom(s, boundary, pos) == FindDashed(s, boundary)
      decreases |s| - pos
    {
      DashedStep(s, boundary, pos);
      var x := Find(s, boundary, pos);
      if x == NPOS || x < |DELIM_PREFIX| { return NPOS; }
      if DELIM_PREFIX <= s[x - |DELIM_PREFIX|..] { return x - |DASHES|; }
      pos := x + |boundary|;
    }
  }

  method SplitAndTrim(line: string) returns (params: seq<string>)
    requires |DISPOSITION| <= |line|
    ensures params == TrimAll(Split(line[|DISPOSITION|..], ';'))
  {
    hide Split, Trim, TrimAll;
    var tokens := Split(line[|DISPOSITION|..], ';');
    params := [];
    var i := 0;
    assert tokens[0..] == tokens;
    while i < |tokens|
      invariant 0 <= i <= |tokens| && params + TrimAll(tokens[i..]) == TrimAll(tokens)
    {
      TrimStep(tokens, i, params);
      params := params + [Trim(tokens[i], ' ')];
      i := i + 1;
    }
  }

  lemma TrimStep(tokens: seq<string>, i: nat, params: seq<string>)
    requires i < |tokens|
    ensures params + TrimAll(tokens[i..]) == params + [Trim(tokens[i], ' ')] + TrimAll(tokens[i + 1..])
  {
    hide Trim;
    assert tokens[i..][0] == tokens[i] && tokens[i..][1..] == tokens[i + 1..];
  }

  class MultipartReader {
    var body: string
    const boundary: string
    var status: Status

    ghost predicate Valid()
      reads this
    {
      boundary != ""
    }

    constructor (text: string, mark: string)
      requires text != "" && mark != ""
      ensures Valid() && body == text && boundary == mark && status == Ready
    {
      body, boundary, status := text, mark, Ready;
    }

    method ConsumeAny(data: string) returns (ok: bool)
      modifies this`body
      ensures ok == (data <= old(body))
      ensures body == if ok then old(body)[|data|..] else old(body)
    {
      if !(data <= body) { return false; }
      body := body[|data|..];
      ok := true;
    }

    // One header line into `h`; a malformed one is left in the body.
    method ConsumeContentHeader(h: Header) returns (r: Option<Header>)
      modifies this`body
      ensures
        var c := ConsumeHeader(old(body), h);
        if c.None? then r == None && body == old(body) else r == Some(c.value.0) && body == c.value.1
    {
      hide Find, Split, Trim, TrimAll, ReadParams, StartsIgnoringCase;
      var pos := Find(body, CRLF, 0);
      if pos == NPOS { return None; }
      var line := body[..pos];
      if StartsIgnoringCase(line, DISPOSITION) {
        DispositionLong(line);
        var params := SplitAndTrim(line);
        r := ReadParams(params, h);
      } else if StartsIgnoringCase(line, TYPE) {
        TypeLong(line);
        r := ReadType(line, h);
      } else {
        r := None;
      }
      if r.None? { return None; }
      body := body[pos + 2..];
    }

    // The data up to the next delimiter; empty when there is none, or none before it.
    method ConsumeDataPart() returns (data: string)
      requires Valid()
      modifies this`body
      ensures
        var pos := FindDashed(old(body), boundary);
        if pos == NPOS then data == "" && body == old(body)
        else data == old(body)[..pos - 2] && body == old(body)[pos..]
    {
      var pos := FindDashedBoundary(body, boundary);
      if pos == NPOS { return ""; }
      data := body[..pos];
      data := data[..|data| - 2];
      body := body[pos..];
    }

    // Done and malformed are final: nothing is read and nothing changes any more.
    method ReadNextPart() returns (part: Option<Part>)
      requires Valid()
      modifies this`body, this`status
      ensures Valid()
      ensures old(status) != Ready ==> part == None && body == old(body) && status == old(status)
      ensures old(status) == Ready ==> Outcome(body, status, part) == ReadNext(old(body), boundary)
    {
      hide ConsumeHeader, FindDashed;
      if status != Ready { return None; }
      status := Malformed;
      var ok := ConsumeAny(DASHES);
      if ok { ok := ConsumeAny(boundary); }
      if !ok { return None; }
      var end := ConsumeAny(DASHES);
      if end {
        if body == CRLF { status := Done; }
        return None;
      }
      ok := ConsumeAny(CRLF);
      if !ok { return None; }
      part := ReadHeadersAndData();
    }

    method ReadHeadersAndData() returns (part: Option<Part>)
      requires Valid() && status == Malformed
      modifies this`body, this`status
      ensures Outcome(body, status, part) == ReadHeaders(old(body), boundary)
    {
      hide ConsumeHeader, FindDashed;
      var header := ConsumeContentHeader(Header("", "", ""));
      if header.None? { return None; }
      if !(CRLF <= body) {
        header := ConsumeContentHeader(header.value);
        if header.None? { return None; }
      }
      if header.value.name == "" { return None; }
      var ok := ConsumeAny(CRLF);
      if !ok { return None; }
      DashedTail(body, boundary);
      var data := ConsumeDataPart();
      if data == "" { return None; }
      part := Some(Part(header.value, data));
      status := Ready;
    }
  }

  lemma DispositionLong(line: string)
    requires StartsIgnoringCase(line, DISPOSITION)
    ensures |DISPOSITION| <= |line|
  {
  }

  lemma TypeLong(line: string)
    requires StartsIgnoringCase(line, TYPE)
    ensures |TYPE| <= |line|
  {
  }

  // An empty body or boundary is refused, and so is a text that does not end done.
  method ParseMultipartForm(text: string, boundary: string) returns (r: Option<Form>)
    ensures r == ParsedForm(text, boundary)
  {
    hide ReadNext;
    if text == "" || boundary == "" { return None; }
    var reader := new MultipartReader(text, boundary);
    ghost var parts: seq<Part> := [];
    var form := Form(map[], map[]);
    ReadNextProgress(reader.body, boundary);
    ghost var before := reader.body;
    var part := reader.ReadNextPart();
    while part.Some?
      invariant reader.Valid() && fresh(reader) && reader.boundary == boundary
      invariant form == FormOf(parts)
      invariant Outcome(reader.body, reader.status, part) == ReadNext(before, boundary)
      invariant parts + ReadAll(before, boundary).0 == ReadAll(text, boundary).0
      invariant ReadAll(before, boundary).1 == ReadAll(text, boundary).1
      decreases |before|
    {
      ReadNextProgress(before, boundary);
      form := AddPart(form, part.value);
      ghost var rest := ReadAll(reader.body, boundary).0;
      assert parts + ([part.value] + rest) == parts + [part.value] + rest;
      assert (parts + [part.value])[..|parts|] == parts;
      parts := parts + [part.value];
      before := reader.body;
      part := reader.ReadNextPart();
    }
    ReadNextProgress(before, boundary);
    assert parts + [] == parts;
    if reader.status != Done { return None; }
    r := Some(form);
  }
}
