/**
 The form's tables: of several parts with one name the first one counts.
 */
module MultipartForms {
  import opened MultipartRoundTrip
  import opened MultipartSpec
  import opened MultipartText
  import opened Options

  datatype File = File(filename: string, data: string)

  datatype Form = Form(values: map<string, string>, files: map<string, File>)

  // `emplace` leaves an entry alone that is already there.
  function Emplace<V>(table: map<string, V>, key: string, value: V): map<string, V> {
    if key in table then table else table[key := value]
  }

  function AddPart(form: Form, p: Part): Form {
    if p.header.filename == "" then form.(values := Emplace(form.values, p.header.name, p.data))
    else form.(files := Emplace(form.files, p.header.name, File(p.header.filename, p.data)))
  }

  function FormOf(parts: seq<Part>): Form {
    if parts == [] then Form(map[], map[]) else AddPart(FormOf(parts[..|parts| - 1]), parts[|parts| - 1])
  }

  predicate IsValue(p: Part, name: string) { p.header.filename == "" && p.header.name == name }

  predicate IsFile(p: Part, name: string) { p.header.filename != "" && p.header.name == name }

  // The first value part of a name, and the first file part of a name, are what the tables hold.
  lemma {:induction false} FirstWins(parts: seq<Part>, name: string, i: nat)
    requires i < |parts|
    ensures IsValue(parts[i], name) && (forall j :: 0 <= j < i ==> !IsValue(parts[j], name)) ==>
      name in FormOf(parts).values && FormOf(parts).values[name] == parts[i].data
    ensures IsFile(parts[i], name) && (forall j :: 0 <= j < i ==> !IsFile(parts[j], name)) ==>
      name in FormOf(parts).files && FormOf(parts).files[name] == File(parts[i].header.filename, parts[i].data)
    decreases |parts|
  {
    var front := parts[..|parts| - 1];
    if i < |parts| - 1 {
      assert forall j :: 0 <= j <= i ==> front[j] == parts[j];
      FirstWins(front, name, i);
    } else {
      OnlyNames(front, name);
    }
  }

  // Nothing else is in the tables.
  lemma {:induction false} OnlyNames(parts: seq<Part>, name: string)
    ensures name in FormOf(parts).values <==> exists i :: 0 <= i < |parts| && IsValue(parts[i], name)
    ensures name in FormOf(parts).files <==> exists i :: 0 <= i < |parts| && IsFile(parts[i], name)
  {
    if parts != [] {
      var n := |parts| - 1;
      OnlyNames(parts[..n], name);
      assert forall i :: 0 <= i < n ==> parts[..n][i] == parts[i];
      assert IsValue(parts[n], name) || IsFile(parts[n], name) ==> parts[n].header.name == name;
    }
  }

  // The form of a text that reads to its end mark.
  function ParsedForm(body: string, boundary: string): Option<Form> {
    if body == "" || boundary == "" then None
    else
      var all := ReadAll(body, boundary);
      if all.1 == Done then Some(FormOf(all.0)) else None
  }

  // The canonical text of writable parts parses into their tables.
  lemma ParseRendered(parts: seq<Part>, boundary: string)
    requires boundary != "" && forall i :: 0 <= i < |parts| ==> Writable(parts[i], boundary)
    ensures ParsedForm(Render(parts, boundary), boundary) == Some(FormOf(parts))
  {
    RoundTrip(parts, boundary);
  }
}
