/** The media registry: the ordered list of `{name, file}` entries a script builds
    up. Names need not be unique; lookups see the first entry with a name. */
module Registry {
  import opened Common

  /** A registered medium: its friendly name and its working file. */
  datatype Media = Media(name: string, file: string)

  /** `get_media_by_name`: the file of the first entry with this name, in
      insertion order, or nothing when no entry has it. */
  function Lookup(medias: seq<Media>, name: string): (r: Option<string>)
    ensures r.None? <==> forall i :: 0 <= i < |medias| ==> medias[i].name != name
    ensures r.Some? ==> Media(name, r.value) in medias
    ensures forall i :: 0 <= i < |medias| && medias[i].name == name ==>
      (forall j :: 0 <= j < i ==> medias[j].name != name) ==> r == Some(medias[i].file)
  {
    if medias == [] then None
    else if medias[0].name == name then Some(medias[0].file)
    else
      var r := Lookup(medias[1..], name);
      assert medias == [medias[0]] + medias[1..];
      r
  }

  /** Python's truth test on the lookup result: no entry, or an empty file name. */
  predicate Absent(file: Option<string>) {
    file.None? || file.value == ""
  }

  /** The `convert` update: every entry with this name (not only the first) now
      refers to `file`; every other entry is left as it was. */
  function Retarget(medias: seq<Media>, name: string, file: string): (r: seq<Media>)
    ensures |r| == |medias|
    ensures forall i :: 0 <= i < |r| ==> r[i].name == medias[i].name
    ensures forall i :: 0 <= i < |r| && medias[i].name == name ==> r[i].file == file
    ensures forall i :: 0 <= i < |r| && medias[i].name != name ==> r[i] == medias[i]
  {
    if medias == [] then []
    else
      var head := if medias[0].name == name then Media(name, file) else medias[0];
      var rest := Retarget(medias[1..], name, file);
      assert forall i :: 0 < i < |medias| ==> ([head] + rest)[i] == rest[i - 1];
      [head] + rest
  }

  /** Appending an entry never hides an existing one: a name already present keeps
      its file, and only a new name becomes visible. */
  lemma {:induction false} LookupAfterAppend(medias: seq<Media>, e: Media, name: string)
    ensures Lookup(medias + [e], name) ==
      if Lookup(medias, name).Some? then Lookup(medias, name)
      else if e.name == name then Some(e.file)
      else None
    decreases |medias|
  {
    if medias != [] {
      assert (medias + [e])[1..] == medias[1..] + [e];
      if medias[0].name != name {
        LookupAfterAppend(medias[1..], e, name);
      }
    }
  }

  /** After `convert`, the converted name resolves to the new file, and every other
      name resolves as before. */
  lemma {:induction false} LookupAfterRetarget(medias: seq<Media>, name: string, file: string, other: string)
    ensures Lookup(Retarget(medias, name, file), name) ==
      if Lookup(medias, name).Some? then Some(file) else None
    ensures other != name ==> Lookup(Retarget(medias, name, file), other) == Lookup(medias, other)
    decreases |medias|
  {
    if medias != [] {
      var r := Retarget(medias, name, file);
      assert r[1..] == Retarget(medias[1..], name, file);
      LookupAfterRetarget(medias[1..], name, file, other);
    }
  }
}
