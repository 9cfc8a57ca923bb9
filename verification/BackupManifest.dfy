/**
  The manifest of a backup archive and the paths in it (`app/backup_manager.py`). JSON text is represented
  by its value.
 */
module BackupManifest {

  import opened Collections
  import opened Lines
  import opened TextOrder

  datatype Json =
    | Null
    | Bool(b: bool)
    | Number(n: int)
    | Text(s: string)
    | List(items: seq<Json>)
    | Object(fields: map<string, Json>)

  datatype BackupFile = BackupFile(path: string, sha256: string, size: int)

  datatype Manifest = Manifest(
    formatVersion: int,
    files: seq<BackupFile>,
    dataSchemaVersion: int,
    createdAt: Option<string>,
    producer: Option<string>
  )

  const FORMAT_VERSION := 2
  const LEGACY_FORMAT_VERSION := 1
  const PRODUCER := "webssh"

  // ----- paths

  /** `PurePosixPath(value).parts` of a relative path: empty components and single dots disappear. */
  function Meaningful(components: seq<string>): seq<string> {
    if components == [] then []
    else
      var init, last := components[..|components| - 1], components[|components| - 1];
      if last == "" || last == "." then Meaningful(init) else Meaningful(init) + [last]
  }

  function Parts(value: string): seq<string> { Meaningful(Split(value, '/')) }

  predicate PartOk(part: string) { part !in {"", ".", ".."} && ':' !in part }

  /** `_safe_relative_path` accepts. */
  predicate SafePath(value: string) {
    value != "" && '\\' !in value && value[0] != '/' && forall i | 0 <= i < |Parts(value)| :: PartOk(Parts(value)[i])
  }

  /** A name that a file or directory can have. */
  predicate IsName(part: string) { part !in {"", ".", ".."} && '/' !in part }

  predicate IsPath(path: seq<string>) { path != [] && forall i | 0 <= i < |path| :: IsName(path[i]) }

  function Posix(path: seq<string>): string
    requires path != []
  {
    Join(path, '/')
  }

  lemma {:induction false} NamesAreMeaningful(path: seq<string>)
    requires forall i | 0 <= i < |path| :: IsName(path[i])
    ensures Meaningful(path) == path
  {
    if path != [] { NamesAreMeaningful(path[..|path| - 1]); }
  }

  /** The parts of a file's manifest path are the path itself. */
  lemma PartsOfPosix(path: seq<string>)
    requires IsPath(path)
    ensures Parts(Posix(path)) == path
  {
    SplitJoin(path, '/');
    NamesAreMeaningful(path);
  }

  /** A file can be backed up if and only if no component of its path has a colon or a backslash. */
  lemma SafePosix(path: seq<string>)
    requires IsPath(path)
    ensures SafePath(Posix(path)) <==> forall i | 0 <= i < |path| :: ':' !in path[i] && '\\' !in path[i]
  {
    PartsOfPosix(path);
    var value := Posix(path);
    assert value[0] == path[0][0] by { JoinAt(path, 0, '/'); }
    assert path[0][0] in path[0];
    forall i | 0 <= i < |path| && '\\' in path[i] ensures '\\' in value { JoinAt(path, i, '/'); }
    if forall i | 0 <= i < |path| :: '\\' !in path[i] { JoinFree(path, '\\'); }
  }

  lemma {:induction false} AfterFree(path: seq<string>, k: nat, c: char)
    requires c != '/' && forall i | 0 <= i < |path| :: c !in path[i]
    ensures c !in After(path, k, '/')
    decreases |path| - k
  {
    if k < |path| { AfterFree(path, k + 1, c); }
  }

  lemma JoinFree(path: seq<string>, c: char)
    requires path != [] && c != '/' && forall i | 0 <= i < |path| :: c !in path[i]
    ensures c !in Posix(path)
  {
    AfterFree(path, 1, c);
  }

  /** Two different accepted paths can name the same file. */
  lemma AliasedPaths(a: string, b: string)
    requires PartOk(a) && PartOk(b) && IsName(a) && IsName(b) && '\\' !in a && '\\' !in b
    ensures var one, other := a + "/" + b, a + "//" + b;
            SafePath(one) && SafePath(other) && one != other && Parts(one) == [a, b] && Parts(other) == [a, b]
  {
    hide PartOk, Meaningful, Split;
    var one, other := a + "/" + b, a + "//" + b;
    assert one == a + ['/'] + b && other == a + ['/'] + (['/'] + b) && ['/'] + b == [] + ['/'] + b;
    SplitGlue(a, b, '/');
    SplitGlue(a, ['/'] + b, '/');
    SplitGlue([], b, '/');
    SplitWhole(b, '/');
    assert [a] + [b] == [a, b] && [a] + ([[]] + [b]) == [a, [], b];
    MeaningfulTwo(a, b);
    assert |one| != |other|;
    assert one[0] == a[0] && other[0] == a[0] && a[0] in a;
  }

  lemma MeaningfulTwo(a: string, b: string)
    requires IsName(a) && IsName(b)
    ensures Meaningful([a, b]) == [a, b] && Meaningful([a, "", b]) == [a, b]
  {
    NamesAreMeaningful([a, b]);
    NamesAreMeaningful([a]);
    assert [a, "", b][..2] == [a, ""] && [a, ""][..1] == [a];
  }

  // ----- the document

  predicate IsDigest(s: string) { |s| == 64 && forall i | 0 <= i < |s| :: IsHex(s[i]) }

  predicate FileOk(f: BackupFile) { SafePath(f.path) && IsDigest(f.sha256) && f.size >= 0 }

  /** Sorted and without duplicates. */
  predicate Ascending(files: seq<BackupFile>) {
    forall i, j | 0 <= i < j < |files| :: Less(files[i].path, files[j].path)
  }

  function FileDocument(f: BackupFile): Json {
    Object(map["path" := Text(f.path), "sha256" := Text(f.sha256), "size" := Number(f.size)])
  }

  function FileDocuments(files: seq<BackupFile>): seq<Json> {
    seq(|files|, i requires 0 <= i < |files| => FileDocument(files[i]))
  }

  function Optional(s: Option<string>): Json { if s.Some? then Text(s.value) else Null }

  /** `_manifest_payload` */
  function Document(m: Manifest): Json {
    var base := map["files" := List(FileDocuments(m.files)), "format_version" := Number(m.formatVersion)];
    if m.formatVersion == FORMAT_VERSION
    then Object(base + map["created_at" := Optional(m.createdAt), "data_schema_version" := Number(m.dataSchemaVersion),
      "producer" := Optional(m.producer)])
    else Object(base)
  }

  function ParseFile(d: Json): Option<BackupFile> {
    if d.Object? && d.fields.Keys == {"path", "sha256", "size"}
      && d.fields["path"].Text? && d.fields["sha256"].Text? && IsDigest(d.fields["sha256"].s)
      && d.fields["size"].Number? && d.fields["size"].n >= 0 && SafePath(d.fields["path"].s)
    then Some(BackupFile(d.fields["path"].s, d.fields["sha256"].s, d.fields["size"].n))
    else None
  }

  function ParseFiles(items: seq<Json>): Option<seq<BackupFile>> {
    if items == [] then Some([])
    else
      var last := |items| - 1;
      var init, f := ParseFiles(items[..last]), ParseFile(items[last]);
      if init.Some? && f.Some? then Some(init.value + [f.value]) else None
  }

  /** `iso` says which texts the standard library reads as a time stamp with the offset `+00:00` put after them. */
  predicate ValidStamp(d: Json, iso: string -> bool) {
    d.Text? && |d.s| > 0 && d.s[|d.s| - 1] == 'Z' && iso(d.s[..|d.s| - 1])
  }

  const LEGACY_KEYS: set<string> := {"files", "format_version"}
  const CURRENT_KEYS: set<string> := {"created_at", "data_schema_version", "files", "format_version", "producer"}

  /** The document's head: its versions, time stamp and producer, and which fields it must have. */
  predicate HeadOk(d: Json, iso: string -> bool) {
    && d.Object? && "format_version" in d.fields && d.fields["format_version"].Number?
    && match d.fields["format_version"].n
       case 1 => d.fields.Keys == LEGACY_KEYS
       case 2 => d.fields.Keys == CURRENT_KEYS && d.fields["data_schema_version"].Number?
         && d.fields["data_schema_version"].n >= 0
                 && d.fields["producer"] == Text(PRODUCER) && ValidStamp(d.fields["created_at"], iso)
       case _ => false
  }

  /** `_parse_manifest`; `None` is the integrity error. */
  function Parse(d: Json, iso: string -> bool): Option<Manifest> {
    if !HeadOk(d, iso) || !d.fields["files"].List? then None
    else
      var files := ParseFiles(d.fields["files"].items);
      if files.None? || !Ascending(files.value) then None
      else if d.fields["format_version"].n == 1 then Some(Manifest(1, files.value, 0, None, None))
      else Some(Manifest(2, files.value, d.fields["data_schema_version"].n, Some(d.fields["created_at"].s),
        Some(PRODUCER)))
  }

  // ----- the round trip

  lemma FileRoundTrip(f: BackupFile)
    ensures ParseFile(FileDocument(f)) == if FileOk(f) then Some(f) else None
  {
    assert FileDocument(f).fields.Keys == {"path", "sha256", "size"};
  }

  lemma FileExact(d: Json)
    requires ParseFile(d).Some?
    ensures FileOk(ParseFile(d).value) && FileDocument(ParseFile(d).value) == d
  {
    var f := ParseFile(d).value;
    assert FileDocument(f).fields == d.fields;
  }

  predicate FilesOk(files: seq<BackupFile>) { forall i | 0 <= i < |files| :: FileOk(files[i]) }

  lemma {:induction false} FilesRoundTrip(files: seq<BackupFile>)
    ensures ParseFiles(FileDocuments(files)) == if FilesOk(files) then Some(files) else None
  {
    hide ParseFile, FileDocument, FileOk;
    if files != [] {
      var last := |files| - 1;
      FilesRoundTrip(files[..last]);
      FileRoundTrip(files[last]);
      assert FileDocuments(files)[..last] == FileDocuments(files[..last]);
      assert files == files[..last] + [files[last]];
    }
  }

  lemma {:induction false} FilesExact(items: seq<Json>)
    requires ParseFiles(items).Some?
    ensures FilesOk(ParseFiles(items).value) && FileDocuments(ParseFiles(items).value) == items
  {
    hide ParseFile, FileDocument, FileOk;
    if items != [] {
      var last := |items| - 1;
      FilesExact(items[..last]);
      FileExact(items[last]);
      assert items == items[..last] + [items[last]];
    }
  }

  /** A manifest that `_parse_manifest` can give back. */
  predicate Proper(m: Manifest, iso: string -> bool) {
    && FilesOk(m.files) && Ascending(m.files)
    && match m.formatVersion
       case 1 => m.dataSchemaVersion == 0 && m.createdAt == None && m.producer == None
       case 2 => m.dataSchemaVersion >= 0 && m.producer == Some(PRODUCER) && m.createdAt.Some?
         && ValidStamp(Text(m.createdAt.value), iso)
       case _ => false
  }

  lemma DocumentFields(m: Manifest)
    ensures Document(m).Object? && Document(m).fields["files"] == List(FileDocuments(m.files))
    ensures Document(m).fields["format_version"] == Number(m.formatVersion)
    ensures Document(m).fields.Keys == if m.formatVersion == FORMAT_VERSION then CURRENT_KEYS else LEGACY_KEYS
    ensures m.formatVersion == FORMAT_VERSION ==>
              && Document(m).fields["created_at"] == Optional(m.createdAt)
                && Document(m).fields["producer"] == Optional(m.producer)
              && Document(m).fields["data_schema_version"] == Number(m.dataSchemaVersion)
  {
    KeysDiffer();
  }

  lemma KeysDiffer()
    ensures |"created_at"| == 10 && |"data_schema_version"| == 19 && |"files"| == 5 && |"format_version"| == 14
    ensures |"producer"| == 8
  {
  }

  /** Parsing undoes writing exactly for the proper manifests. */
  lemma ManifestRoundTrip(m: Manifest, iso: string -> bool)
    ensures Parse(Document(m), iso) == Some(m) <==> Proper(m, iso)
  {
    hide Document, FileDocuments, ParseFiles, FilesOk, Ascending;
    DocumentFields(m);
    FilesRoundTrip(m.files);
    if Parse(Document(m), iso) == Some(m) { ParseIsExact(Document(m), iso); }
  }

  /** And an accepted document is exactly what the parsed manifest is written as: nothing in it is ignored. */
  lemma ParseIsExact(d: Json, iso: string -> bool)
    requires Parse(d, iso).Some?
    ensures Document(Parse(d, iso).value) == d && Proper(Parse(d, iso).value, iso)
  {
    hide FileDocuments, ParseFiles, FilesOk, Ascending;
    var m := Parse(d, iso).value;
    FilesExact(d.fields["files"].items);
    DocumentFields(m);
    assert Document(m).fields.Keys == d.fields.Keys;
    hide Document;
    assert forall k | k in d.fields :: Document(m).fields[k] == d.fields[k];
    assert Document(m).fields == d.fields;
  }

  /** The loop of `_parse_manifest` over the file items. */
  method ParseManifest(d: Json, iso: string -> bool) returns (m: Option<Manifest>)
    ensures m == Parse(d, iso)
  {
    if !HeadOk(d, iso) || !d.fields["files"].List? { return None; }
    var items, files := d.fields["files"].items, [];
    for i := 0 to |items|
      invariant ParseFiles(items[..i]) == Some(files)
    {
      assert items[..i + 1][..i] == items[..i];
      var f := ParseFile(items[i]);
      if f.None? {
        ParseFilesStops(items, i + 1);
        return None;
      }
      files := files + [f.value];
    }
    assert items[..|items|] == items;
    if !Ascending(files) { return None; }
    if d.fields["format_version"].n == 1 { return Some(Manifest(1, files, 0, None, None)); }
    return Some(Manifest(2, files, d.fields["data_schema_version"].n, Some(d.fields["created_at"].s), Some(PRODUCER)));
  }

  lemma {:induction false} ParseFilesStops(items: seq<Json>, i: nat)
    requires i <= |items| && ParseFiles(items[..i]).None?
    ensures ParseFiles(items).None?
  {
    if i < |items| {
      assert items[..|items| - 1][..i] == items[..i];
      ParseFilesStops(items[..|items| - 1], i);
    } else { assert items[..i] == items; }
  }
}
