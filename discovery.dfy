/**
 * Discovery of (media file, sidecar, album title) triples over a directory
 * listing, as `GooglePhotosProcessor._find_media_files`, `_is_media_file` and
 * `_find_metadata_file` do over `os.walk`.
 */
module Discovery {
  import opened Wrappers
  import opened Text

  /** The fourteen supported extensions, in lower case with their dot. */
  const MediaExtensions: seq<string> :=
    [".jpg", ".jpeg", ".png", ".gif", ".bmp", ".tiff", ".tif",
     ".heic", ".heif", ".mp4", ".mov", ".avi", ".mkv", ".webm"]

  /** A file's location: the directory (the `root` of `os.walk`) and the bare name. */
  datatype FilePath = FilePath(dir: string, name: string)

  /**
   * `str(Path(dir) / name)` for a `dir` as `os.walk` reports it under a Takeout
   * path that is neither `.` nor ends in `/`; `Path` would drop a leading `./`
   * and a doubled slash, which this join keeps.
   */
  function PathText(p: FilePath): string {
    p.dir + "/" + p.name
  }

  /** What a directory's `Metadaten.json` album descriptor yields. */
  datatype Descriptor =
    | NoDescriptor                    // no such file
    | Unreadable                      // present, but reading or decoding it raised
    | AlbumData(title: Option<string>) // decoded object; `title` key absent is None

  /**
   * One step of `os.walk`: the directory, the names of its files, every name that
   * exists in it (what `Path.exists` answers for a sibling), and its descriptor.
   */
  datatype Directory = Directory(path: string, files: seq<string>, entries: set<string>, descriptor: Descriptor)

  /** One unit of work: the media file, its sidecar and the album title in force. */
  datatype MediaEntry = MediaEntry(file: FilePath, sidecar: FilePath, album: Option<string>)

  /** Python's `Path(name).suffix` for a bare file name. */
  function Suffix(name: string): string {
    var i := LastIndexOf(name, '.');
    if 0 < i < |name| - 1 then name[i..] else []
  }

  /** `_is_media_file`: the lower-cased suffix is one of the supported extensions. */
  predicate IsMediaFile(name: string) {
    ToLower(Suffix(name)) in MediaExtensions
  }

  /**
   * A name is a media file exactly when, after some dot that is not its first
   * character and is followed by no other dot, the rest of the name lower-cases
   * to one of the supported extensions.
   */
  lemma IsMediaFileIff(name: string)
    ensures IsMediaFile(name) <==>
      exists k :: 0 < k < |name| && name[k] == '.' &&
                  (forall j :: k < j < |name| ==> name[j] != '.') &&
                  ToLower(name[k..]) in MediaExtensions
  {
    MediaFileHasExtension(name);
    ExtensionMakesMediaFile(name);
  }

  lemma MediaFileHasExtension(name: string)
    ensures IsMediaFile(name) ==>
      exists k :: 0 < k < |name| && name[k] == '.' &&
                  (forall j :: k < j < |name| ==> name[j] != '.') &&
                  ToLower(name[k..]) in MediaExtensions
  {
    var i := LastIndexOf(name, '.');
    if IsMediaFile(name) {
      ExtensionsAreLong();
      assert 0 < i < |name| - 1;
    }
  }

  lemma ExtensionMakesMediaFile(name: string)
    ensures (exists k :: 0 < k < |name| && name[k] == '.' &&
                         (forall j :: k < j < |name| ==> name[j] != '.') &&
                         ToLower(name[k..]) in MediaExtensions) ==>
      IsMediaFile(name)
  {
    if exists k :: 0 < k < |name| && name[k] == '.' &&
                   (forall j :: k < j < |name| ==> name[j] != '.') &&
                   ToLower(name[k..]) in MediaExtensions {
      var k :| 0 < k < |name| && name[k] == '.' &&
               (forall j :: k < j < |name| ==> name[j] != '.') &&
               ToLower(name[k..]) in MediaExtensions;
      ExtensionsAreLong();
      assert k == LastIndexOf(name, '.');
      assert |name[k..]| >= 4;
    }
  }

  /** Every supported extension is a dot followed by at least three letters. */
  lemma ExtensionsAreLong()
    ensures forall e :: e in MediaExtensions ==> |e| >= 4 && e[0] == '.'
  {
  }

  /** Upper-case and mixed-case spellings of a supported extension are accepted alike. */
  lemma ExtensionCaseInsensitive(name: string)
    ensures IsMediaFile(name) <==> IsMediaFile(ToLower(name))
  {
    var lower := ToLower(name);
    var i := LastIndexOf(name, '.');
    assert LastIndexOf(lower, '.') == i by {
      var i' := LastIndexOf(lower, '.');
      assert i' >= 0 ==> name[i'] == '.';
      assert i >= 0 ==> lower[i] == '.';
    }
    if 0 < i < |name| - 1 {
      assert ToLower(lower[i..]) == ToLower(name[i..]) by {
        forall j | 0 <= j < |name| - i ensures ToLower(lower[i..])[j] == ToLower(name[i..])[j] {
          LowerCharIdempotent(name[i + j]);
        }
      }
    }
  }

  /** The sidecar names `_find_metadata_file` tries, in order. */
  function SidecarCandidates(name: string): seq<string> {
    [name + ".supplemental-metadata.json", name + ".supplemental-metadata copy.json"]
  }

  /** The first candidate that exists in the directory, if any. */
  function FirstExisting(candidates: seq<string>, entries: set<string>): (r: Option<string>)
    ensures r.None? <==> forall c :: c in candidates ==> c !in entries
    ensures r.Some? ==> exists k :: 0 <= k < |candidates| && candidates[k] == r.value &&
                                    r.value in entries &&
                                    forall j :: 0 <= j < k ==> candidates[j] !in entries
  {
    if candidates == [] then None
    else if candidates[0] in entries then Some(candidates[0])
    else
      var r := FirstExisting(candidates[1..], entries);
      assert forall c :: c in candidates[1..] ==> c in candidates;
      if r.Some? then
        var k :| 0 <= k < |candidates[1..]| && candidates[1..][k] == r.value &&
                 r.value in entries &&
                 forall j :: 0 <= j < k ==> candidates[1..][j] !in entries;
        assert candidates[k + 1] == r.value;
        r
      else r
  }

  /** The sidecar of `name` in `dir`: the canonical name if it exists, else the "copy" variant. */
  lemma SidecarChoice(dir: Directory, name: string)
    ensures var cs := SidecarCandidates(name);
      FirstExisting(cs, dir.entries) ==
        if cs[0] in dir.entries then Some(cs[0])
        else if cs[1] in dir.entries then Some(cs[1])
        else None
  {
    var cs := SidecarCandidates(name);
    assert cs[1..][1..] == [];
  }

  /** `_find_metadata_file`: the first candidate sidecar that exists next to the file. */
  method FindMetadataFile(dir: Directory, name: string) returns (r: Option<FilePath>)
    ensures r.None? <==> FirstExisting(SidecarCandidates(name), dir.entries).None?
    ensures r.Some? ==> r.value == FilePath(dir.path, FirstExisting(SidecarCandidates(name), dir.entries).value)
  {
    var possibleNames := SidecarCandidates(name);
    var k := 0;
    while k < |possibleNames|
      invariant 0 <= k <= |possibleNames|
      invariant FirstExisting(possibleNames[k..], dir.entries) == FirstExisting(possibleNames, dir.entries)
    {
      if possibleNames[k] in dir.entries {
        return Some(FilePath(dir.path, possibleNames[k]));
      }
      assert possibleNames[k..][1..] == possibleNames[k + 1..];
      k := k + 1;
    }
    return None;
  }

  /** The album title a directory gives its media files (`album_data.get('title', '')`). */
  function AlbumTitle(dir: Directory): Option<string> {
    match dir.descriptor
    case NoDescriptor => None
    case Unreadable => None
    case AlbumData(title) => Some(title.GetOr(""))
  }

  /** The entry a file contributes: one if it is media and has a sidecar, none otherwise. */
  function EntryFor(dir: Directory, name: string): seq<MediaEntry> {
    var sidecar := FirstExisting(SidecarCandidates(name), dir.entries);
    if IsMediaFile(name) && sidecar.Some? then
      [MediaEntry(FilePath(dir.path, name), FilePath(dir.path, sidecar.value), AlbumTitle(dir))]
    else []
  }

  /** The concatenation of `f(x)` over `xs`, in order. */
  function FlatMap<A, B>(xs: seq<A>, f: A -> seq<B>): seq<B> {
    if xs == [] then [] else FlatMap(xs[..|xs| - 1], f) + f(xs[|xs| - 1])
  }

  lemma {:induction false} FlatMapMembership<A, B>(xs: seq<A>, f: A -> seq<B>, b: B)
    ensures b in FlatMap(xs, f) <==> exists j :: 0 <= j < |xs| && b in f(xs[j])
  {
    if xs != [] {
      var init := xs[..|xs| - 1];
      FlatMapMembership(init, f, b);
      if b in FlatMap(init, f) {
        var j :| 0 <= j < |init| && b in f(init[j]);
        assert xs[j] == init[j];
      }
      if exists j :: 0 <= j < |xs| && b in f(xs[j]) {
        var j :| 0 <= j < |xs| && b in f(xs[j]);
        if j < |init| {
          assert init[j] == xs[j];
        }
      }
    }
  }

  /** The entries of the files `names` of `dir`, in listing order. */
  function DirEntries(dir: Directory, names: seq<string>): seq<MediaEntry> {
    FlatMap(names, name => EntryFor(dir, name))
  }

  /** The specification of `_find_media_files`: every directory's entries, in walk order. */
  function Discover(dirs: seq<Directory>): seq<MediaEntry> {
    FlatMap(dirs, (dir: Directory) => DirEntries(dir, dir.files))
  }

  /** `_find_media_files` over a walk listing. */
  method FindMediaFiles(dirs: seq<Directory>) returns (mediaFiles: seq<MediaEntry>)
    ensures mediaFiles == Discover(dirs)
  {
    mediaFiles := [];
    for i := 0 to |dirs|
      invariant mediaFiles == Discover(dirs[..i])
    {
      var dir := dirs[i];
      var albumTitle: Option<string> := None;
      match dir.descriptor {
        case NoDescriptor =>
        case Unreadable =>
        case AlbumData(title) =>
          albumTitle := Some(title.GetOr(""));
      }
      var found := ScanDirectory(dir, albumTitle);
      mediaFiles := mediaFiles + found;
      assert dirs[..i + 1][..i] == dirs[..i];
    }
    assert dirs[..|dirs|] == dirs;
  }

  lemma DirEntriesStep(dir: Directory, names: seq<string>, j: int)
    requires 0 <= j < |names|
    ensures DirEntries(dir, names[..j + 1]) == DirEntries(dir, names[..j]) + EntryFor(dir, names[j])
  {
    assert names[..j + 1][..j] == names[..j];
  }

  /** The inner loop of `_find_media_files`: the entries of one directory. */
  method ScanDirectory(dir: Directory, albumTitle: Option<string>) returns (found: seq<MediaEntry>)
    requires albumTitle == AlbumTitle(dir)
    ensures found == DirEntries(dir, dir.files)
  {
    found := [];
    for j := 0 to |dir.files|
      invariant found == DirEntries(dir, dir.files[..j])
    {
      var file := dir.files[j];
      DirEntriesStep(dir, dir.files, j);
      if IsMediaFile(file) {
        var metadataPath := FindMetadataFile(dir, file);
        if metadataPath.Some? {
          found := found + [MediaEntry(FilePath(dir.path, file), metadataPath.value, albumTitle)];
        }
      }
    }
    assert dir.files[..|dir.files|] == dir.files;
  }

  /**
   * Discovery emits exactly what the listed files contribute: an entry is in the
   * result iff it is the entry of some file of some directory of the walk (one
   * pairing a media file with its sidecar and its OWN directory's title).
   */
  lemma DiscoverMembership(dirs: seq<Directory>, e: MediaEntry)
    ensures e in Discover(dirs) <==>
      exists i, j :: 0 <= i < |dirs| && 0 <= j < |dirs[i].files| && e in EntryFor(dirs[i], dirs[i].files[j])
  {
    FlatMapMembership(dirs, (dir: Directory) => DirEntries(dir, dir.files), e);
    forall i | 0 <= i < |dirs| {
      FlatMapMembership(dirs[i].files, name => EntryFor(dirs[i], name), e);
    }
  }

  /** The one entry a file can contribute, spelled out. */
  lemma EntryForIff(dir: Directory, name: string, e: MediaEntry)
    ensures e in EntryFor(dir, name) <==>
      var sidecar := FirstExisting(SidecarCandidates(name), dir.entries);
      IsMediaFile(name) && sidecar.Some? &&
      e == MediaEntry(FilePath(dir.path, name), FilePath(dir.path, sidecar.value), AlbumTitle(dir))
  {
  }

  predicate DistinctNames(names: seq<string>) {
    forall j, k :: 0 <= j < k < |names| ==> names[j] != names[k]
  }

  /** What `os.walk` guarantees: no directory twice, no file name twice in a directory. */
  predicate WellFormedListing(dirs: seq<Directory>) {
    (forall i, k :: 0 <= i < k < |dirs| ==> dirs[i].path != dirs[k].path) &&
    (forall i :: 0 <= i < |dirs| ==> DistinctNames(dirs[i].files))
  }

  predicate NoDuplicates(media: seq<MediaEntry>) {
    forall j, k :: 0 <= j < k < |media| ==> media[j].file != media[k].file
  }

  lemma {:induction false} DirEntriesShape(dir: Directory, names: seq<string>)
    ensures forall e :: e in DirEntries(dir, names) ==> e.file.dir == dir.path && e.file.name in names
  {
    if names != [] {
      DirEntriesShape(dir, names[..|names| - 1]);
    }
  }

  lemma {:induction false} DirEntriesNoDuplicates(dir: Directory, names: seq<string>)
    requires DistinctNames(names)
    ensures NoDuplicates(DirEntries(dir, names))
  {
    if names != [] {
      var init := names[..|names| - 1];
      assert DistinctNames(init);
      DirEntriesNoDuplicates(dir, init);
      DirEntriesShape(dir, init);
      var prefix := DirEntries(dir, init);
      var last := names[|names| - 1];
      forall e | e in prefix ensures e.file.name != last {
        var j :| 0 <= j < |init| && init[j] == e.file.name;
      }
    }
  }

  /** Over a well-formed walk, no media file is emitted twice. */
  lemma {:induction false} DiscoverNoDuplicates(dirs: seq<Directory>)
    requires WellFormedListing(dirs)
    ensures NoDuplicates(Discover(dirs))
  {
    if dirs != [] {
      var init := dirs[..|dirs| - 1];
      var last := dirs[|dirs| - 1];
      assert WellFormedListing(init);
      DiscoverNoDuplicates(init);
      DirEntriesNoDuplicates(last, last.files);
      DirEntriesShape(last, last.files);
      forall e | e in Discover(init) ensures e.file.dir != last.path {
        DiscoverMembership(init, e);
      }
    }
  }
}
