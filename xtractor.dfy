/**
 * The control flow of `OfficeMetadata`: the signature test, `getMetadata`
 * (open the archive, flatten both metadata documents, locate media, extract
 * when asked), `getMedia` (create the output directory only if absent, then
 * extract), `recursiveSearch` and the file-or-directory dispatch.
 *
 * The filesystem is a `Disk` object whose fields the operations update in
 * place: a map from path to node and a log of the extractions performed.
 * What the ZIP reader and the XML parser would make of a file is part of
 * the node (`Regular.archive`), so neither is modelled.
 */
module Xtractor {
  import opened Wrappers
  import opened Text
  import opened Patterns
  import opened Locator
  import opened Metadata
  import opened Paths

  newtype byte = x: int | 0 <= x < 256

  /** `b"PK"`, the first two bytes of a ZIP file. */
  const ZIP_SIGNATURE: seq<byte> := [0x50, 0x4B]

  /** `read(2)` on a file opened for reading: at most its first two bytes. */
  function ReadTwo(content: seq<byte>): (r: seq<byte>)
    ensures |r| == if |content| < 2 then |content| else 2
    ensures r == content[..|r|]
  {
    if |content| < 2 then content else content[..2]
  }

  /**
   * `isPKFile`: despite its name it holds when the file does NOT start with
   * the ZIP signature, files shorter than two bytes included.
   */
  function IsPKFile(content: seq<byte>): (r: bool)
    ensures r <==> !(|content| >= 2 && content[0] == 0x50 && content[1] == 0x4B)
  {
    ReadTwo(content) != ZIP_SIGNATURE
  }

  /** What a ZIP reader finds in a valid archive. A part is `None` when it is
    * missing or is not well-formed XML; either way reading it raises. */
  datatype Package = Package(names: seq<string>, core: Option<seq<Element>>, app: Option<seq<Element>>)

  /** A directory, or a file with its bytes and, when it is a valid ZIP archive, its package. */
  datatype Node = Directory | Regular(content: seq<byte>, archive: Option<Package>)

  /** One `extractall(members=..., path=dir)` call. */
  datatype Extraction = Extraction(dir: string, members: seq<string>)

  datatype FsState = FsState(nodes: map<string, Node>, extractions: seq<Extraction>)

  /** Exceptions that end the run uncaught. */
  datatype Fault = FileNotFound | IsADirectory | NotADirectory | UnreadablePart(part: string)

  /** How processing one document ends. */
  datatype Outcome =
    | Parsed(core: map<string, string>, app: map<string, string>, media: seq<string>, extractedTo: Option<string>)
      /** `sys.exit()` after a bad archive; `notOffice` says whether the second diagnostic was printed. */
    | Exited(notOffice: bool)
    | Raised(fault: Fault)

  /** The command line: the file or directory, `-d` (default `.`) and `-m`. */
  datatype Options = Options(item: string, mediaDir: string, dumpMedia: bool)

  datatype Visit = Visit(path: string, outcome: Outcome)

  /** Opening `path` and reading its signature. */
  function SignatureCheck(nodes: map<string, Node>, path: string): Result<bool, Fault>
  {
    if path !in nodes then Err(FileNotFound)
    else match nodes[path]
      case Directory => Err(IsADirectory)
      case Regular(content, _) => Ok(IsPKFile(content))
  }

  /** `extractall` into `dir`: fails if `dir` is a file, else logs the extraction. */
  function ExtractAllEffect(fs: FsState, dir: string, members: seq<string>): (FsState, Option<Fault>)
  {
    if dir in fs.nodes && fs.nodes[dir].Regular? then (fs, Some(NotADirectory))
    else (FsState(fs.nodes, fs.extractions + [Extraction(dir, members)]), None)
  }

  /** `getMedia` into `dir`: `mkdir` when nothing exists at `dir`, then `extractall`. */
  function GetMediaEffect(fs: FsState, dir: string, members: seq<string>): (FsState, Option<Fault>)
  {
    var made := if dir in fs.nodes then fs else FsState(fs.nodes[dir := Directory], fs.extractions);
    ExtractAllEffect(made, dir, members)
  }

  /**
   * `getMetadata(file)`, with the signature of `probe` read after a bad
   * archive. The disk changes only through a successful extraction, and the
   * run exits quietly only for a regular file that is not an archive whose
   * probe opens as a regular file.
   */
  function ProcessProbing(opts: Options, fs: FsState, file: string, probe: string): (r: (FsState, Outcome))
    ensures r.0 != fs ==> r.1.Parsed? && r.1.extractedTo.Some?
    ensures r.1.Exited? <==>
      && file in fs.nodes && fs.nodes[file].Regular? && fs.nodes[file].archive.None?
      && probe in fs.nodes && fs.nodes[probe].Regular?
  {
    if file !in fs.nodes then (fs, Raised(FileNotFound))
    else match fs.nodes[file]
      case Directory => (fs, Raised(IsADirectory))
      case Regular(_, None) =>
        (fs, match SignatureCheck(fs.nodes, probe)
             case Ok(notOffice) => Exited(notOffice)
             case Err(fault) => Raised(fault))
      case Regular(_, Some(pkg)) =>
        if pkg.core.None? then (fs, Raised(UnreadablePart("docProps/core.xml")))
        else if pkg.app.None? then (fs, Raised(UnreadablePart("docProps/app.xml")))
        else
          var core := Flatten(pkg.core.value);
          var app := Flatten(pkg.app.value);
          var media := Select(MEDIA_PATTERN, pkg.names);
          if |media| < 1 || !opts.dumpMedia then (fs, Parsed(core, app, media, None))
          else
            var dir := MediaDir(opts.mediaDir, file);
            var (fs', fault) := GetMediaEffect(fs, dir, media);
            if fault.Some? then (fs', Raised(fault.value)) else (fs', Parsed(core, app, media, Some(dir)))
  }

  /** `getMetadata` as written: after a bad archive it tests the signature
    * of `self.item`, whatever `file` is, so it exits quietly only when the
    * item is itself a regular file. */
  function ProcessAsWritten(opts: Options, fs: FsState, file: string): (r: (FsState, Outcome))
    ensures r.0 != fs ==> r.1.Parsed? && r.1.extractedTo.Some?
    ensures r.1.Exited? <==>
      && file in fs.nodes && fs.nodes[file].Regular? && fs.nodes[file].archive.None?
      && opts.item in fs.nodes && fs.nodes[opts.item].Regular?
  {
    ProcessProbing(opts, fs, file, opts.item)
  }

  /** `getMetadata` with the signature test applied to the document itself:
    * every regular file that is not an archive exits quietly. */
  function Process(opts: Options, fs: FsState, file: string): (r: (FsState, Outcome))
    ensures r.0 != fs ==> r.1.Parsed? && r.1.extractedTo.Some?
    ensures r.1.Exited? <==> file in fs.nodes && fs.nodes[file].Regular? && fs.nodes[file].archive.None?
  {
    ProcessProbing(opts, fs, file, file)
  }

  /** The run has stopped: the last document processed did not parse. */
  predicate Halted(visits: seq<Visit>)
  {
    |visits| > 0 && !visits[|visits| - 1].outcome.Parsed?
  }

  /** `recursiveSearch` over a listing of `opts.item`, read left to right. */
  function Search(opts: Options, fs: FsState, listing: seq<string>): (r: (FsState, seq<Visit>))
    ensures |r.1| <= |listing|
    ensures forall j :: 0 <= j < |r.1| - 1 ==> r.1[j].outcome.Parsed?
    decreases |listing|
  {
    if listing == [] then (fs, [])
    else
      var (fs1, visits) := Search(opts, fs, listing[..|listing| - 1]);
      var name := listing[|listing| - 1];
      if Halted(visits) || !Matches(DOCX_PATTERN, name) then (fs1, visits)
      else
        var path := Child(opts.item, name);
        var (fs2, outcome) := ProcessAsWritten(opts, fs1, path);
        (fs2, visits + [Visit(path, outcome)])
  }

  /** `xtractor`: a directory is searched, a file processed, anything else ignored. */
  function Run(opts: Options, fs: FsState, listing: seq<string>): (r: (FsState, seq<Visit>))
    ensures opts.item !in fs.nodes ==> r == (fs, [])
    ensures forall j :: 0 <= j < |r.1| - 1 ==> r.1[j].outcome.Parsed?
  {
    if opts.item !in fs.nodes then (fs, [])
    else if fs.nodes[opts.item].Directory? then Search(opts, fs, listing)
    else
      var (fs1, outcome) := ProcessAsWritten(opts, fs, opts.item);
      (fs1, [Visit(opts.item, outcome)])
  }

  /** The filesystem the utility reads and writes. */
  class Disk {
    var nodes: map<string, Node>
    var extractions: seq<Extraction>

    constructor (initial: map<string, Node>)
      ensures nodes == initial && extractions == []
    {
      nodes := initial;
      extractions := [];
    }

    function State(): FsState
      reads this
    {
      FsState(nodes, extractions)
    }

    /** `isPKFile(path)`: opens `path` and compares its first two bytes with `PK`. */
    method IsPKFileAt(path: string) returns (r: Result<bool, Fault>)
      ensures r.Ok? <==> path in nodes && nodes[path].Regular?
      ensures r.Ok? ==> r.value == IsPKFile(nodes[path].content)
      ensures r == SignatureCheck(nodes, path)
    {
      if path !in nodes {
        return Err(FileNotFound);
      }
      match nodes[path]
      case Directory =>
        r := Err(IsADirectory);
      case Regular(content, _) =>
        var head := ReadTwo(content);
        r := Ok(head != ZIP_SIGNATURE);
    }

    /** `os.mkdir(path)`, which the source calls only where nothing exists. */
    method MakeDir(path: string)
      requires path !in nodes
      modifies this
      ensures nodes == old(nodes)[path := Directory]
      ensures extractions == old(extractions)
    {
      nodes := nodes[path := Directory];
    }

    /** `extractall(members=members, path=dir)`. */
    method ExtractAll(members: seq<string>, dir: string) returns (fault: Option<Fault>)
      modifies this
      ensures (State(), fault) == ExtractAllEffect(old(State()), dir, members)
    {
      if dir in nodes && nodes[dir].Regular? {
        return Some(NotADirectory);
      }
      extractions := extractions + [Extraction(dir, members)];
      fault := None;
    }
  }

  /** `getMedia`: derives the directory, creates it only if absent, extracts. */
  method GetMedia(opts: Options, disk: Disk, media: seq<string>, filename: string) returns (fault: Option<Fault>)
    modifies disk
    ensures (disk.State(), fault) == GetMediaEffect(old(disk.State()), MediaDir(opts.mediaDir, filename), media)
  {
    var path := MediaDir(opts.mediaDir, filename);
    if path !in disk.nodes {
      disk.MakeDir(path);
    }
    fault := disk.ExtractAll(media, path);
  }

  /** `getMetadata(file)`; after a bad archive it reads the signature of `opts.item`. */
  method GetMetadata(opts: Options, disk: Disk, file: string) returns (outcome: Outcome)
    modifies disk
    ensures (disk.State(), outcome) == ProcessAsWritten(opts, old(disk.State()), file)
  {
    if file !in disk.nodes {
      return Raised(FileNotFound);
    }
    match disk.nodes[file]
    case Directory =>
      outcome := Raised(IsADirectory);
    case Regular(_, None) =>
      var signature := disk.IsPKFileAt(opts.item);
      outcome := match signature
        case Ok(notOffice) => Exited(notOffice)
        case Err(fault) => Raised(fault);
    case Regular(_, Some(pkg)) =>
      if pkg.core.None? {
        return Raised(UnreadablePart("docProps/core.xml"));
      }
      var core := ParseXml(pkg.core.value);
      if pkg.app.None? {
        return Raised(UnreadablePart("docProps/app.xml"));
      }
      var app := ParseXml(pkg.app.value);
      var media := HasMediaData(pkg.names);
      if |media| < 1 || !opts.dumpMedia {
        outcome := Parsed(core, app, media, None);
      } else {
        var fault := GetMedia(opts, disk, media, file);
        outcome := if fault.Some? then Raised(fault.value)
          else Parsed(core, app, media, Some(MediaDir(opts.mediaDir, file)));
      }
  }

  /** Once a run has halted, later names in the listing change nothing. */
  lemma {:induction false} SearchStaysHalted(opts: Options, fs: FsState, listing: seq<string>, i: nat)
    requires i <= |listing| && Halted(Search(opts, fs, listing[..i]).1)
    ensures Search(opts, fs, listing) == Search(opts, fs, listing[..i])
    decreases |listing| - i
  {
    if i < |listing| {
      assert listing[..i + 1][..i] == listing[..i];
      SearchStaysHalted(opts, fs, listing, i + 1);
    } else {
      assert listing[..i] == listing;
    }
  }

  /** `recursiveSearch`: processes each listed `.docx` name in turn; an
    * outcome other than `Parsed` ends the run. */
  method RecursiveSearch(opts: Options, disk: Disk, listing: seq<string>) returns (visits: seq<Visit>)
    modifies disk
    ensures (disk.State(), visits) == Search(opts, old(disk.State()), listing)
  {
    ghost var start := disk.State();
    visits := [];
    var i := 0;
    while i < |listing|
      invariant 0 <= i <= |listing|
      invariant (disk.State(), visits) == Search(opts, start, listing[..i])
      invariant !Halted(visits)
    {
      assert listing[..i + 1][..i] == listing[..i];
      var name := listing[i];
      if Matches(DOCX_PATTERN, name) {
        var path := Child(opts.item, name);
        var outcome := GetMetadata(opts, disk, path);
        visits := visits + [Visit(path, outcome)];
        if !outcome.Parsed? {
          SearchStaysHalted(opts, start, listing, i + 1);
          return;
        }
      }
      i := i + 1;
    }
    assert listing[..i] == listing;
  }

  /** `xtractor`: `listing` stands for `os.listdir(item)`. */
  method Xtractor(opts: Options, disk: Disk, listing: seq<string>) returns (visits: seq<Visit>)
    modifies disk
    ensures (disk.State(), visits) == Run(opts, old(disk.State()), listing)
  {
    if opts.item in disk.nodes && disk.nodes[opts.item].Directory? {
      visits := RecursiveSearch(opts, disk, listing);
    } else if opts.item in disk.nodes {
      var outcome := GetMetadata(opts, disk, opts.item);
      visits := [Visit(opts.item, outcome)];
    } else {
      visits := [];
    }
  }

  /**
   * Extraction happens exactly when media was found and `-m` was given; it
   * targets the derived directory and appends one extraction of the media
   * list. Without it the filesystem is untouched, so no directory is made
   * for a document without media even when `-m` was given.
   */
  lemma ExtractionGuard(opts: Options, fs: FsState, file: string, probe: string)
    ensures var (fs', outcome) := ProcessProbing(opts, fs, file, probe);
      outcome.Parsed? ==>
        && (outcome.extractedTo.Some? <==> |outcome.media| > 0 && opts.dumpMedia)
        && (outcome.extractedTo.None? ==> fs' == fs)
        && (outcome.extractedTo.Some? ==>
              && outcome.extractedTo.value == MediaDir(opts.mediaDir, file)
              && fs'.extractions == fs.extractions + [Extraction(outcome.extractedTo.value, outcome.media)])
  {
  }

  /**
   * The output directory is created only if nothing existed at its path; an
   * existing directory is reused as it is.
   */
  lemma CreateOnlyIfAbsent(opts: Options, fs: FsState, file: string, probe: string)
    ensures var (fs', outcome) := ProcessProbing(opts, fs, file, probe);
      outcome.Parsed? && outcome.extractedTo.Some? ==>
        var dir := outcome.extractedTo.value;
        && (dir in fs.nodes ==> fs.nodes[dir] == Directory && fs'.nodes == fs.nodes)
        && (dir !in fs.nodes ==> fs'.nodes == fs.nodes[dir := Directory])
  {
  }

  /** What a valid archive yields: both documents flattened and the media
    * entries located, unless the extraction it must make finds a regular
    * file where its directory should be. */
  lemma ProcessReadsPackage(opts: Options, fs: FsState, file: string, probe: string, content: seq<byte>, pkg: Package)
    requires file in fs.nodes && fs.nodes[file] == Regular(content, Some(pkg))
    requires pkg.core.Some? && pkg.app.Some?
    ensures var outcome := ProcessProbing(opts, fs, file, probe).1;
      outcome.Parsed? || outcome == Raised(NotADirectory)
    ensures var outcome := ProcessProbing(opts, fs, file, probe).1;
      outcome.Parsed? ==>
        && outcome.core == Flatten(pkg.core.value)
        && outcome.app == Flatten(pkg.app.value)
        && outcome.media == Select(MEDIA_PATTERN, pkg.names)
    ensures var outcome := ProcessProbing(opts, fs, file, probe).1;
      var dir := MediaDir(opts.mediaDir, file);
      outcome == Raised(NotADirectory) <==>
        |Select(MEDIA_PATTERN, pkg.names)| > 0 && opts.dumpMedia && dir in fs.nodes && fs.nodes[dir].Regular?
  {
  }

  /** A file that is not a ZIP archive ends the run, reporting whether its
    * own first two bytes are something other than `PK`. */
  lemma BadArchiveReportsOwnSignature(opts: Options, fs: FsState, file: string, content: seq<byte>)
    requires file in fs.nodes && fs.nodes[file] == Regular(content, None)
    ensures Process(opts, fs, file) == (fs, Exited(IsPKFile(content)))
  {
  }

  /** A file the run can take for a document though it is not a ZIP archive. */
  const BAD_DOCUMENT: Node := Regular([0x41], None)

  /**
   * As written, a bad archive found by `recursiveSearch` has the signature of
   * the searched directory read instead of its own: opening the directory
   * raises before the diagnostic is printed.
   */
  lemma ProbeOfItemRaises()
    ensures var opts := Options("docs", ".", false);
      var fs := FsState(map["docs" := Directory, "docs/bad.docx" := BAD_DOCUMENT], []);
      && ProcessAsWritten(opts, fs, "docs/bad.docx").1 == Raised(IsADirectory)
      && Process(opts, fs, "docs/bad.docx").1 == Exited(true)
  {
  }

  /** For a single file the two readings agree: the item is the document. */
  lemma SingleFileProbeAgrees(opts: Options, fs: FsState)
    ensures ProcessAsWritten(opts, fs, opts.item) == Process(opts, fs, opts.item)
  {
  }

  /**
   * Processing is additive: every node of the map is left as it was, the
   * extraction log only grows, and a node that appears is a directory some
   * extraction targets. The map does not hold the files an extraction
   * writes below its directory.
   */
  ghost predicate Additive(fs: FsState, fs': FsState)
  {
    && (forall p :: p in fs.nodes ==> p in fs'.nodes && fs'.nodes[p] == fs.nodes[p])
    && fs.extractions <= fs'.extractions
    && (forall p :: p in fs'.nodes && p !in fs.nodes ==>
          fs'.nodes[p] == Directory && exists k :: 0 <= k < |fs'.extractions| && fs'.extractions[k].dir == p)
  }

  lemma ProcessAdditive(opts: Options, fs: FsState, file: string, probe: string)
    ensures Additive(fs, ProcessProbing(opts, fs, file, probe).0)
  {
    var fs' := ProcessProbing(opts, fs, file, probe).0;
    forall p | p in fs'.nodes && p !in fs.nodes
      ensures exists k :: 0 <= k < |fs'.extractions| && fs'.extractions[k].dir == p
    {
      assert fs'.extractions[|fs'.extractions| - 1].dir == p;
    }
  }

  lemma AdditiveTransitive(a: FsState, b: FsState, c: FsState)
    requires Additive(a, b) && Additive(b, c)
    ensures Additive(a, c)
  {
    forall p | p in c.nodes && p !in a.nodes
      ensures exists k :: 0 <= k < |c.extractions| && c.extractions[k].dir == p
    {
      if p in b.nodes {
        var k :| 0 <= k < |b.extractions| && b.extractions[k].dir == p;
        assert c.extractions[k] == b.extractions[k];
      }
    }
  }

  /** A whole directory run removes nothing and alters no node of the map. */
  lemma {:induction false} SearchAdditive(opts: Options, fs: FsState, listing: seq<string>)
    ensures Additive(fs, Search(opts, fs, listing).0)
    decreases |listing|
  {
    if listing == [] {
      assert Additive(fs, fs);
    } else {
      var init := listing[..|listing| - 1];
      SearchAdditive(opts, fs, init);
      var (fs1, visits) := Search(opts, fs, init);
      var name := listing[|listing| - 1];
      if !Halted(visits) && Matches(DOCX_PATTERN, name) {
        ProcessAdditive(opts, fs1, Child(opts.item, name), opts.item);
        AdditiveTransitive(fs, fs1, Search(opts, fs, listing).0);
      }
    }
  }

  /**
   * A directory run visits the `.docx` names of the listing in order, as
   * `item/name`: it visits all of them unless one does not parse, in which
   * case that one is the last visited and every earlier one parsed.
   */
  lemma {:induction false} SearchVisitsTargets(opts: Options, fs: FsState, listing: seq<string>)
    ensures var visits := Search(opts, fs, listing).1;
      var targets := DocxTargets(opts.item, listing);
      && |visits| <= |targets|
      && (forall j :: 0 <= j < |visits| ==> visits[j].path == targets[j])
      && (forall j :: 0 <= j < |visits| - 1 ==> visits[j].outcome.Parsed?)
      && (!Halted(visits) ==> |visits| == |targets|)
    decreases |listing|
  {
    if listing != [] {
      var init := listing[..|listing| - 1];
      SearchVisitsTargets(opts, fs, init);
      var visits := Search(opts, fs, listing).1;
      var targets := DocxTargets(opts.item, listing);
      var initTargets := DocxTargets(opts.item, init);
      assert |initTargets| <= |targets|;
      assert forall j :: 0 <= j < |initTargets| ==> targets[j] == initTargets[j];
    }
  }

  /** Without `-m` a run writes nothing, whatever the file or directory. */
  lemma {:induction false} SearchWithoutDumpWritesNothing(opts: Options, fs: FsState, listing: seq<string>)
    requires !opts.dumpMedia
    ensures Search(opts, fs, listing).0 == fs
    decreases |listing|
  {
    if listing != [] {
      SearchWithoutDumpWritesNothing(opts, fs, listing[..|listing| - 1]);
    }
  }

  lemma RunWithoutDumpWritesNothing(opts: Options, fs: FsState, listing: seq<string>)
    requires !opts.dumpMedia
    ensures Run(opts, fs, listing).0 == fs
  {
    SearchWithoutDumpWritesNothing(opts, fs, listing);
  }

  /**
   * The dispatch of `xtractor`: a file is the only document processed and
   * the listing is ignored; in a directory only `item/name` is processed,
   * for listed names the `.docx` pattern accepts; a missing path does nothing.
   */
  lemma RunDispatch(opts: Options, fs: FsState, listing: seq<string>)
    ensures opts.item in fs.nodes && fs.nodes[opts.item].Regular? ==>
      var visits := Run(opts, fs, listing).1;
      |visits| == 1 && visits[0].path == opts.item
    ensures opts.item in fs.nodes && fs.nodes[opts.item].Directory? ==>
      forall v :: v in Run(opts, fs, listing).1 ==>
        exists n :: n in listing && Matches(DOCX_PATTERN, n) && v.path == Child(opts.item, n)
  {
    if opts.item in fs.nodes && fs.nodes[opts.item].Directory? {
      var visits := Search(opts, fs, listing).1;
      SearchVisitsTargets(opts, fs, listing);
      DocxTargetsListed(opts.item, listing);
      forall v | v in visits
        ensures exists n :: n in listing && Matches(DOCX_PATTERN, n) && v.path == Child(opts.item, n)
      {
        var j :| 0 <= j < |visits| && visits[j] == v;
        assert v.path in DocxTargets(opts.item, listing);
      }
    }
  }
}
