# xtractor: a verified model of its decision logic

`xtractor.py` is a command-line utility. It reads the metadata of a Word
`.docx` document (`docProps/core.xml` and `docProps/app.xml` inside the ZIP
container) and can extract the images stored under `word/media/`. Given a
directory, it does the same for every `.docx` name the directory lists. This
project models the utility's own logic in Dafny and proves what that logic
guarantees:

- `patterns.dfy` models the two file-name patterns. Both are compiled with
  `re.I` and applied with `re.match`, which anchors them at the start only.
  One is the media pattern `word/media/([A-Z]|[0-9])*\.(jpeg|gif|png)`. The
  other is the directory scan's `([A-Z]|[0-9])*\.docx`. A greedy matcher is
  proved equivalent to the regular expression read as "some split fits".
  Further lemmas prove that matching ignores case, that trailing characters
  are accepted, that the stem may be empty, and that the first character
  after the prefix that is not a letter or digit must be the dot.
- `locator.dfy` models `hasMediaData` as a loop that appends matching
  entry names. It is proved to select exactly the matching names, in order,
  each as often as it is listed. The same file gives the paths that
  `recursiveSearch` hands on, `item + "/" + name`.
- `metadata.dfy` models `parseXML`'s loop that fills a dictionary from
  element local name to text. The key set is proved to be the local names of
  the elements that have text, each mapped to the text of the last such
  element. An element without text changes nothing.
- `text.dfy` models `str.title` on the printed keys, for ASCII.
- `paths.dfy` models how `getMedia` derives the output directory:
  `"./" + splitext(filename)[0]` when `-d` is left at `.`, and the given
  directory otherwise. `splitext` follows POSIX `os.path.splitext`.
- `xtractor.dfy` models the signature test `isPKFile`, `getMetadata`,
  `getMedia`, `recursiveSearch` and the file-or-directory dispatch. They run
  over a filesystem object (`Disk`) whose node map and extraction log the
  methods update in place. Each method is proved equal to a specification
  function: `ProcessAsWritten` for one document, `Search` for a directory and
  `Run` for the whole command. Lemmas about those functions prove the
  following:
  - extraction happens exactly when media was found and `-m` was given;
  - the output directory is created only if nothing exists at its path;
  - a run removes nothing and changes nothing outside the extraction
    directories;
  - a directory run visits the `.docx` names in listing order and stops at
    the first document that does not parse;
  - without `-m` nothing is written.

`isPKFile` is true when a file does *not* start with `PK`, the reverse of
what its name and docstring say. Its one caller prints "not a valid office
file" exactly in that case, so the printed diagnostic is still right. The
model keeps the name and states the actual meaning.

Three details of the code shape the model:

- Text is recorded whenever it is not `None`, empty text included.
- The stem of both patterns is a repeated character class (`*`), so a run of
  any length matches, the empty run included.
- `extractall` keeps each member's archive path, so the images land in
  `word/media/` below the output directory. The model records each
  extraction as the directory and its member list.

## Model

| member | source | states |
|---|---|---|
| `Text.Title` | xtractor.py:53 | title-casing keeps the length of the key |
| `Text.TitleAt` | xtractor.py:53 | a title-cased key has a letter upper-cased exactly when no letter precedes it, and lower-cased otherwise |
| `Text.TitleKeepsLettersIgnoringCase` | xtractor.py:53 | title-casing changes only the case of letters |
| `Text.TitleIdempotent` | xtractor.py:53 | title-casing a title-cased key changes nothing |
| `Patterns.Matches` | xtractor.py:38-42 | an accepted name starts with the pattern's prefix, in any case, and is longer than it |
| `Patterns.StemEnd` | xtractor.py:38 | the stem, a run of letters and digits, ends at the first character that is not an ASCII letter or digit |
| `Patterns.MatchesIffRegexMatches` | xtractor.py:38-42 | the matcher accepts a name iff some split into prefix, letter/digit stem, dot and extension fits the start-anchored pattern |
| `Patterns.MatchesIgnoresCase` | xtractor.py:38 | under `re.I`, two names equal up to letter case are both accepted or both rejected, prefix and extension included |
| `Patterns.MatchesIgnoresSuffix` | xtractor.py:42 | `re.match` is not end-anchored: appending anything to an accepted name keeps it accepted |
| `Patterns.EmptyStemMatches` | xtractor.py:38 | the stem may be empty: prefix, dot and an extension are accepted |
| `Patterns.StemStopsAtFirstOther` | xtractor.py:38 | a name whose first non-letter, non-digit character after the prefix is not the dot is rejected |
| `Patterns.MatchesSplit` | xtractor.py:38 | prefix (any case), letter/digit stem and dot followed by a remainder: accepted iff the remainder starts with an extension |
| `Patterns.MediaExampleUpperCase` | xtractor.py:38 | `WORD/Media/IMAGE1.JPEG` is a media entry |
| `Patterns.MediaExampleEmptyStem` | xtractor.py:38 | `word/media/.gif` is a media entry |
| `Patterns.MediaExampleTrailing` | xtractor.py:42 | `word/media/image1.pngx` is a media entry |
| `Patterns.MediaExampleUnderscore` | xtractor.py:38 | `word/media/image_1.png` is not a media entry |
| `Patterns.MediaExampleJpg` | xtractor.py:38 | `word/media/image1.jpg` is not a media entry |
| `Patterns.DocxExampleBackup` | xtractor.py:139-143 | `a.docx.bak` is scanned |
| `Patterns.DocxExampleSpace` | xtractor.py:139-143 | `my file.docx` is not scanned |
| `Patterns.DocxExampleText` | xtractor.py:139-143 | `b.txt` is not scanned |
| `Locator.Select` | xtractor.py:39-45 | the selection has no more names than the list, and every selected name is accepted by the pattern |
| `Locator.HasMediaData` | xtractor.py:32-45 | the loop returns exactly the entry names the media pattern accepts, in archive order |
| `Locator.SelectMembers` | xtractor.py:39-45 | a name is in the result iff it is listed and matches |
| `Locator.SelectCounts` | xtractor.py:39-45 | a matching name occurs as often as it is listed, a non-matching one never: nothing added, nothing dropped |
| `Locator.SelectKeepsOrder` | xtractor.py:41-43 | the result is the list read at the increasing positions of exactly the matching names |
| `Locator.DocxTargetsListed` | xtractor.py:139-144 | the paths a directory run hands on are `item + "/" + name` taken at the increasing positions of the listed names the `.docx` pattern accepts; a path is among them iff it is built from such a name |
| `Metadata.IndexOf` | xtractor.py:67 | the first `}` after the opening brace, or none |
| `Metadata.LocalName` | xtractor.py:67 | the local name is no longer than the tag |
| `Metadata.LocalNameIsSuffix` | xtractor.py:67 | the local name is a suffix of the tag; when it differs from the tag, the tag opens with `{` and the local name follows its first `}` |
| `Metadata.LocalNameOfQualified` | xtractor.py:67 | `{uri}name` has local name `name` |
| `Metadata.LocalNameOfUnqualified` | xtractor.py:67 | a tag without a namespace is its own local name |
| `Metadata.Flatten` | xtractor.py:64-69 | the dictionary has at most one entry per element |
| `Metadata.ParseXml` | xtractor.py:64-69 | the dictionary the loop builds equals the flattening of the elements, and its keys are the local names of elements with text |
| `Metadata.FlattenKeys` | xtractor.py:64-69 | a key is present iff some element with text has that local name |
| `Metadata.FlattenLastWins` | xtractor.py:66-69 | each key holds the text of the last element, in document order, that has that local name and text |
| `Metadata.FlattenSkipsNoText` | xtractor.py:68 | an element whose text is `None` leaves the dictionary unchanged |
| `Metadata.FlattenOverwrites` | xtractor.py:69 | an element with text overwrites the entry for its local name |
| `Paths.SplitExt` | xtractor.py:84 | root and extension concatenate back to the path; the extension is empty, or a dot followed by no dot and no slash |
| `Paths.SplitExtOfJoin` | xtractor.py:84 | `splitext(base + "." + e)` gives back `base` and `"." + e` when `e` has no dot or slash and `base`'s last component is not only dots |
| `Paths.SplitExtExamples` | xtractor.py:84 | `docs/report.docx`, `a.tar.gz`, `.docx` and `dir.d/file` split as POSIX `splitext` does |
| `Paths.MediaDir` | xtractor.py:83-86 | any `-d` other than `.` is the directory; with `.` the directory is `./` followed by the document path without its extension |
| `Paths.MediaDirDerived` | xtractor.py:83-84 | with `-d .`, document `base.ext` gets directory `./base` |
| `Paths.MediaDirExplicit` | xtractor.py:85-86 | any other `-d` value is used verbatim, whatever the document |
| `Xtractor.ReadTwo` | xtractor.py:27 | `read(2)` yields the first two bytes, or all of a shorter file |
| `Xtractor.IsPKFile` | xtractor.py:26-30 | true iff the file does not start with `P`,`K`, files shorter than two bytes included |
| `Xtractor.Disk.IsPKFileAt` | xtractor.py:20-30 | opening a missing path or a directory raises; a file yields `IsPKFile` of its bytes |
| `Xtractor.Disk.MakeDir` | xtractor.py:95 | `os.mkdir` adds one directory and changes nothing else |
| `Xtractor.Disk.ExtractAll` | xtractor.py:98 | `extractall` fails when the target is a file; otherwise it records one extraction of the members |
| `Xtractor.GetMedia` | xtractor.py:73-98 | derives the directory, creates it only when absent, then extracts the media into it |
| `Xtractor.ProcessProbing` | xtractor.py:100-133 | one document, with the signature of a given path read after a bad archive: the disk changes only through a successful extraction, and the run exits quietly iff the document is a regular file that is not an archive and the probed path is a regular file |
| `Xtractor.ProcessAsWritten` | xtractor.py:100-115 | as written, the probed path is `self.item`: a bad archive exits quietly iff the item is a regular file; the disk changes only through a successful extraction |
| `Xtractor.Process` | xtractor.py:100-115 | with the document's own signature read, every regular file that is not an archive exits quietly; the disk changes only through a successful extraction |
| `Xtractor.Search` | xtractor.py:135-144 | a directory run visits at most one document per listed name, and every visit but the last parsed |
| `Xtractor.Run` | xtractor.py:146-154 | a path that does not exist does nothing; every visit but the last parsed |
| `Xtractor.RunDispatch` | xtractor.py:146-154 | a file is the only document visited and the listing is ignored; in a directory every visited path is `item + "/" + name` for a listed name the `.docx` pattern accepts |
| `Xtractor.GetMetadata` | xtractor.py:100-133 | the new disk state and outcome are those of `ProcessAsWritten`: missing file, directory, bad archive with the item's signature read, missing part, or parsed with optional extraction |
| `Xtractor.RecursiveSearch` | xtractor.py:135-144 | the loop's disk state and visits are those of `Search` over the listing |
| `Xtractor.Xtractor` | xtractor.py:146-154 | a directory is searched, a file processed, any other path ignored |
| `Xtractor.SearchStaysHalted` | xtractor.py:109-115 | after a document that does not parse, the rest of the listing changes nothing, because the process ends |
| `Xtractor.ExtractionGuard` | xtractor.py:127-133 | extraction happens iff media is non-empty and `-m` is set; it targets the derived directory with exactly the media list; otherwise the disk is untouched |
| `Xtractor.CreateOnlyIfAbsent` | xtractor.py:88-95 | an existing directory is reused unchanged; an absent one is created |
| `Xtractor.ProcessReadsPackage` | xtractor.py:117-133 | a valid archive yields both documents flattened and the located media; it fails, with `NotADirectory`, exactly when media was found, `-m` is set and a regular file sits at the derived directory |
| `Xtractor.BadArchiveReportsOwnSignature` | xtractor.py:109-115 | a file that is not a ZIP archive ends the run with the "not a valid office file" diagnostic iff its own bytes lack `PK`, disk unchanged |
| `Xtractor.ProbeOfItemRaises` | xtractor.py:112 | as written, a bad archive found in a directory has the directory's signature read, which raises instead of reporting |
| `Xtractor.SingleFileProbeAgrees` | xtractor.py:112 | for a single file the as-written and corrected signature tests agree |
| `Xtractor.ProcessAdditive` | xtractor.py:88-98 | processing a document, whichever path is probed, leaves every node of the map as it was, only appends extractions, and creates only extraction directories |
| `Xtractor.SearchAdditive` | xtractor.py:142-144 | a whole directory run is additive in the same sense |
| `Xtractor.SearchVisitsTargets` | xtractor.py:139-144 | a directory run visits the `.docx` targets in listing order; it visits all of them unless one does not parse, which is then the last and follows only parsed ones |
| `Xtractor.SearchWithoutDumpWritesNothing` | xtractor.py:132-133 | without `-m` a directory run leaves the disk unchanged |
| `Xtractor.RunWithoutDumpWritesNothing` | xtractor.py:146-154 | without `-m` the whole command leaves the disk unchanged |

## Left out

- ZIP reading, decompression and the bytes `extractall` writes are left out, because they are library code. A file's node carries what the ZIP reader would find (`Regular.archive`), and an extraction is logged as its directory and member list.
- XML parsing is left out. A metadata document is its elements in document order, each a qualified tag and optional text. A missing or malformed part is one case, since both raise uncaught.
- Comments and processing instructions are not modelled as elements.
- `os.path.relpath` is left out because it depends on the working directory. Directories are keyed by the un-normalised path, so `./a` and `a` count as different paths in the model. With `-d .` the derived directory always starts with `./`, so it never equals a path the run keys a document by. For example, `xtractor.py -m docs`, where `docs/.docx` is a valid archive with one media entry (the `.docx` pattern accepts the empty stem): the program normalises `./docs/.docx` to `docs/.docx`, the document itself, and `extractall` raises `NotADirectoryError`; the model creates a directory `./docs/.docx` and reports the document as parsed.
- The parent-path failures of `os.mkdir` (missing parent, parent a regular file) are left out.
- `os.listdir` is an input sequence, and `os.path.isdir` and `isfile` read the node map.
- Printing is left out: the `[*]` and `[!]` messages and the order in which `printData` lists the keys (first insertion). A dictionary is a map.
- `argparse` and `main` are left out. `Options` stands for the parsed command line.
- `Metadata.IndexOf`: a tag that starts with `{` but has no `}` keeps its whole text as local name. lxml raises on such a tag, but a parsed tree never contains one.
- `Text.TitleAt`: only ASCII letters are cased; full Unicode `str.title` is not modelled.
- `Patterns.MatchesIffRegexMatches`: under `re.I` Python also matches some non-ASCII letters against any pattern letter: U+0130 and U+0131 against `i` and `I` (so in `word/media/` and `gif`), U+017F against `s`, U+212A against `k`, and so on for the class `[A-Z]`. The model compares ASCII letters and digits only.
- `Xtractor.Disk.ExtractAll`: the node map does not hold the files `extractall` writes below the directory. The model neither records that an existing `dir/word/media/...` file is overwritten, nor raises when such a member path is a directory or has a regular file as a parent (for instance `dir/word`).
- `Xtractor.ProcessAdditive`: "every node is left as it was" holds for the node map only. The files `extractall` writes or overwrites below an extraction directory are not in the map.
- `Xtractor.SearchAdditive`: the same limit as `Xtractor.ProcessAdditive`. A whole run is additive only for paths outside the extraction directories.
- `Paths.SplitExtOfJoin`: Windows path rules (`ntpath`) are not modelled; the model follows POSIX `splitext`.

## Findings

| source | as written | input that shows it | evidently intended | confidence | as-written member | corrected member |
|---|---|---|---|---|---|---|
| xtractor.py:112 | after a bad archive, `getMetadata` tests the signature of `self.item`, not of the file it was given | `xtractor.py docs`, where `docs` holds `bad.docx` that is not a ZIP: `open("docs", "rb")` raises `IsADirectoryError` instead of printing the diagnostic | test the signature of `file`, the document that failed to open | high (not executed) | `Xtractor.ProbeOfItemRaises` | `Xtractor.BadArchiveReportsOwnSignature` |

The methods `GetMetadata`, `RecursiveSearch` and `Xtractor` follow the code as
written, so they are proved equal to `Xtractor.ProcessAsWritten` and the
functions built on it. The corrected definition is `Xtractor.Process`. The
lemmas about one document (`ExtractionGuard`, `CreateOnlyIfAbsent`,
`ProcessReadsPackage`, `ProcessAdditive`) are stated for any probed path, so
they hold for both definitions. `Xtractor.SingleFileProbeAgrees` proves the
two agree when the command is given a single file.
