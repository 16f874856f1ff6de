/** The files of the lint cache as a map from path to content, and how many bytes
    a walk of any part of them adds up to. */
module CacheFiles {
  import opened Common

  /** A project's cache key, by its rank in path order. */
  type Project = nat
  type RunId = string
  type LogName = string

  datatype CacheFile =
    | Latest(project: Project)
    | History(project: Project)
    | RollingLog(project: Project, name: LogName)
    | ArchivedLog(project: Project, runId: RunId, name: LogName)

  /** What a history line parses to: the run it names and when the run finished. */
  datatype RunSummary = RunSummary(runId: RunId, sortKey: int)

  /** One line: its length without the newline, and the run it parses to, if any. */
  datatype HistoryLine = HistoryLine(length: nat, run: Option<RunSummary>)

  datatype Content = Sized(length: nat) | Lines(lines: seq<HistoryLine>)

  datatype Directory = ProjectDirectory(project: Project) | RunDirectory(project: Project, runId: RunId)

  type Files = map<CacheFile, Content>

  predicate Under(file: CacheFile, directory: Directory) {
    match directory
    case ProjectDirectory(project) => file.project == project
    case RunDirectory(project, runId) => file.ArchivedLog? && file.project == project && file.runId == runId
  }

  function FilesUnder(files: Files, directory: Directory): Files {
    map file | file in files && Under(file, directory) :: files[file]
  }

  function FilesOutside(files: Files, directory: Directory): Files {
    map file | file in files && !Under(file, directory) :: files[file]
  }

  predicate WellTyped(files: Files) {
    forall file <- files :: file.History? <==> files[file].Lines?
  }

  function LinesBytes(lines: seq<HistoryLine>): nat {
    if lines == [] then 0
    else LinesBytes(lines[..|lines| - 1]) + lines[|lines| - 1].length + 1
  }

  function Length(content: Content): nat {
    match content
    case Sized(length) => length
    case Lines(lines) => LinesBytes(lines)
  }

  function SizeOrZero(files: Files, file: CacheFile): nat {
    if file in files then Length(files[file]) else 0
  }

  function LinesOf(files: Files, project: Project): seq<HistoryLine> {
    if History(project) in files && files[History(project)].Lines? then files[History(project)].lines else []
  }

  /** What a walk adds up to. The walk visits files in no particular order. */
  ghost function Bytes(files: Files): nat {
    if files == map[] then 0
    else
      var file :| file in files;
      Length(files[file]) + Bytes(files - {file})
  }

  /** The order of the walk does not matter. */
  lemma {:induction false} BytesRemove(files: Files, file: CacheFile)
    requires file in files
    ensures Bytes(files) == Length(files[file]) + Bytes(files - {file})
    decreases |files|
  {
    var first :| first in files && Bytes(files) == Length(files[first]) + Bytes(files - {first});
    if first != file {
      BytesRemove(files - {first}, file);
      BytesRemove(files - {file}, first);
      assert files - {first} - {file} == files - {file} - {first};
    }
  }

  lemma BytesUpdate(files: Files, file: CacheFile, content: Content)
    ensures Bytes(files[file := content]) == Bytes(files) - SizeOrZero(files, file) + Length(content)
    ensures SizeOrZero(files, file) <= Bytes(files)
  {
    var updated := files[file := content];
    BytesRemove(updated, file);
    if file in files {
      BytesRemove(files, file);
      assert updated - {file} == files - {file};
    } else {
      assert updated - {file} == files;
    }
  }

  function Restrict(files: Files, kept: set<CacheFile>): Files {
    map file | file in files && file in kept :: files[file]
  }

  /** A walk of the whole is a walk of any part and of the rest. */
  lemma {:induction false} BytesSplit(files: Files, part: set<CacheFile>)
    requires part <= files.Keys
    ensures Bytes(files) == Bytes(Restrict(files, part)) + Bytes(files - part)
    decreases |part|
  {
    if part == {} {
      assert Restrict(files, part) == map[];
      assert files - part == files;
    } else {
      var file :| file in part;
      var less := part - {file};
      BytesSplit(files, less);
      BytesRemove(Restrict(files, part), file);
      assert Restrict(files, part) - {file} == Restrict(files, less);
      BytesRemove(files - less, file);
      assert files - less - {file} == files - part;
    }
  }

  lemma BytesDirectory(files: Files, directory: Directory)
    ensures Bytes(files) == Bytes(FilesUnder(files, directory)) + Bytes(FilesOutside(files, directory))
  {
    var part := FilesUnder(files, directory).Keys;
    BytesSplit(files, part);
    assert Restrict(files, part) == FilesUnder(files, directory);
    assert files - part == FilesOutside(files, directory);
  }

  /** `total_bytes_under`: visit every file once and add up the lengths. */
  method TotalBytes(files: Files) returns (total: nat)
    ensures total == Bytes(files)
  {
    total := 0;
    var remaining := files;
    while remaining != map[]
      invariant total + Bytes(remaining) == Bytes(files)
      decreases |remaining|
    {
      var file :| file in remaining;
      BytesRemove(remaining, file);
      total := total + Length(remaining[file]);
      remaining := remaining - {file};
    }
  }
}
