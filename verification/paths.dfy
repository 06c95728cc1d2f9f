/**
 * The command-line path checks and the log-file bootstrap. The filesystem
 * is seen only through the set of paths that name existing directories;
 * that set never holds the empty path, for which `os.path.isdir` is false.
 */
module Paths {

  /** What an argparse `type=` callback gives back: the path, or the error it raises. */
  datatype ArgCheck = Accepted(path: string) | ArgumentTypeError(message: string)

  /** The outcome of a filesystem call that may raise. */
  datatype Result<T> = Ok(value: T) | Err(error: string)

  /** Every character is the path separator `/`. */
  predicate AllSlashes(s: string)
  {
    forall k :: 0 <= k < |s| ==> s[k] == '/'
  }

  /** `p.rfind('/')`: the index of the last separator, or -1 when there is none. */
  function LastSlash(p: string): (i: int)
    ensures -1 <= i < |p|
    ensures i >= 0 ==> p[i] == '/'
    ensures forall k :: i < k < |p| ==> p[k] != '/'
  {
    if p == [] then -1
    else if p[|p| - 1] == '/' then |p| - 1
    else LastSlash(p[..|p| - 1])
  }

  /** `s.rstrip('/')`: `s` without its trailing separators. */
  function StripTrailingSlashes(s: string): (r: string)
    ensures r <= s
    ensures r == [] || r[|r| - 1] != '/'
    ensures forall k :: |r| <= k < |s| ==> s[k] == '/'
  {
    if s != [] && s[|s| - 1] == '/' then StripTrailingSlashes(s[..|s| - 1]) else s
  }

  /**
   * `os.path.dirname` on POSIX: everything up to and including the last
   * separator, then trailing separators stripped unless that would leave
   * nothing but the root.
   */
  function Dirname(p: string): (parent: string)
    ensures parent <= p
  {
    var head := p[..LastSlash(p) + 1];
    if head != [] && !AllSlashes(head) then StripTrailingSlashes(head) else head
  }

  /**
   * The parent is a prefix of the path; it is empty exactly when the path
   * has no separator; and it ends in a separator only when it is all
   * separators (the root).
   */
  lemma DirnameShape(p: string)
    ensures Dirname(p) <= p
    ensures Dirname(p) == [] <==> '/' !in p
    ensures Dirname(p) != [] && !AllSlashes(Dirname(p)) ==> Dirname(p)[|Dirname(p)| - 1] != '/'
  {
    var i := LastSlash(p);
    var head := p[..i + 1];
    if '/' in p {
      var j :| 0 <= j < |p| && p[j] == '/';
      assert i >= j;
      assert head != [];
      if !AllSlashes(head) {
        var k :| 0 <= k < |head| && head[k] != '/';
        assert k < |StripTrailingSlashes(head)|;
      }
    }
  }

  /** The last separator is the one with no separator after it. */
  lemma LastSlashAt(p: string, i: nat)
    requires i < |p| && p[i] == '/'
    requires forall k :: i < k < |p| ==> p[k] != '/'
    ensures LastSlash(p) == i
  {
  }

  /**
   * The parent of `dir/file` is `dir`, for a file name without separators
   * and a directory path not ending in one (`logs/sync.log` gives `logs`,
   * `/var//log/sync.log` gives `/var//log`).
   */
  lemma DirnameOfJoin(dir: string, file: string)
    requires '/' !in file
    requires dir != [] && dir[|dir| - 1] != '/'
    ensures Dirname(dir + "/" + file) == dir
  {
    var p := dir + "/" + file;
    forall k | |dir| < k < |p| ensures p[k] != '/' {
      assert p[k] == file[k - |dir| - 1];
    }
    LastSlashAt(p, |dir|);
    var head := p[..|dir| + 1];
    assert head == dir + "/";
    assert head[|dir| - 1] != '/';
    assert head[..|head| - 1] == dir;
  }

  /** The parent of a file directly under the root is the root (`/sync.log` gives `/`). */
  lemma DirnameOfRootEntry(file: string)
    requires '/' !in file
    ensures Dirname("/" + file) == "/"
  {
    var p := "/" + file;
    forall k | 0 < k < |p| ensures p[k] != '/' {
      assert p[k] == file[k - 1];
    }
    LastSlashAt(p, 0);
    assert p[..1] == "/";
  }

  /**
   * `validate_folder_path`: accepts exactly the paths of existing
   * directories and hands them back unchanged.
   */
  function ValidateFolderPath(directories: set<string>, path: string): (r: ArgCheck)
    ensures r.Accepted? <==> path in directories
    ensures r.Accepted? ==> r.path == path
    ensures r.ArgumentTypeError? ==> r.message == "Invalid folder path: " + path
  {
    if path !in directories then ArgumentTypeError("Invalid folder path: " + path) else Accepted(path)
  }

  /**
   * `validate_log_file`: accepts a log path whose parent is empty or an
   * existing directory; the parent is empty exactly when the path is a bare
   * file name, so every bare name is accepted.
   */
  function ValidateLogFile(directories: set<string>, path: string): (r: ArgCheck)
    ensures r.Accepted? <==> '/' !in path || Dirname(path) in directories
    ensures r.Accepted? ==> r.path == path
    ensures r.ArgumentTypeError? ==> r.message == "Invalid log file path: " + path
  {
    var folderPath := Dirname(path);
    DirnameShape(path);
    if folderPath != "" && folderPath !in directories then
      ArgumentTypeError("Invalid log file path: " + path)
    else
      Accepted(path)
  }

  /**
   * `os.makedirs(path, exist_ok=True)`: the empty path names no directory
   * and raises `FileNotFoundError`; any other path exists afterwards.
   */
  function MakeDirs(directories: set<string>, path: string): (r: Result<set<string>>)
    ensures r.Ok? <==> path != ""
    ensures r.Ok? ==> r.value == directories + {path}
  {
    if path == "" then Err("FileNotFoundError: " + path) else Ok(directories + {path})
  }

  /**
   * The log-directory bootstrap as written: `os.makedirs` of the log file's
   * parent, whatever that parent is.
   */
  function BootstrapLogDirAsWritten(directories: set<string>, logFile: string): (r: Result<set<string>>)
    ensures r.Ok? <==> '/' in logFile
    ensures r.Ok? ==> r.value == directories + {Dirname(logFile)}
  {
    DirnameShape(logFile);
    MakeDirs(directories, Dirname(logFile))
  }

  /**
   * As written, the bootstrap raises for every bare log file name, although
   * `validate_log_file` accepts exactly those names whatever exists.
   */
  lemma BootstrapRejectsBareName(directories: set<string>, logFile: string)
    requires '/' !in logFile
    ensures BootstrapLogDirAsWritten(directories, logFile).Err?
    ensures ValidateLogFile(directories, logFile).Accepted?
  {
    DirnameShape(logFile);
  }

  /**
   * The bootstrap corrected: create the parent only when there is one.
   * It always succeeds, leaves the existing directories in place, and
   * afterwards `validate_log_file` accepts the log path.
   */
  function BootstrapLogDir(directories: set<string>, logFile: string): (r: Result<set<string>>)
    ensures r.Ok? && directories <= r.value
    ensures ValidateLogFile(r.value, logFile).Accepted?
  {
    DirnameShape(logFile);
    if Dirname(logFile) == "" then Ok(directories) else MakeDirs(directories, Dirname(logFile))
  }
}
