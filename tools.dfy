/**
 * The lookup of the SourceSafe command-line executable (vss/tools.py).
 *
 * The environment variable and the filesystem are not queried: they are the
 * fields of a `Host` value, and the platform's path join is a parameter.
 */
module Tools {
  import opened Wrappers

  /** The search list used when the variable is unset. */
  const DefaultPath := "C:\\Program Files\\Microsoft Visual SourceSafe\\ss.exe"

  /** Separator between the candidates of the search list. */
  const Separator := ';'

  /** The file looked for inside a candidate that is a directory. */
  const ExecutableName := "ss.exe"

  /**
   * What the lookup observes: the value of the environment variable
   * `VSS_PYTHON_SS_PATH` that overrides the search list (None when unset),
   * the paths that are regular files and the paths that are directories.
   */
  datatype Host = Host(pathVariable: Option<string>, files: set<string>, dirs: set<string>)

  /** The inverse of `Split`: the parts glued back together with `sep`. */
  function Join(parts: seq<string>, sep: char): string
    requires |parts| >= 1
  {
    if |parts| == 1 then parts[0] else parts[0] + [sep] + Join(parts[1..], sep)
  }

  /**
   * Python's `s.split(sep)` for a one-character separator: at least one part
   * (the empty string gives `[""]`), no part holds the separator, and joining
   * the parts gives `s` back.
   */
  function Split(s: string, sep: char): (parts: seq<string>)
    ensures |parts| >= 1
    ensures forall k :: 0 <= k < |parts| ==> sep !in parts[k]
    ensures Join(parts, sep) == s
  {
    if s == [] then [""]
    else
      var rest := Split(s[1..], sep);
      if s[0] == sep then
        assert ([""] + rest)[1..] == rest;
        [""] + rest
      else
        var parts := [[s[0]] + rest[0]] + rest[1..];
        assert |parts| > 1 ==> parts[1..] == rest[1..];
        assert s == [s[0]] + s[1..];
        parts
  }

  /** A string free of the separator is a single part. */
  lemma {:induction false} SplitNoSeparator(p: string, sep: char)
    requires sep !in p
    ensures Split(p, sep) == [p]
  {
    if p != [] {
      SplitNoSeparator(p[1..], sep);
      assert [p[0]] + p[1..] == p;
    }
  }

  /** The first separator of a string ends its first part. */
  lemma {:induction false} SplitFirstPart(p: string, sep: char, t: string)
    requires sep !in p
    ensures Split(p + [sep] + t, sep) == [p] + Split(t, sep)
  {
    if p == [] {
      assert (p + [sep] + t)[1..] == t;
    } else {
      assert (p + [sep] + t)[1..] == p[1..] + [sep] + t;
      SplitFirstPart(p[1..], sep, t);
      assert [p[0]] + p[1..] == p;
    }
  }

  /** Splitting what `Join` built recovers the parts. */
  lemma {:induction false} SplitJoin(parts: seq<string>, sep: char)
    requires |parts| >= 1
    requires forall k :: 0 <= k < |parts| ==> sep !in parts[k]
    ensures Split(Join(parts, sep), sep) == parts
  {
    if |parts| == 1 {
      SplitNoSeparator(parts[0], sep);
    } else {
      SplitJoin(parts[1..], sep);
      SplitFirstPart(parts[0], sep, Join(parts[1..], sep));
      assert [parts[0]] + parts[1..] == parts;
    }
  }

  /**
   * The candidate paths: the default path when the variable is unset,
   * otherwise the variable's value split on `;`.
   */
  function Candidates(host: Host): (paths: seq<string>)
    ensures host.pathVariable.None? ==> paths == [DefaultPath]
    ensures |paths| >= 1
    ensures host.pathVariable.Some? ==> forall k :: 0 <= k < |paths| ==> Separator !in paths[k]
    ensures host.pathVariable.Some? ==> Join(paths, Separator) == host.pathVariable.value
  {
    match host.pathVariable
    case None => [DefaultPath]
    case Some(v) => Split(v, Separator)
  }

  /**
   * One iteration of the search: a candidate that is a regular file is the
   * answer as it is; a candidate that is a directory is the answer joined
   * with `ss.exe` when that is a regular file; anything else is no answer.
   */
  function Probe(path: string, host: Host, join: (string, string) -> string): (r: Option<string>)
    ensures r.Some? ==> r.value in host.files
    ensures r.Some? ==> r.value == path || (path in host.dirs && r.value == join(path, ExecutableName))
    ensures path in host.files ==> r == Some(path)
    ensures path !in host.files && path in host.dirs && join(path, ExecutableName) in host.files ==>
      r == Some(join(path, ExecutableName))
    ensures r.Some? <==> path in host.files || (path in host.dirs && join(path, ExecutableName) in host.files)
  {
    if path in host.files then Some(path)
    else if path in host.dirs && join(path, ExecutableName) in host.files then Some(join(path, ExecutableName))
    else None
  }

  /**
   * The loop of `get_ss_path`: the answer of the first candidate that gives
   * one, or None when none does. A result is always a regular file and the
   * answer of one of the candidates.
   */
  function FindFirst(paths: seq<string>, host: Host, join: (string, string) -> string): (r: Option<string>)
    ensures r.Some? ==> r.value in host.files
    ensures r.Some? ==> exists k :: 0 <= k < |paths| && Probe(paths[k], host, join) == r
    ensures r.None? <==> forall k :: 0 <= k < |paths| ==> Probe(paths[k], host, join).None?
  {
    if paths == [] then None
    else
      match Probe(paths[0], host, join)
      case Some(p) => Some(p)
      case None =>
        var r := FindFirst(paths[1..], host, join);
        assert forall k :: 1 <= k < |paths| ==> paths[k] == paths[1..][k - 1];
        r
  }

  /**
   * Candidates are tried in order: the answer is that of the first candidate
   * that gives one, whatever the candidates after it give.
   */
  lemma {:induction false} FindFirstIsFirst(paths: seq<string>, host: Host, join: (string, string) -> string, k: nat)
    requires k < |paths|
    requires Probe(paths[k], host, join).Some?
    requires forall j :: 0 <= j < k ==> Probe(paths[j], host, join).None?
    ensures FindFirst(paths, host, join) == Probe(paths[k], host, join)
  {
    if k > 0 {
      assert paths[1..][k - 1] == paths[k];
      FindFirstIsFirst(paths[1..], host, join, k - 1);
    }
  }

  /**
   * `get_ss_path`: the first candidate that resolves to an existing file,
   * or None.
   */
  function GetSsPath(host: Host, join: (string, string) -> string): (r: Option<string>)
    ensures r.Some? ==> r.value in host.files
    ensures r.Some? ==>
      exists c :: c in Candidates(host) &&
        (r.value == c || (c in host.dirs && r.value == join(c, ExecutableName)))
    ensures r.None? <==> forall c :: c in Candidates(host) ==> Probe(c, host, join).None?
  {
    var paths := Candidates(host);
    var r := FindFirst(paths, host, join);
    assert r.Some? ==>
      exists c :: c in paths && (r.value == c || (c in host.dirs && r.value == join(c, ExecutableName))) by {
      if r.Some? {
        var k :| 0 <= k < |paths| && Probe(paths[k], host, join) == r;
        assert paths[k] in paths;
      }
    }
    assert (forall k :: 0 <= k < |paths| ==> Probe(paths[k], host, join).None?)
      <==> (forall c :: c in paths ==> Probe(c, host, join).None?);
    r
  }

  /**
   * With the variable unset only the default installation path is tried,
   * so the result depends on that path alone.
   */
  lemma {:induction false} GetSsPathDefault(host: Host, join: (string, string) -> string)
    requires host.pathVariable.None?
    ensures GetSsPath(host, join) == Probe(DefaultPath, host, join)
    ensures DefaultPath in host.files ==> GetSsPath(host, join) == Some(DefaultPath)
  {
    var paths := Candidates(host);
    assert paths == [DefaultPath];
    if Probe(DefaultPath, host, join).Some? {
      FindFirstIsFirst(paths, host, join, 0);
    }
  }

  /**
   * With the variable set, its value is cut at every `;` and the candidates
   * are the pieces in order: a list of `;`-free paths joined with `;` is
   * searched as exactly that list.
   */
  lemma {:induction false} GetSsPathSearchList(host: Host, join: (string, string) -> string, paths: seq<string>)
    requires |paths| >= 1 && forall k :: 0 <= k < |paths| ==> Separator !in paths[k]
    requires host.pathVariable == Some(Join(paths, Separator))
    ensures Candidates(host) == paths
    ensures GetSsPath(host, join) == FindFirst(paths, host, join)
  {
    SplitJoin(paths, Separator);
  }
}
