/**
 * The `VSS` repository handle of vss/vss.py: the option table, the encoding
 * of named options into `ss.exe` flag tokens, and the argument vectors of
 * the `About` and `Add` commands.
 *
 * The process itself is not spawned: a command's result is the argument
 * vector that would be handed to the operating system.
 */
module Vss {
  import opened Wrappers
  import Tools

  // ---------------------------------------------------------------------
  // The option table
  // ---------------------------------------------------------------------

  /** The placeholder of a template entry. */
  const Param := "{param}"

  /**
   * An entry of the option table: either an enumerated choice (each allowed
   * value maps to its literal flag) or a flag template holding `Param`.
   */
  datatype Entry = Choice(flags: map<string, string>) | Template(text: string)

  /** An option table: the entry of every option name it knows. */
  type Table = map<string, Entry>

  /** The static option table built inside `__to_options_list`. */
  const OptionTable: Table := map[
    "format" := Choice(map["binary" := "-B", "text" := "-B-"]),
    "base_version_number" := Template("-B{param}"),
    "base_version_date" := Template("-B{param}"),
    "base_version_label" := Template("-Bl{param}")
  ]

  /** One keyword argument: an option name and its (string) value. */
  datatype Setting = Setting(name: string, value: string)

  /** The two `ValueError`s the encoder raises, with what they report. */
  datatype EncodeError =
    | UnknownName(name: string)
    | InvalidValue(name: string, value: string)

  /**
   * Python's `s.replace(pat, v)`: every non-overlapping occurrence of `pat`,
   * scanning left to right, is replaced by `v`.
   */
  function Replace(s: string, pat: string, v: string): string
    requires pat != []
    decreases |s|
  {
    if |s| < |pat| then s
    else if s[..|pat|] == pat then v + Replace(s[|pat|..], pat, v)
    else [s[0]] + Replace(s[1..], pat, v)
  }

  /** The pattern alone is replaced by the value. */
  lemma ReplaceWhole(pat: string, v: string)
    requires pat != []
    ensures Replace(pat, pat, v) == v
  {
  }

  /** A position where the pattern cannot start is copied and skipped. */
  lemma ReplaceSkip(s: string, pat: string, v: string)
    requires pat != [] && |s| >= |pat| && s[0] != pat[0]
    ensures Replace(s, pat, v) == [s[0]] + Replace(s[1..], pat, v)
  {
  }

  /**
   * A template that ends in its placeholder and holds no other place where
   * the placeholder could start gives its prefix followed by the value.
   */
  lemma {:induction false} ReplaceTrailing(p: string, pat: string, v: string)
    requires pat != [] && pat[0] !in p
    ensures Replace(p + pat, pat, v) == p + v
  {
    if p == [] {
      assert p + pat == pat;
      ReplaceWhole(pat, v);
    } else {
      var s := p + pat;
      assert s[0] == p[0];
      ReplaceSkip(s, pat, v);
      assert s[1..] == p[1..] + pat;
      ReplaceTrailing(p[1..], pat, v);
      assert [p[0]] + (p[1..] + v) == p + v;
    }
  }

  // ---------------------------------------------------------------------
  // The encoder
  // ---------------------------------------------------------------------

  /** The table accepts the setting: a known name and, for a choice, a listed value. */
  predicate Accepts(table: Table, s: Setting) {
    s.name in table && (table[s.name].Choice? ==> s.value in table[s.name].flags)
  }

  /**
   * One iteration of the loop of `__to_options_list`: the token of one
   * setting, or the error it raises.
   */
  function EncodeOne(table: Table, s: Setting): (r: Result<string, EncodeError>)
    ensures r.Ok? <==> Accepts(table, s)
    ensures r.Err? ==> r.error.name == s.name
    ensures s.name !in table ==> r == Err(UnknownName(s.name))
  {
    if s.name !in table then Err(UnknownName(s.name))
    else
      match table[s.name]
      case Choice(flags) =>
        if s.value in flags then Ok(flags[s.value]) else Err(InvalidValue(s.name, s.value))
      case Template(text) => Ok(Replace(text, Param, s.value))
  }

  /**
   * What `__to_options_list` computes over the options in their iteration
   * order: the tokens, or the error of the first setting that is refused.
   * On success it gives one token per setting (an empty mapping gives no
   * tokens).
   */
  function Encode(table: Table, options: seq<Setting>): (r: Result<seq<string>, EncodeError>)
    ensures r.Ok? ==> |r.value| == |options|
  {
    if options == [] then Ok([])
    else
      match EncodeOne(table, options[0])
      case Err(e) => Err(e)
      case Ok(token) =>
        match Encode(table, options[1..])
        case Err(e) => Err(e)
        case Ok(tokens) => Ok([token] + tokens)
  }

  /** Encoding succeeds exactly when the table accepts every setting. */
  lemma {:induction false} EncodeSucceedsIff(table: Table, options: seq<Setting>)
    ensures Encode(table, options).Ok? <==> forall k :: 0 <= k < |options| ==> Accepts(table, options[k])
  {
    if options != [] {
      EncodeSucceedsIff(table, options[1..]);
      assert forall k :: 1 <= k < |options| ==> options[k] == options[1..][k - 1];
    }
  }

  /** On success the k-th token is the token of the k-th setting. */
  lemma {:induction false} EncodeTokens(table: Table, options: seq<Setting>)
    requires Encode(table, options).Ok?
    ensures forall k :: 0 <= k < |options| ==> EncodeOne(table, options[k]) == Ok(Encode(table, options).value[k])
  {
    if options != [] {
      EncodeTokens(table, options[1..]);
      assert forall k :: 1 <= k < |options| ==> options[k] == options[1..][k - 1];
    }
  }

  /**
   * The raise aborts the whole loop: a refused setting gives the error of
   * the first refused setting, and no tokens at all.
   */
  lemma {:induction false} EncodeFailsAtFirstRefused(table: Table, options: seq<Setting>, k: nat)
    requires k < |options|
    requires !Accepts(table, options[k])
    requires forall j :: 0 <= j < k ==> Accepts(table, options[j])
    ensures Encode(table, options) == Err(EncodeOne(table, options[k]).error)
  {
    if k > 0 {
      assert options[1..][k - 1] == options[k];
      EncodeFailsAtFirstRefused(table, options[1..], k - 1);
    }
  }

  /** Conversely, every failed encoding is the error of its first refused setting. */
  lemma {:induction false} EncodeErrorIsFirstRefused(table: Table, options: seq<Setting>)
    requires Encode(table, options).Err?
    ensures exists k ::
              && 0 <= k < |options| && !Accepts(table, options[k])
              && (forall j :: 0 <= j < k ==> Accepts(table, options[j]))
              && Encode(table, options).error == EncodeOne(table, options[k]).error
  {
    if !Accepts(table, options[0]) {
      EncodeFailsAtFirstRefused(table, options, 0);
    } else {
      EncodeErrorIsFirstRefused(table, options[1..]);
      var k :|
        && 0 <= k < |options[1..]| && !Accepts(table, options[1..][k])
        && (forall j :: 0 <= j < k ==> Accepts(table, options[1..][j]))
        && Encode(table, options[1..]).error == EncodeOne(table, options[1..][k]).error;
      assert forall j :: 1 <= j < k + 1 ==> options[j] == options[1..][j - 1];
      EncodeFailsAtFirstRefused(table, options, k + 1);
    }
  }

  /** An error in the first part is the error of the whole. */
  lemma {:induction false} EncodeAppendErr(table: Table, a: seq<Setting>, b: seq<Setting>)
    requires Encode(table, a).Err?
    ensures Encode(table, a + b) == Encode(table, a)
  {
    assert a != [];
    assert (a + b)[0] == a[0];
    assert (a + b)[1..] == a[1..] + b;
    if EncodeOne(table, a[0]).Ok? {
      EncodeAppendErr(table, a[1..], b);
    }
  }

  /** After a first part that succeeds, the second part's tokens or error follow. */
  lemma {:induction false} EncodeAppendOk(table: Table, a: seq<Setting>, b: seq<Setting>)
    requires Encode(table, a).Ok?
    ensures Encode(table, b).Err? ==> Encode(table, a + b) == Encode(table, b)
    ensures Encode(table, b).Ok? ==> Encode(table, a + b) == Ok(Encode(table, a).value + Encode(table, b).value)
  {
    if a == [] {
      assert a + b == b;
      assert Encode(table, a).value == [];
      assert Encode(table, b).Ok? ==> [] + Encode(table, b).value == Encode(table, b).value;
    } else {
      var rest := a[1..];
      assert (a + b)[0] == a[0];
      assert (a + b)[1..] == rest + b;
      EncodeAppendOk(table, rest, b);
      var t0, t1 := EncodeOne(table, a[0]).value, Encode(table, rest).value;
      assert Encode(table, a).value == [t0] + t1;
      match Encode(table, b) {
        case Err(e) =>
          assert Encode(table, rest + b) == Err(e);
        case Ok(tb) =>
          assert Encode(table, rest + b) == Ok(t1 + tb);
          assert Encode(table, a + b) == Ok([t0] + (t1 + tb));
          assert [t0] + (t1 + tb) == ([t0] + t1) + tb;
      }
    }
  }

  /**
   * Each iteration only appends: encoding distributes over concatenation,
   * and an error in the first part is the error of the whole.
   */
  lemma EncodeAppend(table: Table, a: seq<Setting>, b: seq<Setting>)
    ensures Encode(table, a).Err? ==> Encode(table, a + b) == Encode(table, a)
    ensures Encode(table, a).Ok? && Encode(table, b).Err? ==> Encode(table, a + b) == Encode(table, b)
    ensures Encode(table, a).Ok? && Encode(table, b).Ok? ==> Encode(table, a + b) == Ok(Encode(table, a).value + Encode(table, b).value)
  {
    if Encode(table, a).Err? {
      EncodeAppendErr(table, a, b);
    } else {
      EncodeAppendOk(table, a, b);
    }
  }

  /**
   * One more iteration of the loop: a token is appended, or the raise ends
   * the whole encoding with this setting's error.
   */
  lemma EncodeStep(table: Table, options: seq<Setting>, i: nat, done: seq<string>)
    requires i < |options| && Encode(table, options[..i]) == Ok(done)
    ensures EncodeOne(table, options[i]).Ok? ==> Encode(table, options[..i + 1]) == Ok(done + [EncodeOne(table, options[i]).value])
    ensures EncodeOne(table, options[i]).Err? ==> Encode(table, options) == Err(EncodeOne(table, options[i]).error)
  {
    assert options[..i + 1] == options[..i] + [options[i]];
    EncodeAppend(table, options[..i], [options[i]]);
    var one := [options[i]];
    assert one[0] == options[i] && one[1..] == [];
    if EncodeOne(table, options[i]).Ok? {
      var t := EncodeOne(table, options[i]).value;
      assert Encode(table, one) == Ok([t] + []);
      assert [t] + [] == [t];
    }
    assert options == options[..i + 1] + options[i + 1..];
    EncodeAppend(table, options[..i + 1], options[i + 1..]);
  }

  /**
   * `__to_options_list`, as the loop the source runs: the result is built by
   * appending one token per option, and the first refused option raises.
   */
  method ToOptionsList(options: seq<Setting>) returns (r: Result<seq<string>, EncodeError>)
    ensures r == Encode(OptionTable, options)
  {
    var result: seq<string> := [];
    var i := 0;
    while i < |options|
      invariant 0 <= i <= |options|
      invariant Encode(OptionTable, options[..i]) == Ok(result)
    {
      var option := options[i];
      EncodeStep(OptionTable, options, i, result);
      if option.name !in OptionTable {
        return Err(UnknownName(option.name));
      }
      var token: string;
      match OptionTable[option.name] {
        case Choice(flags) =>
          if option.value !in flags {
            return Err(InvalidValue(option.name, option.value));
          }
          token := flags[option.value];
        case Template(text) =>
          token := Replace(text, Param, option.value);
      }
      result := result + [token];
      i := i + 1;
    }
    assert options[..i] == options;
    return Ok(result);
  }

  // ---------------------------------------------------------------------
  // What the table promises
  // ---------------------------------------------------------------------

  /** The options the table knows, and nothing else. */
  lemma OptionNames()
    ensures OptionTable.Keys == {"format", "base_version_number", "base_version_date", "base_version_label"}
  {
  }

  /**
   * `format` accepts exactly `binary` (giving `-B`) and `text` (giving
   * `-B-`); any other value raises naming the option and the value.
   */
  lemma FormatTokens(v: string)
    ensures EncodeOne(OptionTable, Setting("format", "binary")) == Ok("-B")
    ensures EncodeOne(OptionTable, Setting("format", "text")) == Ok("-B-")
    ensures v != "binary" && v != "text" ==> EncodeOne(OptionTable, Setting("format", v)) == Err(InvalidValue("format", v))
  {
  }

  /**
   * The template options accept any value and give the template with the
   * placeholder replaced by it: `-B` + value for the two base-version
   * options, `-Bl` + value for the label.
   */
  lemma TemplateTokens(v: string)
    ensures EncodeOne(OptionTable, Setting("base_version_number", v)) == Ok("-B" + v)
    ensures EncodeOne(OptionTable, Setting("base_version_date", v)) == Ok("-B" + v)
    ensures EncodeOne(OptionTable, Setting("base_version_label", v)) == Ok("-Bl" + v)
  {
    assert OptionTable["base_version_number"] == OptionTable["base_version_date"] == Template("-B" + Param);
    assert OptionTable["base_version_label"] == Template("-Bl" + Param);
    ReplaceTrailing("-B", Param, v);
    ReplaceTrailing("-Bl", Param, v);
  }

  // ---------------------------------------------------------------------
  // The repository handle and its commands
  // ---------------------------------------------------------------------

  /**
   * A `VSS` instance: the repository path and the executable path, both set
   * by `__init__` and never changed. The executable path is None when the
   * lookup found nothing.
   */
  datatype Vss = Vss(repositoryPath: string, ssPath: Option<string>)

  /** Python truthiness of the optional `ss_path` argument: None and "" are false. */
  predicate Truthy(ssPath: Option<string>) {
    ssPath.Some? && ssPath.value != ""
  }

  /**
   * `VSS.__init__`: a given executable path is kept; a missing or empty one
   * falls back to the lookup, so the kept path is then an existing file
   * found from the search list.
   */
  function Init(repositoryPath: string, ssPath: Option<string>,
                host: Tools.Host, join: (string, string) -> string): (v: Vss)
    ensures v.repositoryPath == repositoryPath
    ensures Truthy(ssPath) ==> v.ssPath == ssPath
    ensures !Truthy(ssPath) ==> v.ssPath == Tools.GetSsPath(host, join)
    ensures !Truthy(ssPath) && v.ssPath.Some? ==> v.ssPath.value in host.files
  {
    Vss(repositoryPath, if Truthy(ssPath) then ssPath else Tools.GetSsPath(host, join))
  }

  /** Why a command returns no argument vector. */
  datatype CommandError =
    | BadOptions(cause: EncodeError)
    | NoExecutable

  /**
   * `__execute`: the vector passed to the process is the executable path
   * followed by the command's arguments. Without an executable path the
   * process cannot be started.
   */
  function Execute(v: Vss, argv: seq<string>): (r: Result<seq<string>, CommandError>)
    ensures r.Ok? <==> v.ssPath.Some?
    ensures r.Ok? ==> r.value == [v.ssPath.value] + argv
    ensures r.Err? ==> r.error == NoExecutable
  {
    match v.ssPath
    case None => Err(NoExecutable)
    case Some(path) => Ok([path] + argv)
  }

  /**
   * `about`: the `About` command has no further arguments, so the only way
   * it fails is a missing executable path.
   */
  function About(v: Vss): (r: Result<seq<string>, CommandError>)
    ensures r.Ok? <==> v.ssPath.Some?
    ensures r.Ok? ==> r.value == [v.ssPath.value, "About"]
    ensures r.Err? ==> r.error == NoExecutable
  {
    Execute(v, ["About"])
  }

  /** The `files` argument of `add`: a list, or any single value. */
  datatype Files = FileList(items: seq<string>) | Single(item: string)

  /** A single value is wrapped into a one-element list. */
  function FileArgs(files: Files): seq<string> {
    match files
    case FileList(items) => items
    case Single(item) => [item]
  }

  /**
   * `add`: the vector is the executable, `Add`, the files and then the
   * option tokens. The options are encoded before anything is executed, so
   * a refused option is reported whatever the handle holds; accepted options
   * with no executable path fail only at execution.
   */
  function Add(v: Vss, files: Files, options: seq<Setting>): (r: Result<seq<string>, CommandError>)
    ensures Encode(OptionTable, options).Err? ==> r == Err(BadOptions(Encode(OptionTable, options).error))
    ensures r.Ok? <==> Encode(OptionTable, options).Ok? && v.ssPath.Some?
    ensures r.Ok? ==> r.value == [v.ssPath.value, "Add"] + FileArgs(files) + Encode(OptionTable, options).value
    ensures Encode(OptionTable, options).Ok? && v.ssPath.None? ==> r == Err(NoExecutable)
  {
    match Encode(OptionTable, options)
    case Err(e) => Err(BadOptions(e))
    case Ok(tokens) =>
      var argv := ["Add"] + FileArgs(files) + tokens;
      assert v.ssPath.Some? ==> [v.ssPath.value] + argv == [v.ssPath.value, "Add"] + FileArgs(files) + tokens;
      Execute(v, argv)
  }

  /**
   * The layout of an `Add` vector: two leading words, the files, then one
   * token per option in the options' order.
   */
  lemma AddLayout(v: Vss, files: Files, options: seq<Setting>)
    requires Add(v, files, options).Ok?
    ensures |Add(v, files, options).value| == 2 + |FileArgs(files)| + |options|
    ensures Add(v, files, options).value[2..2 + |FileArgs(files)|] == FileArgs(files)
    ensures forall k :: 0 <= k < |options| ==>
      EncodeOne(OptionTable, options[k]) == Ok(Add(v, files, options).value[2 + |FileArgs(files)| + k])
  {
    var tokens := Encode(OptionTable, options).value;
    var c := Add(v, files, options).value;
    var n := |FileArgs(files)|;
    EncodeTokens(OptionTable, options);
    assert c[2..2 + n] == FileArgs(files);
    assert forall k :: 0 <= k < |options| ==> c[2 + n + k] == tokens[k];
  }

  /** `add` with `["a.txt", "b.txt"]` and no options. */
  lemma AddTwoFiles(v: Vss)
    requires v.ssPath.Some?
    ensures Add(v, FileList(["a.txt", "b.txt"]), []) == Ok([v.ssPath.value, "Add", "a.txt", "b.txt"])
  {
    assert [v.ssPath.value] + (["Add"] + ["a.txt", "b.txt"] + []) == [v.ssPath.value, "Add", "a.txt", "b.txt"];
  }

  /** `add` of one file with `format='binary'`: the flag follows the file. */
  lemma {:induction false} AddBinary(v: Vss, file: string)
    requires v.ssPath.Some?
    ensures Add(v, Single(file), [Setting("format", "binary")]) == Ok([v.ssPath.value, "Add", file, "-B"])
  {
    var options := [Setting("format", "binary")];
    FormatTokens("binary");
    assert Encode(OptionTable, options).Ok? && Encode(OptionTable, options).value == ["-B"];
    assert [v.ssPath.value] + (["Add"] + [file] + ["-B"]) == [v.ssPath.value, "Add", file, "-B"];
  }

  /** Options unknown to the table, such as `recursive`, are refused before execution. */
  lemma {:induction false} AddUnknownOption(v: Vss, files: Files, options: seq<Setting>, k: nat)
    requires k < |options| && options[k].name !in OptionTable
    ensures Add(v, files, options).Err? && Add(v, files, options).error.BadOptions?
  {
    EncodeSucceedsIff(OptionTable, options);
  }
}
