# VSSPython: option encoding and executable lookup

A model of the core of VSSPython, a thin Python wrapper around the
Microsoft Visual SourceSafe command-line client `ss.exe`. Two pieces carry
logic:

- **Executable lookup** (`get_ss_path`, module `Tools`): the search list is
  the `VSS_PYTHON_SS_PATH` environment variable split on `;`, or the default
  installation path when it is unset. Candidates are tried in order. A regular
  file is the answer as it is. A directory is the answer joined with `ss.exe`
  when that is a regular file. A candidate that gives neither is skipped; when
  none resolves the result is None. The environment
  and the filesystem are a `Host` value (the variable, the set of files, the
  set of directories), and the path join is a function parameter.
- **Option encoding and argument vectors** (`VSS`, module `Vss`): a static
  option table maps `format` to an enumerated choice (`binary` gives `-B`,
  `text` gives `-B-`) and the three base-version options to `{param}` templates.
  The encoder turns keyword options into `ss.exe` flag tokens in iteration
  order. It raises on an unknown name or a refused choice value. `about` and
  `add` build `['About']` and `['Add'] + files + tokens`, and `__execute` puts
  the executable path in front.

The encoder is defined once as a specification function (`Encode`, over any
table) and once as the loop the source runs (`ToOptionsList`, proved equal to
it). Template substitution is Python's `str.replace`, written out
(`Replace`, every non-overlapping occurrence, left to right), and proved to give prefix plus value for the table's templates.
The general encoder lemmas take the table as a parameter; the table-specific
facts are separate lemmas about `OptionTable`.
The repository handle is an immutable value: its two fields are set once by
`__init__`. A command's result is the argument vector that would be passed to
the process.

Files: `wrappers.dfy` (Option, Result), `tools.dfy` (vss/tools.py),
`vss.dfy` (vss/vss.py).

## Model

| member | source | states |
|---|---|---|
| `Tools.Split` | vss/tools.py:18 | `str.split(';')`: at least one part (empty string gives `[""]`), no part holds the separator, and joining the parts gives the input back |
| `Tools.SplitJoin` | vss/tools.py:18 | splitting a `;`-join of separator-free parts gives exactly those parts, so every search list is reachable through the variable |
| `Tools.Candidates` | vss/tools.py:18 | variable unset: exactly the default path `C:\Program Files\Microsoft Visual SourceSafe\ss.exe`; set: the `;`-separated pieces of its value, which join back to it |
| `Tools.Probe` | vss/tools.py:21-26 | one candidate: a regular file is returned unchanged; a directory that is not a file, and whose `join(path, 'ss.exe')` is a file, gives that joined path; there is an answer exactly when one of these two holds, and any answer is a regular file |
| `Tools.FindFirst` | vss/tools.py:20-26 | the result is None exactly when no candidate gives an answer; a result is a regular file and the answer of some candidate |
| `Tools.FindFirstIsFirst` | vss/tools.py:20-26 | candidates are tried in list order: the result is the answer of the first candidate that gives one, whatever later candidates give |
| `Tools.GetSsPath` | vss/tools.py:7-26 | `get_ss_path`: a result is a regular file that is either a candidate or `join(c, 'ss.exe')` for a candidate directory `c`; None exactly when no candidate resolves |
| `Tools.GetSsPathDefault` | vss/tools.py:18-26 | with the variable unset only the default path is probed; if it is a file it is the result |
| `Tools.GetSsPathSearchList` | vss/tools.py:18-26 | with the variable set to a `;`-joined list, exactly that list is searched, in order |
| `Vss.ReplaceTrailing` | vss/vss.py:47-49 | a template ending in its only `{param}` becomes its prefix followed by the value |
| `Vss.EncodeOne` | vss/vss.py:54-68 | one option: a token exactly when the name is in the table and, for a choice, the value is a key; an unknown name raises `UnknownName(name)`; every error names the option |
| `Vss.Encode` | vss/vss.py:52-70 | on success, one token per option, so an empty mapping gives no tokens |
| `Vss.EncodeSucceedsIff` | vss/vss.py:52-70 | encoding succeeds exactly when every option has a known name and, for `format`, a listed value |
| `Vss.EncodeTokens` | vss/vss.py:52-70 | on success the k-th token is the token of the k-th option: order is preserved |
| `Vss.EncodeFailsAtFirstRefused` | vss/vss.py:52-62 | the first refused option's error is the whole result: the raise aborts the loop and no partial token list is returned |
| `Vss.EncodeErrorIsFirstRefused` | vss/vss.py:52-62 | every failure is the error of the first refused option |
| `Vss.EncodeAppend` | vss/vss.py:52-70 | encoding distributes over concatenation: `encode(a + b) == encode(a) + encode(b)` when both succeed; an error in `a` is the error of `a + b`, else an error in `b` is |
| `Vss.EncodeAppendErr` | vss/vss.py:52-70 | an error in the first part of the options is the error of the whole |
| `Vss.EncodeAppendOk` | vss/vss.py:52-70 | after a first part that succeeds, the whole gives the second part's error, or the first part's tokens followed by the second's |
| `Vss.EncodeStep` | vss/vss.py:52-70 | one more iteration either appends this option's token or ends the whole encoding with its error |
| `Vss.ToOptionsList` | vss/vss.py:35-70 | the source's loop (append per option, raise on the first refused one) computes exactly `Encode` over the option table |
| `Vss.OptionNames` | vss/vss.py:42-50 | the table knows exactly `format`, `base_version_number`, `base_version_date` and `base_version_label` |
| `Vss.FormatTokens` | vss/vss.py:43-46 | `format='binary'` gives `-B`, `format='text'` gives `-B-`, any other value raises `InvalidValue('format', v)` |
| `Vss.TemplateTokens` | vss/vss.py:47-49 | any value `v` is accepted; the base-version number and date give `-B` + `v`, the label gives `-Bl` + `v` |
| `Vss.Init` | vss/vss.py:15-21 | `__init__`: a truthy `ss_path` is kept; None or `""` falls back to `get_ss_path`, so a path then found is a regular file; the repository path is kept |
| `Vss.Execute` | vss/vss.py:23-33 | the executed vector is the executable path followed by the arguments unchanged; without a path there is no vector |
| `Vss.About` | vss/vss.py:72-79 | `about` executes `[ss_path, 'About']`; it succeeds exactly when there is an executable path, and its only failure is `NoExecutable`, never an option error |
| `Vss.Add` | vss/vss.py:81-91 | `add` executes `[ss_path, 'Add'] + files + tokens`, a single file wrapped in a list; a refused option is reported before execution, whatever the handle holds; with accepted options and no executable path the failure is `NoExecutable`, never an option error |
| `Vss.AddLayout` | vss/vss.py:88-91 | an `add` vector has two leading words, then the files unchanged, then one token per option in the options' order, each that option's own token |
| `Vss.AddTwoFiles` | vss/vss.py:88-91 | `add(['a.txt', 'b.txt'])` with no options executes `[ss_path, 'Add', 'a.txt', 'b.txt']` |
| `Vss.AddBinary` | vss/vss.py:88-91 | `add(f, format='binary')` executes `[ss_path, 'Add', f, '-B']` |
| `Vss.AddUnknownOption` | vss/vss.py:91 | an option the table does not know makes `add` fail with an option error |

## Left out

- Process execution: `subprocess.check_output`, the copy of `os.environ` and the `SSDIR` variable set to the repository path (vss/vss.py:30-33) are I/O. The model stops at the argument vector. The error raised for a non-zero exit comes from the library, so it is not modelled.
- Vss.Execute: with no executable path the source passes `None` to the process call, which fails inside the library. The model returns `NoExecutable` instead of naming that library error.
- Filesystem and environment queries (`os.path.isfile`, `os.path.isdir`, `os.environ.get`) are the fields of `Tools.Host`. The platform rules of `os.path.join` are an uninterpreted function parameter.
- Vss.Add: a non-list `files` is wrapped as `[str(files)]`. The model takes that single value as a string already, because `str` of arbitrary Python objects is not modelled.
- Option values are strings only. The code has no boolean-switch or list-valued option handling, so none is modelled.
- Options are a sequence of (name, value) pairs in the keyword dictionary's iteration order. Encoding is defined for any sequence; a dictionary's distinct names are not needed by any property.
- `get_ss_path` takes no override path, and no error is raised before invocation when no path is found: a missing path is only noticed by the process call (see `Vss.Execute`).
- vss/functions.py is not part of this model. Its `checkout`, `undo_checkout` and `checkin` call methods that `VSS` does not define, and they pass options (`recursive`, `get_folder`, `output`, `comment_no_text`) that the option table refuses (see `Vss.AddUnknownOption`).
- setup.py is packaging metadata.
