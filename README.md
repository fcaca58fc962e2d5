# lea views, modelled in Dafny

This project models `lea/views.py` of lea, a small SQL orchestrator that
reads a directory of view files, works out which tables each view depends on
and runs the views in dependency order. The model covers everything that file
decides on its own:

- **Identity.** A view file at `schema/d1/…/dk/file.ext` below the views
  directory belongs to schema `schema`. Its name is `d1__…__dk__stem`, and its
  `repr` is `schema.name`.
- **Kind.** `View.from_path` returns a Python view for `.py`, a SQL view for
  `.sql`, and nothing for any other suffix (pathlib's suffix rule).
- **Query.** The file text loses its trailing whitespace, then every trailing
  `;`. Text that then starts with `{% extends` is handed to the jinja2
  renderer instead.
- **SQL dependencies.** Every table reference that sqlglot finds is
  classified as dotted, `__`-separated or bare. The bare names of common table
  expressions are then subtracted.
- **Overrides.** A fixed chain of ten `(schema, name)` tests short-circuits
  parsing. Generic SQL views share the same dependency and description logic.
- **Description.** The leading `--` lines of the stripped query, threaded
  through `lstrip("-").strip()` and joined with spaces.
- **Python dependencies.** The union, over all `pd.read_gbq(...)` and
  `….query…(...)` calls, of the dependencies of their literal first argument.
- **Loader.** `load_views` filters a directory listing and maps `from_path`
  over the survivors.

Three modules:

- **`PyStr`** (`pystr.dfy`) holds the Python string operations the code
  relies on, with CPython's semantics: `isspace`, `strip`/`rstrip`/`lstrip`,
  `find`, `rfind`, `split`, `join` and `splitlines`.
- **`PurePath`** (`purepath.dfy`) holds the pathlib pieces: `name`, `suffix`,
  `stem` and `relative_to`. A path is the sequence of its parts.
- **`Views`** (`views.dfy`) holds the view code itself.

The collaborators the code calls but does not define are the fields of an
`Env` value: reading a file, rendering a template, `sqlglot.parse_one` (with
its `find_all` results) and `ast.parse` (with `ast.walk`). Each of them can
fail, and a failure appears as `None` there. The model passes it on as an
`Err` naming it: `ReadError` with the file, `TemplateError` with the
template, `ParseError` with the SQL and `SyntaxError` with the script.

Behaviour of the code worth knowing:

- `rstrip(";")` removes every trailing semicolon, not just one.
- Whitespace between semicolons is kept, so `"x; ;"` trims to `"x; "`.
- The `__` branch of the classification keeps only the piece between the
  first and the second `__` as the name. A reference to a nested view
  therefore loses all but its first directory (`ClassifyNestedReference`).
- The `__` test comes first: a dotted reference whose name contains `__` is
  classified by the `__` rule, not by its dot.
- Only schema-less pairs are subtracted, so `("x", a)` survives even when `a`
  is a CTE alias.
- A recognised call without positional arguments raises an `IndexError` that
  nothing catches (lines 149 and 156).
- The second `core.transport_steps` test (line 99) can never be reached.

## Model

| member | source | states |
|---|---|---|
| PyStr.Strip | lea/views.py:112 | `strip()` leaves no whitespace at either end, keeps only characters of the input, and is empty exactly when the input is all whitespace |
| PyStr.RStrip | lea/views.py:53 | `rstrip()` is a prefix of the input that leaves only whitespace behind and does not itself end in whitespace |
| PyStr.RStripChars | lea/views.py:53 | `rstrip(chars)` is a prefix of the input that leaves only `chars` behind and does not itself end in one of them |
| PyStr.LStripChars | lea/views.py:110 | `lstrip(chars)` is a suffix of the input that leaves only `chars` in front and does not itself start with one of them |
| PyStr.Contains | lea/views.py:66-70 | `sub in s` holds exactly when `sub` occurs in `s`: at the index `find` returns, and otherwise nowhere |
| PyStr.StripSlice | lea/views.py:112 | `strip()` is the slice of the input that ends where `rstrip()` does, with only whitespace before and after it |
| PyStr.Split | lea/views.py:67-69 | `split` yields at least one piece, and exactly one exactly when the separator does not occur |
| PyStr.JoinSplit | lea/views.py:67-69 | joining the pieces of a split with its separator gives back the original string |
| PyStr.SplitDunderPair | lea/views.py:69 | `(a + "__" + b).split("__")` is `[a, b]` when `a` is clean and `b` holds no `__` |
| PyStr.SplitDunderTriple | lea/views.py:69 | `(a + "__" + b + "__" + c).split("__")` starts with `a`, `b` when both are clean, whatever `c` holds |
| PyStr.Join | lea/views.py:31 | joining no pieces gives the empty string, and joining one piece gives that piece |
| PyStr.JoinCons | lea/views.py:31 | joining two or more pieces gives the first piece, the separator, and the join of the rest |
| PyStr.JoinHead | lea/views.py:109 | a join begins with its first piece |
| PyStr.SplitLines | lea/views.py:112 | `splitlines` is empty only for the empty string, its first line runs to the first boundary, and no line holds a boundary |
| PyStr.SplitLinesSingle | lea/views.py:112 | a non-empty string without boundaries is one line |
| PyStr.SplitLinesBreak | lea/views.py:112 | after a boundary other than a `\r` followed by `\n`, the lines are the first line and then the lines of the rest |
| PyStr.SplitLinesCrLf | lea/views.py:112 | `\r\n` is one boundary: the lines are the first line and then the lines of what follows the `\n` |
| PurePath.Suffix | lea/views.py:39-41 | a suffix is empty or a dot, at least one more character and no other dot, and it ends the name |
| PurePath.SuffixEmpty | lea/views.py:39-41 | the suffix is empty exactly when the name ends with a dot or has no dot after its first character |
| PurePath.Stem | lea/views.py:30 | stem followed by suffix is the name; the stem is non-empty when there is a suffix |
| PurePath.RelativeTo | lea/views.py:38 | the relative path, appended to the origin, is the path |
| Views.DirectChildName | lea/views.py:24-34 | a file directly in its schema directory has that schema, is named by its stem, and has repr `schema.stem` |
| Views.NamePartsCons | lea/views.py:30 | the name pieces of a path with a directory right below the schema are that directory, then the pieces of the path without it |
| Views.NestedName | lea/views.py:28-31 | for a SQL or a Python view, each directory between schema and file adds itself and `__` in front of the name |
| Views.FromPath | lea/views.py:36-42 | a view exactly for `.py` and `.sql`; Python exactly for `.py`; the view's origin and file are the given ones |
| Views.FromPathInjective | lea/views.py:36-42 | different files below one directory give different views |
| Views.TrimQuery | lea/views.py:53 | the query is a prefix of the whitespace-trimmed text, which is a prefix of the text; only `;` are cut after it; it never ends with `;` |
| Views.ExampleTrim | lea/views.py:53 | `"x; ;"` trims to `"x; "`: whitespace between semicolons survives |
| Views.ExampleTrimTwice | lea/views.py:53 | trimming is not idempotent: trimming `"x; "` again gives `"x"` |
| Views.Query | lea/views.py:50-59 | a generic view's query is returned as given |
| Views.QueryOfFile | lea/views.py:52-59 | an unreadable file fails with a `ReadError` of that file; plain text is returned as it is trimmed, a prefix of the file not ending in `;`; template text is never returned, only what the renderer makes of it, and a rendering failure is a `TemplateError` of that template |
| Views.Classify | lea/views.py:66-73 | schema absent exactly when the name has no `__` and the written form no dot; without `__` the name is kept |
| Views.ClassifyDotted | lea/views.py:67-68 | a dotted reference without `__` takes its schema from the written form up to the first dot |
| Views.ClassifyUnderscored | lea/views.py:69-70 | a name with `__` gives the text before the first `__` and the text between the first and the second `__`, whatever the written form |
| Views.ClassifyDirectReference | lea/views.py:66-73 | `schema__stem` classifies to the directly-contained view's schema and name |
| Views.ClassifyNestedReference | lea/views.py:66-73 | `schema__name` of a nested SQL or Python view classifies to its first directory, not its full name |
| Views.ClassifyRepr | lea/views.py:33-34 | a reference written as a view's repr `schema.name` classifies back to that schema and name, when the schema has no dot and the name no `__` |
| Views.DependenciesOf | lea/views.py:64-74 | the result is a subset of the classified pairs, never holds `(None, alias)`, and only schema-less alias pairs are removed |
| Views.ParseDependencies | lea/views.py:62-74 | a parse failure is a `ParseError` of that SQL, and nothing else fails; otherwise the result is the CTE-free classification |
| Views.LookupFirstMatch | lea/views.py:80-104 | the chain answers with the set of the first matching test, and with nothing exactly when no test matches |
| Views.RemoveShadowed | lea/views.py:80-104 | a test for the same view as an earlier test can be deleted without effect |
| Views.DuplicateOverrideUnreachable | lea/views.py:80-100 | the test at line 99 repeats the one at line 80, and deleting it changes no lookup |
| Views.OverrideTable | lea/views.py:80-104 | each listed view gets exactly its listed set |
| Views.SqlDependencies | lea/views.py:76-105 | an overridden view gets its fixed set; any other view gets the parse of its query, or the query's error |
| Views.OverrideIgnoresQuery | lea/views.py:78-104 | an overridden view's dependencies succeed and do not depend on files, renderer or parser |
| Views.GenericDependencies | lea/views.py:117-133 | a generic view that is not overridden depends on its given query's tables less its CTE names |
| Views.CommentText | lea/views.py:110 | `lstrip("-").strip()` is the stripped rest of the line after its leading run of dashes, which ends at a non-dash or the end; it keeps only characters of the line and leaves no whitespace at either end |
| Views.CommentTextNoLineBreak | lea/views.py:110 | the comment text of a line without line breaks has none either |
| Views.CommentCount | lea/views.py:111-113 | `takewhile(startswith("--"))` keeps exactly the leading comment lines and stops at the first other line |
| Views.LeadingComments | lea/views.py:109-113 | the i-th piece is the comment text of the i-th line, all those lines are comments, and the next line is not |
| Views.DescriptionSingleLine | lea/views.py:107-114 | the description holds no line break |
| Views.DescriptionNeedsComment | lea/views.py:107-114 | the description is empty when the stripped query does not start with `--` |
| Views.DescriptionFirstComment | lea/views.py:107-114 | a description starts with the comment text of the first line when that line is a comment |
| Views.Description | lea/views.py:107-114 | the description fails exactly when the query does, and is otherwise the description of the query |
| Views.RecognisersExclusive | lea/views.py:144-155 | no callee passes both the `pd.read_gbq` test and the `.query` test, so a node feeds at most one of them |
| Views.FirstArgDependencies | lea/views.py:149-156 | a call without arguments fails with `IndexError`, a literal sqlglot rejects with its `ParseError`; a literal otherwise yields its tables less its CTE names, and another first argument nothing |
| Views.NodeDependencies | lea/views.py:142-158 | only a recognised call can fail, and one without arguments always fails with `IndexError`; a recognised literal that does not parse fails with its parse error; other nodes and non-literal arguments yield nothing; a recognised literal yields its parse |
| Views.NodesDependencies | lea/views.py:139-160 | success exactly when every node succeeds; then a pair is in the result exactly when some node yields it; otherwise the error of the first failing node |
| Views.PythonDependencies | lea/views.py:136-160 | an unreadable file is a `ReadError` and an unparsable script a `SyntaxError`, both of that file; otherwise the union over its walked nodes |
| Views.ScriptQueryCall | lea/views.py:146-156 | a recognised call with a literal query anywhere in the script contributes all of that query's dependencies |
| Views.Dependencies | lea/views.py:44-47 | dispatch to the Python or the SQL rule by the kind of view |
| Views.SchemaDirs | lea/views.py:166 | the schema directories are exactly the directory entries directly below the views directory |
| Views.ViewOfCandidate | lea/views.py:163-172 | a file passing the loader's filter always yields a view, SQL or Python, at that path |
| Views.LoadViewsSound | lea/views.py:163-172 | no element is `None`; each is a file view of a filtered file below a schema directory, and its schema is that directory |
| Views.LoadViewsComplete | lea/views.py:163-172 | in a listing without repeated paths, each filtered file below a schema directory yields exactly one view, whose schema is that directory |

## Left out

- jinja2 template loading and rendering (lines 55-58) belong to a foreign
  library. They are the `render` oracle, which fails or returns text; only
  the `{% extends` prefix test is modelled.
- Parsing the SQL and collecting its table references and CTE aliases
  (`sqlglot.parse_one`, `find_all`, `table.sql()`, lines 63-72) belong to a
  foreign parser. Its results are an `SqlTree` value returned by `parseSql`.
- Parsing and walking the Python script (`ast.parse`/`ast.walk`, line 141)
  is the `parsePython` oracle. It returns the walked nodes in walk order,
  reduced to calls (callee shape, positional arguments) and other nodes.
- Some first arguments have a `.value` that is not a string: a non-string
  constant, or an attribute access `a.b`, whose `.value` is the node `a`. The
  model treats them like `Other`, so they contribute nothing. Python would
  hand that value to sqlglot, and what sqlglot does with it is left out.
- Filesystem access (`read_text`, `iterdir`, `rglob`, `is_dir`, `stat`) is
  left out. File texts come from `readText`; the tree below the views
  directory is a list of entries (relative parts, directory flag, size). The
  loader keeps the order of that list, since the order of `iterdir`/`rglob`
  depends on the operating system.
- `View.__post_init__` (lines 20-22) only coerces the path's type, so it is
  not modelled.
- `View.path` is modelled as path concatenation (`FilePath`); it has no
  contract of its own.
- The end-to-end CLI test in `tests/test_examples.py` is not part of this
  model: it is all process, database and file I/O.
- FromPath, RelativeTo: `path.relative_to(origin)` raises a `ValueError` for
  a path outside `origin`. The model requires the path to lie inside
  `origin` instead, which every call in `load_views` satisfies.
- Schema, SqlDependencies, Dependencies: `relative_path.parts[0]` raises an
  `IndexError` for an empty relative path. The model requires a non-empty
  path instead, for `Dependencies` only of SQL views, whose rule asks for the
  schema; `relative_to` never produces one for a file the loader sees.
- PyStr.Split: the full round trip `split(join(parts)) == parts` is not
  stated. Only `join(split(s)) == s` is proved, plus the first two pieces for
  the `__` shapes the classification meets (`SplitDunderPair`,
  `SplitDunderTriple`).
- Views.Query: for file views, the ensures only name the generic case. What a
  SQL file view returns, in every case, is stated by `QueryOfFile`.
