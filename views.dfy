/** lea's views: the identity of a view file (schema, name, repr), the choice
    of view kind from the file suffix, the trimming of SQL queries, the
    dependency extraction for SQL and Python views, the description taken from
    leading comments, and the loader that turns a directory listing into views.
    The file system, the jinja2 renderer, the sqlglot parser and Python's `ast`
    module are outside the model: they reach it through an `Env`. */
module Views {
  import opened PyStr
  import opened PurePath

  datatype Option<T> = None | Some(value: T)

  /** The exceptions the view code lets escape. */
  datatype Error =
    | ReadError(file: Path)              // the view's file could not be read
    | ParseError(sql: string)            // sqlglot could not parse the SQL
    | TemplateError(template: Path)      // jinja2 could not load or render the template
    | SyntaxError(file: Path)            // `ast.parse` rejected a Python view
    | IndexError                         // `node.args[0]` on a call without positional arguments

  datatype Result<T> = Ok(value: T) | Err(error: Error)

  /** A dependency `(schema, name)`; the schema is `None` for a bare name. */
  datatype Dep = Dep(schema: Option<string>, name: string)

  /** A table reference found by sqlglot: `table.sql()` and `table.name`. */
  datatype TableRef = TableRef(written: string, name: string)

  /** What the model needs of a parsed statement: its table references and the
      aliases of its common table expressions, in the order sqlglot finds them. */
  datatype SqlTree = SqlTree(tables: seq<TableRef>, cteAliases: seq<string>)

  /** The first positional argument of a call: a string literal (an
      `ast.Constant` with a string `.value`) or anything without a `.value`. */
  datatype Arg = StrLit(s: string) | Other

  /** The `func` of a call: an attribute access `receiver.attr`, where the
      receiver id is known only when the receiver is a plain name, or any other
      callee (a plain name, a subscript, a call), which has no `.attr`. */
  datatype Callee = Attribute(receiver: Option<string>, attr: string) | NotAttribute

  /** A node visited by `ast.walk`. */
  datatype PyNode = Call(callee: Callee, args: seq<Arg>) | NotCall

  /** The collaborators of the view code: reading a file, rendering a jinja2
      template (root directory, template name) and the two parsers. A `None`
      stands for the exception the collaborator raises. */
  datatype Env = Env(
    readText: Path -> Option<string>,
    render: (Path, Path) -> Option<string>,
    parseSql: string -> Option<SqlTree>,
    parsePython: string -> Option<seq<PyNode>>)

  /** A view: a SQL or Python file at `relativePath` below the views directory
      `origin`, or a generic SQL view given by its schema, name and query. */
  datatype View =
    | SQLView(origin: Path, relativePath: Path)
    | PythonView(origin: Path, relativePath: Path)
    | GenericSQLView(givenSchema: string, givenName: string, givenQuery: string)

  // ---------------------------------------------------------------- identity

  /** `View.path`: the view's file, `origin.joinpath(relative_path)`. */
  function FilePath(v: View): Path
    requires !v.GenericSQLView?
  {
    v.origin + v.relativePath
  }

  /** `View.schema`: the first part of the relative path (taking the first part
      of an empty path raises, so callers must not ask for it). */
  function Schema(v: View): string
    requires v.GenericSQLView? || v.relativePath != []
  {
    if v.GenericSQLView? then v.givenSchema else v.relativePath[0]
  }

  /** The pieces of a view name: the directories between the schema directory
      and the file, then the file's stem. */
  function NameParts(rel: Path): seq<string> {
    Middle(rel) + [Stem(Basename(rel))]
  }

  /** The directories between the schema directory and the file. */
  function Middle(rel: Path): seq<string> {
    if |rel| >= 2 then rel[1..|rel| - 1] else []
  }

  /** `View.name`: the name pieces joined with `__`. */
  function Name(v: View): string {
    if v.GenericSQLView? then v.givenName else Join(NameParts(v.relativePath), "__")
  }

  /** `View.__repr__` */
  function Repr(v: View): string
    requires v.GenericSQLView? || v.relativePath != []
  {
    Schema(v) + "." + Name(v)
  }

  /** A file directly inside its schema directory is named by its stem. */
  lemma DirectChildName(v: View)
    requires !v.GenericSQLView? && |v.relativePath| == 2
    ensures Schema(v) == v.relativePath[0]
    ensures Name(v) == Stem(v.relativePath[1])
    ensures Repr(v) == v.relativePath[0] + "." + Stem(v.relativePath[1])
  {
    assert NameParts(v.relativePath) == [Stem(v.relativePath[1])];
  }

  /** The name pieces of a path with a directory `dir` right below the schema
      are `dir` followed by the pieces of the path without it. */
  lemma NamePartsCons(schema: string, dir: string, rest: Path)
    requires rest != []
    ensures NameParts([schema, dir] + rest) == [dir] + NameParts([schema] + rest)
  {
    var long, short := [schema, dir] + rest, [schema] + rest;
    var middle := Middle(short);
    assert Middle(long) == [dir] + middle by {
      assert long[1..|long| - 1] == [dir] + short[1..|short| - 1];
    }
    assert Basename(long) == Basename(short) by {
      assert long[|long| - 1] == short[|short| - 1];
    }
    var stem := Stem(Basename(short));
    assert ([dir] + middle) + [stem] == [dir] + (middle + [stem]);
  }

  /** A file view in a sub-directory is named by that directory, `__`, and
      the name it would have one directory further up. */
  lemma NestedName(v: View, schema: string, dir: string, rest: Path)
    requires !v.GenericSQLView? && v.relativePath == [schema, dir] + rest && rest != []
    ensures Name(v) == dir + "__" + Name(v.(relativePath := [schema] + rest))
  {
    NamePartsCons(schema, dir, rest);
    JoinCons(dir, NameParts([schema] + rest), "__");
  }

  // --------------------------------------------------------------- from_path

  /** `View.from_path`: a Python view for a `.py` file, a SQL view for a `.sql`
      file, nothing otherwise; the view's file is `path`. */
  function FromPath(path: Path, origin: Path): (v: Option<View>)
    requires origin <= path
    ensures v.Some? <==> Suffix(Basename(path)) == ".py" || Suffix(Basename(path)) == ".sql"
    ensures v.Some? ==> (v.value.PythonView? <==> Suffix(Basename(path)) == ".py")
    ensures v.Some? ==> v.value.SQLView? || v.value.PythonView?
    ensures v.Some? ==> v.value.origin == origin && FilePath(v.value) == path
  {
    var rel := RelativeTo(path, origin);
    var suffix := Suffix(Basename(path));
    if suffix == ".py" then Some(PythonView(origin, rel))
    else if suffix == ".sql" then Some(SQLView(origin, rel))
    else None
  }

  /** Two files below the same views directory give the same view only when
      they are the same file. */
  lemma FromPathInjective(origin: Path, p: Path, q: Path)
    requires FromPath(origin + p, origin).Some? && FromPath(origin + p, origin) == FromPath(origin + q, origin)
    ensures p == q
  {
    var v := FromPath(origin + p, origin).value;
    assert origin + v.relativePath == origin + p && origin + v.relativePath == origin + q;
    assert v.relativePath == (origin + p)[|origin|..] == p;
    assert v.relativePath == (origin + q)[|origin|..] == q;
  }

  // ------------------------------------------------------------------- query

  /** The tag that makes a SQL file a jinja2 template. */
  const ExtendsTag: string := "{% extends"

  /** `text.rstrip().rstrip(";")`: the file text without trailing whitespace and
      then without every trailing `;`. */
  function TrimQuery(text: string): (q: string)
    ensures q <= RStrip(text) <= text
    ensures forall i :: |q| <= i < |RStrip(text)| ==> RStrip(text)[i] == ';'
    ensures q == [] || q[|q| - 1] != ';'
  {
    RStripChars(RStrip(text), {';'})
  }

  /** Whitespace between semicolons survives trimming. */
  lemma ExampleTrim()
    ensures TrimQuery("x; ;") == "x; "
  {
    assert RStripEnd("x; ;", Whitespace) == 4;
    assert RStripChars("x; ;", Whitespace) == "x; ;";
    assert "x; ;"[..3] == "x; ";
    assert RStripEnd("x; ", {';'}) == 3;
    assert RStripEnd("x; ;", {';'}) == 3;
  }

  /** So trimming twice can remove more than trimming once. */
  lemma ExampleTrimTwice()
    ensures TrimQuery(TrimQuery("x; ;")) == "x"
  {
    ExampleTrim();
    assert "x; "[..2] == "x;" && "x;"[..1] == "x";
    assert RStripEnd("x;", Whitespace) == 2;
    assert RStripEnd("x; ", Whitespace) == 2;
    assert RStripEnd("x", {';'}) == 1;
    assert RStripEnd("x;", {';'}) == 1;
  }

  /** `SQLView.query`: the trimmed file text or, when the trimmed text starts
      with `{% extends`, the rendered template named by the relative path, loaded
      from the views directory. A generic SQL view returns its query as given. */
  function Query(v: View, env: Env): (r: Result<string>)
    requires !v.PythonView?
    ensures v.GenericSQLView? ==> r == Ok(v.givenQuery)
  {
    if v.GenericSQLView? then Ok(v.givenQuery)
    else
      match env.readText(FilePath(v))
      case None => Err(ReadError(FilePath(v)))
      case Some(raw) =>
        var text := TrimQuery(raw);
        if StartsWith(text, ExtendsTag) then
          match env.render(v.origin, v.relativePath)
          case Some(rendered) => Ok(rendered)
          case None => Err(TemplateError(v.relativePath))
        else Ok(text)
  }

  /** A SQL file that cannot be read fails with that file. Plain SQL files
      yield their trimmed text, which is a prefix of the file that does not end
      with `;`; template files never yield their own text but what the
      renderer makes of them. */
  lemma QueryOfFile(v: View, env: Env)
    requires v.SQLView?
    ensures env.readText(FilePath(v)).None? ==> Query(v, env) == Err(ReadError(FilePath(v)))
    ensures env.readText(FilePath(v)).Some? ==>
      var raw := env.readText(FilePath(v)).value;
      var text := TrimQuery(raw);
      && (!StartsWith(text, ExtendsTag) ==>
            Query(v, env) == Ok(text) && text <= raw && (text == [] || text[|text| - 1] != ';'))
      && (StartsWith(text, ExtendsTag) ==>
            (Query(v, env).Ok? <==> env.render(v.origin, v.relativePath).Some?)
            && (Query(v, env).Ok? ==> Query(v, env).value == env.render(v.origin, v.relativePath).value)
            && (Query(v, env).Err? ==> Query(v, env).error == TemplateError(v.relativePath)))
  {
  }

  // ----------------------------------------------------------- dependencies

  /** The dependency a table reference stands for. A dotted reference without
      `__` in its name is `(schema, name)`; a name with `__` is split there
      (whatever the written form), keeping only the piece between the first and
      a possible second `__` as the name; otherwise the name is bare. */
  function Classify(t: TableRef): (d: Dep)
    ensures d.schema.None? <==> !Contains(t.name, "__") && !Contains(t.written, ".")
    ensures !Contains(t.name, "__") ==> d.name == t.name
  {
    if !Contains(t.name, "__") && Contains(t.written, ".") then
      Dep(Some(Split(t.written, ".")[0]), t.name)
    else if Contains(t.name, "__") then
      var pieces := Split(t.name, "__");
      Dep(Some(pieces[0]), pieces[1])
    else
      Dep(None, t.name)
  }

  /** A dotted reference whose name has no `__` takes its schema from the
      written form up to the first dot. */
  lemma ClassifyDotted(t: TableRef, i: int)
    requires NextCut(t.written, ".", 0, i) && i < |t.written|
    requires !Contains(t.name, "__")
    ensures Classify(t) == Dep(Some(t.written[..i]), t.name)
  {
    FindAtCut(t.written, ".", 0, i);
    SplitHead(t.written, ".", i);
  }

  /** A name with `__` at `i` (its first) and next at `k` (or ending at `k`)
      gives the schema before `i` and the name between the two, whether or not
      the written form has a dot. */
  lemma ClassifyUnderscored(t: TableRef, i: int, k: int)
    requires NextCut(t.name, "__", 0, i) && i < |t.name|
    requires NextCut(t.name, "__", i + 2, k)
    ensures Classify(t) == Dep(Some(t.name[..i]), t.name[i + 2..k])
  {
    FindAtCut(t.name, "__", 0, i);
    SplitHead(t.name, "__", i);
    SplitSecond(t.name, "__", i, k);
  }

  /** A reference `schema__stem` names the view directly inside its schema
      directory when the schema does not end with `_` and neither piece holds
      `__`, whatever the written form. */
  lemma ClassifyDirectReference(origin: Path, schema: string, file: string, written: string)
    requires CleanPart(schema) && !Contains(Stem(file), "__")
    ensures var v := SQLView(origin, [schema, file]);
      Classify(TableRef(written, schema + "__" + Name(v))) == Dep(Some(schema), Name(v))
  {
    DirectChildName(SQLView(origin, [schema, file]));
    SplitDunderPair(schema, Stem(file));
  }

  /** A reference `schema__name` to a nested view keeps only the first
      directory as the name: the rest of the view name is lost. */
  lemma ClassifyNestedReference(v: View, schema: string, dir: string, rest: Path, written: string)
    requires !v.GenericSQLView? && v.relativePath == [schema, dir] + rest && rest != []
    requires CleanPart(schema) && CleanPart(dir)
    ensures Classify(TableRef(written, schema + "__" + Name(v))) == Dep(Some(schema), dir)
  {
    NestedName(v, schema, dir, rest);
    var n := schema + "__" + Name(v);
    var tailName := Name(v.(relativePath := [schema] + rest));
    assert n == schema + "__" + (dir + "__" + tailName);
    SplitDunderTriple(schema, dir, tailName);
    assert Contains(n, "__");
  }

  /** A reference written as a view's repr and naming the view classifies
      back to the view's schema and name, when the schema holds no dot and the
      name no `__`. */
  lemma ClassifyRepr(v: View)
    requires v.GenericSQLView? || v.relativePath != []
    requires !Contains(Schema(v), ".") && !Contains(Name(v), "__")
    ensures Classify(TableRef(Repr(v), Name(v))) == Dep(Some(Schema(v)), Name(v))
  {
    var schema, w := Schema(v), Repr(v);
    var i := |schema|;
    assert w[..i] == schema && w[i] == '.';
    assert OccursAt(w, ".", i);
    forall j | 0 <= j < i ensures !OccursAt(w, ".", j) {
      assert !OccursAt(schema, ".", j);
      assert w[j..j + 1] == schema[j..j + 1];
    }
    ClassifyDotted(TableRef(w, Name(v)), i);
  }

  /** The dependencies a statement's table references stand for. */
  function Classified(tree: SqlTree): set<Dep> {
    set t | t in tree.tables :: Classify(t)
  }

  /** `table_names - cte_names`: the classified references without the bare names
      of common table expressions. Nothing else is removed; in particular a
      reference with a schema survives even when its name is a CTE alias. */
  function DependenciesOf(tree: SqlTree): (deps: set<Dep>)
    ensures deps <= Classified(tree)
    ensures forall a :: a in tree.cteAliases ==> Dep(None, a) !in deps
    ensures forall d :: d in Classified(tree) && d !in deps ==> d.schema.None? && d.name in tree.cteAliases
  {
    Classified(tree) - set a | a in tree.cteAliases :: Dep(None, a)
  }

  /** `SQLView._parse_dependencies`: parse the SQL and extract its dependencies;
      a statement sqlglot rejects raises. */
  function ParseDependencies(sql: string, env: Env): (r: Result<set<Dep>>)
    ensures r.Err? <==> env.parseSql(sql).None?
    ensures r.Err? ==> r.error == ParseError(sql)
    ensures r.Ok? ==> r.value == DependenciesOf(env.parseSql(sql).value)
  {
    match env.parseSql(sql)
    case None => Err(ParseError(sql))
    case Some(tree) => Ok(DependenciesOf(tree))
  }

  // ---------------------------------------------------------------- overrides

  /** A hard-wired dependency set for the view `schema.name`. */
  datatype Rule = Rule(schema: string, name: string, deps: set<Dep>)

  function Core(name: string): Dep {
    Dep(Some("core"), name)
  }

  /** The views whose dependencies are fixed instead of parsed, in the order
      they are tested; the eighth repeats the first. */
  const Overrides: seq<Rule> := [
    Rule("core", "transport_steps", {Core("measured_carbonverses")}),
    Rule("core", "measured_carbonverses_measurements", {Core("measured_carbonverses"), Core("indicators")}),
    Rule("core", "carbonverses", {Core("measured_carbonverses")}),
    Rule("core", "components", {Core("measured_carbonverses")}),
    Rule("core", "materials", {Core("components")}),
    Rule("core", "emission_factors", {Dep(Some("niklas"), "emission_factor_snapshot_records")}),
    Rule("collect", "material_funnel",
         {Core("measured_carbonverses"), Core("products"), Core("footprints"), Core("materials_measurements")}),
    Rule("core", "transport_steps", {Core("measured_carbonverses")}),
    Rule("platform", "events", {Dep(Some("posthog"), "events")}),
    Rule("core", "modifiers", {Core("materials")})
  ]

  predicate Matches(r: Rule, schema: string, name: string) {
    r.schema == schema && r.name == name
  }

  /** The chain of tests: the set of the first rule for `schema.name`, if any. */
  function Lookup(rules: seq<Rule>, schema: string, name: string): Option<set<Dep>> {
    if rules == [] then None
    else if Matches(rules[0], schema, name) then Some(rules[0].deps)
    else Lookup(rules[1..], schema, name)
  }

  /** The chain answers with the set of the first matching rule, and with
      nothing exactly when no rule matches. */
  lemma {:induction false} LookupFirstMatch(rules: seq<Rule>, schema: string, name: string)
    ensures Lookup(rules, schema, name).None? <==> forall i :: 0 <= i < |rules| ==> !Matches(rules[i], schema, name)
    ensures Lookup(rules, schema, name).Some? ==>
      exists i :: 0 <= i < |rules| && Matches(rules[i], schema, name) && Lookup(rules, schema, name).value == rules[i].deps
        && forall j :: 0 <= j < i ==> !Matches(rules[j], schema, name)
  {
    if rules != [] && !Matches(rules[0], schema, name) {
      LookupFirstMatch(rules[1..], schema, name);
      assert forall i :: 1 <= i < |rules| ==> rules[i] == rules[1..][i - 1];
      if Lookup(rules, schema, name).Some? {
        var k :| 0 <= k < |rules[1..]| && Matches(rules[1..][k], schema, name)
          && Lookup(rules, schema, name).value == rules[1..][k].deps
          && forall j :: 0 <= j < k ==> !Matches(rules[1..][j], schema, name);
        assert Matches(rules[k + 1], schema, name);
      }
    } else if rules != [] {
      assert Matches(rules[0], schema, name);
    }
  }

  /** The chain tests its first rule first. */
  lemma LookupCons(r: Rule, rules: seq<Rule>, schema: string, name: string)
    ensures Lookup([r] + rules, schema, name)
         == if Matches(r, schema, name) then Some(r.deps) else Lookup(rules, schema, name)
  {
    assert ([r] + rules)[1..] == rules;
  }

  /** Taking out a rule that does not match leaves the lookup unchanged. */
  lemma {:induction false} RemoveNonMatching(rules: seq<Rule>, i: int, schema: string, name: string)
    requires 0 <= i < |rules| && !Matches(rules[i], schema, name)
    ensures Lookup(rules[..i] + rules[i + 1..], schema, name) == Lookup(rules, schema, name)
  {
    var tail := rules[1..];
    assert rules == [rules[0]] + tail;
    LookupCons(rules[0], tail, schema, name);
    if i == 0 {
      assert rules[..i] + rules[i + 1..] == tail;
    } else {
      RemoveNonMatching(tail, i - 1, schema, name);
      assert rules[..i] + rules[i + 1..] == [rules[0]] + (tail[..i - 1] + tail[i..]);
      LookupCons(rules[0], tail[..i - 1] + tail[i..], schema, name);
    }
  }

  /** A rule with the same view as an earlier rule is never reached. */
  lemma {:induction false} RemoveShadowed(rules: seq<Rule>, j: int, i: int, schema: string, name: string)
    requires 0 <= j < i < |rules|
    requires rules[j].schema == rules[i].schema && rules[j].name == rules[i].name
    ensures Lookup(rules[..i] + rules[i + 1..], schema, name) == Lookup(rules, schema, name)
  {
    var tail := rules[1..];
    var rest := rules[..i] + rules[i + 1..];
    assert rules == [rules[0]] + tail;
    assert rest == [rules[0]] + (tail[..i - 1] + tail[i..]);
    LookupCons(rules[0], tail, schema, name);
    LookupCons(rules[0], tail[..i - 1] + tail[i..], schema, name);
    if j == 0 {
      if !Matches(rules[0], schema, name) {
        RemoveNonMatching(tail, i - 1, schema, name);
      }
    } else {
      RemoveShadowed(tail, j - 1, i - 1, schema, name);
    }
  }

  /** The repeated `core.transport_steps` test can be deleted without any effect;
      it would return the same set as the first one anyway. */
  lemma DuplicateOverrideUnreachable(schema: string, name: string)
    ensures Overrides[7] == Overrides[0]
    ensures Lookup(Overrides[..7] + Overrides[8..], schema, name) == Lookup(Overrides, schema, name)
  {
    RemoveShadowed(Overrides, 0, 7, schema, name);
  }

  /** A rule for a view no earlier rule mentions is the one the chain returns. */
  lemma FirstOfItsKind(rules: seq<Rule>, i: int)
    requires 0 <= i < |rules|
    requires forall j :: 0 <= j < i ==> !Matches(rules[j], rules[i].schema, rules[i].name)
    ensures Lookup(rules, rules[i].schema, rules[i].name) == Some(rules[i].deps)
  {
    var r := Lookup(rules, rules[i].schema, rules[i].name);
    LookupFirstMatch(rules, rules[i].schema, rules[i].name);
    assert Matches(rules[i], rules[i].schema, rules[i].name);
    var k :| 0 <= k < |rules| && Matches(rules[k], rules[i].schema, rules[i].name) && r.value == rules[k].deps
      && forall j :: 0 <= j < k ==> !Matches(rules[j], rules[i].schema, rules[i].name);
    assert k == i;
  }

  /** Every listed view gets exactly its listed set. */
  lemma OverrideTable(i: int)
    requires 0 <= i < |Overrides|
    ensures Lookup(Overrides, Overrides[i].schema, Overrides[i].name) == Some(Overrides[i].deps)
  {
    if i == 7 {
      FirstOfItsKind(Overrides, 0);
    } else {
      FirstOfItsKind(Overrides, i);
    }
  }

  // ------------------------------------------------------------ dependencies

  /** `SQLView.dependencies`: the fixed set for an overridden view, otherwise
      the dependencies parsed from the view's query. */
  function SqlDependencies(v: View, env: Env): (r: Result<set<Dep>>)
    requires !v.PythonView? && (v.GenericSQLView? || v.relativePath != [])
    ensures Lookup(Overrides, Schema(v), Name(v)).Some? ==> r == Ok(Lookup(Overrides, Schema(v), Name(v)).value)
    ensures Lookup(Overrides, Schema(v), Name(v)).None? ==>
      if Query(v, env).Err? then r == Err(Query(v, env).error) else r == ParseDependencies(Query(v, env).value, env)
  {
    match Lookup(Overrides, Schema(v), Name(v))
    case Some(deps) => Ok(deps)
    case None =>
      match Query(v, env)
      case Err(e) => Err(e)
      case Ok(q) => ParseDependencies(q, env)
  }

  /** The fixed sets do not depend on the files, the renderer or the parser. */
  lemma OverrideIgnoresQuery(v: View, env1: Env, env2: Env)
    requires !v.PythonView? && (v.GenericSQLView? || v.relativePath != [])
    requires Lookup(Overrides, Schema(v), Name(v)).Some?
    ensures SqlDependencies(v, env1) == SqlDependencies(v, env2)
    ensures SqlDependencies(v, env1).Ok?
  {
  }

  /** A generic SQL view that is not overridden depends on exactly the tables
      its given query mentions, less its bare CTE names. */
  lemma GenericDependencies(schema: string, name: string, query: string, env: Env, tree: SqlTree)
    requires Lookup(Overrides, schema, name).None? && env.parseSql(query) == Some(tree)
    ensures SqlDependencies(GenericSQLView(schema, name, query), env) == Ok(DependenciesOf(tree))
  {
  }

  // ------------------------------------------------------------- description

  /** `line.lstrip("-").strip()`: the line loses its leading run of dashes,
      which ends where a non-dash or the end of the line follows, and whatever
      remains is stripped of surrounding whitespace. */
  function CommentText(line: string): (t: string)
    ensures var n := LStripStart(line, {'-'});
      && (forall i :: 0 <= i < n ==> line[i] == '-')
      && (n < |line| ==> line[n] != '-')
      && t == Strip(line[n..])
    ensures forall i :: 0 <= i < |t| ==> t[i] in line
    ensures t == [] || (!IsSpace(t[0]) && !IsSpace(t[|t| - 1]))
  {
    var n := LStripStart(line, {'-'});
    InSliceIsIn(line[n..], Strip(line[n..]), line, n);
    Strip(line[n..])
  }

  /** What occurs in the tail `line[n..]` occurs in `line`. */
  lemma InSliceIsIn(rest: string, t: string, line: string, n: nat)
    requires n <= |line| && rest == line[n..]
    requires forall i :: 0 <= i < |t| ==> t[i] in rest
    ensures forall i :: 0 <= i < |t| ==> t[i] in line
  {
    forall i | 0 <= i < |t| ensures t[i] in line {
      var k :| 0 <= k < |rest| && rest[k] == t[i];
      assert line[n + k] == t[i];
    }
  }

  /** Whether a line is a `--` comment line. */
  predicate IsComment(line: string) {
    StartsWith(line, "--")
  }

  /** How many leading lines are `--` comment lines. */
  function CommentCount(lines: seq<string>): (n: nat)
    ensures n <= |lines|
    ensures forall i :: 0 <= i < n ==> IsComment(lines[i])
    ensures n < |lines| ==> !IsComment(lines[n])
  {
    if lines == [] || !IsComment(lines[0]) then 0
    else
      var n := 1 + CommentCount(lines[1..]);
      assert forall i :: 1 <= i < |lines| ==> lines[i] == lines[1..][i - 1];
      n
  }

  /** The comment texts of the leading lines that start with `--`. */
  function LeadingComments(lines: seq<string>): (c: seq<string>)
    ensures |c| <= |lines|
    ensures forall i :: 0 <= i < |c| ==> IsComment(lines[i]) && c[i] == CommentText(lines[i])
    ensures |c| < |lines| ==> !IsComment(lines[|c|])
  {
    seq(CommentCount(lines), i requires 0 <= i < CommentCount(lines) => CommentText(lines[i]))
  }

  /** The description of a query: its leading `--` comment lines, each without
      its dashes and surrounding whitespace, joined by single spaces. */
  function DescriptionOf(query: string): string {
    Join(LeadingComments(SplitLines(Strip(query))), " ")
  }

  /** A `sep`-join of strings without line breaks has none. */
  lemma {:induction false} JoinNoLineBreak(parts: seq<string>, sep: string)
    requires forall k, j :: 0 <= k < |parts| && 0 <= j < |parts[k]| ==> !IsLineBreak(parts[k][j])
    requires forall j :: 0 <= j < |sep| ==> !IsLineBreak(sep[j])
    ensures forall j :: 0 <= j < |Join(parts, sep)| ==> !IsLineBreak(Join(parts, sep)[j])
  {
    if |parts| >= 2 {
      JoinNoLineBreak(parts[1..], sep);
      var rest := Join(parts[1..], sep);
      assert forall j :: 0 <= j < |parts[0]| ==> !IsLineBreak(parts[0][j]);
      assert Join(parts, sep) == parts[0] + sep + rest;
    } else if |parts| == 1 {
      assert forall j :: 0 <= j < |parts[0]| ==> !IsLineBreak(parts[0][j]);
    }
  }

  /** The comment text of a line without line breaks has none either. */
  lemma CommentTextNoLineBreak(line: string)
    requires forall j :: 0 <= j < |line| ==> !IsLineBreak(line[j])
    ensures forall j :: 0 <= j < |CommentText(line)| ==> !IsLineBreak(CommentText(line)[j])
  {
    var t := CommentText(line);
    forall j | 0 <= j < |t| ensures !IsLineBreak(t[j]) {
      var m :| 0 <= m < |line| && line[m] == t[j];
    }
  }

  /** The comment texts of lines without line breaks have none either. */
  lemma CommentsNoLineBreak(lines: seq<string>)
    requires forall k, j :: 0 <= k < |lines| && 0 <= j < |lines[k]| ==> !IsLineBreak(lines[k][j])
    ensures var c := LeadingComments(lines);
      forall k, j :: 0 <= k < |c| && 0 <= j < |c[k]| ==> !IsLineBreak(c[k][j])
  {
    var c := LeadingComments(lines);
    forall k | 0 <= k < |c| ensures forall j :: 0 <= j < |c[k]| ==> !IsLineBreak(c[k][j]) {
      CommentTextNoLineBreak(lines[k]);
    }
  }

  /** The description is a single line. */
  lemma DescriptionSingleLine(query: string)
    ensures forall j :: 0 <= j < |DescriptionOf(query)| ==> !IsLineBreak(DescriptionOf(query)[j])
  {
    var lines := SplitLines(Strip(query));
    CommentsNoLineBreak(lines);
    JoinNoLineBreak(LeadingComments(lines), " ");
  }

  /** The description is empty unless the stripped query starts with `--`. */
  lemma DescriptionNeedsComment(query: string)
    requires !StartsWith(Strip(query), "--")
    ensures DescriptionOf(query) == ""
  {
    var s := Strip(query);
    if s != [] {
      var lines := SplitLines(s);
      assert !IsComment(lines[0]);
      assert LeadingComments(lines) == [];
    }
  }

  /** A query whose stripped text opens with a comment line has a description
      that opens with that line's comment text. */
  lemma DescriptionFirstComment(query: string)
    requires Strip(query) != [] && IsComment(SplitLines(Strip(query))[0])
    ensures StartsWith(DescriptionOf(query), CommentText(SplitLines(Strip(query))[0]))
  {
    var lines := SplitLines(Strip(query));
    var c := LeadingComments(lines);
    assert |c| >= 1 && c[0] == CommentText(lines[0]);
    JoinHead(c, " ");
  }

  /** `SQLView.description` */
  function Description(v: View, env: Env): (r: Result<string>)
    requires !v.PythonView?
    ensures r.Ok? <==> Query(v, env).Ok?
    ensures r.Ok? ==> r.value == DescriptionOf(Query(v, env).value)
  {
    match Query(v, env)
    case Err(e) => Err(e)
    case Ok(q) => Ok(DescriptionOf(q))
  }

  // ---------------------------------------------------------- Python views

  /** `node.func.value.id == "pd" and node.func.attr == "read_gbq"` without an
      `AttributeError`. */
  predicate IsReadGbq(c: Callee) {
    c.Attribute? && c.receiver == Some("pd") && c.attr == "read_gbq"
  }

  /** `node.func.attr.startswith("query")` without an `AttributeError`. */
  predicate IsQueryCall(c: Callee) {
    c.Attribute? && StartsWith(c.attr, "query")
  }

  /** Both tests never hold of one callee: a node feeds at most one of them. */
  lemma RecognisersExclusive(c: Callee)
    ensures !(IsReadGbq(c) && IsQueryCall(c))
  {
    if IsReadGbq(c) {
      assert c.attr[0] == 'r';
    }
  }

  /** `SQLView._parse_dependencies(node.args[0].value)` for a recognised call:
      a call without arguments raises the index error, a literal that sqlglot
      rejects its parse error, and a first argument without `.value`
      contributes nothing. */
  function FirstArgDependencies(args: seq<Arg>, env: Env): (r: Result<set<Dep>>)
    ensures r.Err? <==> args == [] || (args[0].StrLit? && env.parseSql(args[0].s).None?)
    ensures r.Err? ==> r.error == if args == [] then IndexError else ParseError(args[0].s)
    ensures r.Ok? && args[0].Other? ==> r.value == {}
    ensures r.Ok? && args[0].StrLit? ==> r.value == DependenciesOf(env.parseSql(args[0].s).value)
  {
    if args == [] then Err(IndexError)
    else match args[0]
      case StrLit(sql) => ParseDependencies(sql, env)
      case Other => Ok({})
  }

  /** One trip through the loop body for node `node`: the `pd.read_gbq` test,
      then the `.query` test. Errors come only from a recognised call, and only
      a recognised call with a literal first argument contributes. */
  function NodeDependencies(node: PyNode, env: Env): (r: Result<set<Dep>>)
    ensures r.Err? ==>
      && node.Call? && (IsReadGbq(node.callee) || IsQueryCall(node.callee))
      && (if node.args == [] then r.error == IndexError
          else node.args[0].StrLit? && r.error == ParseError(node.args[0].s))
    ensures (|| node.NotCall?
             || !(IsReadGbq(node.callee) || IsQueryCall(node.callee))
             || (node.args != [] && node.args[0].Other?)) ==> r == Ok({})
    ensures (&& node.Call? && (IsReadGbq(node.callee) || IsQueryCall(node.callee))
             && node.args != [] && node.args[0].StrLit?) ==> r == ParseDependencies(node.args[0].s, env)
    ensures (node.Call? && (IsReadGbq(node.callee) || IsQueryCall(node.callee)) && node.args == []) ==>
      r == Err(IndexError)
  {
    match node
    case NotCall => Ok({})
    case Call(callee, args) =>
      var gbq := if IsReadGbq(callee) then FirstArgDependencies(args, env) else Ok({});
      if gbq.Err? then gbq
      else
        var query := if IsQueryCall(callee) then FirstArgDependencies(args, env) else Ok({});
        RecognisersExclusive(callee);
        if query.Err? then query
        else
          var deps := gbq.value + query.value;
          assert IsReadGbq(callee) ==> deps == gbq.value;
          assert !IsReadGbq(callee) ==> deps == query.value;
          Ok(deps)
  }

  /** The loop over the walked nodes: the union of what each node yields, or
      the error of the first node that raises. */
  function NodesDependencies(nodes: seq<PyNode>, env: Env): (r: Result<set<Dep>>)
    ensures r.Ok? <==> forall i :: 0 <= i < |nodes| ==> NodeDependencies(nodes[i], env).Ok?
    ensures r.Ok? ==> forall d :: d in r.value <==>
      exists i :: 0 <= i < |nodes| && NodeDependencies(nodes[i], env).Ok? && d in NodeDependencies(nodes[i], env).value
    ensures r.Err? ==>
      exists i :: 0 <= i < |nodes| && r == NodeDependencies(nodes[i], env)
        && forall j :: 0 <= j < i ==> NodeDependencies(nodes[j], env).Ok?
  {
    if nodes == [] then Ok({})
    else
      var head := NodeDependencies(nodes[0], env);
      if head.Err? then head
      else
        var rest := NodesDependencies(nodes[1..], env);
        assert forall i :: 1 <= i < |nodes| ==> nodes[i] == nodes[1..][i - 1];
        if rest.Err? then rest else Ok(head.value + rest.value)
  }

  /** `PythonView.dependencies`: read and parse the file, then collect what its
      nodes yield; a file that cannot be read or that Python cannot parse
      raises. */
  function PythonDependencies(v: View, env: Env): (r: Result<set<Dep>>)
    requires v.PythonView?
    ensures env.readText(FilePath(v)).None? ==> r == Err(ReadError(FilePath(v)))
    ensures env.readText(FilePath(v)).Some? ==>
      var code := env.readText(FilePath(v)).value;
      && (env.parsePython(code).None? ==> r == Err(SyntaxError(FilePath(v))))
      && (env.parsePython(code).Some? ==> r == NodesDependencies(env.parsePython(code).value, env))
  {
    match env.readText(FilePath(v))
    case None => Err(ReadError(FilePath(v)))
    case Some(code) =>
      match env.parsePython(code)
      case None => Err(SyntaxError(FilePath(v)))
      case Some(nodes) => NodesDependencies(nodes, env)
  }

  /** A `pd.read_gbq` or `.query…` call with a literal query anywhere in the
      script makes the tables of that query dependencies of the Python view. */
  lemma ScriptQueryCall(nodes: seq<PyNode>, env: Env, i: int, tree: SqlTree)
    requires 0 <= i < |nodes| && nodes[i].Call? && |nodes[i].args| >= 1 && nodes[i].args[0].StrLit?
    requires IsReadGbq(nodes[i].callee) || IsQueryCall(nodes[i].callee)
    requires env.parseSql(nodes[i].args[0].s) == Some(tree)
    ensures NodesDependencies(nodes, env).Ok? ==> DependenciesOf(tree) <= NodesDependencies(nodes, env).value
  {
  }

  /** `View.dependencies`, dispatched on the kind of view. */
  function Dependencies(v: View, env: Env): (r: Result<set<Dep>>)
    requires v.SQLView? ==> v.relativePath != []
    ensures v.PythonView? ==> r == PythonDependencies(v, env)
    ensures !v.PythonView? ==> r == SqlDependencies(v, env)
  {
    if v.PythonView? then PythonDependencies(v, env) else SqlDependencies(v, env)
  }

  // ------------------------------------------------------------------ loader

  /** An entry of the views directory tree: its path relative to the views
      directory, whether it is a directory, and its size in bytes. */
  datatype Entry = Entry(path: Path, isDir: bool, size: nat)

  /** The loader's filter: a non-empty file, not hidden behind a leading `_`,
      with a `.py` or `.sql` suffix. */
  predicate Candidate(e: Entry) {
    && !e.isDir
    && !StartsWith(Basename(e.path), "_")
    && (Suffix(Basename(e.path)) == ".py" || Suffix(Basename(e.path)) == ".sql")
    && e.size > 0
  }

  /** A listing names each path once. */
  predicate DistinctPaths(entries: seq<Entry>) {
    forall i, j :: 0 <= i < j < |entries| ==> entries[i].path != entries[j].path
  }

  /** The schema directories: the directories directly inside the views
      directory, in listing order. */
  function SchemaDirs(entries: seq<Entry>): (dirs: seq<string>)
    ensures forall d :: d in dirs <==> exists e :: e in entries && e.isDir && e.path == [d]
  {
    if entries == [] then []
    else
      var e := entries[0];
      var rest := SchemaDirs(entries[1..]);
      assert forall x :: x in entries[1..] ==> x in entries;
      if e.isDir && |e.path| == 1 then
        assert e.path == [e.path[0]];
        [e.path[0]] + rest
      else rest
  }

  /** View `v` was loaded from the schema directory `d` of `entries`. */
  predicate LoadedFrom(v: View, root: Path, d: string, entries: seq<Entry>) {
    && (v.SQLView? || v.PythonView?)
    && v.origin == root
    && |v.relativePath| >= 2 && v.relativePath[0] == d
    && exists e :: e in entries && Candidate(e) && e.path == v.relativePath
  }

  /** The view `from_path` makes of a candidate file. */
  lemma ViewOfCandidate(root: Path, e: Entry)
    requires Candidate(e) && |e.path| >= 2
    ensures FromPath(root + e.path, root).Some?
    ensures var v := FromPath(root + e.path, root).value;
      (v.SQLView? || v.PythonView?) && v.origin == root && v.relativePath == e.path
  {
    BasenameJoin(root, e.path);
    var v := FromPath(root + e.path, root).value;
    assert v.relativePath == e.path by {
      assert root + v.relativePath == root + e.path;
      assert v.relativePath == (root + e.path)[|root|..];
    }
  }

  /** Loading from a listing stays true of a longer listing. */
  lemma LoadedFromMore(v: View, root: Path, d: string, entries: seq<Entry>, more: seq<Entry>)
    requires LoadedFrom(v, root, d, entries) && forall x :: x in entries ==> x in more
    ensures LoadedFrom(v, root, d, more)
  {
  }

  /** What one entry contributes to the views of schema directory `d`. */
  function ViewOf(root: Path, d: string, e: Entry): seq<Option<View>> {
    if |e.path| >= 2 && e.path[0] == d && Candidate(e) then [FromPath(root + e.path, root)] else []
  }

  /** The views of one schema directory: `from_path` of every candidate below
      it, in listing order. */
  function ViewsIn(root: Path, d: string, entries: seq<Entry>): seq<Option<View>> {
    if entries == [] then [] else ViewOf(root, d, entries[0]) + ViewsIn(root, d, entries[1..])
  }

  /** What an entry contributes was loaded from it. */
  lemma ViewOfSound(root: Path, d: string, e: Entry, entries: seq<Entry>)
    requires e in entries
    ensures forall i :: 0 <= i < |ViewOf(root, d, e)| ==>
      ViewOf(root, d, e)[i].Some? && LoadedFrom(ViewOf(root, d, e)[i].value, root, d, entries)
  {
    if |e.path| >= 2 && e.path[0] == d && Candidate(e) {
      ViewOfCandidate(root, e);
      var v := FromPath(root + e.path, root);
      assert LoadedFrom(v.value, root, d, entries);
      assert ViewOf(root, d, e) == [v];
    } else {
      assert ViewOf(root, d, e) == [];
    }
  }

  /** Every view of a schema directory was loaded from a candidate below it. */
  lemma {:induction false} ViewsInSound(root: Path, d: string, entries: seq<Entry>)
    ensures forall i :: 0 <= i < |ViewsIn(root, d, entries)| ==>
      ViewsIn(root, d, entries)[i].Some? && LoadedFrom(ViewsIn(root, d, entries)[i].value, root, d, entries)
  {
    if entries != [] {
      var first, rest := ViewOf(root, d, entries[0]), ViewsIn(root, d, entries[1..]);
      ViewOfSound(root, d, entries[0], entries);
      ViewsInSound(root, d, entries[1..]);
      var vs := first + rest;
      forall i | 0 <= i < |vs| ensures vs[i].Some? && LoadedFrom(vs[i].value, root, d, entries) {
        if i < |first| {
          assert vs[i] == first[i];
        } else {
          assert vs[i] == rest[i - |first|];
          LoadedFromMore(vs[i].value, root, d, entries[1..], entries);
        }
      }
    }
  }

  /** The views of the given schema directories, one directory after the other. */
  function LoadFrom(root: Path, dirs: seq<string>, entries: seq<Entry>): seq<Option<View>> {
    if dirs == [] then [] else ViewsIn(root, dirs[0], entries) + LoadFrom(root, dirs[1..], entries)
  }

  /** Every view loaded from the given directories came from one of them. */
  lemma {:induction false} LoadFromSound(root: Path, dirs: seq<string>, entries: seq<Entry>)
    ensures forall i :: 0 <= i < |LoadFrom(root, dirs, entries)| ==>
      && LoadFrom(root, dirs, entries)[i].Some?
      && exists d :: d in dirs && LoadedFrom(LoadFrom(root, dirs, entries)[i].value, root, d, entries)
  {
    if dirs != [] {
      var first, rest := ViewsIn(root, dirs[0], entries), LoadFrom(root, dirs[1..], entries);
      ViewsInSound(root, dirs[0], entries);
      LoadFromSound(root, dirs[1..], entries);
      var vs := first + rest;
      forall i | 0 <= i < |vs|
        ensures vs[i].Some? && exists d :: d in dirs && LoadedFrom(vs[i].value, root, d, entries)
      {
        if i < |first| {
          assert vs[i] == first[i];
          assert LoadedFrom(vs[i].value, root, dirs[0], entries);
        } else {
          assert vs[i] == rest[i - |first|];
          var d :| d in dirs[1..] && LoadedFrom(vs[i].value, root, d, entries);
          assert d in dirs;
        }
      }
    }
  }

  /** `load_views(views_dir)` */
  function LoadViews(root: Path, entries: seq<Entry>): seq<Option<View>> {
    LoadFrom(root, SchemaDirs(entries), entries)
  }

  /** Every element is a view, never `None`, read from a candidate file below
      a schema directory, and its schema is that directory. */
  lemma LoadViewsSound(root: Path, entries: seq<Entry>)
    ensures forall i :: 0 <= i < |LoadViews(root, entries)| ==> LoadViews(root, entries)[i].Some?
    ensures forall i :: 0 <= i < |LoadViews(root, entries)| ==>
      && !LoadViews(root, entries)[i].value.GenericSQLView?
      && |LoadViews(root, entries)[i].value.relativePath| >= 2
      && Schema(LoadViews(root, entries)[i].value) in SchemaDirs(entries)
      && LoadedFrom(LoadViews(root, entries)[i].value, root, Schema(LoadViews(root, entries)[i].value), entries)
  {
    LoadFromSound(root, SchemaDirs(entries), entries);
  }

  /** In a listing without repeated paths, only `e` itself has the path of `e`. */
  lemma OnlyEntryWithPath(entries: seq<Entry>, e: Entry)
    requires DistinctPaths(entries) && e in entries
    ensures forall k :: 0 <= k < |entries| && entries[k].path == e.path ==> entries[k] == e
  {
    var m :| 0 <= m < |entries| && entries[m] == e;
  }

  /** How often one entry contributes the view of candidate `e`. */
  lemma ViewOfCount(root: Path, d: string, h: Entry, e: Entry)
    requires Candidate(e) && |e.path| >= 2
    requires h.path == e.path ==> h == e
    ensures multiset(ViewOf(root, d, h))[FromPath(root + e.path, root)] == if h == e && e.path[0] == d then 1 else 0
  {
    var x := FromPath(root + e.path, root);
    ViewOfCandidate(root, e);
    if |h.path| >= 2 && h.path[0] == d && Candidate(h) {
      var v := FromPath(root + h.path, root);
      assert ViewOf(root, d, h) == [v];
      if v == x {
        FromPathInjective(root, h.path, e.path);
        assert h == e;
      } else {
        assert h != e;
      }
      assert multiset([v])[x] == if v == x then 1 else 0;
    } else {
      assert ViewOf(root, d, h) == [];
      assert h != e || e.path[0] != d;
    }
  }

  /** A candidate below schema directory `d` yields exactly one view of that
      directory, and a candidate elsewhere none. */
  lemma {:induction false} ViewsInCount(root: Path, d: string, entries: seq<Entry>, e: Entry)
    requires DistinctPaths(entries) && Candidate(e) && |e.path| >= 2
    requires forall k :: 0 <= k < |entries| && entries[k].path == e.path ==> entries[k] == e
    ensures multiset(ViewsIn(root, d, entries))[FromPath(root + e.path, root)]
         == if e in entries && e.path[0] == d then 1 else 0
  {
    if entries != [] {
      var h, t := entries[0], entries[1..];
      assert DistinctPaths(t) by {
        forall i, j | 0 <= i < j < |t| ensures t[i].path != t[j].path {
          assert t[i] == entries[i + 1] && t[j] == entries[j + 1];
        }
      }
      forall k | 0 <= k < |t| && t[k].path == e.path ensures t[k] == e {
        assert t[k] == entries[k + 1];
      }
      ViewOfCount(root, d, h, e);
      ViewsInCount(root, d, t, e);
      assert e in entries <==> h == e || e in t;
    }
  }

  /** A view that exactly one schema directory `p` yields, once, is loaded as
      often as `p` is listed. */
  lemma {:induction false} LoadFromCount(root: Path, dirs: seq<string>, entries: seq<Entry>, x: Option<View>, p: string)
    requires forall d :: multiset(ViewsIn(root, d, entries))[x] == if d == p then 1 else 0
    ensures multiset(LoadFrom(root, dirs, entries))[x] == multiset(dirs)[p]
  {
    if dirs != [] {
      LoadFromCount(root, dirs[1..], entries, x, p);
      assert LoadFrom(root, dirs, entries) == ViewsIn(root, dirs[0], entries) + LoadFrom(root, dirs[1..], entries);
      assert dirs == [dirs[0]] + dirs[1..];
    }
  }

  /** Each schema directory is listed once. */
  lemma {:induction false} SchemaDirsOnce(entries: seq<Entry>, d: string)
    requires DistinctPaths(entries)
    ensures multiset(SchemaDirs(entries))[d] == if d in SchemaDirs(entries) then 1 else 0
  {
    if entries != [] {
      var h, t := entries[0], entries[1..];
      assert DistinctPaths(t) by {
        forall i, j | 0 <= i < j < |t| ensures t[i].path != t[j].path {
          assert t[i] == entries[i + 1] && t[j] == entries[j + 1];
        }
      }
      SchemaDirsOnce(t, d);
    }
  }

  /** Every candidate below a schema directory yields exactly one view, and
      that view's schema is the directory. */
  lemma LoadViewsComplete(root: Path, entries: seq<Entry>, e: Entry)
    requires DistinctPaths(entries) && e in entries && Candidate(e) && |e.path| >= 2
    requires e.path[0] in SchemaDirs(entries)
    ensures FromPath(root + e.path, root).Some?
    ensures Schema(FromPath(root + e.path, root).value) == e.path[0]
    ensures multiset(LoadViews(root, entries))[FromPath(root + e.path, root)] == 1
  {
    ViewOfCandidate(root, e);
    OnlyEntryWithPath(entries, e);
    var x := FromPath(root + e.path, root);
    forall d ensures multiset(ViewsIn(root, d, entries))[x] == if d == e.path[0] then 1 else 0 {
      ViewsInCount(root, d, entries, e);
    }
    LoadFromCount(root, SchemaDirs(entries), entries, x, e.path[0]);
    SchemaDirsOnce(entries, e.path[0]);
  }
}
