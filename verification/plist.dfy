/**
 * The LaunchAgent generator form: its state, the edits the form applies
 * (arguments, environment variables), the default log paths, the property-list
 * text it produces, and the file name and install command derived from the label.
 */
module PlistGenerator {
  import opened Optional
  import opened Text
  import opened Delimited
  import opened Subsequence

  // ---------------------------------------------------------------------
  // Form state

  /** One environment variable; `name` is its key. */
  datatype EnvVar = EnvVar(name: string, value: string)

  /**
   * The agent being described. `environment` keeps insertion order, as the
   * entries of a JavaScript object with string keys do.
   */
  datatype PlistData = PlistData(
    agentLabel: string,
    program: string,
    arguments: seq<string>,
    workingDirectory: string,
    runAtLoad: bool,
    keepAlive: bool,
    standardOutPath: string,
    standardErrorPath: string,
    environment: seq<EnvVar>)

  /** The form: the agent data plus the three input boxes not yet committed. */
  datatype Form = Form(data: PlistData, argumentInput: string, envKey: string, envValue: string)

  /** The form as it opens: everything empty, run at load on, keep alive off. */
  function InitialForm(): Form {
    Form(PlistData("", "", [], "", true, false, "", "", []), "", "", "")
  }

  // ---------------------------------------------------------------------
  // Program arguments

  /** Commits the argument box: its trimmed text is appended and the box cleared, unless it is blank. */
  function AddArgument(f: Form): (r: Form)
    ensures Trim(f.argumentInput) == [] ==> r == f
    ensures Trim(f.argumentInput) != [] ==>
      && r.data.arguments == f.data.arguments + [Trim(f.argumentInput)]
      && r.argumentInput == []
      && r.data == f.data.(arguments := r.data.arguments)
      && r.envKey == f.envKey && r.envValue == f.envValue
  {
    var arg := Trim(f.argumentInput);
    if arg != [] then
      f.(data := f.data.(arguments := f.data.arguments + [arg]), argumentInput := [])
    else f
  }

  /** Every element except the one at `index`, in order (`filter((_, i) => i !== index)`). */
  function DropIndex<T>(xs: seq<T>, index: int): (r: seq<T>)
    ensures 0 <= index < |xs| ==> r == xs[..index] + xs[index + 1..]
    ensures !(0 <= index < |xs|) ==> r == xs
    decreases |xs|
  {
    if xs == [] then []
    else if index == 0 then xs[1..]
    else
      var rest := DropIndex(xs[1..], index - 1);
      // In range, the slices of `xs` are the head followed by the slices of its tail.
      if 0 < index < |xs| then
        assert xs[..index] == [xs[0]] + xs[1..][..index - 1];
        assert xs[index + 1..] == xs[1..][index..];
        [xs[0]] + rest
      else [xs[0]] + rest
  }

  /** Removes the argument at `index`; an index outside the list changes nothing. */
  function RemoveArgument(f: Form, index: int): (r: Form)
    ensures 0 <= index < |f.data.arguments| ==>
      r.data.arguments == f.data.arguments[..index] + f.data.arguments[index + 1..]
    ensures !(0 <= index < |f.data.arguments|) ==> r == f
    ensures r == f.(data := f.data.(arguments := r.data.arguments))
  {
    f.(data := f.data.(arguments := DropIndex(f.data.arguments, index)))
  }

  /** Adding an argument and then removing the last one gives the original arguments back. */
  lemma AddThenRemoveArgument(f: Form)
    requires Trim(f.argumentInput) != []
    ensures RemoveArgument(AddArgument(f), |f.data.arguments|).data.arguments == f.data.arguments
  {
    var args := AddArgument(f).data.arguments;
    assert args[..|f.data.arguments|] == f.data.arguments;
  }

  // ---------------------------------------------------------------------
  // Environment variables as an ordered table with distinct names

  /** The value recorded for `name`, if any. */
  function Lookup(env: seq<EnvVar>, name: string): Option<string>
    decreases |env|
  {
    if env == [] then None
    else if env[0].name == name then Some(env[0].value)
    else Lookup(env[1..], name)
  }

  /** No name appears twice (the keys of an object): each name is absent from the entries after it. */
  predicate UniqueNames(env: seq<EnvVar>)
    decreases |env|
  {
    env == [] || (Lookup(env[1..], env[0].name).None? && UniqueNames(env[1..]))
  }

  /** `{...env, [name]: value}`: overwrites in place when present, appends otherwise. */
  function Put(env: seq<EnvVar>, name: string, value: string): (r: seq<EnvVar>)
    ensures Lookup(r, name) == Some(value)
    ensures forall other :: other != name ==> Lookup(r, other) == Lookup(env, other)
    ensures |r| == if Lookup(env, name).Some? then |env| else |env| + 1
    ensures Lookup(env, name).None? ==> r == env + [EnvVar(name, value)]
    ensures Lookup(env, name).Some? ==>
      forall i :: 0 <= i < |env| ==> r[i].name == env[i].name && (env[i].name != name ==> r[i] == env[i])
    ensures UniqueNames(env) ==> UniqueNames(r)
    decreases |env|
  {
    if env == [] then [EnvVar(name, value)]
    else if env[0].name == name then [EnvVar(name, value)] + env[1..]
    else
      var rest := Put(env[1..], name, value);
      assert env == [env[0]] + env[1..];
      [env[0]] + rest
  }

  /** `delete env[name]`: drops the entry for `name`, keeping the others in order. */
  function Delete(env: seq<EnvVar>, name: string): (r: seq<EnvVar>)
    ensures Lookup(r, name) == None
    ensures forall other :: other != name ==> Lookup(r, other) == Lookup(env, other)
    ensures IsSubseq(r, env)
    ensures UniqueNames(env) ==> UniqueNames(r)
    decreases |env|
  {
    if env == [] then []
    else
      var rest := Delete(env[1..], name);
      if env[0].name == name then
        IsSubseqSkip(env[0], rest, env[1..]);
        assert env == [env[0]] + env[1..];
        rest
      else
        IsSubseqCons(env[0], rest, env[1..]);
        assert env == [env[0]] + env[1..];
        [env[0]] + rest
  }

  /** Commits the key and value boxes when both are non-blank after trimming, then clears them. */
  function AddEnvironmentVariable(f: Form): (r: Form)
    ensures Trim(f.envKey) == [] || Trim(f.envValue) == [] ==> r == f
    ensures Trim(f.envKey) != [] && Trim(f.envValue) != [] ==>
      && Lookup(r.data.environment, Trim(f.envKey)) == Some(Trim(f.envValue))
      && (forall other :: other != Trim(f.envKey) ==>
            Lookup(r.data.environment, other) == Lookup(f.data.environment, other))
      && (Lookup(f.data.environment, Trim(f.envKey)).None? ==>
            r.data.environment == f.data.environment + [EnvVar(Trim(f.envKey), Trim(f.envValue))])
      && (Lookup(f.data.environment, Trim(f.envKey)).Some? ==>
            |r.data.environment| == |f.data.environment|
            && forall i :: 0 <= i < |f.data.environment| ==>
                 r.data.environment[i].name == f.data.environment[i].name)
      && r.envKey == [] && r.envValue == []
      && r.data == f.data.(environment := r.data.environment)
      && r.argumentInput == f.argumentInput
  {
    var key := Trim(f.envKey);
    var value := Trim(f.envValue);
    if key != [] && value != [] then
      f.(data := f.data.(environment := Put(f.data.environment, key, value)), envKey := [], envValue := [])
    else f
  }

  /** Removes the variable `name` and nothing else. */
  function RemoveEnvironmentVariable(f: Form, name: string): (r: Form)
    ensures Lookup(r.data.environment, name) == None
    ensures forall other :: other != name ==> Lookup(r.data.environment, other) == Lookup(f.data.environment, other)
    ensures IsSubseq(r.data.environment, f.data.environment)
    ensures r == f.(data := f.data.(environment := r.data.environment))
  {
    f.(data := f.data.(environment := Delete(f.data.environment, name)))
  }

  /** Setting a variable and then removing it is the same as just removing it. */
  lemma {:induction false} DeleteAfterPut(env: seq<EnvVar>, name: string, value: string)
    ensures Delete(Put(env, name, value), name) == Delete(env, name)
    decreases |env|
  {
    if env != [] && env[0].name != name {
      DeleteAfterPut(env[1..], name, value);
      var rest := Put(env[1..], name, value);
      assert Put(env, name, value) == [env[0]] + rest;
      assert ([env[0]] + rest)[1..] == rest;
    } else if env != [] {
      assert ([EnvVar(name, value)] + env[1..])[1..] == env[1..];
    }
  }

  /** Removing a name that is not present changes nothing. */
  lemma {:induction false} DeleteAbsent(env: seq<EnvVar>, name: string)
    requires Lookup(env, name) == None
    ensures Delete(env, name) == env
    decreases |env|
  {
    if env != [] {
      DeleteAbsent(env[1..], name);
      assert env == [env[0]] + env[1..];
    }
  }

  // ---------------------------------------------------------------------
  // Default log paths

  /** The log base name: the second dot-separated segment of a label with three or more, else the first, else "service". */
  function LogName(agentLabel: string): (r: string)
    ensures '.' !in r
  {
    var parts := Split(agentLabel, '.');
    if |parts| >= 3 then parts[1]
    else if parts[0] != [] then parts[0]
    else "service"
  }

  /** `a.b.rest` with dot-free `a` and `b`: the log name is `b`. */
  lemma LogNameOfThreeSegments(a: string, b: string, rest: string)
    requires '.' !in a && '.' !in b
    ensures LogName(a + "." + b + "." + rest) == b
  {
    SplitFirst(a, '.', b + "." + rest);
    SplitFirst(b, '.', rest);
    assert a + "." + b + "." + rest == a + ['.'] + (b + ['.'] + rest);
  }

  /** `a.b` with dot-free parts: the log name is `a`, or "service" when `a` is empty. */
  lemma LogNameOfTwoSegments(a: string, b: string)
    requires '.' !in a && '.' !in b
    ensures LogName(a + "." + b) == if a == [] then "service" else a
  {
    SplitFirst(a, '.', b);
    SplitNoSeparator(b, '.');
    assert a + "." + b == a + ['.'] + b;
  }

  /** A dot-free label is its own log name, except that an empty one gives "service". */
  lemma LogNameOfOneSegment(a: string)
    requires '.' !in a
    ensures LogName(a) == if a == [] then "service" else a
  {
    SplitNoSeparator(a, '.');
  }

  /** The standard output path: the one typed in, or `/tmp/<log name>.log` when none was. */
  function StandardOutPath(d: PlistData): (r: string)
    ensures d.standardOutPath != [] ==> r == d.standardOutPath
    ensures d.standardOutPath == [] ==>
      |r| >= 9 && r[..5] == "/tmp/" && r[|r| - 4..] == ".log" && '.' !in r[5..|r| - 4]
  {
    ThreeParts("/tmp/", LogName(d.agentLabel), ".log");
    if d.standardOutPath != [] then d.standardOutPath else "/tmp/" + LogName(d.agentLabel) + ".log"
  }

  /** The standard error path: the one typed in, or `/tmp/<log name>.error.log` when none was. */
  function StandardErrorPath(d: PlistData): (r: string)
    ensures d.standardErrorPath != [] ==> r == d.standardErrorPath
    ensures d.standardErrorPath == [] ==>
      |r| >= 15 && r[..5] == "/tmp/" && r[|r| - 10..] == ".error.log" && '.' !in r[5..|r| - 10]
  {
    ThreeParts("/tmp/", LogName(d.agentLabel), ".error.log");
    if d.standardErrorPath != [] then d.standardErrorPath else "/tmp/" + LogName(d.agentLabel) + ".error.log"
  }

  // ---------------------------------------------------------------------
  // The property-list text

  const XmlProlog: string :=
    "<?xml version=\"1.0\" encoding=\"UTF-8\"?>\n"
    + "<!DOCTYPE plist PUBLIC \"-//Apple//DTD PLIST 1.0//EN\" \"http://www.apple.com/DTDs/PropertyList-1.0.dtd\">\n"
    + "<plist version=\"1.0\">\n"
    + "<dict>"

  const XmlEpilog: string := "\n</dict>\n</plist>"

  function BoolTag(b: bool): string {
    if b then "true" else "false"
  }

  /** One `<string>` line per item, each on a new line indented eight spaces. */
  function StringLines(items: seq<string>): string
    decreases |items|
  {
    if items == [] then []
    else "\n        <string>" + items[0] + "</string>" + StringLines(items[1..])
  }

  /** One key line and one string line per variable, in table order. */
  function EnvLines(env: seq<EnvVar>): string
    decreases |env|
  {
    if env == [] then []
    else "\n        <key>" + env[0].name + "</key>\n        <string>" + env[0].value + "</string>" + EnvLines(env[1..])
  }

  /** The line that opens every top-level entry: its key, then the value's indentation. */
  function KeyLine(key: string): string {
    "\n    <key>" + key + "</key>\n    "
  }

  function StringElement(text: string): string {
    "<string>" + text + "</string>"
  }

  function BoolElement(b: bool): string {
    "<" + BoolTag(b) + "/>"
  }

  /**
   * The template's sections, in output order; the optional ones are empty
   * when left out. The program is the first `<string>` line of the argument
   * array, followed by one line per argument.
   */
  function LabelSection(d: PlistData): string {
    KeyLine("Label") + StringElement(d.agentLabel)
  }

  function ProgramArgumentsSection(d: PlistData): string {
    KeyLine("ProgramArguments") + "<array>" + StringLines([d.program] + d.arguments) + "\n    </array>"
  }

  function WorkingDirectorySection(d: PlistData): string {
    if d.workingDirectory != [] then KeyLine("WorkingDirectory") + StringElement(d.workingDirectory) else []
  }

  function RunAtLoadSection(d: PlistData): string {
    KeyLine("RunAtLoad") + BoolElement(d.runAtLoad)
  }

  function KeepAliveSection(d: PlistData): string {
    KeyLine("KeepAlive") + BoolElement(d.keepAlive)
  }

  function StandardOutPathSection(d: PlistData): string {
    KeyLine("StandardOutPath") + StringElement(StandardOutPath(d))
  }

  function StandardErrorPathSection(d: PlistData): string {
    KeyLine("StandardErrorPath") + StringElement(StandardErrorPath(d))
  }

  function EnvironmentVariablesSection(d: PlistData): string {
    if |d.environment| > 0 then KeyLine("EnvironmentVariables") + "<dict>" + EnvLines(d.environment) + "\n    </dict>"
    else []
  }

  /** The generated property list, as the form's template writes it. */
  function GeneratePlistContent(d: PlistData): (r: string)
    ensures |r| >= |XmlProlog| + |XmlEpilog|
    ensures r[..|XmlProlog|] == XmlProlog && r[|r| - |XmlEpilog|..] == XmlEpilog
  {
    ThreeParts(XmlProlog, Sections(d), XmlEpilog);
    XmlProlog + Sections(d) + XmlEpilog
  }

  /** The template between the opening `<dict>` and the closing one, section by section. */
  function Sections(d: PlistData): string {
    LabelSection(d)
    + ProgramArgumentsSection(d)
    + WorkingDirectorySection(d)
    + RunAtLoadSection(d)
    + KeepAliveSection(d)
    + StandardOutPathSection(d)
    + StandardErrorPathSection(d)
    + EnvironmentVariablesSection(d)
  }

  // ---------------------------------------------------------------------
  // The same document as a list of keyed entries

  datatype Value = Text(text: string) | Flag(on: bool) | Strings(items: seq<string>) | Dict(vars: seq<EnvVar>)

  datatype Entry = Entry(key: string, value: Value)

  /** The entries of the top-level dictionary, in output order. */
  function Entries(d: PlistData): seq<Entry> {
    [Entry("Label", Text(d.agentLabel)), Entry("ProgramArguments", Strings([d.program] + d.arguments))]
    + (if d.workingDirectory != [] then [Entry("WorkingDirectory", Text(d.workingDirectory))] else [])
    + [Entry("RunAtLoad", Flag(d.runAtLoad)), Entry("KeepAlive", Flag(d.keepAlive)),
       Entry("StandardOutPath", Text(StandardOutPath(d))), Entry("StandardErrorPath", Text(StandardErrorPath(d)))]
    + (if |d.environment| > 0 then [Entry("EnvironmentVariables", Dict(d.environment))] else [])
  }

  function RenderValue(v: Value): string {
    match v
    case Text(t) => StringElement(t)
    case Flag(b) => BoolElement(b)
    case Strings(items) => "<array>" + StringLines(items) + "\n    </array>"
    case Dict(vars) => "<dict>" + EnvLines(vars) + "\n    </dict>"
  }

  function RenderEntry(e: Entry): string {
    KeyLine(e.key) + RenderValue(e.value)
  }

  function RenderEntries(es: seq<Entry>): string
    decreases |es|
  {
    if es == [] then [] else RenderEntry(es[0]) + RenderEntries(es[1..])
  }

  function RenderDocument(es: seq<Entry>): string {
    XmlProlog + RenderEntries(es) + XmlEpilog
  }

  /** The value of the first entry with `key`. */
  function Find(es: seq<Entry>, key: string): Option<Value>
    decreases |es|
  {
    if es == [] then None
    else if es[0].key == key then Some(es[0].value)
    else Find(es[1..], key)
  }

  /** Serialising two lists of entries one after the other. */
  lemma {:induction false} RenderEntriesAppend(a: seq<Entry>, b: seq<Entry>)
    ensures RenderEntries(a + b) == RenderEntries(a) + RenderEntries(b)
    decreases |a|
  {
    if a == [] {
      assert a + b == b;
    } else {
      assert (a + b)[0] == a[0];
      assert (a + b)[1..] == a[1..] + b;
      RenderEntriesAppend(a[1..], b);
    }
  }

  function HeadEntries(d: PlistData): seq<Entry> {
    [Entry("Label", Text(d.agentLabel)), Entry("ProgramArguments", Strings([d.program] + d.arguments))]
  }

  function OptionalWorkingDirectory(d: PlistData): seq<Entry> {
    if d.workingDirectory != [] then [Entry("WorkingDirectory", Text(d.workingDirectory))] else []
  }

  function FixedEntries(d: PlistData): seq<Entry> {
    [Entry("RunAtLoad", Flag(d.runAtLoad)), Entry("KeepAlive", Flag(d.keepAlive)),
     Entry("StandardOutPath", Text(StandardOutPath(d))), Entry("StandardErrorPath", Text(StandardErrorPath(d)))]
  }

  function OptionalEnvironment(d: PlistData): seq<Entry> {
    if |d.environment| > 0 then [Entry("EnvironmentVariables", Dict(d.environment))] else []
  }

  lemma EntriesInFourParts(d: PlistData)
    ensures Entries(d) == HeadEntries(d) + OptionalWorkingDirectory(d) + FixedEntries(d) + OptionalEnvironment(d)
  {
  }

  lemma RenderEntriesCons(e: Entry, es: seq<Entry>)
    ensures RenderEntries([e] + es) == RenderEntry(e) + RenderEntries(es)
  {
    assert ([e] + es)[1..] == es;
  }

  lemma HeadRenders(d: PlistData)
    ensures RenderEntries(HeadEntries(d)) == LabelSection(d) + ProgramArgumentsSection(d)
  {
    var head := HeadEntries(d);
    RenderEntriesCons(head[1], []);
    RenderEntriesCons(head[0], [head[1]]);
    assert head == [head[0]] + [head[1]];
    assert RenderEntry(head[1]) + [] == RenderEntry(head[1]);
  }

  lemma FixedRenders(d: PlistData)
    ensures RenderEntries(FixedEntries(d))
         == RunAtLoadSection(d) + KeepAliveSection(d) + StandardOutPathSection(d) + StandardErrorPathSection(d)
  {
    var m := FixedEntries(d);
    RenderEntriesCons(m[3], []);
    RenderEntriesCons(m[2], [m[3]]);
    RenderEntriesCons(m[1], [m[2], m[3]]);
    RenderEntriesCons(m[0], [m[1], m[2], m[3]]);
    assert [m[2]] + [m[3]] == [m[2], m[3]];
    assert [m[1]] + [m[2], m[3]] == [m[1], m[2], m[3]];
    assert m == [m[0]] + [m[1], m[2], m[3]];
    assert RenderEntry(m[3]) + [] == RenderEntry(m[3]);
    Regroup4(RenderEntry(m[0]), RenderEntry(m[1]), RenderEntry(m[2]), RenderEntry(m[3]));
  }

  /**
   * Regrouping concatenations. Stated over plain parameters so that the
   * section texts stay opaque to the solver where these are used; the same
   * step written inline over the sections does not finish.
   */
  lemma Regroup4(a: string, b: string, c: string, e: string)
    ensures a + (b + (c + e)) == a + b + c + e
  {
  }

  lemma Regroup10(a: string, b: string, c: string, e: string, f: string, g: string, h: string, i: string, j: string, k: string)
    ensures a + ((((b + c) + e) + (f + g + h + i)) + j) + k == a + (b + c + e + f + g + h + i + j) + k
  {
  }

  lemma OptionalRenders(d: PlistData)
    ensures RenderEntries(OptionalWorkingDirectory(d)) == WorkingDirectorySection(d)
    ensures RenderEntries(OptionalEnvironment(d)) == EnvironmentVariablesSection(d)
  {
    if d.workingDirectory != [] {
      RenderEntriesCons(OptionalWorkingDirectory(d)[0], []);
      assert OptionalWorkingDirectory(d) == [OptionalWorkingDirectory(d)[0]] + [];
    }
    if |d.environment| > 0 {
      RenderEntriesCons(OptionalEnvironment(d)[0], []);
      assert OptionalEnvironment(d) == [OptionalEnvironment(d)[0]] + [];
    }
  }

  /** The generated text is exactly the serialisation of `Entries`, between the fixed prolog and epilog. */
  lemma GenerateIsDocument(d: PlistData)
    ensures GeneratePlistContent(d) == RenderDocument(Entries(d))
  {
    var head, wd, mid, env := HeadEntries(d), OptionalWorkingDirectory(d), FixedEntries(d), OptionalEnvironment(d);
    EntriesInFourParts(d);
    RenderEntriesAppend(head + wd + mid, env);
    RenderEntriesAppend(head + wd, mid);
    RenderEntriesAppend(head, wd);
    HeadRenders(d);
    FixedRenders(d);
    OptionalRenders(d);
    Regroup10(XmlProlog, LabelSection(d), ProgramArgumentsSection(d), WorkingDirectorySection(d),
      RunAtLoadSection(d), KeepAliveSection(d), StandardOutPathSection(d), StandardErrorPathSection(d),
      EnvironmentVariablesSection(d), XmlEpilog);
  }

  // ---------------------------------------------------------------------
  // What the document holds

  /** A key no entry carries is not found. */
  lemma {:induction false} FindAbsent(es: seq<Entry>, key: string)
    requires forall i :: 0 <= i < |es| ==> es[i].key != key
    ensures Find(es, key) == None
    decreases |es|
  {
    if es != [] {
      FindAbsent(es[1..], key);
    }
  }

  /** The first entry carrying a key is the one found. */
  lemma {:induction false} FindFirst(es: seq<Entry>, i: nat, key: string)
    requires i < |es| && es[i].key == key
    requires forall j :: 0 <= j < i ==> es[j].key != key
    ensures Find(es, key) == Some(es[i].value)
    decreases i
  {
    if i > 0 {
      FindFirst(es[1..], i - 1, key);
    }
  }

  /** Looking a key up in two lists: the first list wins when it has the key. */
  lemma {:induction false} FindAppend(a: seq<Entry>, b: seq<Entry>, key: string)
    ensures Find(a + b, key) == if Find(a, key).Some? then Find(a, key) else Find(b, key)
    decreases |a|
  {
    if a == [] {
      assert a + b == b;
    } else {
      assert (a + b)[1..] == a[1..] + b;
      FindAppend(a[1..], b, key);
    }
  }

  /** Finding a key in the whole document by way of its four parts. */
  lemma FindInParts(d: PlistData, key: string)
    ensures Find(Entries(d), key)
         == if Find(HeadEntries(d), key).Some? then Find(HeadEntries(d), key)
            else if Find(OptionalWorkingDirectory(d), key).Some? then Find(OptionalWorkingDirectory(d), key)
            else if Find(FixedEntries(d), key).Some? then Find(FixedEntries(d), key)
            else Find(OptionalEnvironment(d), key)
  {
    var head, wd, mid, env := HeadEntries(d), OptionalWorkingDirectory(d), FixedEntries(d), OptionalEnvironment(d);
    EntriesInFourParts(d);
    FindAppend(head + wd + mid, env, key);
    FindAppend(head + wd, mid, key);
    FindAppend(head, wd, key);
  }

  /** The optional keys: WorkingDirectory exactly when a directory was given, EnvironmentVariables exactly when a variable was. */
  lemma OptionalKeys(d: PlistData)
    ensures Find(Entries(d), "WorkingDirectory") == if d.workingDirectory != [] then Some(Text(d.workingDirectory)) else None
    ensures Find(Entries(d), "EnvironmentVariables") == if |d.environment| > 0 then Some(Dict(d.environment)) else None
  {
    FindInParts(d, "WorkingDirectory");
    FindAbsent(HeadEntries(d), "WorkingDirectory");
    FindAbsent(FixedEntries(d), "WorkingDirectory");
    FindAbsent(OptionalEnvironment(d), "WorkingDirectory");
    if d.workingDirectory != [] {
      FindFirst(OptionalWorkingDirectory(d), 0, "WorkingDirectory");
    } else {
      FindAbsent(OptionalWorkingDirectory(d), "WorkingDirectory");
    }
    FindInParts(d, "EnvironmentVariables");
    FindAbsent(HeadEntries(d), "EnvironmentVariables");
    FindAbsent(OptionalWorkingDirectory(d), "EnvironmentVariables");
    FindAbsent(FixedEntries(d), "EnvironmentVariables");
    if |d.environment| > 0 {
      FindFirst(OptionalEnvironment(d), 0, "EnvironmentVariables");
    } else {
      FindAbsent(OptionalEnvironment(d), "EnvironmentVariables");
    }
  }

  /** The label comes first, then the program followed by its arguments in order. */
  lemma LabelAndProgram(d: PlistData)
    ensures Find(Entries(d), "Label") == Some(Text(d.agentLabel))
    ensures Find(Entries(d), "ProgramArguments") == Some(Strings([d.program] + d.arguments))
  {
    FindInParts(d, "Label");
    FindFirst(HeadEntries(d), 0, "Label");
    FindInParts(d, "ProgramArguments");
    FindFirst(HeadEntries(d), 1, "ProgramArguments");
  }

  /** A key of the fixed block is found there, the earlier parts not carrying it. */
  lemma FindFixed(d: PlistData, i: nat)
    requires i < 4
    ensures Find(Entries(d), FixedEntries(d)[i].key) == Some(FixedEntries(d)[i].value)
  {
    var key := FixedEntries(d)[i].key;
    FindInParts(d, key);
    FindAbsent(HeadEntries(d), key);
    FindAbsent(OptionalWorkingDirectory(d), key);
    FindFirst(FixedEntries(d), i, key);
  }

  /** Both flags are rendered as given; the log paths always appear, defaulting from the label when left empty. */
  lemma FlagsAndLogPaths(d: PlistData)
    ensures Find(Entries(d), "RunAtLoad") == Some(Flag(d.runAtLoad))
    ensures Find(Entries(d), "KeepAlive") == Some(Flag(d.keepAlive))
    ensures Find(Entries(d), "StandardOutPath")
         == Some(Text(if d.standardOutPath != [] then d.standardOutPath else "/tmp/" + LogName(d.agentLabel) + ".log"))
    ensures Find(Entries(d), "StandardErrorPath")
         == Some(Text(if d.standardErrorPath != [] then d.standardErrorPath else "/tmp/" + LogName(d.agentLabel) + ".error.log"))
  {
    FindFixed(d, 0);
    FindFixed(d, 1);
    FindFixed(d, 2);
    FindFixed(d, 3);
  }

  // ---------------------------------------------------------------------
  // Download name, install command, validity

  /** The download name: the label with `.plist` appended. */
  function PlistFilename(d: PlistData): (r: string)
    ensures |r| == |d.agentLabel| + 6
    ensures r[..|d.agentLabel|] == d.agentLabel && r[|d.agentLabel|..] == ".plist"
  {
    d.agentLabel + ".plist"
  }

  const MoveCommand: string := "mv ~/Downloads/"
  const LoadCommand: string := " ~/Library/LaunchAgents/ && launchctl load ~/Library/LaunchAgents/"
  const StartCommand: string := " && launchctl start "

  /** Moves the downloaded file into the LaunchAgents folder, loads it, and starts the agent by label. */
  function InstallCommand(d: PlistData): (r: string)
    ensures |r| == |MoveCommand| + |LoadCommand| + |StartCommand| + 2 * |PlistFilename(d)| + |d.agentLabel|
    ensures r[|r| - |d.agentLabel|..] == d.agentLabel
    ensures r[..|MoveCommand| + |PlistFilename(d)|] == MoveCommand + PlistFilename(d)
    ensures r[|MoveCommand| + |PlistFilename(d)|..|r| - |StartCommand| - |d.agentLabel|]
         == LoadCommand + PlistFilename(d)
    ensures r[|r| - |StartCommand| - |d.agentLabel|..] == StartCommand + d.agentLabel
  {
    var file := PlistFilename(d);
    var r := MoveCommand + file + LoadCommand + file + StartCommand + d.agentLabel;
    var move, load, start := MoveCommand + file, LoadCommand + file, StartCommand + d.agentLabel;
    assert r == move + load + start;
    ThreeParts(move, load, start);
    ThreeParts(StartCommand, d.agentLabel, []);
    r
  }

  /** The three pieces of a concatenation are recovered by slicing at their lengths. */
  lemma ThreeParts(a: string, b: string, c: string)
    ensures (a + b + c)[..|a|] == a
    ensures (a + b + c)[|a|..|a| + |b|] == b
    ensures (a + b + c)[|a| + |b|..] == c
  {
  }

  /** Two forms give the same install command only when their labels agree. */
  lemma InstallCommandDeterminesLabel(a: PlistData, b: PlistData)
    requires InstallCommand(a) == InstallCommand(b)
    ensures a.agentLabel == b.agentLabel
  {
    var r := InstallCommand(a);
    assert |a.agentLabel| == |b.agentLabel|;
  }

  /** The generate and install actions are enabled when label and program are both non-empty. */
  predicate IsValid(d: PlistData) {
    d.agentLabel != [] && d.program != []
  }

  /** A fresh form is not yet valid. */
  lemma InitialFormInvalid()
    ensures !IsValid(InitialForm().data)
  {
  }

  // ---------------------------------------------------------------------
  // The form's event handlers

  /**
   * What the user can do on the form: type into a box, tick a checkbox, or
   * press a button (pressing Enter in the argument or value box is the same
   * as pressing its Add button).
   */
  datatype Edit =
    | TypeLabel(text: string)
    | TypeProgram(text: string)
    | TypeArgument(text: string)
    | PressAddArgument
    | PressRemoveArgument(index: int)
    | TypeWorkingDirectory(text: string)
    | TickRunAtLoad(on: bool)
    | TickKeepAlive(on: bool)
    | TypeStandardOutPath(text: string)
    | TypeStandardErrorPath(text: string)
    | TypeEnvKey(text: string)
    | TypeEnvValue(text: string)
    | PressAddVariable
    | PressRemoveVariable(name: string)

  /** The form after one event: only typing the label or the program can change whether it is valid. */
  function Apply(f: Form, e: Edit): (r: Form)
    ensures UniqueNames(f.data.environment) ==> UniqueNames(r.data.environment)
    ensures !e.TypeLabel? && !e.TypeProgram? ==> IsValid(r.data) == IsValid(f.data)
  {
    match e
    case TypeLabel(text) => f.(data := f.data.(agentLabel := text))
    case TypeProgram(text) => f.(data := f.data.(program := text))
    case TypeArgument(text) => f.(argumentInput := text)
    case PressAddArgument => AddArgument(f)
    case PressRemoveArgument(index) => RemoveArgument(f, index)
    case TypeWorkingDirectory(text) => f.(data := f.data.(workingDirectory := text))
    case TickRunAtLoad(on) => f.(data := f.data.(runAtLoad := on))
    case TickKeepAlive(on) => f.(data := f.data.(keepAlive := on))
    case TypeStandardOutPath(text) => f.(data := f.data.(standardOutPath := text))
    case TypeStandardErrorPath(text) => f.(data := f.data.(standardErrorPath := text))
    case TypeEnvKey(text) => f.(envKey := text)
    case TypeEnvValue(text) => f.(envValue := text)
    case PressAddVariable => AddEnvironmentVariable(f)
    case PressRemoveVariable(name) => RemoveEnvironmentVariable(f, name)
  }

  /** The form after a sequence of events, in order. */
  function ApplyAll(f: Form, edits: seq<Edit>): Form
    decreases |edits|
  {
    if edits == [] then f else ApplyAll(Apply(f, edits[0]), edits[1..])
  }

  /** Events never give two variables the same name. */
  lemma {:induction false} EditsKeepUniqueNames(f: Form, edits: seq<Edit>)
    requires UniqueNames(f.data.environment)
    ensures UniqueNames(ApplyAll(f, edits).data.environment)
    decreases |edits|
  {
    if edits != [] {
      EditsKeepUniqueNames(Apply(f, edits[0]), edits[1..]);
    }
  }

  /**
   * Every form reachable from the opening one keeps its variable names
   * distinct, so removing a variable removes the only entry for that key.
   */
  lemma ReachableFormsHaveUniqueNames(edits: seq<Edit>)
    ensures UniqueNames(ApplyAll(InitialForm(), edits).data.environment)
  {
    EditsKeepUniqueNames(InitialForm(), edits);
  }
}
