/**
 * The command-line front end of the ingestion: `getArg` (first argument
 * with the prefix `--<name>=`, the text between its first and second `=`,
 * `parseInt` when the default is a number), the configuration defaults, and
 * the input path `<cwd>/data/<file>` handed to `processKnowledgeBase`.
 */
module ProcessScript {

  import opened Wrappers
  import opened Js
  import NodePath
  import KnowledgeBase
  import Embeddings

  const DefaultFile := "real-estate-knowledge.md"
  const DefaultChunkSize := 1000
  const DefaultOverlap := 200
  const DefaultOutput := "vectorstore"

  /** A value `getArg` can produce: the text of an argument or the number `parseInt` made of it. */
  datatype ArgValue = Text(s: string) | Numeric(n: Number)

  /** `process.argv.slice(2)`: the arguments after the runtime and the script path. */
  function Args(argv: seq<string>): (args: seq<string>)
    ensures |argv| <= 2 ==> args == []
    ensures |argv| > 2 ==> argv[..2] + args == argv
  {
    if |argv| <= 2 then [] else argv[2..]
  }

  predicate StartsWith(s: string, prefix: string)
  {
    |prefix| <= |s| && s[..|prefix|] == prefix
  }

  /** The prefix a matching argument starts with: the name with `=` right after it. */
  function ArgPrefix(name: string): string
  {
    "--" + name + "="
  }

  /** `args.find(arg => arg.startsWith(prefix))`, as the index found. */
  function Find(args: seq<string>, prefix: string): (r: Option<nat>)
    ensures r.None? <==> forall j :: 0 <= j < |args| ==> !StartsWith(args[j], prefix)
    ensures r.Some? ==>
      r.value < |args| && StartsWith(args[r.value], prefix)
      && forall j :: 0 <= j < r.value ==> !StartsWith(args[j], prefix)
  {
    if args == [] then None
    else if StartsWith(args[0], prefix) then Some(0)
    else
      match Find(args[1..], prefix)
      case None => None
      case Some(k) => Some(k + 1)
  }

  /** The index of the first `c` in `s`, or `-1`. */
  function IndexOf(s: string, c: char): (k: int)
    ensures -1 <= k < |s|
    ensures k >= 0 ==> s[k] == c
    ensures forall i :: 0 <= i < |s| && (k < 0 || i < k) ==> s[i] != c
  {
    if s == [] then -1
    else if s[0] == c then 0
    else
      var k := IndexOf(s[1..], c);
      if k < 0 then -1 else k + 1
  }

  /** The text of `s` before its first `c` (all of it when there is none). */
  function TakeUntil(s: string, c: char): (r: string)
    ensures StartsWith(s, r) && c !in r
    ensures |r| < |s| ==> s[|r|] == c
  {
    var k := IndexOf(s, c);
    if k < 0 then s else s[..k]
  }

  /** `s.split(c)` for a one-character separator: the pieces between the separators, empty ones included. */
  function SplitOn(s: string, c: char): (parts: seq<string>)
    ensures |parts| >= 1 && parts[0] == TakeUntil(s, c)
    ensures forall i :: 0 <= i < |parts| ==> c !in parts[i]
    ensures c in s <==> |parts| >= 2
    decreases |s|
  {
    var k := IndexOf(s, c);
    if k < 0 then [s] else [s[..k]] + SplitOn(s[k + 1..], c)
  }

  /** `parts.join(c)`. */
  function JoinWith(parts: seq<string>, c: char): string
  {
    if parts == [] then "" else if |parts| == 1 then parts[0] else parts[0] + [c] + JoinWith(parts[1..], c)
  }

  /** Splitting loses nothing: joining the pieces with the separator gives the text back. */
  lemma {:induction false} SplitJoin(s: string, c: char)
    ensures JoinWith(SplitOn(s, c), c) == s
    decreases |s|
  {
    var k := IndexOf(s, c);
    if k >= 0 {
      var rest := s[k + 1..];
      var tail := SplitOn(rest, c);
      SplitJoin(rest, c);
      var parts := [s[..k]] + tail;
      assert SplitOn(s, c) == parts;
      assert parts[1..] == tail;
      assert JoinWith(parts, c) == s[..k] + [c] + JoinWith(tail, c);
      assert s == s[..k] + [c] + rest;
    }
  }

  /** `arg.split('=')[1]`, for an argument holding at least one `=`. */
  function ArgText(arg: string): string
    requires '=' in arg
  {
    SplitOn(arg, '=')[1]
  }

  /**
   * `getArg(name, defaultValue)` over the arguments `args`: the default when
   * no argument starts with `--<name>=`; otherwise the first such argument's
   * text, through `parseInt` when the default is a number.
   */
  function GetArg(args: seq<string>, name: string, defaultValue: ArgValue): (r: ArgValue)
    ensures Find(args, ArgPrefix(name)).None? ==> r == defaultValue
    ensures r.Numeric? <==> defaultValue.Numeric?
    ensures Find(args, ArgPrefix(name)).Some? ==>
      var arg := args[Find(args, ArgPrefix(name)).value];
      '=' in arg && r == if defaultValue.Numeric? then Numeric(ParseInt(ArgText(arg))) else Text(ArgText(arg))
  {
    match Find(args, ArgPrefix(name))
    case None => defaultValue
    case Some(i) =>
      var arg := args[i];
      assert arg[|name| + 2] == ArgPrefix(name)[|name| + 2];
      var value := ArgText(arg);
      if defaultValue.Numeric? then Numeric(ParseInt(value)) else Text(value)
  }

  /**
   * The value is the text between the first and the second `=`: for a name
   * with no `=` in it, whatever follows a second `=` is dropped.
   */
  lemma ValueIsFirstSegment(name: string, rest: string)
    requires '=' !in name
    ensures '=' in ArgPrefix(name) + rest
    ensures ArgText(ArgPrefix(name) + rest) == TakeUntil(rest, '=')
  {
    var p := ArgPrefix(name);
    var arg := p + rest;
    var k := |name| + 2;
    assert arg[k] == '=';
    assert forall i :: 0 <= i < k ==> arg[i] == p[i];
    assert IndexOf(arg, '=') == k by {
      forall i | 0 <= i < k ensures arg[i] != '=' {
        if i >= 2 { assert arg[i] == name[i - 2]; }
      }
      IndexIsFirst(arg, '=', k);
    }
    assert arg[k + 1..] == rest;
  }

  lemma IndexIsFirst(s: string, c: char, k: nat)
    requires k < |s| && s[k] == c
    requires forall i :: 0 <= i < k ==> s[i] != c
    ensures IndexOf(s, c) == k
  {
  }

  /** The first matching argument wins, whatever follows it. */
  lemma {:induction false} FirstMatchWins(before: seq<string>, arg: string, after: seq<string>, name: string, d: ArgValue)
    requires forall j :: 0 <= j < |before| ==> !StartsWith(before[j], ArgPrefix(name))
    requires StartsWith(arg, ArgPrefix(name))
    ensures GetArg(before + [arg] + after, name, d) == GetArg([arg], name, d)
  {
    var args := before + [arg] + after;
    assert args[|before|] == arg;
    assert Find(args, ArgPrefix(name)) == Some(|before|);
    assert Find([arg], ArgPrefix(name)) == Some(0);
  }

  /** A text that only begins like the name (`--chunk-sizes=5`), or lacks the `=` (`--chunk-size`), is no match. */
  lemma NearMissesAreIgnored(d: ArgValue)
    ensures GetArg(["--chunk-sizes=5", "--chunk-size"], "chunk-size", d) == d
  {
    var args := ["--chunk-sizes=5", "--chunk-size"];
    var p := ArgPrefix("chunk-size");
    assert args[0][..|p|][12] != p[12];
    assert !StartsWith(args[1], p);
  }

  /** A single matching argument `--<name>=<rest>` gives its first segment, parsed as the default's type. */
  lemma SingleMatch(name: string, rest: string, d: ArgValue)
    requires '=' !in name
    ensures GetArg([ArgPrefix(name) + rest], name, d)
         == if d.Numeric? then Numeric(ParseInt(TakeUntil(rest, '='))) else Text(TakeUntil(rest, '='))
  {
    var arg := ArgPrefix(name) + rest;
    ValueIsFirstSegment(name, rest);
    assert StartsWith(arg, ArgPrefix(name)) by { assert arg[..|ArgPrefix(name)|] == ArgPrefix(name); }
  }

  /** `--file=` yields the empty text and `--chunk-size=` yields `NaN`: an empty value does not bring the default back. */
  lemma EmptyValues(textDefault: string, numberDefault: Number)
    ensures GetArg([ArgPrefix("file")], "file", Text(textDefault)) == Text("")
    ensures GetArg([ArgPrefix("chunk-size")], "chunk-size", Numeric(numberDefault)) == Numeric(NaN)
  {
    assert ArgPrefix("file") + "" == ArgPrefix("file");
    assert ArgPrefix("chunk-size") + "" == ArgPrefix("chunk-size");
    SingleMatch("file", "", Text(textDefault));
    SingleMatch("chunk-size", "", Numeric(numberDefault));
    ParseIntNoDigits("");
  }

  /** A number given in decimal reaches the configuration unchanged. */
  lemma NumberRoundTrip(args: seq<string>, name: string, n: nat, d: Number)
    requires '=' !in name
    ensures GetArg([ArgPrefix(name) + Decimal(n)] + args, name, Numeric(d)) == Numeric(Int(n))
  {
    var arg := ArgPrefix(name) + Decimal(n);
    ValueIsFirstSegment(name, Decimal(n));
    assert StartsWith(arg, ArgPrefix(name)) by { assert arg[..|ArgPrefix(name)|] == ArgPrefix(name); }
    assert ([arg] + args)[0] == arg;
    ParseIntDecimal(n);
  }

  /** What `main` hands to `processKnowledgeBase`. */
  datatype Config = Config(fileName: string, chunkSize: Number, chunkOverlap: Number, vectorStorePath: string)

  /** `getArg(name, d) as string`. */
  function TextArg(args: seq<string>, name: string, d: string): (r: string)
    ensures GetArg(args, name, Text(d)) == Text(r)
  {
    match GetArg(args, name, Text(d))
    case Text(s) => s
    case Numeric(_) => d
  }

  /** `getArg(name, d) as number`. */
  function NumberArg(args: seq<string>, name: string, d: int): (r: Number)
    ensures GetArg(args, name, Numeric(Int(d))) == Numeric(r)
  {
    match GetArg(args, name, Numeric(Int(d)))
    case Numeric(n) => n
    case Text(_) => Int(d)
  }

  /** The configuration block of `main`. */
  function Configure(argv: seq<string>): (c: Config)
    ensures var args := Args(argv);
      && GetArg(args, "file", Text(DefaultFile)) == Text(c.fileName)
      && GetArg(args, "chunk-size", Numeric(Int(DefaultChunkSize))) == Numeric(c.chunkSize)
      && GetArg(args, "overlap", Numeric(Int(DefaultOverlap))) == Numeric(c.chunkOverlap)
      && GetArg(args, "output", Text(DefaultOutput)) == Text(c.vectorStorePath)
  {
    var args := Args(argv);
    Config(TextArg(args, "file", DefaultFile), NumberArg(args, "chunk-size", DefaultChunkSize),
           NumberArg(args, "overlap", DefaultOverlap), TextArg(args, "output", DefaultOutput))
  }

  /** The options object `main` passes: no `embedModel`, so the library's default applies to it. */
  function OptionsOf(c: Config): (o: KnowledgeBase.ProcessingOptions)
    ensures o.embedModel.None?
    ensures KnowledgeBase.ApplyDefaults(o)
         == KnowledgeBase.Settings(c.chunkSize, c.chunkOverlap, c.vectorStorePath, Embeddings.DefaultModel)
  {
    KnowledgeBase.ProcessingOptions(Some(c.chunkSize), Some(c.chunkOverlap), Some(c.vectorStorePath), None)
  }

  /**
   * `main`, up to the result of `processKnowledgeBase`: the named file under
   * `<cwd>/data`, processed with the three settings read from the command
   * line and the default embedding model.
   */
  function Run(argv: seq<string>, env: KnowledgeBase.Env): (r: KnowledgeBase.ProcessResult)
    ensures var c := Configure(argv);
      r == KnowledgeBase.ProcessKnowledgeBase(env, KnowledgeBase.DataPath(env.cwd, c.fileName),
        KnowledgeBase.ProcessingOptions(Some(c.chunkSize), Some(c.chunkOverlap), Some(c.vectorStorePath),
          Some(Embeddings.DefaultModel)))
    ensures var c := Configure(argv);
      env.cwd != "" && c.fileName != "" ==>
        r == KnowledgeBase.ProcessKnowledgeBase(env, env.cwd + "/data/" + c.fileName, OptionsOf(c))
  {
    var c := Configure(argv);
    var path := KnowledgeBase.DataPath(env.cwd, c.fileName);
    KnowledgeBase.OnlySettingsMatter(env, path, OptionsOf(c),
      KnowledgeBase.ProcessingOptions(Some(c.chunkSize), Some(c.chunkOverlap), Some(c.vectorStorePath),
        Some(Embeddings.DefaultModel)));
    if env.cwd != "" && c.fileName != "" then
      InputPathShape(env.cwd, c.fileName);
      KnowledgeBase.ProcessKnowledgeBase(env, path, OptionsOf(c))
    else
      KnowledgeBase.ProcessKnowledgeBase(env, path, OptionsOf(c))
  }

  /**
   * With no `--` arguments the script reads `<cwd>/data/real-estate-knowledge.md`
   * and uses exactly the settings the library would pick with no options at all.
   */
  lemma DefaultRun(argv: seq<string>)
    requires forall j :: 2 <= j < |argv| ==> !StartsWith(argv[j], "--")
    ensures Configure(argv) == Config(DefaultFile, Int(1000), Int(200), "vectorstore")
    ensures KnowledgeBase.ApplyDefaults(OptionsOf(Configure(argv)))
         == KnowledgeBase.ApplyDefaults(KnowledgeBase.ProcessingOptions(None, None, None, None))
    ensures forall env: KnowledgeBase.Env ::
      Run(argv, env) == KnowledgeBase.ProcessKnowledgeBase(env, NodePath.Join([env.cwd, "data", DefaultFile]),
        KnowledgeBase.ProcessingOptions(Some(Int(1000)), Some(Int(200)), Some("vectorstore"), None))
  {
    var args := Args(argv);
    assert forall j :: 0 <= j < |args| ==> args[j] == argv[j + 2];
    NoOptionNoMatch(args, "file");
    NoOptionNoMatch(args, "chunk-size");
    NoOptionNoMatch(args, "overlap");
    NoOptionNoMatch(args, "output");
  }

  /** An argument that does not start with `--` matches no name. */
  lemma NoOptionNoMatch(args: seq<string>, name: string)
    requires forall j :: 0 <= j < |args| ==> !StartsWith(args[j], "--")
    ensures Find(args, ArgPrefix(name)).None?
  {
    forall j | 0 <= j < |args| ensures !StartsWith(args[j], ArgPrefix(name)) {
      assert ArgPrefix(name)[..2] == "--";
    }
  }

  /** For a working directory and a file name that are not empty, the input path is `<cwd>/data/<file>`. */
  lemma InputPathShape(cwd: string, fileName: string)
    requires cwd != "" && fileName != ""
    ensures KnowledgeBase.DataPath(cwd, fileName) == cwd + "/data/" + fileName
  {
    NodePath.JoinThree(cwd, "data", fileName);
  }
}
