/**
  Verifying that an installed entry file and everything it imports by relative paths is
  present, parses, and does not import zod: a worklist search over a graph that may have
  cycles. Import specifiers are collected from a syntax graph by the same kind of search.
*/
module ImportClosure {
  import opened Collections
  import opened Reachability

  const MAX_INSTALLED_ROOT_DIST_JS_BYTES := 6 * 1024 * 1024

  // ----- import specifiers of one file -----

  datatype Node =
    | ImportOrExport(source: Option<string>)
    | ImportCall(source: Option<string>)
    | RequireCall(argument: Option<string>)
    | Plain

  /** A parsed program: what its nodes are and which objects each one holds. */
  datatype Syntax = Syntax(kind: nat -> Node, children: nat -> seq<nat>, program: nat, nodes: set<nat>)

  ghost function Holds(syntax: Syntax): Edges<nat>
  {
    (node: nat, child: nat) => child in syntax.children(node)
  }

  ghost predicate ValidSyntax(syntax: Syntax)
  {
    syntax.program in syntax.nodes && ClosedUnder(Holds(syntax), syntax.nodes)
  }

  /** The non-empty literal a node imports from, if it does. */
  function Specifier(node: Node): Option<string>
  {
    var literal := match node
      case ImportOrExport(source) => source
      case ImportCall(source) => source
      case RequireCall(argument) => argument
      case Plain => None;
    if literal == Some("") then None else literal
  }

  /** Some node the program reaches imports from this specifier. */
  ghost predicate Mentions(syntax: Syntax, specifier: string)
  {
    exists n :: Reachable(Holds(syntax), syntax.program, n) && Specifier(syntax.kind(n)) == Some(specifier)
  }

  /** The specifiers of the nodes seen so far. */
  ghost predicate Collected(syntax: Syntax, visited: set<nat>, specifiers: seq<string>)
  {
    forall s :: s in specifiers <==> exists n :: n in visited && Specifier(syntax.kind(n)) == Some(s)
  }

  predicate Distinct(specifiers: seq<string>)
  {
    forall i, j :: 0 <= i < j < |specifiers| ==> specifiers[i] != specifiers[j]
  }

  /** `specifiers.add(specifier)`: a set that remembers the order of insertion. */
  function Add(specifiers: seq<string>, specifier: string): (added: seq<string>)
    ensures Distinct(specifiers) ==> Distinct(added)
  {
    if specifier in specifiers then specifiers else specifiers + [specifier]
  }

  /** The specifiers found are exactly those of the nodes the program reaches. */
  method ExtractImportSpecifiers(syntax: Syntax) returns (specifiers: seq<string>)
    requires ValidSyntax(syntax)
    ensures forall s :: s in specifiers <==> Mentions(syntax, s)
    ensures Distinct(specifiers)
  {
    specifiers := [];
    var visited: set<nat> := {};
    var pending := [syntax.program];
    SearchStarts(Holds(syntax), syntax.program);
    while |pending| > 0
      invariant SearchInv(Holds(syntax), syntax.program, visited, pending)
      invariant visited <= syntax.nodes && forall n :: n in pending ==> n in syntax.nodes
      invariant Collected(syntax, visited, specifiers) && Distinct(specifiers)
      decreases syntax.nodes - visited, |pending|
    {
      var current := pending[|pending| - 1];
      if current in visited {
        SearchSkips(Holds(syntax), syntax.program, visited, pending);
        pending := pending[..|pending| - 1];
        continue;
      }
      SearchExpands(Holds(syntax), syntax.program, visited, pending, syntax.children(current));
      CollectOne(syntax, visited, specifiers, current);
      visited := visited + {current};
      var specifier := Specifier(syntax.kind(current));
      if specifier.Some? {
        specifiers := Add(specifiers, specifier.value);
      }
      pending := pending[..|pending| - 1] + syntax.children(current);
    }
    assert pending == [];
    SearchEnds(Holds(syntax), syntax.program, visited);
  }

  lemma CollectOne(syntax: Syntax, visited: set<nat>, specifiers: seq<string>, current: nat)
    requires Collected(syntax, visited, specifiers)
    ensures var specifier := Specifier(syntax.kind(current));
      Collected(syntax, visited + {current},
                if specifier.Some? then Add(specifiers, specifier.value) else specifiers)
  {
    var specifier := Specifier(syntax.kind(current));
    var after := if specifier.Some? then Add(specifiers, specifier.value) else specifiers;
    assert forall s :: s in after <==> s in specifiers || specifier == Some(s);
  }

  // ----- the closure of relative imports -----

  datatype Contents = Parsed(syntax: Syntax) | Unparsable(error: string)

  /** What exists at a path. */
  datatype Found = Found(regular: bool, size: nat, contents: Contents)

  /**
    An installed package: what exists where, the entry file, how a specifier is joined to
    its importer, how a file name is joined to a directory, and what lies below dist.
  */
  datatype Package = Package(
    files: map<string, Found>, entry: string,
    join: (string, string) -> string, inDirectory: (string, string) -> string, belowDist: string -> bool)

  function Candidates(p: Package, importer: string, specifier: string): seq<string>
  {
    var path := p.join(importer, specifier);
    [path, path + ".js", path + ".mjs", path + ".cjs",
     p.inDirectory(path, "index.js"), p.inDirectory(path, "index.mjs"), p.inDirectory(path, "index.cjs")]
  }

  predicate Acceptable(p: Package, path: string)
  {
    p.belowDist(path) && path in p.files
  }

  function FirstAcceptable(p: Package, paths: seq<string>): Option<string>
  {
    if paths == [] then None
    else if Acceptable(p, paths[0]) then Some(paths[0])
    else FirstAcceptable(p, paths[1..])
  }

  function Resolve(p: Package, importer: string, specifier: string): Option<string>
  {
    if |specifier| > 0 && specifier[0] == '.' then FirstAcceptable(p, Candidates(p, importer, specifier)) else None
  }

  /** Resolution picks a candidate that is acceptable, and none before it is. */
  lemma {:induction false} FirstAcceptableIsFirst(p: Package, paths: seq<string>)
    ensures match FirstAcceptable(p, paths)
            case Some(path) => exists i :: 0 <= i < |paths| && paths[i] == path && Acceptable(p, path)
                                        && forall k :: 0 <= k < i ==> !Acceptable(p, paths[k])
            case None => forall k :: 0 <= k < |paths| ==> !Acceptable(p, paths[k])
  {
    if paths != [] && !Acceptable(p, paths[0]) {
      FirstAcceptableIsFirst(p, paths[1..]);
      if FirstAcceptable(p, paths[1..]).Some? {
        var path := FirstAcceptable(p, paths[1..]).value;
        var i :| 0 <= i < |paths[1..]| && paths[1..][i] == path
                 && forall k :: 0 <= k < i ==> !Acceptable(p, paths[1..][k]);
        assert paths[i + 1] == path;
        assert forall k :: 0 < k < i + 1 ==> paths[k] == paths[1..][k - 1];
      }
    }
  }

  /** Something exists at this path, and the path lies below dist. */
  predicate There(p: Package, path: string)
  {
    p.belowDist(path) && path in p.files
  }

  /**
    A specifier that starts with a dot resolves to the path it joins to, if something is
    there; else to the first of the path with an extension; else to the first index file
    in it. Any other specifier resolves to nothing.
  */
  lemma ResolutionMeaning(p: Package, importer: string, specifier: string)
    ensures Resolve(p, importer, specifier).Some? ==> specifier != "" && specifier[0] == '.'
    ensures specifier != "" && specifier[0] == '.' ==>
              var path := p.join(importer, specifier);
              Resolve(p, importer, specifier) ==
              if There(p, path) then Some(path)
              else if There(p, path + ".js") then Some(path + ".js")
              else if There(p, path + ".mjs") then Some(path + ".mjs")
              else if There(p, path + ".cjs") then Some(path + ".cjs")
              else if There(p, p.inDirectory(path, "index.js")) then Some(p.inDirectory(path, "index.js"))
              else if There(p, p.inDirectory(path, "index.mjs")) then Some(p.inDirectory(path, "index.mjs"))
              else if There(p, p.inDirectory(path, "index.cjs")) then Some(p.inDirectory(path, "index.cjs"))
              else None
  {
    if specifier != "" && specifier[0] == '.' {
      var path := p.join(importer, specifier);
      var c := [path, path + ".js", path + ".mjs", path + ".cjs", p.inDirectory(path, "index.js"),
                p.inDirectory(path, "index.mjs"), p.inDirectory(path, "index.cjs")];
      assert c == c[0..] == Candidates(p, importer, specifier);
      FirstFrom(p, c, 0);
      FirstFrom(p, c, 1);
      FirstFrom(p, c, 2);
      FirstFrom(p, c, 3);
      FirstFrom(p, c, 4);
      FirstFrom(p, c, 5);
      FirstFrom(p, c, 6);
    }
  }

  lemma FirstFrom(p: Package, paths: seq<string>, i: nat)
    requires i < |paths|
    ensures FirstAcceptable(p, paths[i..]) ==
            if There(p, paths[i]) then Some(paths[i]) else FirstAcceptable(p, paths[i + 1..])
  {
    assert paths[i..][1..] == paths[i + 1..];
  }

  method ResolveInstalledDistRelativeImport(p: Package, importer: string, specifier: string)
      returns (resolved: Option<string>)
    ensures resolved == Resolve(p, importer, specifier)
  {
    if !(|specifier| > 0 && specifier[0] == '.') {
      return None;
    }
    var candidates := Candidates(p, importer, specifier);
    for i := 0 to |candidates|
      invariant FirstAcceptable(p, candidates) == FirstAcceptable(p, candidates[i..])
    {
      if !p.belowDist(candidates[i]) || candidates[i] !in p.files {
        continue;
      }
      return Some(candidates[i]);
    }
    resolved := None;
  }

  predicate IsZod(specifier: string)
  {
    specifier == "zod" || "zod/" <= specifier
  }

  /** Present, a regular file of acceptable size, parsable, and free of zod imports. */
  ghost predicate Good(p: Package, file: string)
  {
    && file in p.files
    && p.files[file].regular
    && p.files[file].size <= MAX_INSTALLED_ROOT_DIST_JS_BYTES
    && p.files[file].contents.Parsed?
    && forall s :: Mentions(p.files[file].contents.syntax, s) ==> !IsZod(s)
  }

  /** A specifier of the one file resolves to the other. */
  ghost predicate Imports(p: Package, file: string, target: string)
  {
    && file in p.files && p.files[file].contents.Parsed?
    && exists s :: Mentions(p.files[file].contents.syntax, s) && Resolve(p, file, s) == Some(target)
  }

  ghost function ImportGraph(p: Package): Edges<string>
  {
    (file, target) => Imports(p, file, target)
  }

  ghost predicate InClosure(p: Package, file: string)
  {
    Reachable(ImportGraph(p), p.entry, file)
  }

  /** A file of the closure that is written as a path relative to an importer is in the closure. */
  lemma RelativeImportIsFollowed(p: Package, file: string, specifier: string)
    requires InClosure(p, file) && Good(p, file) && Mentions(p.files[file].contents.syntax, specifier)
    requires specifier != "" && specifier[0] == '.' && There(p, p.join(file, specifier))
    ensures InClosure(p, p.join(file, specifier))
  {
    ResolutionMeaning(p, file, specifier);
    assert Imports(p, file, p.join(file, specifier));
    StepIsReachable(ImportGraph(p), p.entry, file, p.join(file, specifier));
  }

  /** What this node imports, and by which kind of node. */
  predicate ImportsFrom(node: Node, specifier: string)
  {
    specifier != "" &&
    (node == ImportOrExport(Some(specifier)) || node == ImportCall(Some(specifier)) ||
     node == RequireCall(Some(specifier)))
  }

  predicate StartsWithZodSlash(specifier: string)
  {
    |specifier| >= 4 && specifier[0] == 'z' && specifier[1] == 'o' && specifier[2] == 'd' && specifier[3] == '/'
  }

  /** What makes a file good, down to the nodes of its program and the letters of a specifier. */
  lemma GoodMeaning(p: Package, file: string)
    ensures Good(p, file) <==>
      && file in p.files && p.files[file].regular && p.files[file].size <= 6291456
      && p.files[file].contents.Parsed?
      && FreeOfZod(p.files[file].contents.syntax)
  {
    if file in p.files && p.files[file].contents.Parsed? {
      var syntax := p.files[file].contents.syntax;
      forall specifier: string
        ensures IsZod(specifier) <==> specifier == "zod" || StartsWithZodSlash(specifier)
        ensures Mentions(syntax, specifier) <==> ReachesImport(syntax, specifier)
      {
        ZodMeaning(specifier);
        MentionsMeaning(syntax, specifier);
      }
    }
  }

  /** Some node of the program imports from this specifier. */
  ghost predicate ReachesImport(syntax: Syntax, specifier: string)
  {
    exists node: nat :: Reachable(Holds(syntax), syntax.program, node) && ImportsFrom(syntax.kind(node), specifier)
  }

  ghost predicate FreeOfZod(syntax: Syntax)
  {
    forall specifier: string :: ReachesImport(syntax, specifier) ==>
      specifier != "zod" && !StartsWithZodSlash(specifier)
  }

  lemma ZodMeaning(specifier: string)
    ensures IsZod(specifier) <==> specifier == "zod" || StartsWithZodSlash(specifier)
  {
    assert |"zod/"| == 4;
    if "zod/" <= specifier {
      assert forall k :: 0 <= k < 4 ==> specifier[k] == "zod/"[k];
    }
    if StartsWithZodSlash(specifier) {
      assert specifier[..4] == "zod/";
    }
  }

  lemma MentionsMeaning(syntax: Syntax, specifier: string)
    ensures Mentions(syntax, specifier) <==> ReachesImport(syntax, specifier)
  {
    forall node: nat
      ensures ImportsFrom(syntax.kind(node), specifier) <==> Specifier(syntax.kind(node)) == Some(specifier)
    {
    }
  }

  datatype Problem =
    | MissingArtifact
    | InvalidArtifact(file: string)
    | UnparsableArtifact(file: string, error: string)
    | ZodImport(file: string, specifier: string)

  /** The problem is what is wrong with this file. */
  ghost predicate Describes(p: Package, problem: Problem, file: string)
  {
    match problem
    case MissingArtifact => file !in p.files
    case InvalidArtifact(f) =>
      && f == file && file in p.files
      && (!p.files[file].regular || p.files[file].size > MAX_INSTALLED_ROOT_DIST_JS_BYTES)
    case UnparsableArtifact(f, error) =>
      f == file && file in p.files && p.files[file].contents == Unparsable(error)
    case ZodImport(f, specifier) =>
      && f == file && file in p.files && p.files[file].contents.Parsed?
      && Mentions(p.files[file].contents.syntax, specifier) && IsZod(specifier)
  }

  /** No path is empty where something exists, and what was parsed is a finite program. */
  ghost predicate ValidPackage(p: Package)
  {
    && p.entry != "" && "" !in p.files
    && forall file :: file in p.files && p.files[file].contents.Parsed? ==> ValidSyntax(p.files[file].contents.syntax)
  }

  lemma ResolvedFileExists(p: Package, importer: string, specifier: string)
    ensures var resolved := Resolve(p, importer, specifier);
      resolved.Some? ==> resolved.value in p.files
  {
    FirstAcceptableIsFirst(p, Candidates(p, importer, specifier));
  }

  /** The files the first specifiers of a file resolve to. */
  ghost predicate ResolvedFrom(p: Package, file: string, specifiers: seq<string>, imports: seq<string>)
  {
    && (forall target :: target in imports <==> exists s :: s in specifiers && Resolve(p, file, s) == Some(target))
    && (forall target :: target in imports ==> target in p.files)
  }

  lemma ResolveOne(p: Package, file: string, specifiers: seq<string>, imports: seq<string>, next: string)
    requires ResolvedFrom(p, file, specifiers, imports)
    ensures var resolved := Resolve(p, file, next);
      ResolvedFrom(p, file, specifiers + [next], if resolved.Some? then imports + [resolved.value] else imports)
  {
    ResolvedFileExists(p, file, next);
  }

  /** One file: its problem, or the files it imports. */
  method Inspect(p: Package, file: string) returns (problem: Option<Problem>, imports: seq<string>)
    requires ValidPackage(p)
    ensures problem.None? ==>
              && Good(p, file)
              && forall target :: target in imports <==> Imports(p, file, target)
    ensures problem.None? ==> forall target :: target in imports ==> target in p.files
    ensures problem.Some? ==> Describes(p, problem.value, file) && !Good(p, file)
  {
    imports := [];
    if file !in p.files {
      return Some(MissingArtifact), imports;
    }
    var found := p.files[file];
    if !found.regular || found.size > MAX_INSTALLED_ROOT_DIST_JS_BYTES {
      return Some(InvalidArtifact(file)), imports;
    }
    match found.contents {
      case Unparsable(error) =>
        problem := Some(UnparsableArtifact(file, error));
      case Parsed(syntax) =>
        var specifiers := ExtractImportSpecifiers(syntax);
        problem, imports := InspectSpecifiers(p, file, specifiers);
    }
  }

  /** The first zod specifier is the problem; without one, all relative specifiers are resolved. */
  method InspectSpecifiers(p: Package, file: string, specifiers: seq<string>)
      returns (problem: Option<Problem>, imports: seq<string>)
    ensures problem.None? ==> ResolvedFrom(p, file, specifiers, imports) && forall s :: s in specifiers ==> !IsZod(s)
    ensures problem.Some? ==>
              exists s :: s in specifiers && IsZod(s) && problem == Some(ZodImport(file, s))
  {
    imports := [];
    for i := 0 to |specifiers|
      invariant forall s :: s in specifiers[..i] ==> !IsZod(s)
      invariant ResolvedFrom(p, file, specifiers[..i], imports)
    {
      if IsZod(specifiers[i]) {
        return Some(ZodImport(file, specifiers[i])), imports;
      }
      ResolveOne(p, file, specifiers[..i], imports, specifiers[i]);
      assert specifiers[..i + 1] == specifiers[..i] + [specifiers[i]];
      var resolved := ResolveInstalledDistRelativeImport(p, file, specifiers[i]);
      if resolved.Some? {
        imports := imports + [resolved.value];
      }
    }
    assert specifiers[..|specifiers|] == specifiers;
    problem := None;
  }

  /**
    The check is exact, on cyclic graphs too: it reports nothing if and only if every
    file of the import closure is good, and what it reports is wrong with one of them.
  */
  method CollectInstalledPluginSdkZodArtifactErrors(p: Package) returns (problem: Option<Problem>)
    requires ValidPackage(p)
    ensures problem.None? <==> forall file :: InClosure(p, file) ==> Good(p, file)
    ensures problem.Some? ==> exists file :: InClosure(p, file) && Describes(p, problem.value, file)
  {
    var pending := [p.entry];
    var visited: set<string> := {};
    ghost var all := p.files.Keys + {p.entry};
    SearchStarts(ImportGraph(p), p.entry);
    while |pending| > 0
      invariant SearchInv(ImportGraph(p), p.entry, visited, pending)
      invariant forall file :: file in visited ==> Good(p, file)
      invariant visited <= all && forall file :: file in pending ==> file in all
      decreases all - visited, |pending|
    {
      var file := pending[|pending| - 1];
      if file == "" || file in visited {
        SearchSkips(ImportGraph(p), p.entry, visited, pending);
        pending := pending[..|pending| - 1];
        continue;
      }
      var found, imports := Inspect(p, file);
      if found.Some? {
        assert InClosure(p, file);
        return found;
      }
      SearchExpands(ImportGraph(p), p.entry, visited, pending, imports);
      visited := visited + {file};
      pending := pending[..|pending| - 1] + imports;
    }
    assert pending == [];
    SearchEnds(ImportGraph(p), p.entry, visited);
    problem := None;
  }
}
