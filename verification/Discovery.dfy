/** Agent definitions on disk, and the first-match lookups that resolve a name at spawn time. */
module Agents {
  import opened Wrappers
  import opened Positions

  datatype Scope = Project | User | Bundled | BuiltIn

  datatype BuiltinName =
    | DsBuild | DsBuildConcise | DsBuildPlan | DsBuildPlanNoSubagents | DsBuildAskUser | Codex | Opencode
    | GeneralPurpose | Explore | Plan | AttackerCode | AttackerMath | AttackerResearch | FinalVerifier
    | BrowserUse | DsBuildOrchestrator

  function NameOf(b: BuiltinName): string {
    match b
    case DsBuild => "ds-build"
    case DsBuildConcise => "ds-build-concise"
    case DsBuildPlan => "ds-build-plan"
    case DsBuildPlanNoSubagents => "ds-build-plan-no-subagents"
    case DsBuildAskUser => "ds-build-ask-user"
    case Codex => "codex"
    case Opencode => "opencode"
    case GeneralPurpose => "general-purpose"
    case Explore => "explore"
    case Plan => "plan"
    case AttackerCode => "attacker-code"
    case AttackerMath => "attacker-math"
    case AttackerResearch => "attacker-research"
    case FinalVerifier => "final-verifier"
    case BrowserUse => "browser-use"
    case DsBuildOrchestrator => "ds-build-orchestrator"
  }

  const ALL_BUILTINS: seq<BuiltinName> := [
    DsBuild, DsBuildConcise, DsBuildPlan, DsBuildPlanNoSubagents, DsBuildAskUser, Codex, Opencode,
    GeneralPurpose, Explore, Plan, AttackerCode, AttackerMath, AttackerResearch, FinalVerifier,
    BrowserUse, DsBuildOrchestrator
  ]

  /** The built-ins offered as subagents, in the order they are listed. */
  const SUBAGENTS: seq<BuiltinName> :=
    [GeneralPurpose, Explore, Plan, AttackerCode, AttackerMath, AttackerResearch]

  function Search(names: seq<BuiltinName>, name: string): (r: Option<BuiltinName>)
    ensures r.Some? ==> r.value in names && NameOf(r.value) == name
    ensures r.None? ==> forall b | b in names :: NameOf(b) != name
  {
    if names == [] then None
    else if NameOf(names[0]) == name then Some(names[0])
    else Search(names[1..], name)
  }

  function FromStr(name: string): Option<BuiltinName> {
    Search(ALL_BUILTINS, name)
  }

  predicate IsSubagentName(name: string) {
    FromStr(name).Some? && FromStr(name).value in SUBAGENTS
  }

  lemma NamesAreDistinct(a: BuiltinName, b: BuiltinName)
    requires NameOf(a) == NameOf(b)
    ensures a == b
  {
  }

  lemma AllBuiltinsListed(b: BuiltinName)
    ensures b in ALL_BUILTINS
  {
  }

  lemma FromStrOfName(b: BuiltinName)
    ensures FromStr(NameOf(b)) == Some(b)
  {
    hide NameOf;
    AllBuiltinsListed(b);
    NamesAreDistinct(FromStr(NameOf(b)).value, b);
  }

  // ----- definitions on disk

  datatype Definition = Definition(name: string, description: string, scope: Scope)

  /** A definition file: its stem, and what parsing it gives, if it parses. */
  datatype File = File(stem: string, parsed: Option<(string, string)>)

  datatype Directory = Directory(files: seq<File>, scope: Scope)

  /** Project directories from the working directory upwards, then user and bundled ones, highest priority first. */
  datatype Disk = Disk(project: seq<Directory>, home: seq<Directory>)

  ghost predicate DistinctStems(dir: Directory) {
    forall i, j :: 0 <= i < j < |dir.files| ==> dir.files[i].stem != dir.files[j].stem
  }

  /** The files that parse carry this name exactly when they are filed under it. */
  ghost predicate FiledUnder(files: seq<File>, name: string) {
    forall i :: 0 <= i < |files| && files[i].parsed.Some? ==> (files[i].parsed.value.0 == name <==> files[i].stem == name)
  }

  /** The scopes are those the source assigns, and a directory holds one file per stem. */
  ghost predicate ValidDisk(disk: Disk) {
    && (forall d | d in disk.project :: d.scope == Project && DistinctStems(d))
    && (forall d | d in disk.home :: (d.scope == User || d.scope == Bundled) && DistinctStems(d))
  }

  ghost predicate Filed(disk: Disk, name: string) {
    (forall d | d in disk.project :: FiledUnder(d.files, name)) && (forall d | d in disk.home :: FiledUnder(d.files, name))
  }

  // ----- lookup by name

  function LookupFile(files: seq<File>, name: string, scope: Scope): Option<Definition> {
    if files == [] then None
    else if files[0].stem == name then
      match files[0].parsed
      case Some(p) => Some(Definition(p.0, p.1, scope))
      case None => None
    else LookupFile(files[1..], name, scope)
  }

  /** The first directory whose file of that name parses. */
  function LookupDirs(dirs: seq<Directory>, name: string): (r: Option<Definition>)
    ensures r.Some? ==> exists d :: d in dirs && d.scope == r.value.scope
  {
    if dirs == [] then None
    else
      match LookupFile(dirs[0].files, name, dirs[0].scope)
      case Some(def) => LookupFileScope(dirs[0].files, name, dirs[0].scope); assert dirs[0] in dirs; Some(def)
      case None =>
        var r := LookupDirs(dirs[1..], name);
        assert r.Some? ==> exists d :: d in dirs[1..] && d.scope == r.value.scope;
        r
  }

  lemma {:induction false} LookupFileScope(files: seq<File>, name: string, scope: Scope)
    ensures LookupFile(files, name, scope).Some? ==> LookupFile(files, name, scope).value.scope == scope
  {
    if files != [] { LookupFileScope(files[1..], name, scope); }
  }

  function BuiltinDefinition(b: BuiltinName, describe: BuiltinName -> string): Definition {
    Definition(NameOf(b), describe(b), BuiltIn)
  }

  /** Built-ins come before user and bundled definitions. */
  function ByName(disk: Disk, name: string, describe: BuiltinName -> string): Option<Definition> {
    match FromStr(name)
    case Some(b) => Some(BuiltinDefinition(b, describe))
    case None => LookupDirs(disk.home, name)
  }

  /** Project definitions come before built-ins. */
  function ByNameInCwd(disk: Disk, name: string, describe: BuiltinName -> string): Option<Definition> {
    match LookupDirs(disk.project, name)
    case Some(def) => Some(def)
    case None => ByName(disk, name, describe)
  }

  // ----- discovery

  function Get(defs: seq<Definition>, name: string): (r: Option<Definition>)
    ensures r.Some? ==> r.value in defs && r.value.name == name
    ensures r.None? ==> forall d | d in defs :: d.name != name
  {
    if defs == [] then None
    else if defs[0].name == name then Some(defs[0])
    else Get(defs[1..], name)
  }

  function LoadFiles(defs: seq<Definition>, files: seq<File>, scope: Scope): seq<Definition>
    decreases |files|
  {
    if files == [] then defs
    else
      var next := match files[0].parsed
        case Some(p) => if Get(defs, p.0).Some? then defs else defs + [Definition(p.0, p.1, scope)]
        case None => defs;
      LoadFiles(next, files[1..], scope)
  }

  function LoadDirs(defs: seq<Definition>, dirs: seq<Directory>): seq<Definition>
    decreases |dirs|
  {
    if dirs == [] then defs else LoadDirs(LoadFiles(defs, dirs[0].files, dirs[0].scope), dirs[1..])
  }

  function Discovered(disk: Disk): seq<Definition> {
    LoadDirs(LoadDirs([], disk.project), disk.home)
  }

  method LoadDefinitionsFromDir(dir: Directory, definitions: seq<Definition>, seenNames: set<string>)
    returns (defs: seq<Definition>, seen: set<string>)
    requires seenNames == set d | d in definitions :: d.name
    ensures defs == LoadFiles(definitions, dir.files, dir.scope)
    ensures seen == set d | d in defs :: d.name
  {
    defs, seen := definitions, seenNames;
    assert dir.files[0..] == dir.files;
    for i := 0 to |dir.files|
      invariant seen == set d | d in defs :: d.name
      invariant LoadFiles(defs, dir.files[i..], dir.scope) == LoadFiles(definitions, dir.files, dir.scope)
    {
      assert dir.files[i..][0] == dir.files[i] && dir.files[i..][1..] == dir.files[i + 1..];
      if dir.files[i].parsed.Some? {
        var p := dir.files[i].parsed.value;
        SeenIff(defs, p.0);
        if p.0 !in seen {
          defs, seen := defs + [Definition(p.0, p.1, dir.scope)], seen + {p.0};
        }
      }
    }
  }

  lemma SeenIff(defs: seq<Definition>, name: string)
    ensures name in (set d | d in defs :: d.name) <==> Get(defs, name).Some?
  {
  }

  method DiscoverDirs(dirs: seq<Directory>, definitions: seq<Definition>, seenNames: set<string>)
    returns (defs: seq<Definition>, seen: set<string>)
    requires seenNames == set d | d in definitions :: d.name
    ensures defs == LoadDirs(definitions, dirs)
    ensures seen == set d | d in defs :: d.name
  {
    defs, seen := definitions, seenNames;
    assert dirs[0..] == dirs;
    for i := 0 to |dirs|
      invariant seen == set d | d in defs :: d.name
      invariant LoadDirs(defs, dirs[i..]) == LoadDirs(definitions, dirs)
    {
      assert dirs[i..][0] == dirs[i] && dirs[i..][1..] == dirs[i + 1..];
      defs, seen := LoadDefinitionsFromDir(dirs[i], defs, seen);
    }
  }

  method Discover(disk: Disk) returns (defs: seq<Definition>)
    ensures defs == Discovered(disk)
  {
    var seen: set<string>;
    defs, seen := DiscoverDirs(disk.project, [], {});
    defs, seen := DiscoverDirs(disk.home, defs, seen);
  }

  // ----- the index agrees with the search it summarises

  lemma {:induction false} GetAppend(defs: seq<Definition>, d: Definition, name: string)
    ensures Get(defs + [d], name) == if Get(defs, name).Some? then Get(defs, name) else Get([d], name)
  {
    if defs == [] {
      assert defs + [d] == [d];
    } else {
      assert (defs + [d])[0] == defs[0] && (defs + [d])[1..] == defs[1..] + [d];
      GetAppend(defs[1..], d, name);
    }
  }

  lemma GetOne(d: Definition, name: string)
    ensures Get([d], name) == if d.name == name then Some(d) else None
  {
  }

  /** A file that parses: the name it is filed under and the definition it holds. */
  datatype Held = Held(stem: string, def: Definition)

  function HeldFiles(files: seq<File>, scope: Scope): seq<Held> {
    if files == [] then []
    else (match files[0].parsed
          case Some(p) => [Held(files[0].stem, Definition(p.0, p.1, scope))]
          case None => []) + HeldFiles(files[1..], scope)
  }

  function HeldDirs(dirs: seq<Directory>): seq<Held> {
    if dirs == [] then [] else HeldFiles(dirs[0].files, dirs[0].scope) + HeldDirs(dirs[1..])
  }

  /** All files that parse, in the order the directories are searched. */
  function HeldBy(disk: Disk): seq<Held> {
    HeldDirs(disk.project) + HeldDirs(disk.home)
  }

  /** The first file filed under the name. */
  function FirstFiled(held: seq<Held>, name: string): Option<Definition> {
    if held == [] then None else if held[0].stem == name then Some(held[0].def) else FirstFiled(held[1..], name)
  }

  /** The first file whose definition carries the name. */
  function FirstNamed(held: seq<Held>, name: string): Option<Definition> {
    if held == [] then None else if held[0].def.name == name then Some(held[0].def) else FirstNamed(held[1..], name)
  }

  lemma {:induction false} FirstConcat(a: seq<Held>, b: seq<Held>, name: string)
    ensures FirstFiled(a + b, name) == if FirstFiled(a, name).Some? then FirstFiled(a, name) else FirstFiled(b, name)
    ensures FirstNamed(a + b, name) == if FirstNamed(a, name).Some? then FirstNamed(a, name) else FirstNamed(b, name)
  {
    if a == [] {
      assert a + b == b;
    } else {
      assert (a + b)[0] == a[0] && (a + b)[1..] == a[1..] + b;
      FirstConcat(a[1..], b, name);
    }
  }

  lemma FirstOfOne(h: Held, name: string)
    ensures FirstFiled([h], name) == if h.stem == name then Some(h.def) else None
    ensures FirstNamed([h], name) == if h.def.name == name then Some(h.def) else None
  {
    assert [h][1..] == [];
  }

  lemma {:induction false} NoneFiled(files: seq<File>, scope: Scope, name: string)
    requires forall i :: 0 <= i < |files| ==> files[i].stem != name
    ensures FirstFiled(HeldFiles(files, scope), name) == None
  {
    if files != [] {
      NoneFiled(files[1..], scope, name);
      if files[0].parsed.Some? {
        var h := Held(files[0].stem, Definition(files[0].parsed.value.0, files[0].parsed.value.1, scope));
        FirstConcat([h], HeldFiles(files[1..], scope), name);
        FirstOfOne(h, name);
      } else {
        assert [] + HeldFiles(files[1..], scope) == HeldFiles(files[1..], scope);
      }
    }
  }

  lemma {:induction false} LookupIsFirstFiled(files: seq<File>, scope: Scope, name: string)
    requires DistinctStems(Directory(files, scope))
    ensures LookupFile(files, name, scope) == FirstFiled(HeldFiles(files, scope), name)
  {
    if files != [] {
      var f, rest := files[0], files[1..];
      assert forall i :: 0 <= i < |rest| ==> rest[i] == files[i + 1];
      LookupIsFirstFiled(rest, scope, name);
      if f.parsed.Some? {
        var h := Held(f.stem, Definition(f.parsed.value.0, f.parsed.value.1, scope));
        FirstConcat([h], HeldFiles(rest, scope), name);
        FirstOfOne(h, name);
      } else {
        assert [] + HeldFiles(rest, scope) == HeldFiles(rest, scope);
        if f.stem == name { NoneFiled(rest, scope, name); }
      }
    }
  }

  /** The search by name finds the first file filed under it. */
  lemma {:induction false} SearchIsFirstFiled(dirs: seq<Directory>, name: string)
    requires forall d | d in dirs :: DistinctStems(d)
    ensures LookupDirs(dirs, name) == FirstFiled(HeldDirs(dirs), name)
  {
    hide DistinctStems;
    if dirs != [] {
      assert dirs[0] in dirs && dirs[0] == Directory(dirs[0].files, dirs[0].scope);
      LookupIsFirstFiled(dirs[0].files, dirs[0].scope, name);
      SearchIsFirstFiled(dirs[1..], name);
      FirstConcat(HeldFiles(dirs[0].files, dirs[0].scope), HeldDirs(dirs[1..]), name);
    }
  }

  lemma {:induction false} LoadedFile(defs: seq<Definition>, files: seq<File>, scope: Scope, name: string)
    ensures Get(LoadFiles(defs, files, scope), name)
         == if Get(defs, name).Some? then Get(defs, name) else FirstNamed(HeldFiles(files, scope), name)
    decreases |files|
  {
    if files != [] {
      var f, rest := files[0], files[1..];
      if f.parsed.Some? {
        var d := Definition(f.parsed.value.0, f.parsed.value.1, scope);
        LoadedFile(if Get(defs, d.name).Some? then defs else defs + [d], rest, scope, name);
        GetAppend(defs, d, name);
        GetOne(d, name);
        FirstConcat([Held(f.stem, d)], HeldFiles(rest, scope), name);
        FirstOfOne(Held(f.stem, d), name);
      } else {
        LoadedFile(defs, rest, scope, name);
        assert [] + HeldFiles(rest, scope) == HeldFiles(rest, scope);
      }
    }
  }

  lemma {:induction false} LoadedDirs(defs: seq<Definition>, dirs: seq<Directory>, name: string)
    ensures Get(LoadDirs(defs, dirs), name)
         == if Get(defs, name).Some? then Get(defs, name) else FirstNamed(HeldDirs(dirs), name)
    decreases |dirs|
  {
    if dirs != [] {
      LoadedFile(defs, dirs[0].files, dirs[0].scope, name);
      LoadedDirs(LoadFiles(defs, dirs[0].files, dirs[0].scope), dirs[1..], name);
      FirstConcat(HeldFiles(dirs[0].files, dirs[0].scope), HeldDirs(dirs[1..]), name);
    }
  }

  /** Discovery holds, for each name, the first file whose definition carries it, whatever the files are called. */
  lemma DiscoveryIsFirstNamed(disk: Disk, name: string)
    ensures Get(Discovered(disk), name) == FirstNamed(HeldBy(disk), name)
  {
    LoadedDirs([], disk.project, name);
    LoadedDirs(LoadDirs([], disk.project), disk.home, name);
    FirstConcat(HeldDirs(disk.project), HeldDirs(disk.home), name);
  }

  /** What the directories hold under that file name, the first of them first. */
  function ByStem(disk: Disk, name: string): Option<Definition> {
    if LookupDirs(disk.project, name).Some? then LookupDirs(disk.project, name) else LookupDirs(disk.home, name)
  }

  lemma ByStemIsFirstFiled(disk: Disk, name: string)
    requires ValidDisk(disk)
    ensures ByStem(disk, name) == FirstFiled(HeldBy(disk), name)
    ensures LookupDirs(disk.project, name) == FirstFiled(HeldDirs(disk.project), name)
  {
    hide DistinctStems;
    SearchIsFirstFiled(disk.project, name);
    SearchIsFirstFiled(disk.home, name);
    FirstConcat(HeldDirs(disk.project), HeldDirs(disk.home), name);
  }

  ghost predicate AgreeOn(held: seq<Held>, name: string) {
    forall i :: 0 <= i < |held| ==> (held[i].stem == name <==> held[i].def.name == name)
  }

  lemma {:induction false} AgreeingFirst(held: seq<Held>, name: string)
    requires AgreeOn(held, name)
    ensures FirstFiled(held, name) == FirstNamed(held, name)
  {
    if held != [] { AgreeingFirst(held[1..], name); }
  }

  lemma {:induction false} FiledFilesAgree(files: seq<File>, scope: Scope, name: string)
    requires FiledUnder(files, name)
    ensures AgreeOn(HeldFiles(files, scope), name)
  {
    if files != [] { FiledFilesAgree(files[1..], scope, name); }
  }

  lemma {:induction false} FiledDirsAgree(dirs: seq<Directory>, name: string)
    requires forall d | d in dirs :: FiledUnder(d.files, name)
    ensures AgreeOn(HeldDirs(dirs), name)
  {
    hide FiledUnder;
    if dirs != [] {
      assert dirs[0] in dirs;
      FiledFilesAgree(dirs[0].files, dirs[0].scope, name);
      FiledDirsAgree(dirs[1..], name);
    }
  }

  /** Discovery finds, for each name that files agree on, what searching the directories in order finds. */
  lemma DiscoveryIsFirstMatch(disk: Disk, name: string)
    requires ValidDisk(disk) && Filed(disk, name)
    ensures Get(Discovered(disk), name) == ByStem(disk, name)
    ensures FirstFiled(HeldBy(disk), name) == FirstNamed(HeldBy(disk), name)
  {
    hide DistinctStems, FiledUnder;
    DiscoveryIsFirstNamed(disk, name);
    ByStemIsFirstFiled(disk, name);
    FiledDirsAgree(disk.project, name);
    FiledDirsAgree(disk.home, name);
    AgreeingFirst(HeldBy(disk), name);
  }

  // ----- names and scopes of what is discovered

  lemma {:induction false} LoadFilesScopes(defs: seq<Definition>, files: seq<File>, scope: Scope)
    requires scope != BuiltIn && forall d | d in defs :: d.scope != BuiltIn
    ensures forall d | d in LoadFiles(defs, files, scope) :: d.scope != BuiltIn
    decreases |files|
  {
    if files != [] {
      var next := match files[0].parsed
        case Some(p) => if Get(defs, p.0).Some? then defs else defs + [Definition(p.0, p.1, scope)]
        case None => defs;
      LoadFilesScopes(next, files[1..], scope);
    }
  }

  lemma {:induction false} LoadDirsScopes(defs: seq<Definition>, dirs: seq<Directory>)
    requires forall d | d in defs :: d.scope != BuiltIn
    requires forall dir | dir in dirs :: dir.scope != BuiltIn
    ensures forall d | d in LoadDirs(defs, dirs) :: d.scope != BuiltIn
    decreases |dirs|
  {
    if dirs != [] {
      assert dirs[0] in dirs;
      LoadFilesScopes(defs, dirs[0].files, dirs[0].scope);
      LoadDirsScopes(LoadFiles(defs, dirs[0].files, dirs[0].scope), dirs[1..]);
    }
  }

  lemma DiscoveredScopes(disk: Disk)
    requires ValidDisk(disk)
    ensures forall d | d in Discovered(disk) :: d.scope != BuiltIn
  {
    hide DistinctStems;
    LoadDirsScopes([], disk.project);
    LoadDirsScopes(LoadDirs([], disk.project), disk.home);
  }

  ghost predicate DistinctNames(defs: seq<Definition>) {
    forall i, j :: 0 <= i < j < |defs| ==> defs[i].name != defs[j].name
  }

  lemma {:induction false} LoadFilesDistinct(defs: seq<Definition>, files: seq<File>, scope: Scope)
    requires DistinctNames(defs)
    ensures DistinctNames(LoadFiles(defs, files, scope))
    decreases |files|
  {
    if files != [] {
      var next := match files[0].parsed
        case Some(p) => if Get(defs, p.0).Some? then defs else defs + [Definition(p.0, p.1, scope)]
        case None => defs;
      if next != defs {
        forall i, j | 0 <= i < j < |next| ensures next[i].name != next[j].name {
          assert defs[i] in defs;
          assert j < |defs| ==> defs[j] in defs;
        }
      }
      LoadFilesDistinct(next, files[1..], scope);
    }
  }

  lemma {:induction false} LoadDirsDistinct(defs: seq<Definition>, dirs: seq<Directory>)
    requires DistinctNames(defs)
    ensures DistinctNames(LoadDirs(defs, dirs))
    decreases |dirs|
  {
    if dirs != [] {
      LoadFilesDistinct(defs, dirs[0].files, dirs[0].scope);
      LoadDirsDistinct(LoadFiles(defs, dirs[0].files, dirs[0].scope), dirs[1..]);
    }
  }

  lemma DiscoveredDistinct(disk: Disk)
    ensures DistinctNames(Discovered(disk))
  {
    LoadDirsDistinct([], disk.project);
    LoadDirsDistinct(LoadDirs([], disk.project), disk.home);
  }

  // ----- the order of what is discovered

  /** The first definition of each name, in the order of the files. */
  function FirstOnes(held: seq<Held>): seq<Definition> {
    if held == [] then []
    else
      var before, d := FirstOnes(held[..|held| - 1]), held[|held| - 1].def;
      if Get(before, d.name).Some? then before else before + [d]
  }

  lemma FirstOnesStep(held: seq<Held>, h: Held)
    ensures FirstOnes(held + [h]) ==
            if Get(FirstOnes(held), h.def.name).Some? then FirstOnes(held) else FirstOnes(held) + [h.def]
  {
    assert (held + [h])[..|held|] == held && (held + [h])[|held|] == h;
  }

  lemma {:induction false} LoadFilesIs(held: seq<Held>, files: seq<File>, scope: Scope)
    ensures LoadFiles(FirstOnes(held), files, scope) == FirstOnes(held + HeldFiles(files, scope))
    decreases |files|
  {
    hide FirstOnes;
    if files == [] {
      assert held + [] == held;
    } else {
      var rest := HeldFiles(files[1..], scope);
      match files[0].parsed
      case Some(p) =>
        var h := Held(files[0].stem, Definition(p.0, p.1, scope));
        FirstOnesStep(held, h);
        LoadFilesIs(held + [h], files[1..], scope);
        assert held + ([h] + rest) == held + [h] + rest;
      case None =>
        LoadFilesIs(held, files[1..], scope);
        assert [] + rest == rest;
    }
  }

  lemma {:induction false} LoadDirsIs(held: seq<Held>, dirs: seq<Directory>)
    ensures LoadDirs(FirstOnes(held), dirs) == FirstOnes(held + HeldDirs(dirs))
    decreases |dirs|
  {
    hide FirstOnes, LoadFiles, HeldFiles;
    if dirs == [] {
      assert held + [] == held;
    } else {
      var files := HeldFiles(dirs[0].files, dirs[0].scope);
      LoadFilesIs(held, dirs[0].files, dirs[0].scope);
      LoadDirsIs(held + files, dirs[1..]);
      assert held + (files + HeldDirs(dirs[1..])) == held + files + HeldDirs(dirs[1..]);
    }
  }

  /** No file before the one at `k` carries the same name. */
  ghost predicate IsFirst(held: seq<Held>, k: nat)
    requires k < |held|
  {
    forall j :: 0 <= j < k ==> held[j].def.name != held[k].def.name
  }

  ghost predicate FirstOnesAt(held: seq<Held>, defs: seq<Definition>, at: seq<nat>) {
    && Increasing(at, |held|) && |defs| == |at|
    && (forall k: nat :: k < |held| ==> (k in at <==> IsFirst(held, k)))
    && forall i :: 0 <= i < |at| ==> defs[i] == held[at[i]].def
  }

  lemma {:induction false} CarriedIff(held: seq<Held>, name: string)
    ensures Get(FirstOnes(held), name).Some? <==> exists j :: 0 <= j < |held| && held[j].def.name == name
  {
    if held != [] {
      var n := |held| - 1;
      CarriedIff(held[..n], name);
      var d := held[n].def;
      GetAppend(FirstOnes(held[..n]), d, name);
      GetOne(d, name);
      assert forall j :: 0 <= j < n ==> held[..n][j] == held[j];
      if Get(FirstOnes(held[..n]), name).Some? {
        var j :| 0 <= j < n && held[..n][j].def.name == name;
        assert held[j].def.name == name;
      }
    }
  }

  lemma FirstOnesAtStep(held: seq<Held>, h: Held, defs: seq<Definition>, at: seq<nat>)
    requires FirstOnesAt(held, defs, at)
    ensures if exists j :: 0 <= j < |held| && held[j].def.name == h.def.name then FirstOnesAt(held + [h], defs, at)
            else FirstOnesAt(held + [h], defs + [h.def], at + [|held|])
  {
    var all, n := held + [h], |held|;
    Appended(at, n);
    assert all[n] == h && forall k :: 0 <= k < n ==> all[k] == held[k];
    forall k: nat | k < n ensures IsFirst(all, k) <==> IsFirst(held, k) {}
  }

  lemma {:induction false} FirstOnesByPosition(held: seq<Held>) returns (at: seq<nat>)
    ensures FirstOnesAt(held, FirstOnes(held), at)
  {
    hide FirstOnesAt;
    if held == [] {
      at := [];
      NoFirstOnes();
    } else {
      var n := |held| - 1;
      var before, h := held[..n], held[n];
      at := FirstOnesByPosition(before);
      CarriedIff(before, h.def.name);
      FirstOnesAtStep(before, h, FirstOnes(before), at);
      assert before + [h] == held;
      at := if Get(FirstOnes(before), h.def.name).Some? then at else at + [n];
    }
  }

  lemma NoFirstOnes()
    ensures FirstOnesAt([], [], [])
  {
  }

  /** Discovery lists, in the order the directories are searched, each file that parses and is the first to carry its name. */
  lemma DiscoveredByPosition(disk: Disk) returns (at: seq<nat>)
    ensures FirstOnesAt(HeldBy(disk), Discovered(disk), at)
  {
    hide FirstOnesAt, LoadDirs, HeldDirs;
    LoadDirsIs([], disk.project);
    LoadDirsIs(HeldDirs(disk.project), disk.home);
    assert [] + HeldDirs(disk.project) == HeldDirs(disk.project);
    at := FirstOnesByPosition(HeldBy(disk));
  }
}
