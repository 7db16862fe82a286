/** The list of subagents shown to the model, and its agreement with what a name resolves to. */
module Subagents {
  import opened Wrappers
  import opened Agents
  import opened Positions

  datatype Source = FromBuiltin(builtin: BuiltinName) | UserDefined(scope: Scope)

  datatype Entry = Entry(name: string, description: string, source: Source, shadows: Option<BuiltinName>)

  function Priority(scope: Scope): nat {
    match scope case Project => 3 case User => 2 case Bundled => 1 case BuiltIn => 0
  }

  function BuiltinEntry(b: BuiltinName, describe: BuiltinName -> string): Entry {
    Entry(NameOf(b), describe(b), FromBuiltin(b), None)
  }

  function Seeds(describe: BuiltinName -> string): (r: seq<Entry>)
    ensures |r| == |SUBAGENTS|
  {
    seq(|SUBAGENTS|, i requires 0 <= i < |SUBAGENTS| => BuiltinEntry(SUBAGENTS[i], describe))
  }

  function PositionOf(entries: seq<Entry>, name: string): (r: Option<nat>)
    ensures r.Some? ==> r.value < |entries| && entries[r.value].name == name
    ensures r.Some? ==> forall j :: 0 <= j < r.value ==> entries[j].name != name
    ensures r.None? ==> forall j :: 0 <= j < |entries| ==> entries[j].name != name
  {
    if entries == [] then None
    else if entries[0].name == name then Some(0)
    else match PositionOf(entries[1..], name) case Some(p) => Some(p + 1) case None => None
  }

  /** Which discovered definitions may be listed: only project ones under a subagent built-in's name. */
  predicate Eligible(def: Definition) {
    def.scope != BuiltIn && (IsSubagentName(def.name) ==> def.scope == Project)
  }

  predicate Outranks(scope: Scope, source: Source) {
    source.UserDefined? ==> Priority(scope) > Priority(source.scope)
  }

  function EntryFor(def: Definition, shadows: Option<BuiltinName>): Entry {
    Entry(def.name, def.description, UserDefined(def.scope), shadows)
  }

  /** The subagent built-in of that name, if there is one. */
  function ShadowOf(name: string): Option<BuiltinName> {
    if IsSubagentName(name) then FromStr(name) else None
  }

  function MergeOne(entries: seq<Entry>, def: Definition): seq<Entry> {
    if !Eligible(def) then entries
    else
      match PositionOf(entries, def.name)
      case Some(p) =>
        if Outranks(def.scope, entries[p].source) then
          entries[p := EntryFor(def, ShadowOf(def.name))]
        else entries
      case None => entries + [EntryFor(def, None)]
  }

  function MergeAll(entries: seq<Entry>, defs: seq<Definition>): seq<Entry> {
    if defs == [] then entries else MergeOne(MergeAll(entries, defs[..|defs| - 1]), defs[|defs| - 1])
  }

  /** The list before the toggle. */
  function Merged(defs: seq<Definition>, describe: BuiltinName -> string): seq<Entry> {
    MergeAll(Seeds(describe), defs)
  }

  predicate IsOn(toggle: map<string, bool>, name: string) {
    name in toggle ==> toggle[name]
  }

  /** An omitted name counts as enabled. */
  function Enabled(entries: seq<Entry>, toggle: map<string, bool>): seq<Entry> {
    if entries == [] then []
    else Enabled(entries[..|entries| - 1], toggle)
         + if IsOn(toggle, entries[|entries| - 1].name) then [entries[|entries| - 1]] else []
  }

  method MergeSubagents(discovered: seq<Definition>, toggle: map<string, bool>, describe: BuiltinName -> string)
    returns (listed: seq<Entry>)
    ensures listed == Enabled(Merged(discovered, describe), toggle)
  {
    hide IsSubagentName, FromStr, Seeds;
    var entries := Seeds(describe);
    for i := 0 to |discovered|
      invariant entries == MergeAll(Seeds(describe), discovered[..i])
    {
      assert discovered[..i + 1][..i] == discovered[..i];
      var def := discovered[i];
      if def.scope == BuiltIn {
        continue;
      }
      var shadows := ShadowOf(def.name);
      if IsSubagentName(def.name) && def.scope != Project {
        continue;
      }
      var pos := PositionOf(entries, def.name);
      if pos.Some? {
        if Outranks(def.scope, entries[pos.value].source) {
          entries := entries[pos.value := EntryFor(def, shadows)];
        }
      } else {
        entries := entries + [EntryFor(def, None)];
      }
    }
    assert discovered[..|discovered|] == discovered;
    listed := FilterByToggle(entries, toggle);
  }

  method FilterByToggle(entries: seq<Entry>, toggle: map<string, bool>) returns (listed: seq<Entry>)
    ensures listed == Enabled(entries, toggle)
  {
    listed := [];
    for i := 0 to |entries|
      invariant listed == Enabled(entries[..i], toggle)
    {
      assert entries[..i + 1][..i] == entries[..i];
      if IsOn(toggle, entries[i].name) {
        listed := listed + [entries[i]];
      }
    }
    assert entries[..|entries|] == entries;
  }

  // ----- what the merge computes, in any order of discovery

  ghost predicate Candidate(defs: seq<Definition>, name: string, i: nat): (r: bool)
    ensures r ==> i < |defs|
  {
    i < |defs| && Eligible(defs[i]) && defs[i].name == name
  }

  /** The first definition among those of highest priority for the name. */
  ghost predicate IsWinner(defs: seq<Definition>, name: string, i: nat): (r: bool)
    ensures r ==> i < |defs|
  {
    && Candidate(defs, name, i)
    && forall j: nat :: Candidate(defs, name, j) ==>
         Priority(defs[j].scope) <= Priority(defs[i].scope)
         && (j < i ==> Priority(defs[j].scope) < Priority(defs[i].scope))
  }

  ghost predicate NoCandidate(defs: seq<Definition>, name: string) {
    forall i: nat :: !Candidate(defs, name, i)
  }

  /** Position `k` holds the winner for its name, or the untouched built-in that was seeded there. */
  ghost predicate EntryIsRight(e: Entry, k: nat, defs: seq<Definition>, describe: BuiltinName -> string) {
    || (k < |SUBAGENTS| && NoCandidate(defs, e.name) && e == BuiltinEntry(SUBAGENTS[k], describe))
    || exists i: nat :: IsWinner(defs, e.name, i)
                        && e.description == defs[i].description && e.source == UserDefined(defs[i].scope)
                        && e.shadows == ShadowOf(e.name)
  }

  function Names(entries: seq<Entry>): (r: seq<string>)
    ensures |r| == |entries| && forall i :: 0 <= i < |entries| ==> r[i] == entries[i].name
  {
    seq(|entries|, i requires 0 <= i < |entries| => entries[i].name)
  }

  /** The names in list order: the seeded ones, then each newly listed one where it is first met. */
  function ListedNames(defs: seq<Definition>, describe: BuiltinName -> string): seq<string> {
    if defs == [] then Names(Seeds(describe))
    else
      var before, last := ListedNames(defs[..|defs| - 1], describe), defs[|defs| - 1];
      if Eligible(last) && last.name !in before then before + [last.name] else before
  }

  ghost predicate DistinctEntries(entries: seq<Entry>) {
    forall i, j :: 0 <= i < j < |entries| ==> entries[i].name != entries[j].name
  }

  ghost predicate MergeIsRight(es: seq<Entry>, defs: seq<Definition>, describe: BuiltinName -> string) {
    && Names(es) == ListedNames(defs, describe)
    && Names(Seeds(describe)) <= Names(es)
    && DistinctEntries(es)
    && forall k :: 0 <= k < |es| ==> EntryIsRight(es[k], k, defs, describe)
  }

  lemma CandidateStep(defs: seq<Definition>, d: Definition, name: string, i: nat)
    ensures Candidate(defs + [d], name, i) <==>
            Candidate(defs, name, i) || (i == |defs| && Eligible(d) && d.name == name)
  {
  }

  lemma NoCandidateStep(defs: seq<Definition>, d: Definition, name: string)
    requires NoCandidate(defs, name) && !(Eligible(d) && d.name == name)
    ensures NoCandidate(defs + [d], name)
  {
    hide Eligible, Candidate;
    forall i: nat ensures !Candidate(defs + [d], name, i) { CandidateStep(defs, d, name, i); }
  }

  lemma WinnerStays(defs: seq<Definition>, d: Definition, name: string, i: nat)
    requires IsWinner(defs, name, i)
    requires Eligible(d) && d.name == name ==> Priority(d.scope) <= Priority(defs[i].scope)
    ensures IsWinner(defs + [d], name, i) && (defs + [d])[i] == defs[i]
  {
  }

  lemma NewWinner(defs: seq<Definition>, d: Definition)
    requires Eligible(d)
    requires forall j: nat :: Candidate(defs, d.name, j) ==> j < |defs| && Priority(defs[j].scope) < Priority(d.scope)
    ensures IsWinner(defs + [d], d.name, |defs|) && (defs + [d])[|defs|] == d
  {
  }

  /** An entry that the new definition leaves in place is still right. */
  lemma EntryStays(e: Entry, k: nat, defs: seq<Definition>, d: Definition, describe: BuiltinName -> string)
    requires EntryIsRight(e, k, defs, describe)
    requires Eligible(d) && e.name == d.name ==> !Outranks(d.scope, e.source)
    ensures EntryIsRight(e, k, defs + [d], describe)
  {
    hide Eligible, IsWinner, NoCandidate;
    if i: nat :| IsWinner(defs, e.name, i) && e.description == defs[i].description
                 && e.source == UserDefined(defs[i].scope) && e.shadows == ShadowOf(e.name) {
      WinnerStays(defs, d, e.name, i);
    } else {
      NoCandidateStep(defs, d, e.name);
    }
  }

  /** An entry that the new definition replaces is right for it. */
  lemma EntryReplaced(e: Entry, k: nat, defs: seq<Definition>, d: Definition, describe: BuiltinName -> string)
    requires EntryIsRight(e, k, defs, describe) && Eligible(d) && e.name == d.name && Outranks(d.scope, e.source)
    ensures EntryIsRight(EntryFor(d, ShadowOf(d.name)), k, defs + [d], describe)
  {
    hide Eligible, Candidate;
    forall j: nat | Candidate(defs, d.name, j) ensures j < |defs| && Priority(defs[j].scope) < Priority(d.scope) {
    }
    NewWinner(defs, d);
  }

  lemma EntryAdded(k: nat, defs: seq<Definition>, d: Definition, describe: BuiltinName -> string)
    requires Eligible(d) && NoCandidate(defs, d.name) && !IsSubagentName(d.name)
    ensures EntryIsRight(EntryFor(d, None), k, defs + [d], describe)
  {
    hide Eligible, Candidate;
    NewWinner(defs, d);
  }

  /** Every candidate's name is listed. */
  lemma {:induction false} CandidatesAreListed(defs: seq<Definition>, describe: BuiltinName -> string, name: string, i: nat)
    requires Candidate(defs, name, i)
    ensures name in ListedNames(defs, describe)
  {
    hide Eligible, Seeds;
    var n := |defs| - 1;
    if i < n {
      assert defs[..n][i] == defs[i];
      CandidatesAreListed(defs[..n], describe, name, i);
    }
  }

  lemma MergeStep(es: seq<Entry>, defs: seq<Definition>, d: Definition, describe: BuiltinName -> string)
    requires MergeIsRight(es, defs, describe)
    ensures MergeIsRight(MergeOne(es, d), defs + [d], describe)
  {
    hide Eligible, EntryIsRight, Outranks, IsSubagentName, FromStr, Seeds, ShadowOf;
    var r := MergeOne(es, d);
    assert (defs + [d])[..|defs|] == defs;
    NameListed(es, d.name);
    var pos := PositionOf(es, d.name);
    forall k | 0 <= k < |r| ensures EntryIsRight(r[k], k, defs + [d], describe) {
      if Eligible(d) && pos == None && k == |es| {
        if IsSubagentName(d.name) { SeedsAreListed(defs, describe, d.name); }
        if i: nat :| Candidate(defs, d.name, i) { CandidatesAreListed(defs, describe, d.name, i); }
        EntryAdded(k, defs, d, describe);
      } else if Eligible(d) && pos == Some(k) && Outranks(d.scope, es[k].source) {
        EntryReplaced(es[k], k, defs, d, describe);
      } else {
        EntryStays(es[k], k, defs, d, describe);
      }
    }
  }

  lemma NameListed(es: seq<Entry>, name: string)
    ensures name in Names(es) <==> PositionOf(es, name).Some?
  {
  }

  lemma SeedsAreRight(describe: BuiltinName -> string)
    ensures MergeIsRight(Seeds(describe), [], describe)
  {
    var es := Seeds(describe);
    forall i, j | 0 <= i < j < |es| ensures es[i].name != es[j].name {
      if NameOf(SUBAGENTS[i]) == NameOf(SUBAGENTS[j]) { NamesAreDistinct(SUBAGENTS[i], SUBAGENTS[j]); }
    }
  }

  /**
   For any definitions in any order the list has distinct names, the built-ins in
   their fixed slots and new names in order of discovery, and gives each name the first
   definition of highest priority; only a project definition replaces a built-in.
   */
  lemma {:induction false} MergeIsCorrect(defs: seq<Definition>, describe: BuiltinName -> string)
    ensures MergeIsRight(Merged(defs, describe), defs, describe)
  {
    hide MergeIsRight, MergeOne, Seeds;
    if defs == [] {
      SeedsAreRight(describe);
    } else {
      var n := |defs| - 1;
      MergeIsCorrect(defs[..n], describe);
      MergeStep(Merged(defs[..n], describe), defs[..n], defs[n], describe);
      assert defs[..n] + [defs[n]] == defs;
    }
  }

  /** `at` are the positions of all entries but those the toggle names and sets to false, in order. */
  ghost predicate IsFilter(entries: seq<Entry>, toggle: map<string, bool>, listed: seq<Entry>, at: seq<nat>) {
    && Increasing(at, |entries|) && |at| == |listed|
    && (forall i :: 0 <= i < |at| ==> listed[i] == entries[at[i]])
    && forall k: nat :: k < |entries| ==> (k !in at <==> entries[k].name in toggle && !toggle[entries[k].name])
  }

  /** The toggle only removes: what is listed is what was merged and is not switched off, in the merged order. */
  lemma {:induction false} ToggleOnlyRemoves(entries: seq<Entry>, toggle: map<string, bool>) returns (at: seq<nat>)
    ensures IsFilter(entries, toggle, Enabled(entries, toggle), at)
  {
    hide IsOn, IsFilter, Enabled;
    if entries == [] {
      at := [];
      NothingToFilter(toggle);
    } else {
      var n := |entries| - 1;
      var front, e := entries[..n], entries[n];
      assert front + [e] == entries;
      at := ToggleOnlyRemoves(front, toggle);
      EnabledStep(front, e, toggle);
      FilterStep(front, e, toggle, Enabled(front, toggle), at);
      if IsOn(toggle, e.name) { at := at + [n]; }
    }
  }

  lemma EnabledStep(front: seq<Entry>, e: Entry, toggle: map<string, bool>)
    ensures Enabled(front + [e], toggle) == Enabled(front, toggle) + if IsOn(toggle, e.name) then [e] else []
  {
    hide IsOn;
    assert (front + [e])[..|front|] == front;
  }

  lemma NothingToFilter(toggle: map<string, bool>)
    ensures IsFilter([], toggle, Enabled([], toggle), [])
  {
  }

  lemma FilterStep(entries: seq<Entry>, e: Entry, toggle: map<string, bool>, listed: seq<Entry>, at: seq<nat>)
    requires IsFilter(entries, toggle, listed, at)
    ensures if IsOn(toggle, e.name) then IsFilter(entries + [e], toggle, listed + [e], at + [|entries|])
            else IsFilter(entries + [e], toggle, listed + [], at)
  {
    var all := entries + [e];
    Appended(at, |entries|);
    assert forall k :: 0 <= k < |entries| ==> all[k] == entries[k];
  }

  /** A name the toggle omits is enabled: the empty toggle lists everything. */
  lemma {:induction false} OmittedIsEnabled(entries: seq<Entry>)
    ensures Enabled(entries, map[]) == entries
  {
    if entries != [] { OmittedIsEnabled(entries[..|entries| - 1]); }
  }

  // ----- the merge by scopes

  function FirstOf(defs: seq<Definition>, name: string, scope: Scope): Option<Definition> {
    if defs == [] then None
    else if defs[0].name == name && defs[0].scope == scope then Some(defs[0])
    else FirstOf(defs[1..], name, scope)
  }

  lemma {:induction false} FirstOfIs(defs: seq<Definition>, name: string, scope: Scope, i: nat)
    requires i < |defs| && defs[i].name == name && defs[i].scope == scope
    requires forall j :: 0 <= j < i ==> !(defs[j].name == name && defs[j].scope == scope)
    ensures FirstOf(defs, name, scope) == Some(defs[i])
  {
    if i > 0 { FirstOfIs(defs[1..], name, scope, i - 1); }
  }

  lemma {:induction false} FirstOfNone(defs: seq<Definition>, name: string, scope: Scope)
    requires forall j :: 0 <= j < |defs| ==> !(defs[j].name == name && defs[j].scope == scope)
    ensures FirstOf(defs, name, scope) == None
  {
    if defs != [] { FirstOfNone(defs[1..], name, scope); }
  }

  /** What the list shows under a name, by scopes alone. */
  function Shown(defs: seq<Definition>, name: string, describe: BuiltinName -> string): Option<Entry> {
    var project, user, bundled := FirstOf(defs, name, Project), FirstOf(defs, name, User), FirstOf(defs, name, Bundled);
    if IsSubagentName(name) then
      var b := FromStr(name).value;
      match project
      case Some(d) => Some(Entry(name, d.description, UserDefined(Project), Some(b)))
      case None => Some(Entry(name, describe(b), FromBuiltin(b), None))
    else
      match (project, user, bundled)
      case (Some(d), _, _) => Some(Entry(name, d.description, UserDefined(Project), None))
      case (None, Some(d), _) => Some(Entry(name, d.description, UserDefined(User), None))
      case (None, None, Some(d)) => Some(Entry(name, d.description, UserDefined(Bundled), None))
      case (None, None, None) => None
  }

  lemma NoCandidateOf(defs: seq<Definition>, name: string, scope: Scope)
    requires scope != BuiltIn && (IsSubagentName(name) ==> scope == Project)
    requires forall i: nat :: Candidate(defs, name, i) ==> defs[i].scope != scope
    ensures FirstOf(defs, name, scope) == None
  {
    hide IsSubagentName;
    forall j | 0 <= j < |defs| ensures !(defs[j].name == name && defs[j].scope == scope) {
      assert Candidate(defs, name, j) == (Eligible(defs[j]) && defs[j].name == name);
    }
    FirstOfNone(defs, name, scope);
  }

  lemma WinnerOf(defs: seq<Definition>, name: string, i: nat)
    requires IsWinner(defs, name, i)
    ensures i < |defs| && FirstOf(defs, name, defs[i].scope) == Some(defs[i]) && defs[i].scope != BuiltIn
    ensures IsSubagentName(name) ==> defs[i].scope == Project
    ensures !IsSubagentName(name) && defs[i].scope != Project ==> FirstOf(defs, name, Project) == None
    ensures !IsSubagentName(name) && defs[i].scope == Bundled ==> FirstOf(defs, name, User) == None
  {
    hide IsSubagentName, FirstOf;
    var scope := defs[i].scope;
    forall j | 0 <= j < i ensures !(defs[j].name == name && defs[j].scope == scope) {
      assert Candidate(defs, name, j) == (Eligible(defs[j]) && defs[j].name == name);
    }
    FirstOfIs(defs, name, scope, i);
    if !IsSubagentName(name) && scope != Project { NoCandidateOf(defs, name, Project); }
    if !IsSubagentName(name) && scope == Bundled { NoCandidateOf(defs, name, User); }
  }

  /**
   Under every listed name stands the first project definition, else the built-in of that
   name if it is a subagent, else the first user definition, else the first bundled one.
   */
  lemma ListedByScope(defs: seq<Definition>, describe: BuiltinName -> string, k: nat)
    requires k < |Merged(defs, describe)|
    ensures var e := Merged(defs, describe)[k]; Shown(defs, e.name, describe) == Some(e)
  {
    hide Merged, FromStr, IsWinner, NoCandidate, NameOf, FirstOf;
    var e := Merged(defs, describe)[k];
    MergeIsCorrect(defs, describe);
    assert EntryIsRight(e, k, defs, describe);
    if i: nat :| IsWinner(defs, e.name, i) && e.description == defs[i].description
                 && e.source == UserDefined(defs[i].scope) && e.shadows == ShadowOf(e.name) {
      WinnerOf(defs, e.name, i);
      WinnerNamed(defs, e.name, i);
    } else {
      var b := SUBAGENTS[k];
      FromStrOfName(b);
      NoProjectCandidate(defs, e.name);
    }
  }

  lemma WinnerNamed(defs: seq<Definition>, name: string, i: nat)
    requires IsWinner(defs, name, i)
    ensures i < |defs| && defs[i].name == name
  {
  }

  lemma NoProjectCandidate(defs: seq<Definition>, name: string)
    requires NoCandidate(defs, name)
    ensures FirstOf(defs, name, Project) == None
  {
    hide FirstOf;
    NoCandidateOf(defs, name, Project);
  }

  /** Exactly the subagent built-ins and the names of definitions that are no built-ins are listed. */
  lemma ListedIff(defs: seq<Definition>, describe: BuiltinName -> string, name: string)
    ensures name in Names(Merged(defs, describe)) <==>
            IsSubagentName(name) || exists i :: 0 <= i < |defs| && defs[i].name == name && defs[i].scope != BuiltIn
  {
    hide Merged, IsSubagentName, EntryIsRight;
    var es := Merged(defs, describe);
    MergeIsCorrect(defs, describe);
    if IsSubagentName(name) {
      SeedsAreListed(defs, describe, name);
    } else if i :| 0 <= i < |defs| && defs[i].name == name && defs[i].scope != BuiltIn {
      assert Candidate(defs, name, i);
      CandidatesAreListed(defs, describe, name, i);
    } else if name in Names(es) {
      var k :| 0 <= k < |es| && es[k].name == name;
      ListedMeans(defs, describe, k);
    }
  }

  lemma ListedMeans(defs: seq<Definition>, describe: BuiltinName -> string, k: nat)
    requires k < |Merged(defs, describe)|
    ensures var name := Merged(defs, describe)[k].name;
            IsSubagentName(name) || exists i :: 0 <= i < |defs| && defs[i].name == name && defs[i].scope != BuiltIn
  {
    hide Merged, FromStr, IsWinner, NoCandidate, NameOf, IsSubagentName;
    var e := Merged(defs, describe)[k];
    MergeIsCorrect(defs, describe);
    assert EntryIsRight(e, k, defs, describe);
    if i: nat :| IsWinner(defs, e.name, i) && e.description == defs[i].description
                 && e.source == UserDefined(defs[i].scope) && e.shadows == ShadowOf(e.name) {
      WinnerNamed(defs, e.name, i);
      WinnerOf(defs, e.name, i);
    } else {
      SeedIsSubagent(k);
    }
  }

  lemma SeedIsSubagent(k: nat)
    requires k < |SUBAGENTS|
    ensures IsSubagentName(NameOf(SUBAGENTS[k]))
  {
    hide NameOf;
    FromStrOfName(SUBAGENTS[k]);
  }

  /** Where a name first appears among the definitions that may be listed. */
  function FirstAt(defs: seq<Definition>, name: string): (n: nat)
    ensures n <= |defs| && (n < |defs| ==> defs[n].name == name && defs[n].scope != BuiltIn)
    ensures forall i :: 0 <= i < n ==> !(defs[i].name == name && defs[i].scope != BuiltIn)
  {
    if defs == [] then 0
    else if defs[0].name == name && defs[0].scope != BuiltIn then 0
    else 1 + FirstAt(defs[1..], name)
  }

  lemma FirstAtIs(defs: seq<Definition>, name: string, n: nat)
    requires n <= |defs| && (n < |defs| ==> defs[n].name == name && defs[n].scope != BuiltIn)
    requires forall i :: 0 <= i < n ==> !(defs[i].name == name && defs[i].scope != BuiltIn)
    ensures FirstAt(defs, name) == n
  {
    hide FirstAt;
    var m := FirstAt(defs, name);
    assert m < |defs| ==> defs[m].name == name && defs[m].scope != BuiltIn;
  }

  lemma FirstAtExtends(defs: seq<Definition>, d: Definition, name: string)
    ensures FirstAt(defs + [d], name) ==
            if FirstAt(defs, name) < |defs| then FirstAt(defs, name)
            else if d.name == name && d.scope != BuiltIn then |defs| else |defs| + 1
  {
    hide FirstAt;
    var n, all := FirstAt(defs, name), defs + [d];
    assert all[|defs|] == d && forall i :: 0 <= i < |defs| ==> all[i] == defs[i];
    FirstAtIs(all, name, if n < |defs| then n else if d.name == name && d.scope != BuiltIn then |defs| else |defs| + 1);
  }

  /** The same, as a mere number. */
  function Rank(defs: seq<Definition>, name: string): nat { FirstAt(defs, name) }

  lemma RankExtends(defs: seq<Definition>, d: Definition, name: string)
    ensures Rank(defs + [d], name) ==
            if Rank(defs, name) < |defs| then Rank(defs, name)
            else if d.name == name && d.scope != BuiltIn then |defs| else |defs| + 1
  {
    hide FirstAt;
    FirstAtExtends(defs, d, name);
  }

  ghost predicate InOrder(names: seq<string>, defs: seq<Definition>) {
    && (forall i :: |SUBAGENTS| <= i < |names| ==> Rank(defs, names[i]) < |defs| && !IsSubagentName(names[i]))
    && forall i, j :: |SUBAGENTS| <= i < j < |names| ==> Rank(defs, names[i]) < Rank(defs, names[j])
  }

  lemma InOrderStays(names: seq<string>, defs: seq<Definition>, d: Definition)
    requires InOrder(names, defs)
    ensures InOrder(names, defs + [d])
    ensures forall i :: |SUBAGENTS| <= i < |names| ==> Rank(defs + [d], names[i]) < |defs|
  {
    hide Rank, IsSubagentName;
    forall i | |SUBAGENTS| <= i < |names| ensures Rank(defs + [d], names[i]) == Rank(defs, names[i]) {
      RankExtends(defs, d, names[i]);
    }
  }

  lemma InOrderAppended(names: seq<string>, defs: seq<Definition>, d: Definition)
    requires InOrder(names, defs) && |names| >= |SUBAGENTS|
    requires d.scope != BuiltIn && !IsSubagentName(d.name) && Rank(defs, d.name) == |defs|
    ensures InOrder(names + [d.name], defs + [d])
  {
    hide Rank, IsSubagentName;
    var all, more := defs + [d], names + [d.name];
    InOrderStays(names, defs, d);
    RankExtends(defs, d, d.name);
    assert more[|names|] == d.name && forall i :: 0 <= i < |names| ==> more[i] == names[i];
  }

  lemma {:induction false} ListedNamesInOrder(defs: seq<Definition>, describe: BuiltinName -> string)
    ensures InOrder(ListedNames(defs, describe), defs) && |ListedNames(defs, describe)| >= |SUBAGENTS|
  {
    hide Rank, IsSubagentName, InOrder;
    if defs == [] {
      SeedsInOrder(describe);
    } else {
      var n := |defs| - 1;
      var before, last := defs[..n], defs[n];
      var names := ListedNames(before, describe);
      ListedNamesInOrder(before, describe);
      assert before + [last] == defs;
      if Eligible(last) && last.name !in names {
        NewNameIsNew(before, last, describe);
        InOrderAppended(names, before, last);
      } else {
        InOrderStays(names, before, last);
      }
    }
  }

  lemma SeedsInOrder(describe: BuiltinName -> string)
    ensures InOrder(Names(Seeds(describe)), []) && |Names(Seeds(describe))| == |SUBAGENTS|
  {
  }

  lemma NewNameIsNew(before: seq<Definition>, last: Definition, describe: BuiltinName -> string)
    requires Eligible(last) && last.name !in ListedNames(before, describe)
    ensures last.scope != BuiltIn && !IsSubagentName(last.name) && Rank(before, last.name) == |before|
  {
    hide FirstAt, IsSubagentName, ListedNames;
    SubagentIsListed(before, describe, last.name);
    EarlierIsListed(before, describe, last.name);
  }

  lemma SubagentIsListed(defs: seq<Definition>, describe: BuiltinName -> string, name: string)
    ensures IsSubagentName(name) ==> name in ListedNames(defs, describe)
  {
    hide IsSubagentName;
    if IsSubagentName(name) { SeedsAreListed(defs, describe, name); }
  }

  lemma EarlierIsListed(defs: seq<Definition>, describe: BuiltinName -> string, name: string)
    ensures !IsSubagentName(name) && Rank(defs, name) < |defs| ==> name in ListedNames(defs, describe)
  {
    hide FirstAt, IsSubagentName;
    var n := FirstAt(defs, name);
    if !IsSubagentName(name) && n < |defs| {
      assert Candidate(defs, name, n);
      CandidatesAreListed(defs, describe, name, n);
    }
  }

  /** Behind the built-in slots the names stand in the order in which they were discovered. */
  lemma ListedInOrder(defs: seq<Definition>, describe: BuiltinName -> string, i: nat, j: nat)
    requires |SUBAGENTS| <= i < j < |Merged(defs, describe)|
    ensures var es := Merged(defs, describe); FirstAt(defs, es[i].name) < FirstAt(defs, es[j].name) < |defs|
  {
    hide Merged, FirstAt, IsSubagentName, EntryIsRight;
    MergeIsCorrect(defs, describe);
    ListedNamesInOrder(defs, describe);
    var es := Merged(defs, describe);
    assert Names(es)[i] == es[i].name && Names(es)[j] == es[j].name;
  }

  // ----- visible equals callable

  /** Resolving the entry's name gives the definition the entry shows. */
  ghost predicate Agrees(e: Entry, resolved: Option<Definition>) {
    && resolved.Some?
    && resolved.value.name == e.name && resolved.value.description == e.description
    && resolved.value.scope == if e.source.FromBuiltin? then BuiltIn else e.source.scope
  }

  /** A user or bundled definition under the name of a built-in that is no subagent. */
  predicate HiddenByBuiltin(e: Entry) {
    e.source.UserDefined? && e.source.scope != Project && FromStr(e.name).Some?
  }

  lemma LookupScopes(disk: Disk, name: string)
    requires ValidDisk(disk)
    ensures LookupDirs(disk.project, name).Some? ==> LookupDirs(disk.project, name).value.scope == Project
    ensures LookupDirs(disk.home, name).Some? ==> LookupDirs(disk.home, name).value.scope in {User, Bundled}
  {
    hide DistinctStems;
  }

  /**
   A listed entry is what its name resolves to: a built-in exactly when no project file
   is filed under its name, any other exactly when it is not hidden behind a built-in
   that is not offered as a subagent and the first file filed under the name holds the
   same definition as the first file that carries it.
   */
  lemma VisibleIsCallableIff(disk: Disk, describe: BuiltinName -> string, k: nat)
    requires ValidDisk(disk) && k < |Merged(Discovered(disk), describe)|
    ensures var e := Merged(Discovered(disk), describe)[k];
            Agrees(e, ByNameInCwd(disk, e.name, describe)) <==>
            if e.source.FromBuiltin? then FirstFiled(HeldDirs(disk.project), e.name).None?
            else !HiddenByBuiltin(e) && FirstFiled(HeldBy(disk), e.name) == FirstNamed(HeldBy(disk), e.name)
  {
    hide Merged, Discovered, LookupDirs, FromStr, IsWinner, NoCandidate, Get, Eligible, NameOf, ValidDisk, HeldBy, HeldDirs,
         FirstFiled, FirstNamed;
    var defs := Discovered(disk);
    var e := Merged(defs, describe)[k];
    MergeIsCorrect(defs, describe);
    assert EntryIsRight(e, k, defs, describe);
    LookupScopes(disk, e.name);
    ByStemIsFirstFiled(disk, e.name);
    DiscoveryIsFirstNamed(disk, e.name);
    if e.source.FromBuiltin? {
      FromStrOfName(SUBAGENTS[k]);
    } else {
      var i: nat :| IsWinner(defs, e.name, i) && e.description == defs[i].description
                    && e.source == UserDefined(defs[i].scope) && e.shadows == ShadowOf(e.name);
      DiscoveredDistinct(disk);
      WinnerIsFound(defs, e.name, i);
    }
  }

  lemma WinnerIsFound(defs: seq<Definition>, name: string, i: nat)
    requires DistinctNames(defs) && IsWinner(defs, name, i)
    ensures i < |defs| && Get(defs, name) == Some(defs[i]) && defs[i].name == name && defs[i].scope != BuiltIn
  {
  }

  /** Where files and definitions agree on the entry's name, only a built-in can hide it. */
  lemma FiledIsCallableIff(disk: Disk, describe: BuiltinName -> string, k: nat)
    requires ValidDisk(disk) && k < |Merged(Discovered(disk), describe)|
    requires Filed(disk, Merged(Discovered(disk), describe)[k].name)
    ensures var e := Merged(Discovered(disk), describe)[k];
            Agrees(e, ByNameInCwd(disk, e.name, describe)) <==> !HiddenByBuiltin(e)
  {
    hide Merged, Discovered, LookupDirs, FromStr, NoCandidate, IsWinner, Get, NameOf, ValidDisk, Filed, Agrees, IsSubagentName,
         HeldBy, HeldDirs, FirstFiled, FirstNamed;
    var defs := Discovered(disk);
    var e := Merged(defs, describe)[k];
    VisibleIsCallableIff(disk, describe, k);
    DiscoveryIsFirstMatch(disk, e.name);
    ByStemIsFirstFiled(disk, e.name);
    if e.source.FromBuiltin? && LookupDirs(disk.project, e.name).Some? {
      MergeIsCorrect(defs, describe);
      assert EntryIsRight(e, k, defs, describe);
      LookupScopes(disk, e.name);
      NoCandidateMeans(defs, e.name);
      assert false;
    }
  }

  lemma NoCandidateMeans(defs: seq<Definition>, name: string)
    requires NoCandidate(defs, name) && Get(defs, name).Some?
    ensures Get(defs, name).value.scope != Project
  {
    var d := Get(defs, name).value;
    var j: nat :| j < |defs| && defs[j] == d;
    assert !Candidate(defs, name, j);
  }

  /** Every subagent built-in and every discovered definition is listed, whatever the files are called. */
  lemma CallableIsVisible(disk: Disk, describe: BuiltinName -> string, name: string)
    requires ValidDisk(disk)
    requires IsSubagentName(name) || Get(Discovered(disk), name).Some?
    ensures exists e :: e in Merged(Discovered(disk), describe) && e.name == name
  {
    hide Merged, Discovered, Get, NameOf, ValidDisk, FromStr;
    var defs := Discovered(disk);
    var es := Merged(defs, describe);
    MergeIsCorrect(defs, describe);
    DiscoveredScopes(disk);
    if IsSubagentName(name) {
      SeedsAreListed(defs, describe, name);
    } else {
      var d := Get(defs, name).value;
      var i: nat :| i < |defs| && defs[i] == d;
      assert Candidate(defs, name, i);
      CandidatesAreListed(defs, describe, name, i);
    }
    NameListed(es, name);
    assert es[PositionOf(es, name).value] in es;
  }

  lemma {:induction false} SeedsAreListed(defs: seq<Definition>, describe: BuiltinName -> string, name: string)
    requires IsSubagentName(name)
    ensures name in ListedNames(defs, describe)
  {
    hide Eligible;
    if defs == [] {
      var b := FromStr(name).value;
      var i :| 0 <= i < |SUBAGENTS| && SUBAGENTS[i] == b;
      assert Names(Seeds(describe))[i] == name;
    } else {
      SeedsAreListed(defs[..|defs| - 1], describe, name);
    }
  }

  /** A user's file named after a top-level profile is listed but does not run: the built-in does. */
  lemma HiddenDefinitionIsListed(describe: BuiltinName -> string)
    ensures var disk := Disk([], [Directory([File("codex", Some(("codex", "mine")))], User)]);
            && ValidDisk(disk) && Filed(disk, "codex")
            && (exists e :: e in Merged(Discovered(disk), describe) && e.name == "codex")
            && ByNameInCwd(disk, "codex", describe) == Some(BuiltinDefinition(Codex, describe))
  {
    var dir := Directory([File("codex", Some(("codex", "mine")))], User);
    var disk := Disk([], [dir]);
    FromStrOfName(Codex);
    hide FromStr, IsSubagentName, Merged;
    DiscoveryIsFirstMatch(disk, "codex");
    CallableIsVisible(disk, describe, "codex");
  }

  lemma NoBuiltinNamed(name: string)
    requires |name| == 3
    ensures FromStr(name) == None
  {
  }

  /** A project file whose definition carries another name is listed under that name, which resolves to nothing. */
  lemma MisnamedFileIsListed(describe: BuiltinName -> string)
    ensures var disk := Disk([Directory([File("foo", Some(("bar", "mine")))], Project)], []);
            && ValidDisk(disk)
            && (exists e :: e in Merged(Discovered(disk), describe) && e.name == "bar")
            && ByNameInCwd(disk, "bar", describe) == None
  {
    var disk := Disk([Directory([File("foo", Some(("bar", "mine")))], Project)], []);
    assert "foo"[0] != "bar"[0];
    MisfiledDisk("foo", "bar", "mine");
    NoBuiltinNamed("bar");
    GetOne(Definition("bar", "mine", Project), "bar");
    hide Merged, ValidDisk, Discovered, Get, LookupDirs;
    CallableIsVisible(disk, describe, "bar");
  }

  lemma MisfiledDisk(stem: string, name: string, text: string)
    requires stem != name
    ensures var disk := Disk([Directory([File(stem, Some((name, text)))], Project)], []);
            && ValidDisk(disk) && Discovered(disk) == [Definition(name, text, Project)]
            && LookupDirs(disk.project, name) == None && LookupDirs(disk.home, name) == None
  {
    var file := File(stem, Some((name, text)));
    var dir := Directory([file], Project);
    assert [file][1..] == [] && [dir][1..] == [] && [] + [Definition(name, text, Project)] == [Definition(name, text, Project)];
    assert LookupFile([file], name, Project) == None;
    var defs := [Definition(name, text, Project)];
    assert LoadFiles([], [file], Project) == defs;
    assert LoadDirs([], [dir]) == LoadDirs(defs, []) == defs;
  }
}
