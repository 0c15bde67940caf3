/** How the worker manager splits the background jobs between dedicated workers and the default one. */
module WorkerPartition {
  import opened Common

  /** Job and lock names, compared as a whole. */
  datatype Text = Text(chars: string)

  /** The characters `trim` removes. */
  predicate IsWhiteSpace(c: char) {
    || '\t' <= c <= '\r' || c == ' ' || c == '\U{00a0}' || c == '\U{1680}' || '\U{2000}' <= c <= '\U{200a}'
    || c == '\U{2028}' || c == '\U{2029}' || c == '\U{202f}' || c == '\U{205f}' || c == '\U{3000}' || c == '\U{feff}'
  }

  predicate IsBlank(name: Text) { forall i :: 0 <= i < |name.chars| ==> IsWhiteSpace(name.chars[i]) }

  // ---------------------------------------------------------------- job name filters

  datatype Error = NotRegistered | DuplicateJob | DuplicateLock | NamesWithoutMode | NoNames

  datatype Result<+T> = Ok(value: T) | Err(error: Error)

  datatype Mode = All | Include | Exclude

  datatype NameFilter = NameFilter(mode: Mode, jobNames: seq<Text>)

  function NonBlank(): Text -> bool { n => !IsBlank(n) }

  function MakeFilter(mode: Mode, jobNames: seq<Text>): Result<NameFilter> {
    var names := Unique(Filter(jobNames, NonBlank()));
    if mode.All? && names != [] then Err(NamesWithoutMode)
    else if !mode.All? && names == [] then Err(NoNames)
    else Ok(NameFilter(mode, names))
  }

  predicate IsMatch(filter: NameFilter, jobName: Text) {
    match filter.mode
    case Include => jobName in filter.jobNames
    case Exclude => jobName !in filter.jobNames
    case All => true
  }

  /** Blank names are dropped, so no filter includes or excludes them. */
  lemma FilterMatches(mode: Mode, jobNames: seq<Text>, name: Text)
    requires MakeFilter(mode, jobNames).Ok? && !mode.All?
    ensures IsMatch(MakeFilter(mode, jobNames).value, name) <==> (mode.Include? <==> name in jobNames && !IsBlank(name))
  {
    UniqueMembers(Filter(jobNames, NonBlank()), name);
    FilterMembers(jobNames, NonBlank());
  }

  lemma FilterNeedsName(mode: Mode, jobNames: seq<Text>)
    ensures MakeFilter(mode, jobNames).Ok? <==> (mode.All? <==> forall name :: name in jobNames ==> IsBlank(name))
  {
    var kept := Filter(jobNames, NonBlank());
    FilterMembers(jobNames, NonBlank());
    if Unique(kept) != [] {
      UniqueMembers(kept, Unique(kept)[0]);
      assert !IsBlank(Unique(kept)[0]);
    } else {
      forall name | name in jobNames ensures IsBlank(name) { UniqueMembers(kept, name); }
    }
  }

  // ---------------------------------------------------------------- creating workers

  /** Job args types are identified by number; the registry knows the job names of the registered ones. */
  datatype Configuration = Configuration(lockName: Text, jobArgsTypes: seq<nat>)
  datatype Options = Options(configurations: seq<Configuration>, distributedLockName: Text, registry: map<nat, Text>)
  datatype Definition = Definition(lockName: Text, jobNames: seq<Text>)
  datatype Worker = Worker(lockName: Text, filter: NameFilter)

  predicate Registered(o: Options, types: seq<nat>) { forall i :: 0 <= i < |types| ==> types[i] in o.registry }

  function RegisteredNames(o: Options, types: seq<nat>): seq<Text>
    requires Registered(o, types)
  {
    if types == [] then [] else RegisteredNames(o, types[..|types| - 1]) + [o.registry[types[|types| - 1]]]
  }

  function NamesOf(o: Options, types: seq<nat>): seq<Text>
    requires Registered(o, types)
  {
    Unique(RegisteredNames(o, types))
  }

  function AllNames(definitions: seq<Definition>): seq<Text> {
    if definitions == [] then []
    else AllNames(definitions[..|definitions| - 1]) + definitions[|definitions| - 1].jobNames
  }

  function LockNames(defaultName: Text, definitions: seq<Definition>): seq<Text> {
    if definitions == [] then [defaultName]
    else LockNames(defaultName, definitions[..|definitions| - 1]) + [definitions[|definitions| - 1].lockName]
  }

  predicate Overlap(a: seq<Text>, b: seq<Text>) {
    a != [] && (a[|a| - 1] in b || Overlap(a[..|a| - 1], b))
  }

  lemma {:induction false} OverlapMeans(a: seq<Text>, b: seq<Text>)
    ensures Overlap(a, b) <==> exists x :: x in a && x in b
  {
    if a != [] {
      var n := |a| - 1;
      assert a == a[..n] + [a[n]];
      OverlapMeans(a[..n], b);
    }
  }

  /** Checks one more configuration against those already accepted. */
  function Accept(o: Options, accepted: seq<Definition>, c: Configuration): Result<seq<Definition>> {
    if !Registered(o, c.jobArgsTypes) then Err(NotRegistered)
    else if Overlap(NamesOf(o, c.jobArgsTypes), AllNames(accepted)) then Err(DuplicateJob)
    else if c.lockName in LockNames(o.distributedLockName, accepted) then Err(DuplicateLock)
    else Ok(accepted + [Definition(c.lockName, NamesOf(o, c.jobArgsTypes))])
  }

  /** The validated definitions of the first `n` configurations, or the first error. */
  function Validated(o: Options, n: nat): Result<seq<Definition>>
    requires n <= |o.configurations|
  {
    if n == 0 then Ok([])
    else
      var before := Validated(o, n - 1);
      if before.Err? then before else Accept(o, before.value, o.configurations[n - 1])
  }

  /** The dedicated workers of these definitions. */
  function Dedicated(definitions: seq<Definition>): Result<seq<Worker>> {
    if definitions == [] then Ok([])
    else
      var n := |definitions| - 1;
      var before := Dedicated(definitions[..n]);
      var filter := MakeFilter(Include, definitions[n].jobNames);
      if before.Err? then before else if filter.Err? then Err(filter.error)
      else Ok(before.value + [Worker(definitions[n].lockName, filter.value)])
  }

  /** The workers of validated definitions: the dedicated ones, and the default worker for everything else. */
  function WorkersFor(o: Options, definitions: seq<Definition>, allNames: seq<Text>): Result<seq<Worker>> {
    var dedicated := Dedicated(definitions);
    var rest := MakeFilter(Exclude, allNames);
    if dedicated.Err? then dedicated else if rest.Err? then Err(rest.error)
    else Ok(dedicated.value + [Worker(o.distributedLockName, rest.value)])
  }

  function Created(o: Options): Result<seq<Worker>> {
    var validated := Validated(o, |o.configurations|);
    if o.configurations == [] then Ok([Worker(o.distributedLockName, NameFilter(All, []))])
    else if validated.Err? then Err(validated.error)
    else WorkersFor(o, validated.value, AllNames(validated.value))
  }

  /** The checks of one more configuration against the names accumulated so far. */
  method Check(o: Options, c: Configuration, ghost accepted: seq<Definition>, allDedicatedJobNames: seq<Text>,
      lockNames: seq<Text>)
    returns (error: Option<Error>, jobNames: seq<Text>)
    requires allDedicatedJobNames == AllNames(accepted) && lockNames == LockNames(o.distributedLockName, accepted)
    ensures Accept(o, accepted, c) == if error.Some? then Err(error.value)
      else Ok(accepted + [Definition(c.lockName, jobNames)])
  {
    if !Registered(o, c.jobArgsTypes) { return Some(NotRegistered), []; }
    jobNames := NamesOf(o, c.jobArgsTypes);
    if Overlap(jobNames, allDedicatedJobNames) { return Some(DuplicateJob), jobNames; }
    if c.lockName in lockNames { return Some(DuplicateLock), jobNames; }
    error := None;
  }

  /** An accepted configuration extends the definitions and both lists of names. */
  lemma Accepted(o: Options, i: nat, accepted: seq<Definition>, d: Definition)
    requires i < |o.configurations| && Validated(o, i) == Ok(accepted)
    requires Accept(o, accepted, o.configurations[i]) == Ok(accepted + [d])
    ensures Validated(o, i + 1) == Ok(accepted + [d])
    ensures AllNames(accepted + [d]) == AllNames(accepted) + d.jobNames
    ensures LockNames(o.distributedLockName, accepted + [d]) ==
      LockNames(o.distributedLockName, accepted) + [d.lockName]
  {
    NamesSnoc(accepted, d, o.distributedLockName);
  }

  lemma Refused(o: Options, i: nat, accepted: seq<Definition>, error: Error)
    requires i < |o.configurations| && Validated(o, i) == Ok(accepted)
    requires Accept(o, accepted, o.configurations[i]) == Err(error)
    ensures Validated(o, |o.configurations|) == Err(error)
  {
    ErrorStays(o, i + 1, |o.configurations|);
  }

  /** The loop over the configurations, with its accumulated names and lock names. */
  method Validate(o: Options) returns (validated: Result<seq<Definition>>, allDedicatedJobNames: seq<Text>)
    ensures validated == Validated(o, |o.configurations|)
    ensures validated.Ok? ==> allDedicatedJobNames == AllNames(validated.value)
  {
    var dedicatedWorkers := [];
    allDedicatedJobNames := [];
    var lockNames := [o.distributedLockName];
    for i := 0 to |o.configurations|
      invariant Validated(o, i) == Ok(dedicatedWorkers)
      invariant allDedicatedJobNames == AllNames(dedicatedWorkers)
      invariant lockNames == LockNames(o.distributedLockName, dedicatedWorkers)
    {
      var c := o.configurations[i];
      var error, jobNames := Check(o, c, dedicatedWorkers, allDedicatedJobNames, lockNames);
      if error.Some? {
        Refused(o, i, dedicatedWorkers, error.value);
        return Err(error.value), [];
      }
      Accepted(o, i, dedicatedWorkers, Definition(c.lockName, jobNames));
      lockNames := lockNames + [c.lockName];
      allDedicatedJobNames := allDedicatedJobNames + jobNames;
      dedicatedWorkers := dedicatedWorkers + [Definition(c.lockName, jobNames)];
    }
    validated := Ok(dedicatedWorkers);
  }

  method CreateWorkers(o: Options) returns (workers: Result<seq<Worker>>)
    ensures workers == Created(o)
  {
    if |o.configurations| == 0 { return Ok([Worker(o.distributedLockName, NameFilter(All, []))]); }
    var validated, allDedicatedJobNames := Validate(o);
    workers := if validated.Err? then Err(validated.error) else WorkersFor(o, validated.value, allDedicatedJobNames);
  }

  lemma {:induction false} ErrorStays(o: Options, m: nat, n: nat)
    requires m <= n <= |o.configurations| && Validated(o, m).Err?
    ensures Validated(o, n) == Validated(o, m)
  {
    if m < n { ErrorStays(o, m, n - 1); }
  }

  // ---------------------------------------------------------------- the partition

  /** How many of the workers match a job name. */
  function MatchCount(workers: seq<Worker>, jobName: Text): nat {
    if workers == [] then 0
    else MatchCount(workers[..|workers| - 1], jobName) + (if IsMatch(workers[|workers| - 1].filter, jobName) then 1
      else 0)
  }

  lemma MatchCountSnoc(workers: seq<Worker>, w: Worker, jobName: Text)
    ensures MatchCount(workers + [w], jobName) ==
      MatchCount(workers, jobName) + (if IsMatch(w.filter, jobName) then 1 else 0)
  {
  }

  lemma NamesSnoc(definitions: seq<Definition>, d: Definition, defaultName: Text)
    ensures AllNames(definitions + [d]) == AllNames(definitions) + d.jobNames
    ensures LockNames(defaultName, definitions + [d]) == LockNames(defaultName, definitions) + [d.lockName]
  {
    assert (definitions + [d])[..|definitions|] == definitions;
  }

  /** Definitions that share neither jobs nor locks. */
  ghost predicate Compatible(defaultName: Text, definitions: seq<Definition>) {
    definitions == [] ||
    (var n := |definitions| - 1;
      && Compatible(defaultName, definitions[..n])
      && !Overlap(definitions[n].jobNames, AllNames(definitions[..n]))
      && definitions[n].lockName !in LockNames(defaultName, definitions[..n]))
  }

  function DefinitionOf(o: Options, c: Configuration): Definition
    requires Registered(o, c.jobArgsTypes)
  {
    Definition(c.lockName, NamesOf(o, c.jobArgsTypes))
  }

  lemma CompatibleSnoc(defaultName: Text, definitions: seq<Definition>, d: Definition)
    ensures Compatible(defaultName, definitions + [d]) <==>
      Compatible(defaultName, definitions) && !Overlap(d.jobNames, AllNames(definitions)) &&
        d.lockName !in LockNames(defaultName, definitions)
  {
  }

  ghost predicate AllRegistered(o: Options, n: nat)
    requires n <= |o.configurations|
  {
    n == 0 || (AllRegistered(o, n - 1) && Registered(o, o.configurations[n - 1].jobArgsTypes))
  }

  ghost function Definitions(o: Options, n: nat): seq<Definition>
    requires n <= |o.configurations| && AllRegistered(o, n)
  {
    if n == 0 then [] else Definitions(o, n - 1) + [DefinitionOf(o, o.configurations[n - 1])]
  }

  /**
   * Validation accepts exactly registered configurations that are pairwise compatible, and resolves their job names.
   */
  lemma {:induction false} ValidatedMeans(o: Options, n: nat)
    requires n <= |o.configurations|
    ensures Validated(o, n).Ok? <==> AllRegistered(o, n) && Compatible(o.distributedLockName, Definitions(o, n))
    ensures Validated(o, n).Ok? ==> Validated(o, n).value == Definitions(o, n)
  {
    if n > 0 {
      ValidatedMeans(o, n - 1);
      if AllRegistered(o, n) {
        CompatibleSnoc(o.distributedLockName, Definitions(o, n - 1), DefinitionOf(o, o.configurations[n - 1]));
      }
    }
  }

  lemma {:induction false} DedicatedMatch(defaultName: Text, d: seq<Definition>, jobName: Text)
    requires Compatible(defaultName, d) && Dedicated(d).Ok?
    ensures MatchCount(Dedicated(d).value, jobName) == if jobName in AllNames(d) && !IsBlank(jobName) then 1 else 0
  {
    if d != [] {
      var n := |d| - 1;
      DedicatedMatch(defaultName, d[..n], jobName);
      FilterMatches(Include, d[n].jobNames, jobName);
      MatchCountSnoc(Dedicated(d[..n]).value, Worker(d[n].lockName, MakeFilter(Include, d[n].jobNames).value), jobName);
      OverlapMeans(d[n].jobNames, AllNames(d[..n]));
    }
  }

  /** Every possible job name, blank ones included, is matched by exactly one of the created workers. */
  lemma ExactlyOneWorker(o: Options, jobName: Text)
    requires Created(o).Ok?
    ensures MatchCount(Created(o).value, jobName) == 1
  {
    var workers := Created(o).value;
    if o.configurations == [] {
      assert workers[..0] == [];
    } else {
      var d := Validated(o, |o.configurations|).value;
      ValidatedMeans(o, |o.configurations|);
      DedicatedMatch(o.distributedLockName, d, jobName);
      FilterMatches(Exclude, AllNames(d), jobName);
      MatchCountSnoc(Dedicated(d).value, workers[|workers| - 1], jobName);
    }
  }

  predicate Distinct(names: seq<Text>) {
    names == [] || (names[|names| - 1] !in names[..|names| - 1] && Distinct(names[..|names| - 1]))
  }

  lemma {:induction false} DistinctMeans(names: seq<Text>, i: nat, j: nat)
    requires Distinct(names) && i < j < |names|
    ensures names[i] != names[j]
  {
    if j < |names| - 1 { DistinctMeans(names[..|names| - 1], i, j); }
    else { assert names[i] == names[..|names| - 1][i]; }
  }

  /** All lock names, the default one first. */
  lemma {:induction false} DedicatedLocks(defaultName: Text, d: seq<Definition>)
    requires Compatible(defaultName, d) && Dedicated(d).Ok?
    ensures var locks, workers := LockNames(defaultName, d), Dedicated(d).value;
      && Distinct(locks) && |locks| == |workers| + 1 && locks[0] == defaultName
      && forall i :: 0 <= i < |workers| ==> workers[i].lockName == locks[i + 1]
  {
    if d != [] {
      var n := |d| - 1;
      DedicatedLocks(defaultName, d[..n]);
      var locks := LockNames(defaultName, d[..n]);
      assert (locks + [d[n].lockName])[..|locks|] == locks;
    } else {
      assert [defaultName][..0] == [];
    }
  }

  lemma WorkerLocks(defaultName: Text, d: seq<Definition>, last: Worker, i: nat, j: nat)
    requires Compatible(defaultName, d) && Dedicated(d).Ok? && last.lockName == defaultName
    requires i < j < |Dedicated(d).value| + 1
    ensures var workers := Dedicated(d).value + [last]; workers[i].lockName != workers[j].lockName
  {
    DedicatedLocks(defaultName, d);
    var locks := LockNames(defaultName, d);
    if j < |Dedicated(d).value| { DistinctMeans(locks, i + 1, j + 1); } else { DistinctMeans(locks, 0, i + 1); }
  }

  /** No two workers share a lock, so none is ever blocked by another of the same process. */
  lemma LockNamesDistinct(o: Options, i: nat, j: nat)
    requires Created(o).Ok? && i < j < |Created(o).value|
    ensures Created(o).value[i].lockName != Created(o).value[j].lockName
  {
    var d := Validated(o, |o.configurations|).value;
    ValidatedMeans(o, |o.configurations|);
    WorkerLocks(o.distributedLockName, d, Worker(o.distributedLockName, MakeFilter(Exclude, AllNames(d)).value), i, j);
  }

  // ---------------------------------------------------------------- when workers are created

  lemma {:induction false} AllNamesMembers(d: seq<Definition>, name: Text)
    ensures name in AllNames(d) <==> exists i :: 0 <= i < |d| && name in d[i].jobNames
  {
    if d != [] {
      var n := |d| - 1;
      AllNamesMembers(d[..n], name);
      if name in AllNames(d) && name !in d[n].jobNames {
        var i :| 0 <= i < n && name in d[..n][i].jobNames;
        assert name in d[i].jobNames;
      }
      if i :| 0 <= i < |d| && name in d[i].jobNames && i < n { assert name in d[..n][i].jobNames; }
    }
  }

  ghost predicate HasNonBlank(names: seq<Text>) { exists name :: name in names && !IsBlank(name) }

  lemma IncludeNeedsName(names: seq<Text>)
    ensures MakeFilter(Include, names).Ok? <==> HasNonBlank(names)
  {
    FilterNeedsName(Include, names);
  }

  lemma {:induction false} DedicatedIff(d: seq<Definition>)
    ensures Dedicated(d).Ok? <==> forall i :: 0 <= i < |d| ==> HasNonBlank(d[i].jobNames)
  {
    if d != [] {
      var n := |d| - 1;
      DedicatedIff(d[..n]);
      IncludeNeedsName(d[n].jobNames);
      assert forall i :: 0 <= i < n ==> d[..n][i] == d[i];
    }
  }

  /**
   * The workers are created exactly if every args type is registered, no job and no lock is claimed twice, and every
   * configuration names a job that is not blank.
   */
  lemma CreatedIff(o: Options)
    ensures var n := |o.configurations|;
      Created(o).Ok? <==>
        (&& AllRegistered(o, n)
         && Compatible(o.distributedLockName, Definitions(o, n))
         && forall i :: 0 <= i < |Definitions(o, n)| ==> HasNonBlank(Definitions(o, n)[i].jobNames))
  {
    var n := |o.configurations|;
    ValidatedMeans(o, n);
    if n > 0 && Validated(o, n).Ok? {
      var d := Validated(o, n).value;
      DedicatedIff(d);
      if Dedicated(d).Ok? {
        assert HasNonBlank(d[0].jobNames);
        var name :| name in d[0].jobNames && !IsBlank(name);
        AllNamesMembers(d, name);
        FilterNeedsName(Exclude, AllNames(d));
      }
    }
  }

  /** Compatible, said pairwise: no two definitions share a job name. */
  lemma {:induction false} CompatibleMeans(defaultName: Text, d: seq<Definition>, i: nat, j: nat, name: Text)
    requires Compatible(defaultName, d) && i < j < |d|
    ensures !(name in d[i].jobNames && name in d[j].jobNames)
  {
    var n := |d| - 1;
    if j < n {
      CompatibleMeans(defaultName, d[..n], i, j, name);
    } else {
      OverlapMeans(d[n].jobNames, AllNames(d[..n]));
      AllNamesMembers(d[..n], name);
      assert d[..n][i] == d[i];
    }
  }
}
