/** One construction attempt: the journal of created products and who holds each fulfilled product (run.ts). */
module AssemblyRun {
  import opened Sequences
  import opened Text
  import opened Composition
  import opened AssemblyProgram

  /** Instances, capability values and causes stay opaque. */
  datatype Value = Value(identity: int)

  /** What a fulfilled promise carries, as far as inspection can tell: capabilities is None when it is no record. */
  datatype Product = Unshaped | Shaped(instance: Value, capabilities: Option<map<Id, Value>>)

  datatype CreatedEntry = CreatedEntry(moduleId: Id, implementationId: Id, instance: Value,
    capabilities: map<Id, Value>)

  datatype Code =
    | InvalidInputs | FactoryThrew | FactoryRejected | UnsupportedCarrier | InvalidProduct
    | MissingCapability | MissingRoot | CommitThrew | UncommittedProduct

  datatype RunPhase = Inputs | Factory | Completion | Internal

  /** Why a factory call gives no product. */
  datatype Refusal = Threw | Rejected | Unsupported

  datatype Invocation = Returned(product: Product) | Refused(refusal: Refusal)

  /** What the commit helper does with an entry: whether it appends it, and whether it throws, before or after. */
  datatype Commit = Commit(appends: bool, throws: bool)

  /** What the world does at each step: cancellation seen before it, the factory's outcome, the helper's behaviour. */
  datatype Moment = Moment(cancelled: bool, invocation: Invocation, commit: Commit)

  /** A fulfilled product, and the step that produced it. */
  datatype Fulfilled = Fulfilled(implementationId: Id, product: Product)

  datatype Dependency = One(value: Option<Value>) | Several(values: seq<Value>)

  datatype Call = Call(step: nat, dependencies: map<Id, Dependency>)

  datatype Outcome =
    | Succeeded(roots: map<string, Value>, created: seq<CreatedEntry>)
    | Cancelled(created: seq<CreatedEntry>)
    | Failed(phase: RunPhase, code: Code, implementationId: Option<Id>, returned: Option<Fulfilled>,
      created: seq<CreatedEntry>)

  type Table = map<Id, CreatedEntry>

  // ---- products ----

  ghost function CapabilityIds(d: Declaration): set<Id> {
    set c | c in d.capabilities :: c.capabilityId
  }

  /** A product is a record with exactly the declared capabilities. */
  ghost predicate WellShaped(product: Product, d: Declaration) {
    product.Shaped? && product.capabilities.Some? && product.capabilities.value.Keys == CapabilityIds(d)
  }

  /** The journal's entry for a product. */
  ghost function EntryMade(product: Product, d: Declaration): CreatedEntry
    requires WellShaped(product, d)
  {
    CreatedEntry(d.moduleId, d.implementationId, product.instance, product.capabilities.value)
  }

  ghost predicate EntryOf(entry: CreatedEntry, product: Product, d: Declaration) {
    WellShaped(product, d) && entry == EntryMade(product, d)
  }

  method SnapshotProduct(product: Product, d: Declaration) returns (r: Option<CreatedEntry>)
    ensures r.Some? <==> WellShaped(product, d)
    ensures r.Some? ==> EntryOf(r.value, product, d)
  {
    var keys := set c | c in d.capabilities :: c.capabilityId;
    assert keys == CapabilityIds(d);
    if !product.Shaped? || product.capabilities.None? || product.capabilities.value.Keys != keys { return None; }
    r := Some(CreatedEntry(d.moduleId, d.implementationId, product.instance, product.capabilities.value));
  }

  // ---- dependencies ----

  predicate Has(table: Table, provider: Id, capabilityId: Id) {
    provider in table && capabilityId in table[provider].capabilities
  }

  /** The providers an injection asks for: all of them, or the first. */
  function Asked(injection: Injection): seq<Id> {
    if injection.many || |injection.providers| == 0 then injection.providers else injection.providers[..1]
  }

  ghost predicate Supplied(table: Table, injection: Injection) {
    forall q :: q in Asked(injection) ==> Has(table, q, injection.capabilityId)
  }

  function ValueAt(table: Table, provider: Id, capabilityId: Id): Option<Value> {
    if Has(table, provider, capabilityId) then Some(table[provider].capabilities[capabilityId]) else None
  }

  /** The provider stands in the table with this value of the capability. */
  ghost predicate Holds(table: Table, provider: Id, capabilityId: Id, value: Value) {
    && provider in table && capabilityId in table[provider].capabilities
    && value == table[provider].capabilities[capabilityId]
  }

  /** The values are what the first n providers hold, one by one. */
  ghost predicate ValuesOf(table: Table, injection: Injection, n: nat, values: seq<Value>)
    requires n <= |injection.providers|
  {
    && |values| == n
    && forall k :: 0 <= k < n ==> Holds(table, injection.providers[k], injection.capabilityId, values[k])
  }

  /** The dependency is exactly what its providers hold. */
  ghost predicate DependencyOf(table: Table, injection: Injection, dependency: Dependency) {
    if injection.many then dependency.Several? && ValuesOf(table, injection, |injection.providers|, dependency.values)
    else if |injection.providers| == 0 then dependency == One(None)
    else
      && dependency.One? && dependency.value.Some?
      && Holds(table, injection.providers[0], injection.capabilityId, dependency.value.value)
  }

  method DependencyFor(table: Table, injection: Injection) returns (r: Option<Dependency>)
    ensures r.Some? <==> Supplied(table, injection)
    ensures r.Some? ==> DependencyOf(table, injection, r.value)
  {
    if injection.many {
      var values: seq<Value> := [];
      for k := 0 to |injection.providers|
        invariant ValuesOf(table, injection, k, values)
      {
        var value := ValueAt(table, injection.providers[k], injection.capabilityId);
        if value.None? { return None; }
        values := values + [value.value];
      }
      forall q | q in injection.providers ensures Has(table, q, injection.capabilityId) {
        var k :| 0 <= k < |injection.providers| && injection.providers[k] == q;
        assert Holds(table, injection.providers[k], injection.capabilityId, values[k]);
      }
      return Some(Several(values));
    }
    if |injection.providers| == 0 { return Some(One(None)); }
    assert Asked(injection) == [injection.providers[0]];
    var value := ValueAt(table, injection.providers[0], injection.capabilityId);
    r := if value.None? then None else Some(One(value));
  }

  /** The dependencies of a step: one for each injection, the last for a repeated slot. */
  ghost predicate DependenciesOf(table: Table, injections: seq<Injection>, dependencies: map<Id, Dependency>) {
    && (forall s :: s in dependencies ==> exists i :: 0 <= i < |injections| && injections[i].slotId == s)
    && forall i :: 0 <= i < |injections| ==> InjectedAt(table, injections, i, dependencies)
  }

  ghost predicate InjectedAt(table: Table, injections: seq<Injection>, i: nat, dependencies: map<Id, Dependency>)
    requires i < |injections|
  {
    && Supplied(table, injections[i]) && injections[i].slotId in dependencies
    && (LastFor(injections, i) ==> DependencyOf(table, injections[i], dependencies[injections[i].slotId]))
  }

  ghost predicate LastFor(injections: seq<Injection>, i: nat)
    requires i < |injections|
  {
    forall j :: i < j < |injections| ==> injections[j].slotId != injections[i].slotId
  }

  ghost predicate AllSuppliedBy(table: Table, injections: seq<Injection>) {
    forall i :: 0 <= i < |injections| ==> Supplied(table, injections[i])
  }

  method DependenciesFor(table: Table, injections: seq<Injection>) returns (r: Option<map<Id, Dependency>>)
    ensures r.Some? <==> AllSuppliedBy(table, injections)
    ensures r.Some? ==> DependenciesOf(table, injections, r.value)
  {
    hide Supplied, DependencyOf;
    var dependencies: map<Id, Dependency> := map[];
    for k := 0 to |injections|
      invariant AllSuppliedBy(table, injections[..k]) && DependenciesOf(table, injections[..k], dependencies)
    {
      var one := DependencyFor(table, injections[k]);
      if one.None? { return None; }
      OneInjection(table, injections[..k], injections[k], dependencies, one.value);
      assert injections[..k + 1] == injections[..k] + [injections[k]];
      dependencies := dependencies[injections[k].slotId := one.value];
    }
    assert injections[..|injections|] == injections;
    r := Some(dependencies);
  }

  lemma OneInjection(table: Table, injections: seq<Injection>, next: Injection, dependencies: map<Id, Dependency>,
                     one: Dependency)
    requires AllSuppliedBy(table, injections)
    requires DependenciesOf(table, injections, dependencies)
    requires Supplied(table, next)
    requires DependencyOf(table, next, one)
    ensures AllSuppliedBy(table, injections + [next])
    ensures DependenciesOf(table, injections + [next], dependencies[next.slotId := one])
  {
    hide Supplied, DependencyOf;
    var all, after := injections + [next], dependencies[next.slotId := one];
    assert all[|injections|] == next;
    forall i | 0 <= i < |all| ensures InjectedAt(table, all, i, after) {
      if i < |injections| {
        assert InjectedAt(table, injections, i, dependencies);
        assert all[i] == injections[i];
        if LastFor(all, i) {
          assert all[|injections|].slotId != all[i].slotId;
          forall j | i < j < |injections| ensures injections[j].slotId != injections[i].slotId {
            assert all[j] == injections[j];
          }
          assert LastFor(injections, i);
        }
      }
    }
    forall s | s in after ensures exists i :: 0 <= i < |all| && all[i].slotId == s {
      if s in dependencies {
        var i :| 0 <= i < |injections| && injections[i].slotId == s;
        assert all[i].slotId == s;
      }
    }
  }

  // ---- inputs ----

  /** What the caller supplied: nothing, something that is no record, or a value and its capabilities for each alias. */
  datatype GivenInputs = Nothing | NoRecord | Given(values: map<string, Product>)

  ghost function AliasesOf(inputs: seq<ProgramInput>): set<string> {
    set m | 0 <= m < |inputs| :: inputs[m].alias
  }

  ghost predicate GivenAt(inputs: seq<ProgramInput>, values: map<string, Product>, m: nat)
    requires m < |inputs|
  {
    inputs[m].alias in values && WellShaped(values[inputs[m].alias], inputs[m].declaration)
  }

  /**
   * Exactly the aliases are given, each with exactly the capabilities its declaration names; or nothing where
   * nothing is asked.
   */
  ghost predicate InputsAdmitted(inputs: seq<ProgramInput>, given: GivenInputs) {
    match given
    case Nothing => inputs == []
    case NoRecord => false
    case Given(values) =>
      values.Keys == AliasesOf(inputs) && forall m :: 0 <= m < |inputs| ==> GivenAt(inputs, values, m)
  }

  ghost predicate IsInput(program: Program, id: Id) {
    exists m :: 0 <= m < |program.inputs| && program.inputs[m].declaration.implementationId == id
  }

  ghost predicate AllGiven(inputs: seq<ProgramInput>, values: map<string, Product>, n: nat)
    requires n <= |inputs|
  {
    forall m :: 0 <= m < n ==> GivenAt(inputs, values, m)
  }

  /** The entries of the first n inputs by identity, a later input of the same identity in place of an earlier one. */
  ghost function BorrowedFrom(inputs: seq<ProgramInput>, n: nat, values: map<string, Product>): Table
    requires n <= |inputs| && AllGiven(inputs, values, n)
  {
    if n == 0 then map[]
    else
      var d := inputs[n - 1].declaration;
      assert GivenAt(inputs, values, n - 1);
      BorrowedFrom(inputs, n - 1, values)[d.implementationId := EntryMade(values[inputs[n - 1].alias], d)]
  }

  /** What the caller lends to the program. */
  ghost function SuppliedBy(inputs: seq<ProgramInput>, given: GivenInputs): Table {
    if given.Given? && InputsAdmitted(inputs, given) then BorrowedFrom(inputs, |inputs|, given.values) else map[]
  }

  ghost predicate EntryFor(table: Table, d: Declaration) {
    && d.implementationId in table && table[d.implementationId].implementationId == d.implementationId
    && table[d.implementationId].capabilities.Keys == CapabilityIds(d)
  }

  ghost predicate Lent(inputs: seq<ProgramInput>, values: map<string, Product>, table: Table, m: nat)
    requires m < |inputs|
  {
    && inputs[m].declaration.implementationId in table && inputs[m].alias in values
    && EntryOf(table[inputs[m].declaration.implementationId], values[inputs[m].alias], inputs[m].declaration)
  }

  /** With distinct inputs every one of them is lent under its own identity. */
  lemma {:induction false} EachIsLent(inputs: seq<ProgramInput>, n: nat, values: map<string, Product>)
    requires n <= |inputs| && AllGiven(inputs, values, n)
    ensures forall id ::
      id in BorrowedFrom(inputs, n, values) <==> exists m :: 0 <= m < n && inputs[m].declaration.implementationId == id
    ensures DistinctInputs(inputs) ==> forall m ::
      0 <= m < n ==> Lent(inputs, values, BorrowedFrom(inputs, n, values), m)
  {
    if n > 0 {
      EachIsLent(inputs, n - 1, values);
      hide WellShaped;
      var d := inputs[n - 1].declaration;
      var before, after := BorrowedFrom(inputs, n - 1, values), BorrowedFrom(inputs, n, values);
      assert GivenAt(inputs, values, n - 1);
      assert after == before[d.implementationId := EntryMade(values[inputs[n - 1].alias], d)];
      if DistinctInputs(inputs) {
        forall m | 0 <= m < n ensures Lent(inputs, values, after, m) {
          if m < n - 1 { assert InputsDiffer(inputs[m], inputs[n - 1]) && Lent(inputs, values, before, m); }
        }
      }
    }
  }

  /** The identities that are lent are those of the inputs, each as its declaration has it. */
  lemma LentInputs(program: Program, given: GivenInputs)
    requires InputsAdmitted(program.inputs, given)
    ensures forall id :: id in SuppliedBy(program.inputs, given) <==> IsInput(program, id)
    ensures DistinctInputs(program.inputs) ==> AllEntries(program.inputs, SuppliedBy(program.inputs, given))
  {
    if given.Given? {
      assert AllGiven(program.inputs, given.values, |program.inputs|);
      EachIsLent(program.inputs, |program.inputs|, given.values);
      if DistinctInputs(program.inputs) {
        var table := SuppliedBy(program.inputs, given);
        hide WellShaped, CapabilityIds, InputsAdmitted;
        forall m | 0 <= m < |program.inputs| ensures EntryFor(table, program.inputs[m].declaration) {
          assert Lent(program.inputs, given.values, table, m);
          EntryIs(table[program.inputs[m].declaration.implementationId], given.values[program.inputs[m].alias],
            program.inputs[m].declaration);
        }
      }
    }
  }

  ghost predicate AllEntries(inputs: seq<ProgramInput>, table: Table) {
    forall m :: 0 <= m < |inputs| ==> EntryFor(table, inputs[m].declaration)
  }

  method AdmitInputs(inputs: seq<ProgramInput>, given: GivenInputs) returns (r: Option<Table>)
    ensures r.Some? <==> InputsAdmitted(inputs, given)
    ensures r.Some? ==> r.value == SuppliedBy(inputs, given)
  {
    hide WellShaped, AliasesOf, BorrowedFrom, EntryMade;
    if inputs == [] && given.Nothing? { return Some(map[]); }
    var aliases := set m | 0 <= m < |inputs| :: inputs[m].alias;
    AliasesAre(inputs, aliases);
    if !given.Given? || given.values.Keys != aliases { return None; }
    var table: Table := map[];
    NothingBorrowed(inputs, given.values);
    for m := 0 to |inputs|
      invariant AllGiven(inputs, given.values, m) && table == BorrowedFrom(inputs, m, given.values)
    {
      AliasIn(inputs, m);
      var entry := SnapshotProduct(given.values[inputs[m].alias], inputs[m].declaration);
      if entry.None? {
        assert !GivenAt(inputs, given.values, m);
        return None;
      }
      BorrowedNext(inputs, m, given.values);
      table := table[inputs[m].declaration.implementationId := entry.value];
    }
    r := Some(table);
  }

  lemma NothingBorrowed(inputs: seq<ProgramInput>, values: map<string, Product>)
    ensures BorrowedFrom(inputs, 0, values) == map[]
  {
  }

  lemma BorrowedNext(inputs: seq<ProgramInput>, m: nat, values: map<string, Product>)
    requires m < |inputs| && AllGiven(inputs, values, m) && GivenAt(inputs, values, m)
    ensures AllGiven(inputs, values, m + 1)
    ensures BorrowedFrom(inputs, m + 1, values) ==
      BorrowedFrom(inputs, m, values)[inputs[m].declaration.implementationId :=
        EntryMade(values[inputs[m].alias], inputs[m].declaration)]
  {
  }

  lemma AliasesAre(inputs: seq<ProgramInput>, aliases: set<string>)
    requires aliases == set m | 0 <= m < |inputs| :: inputs[m].alias
    ensures aliases == AliasesOf(inputs)
  {
  }

  lemma AliasIn(inputs: seq<ProgramInput>, m: nat)
    requires m < |inputs|
    ensures inputs[m].alias in AliasesOf(inputs)
  {
  }

  lemma EntryIs(entry: CreatedEntry, product: Product, d: Declaration)
    requires EntryOf(entry, product, d)
    ensures entry.implementationId == d.implementationId && entry.capabilities.Keys == CapabilityIds(d)
  {
  }

  // ---- custody ----

  /** The identities the first k steps construct, borrowed inputs left out, in order. */
  ghost function Constructed(steps: seq<Step>, k: nat, supplied: set<Id>): seq<Id>
    requires k <= |steps|
  {
    if k == 0 then []
    else
      var id := steps[k - 1].declaration.implementationId;
      Constructed(steps, k - 1, supplied) + if id in supplied then [] else [id]
  }

  ghost function IdsOfEntries(created: seq<CreatedEntry>): (r: seq<Id>)
    ensures |r| == |created|
  {
    seq(|created|, i requires 0 <= i < |created| => created[i].implementationId)
  }

  /** What was created is an initial part of what was to be constructed. */
  ghost predicate CreatedPrefix(steps: seq<Step>, supplied: set<Id>, created: seq<CreatedEntry>) {
    IdsOfEntries(created) <= Constructed(steps, |steps|, supplied)
  }

  lemma {:induction false} ConstructedPrefix(steps: seq<Step>, k: nat, n: nat, supplied: set<Id>)
    requires k <= n <= |steps|
    ensures Constructed(steps, k, supplied) <= Constructed(steps, n, supplied)
  {
    if k < n { ConstructedPrefix(steps, k, n - 1, supplied); }
  }

  /** A step that is not supplied adds its identity. */
  lemma NextConstructed(steps: seq<Step>, k: nat, supplied: set<Id>)
    requires k < |steps|
    ensures var id := steps[k].declaration.implementationId;
      Constructed(steps, k + 1, supplied) == Constructed(steps, k, supplied) + if id in supplied then [] else [id]
  {
  }

  /** The table holds what the first k steps declare. */
  ghost predicate TableShows(program: Program, k: nat, table: Table)
    requires k <= |program.steps|
  {
    forall j :: 0 <= j < k ==> EntryFor(table, program.steps[j].declaration)
  }

  lemma TableGrows(program: Program, k: nat, table: Table, entry: CreatedEntry)
    requires k < |program.steps| && DistinctSteps(program.steps) && TableShows(program, k, table)
    requires entry.implementationId == program.steps[k].declaration.implementationId
    requires entry.capabilities.Keys == CapabilityIds(program.steps[k].declaration)
    ensures TableShows(program, k + 1, table[program.steps[k].declaration.implementationId := entry])
  {
    hide CapabilityIds;
    var id := program.steps[k].declaration.implementationId;
    forall j | 0 <= j < k + 1 ensures EntryFor(table[id := entry], program.steps[j].declaration) {
      if j < k {
        assert EntryFor(table, program.steps[j].declaration);
        assert program.steps[j].declaration.implementationId != id;
      }
    }
  }

  /** The borrowed input of a step has what the step declares. */
  lemma InputServes(program: Program, k: nat, supplied: Table)
    requires k < |program.steps| && Runnable(program) && program.steps[k].declaration.implementationId in supplied
    requires AllEntries(program.inputs, supplied) && forall id :: id in supplied ==> IsInput(program, id)
    ensures EntryFor(supplied, program.steps[k].declaration)
  {
    hide CapabilityIds, StepsReady, Constructs;
    var id := program.steps[k].declaration.implementationId;
    var m :| 0 <= m < |program.inputs| && program.inputs[m].declaration.implementationId == id;
    var j :| 0 <= j < |program.steps| && DeclarationsOf(program.steps)[j] == program.inputs[m].declaration;
    assert program.steps[j].declaration == program.inputs[m].declaration;
    SameStep(program.steps, j, k);
  }

  lemma SameStep(steps: seq<Step>, j: nat, k: nat)
    requires DistinctSteps(steps) && j < |steps| && k < |steps|
    requires steps[j].declaration.implementationId == steps[k].declaration.implementationId
    ensures j == k
  {
  }

  /** In a runnable program every capability a step asks for is there. */
  lemma NothingMissing(program: Program, k: nat, table: Table)
    requires Runnable(program) && k < |program.steps| && TableShows(program, k, table)
    ensures AllSuppliedBy(table, program.steps[k].injections)
  {
    hide DistinctSteps, InputsMatch, Constructs;
    var steps := program.steps;
    forall i | 0 <= i < |steps[k].injections| ensures Supplied(table, steps[k].injections[i]) {
      var injection := steps[k].injections[i];
      assert InjectionReady(steps, k, injection);
      forall q | q in Asked(injection) ensures Has(table, q, injection.capabilityId) {
        assert q in injection.providers;
        var j :|
          0 <= j < k && steps[j].declaration.implementationId == q
            && Offers(steps[j].declaration, injection.capabilityId);
        assert EntryFor(table, steps[j].declaration);
      }
    }
  }

  // ---- the attempt ----

  /** One root instance for each alias. */
  ghost predicate RootsFrom(roots: seq<Root>, table: Table, instances: map<string, Value>) {
    && (forall a :: a in instances ==> exists r :: r in roots && r.alias == a)
    && forall i :: 0 <= i < |roots| ==> RootAt(roots, i, table, instances)
  }

  ghost predicate RootAt(roots: seq<Root>, i: nat, table: Table, instances: map<string, Value>)
    requires i < |roots|
  {
    && roots[i].implementationId in table && roots[i].alias in instances
    && ((forall j :: i < j < |roots| ==> roots[j].alias != roots[i].alias) ==>
      instances[roots[i].alias] == table[roots[i].implementationId].instance)
  }

  method RootInstances(roots: seq<Root>, table: Table) returns (r: Option<map<string, Value>>)
    ensures r.Some? <==> forall root :: root in roots ==> root.implementationId in table
    ensures r.Some? ==> RootsFrom(roots, table, r.value)
  {
    var instances: map<string, Value> := map[];
    for k := 0 to |roots|
      invariant forall j :: 0 <= j < k ==> roots[j].implementationId in table
      invariant RootsFrom(roots[..k], table, instances)
    {
      var root := roots[k];
      if root.implementationId !in table { return None; }
      OneRoot(roots[..k], root, table, instances);
      assert roots[..k + 1] == roots[..k] + [root];
      instances := instances[root.alias := table[root.implementationId].instance];
    }
    assert roots[..|roots|] == roots;
    r := Some(instances);
  }

  lemma OneRoot(roots: seq<Root>, root: Root, table: Table, instances: map<string, Value>)
    requires RootsFrom(roots, table, instances) && root.implementationId in table
    ensures RootsFrom(roots + [root], table, instances[root.alias := table[root.implementationId].instance])
  {
    var all, after := roots + [root], instances[root.alias := table[root.implementationId].instance];
    assert all[|roots|] == root;
    forall i | 0 <= i < |all| ensures RootAt(all, i, table, after) {
      if i < |roots| {
        assert RootAt(roots, i, table, instances) && all[i] == roots[i];
        if forall j :: i < j < |all| ==> all[j].alias != all[i].alias {
          assert all[|roots|].alias != all[i].alias;
          forall j | i < j < |roots| ensures roots[j].alias != roots[i].alias { assert all[j] == roots[j]; }
        }
      }
    }
    forall a | a in after ensures exists r :: r in all && r.alias == a {
      if a in instances && a != root.alias {
        var r :| r in roots && r.alias == a;
        assert r in all;
      } else {
        assert root in all;
      }
    }
  }

  /** What the first k steps provide: borrowed inputs, and the created products in order. */
  ghost function TableOf(steps: seq<Step>, k: nat, supplied: Table, created: seq<CreatedEntry>): Table
    requires k <= |steps|
  {
    if k == 0 then map[]
    else
      var before, id, n :=
        TableOf(steps, k - 1, supplied, created), steps[k - 1].declaration.implementationId,
          |Constructed(steps, k - 1, supplied.Keys)|;
      if id in supplied then before[id := supplied[id]]
      else if n < |created| then before[id := created[n]]
      else before
  }

  lemma {:induction false} TableKeeps(steps: seq<Step>, k: nat, supplied: Table, created: seq<CreatedEntry>,
                                      entry: CreatedEntry)
    requires k <= |steps| && |Constructed(steps, k, supplied.Keys)| <= |created|
    ensures TableOf(steps, k, supplied, created + [entry]) == TableOf(steps, k, supplied, created)
  {
    if k > 0 {
      ConstructedPrefix(steps, k - 1, k, supplied.Keys);
      TableKeeps(steps, k - 1, supplied, created, entry);
    }
  }

  /** A call of a factory: its step's turn, with exactly what its providers hold. */
  ghost predicate CalledRight(program: Program, supplied: Table, created: seq<CreatedEntry>, call: Call) {
    && call.step < |program.steps| && program.steps[call.step].declaration.implementationId !in supplied
    && |Constructed(program.steps, call.step, supplied.Keys)| <= |created|
    && DependenciesOf(TableOf(program.steps, call.step, supplied, created), program.steps[call.step].injections,
      call.dependencies)
  }

  ghost predicate CallsRight(program: Program, supplied: Table, created: seq<CreatedEntry>, calls: seq<Call>) {
    forall c :: c in calls ==> CalledRight(program, supplied, created, c)
  }

  lemma CallsStayRight(program: Program, supplied: Table, created: seq<CreatedEntry>, calls: seq<Call>,
                       entry: CreatedEntry)
    requires CallsRight(program, supplied, created, calls)
    ensures CallsRight(program, supplied, created + [entry], calls)
  {
    hide DependenciesOf, Constructed, TableOf;
    forall c | c in calls ensures CalledRight(program, supplied, created + [entry], c) {
      TableKeeps(program.steps, c.step, supplied, created, entry);
    }
  }

  // ---- what a run does ----

  ghost predicate Borrowed(steps: seq<Step>, k: nat, supplied: set<Id>)
    requires k < |steps|
  {
    steps[k].declaration.implementationId in supplied
  }

  /** The factory of step k answers with a product that has every declared capability. */
  ghost predicate Answers(steps: seq<Step>, moments: seq<Moment>, k: nat)
    requires k < |steps| == |moments|
  {
    moments[k].invocation.Returned? && WellShaped(moments[k].invocation.product, steps[k].declaration)
  }

  /** The entries of the first k steps: those of their products, where the commit helper takes them. */
  ghost function Made(steps: seq<Step>, moments: seq<Moment>, supplied: set<Id>, k: nat): seq<CreatedEntry>
    requires k <= |steps| == |moments|
  {
    if k == 0 then []
    else
      Made(steps, moments, supplied, k - 1)
        + if Borrowed(steps, k - 1, supplied) then [] else MadeAt(steps, moments, k - 1)
  }

  ghost function MadeAt(steps: seq<Step>, moments: seq<Moment>, k: nat): seq<CreatedEntry>
    requires k < |steps| == |moments|
  {
    if Answers(steps, moments, k) && moments[k].commit.appends then
      [EntryMade(moments[k].invocation.product, steps[k].declaration)]
    else []
  }

  /** Everything step k asks for is there. */
  ghost predicate Equipped(program: Program, moments: seq<Moment>, supplied: Table, k: nat)
    requires k < |program.steps| == |moments|
  {
    AllSuppliedBy(TableOf(program.steps, k, supplied, Made(program.steps, moments, supplied.Keys, k)),
      program.steps[k].injections)
  }

  /** The run goes on after step k: an input, or a factory whose product is complete and journalled. */
  ghost predicate Passes(program: Program, moments: seq<Moment>, supplied: Table, k: nat)
    requires k < |program.steps| == |moments|
  {
    && !moments[k].cancelled
    && (|| Borrowed(program.steps, k, supplied.Keys)
        || (&& Equipped(program, moments, supplied, k) && Answers(program.steps, moments, k)
            && moments[k].commit.appends && !moments[k].commit.throws))
  }

  ghost predicate AllPass(program: Program, moments: seq<Moment>, supplied: Table, k: nat)
    requires k <= |program.steps| == |moments|
  {
    forall j :: 0 <= j < k ==> Passes(program, moments, supplied, j)
  }

  /** The steps among the first k that have a factory to call, in order. */
  ghost function Turns(steps: seq<Step>, supplied: set<Id>, k: nat): seq<nat>
    requires k <= |steps|
  {
    if k == 0 then [] else Turns(steps, supplied, k - 1) + if Borrowed(steps, k - 1, supplied) then [] else [k - 1]
  }

  ghost function StepsOf(calls: seq<Call>): (r: seq<nat>)
    ensures |r| == |calls| && forall i :: 0 <= i < |calls| ==> r[i] == calls[i].step
  {
    seq(|calls|, i requires 0 <= i < |calls| => calls[i].step)
  }

  /** The products of the factories called, in the order of the calls. */
  ghost function ProductsOf(program: Program, moments: seq<Moment>, called: seq<nat>): seq<Fulfilled> {
    if called == [] then []
    else ProductsOf(program, moments, called[..|called| - 1]) + ProductAt(program, moments, called[|called| - 1])
  }

  ghost function ProductAt(program: Program, moments: seq<Moment>, k: nat): seq<Fulfilled> {
    if k < |program.steps| && k < |moments| && moments[k].invocation.Returned?
    then [Fulfilled(program.steps[k].declaration.implementationId, moments[k].invocation.product)]
    else []
  }

  /** A thrown error, a rejected promise and a carrier that is no promise are told apart. */
  ghost predicate RefusedAs(refusal: Refusal, code: Code) {
    && (refusal == Threw ==> code == FactoryThrew)
    && (refusal == Rejected ==> code == FactoryRejected)
    && (refusal == Unsupported ==> code == UnsupportedCarrier)
  }

  /** The outcome of a run that step k stops. */
  ghost predicate StopsAt(program: Program, moments: seq<Moment>, supplied: Table, k: nat, outcome: Outcome)
    requires k < |program.steps| == |moments|
  {
    var id, m, made :=
      Some(program.steps[k].declaration.implementationId), moments[k], Made(program.steps, moments, supplied.Keys, k);
    if m.cancelled then outcome == Cancelled(made)
    else if !Equipped(program, moments, supplied, k) then outcome == Failed(Internal, MissingCapability, id, None, made)
    else if m.invocation.Refused? then
      outcome.Failed? && outcome == Failed(Factory, outcome.code, id, None, made)
        && RefusedAs(m.invocation.refusal, outcome.code)
    else
      var held := Some(Fulfilled(id.value, m.invocation.product));
      if !Answers(program.steps, moments, k) then outcome == Failed(Completion, InvalidProduct, id, held, made)
      else if !m.commit.appends then
        outcome == Failed(Internal, if m.commit.throws then CommitThrew else UncommittedProduct, id, held, made)
      else outcome == Failed(Internal, CommitThrew, id, None, made + MadeAt(program.steps, moments, k))
  }

  ghost predicate RootsKnown(roots: seq<Root>, table: Table) {
    forall r :: r in roots ==> r.implementationId in table
  }

  ghost function LastStep(steps: seq<Step>): Option<Id> {
    if steps == [] then None else Some(steps[|steps| - 1].declaration.implementationId)
  }

  /** The outcome of a run that no step stops. */
  ghost predicate RunsOut(program: Program, moments: seq<Moment>, supplied: Table, cancelledLast: bool,
                          outcome: Outcome)
    requires |program.steps| == |moments|
  {
    var made := Made(program.steps, moments, supplied.Keys, |program.steps|);
    var table := TableOf(program.steps, |program.steps|, supplied, made);
    if !RootsKnown(program.roots, table) then
      outcome == Failed(Internal, MissingRoot, LastStep(program.steps), None, made)
    else if cancelledLast then outcome == Cancelled(made)
    else outcome.Succeeded? && outcome.created == made && RootsFrom(program.roots, table, outcome.roots)
  }

  /**
   * The run passes the first k steps and ends there; the factories called are those of the steps passed, and of
   * the one that stops it.
   */
  ghost predicate EndsAt(program: Program, moments: seq<Moment>, supplied: Table, cancelledLast: bool, k: nat,
                         outcome: Outcome, called: seq<nat>)
    requires |program.steps| == |moments|
  {
    && k <= |program.steps| && AllPass(program, moments, supplied, k)
    && called == Turns(program.steps, supplied.Keys, k) + LastTurn(program, moments, supplied, k)
    && if k == |program.steps| then RunsOut(program, moments, supplied, cancelledLast, outcome)
       else !Passes(program, moments, supplied, k) && StopsAt(program, moments, supplied, k, outcome)
  }

  ghost function LastTurn(program: Program, moments: seq<Moment>, supplied: Table, k: nat): seq<nat>
    requires k <= |program.steps| == |moments|
  {
    if k < |program.steps| && !moments[k].cancelled && Equipped(program, moments, supplied, k) then [k] else []
  }

  /** Everything that happens in one attempt, event by event. */
  ghost predicate Attempted(program: Program, cancelledFirst: bool, given: GivenInputs, moments: seq<Moment>,
                            cancelledLast: bool, outcome: Outcome, called: seq<nat>)
    requires |program.steps| == |moments|
  {
    if cancelledFirst then outcome == Cancelled([]) && called == []
    else if !InputsAdmitted(program.inputs, given) then
      outcome == Failed(Inputs, InvalidInputs, None, None, []) && called == []
    else exists k: nat :: EndsAt(program, moments, SuppliedBy(program.inputs, given), cancelledLast, k, outcome, called)
  }

  // ---- what every run guarantees ----

  lemma {:induction false} TurnsMean(steps: seq<Step>, supplied: set<Id>, k: nat)
    requires k <= |steps|
    ensures forall j: nat :: j in Turns(steps, supplied, k) <==> j < k && !Borrowed(steps, j, supplied)
    ensures forall i, j ::
      0 <= i < j < |Turns(steps, supplied, k)| ==> Turns(steps, supplied, k)[i] < Turns(steps, supplied, k)[j]
  {
    if k > 0 {
      TurnsMean(steps, supplied, k - 1);
      var before := Turns(steps, supplied, k - 1);
      forall i | 0 <= i < |before| ensures before[i] < k - 1 { assert before[i] in before; }
    }
  }

  /** Factories are called step by step: only of steps that are no inputs, in order, each once, and none is skipped. */
  ghost predicate InTurn(steps: seq<Step>, supplied: set<Id>, called: seq<nat>) {
    && (forall i, j :: 0 <= i < j < |called| ==> called[i] < called[j])
    && (forall j :: j in called ==> j < |steps| && !Borrowed(steps, j, supplied))
    && (forall i: nat, j :: j in called && i < j < |steps| && !Borrowed(steps, i, supplied) ==> i in called)
  }

  lemma CalledInTurn(program: Program, moments: seq<Moment>, supplied: Table, k: nat)
    requires k <= |program.steps| == |moments| && (k < |program.steps| ==> !Passes(program, moments, supplied, k))
    ensures InTurn(program.steps, supplied.Keys,
      Turns(program.steps, supplied.Keys, k) + LastTurn(program, moments, supplied, k))
  {
    hide Equipped, Answers, Turns, Borrowed;
    TurnsMean(program.steps, supplied.Keys, k);
    var turns := Turns(program.steps, supplied.Keys, k);
    forall i | 0 <= i < |turns| ensures turns[i] < k { assert turns[i] in turns; }
  }

  lemma CallsInTurn(program: Program, cancelledFirst: bool, given: GivenInputs, moments: seq<Moment>,
                    cancelledLast: bool, outcome: Outcome, called: seq<nat>)
    requires |program.steps| == |moments|
    requires Attempted(program, cancelledFirst, given, moments, cancelledLast, outcome, called)
    ensures InTurn(program.steps, SuppliedBy(program.inputs, given).Keys, called)
  {
    hide InputsAdmitted, SuppliedBy, AllPass, Passes, RunsOut, StopsAt, Turns, LastTurn;
    if !cancelledFirst && InputsAdmitted(program.inputs, given) {
      var supplied := SuppliedBy(program.inputs, given);
      var k: nat :| EndsAt(program, moments, supplied, cancelledLast, k, outcome, called);
      hide InTurn;
      CalledInTurn(program, moments, supplied, k);
    }
  }

  /** One entry and one product for each factory of a step that was passed. */
  ghost predicate Delivered(program: Program, moments: seq<Moment>, called: seq<nat>, created: seq<CreatedEntry>,
                            products: seq<Fulfilled>)
    requires |program.steps| == |moments|
  {
    |called| == |created| == |products|
      && forall i :: 0 <= i < |called| ==> DeliveredAt(program, moments, called[i], created[i], products[i])
  }

  /** The product of step k, and the entry that the journal has for it. */
  ghost predicate DeliveredAt(program: Program, moments: seq<Moment>, k: nat, entry: CreatedEntry, f: Fulfilled)
    requires |program.steps| == |moments|
  {
    && k < |program.steps| && moments[k].invocation.Returned?
    && f == Fulfilled(program.steps[k].declaration.implementationId, moments[k].invocation.product)
    && EntryOf(entry, f.product, program.steps[k].declaration)
  }

  lemma ProductsMore(program: Program, moments: seq<Moment>, called: seq<nat>, k: nat)
    ensures ProductsOf(program, moments, called + [k]) ==
      ProductsOf(program, moments, called) + ProductAt(program, moments, k)
  {
    assert (called + [k])[..|called|] == called;
  }

  /** A step that is passed by its factory: one entry, one product, one identity more. */
  lemma OneDelivered(program: Program, moments: seq<Moment>, supplied: Table, k: nat)
    requires k < |program.steps| == |moments|
    requires Passes(program, moments, supplied, k)
    requires !Borrowed(program.steps, k, supplied.Keys)
    ensures |MadeAt(program.steps, moments, k)| == |ProductAt(program, moments, k)| == 1
    ensures DeliveredAt(program, moments, k, MadeAt(program.steps, moments, k)[0], ProductAt(program, moments, k)[0])
    ensures MadeAt(program.steps, moments, k)[0].implementationId == program.steps[k].declaration.implementationId
  {
    hide Equipped, WellShaped;
  }

  lemma DeliveredMore(program: Program, moments: seq<Moment>, called: seq<nat>, created: seq<CreatedEntry>,
                      products: seq<Fulfilled>,
                      k: nat, entry: CreatedEntry, f: Fulfilled)
    requires |program.steps| == |moments|
    requires Delivered(program, moments, called, created, products) && DeliveredAt(program, moments, k, entry, f)
    ensures Delivered(program, moments, called + [k], created + [entry], products + [f])
  {
    hide DeliveredAt;
  }

  lemma {:induction false} AllDelivered(program: Program, moments: seq<Moment>, supplied: Table, k: nat)
    requires k <= |program.steps| == |moments| && AllPass(program, moments, supplied, k)
    ensures var called := Turns(program.steps, supplied.Keys, k);
      Delivered(program, moments, called, Made(program.steps, moments, supplied.Keys, k),
        ProductsOf(program, moments, called))
    ensures IdsOfEntries(Made(program.steps, moments, supplied.Keys, k)) == Constructed(program.steps, k, supplied.Keys)
    decreases k, 0
  {
    hide Passes, MadeAt, ProductAt, DeliveredAt;
    if k > 0 { DeliveredNext(program, moments, supplied, k - 1); }
  }

  lemma {:induction false} DeliveredNext(program: Program, moments: seq<Moment>, supplied: Table, k: nat)
    requires k < |program.steps| == |moments| && AllPass(program, moments, supplied, k + 1)
    ensures var called := Turns(program.steps, supplied.Keys, k + 1);
      Delivered(program, moments, called, Made(program.steps, moments, supplied.Keys, k + 1),
        ProductsOf(program, moments, called))
    ensures IdsOfEntries(Made(program.steps, moments, supplied.Keys, k + 1)) ==
      Constructed(program.steps, k + 1, supplied.Keys)
    decreases k, 1
  {
    hide Passes, MadeAt, ProductAt, Delivered, DeliveredAt, ProductsOf, Constructed, IdsOfEntries, Turns, Made,
         Borrowed;
    AllDelivered(program, moments, supplied, k);
    NextConstructed(program.steps, k, supplied.Keys);
    NextTurn(program, moments, supplied, k);
    var turns, made := Turns(program.steps, supplied.Keys, k), Made(program.steps, moments, supplied.Keys, k);
    if !Borrowed(program.steps, k, supplied.Keys) {
      OneDelivered(program, moments, supplied, k);
      var entry, f := MadeAt(program.steps, moments, k)[0], ProductAt(program, moments, k)[0];
      assert MadeAt(program.steps, moments, k) == [entry] && ProductAt(program, moments, k) == [f];
      ProductsMore(program, moments, turns, k);
      DeliveredMore(program, moments, turns, made, ProductsOf(program, moments, turns), k, entry, f);
      IdsMore(made, entry);
    }
  }

  lemma NextTurn(program: Program, moments: seq<Moment>, supplied: Table, k: nat)
    requires k < |program.steps| == |moments|
    ensures Borrowed(program.steps, k, supplied.Keys) <==>
      program.steps[k].declaration.implementationId in supplied.Keys
    ensures Turns(program.steps, supplied.Keys, k + 1) ==
      Turns(program.steps, supplied.Keys, k) + if Borrowed(program.steps, k, supplied.Keys) then [] else [k]
    ensures Made(program.steps, moments, supplied.Keys, k + 1) ==
      Made(program.steps, moments, supplied.Keys, k)
        + if Borrowed(program.steps, k, supplied.Keys) then [] else MadeAt(program.steps, moments, k)
    ensures Borrowed(program.steps, k, supplied.Keys) ==>
      && Turns(program.steps, supplied.Keys, k + 1) == Turns(program.steps, supplied.Keys, k)
      && Made(program.steps, moments, supplied.Keys, k + 1) == Made(program.steps, moments, supplied.Keys, k)
  {
    hide MadeAt;
    assert Turns(program.steps, supplied.Keys, k) + [] == Turns(program.steps, supplied.Keys, k);
    assert Made(program.steps, moments, supplied.Keys, k) + [] == Made(program.steps, moments, supplied.Keys, k);
  }

  /** As many entries as identities constructed. */
  lemma MadeCount(program: Program, moments: seq<Moment>, supplied: Table, k: nat)
    requires k <= |program.steps| == |moments| && AllPass(program, moments, supplied, k)
    ensures |Made(program.steps, moments, supplied.Keys, k)| == |Constructed(program.steps, k, supplied.Keys)|
  {
    hide Made, Constructed, AllPass, Delivered, Turns, ProductsOf;
    AllDelivered(program, moments, supplied, k);
  }

  function ReturnedBy(outcome: Outcome): Option<Fulfilled> {
    if outcome.Failed? then outcome.returned else None
  }

  /**
   * Custody: of the products that the called factories fulfilled, every one is in exactly one place, the journal in
   * the order of the calls, as an entry that its step's declaration admits, or the returned slot.
   */
  ghost predicate Held(program: Program, moments: seq<Moment>, called: seq<nat>, outcome: Outcome)
    requires |program.steps| == |moments|
  {
    var products, n := ProductsOf(program, moments, called), |outcome.created|;
    && n <= |called| && |products| == n + (if ReturnedBy(outcome).Some? then 1 else 0)
    && (forall i :: 0 <= i < n ==> DeliveredAt(program, moments, called[i], outcome.created[i], products[i]))
    && (ReturnedBy(outcome).Some? ==> products[n] == ReturnedBy(outcome).value)
  }

  lemma NothingHeld(program: Program, moments: seq<Moment>, outcome: Outcome)
    requires |program.steps| == |moments| && outcome.created == [] && ReturnedBy(outcome) == None
    ensures Held(program, moments, [], outcome)
  {
  }

  lemma StopHolds(program: Program, moments: seq<Moment>, supplied: Table, k: nat, outcome: Outcome)
    requires k < |program.steps| == |moments| && AllPass(program, moments, supplied, k)
    requires !Passes(program, moments, supplied, k) && StopsAt(program, moments, supplied, k, outcome)
    ensures Held(program, moments,
      Turns(program.steps, supplied.Keys, k) + LastTurn(program, moments, supplied, k), outcome)
    ensures CreatedPrefix(program.steps, supplied.Keys, outcome.created)
  {
    hide Equipped, WellShaped, Turns, Made, Constructed, ProductsOf;
    AllDelivered(program, moments, supplied, k);
    var turns, made := Turns(program.steps, supplied.Keys, k), Made(program.steps, moments, supplied.Keys, k);
    ProductsMore(program, moments, turns, k);
    assert turns + [] == turns;
    ConstructedPrefix(program.steps, k, |program.steps|, supplied.Keys);
    ConstructedPrefix(program.steps, k + 1, |program.steps|, supplied.Keys);
    NextConstructed(program.steps, k, supplied.Keys);
    if MadeAt(program.steps, moments, k) != [] { IdsMore(made, MadeAt(program.steps, moments, k)[0]); }
  }

  lemma IdsMore(journal: seq<CreatedEntry>, entry: CreatedEntry)
    ensures IdsOfEntries(journal + [entry]) == IdsOfEntries(journal) + [entry.implementationId]
  {
  }

  /**
   * Every exit keeps custody of what was fulfilled, and has created an initial part of the non-input steps in
   * order.
   */
  lemma CustodyKept(program: Program, cancelledFirst: bool, given: GivenInputs, moments: seq<Moment>,
                    cancelledLast: bool, outcome: Outcome, called: seq<nat>)
    requires |program.steps| == |moments|
    requires Attempted(program, cancelledFirst, given, moments, cancelledLast, outcome, called)
    ensures Held(program, moments, called, outcome)
    ensures CreatedPrefix(program.steps, SuppliedBy(program.inputs, given).Keys, outcome.created)
  {
    hide Held, StopsAt, Passes, AllPass, Turns, Made, LastTurn, InputsAdmitted, SuppliedBy, Constructed;
    var supplied := SuppliedBy(program.inputs, given);
    if cancelledFirst || !InputsAdmitted(program.inputs, given) {
      NothingHeld(program, moments, outcome);
    } else {
      var k: nat :| EndsAt(program, moments, supplied, cancelledLast, k, outcome, called);
      if k < |program.steps| {
        StopHolds(program, moments, supplied, k, outcome);
      } else {
        OutHolds(program, moments, supplied, cancelledLast, outcome);
        NoTurnLeft(program, moments, supplied);
        assert called == Turns(program.steps, supplied.Keys, k);
      }
    }
  }

  lemma NoTurnLeft(program: Program, moments: seq<Moment>, supplied: Table)
    requires |program.steps| == |moments|
    ensures LastTurn(program, moments, supplied, |program.steps|) == []
  {
  }

  lemma OutHolds(program: Program, moments: seq<Moment>, supplied: Table, cancelledLast: bool, outcome: Outcome)
    requires |program.steps| == |moments| && AllPass(program, moments, supplied, |program.steps|)
    requires RunsOut(program, moments, supplied, cancelledLast, outcome)
    ensures Held(program, moments, Turns(program.steps, supplied.Keys, |program.steps|), outcome)
    ensures IdsOfEntries(outcome.created) == Constructed(program.steps, |program.steps|, supplied.Keys)
  {
    hide AllPass, Made, Turns, Constructed, ProductsOf, RootsFrom, TableOf, DeliveredAt;
    AllDelivered(program, moments, supplied, |program.steps|);
  }

  /** After steps that all passed, a runnable program's table has what every one of them declares. */
  lemma {:induction false} TableShowsAll(program: Program, moments: seq<Moment>, supplied: Table, k: nat)
    requires k <= |program.steps| == |moments| && AllPass(program, moments, supplied, k) && Runnable(program)
    requires AllEntries(program.inputs, supplied) && forall id :: id in supplied ==> IsInput(program, id)
    ensures TableShows(program, k, TableOf(program.steps, k, supplied, Made(program.steps, moments, supplied.Keys, k)))
  {
    hide Passes, Made, MadeAt, ProductAt, Runnable, CapabilityIds, IsInput, AllEntries, EntryFor, TableOf, TableShows,
         WellShaped;
    if k > 0 {
      TableShowsAll(program, moments, supplied, k - 1);
      TableStep(program, moments, supplied, k - 1);
      RunnableSteps(program);
      assert Passes(program, moments, supplied, k - 1);
      var table := TableOf(program.steps, k - 1, supplied, Made(program.steps, moments, supplied.Keys, k - 1));
      if Borrowed(program.steps, k - 1, supplied.Keys) {
        InputServes(program, k - 1, supplied);
        ServesAs(supplied, program.steps[k - 1].declaration);
        TableGrows(program, k - 1, table, supplied[program.steps[k - 1].declaration.implementationId]);
      } else {
        OneDelivered(program, moments, supplied, k - 1);
        var entry := MadeAt(program.steps, moments, k - 1)[0];
        EntryIs(entry, ProductAt(program, moments, k - 1)[0].product, program.steps[k - 1].declaration);
        TableGrows(program, k - 1, table, entry);
      }
    } else {
      NothingShown(program, TableOf(program.steps, k, supplied, Made(program.steps, moments, supplied.Keys, k)));
    }
  }

  lemma NothingShown(program: Program, table: Table)
    ensures TableShows(program, 0, table)
  {
  }

  lemma RunnableSteps(program: Program)
    requires Runnable(program)
    ensures DistinctSteps(program.steps)
  {
  }

  lemma ServesAs(table: Table, d: Declaration)
    requires EntryFor(table, d)
    ensures d.implementationId in table && table[d.implementationId].implementationId == d.implementationId
    ensures table[d.implementationId].capabilities.Keys == CapabilityIds(d)
  {
  }

  /** What one more passed step puts into the table. */
  lemma TableStep(program: Program, moments: seq<Moment>, supplied: Table, k: nat)
    requires k < |program.steps| == |moments| && AllPass(program, moments, supplied, k + 1)
    ensures var steps, id := program.steps, program.steps[k].declaration.implementationId;
      var before, after :=
        TableOf(steps, k, supplied, Made(steps, moments, supplied.Keys, k)),
          TableOf(steps, k + 1, supplied, Made(steps, moments, supplied.Keys, k + 1));
      && (Borrowed(steps, k, supplied.Keys) ==> id in supplied && after == before[id := supplied[id]])
      && (!Borrowed(steps, k, supplied.Keys) ==>
        |MadeAt(steps, moments, k)| == 1 && after == before[id := MadeAt(steps, moments, k)[0]])
  {
    hide Passes, MadeAt, ProductAt, DeliveredAt, Made, Turns, Constructed, TableOf;
    var steps := program.steps;
    var made := Made(steps, moments, supplied.Keys, k);
    NextTurn(program, moments, supplied, k);
    assert AllPass(program, moments, supplied, k) && Passes(program, moments, supplied, k);
    MadeCount(program, moments, supplied, k);
    if Borrowed(steps, k, supplied.Keys) {
      BorrowedLast(steps, k, supplied, made);
    } else {
      OneDelivered(program, moments, supplied, k);
      assert MadeAt(steps, moments, k) == [MadeAt(steps, moments, k)[0]];
      NewestLast(steps, k + 1, supplied, made, MadeAt(steps, moments, k)[0]);
    }
  }

  lemma BorrowedLast(steps: seq<Step>, k: nat, supplied: Table, made: seq<CreatedEntry>)
    requires k < |steps| && Borrowed(steps, k, supplied.Keys)
    ensures steps[k].declaration.implementationId in supplied
    ensures TableOf(steps, k + 1, supplied, made) ==
      TableOf(steps, k, supplied, made)[steps[k].declaration.implementationId :=
        supplied[steps[k].declaration.implementationId]]
  {
  }

  lemma NewestLast(steps: seq<Step>, k: nat, supplied: Table, made: seq<CreatedEntry>, entry: CreatedEntry)
    requires 0 < k <= |steps|
    requires !Borrowed(steps, k - 1, supplied.Keys)
    requires |made| == |Constructed(steps, k - 1, supplied.Keys)|
    ensures TableOf(steps, k, supplied, made + [entry]) ==
      TableOf(steps, k - 1, supplied, made)[steps[k - 1].declaration.implementationId := entry]
  {
    TableKeeps(steps, k - 1, supplied, made, entry);
  }

  /** In a runnable program every root has been constructed. */
  lemma RootsThere(program: Program, table: Table)
    requires Runnable(program) && TableShows(program, |program.steps|, table)
    ensures RootsKnown(program.roots, table)
  {
    hide DistinctSteps, StepsReady, InputsMatch, CapabilityIds;
  }

  lemma SuppliedFits(program: Program, given: GivenInputs)
    requires Runnable(program) && InputsAdmitted(program.inputs, given)
    ensures AllEntries(program.inputs, SuppliedBy(program.inputs, given))
    ensures forall id :: id in SuppliedBy(program.inputs, given) ==> IsInput(program, id)
  {
    hide StepsReady, DistinctSteps, InputsAdmitted, SuppliedBy, AllEntries;
    LentInputs(program, given);
  }

  /** In a runnable program every step that the run comes to is equipped, and every root has been constructed. */
  lemma NeverMissing(program: Program, given: GivenInputs, moments: seq<Moment>, k: nat)
    requires k <= |program.steps| == |moments| && Runnable(program) && InputsAdmitted(program.inputs, given)
    requires AllPass(program, moments, SuppliedBy(program.inputs, given), k)
    ensures k < |program.steps| ==> Equipped(program, moments, SuppliedBy(program.inputs, given), k)
    ensures k == |program.steps| ==>
      var supplied := SuppliedBy(program.inputs, given);
      RootsKnown(program.roots, TableOf(program.steps, k, supplied, Made(program.steps, moments, supplied.Keys, k)))
  {
    hide Runnable, InputsAdmitted, SuppliedBy, AllPass, Made, TableOf, AllEntries, IsInput;
    var supplied := SuppliedBy(program.inputs, given);
    SuppliedFits(program, given);
    TableShowsAll(program, moments, supplied, k);
    var table := TableOf(program.steps, k, supplied, Made(program.steps, moments, supplied.Keys, k));
    if k < |program.steps| { NothingMissing(program, k, table); } else { RootsThere(program, table); }
  }

  /**
   * What lets a run succeed, without looking at the run: every factory called answers, and every commit takes its
   * entry.
   */
  ghost predicate Undisturbed(program: Program, given: GivenInputs, moments: seq<Moment>)
    requires |program.steps| == |moments|
  {
    forall k ::
      0 <= k < |program.steps| ==>
        !moments[k].cancelled
          && (IsInput(program, program.steps[k].declaration.implementationId) || Completes(program, moments, k))
  }

  ghost predicate Completes(program: Program, moments: seq<Moment>, k: nat)
    requires k < |program.steps| == |moments|
  {
    Answers(program.steps, moments, k) && moments[k].commit.appends && !moments[k].commit.throws
  }

  lemma PassesIff(program: Program, given: GivenInputs, moments: seq<Moment>, k: nat)
    requires k < |program.steps| == |moments| && Runnable(program) && InputsAdmitted(program.inputs, given)
    requires AllPass(program, moments, SuppliedBy(program.inputs, given), k)
    ensures Passes(program, moments, SuppliedBy(program.inputs, given), k) <==>
      !moments[k].cancelled
        && (IsInput(program, program.steps[k].declaration.implementationId) || Completes(program, moments, k))
  {
    hide Runnable, InputsAdmitted, SuppliedBy, AllPass, Equipped, Answers, IsInput, AllEntries;
    NeverMissing(program, given, moments, k);
    LentInputs(program, given);
  }

  /** A runnable program never fails for want of a capability or a root. */
  lemma NoInternalMiss(program: Program, cancelledFirst: bool, given: GivenInputs, moments: seq<Moment>,
                       cancelledLast: bool, outcome: Outcome, called: seq<nat>)
    requires |program.steps| == |moments|
    requires Attempted(program, cancelledFirst, given, moments, cancelledLast, outcome, called)
    requires Runnable(program)
    ensures outcome.Failed? ==> outcome.code != MissingCapability && outcome.code != MissingRoot
  {
    hide Runnable, InputsAdmitted, SuppliedBy, AllPass, Passes, Made, TableOf, Equipped, RootsKnown, Answers;
    if !cancelledFirst && InputsAdmitted(program.inputs, given) {
      var k: nat :| EndsAt(program, moments, SuppliedBy(program.inputs, given), cancelledLast, k, outcome, called);
      NeverMissing(program, given, moments, k);
    }
  }

  /**
   * A run of a runnable program succeeds exactly when it is never cancelled, its inputs are admitted, every factory
   * it calls answers with a complete product, and every commit takes its entry and returns.
   */
  lemma SucceedsIff(program: Program, cancelledFirst: bool, given: GivenInputs, moments: seq<Moment>,
                    cancelledLast: bool, outcome: Outcome, called: seq<nat>)
    requires |program.steps| == |moments|
    requires Attempted(program, cancelledFirst, given, moments, cancelledLast, outcome, called)
    requires Runnable(program)
    ensures outcome.Succeeded? <==>
      !cancelledFirst && InputsAdmitted(program.inputs, given) && Undisturbed(program, given, moments) && !cancelledLast
  {
    hide Runnable, InputsAdmitted, SuppliedBy, Passes, Made, TableOf, Equipped, RootsKnown, Answers, Completes, IsInput;
    if !cancelledFirst && InputsAdmitted(program.inputs, given) {
      var supplied := SuppliedBy(program.inputs, given);
      var k: nat :| EndsAt(program, moments, supplied, cancelledLast, k, outcome, called);
      NeverMissing(program, given, moments, k);
      forall j | 0 <= j < k
        ensures !moments[j].cancelled
        ensures IsInput(program, program.steps[j].declaration.implementationId) || Completes(program, moments, j)
      {
        assert Passes(program, moments, supplied, j);
        PassesIff(program, given, moments, j);
      }
      if k < |program.steps| { PassesIff(program, given, moments, k); }
    }
  }

  // ---- the attempt ----

  /** The state before step k. */
  ghost predicate Between(program: Program, moments: seq<Moment>, supplied: Table, k: nat, journal: seq<CreatedEntry>,
                          table: Table, called: seq<nat>)
    requires k <= |program.steps| == |moments|
  {
    && AllPass(program, moments, supplied, k)
    && journal == Made(program.steps, moments, supplied.Keys, k)
    && table == TableOf(program.steps, k, supplied, journal)
    && called == Turns(program.steps, supplied.Keys, k)
  }

  lemma Starting(program: Program, moments: seq<Moment>, supplied: Table)
    requires |program.steps| == |moments|
    ensures Between(program, moments, supplied, 0, [], map[], StepsOf([])) && CallsRight(program, supplied, [], [])
  {
  }

  /** One more step is passed: its input lent, or its product journalled. */
  lemma GoesOn(program: Program, moments: seq<Moment>, supplied: Table, k: nat, journal: seq<CreatedEntry>,
               table: Table, called: seq<nat>)
    requires k < |program.steps| == |moments|
    requires Between(program, moments, supplied, k, journal, table, called)
    requires Passes(program, moments, supplied, k)
    ensures Borrowed(program.steps, k, supplied.Keys) ==>
      var id := program.steps[k].declaration.implementationId;
      Between(program, moments, supplied, k + 1, journal, table[id := supplied[id]], called)
    ensures !Borrowed(program.steps, k, supplied.Keys) ==>
      var entry := EntryMade(moments[k].invocation.product, program.steps[k].declaration);
      && MadeAt(program.steps, moments, k) == [entry]
      && Between(program, moments, supplied, k + 1, journal + [entry], table[entry.implementationId := entry],
        called + [k])
  {
    hide Passes, MadeAt, ProductAt, DeliveredAt, Made, Turns, TableOf;
    assert AllPass(program, moments, supplied, k + 1);
    NextTurn(program, moments, supplied, k);
    TableStep(program, moments, supplied, k);
    if !Borrowed(program.steps, k, supplied.Keys) {
      OneDelivered(program, moments, supplied, k);
      EntryOfStep(program, moments, k);
    }
  }

  lemma EntryOfStep(program: Program, moments: seq<Moment>, k: nat)
    requires k < |program.steps| == |moments| && MadeAt(program.steps, moments, k) != []
    ensures Answers(program.steps, moments, k)
    ensures MadeAt(program.steps, moments, k) ==
      [EntryMade(moments[k].invocation.product, program.steps[k].declaration)]
  {
    hide WellShaped;
  }

  lemma CallIsRight(program: Program, moments: seq<Moment>, supplied: Table, journal: seq<CreatedEntry>, table: Table,
                    calls: seq<Call>, call: Call)
    requires call.step < |program.steps| == |moments|
    requires Between(program, moments, supplied, call.step, journal, table, StepsOf(calls))
    requires CallsRight(program, supplied, journal, calls) && !Borrowed(program.steps, call.step, supplied.Keys)
    requires DependenciesOf(table, program.steps[call.step].injections, call.dependencies)
    ensures CallsRight(program, supplied, journal, calls + [call])
    ensures StepsOf(calls + [call]) == StepsOf(calls) + [call.step]
  {
    hide DependenciesOf, TableOf, Constructed, Made, Turns, AllPass, Delivered;
    MadeCount(program, moments, supplied, call.step);
    assert forall c :: c in calls + [call] ==> c in calls || c == call;
  }

  /** What the caller finds of one attempt: custody, order, and nothing missing in a program that can run. */
  ghost predicate Settled(program: Program, given: GivenInputs, moments: seq<Moment>, outcome: Outcome,
                          called: seq<nat>)
    requires |program.steps| == |moments|
  {
    && Held(program, moments, called, outcome)
    && CreatedPrefix(program.steps, SuppliedBy(program.inputs, given).Keys, outcome.created)
    && InTurn(program.steps, SuppliedBy(program.inputs, given).Keys, called)
    && (Runnable(program) && outcome.Failed? ==> outcome.code != MissingCapability && outcome.code != MissingRoot)
  }

  lemma Settles(program: Program, cancelledFirst: bool, given: GivenInputs, moments: seq<Moment>, cancelledLast: bool,
                outcome: Outcome, called: seq<nat>)
    requires |program.steps| == |moments|
    requires Attempted(program, cancelledFirst, given, moments, cancelledLast, outcome, called)
    ensures Settled(program, given, moments, outcome, called)
  {
    hide Attempted, Held, CreatedPrefix, InTurn, Runnable, SuppliedBy;
    CallsInTurn(program, cancelledFirst, given, moments, cancelledLast, outcome, called);
    CustodyKept(program, cancelledFirst, given, moments, cancelledLast, outcome, called);
    if Runnable(program) { NoInternalMiss(program, cancelledFirst, given, moments, cancelledLast, outcome, called); }
  }

  /** Ending at step k, or after the last. */
  lemma Ends(program: Program, given: GivenInputs, moments: seq<Moment>, cancelledLast: bool, k: nat,
             outcome: Outcome, called: seq<nat>)
    requires |program.steps| == |moments| && InputsAdmitted(program.inputs, given)
    requires EndsAt(program, moments, SuppliedBy(program.inputs, given), cancelledLast, k, outcome, called)
    ensures Attempted(program, false, given, moments, cancelledLast, outcome, called)
    ensures Settled(program, given, moments, outcome, called)
  {
    hide EndsAt, InputsAdmitted, SuppliedBy, Settled;
    Settles(program, false, given, moments, cancelledLast, outcome, called);
  }

  /** The run is stopped by step k, before or after its factory is called. */
  lemma Stops(program: Program, given: GivenInputs, moments: seq<Moment>, cancelledLast: bool, k: nat,
              journal: seq<CreatedEntry>, table: Table,
              called: seq<nat>, outcome: Outcome)
    requires k < |program.steps| == |moments| && InputsAdmitted(program.inputs, given)
    requires Between(program, moments, SuppliedBy(program.inputs, given), k, journal, table, called)
    requires !Passes(program, moments, SuppliedBy(program.inputs, given), k)
    requires StopsAt(program, moments, SuppliedBy(program.inputs, given), k, outcome)
    ensures var all := called + LastTurn(program, moments, SuppliedBy(program.inputs, given), k);
      Attempted(program, false, given, moments, cancelledLast, outcome, all)
        && Settled(program, given, moments, outcome, all)
  {
    hide InputsAdmitted, SuppliedBy, AllPass, Passes, StopsAt, LastTurn, Turns, Made, TableOf, Attempted, Settled;
    Ends(program, given, moments, cancelledLast, k, outcome,
      called + LastTurn(program, moments, SuppliedBy(program.inputs, given), k));
  }

  lemma NeverStarts(program: Program, cancelledFirst: bool, given: GivenInputs, moments: seq<Moment>,
                    cancelledLast: bool, outcome: Outcome)
    requires |program.steps| == |moments|
    requires Attempted(program, cancelledFirst, given, moments, cancelledLast, outcome, StepsOf([]))
    ensures Settled(program, given, moments, outcome, StepsOf([]))
  {
    hide Settled, Attempted;
    Settles(program, cancelledFirst, given, moments, cancelledLast, outcome, StepsOf([]));
  }

  lemma EquippedIs(program: Program, moments: seq<Moment>, supplied: Table, k: nat, journal: seq<CreatedEntry>,
                   table: Table, called: seq<nat>)
    requires k < |program.steps| == |moments| && Between(program, moments, supplied, k, journal, table, called)
    ensures Equipped(program, moments, supplied, k) <==> AllSuppliedBy(table, program.steps[k].injections)
    ensures journal == Made(program.steps, moments, supplied.Keys, k) && called + [] == called
  {
    hide AllSuppliedBy, AllPass, Turns;
  }

  lemma NoRoots(program: Program, moments: seq<Moment>, supplied: Table, journal: seq<CreatedEntry>, table: Table,
                called: seq<nat>)
    requires |program.steps| == |moments|
    requires Between(program, moments, supplied, |program.steps|, journal, table, called)
    ensures journal == Made(program.steps, moments, supplied.Keys, |program.steps|)
    ensures table == TableOf(program.steps, |program.steps|, supplied, journal)
    ensures AllPass(program, moments, supplied, |program.steps|)
    ensures called ==
      Turns(program.steps, supplied.Keys, |program.steps|) + LastTurn(program, moments, supplied, |program.steps|)
  {
    hide AllPass, Turns, Made, TableOf;
    NoTurnLeft(program, moments, supplied);
  }

  // ---- where the dependencies come from ----

  ghost predicate ProductHolds(product: Product, capabilityId: Id, value: Value) {
    && product.Shaped? && product.capabilities.Some? && capabilityId in product.capabilities.value
    && value == product.capabilities.value[capabilityId]
  }

  ghost predicate LentHolds(inputs: seq<ProgramInput>, given: GivenInputs, id: Id, capabilityId: Id, value: Value) {
    given.Given? && exists m :: 0 <= m < |inputs| && LentAs(inputs[m], given.values, id, capabilityId, value)
  }

  ghost predicate LentAs(input: ProgramInput, values: map<string, Product>, id: Id, capabilityId: Id, value: Value) {
    && input.declaration.implementationId == id && input.alias in values
    && ProductHolds(values[input.alias], capabilityId, value)
  }

  /** The value is what the product of step j has under the capability, or the input that was lent in its place. */
  ghost predicate Provided(program: Program, given: GivenInputs, moments: seq<Moment>, j: nat, capabilityId: Id,
                           value: Value)
    requires j < |program.steps| == |moments|
  {
    var id := program.steps[j].declaration.implementationId;
    if IsInput(program, id) then LentHolds(program.inputs, given, id, capabilityId, value)
    else moments[j].invocation.Returned? && ProductHolds(moments[j].invocation.product, capabilityId, value)
  }

  /** The provider is an earlier step, and the value is provided there. */
  ghost predicate ComesFrom(program: Program, given: GivenInputs, moments: seq<Moment>, k: nat, provider: Id,
                            capabilityId: Id, value: Value)
    requires k <= |program.steps| == |moments|
  {
    exists j: nat ::
      j < k && program.steps[j].declaration.implementationId == provider
        && Provided(program, given, moments, j, capabilityId, value)
  }

  /** A slot of many gets a value from each of its providers, in their order; any other one from the first, if any. */
  ghost predicate Served(program: Program, given: GivenInputs, moments: seq<Moment>, k: nat, injection: Injection,
                         dependency: Dependency)
    requires k <= |program.steps| == |moments|
  {
    if injection.many then
      && dependency.Several? && |dependency.values| == |injection.providers|
      && forall i :: 0 <= i < |injection.providers| ==>
           ComesFrom(program, given, moments, k, injection.providers[i], injection.capabilityId, dependency.values[i])
    else if injection.providers == [] then dependency == One(None)
    else
      && dependency.One? && dependency.value.Some?
      && ComesFrom(program, given, moments, k, injection.providers[0], injection.capabilityId, dependency.value.value)
  }

  /** The call passes every slot of its step what the slot's providers have, and nothing else. */
  ghost predicate CallServed(program: Program, given: GivenInputs, moments: seq<Moment>, c: Call)
    requires |program.steps| == |moments|
  {
    && c.step < |program.steps|
    && var injections := program.steps[c.step].injections;
       && (forall s :: s in c.dependencies ==> exists i :: 0 <= i < |injections| && injections[i].slotId == s)
       && forall i :: 0 <= i < |injections| ==> ServedAt(program, given, moments, c, i)
  }

  ghost predicate ServedAt(program: Program, given: GivenInputs, moments: seq<Moment>, c: Call, i: nat)
    requires c.step < |program.steps| == |moments| && i < |program.steps[c.step].injections|
  {
    var injections := program.steps[c.step].injections;
    && injections[i].slotId in c.dependencies
    && (LastFor(injections, i) ==>
         Served(program, given, moments, c.step, injections[i], c.dependencies[injections[i].slotId]))
  }

  ghost predicate AllServed(program: Program, given: GivenInputs, moments: seq<Moment>, calls: seq<Call>)
    requires |program.steps| == |moments|
  {
    forall c :: c in calls ==> CallServed(program, given, moments, c)
  }

  lemma {:induction false} BorrowedHolds(inputs: seq<ProgramInput>, n: nat, values: map<string, Product>, id: Id,
                                         capabilityId: Id)
    requires n <= |inputs| && AllGiven(inputs, values, n) && id in BorrowedFrom(inputs, n, values)
    requires capabilityId in BorrowedFrom(inputs, n, values)[id].capabilities
    ensures var value := BorrowedFrom(inputs, n, values)[id].capabilities[capabilityId];
      exists m :: 0 <= m < n && LentAs(inputs[m], values, id, capabilityId, value)
  {
    if n > 0 {
      var d := inputs[n - 1].declaration;
      var value := BorrowedFrom(inputs, n, values)[id].capabilities[capabilityId];
      assert GivenAt(inputs, values, n - 1);
      if d.implementationId == id {
        assert LentAs(inputs[n - 1], values, id, capabilityId, value);
      } else {
        BorrowedHolds(inputs, n - 1, values, id, capabilityId);
      }
    }
  }

  lemma SuppliedHolds(program: Program, given: GivenInputs, id: Id, capabilityId: Id)
    requires InputsAdmitted(program.inputs, given) && id in SuppliedBy(program.inputs, given)
    requires capabilityId in SuppliedBy(program.inputs, given)[id].capabilities
    ensures LentHolds(program.inputs, given, id, capabilityId,
      SuppliedBy(program.inputs, given)[id].capabilities[capabilityId])
  {
    assert AllGiven(program.inputs, given.values, |program.inputs|);
    hide InputsAdmitted;
    BorrowedHolds(program.inputs, |program.inputs|, given.values, id, capabilityId);
  }

  /** Whatever a run finds in its table was lent to it, or is part of the product of an earlier step. */
  lemma {:induction false} TableProvides(program: Program, given: GivenInputs, moments: seq<Moment>, k: nat, q: Id,
                                         capabilityId: Id)
    requires k <= |program.steps| == |moments| && InputsAdmitted(program.inputs, given)
    requires AllPass(program, moments, SuppliedBy(program.inputs, given), k)
    requires var supplied := SuppliedBy(program.inputs, given);
      var table := TableOf(program.steps, k, supplied, Made(program.steps, moments, supplied.Keys, k));
      q in table && capabilityId in table[q].capabilities
    ensures var supplied := SuppliedBy(program.inputs, given);
      var table := TableOf(program.steps, k, supplied, Made(program.steps, moments, supplied.Keys, k));
      ComesFrom(program, given, moments, k, q, capabilityId, table[q].capabilities[capabilityId])
  {
    hide Passes, Made, MadeAt, ProductAt, DeliveredAt, InputsAdmitted, SuppliedBy, LentHolds, ProductHolds, IsInput,
         Constructed, TableOf;
    var supplied := SuppliedBy(program.inputs, given);
    if k == 0 {
      EmptyTable(program.steps, supplied, Made(program.steps, moments, supplied.Keys, 0));
    } else {
      TableStep(program, moments, supplied, k - 1);
      var id := program.steps[k - 1].declaration.implementationId;
      var table := TableOf(program.steps, k, supplied, Made(program.steps, moments, supplied.Keys, k));
      if q == id {
        LentInputs(program, given);
        if Borrowed(program.steps, k - 1, supplied.Keys) {
          SuppliedHolds(program, given, id, capabilityId);
        } else {
          assert Passes(program, moments, supplied, k - 1);
          StepProvides(program, moments, supplied, k - 1, capabilityId);
        }
        assert Provided(program, given, moments, k - 1, capabilityId, table[q].capabilities[capabilityId]);
      } else {
        TableProvides(program, given, moments, k - 1, q, capabilityId);
      }
    }
  }

  lemma EmptyTable(steps: seq<Step>, supplied: Table, created: seq<CreatedEntry>)
    ensures TableOf(steps, 0, supplied, created) == map[]
  {
  }

  lemma StepProvides(program: Program, moments: seq<Moment>, supplied: Table, k: nat, capabilityId: Id)
    requires k < |program.steps| == |moments|
    requires Passes(program, moments, supplied, k) && !Borrowed(program.steps, k, supplied.Keys)
    requires |MadeAt(program.steps, moments, k)| == 1
    requires capabilityId in MadeAt(program.steps, moments, k)[0].capabilities
    ensures moments[k].invocation.Returned?
    ensures ProductHolds(moments[k].invocation.product, capabilityId,
      MadeAt(program.steps, moments, k)[0].capabilities[capabilityId])
  {
    hide Equipped;
  }

  lemma CallIsServed(program: Program, given: GivenInputs, moments: seq<Moment>, journal: seq<CreatedEntry>,
                     table: Table, calls: seq<Call>, c: Call)
    requires c.step < |program.steps| == |moments| && InputsAdmitted(program.inputs, given)
    requires Between(program, moments, SuppliedBy(program.inputs, given), c.step, journal, table, StepsOf(calls))
    requires DependenciesOf(table, program.steps[c.step].injections, c.dependencies)
    requires AllServed(program, given, moments, calls)
    ensures AllServed(program, given, moments, calls + [c])
  {
    hide InputsAdmitted, SuppliedBy, Made, TableOf, Turns, AllPass, Provided, ComesFrom, Supplied;
    var injections := program.steps[c.step].injections;
    forall i | 0 <= i < |injections| ensures ServedAt(program, given, moments, c, i) {
      assert InjectedAt(table, injections, i, c.dependencies);
      if LastFor(injections, i) {
        forall q, value | Holds(table, q, injections[i].capabilityId, value)
          ensures ComesFrom(program, given, moments, c.step, q, injections[i].capabilityId, value) {
          TableProvides(program, given, moments, c.step, q, injections[i].capabilityId);
        }
        ServedBy(program, given, moments, c.step, table, injections[i], c.dependencies[injections[i].slotId]);
      }
    }
    hide DependenciesOf, ServedAt;
    assert CallServed(program, given, moments, c);
  }

  lemma ServedBy(program: Program, given: GivenInputs, moments: seq<Moment>, k: nat, table: Table,
                 injection: Injection, dependency: Dependency)
    requires k <= |program.steps| == |moments| && DependencyOf(table, injection, dependency)
    requires forall q, value :: Holds(table, q, injection.capabilityId, value) ==>
      ComesFrom(program, given, moments, k, q, injection.capabilityId, value)
    ensures Served(program, given, moments, k, injection, dependency)
  {
    hide ComesFrom, Holds;
  }

  /**
   * One attempt, for any factories, inputs, cancellation and commit helper: the calls and the outcome are those of
   * the first event that stops the run, every call gets exactly what its providers hold, and whatever happens the
   * products are in custody.
   */
  method RunAttempt(program: Program, cancelledFirst: bool, given: GivenInputs, moments: seq<Moment>,
                    cancelledLast: bool)
    returns (outcome: Outcome, calls: seq<Call>)
    requires |program.steps| == |moments|
    ensures Attempted(program, cancelledFirst, given, moments, cancelledLast, outcome, StepsOf(calls))
    ensures CallsRight(program, SuppliedBy(program.inputs, given), outcome.created, calls)
    ensures AllServed(program, given, moments, calls)
    ensures Settled(program, given, moments, outcome, StepsOf(calls))
  {
    hide Between, AllServed, EndsAt, Settled, CallsRight, InputsAdmitted, SuppliedBy, AllSuppliedBy, DependenciesOf,
         RootsFrom, Equipped, WellShaped, Made, TableOf, Turns, AllPass, StepsOf;
    var journal: seq<CreatedEntry> := [];
    var table: Table := map[];
    calls := [];
    NoCalls();
    NoneServed(program, given, moments);
    Starting(program, moments, SuppliedBy(program.inputs, given));
    if cancelledFirst {
      outcome := Cancelled([]);
      NeverStarts(program, true, given, moments, cancelledLast, outcome);
      return;
    }
    var borrowed := AdmitInputs(program.inputs, given);
    if borrowed.None? {
      outcome := Failed(Inputs, InvalidInputs, None, None, []);
      NeverStarts(program, false, given, moments, cancelledLast, outcome);
      return;
    }
    ghost var supplied := SuppliedBy(program.inputs, given);
    for k := 0 to |program.steps|
      invariant Between(program, moments, supplied, k, journal, table, StepsOf(calls))
      invariant CallsRight(program, supplied, journal, calls) && AllServed(program, given, moments, calls)
    {
      var step := program.steps[k];
      var id := step.declaration.implementationId;
      EquippedIs(program, moments, supplied, k, journal, table, StepsOf(calls));
      if moments[k].cancelled {
        outcome := Cancelled(journal);
        Stops(program, given, moments, cancelledLast, k, journal, table, StepsOf(calls), outcome);
        return;
      }
      if id in borrowed.value {
        GoesOn(program, moments, supplied, k, journal, table, StepsOf(calls));
        table := table[id := borrowed.value[id]];
        continue;
      }
      var dependencies := DependenciesFor(table, step.injections);
      if dependencies.None? {
        outcome := Failed(Internal, MissingCapability, Some(id), None, journal);
        Stops(program, given, moments, cancelledLast, k, journal, table, StepsOf(calls), outcome);
        return;
      }
      ghost var before := StepsOf(calls);
      CallIsRight(program, moments, supplied, journal, table, calls, Call(k, dependencies.value));
      CallIsServed(program, given, moments, journal, table, calls, Call(k, dependencies.value));
      calls := calls + [Call(k, dependencies.value)];
      var invoked := moments[k].invocation;
      if invoked.Refused? {
        var code := match invoked.refusal
                    case Threw => FactoryThrew
                    case Rejected => FactoryRejected
                    case Unsupported => UnsupportedCarrier;
        outcome := Failed(Factory, code, Some(id), None, journal);
        Stops(program, given, moments, cancelledLast, k, journal, table, before, outcome);
        return;
      }
      // The raw fulfilment is held before any part of the product is inspected.
      var returned := Some(Fulfilled(id, invoked.product));
      var entry := SnapshotProduct(invoked.product, step.declaration);
      if entry.None? {
        outcome := Failed(Completion, InvalidProduct, Some(id), returned, journal);
        Stops(program, given, moments, cancelledLast, k, journal, table, before, outcome);
        return;
      }
      var commit, held := moments[k].commit, journal;
      if commit.appends {
        CallsStayRight(program, supplied, journal, calls, entry.value);
        journal := journal + [entry.value];
        returned := None;
      }
      if commit.throws || returned.Some? {
        outcome :=
          Failed(Internal, if commit.throws then CommitThrew else UncommittedProduct, Some(id), returned, journal);
        Stops(program, given, moments, cancelledLast, k, held, table, before, outcome);
        return;
      }
      GoesOn(program, moments, supplied, k, held, table, before);
      table := table[id := entry.value];
    }
    NoRoots(program, moments, supplied, journal, table, StepsOf(calls));
    var roots := RootInstances(program.roots, table);
    if roots.None? {
      var current :=
        if program.steps == [] then None else Some(program.steps[|program.steps| - 1].declaration.implementationId);
      outcome := Failed(Internal, MissingRoot, current, None, journal);
    } else if cancelledLast {
      outcome := Cancelled(journal);
    } else {
      outcome := Succeeded(roots.value, journal);
    }
    RanOut(program, given, moments, cancelledLast, outcome, StepsOf(calls));
  }

  lemma NoneServed(program: Program, given: GivenInputs, moments: seq<Moment>)
    requires |program.steps| == |moments|
    ensures AllServed(program, given, moments, [])
  {
  }

  lemma NoCalls()
    ensures StepsOf([]) == []
  {
  }

  lemma RanOut(program: Program, given: GivenInputs, moments: seq<Moment>, cancelledLast: bool, outcome: Outcome,
               called: seq<nat>)
    requires |program.steps| == |moments| && InputsAdmitted(program.inputs, given)
    requires AllPass(program, moments, SuppliedBy(program.inputs, given), |program.steps|)
    requires RunsOut(program, moments, SuppliedBy(program.inputs, given), cancelledLast, outcome)
    requires var supplied := SuppliedBy(program.inputs, given);
      called ==
        Turns(program.steps, supplied.Keys, |program.steps|) + LastTurn(program, moments, supplied, |program.steps|)
    ensures Attempted(program, false, given, moments, cancelledLast, outcome, called)
    ensures Settled(program, given, moments, outcome, called)
  {
    hide InputsAdmitted, SuppliedBy, AllPass, RunsOut, Turns, LastTurn, Attempted, Settled;
    Ends(program, given, moments, cancelledLast, |program.steps|, outcome, called);
  }
}
