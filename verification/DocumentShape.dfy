/** Which locations of a document its schema can name (document-shape.ts), and which location owns a path. */
module DocumentShape {
  import opened Sequences
  import opened Paths

  datatype DocumentKind = DeclarationKind | ProfileKind

  /** A field declaration, as far as paths are concerned. */
  datatype Shape =
    | Leaf
    | RecordShape(fields: seq<FieldShape>)
    | ArrayShape(item: Shape)
    | Variants(variants: seq<Shape>)

  datatype FieldShape = FieldShape(name: string, shape: Shape)

  const LAST_INDEX: nat := 65535

  function Compatibility(): Shape {
    RecordShape([FieldShape("family", Leaf), FieldShape("familyVersion", Leaf), FieldShape("token", Leaf)])
  }

  function CardinalityShape(): Shape {
    Variants([
      RecordShape([FieldShape("kind", Leaf), FieldShape("min", Leaf), FieldShape("max", Leaf),
        FieldShape("order", Leaf)]),
      RecordShape([FieldShape("kind", Leaf)]),
      RecordShape([FieldShape("kind", Leaf)])])
  }

  function Provided(): Shape {
    RecordShape([FieldShape("capabilityId", Leaf), FieldShape("compatibility", Compatibility())])
  }

  function Slot(): Shape {
    RecordShape([FieldShape("slotId", Leaf), FieldShape("capabilityId", Leaf),
      FieldShape("compatibility", Compatibility()),
                 FieldShape("cardinality", CardinalityShape())])
  }

  function Owner(): Shape {
    RecordShape([FieldShape("authority", Leaf), FieldShape("path", ArrayShape(Leaf))])
  }

  function DeclarationShape(): Shape {
    RecordShape([FieldShape("kind", Leaf), FieldShape("schemaVersion", Leaf), FieldShape("moduleId", Leaf),
                 FieldShape("implementationId", Leaf), FieldShape("owner", Owner()),
                 FieldShape("provides", ArrayShape(Provided())), FieldShape("slots", ArrayShape(Slot()))])
  }

  function SelectionShape(): Shape {
    RecordShape([FieldShape("moduleId", Leaf), FieldShape("implementationId", Leaf)])
  }

  function BindingShape(): Shape {
    RecordShape([FieldShape("consumerImplementationId", Leaf), FieldShape("slotId", Leaf),
                 FieldShape("providerImplementationIds", ArrayShape(Leaf))])
  }

  function ProfileShape(): Shape {
    RecordShape([FieldShape("kind", Leaf), FieldShape("schemaVersion", Leaf), FieldShape("profileId", Leaf),
                 FieldShape("roots", ArrayShape(Leaf)), FieldShape("selections", ArrayShape(SelectionShape())),
                 FieldShape("bindings", ArrayShape(BindingShape()))])
  }

  function RootShape(kind: DocumentKind): Shape {
    if kind == DeclarationKind then DeclarationShape() else ProfileShape()
  }

  // ---- projection ----

  function FieldsNamed(fields: seq<FieldShape>, name: string): seq<Shape> {
    if fields == [] then []
    else
      FieldsNamed(fields[..|fields| - 1], name)
        + if fields[|fields| - 1].name == name then [fields[|fields| - 1].shape] else []
  }

  function VariantsNamed(variants: seq<Shape>, name: string): seq<Shape> {
    if variants == [] then []
    else
      var last := variants[|variants| - 1];
      VariantsNamed(variants[..|variants| - 1], name) + if last.RecordShape? then FieldsNamed(last.fields, name) else []
  }

  ghost function Children(shape: Shape, segment: Segment): seq<Shape> {
    match shape
    case Leaf => []
    case RecordShape(fields) => if segment.Field? then FieldsNamed(fields, segment.name) else []
    case ArrayShape(item) => if segment.Index? && segment.index <= LAST_INDEX then [item] else []
    case Variants(variants) => if segment.Field? then VariantsNamed(variants, segment.name) else []
  }

  ghost function ProjectedShapes(current: seq<Shape>, segment: Segment): seq<Shape> {
    if current == [] then []
    else ProjectedShapes(current[..|current| - 1], segment) + Children(current[|current| - 1], segment)
  }

  ghost predicate Representable(segment: Segment, next: seq<Shape>) {
    if segment.Index? then segment.index <= LAST_INDEX else |next| > 0
  }

  /** The candidates after a path, as long as every segment of it can be named. */
  ghost function Candidates(kind: DocumentKind, path: Path): seq<Shape> {
    if path == [] then [RootShape(kind)]
    else
      var before := Candidates(kind, path[..|path| - 1]);
      var next := ProjectedShapes(before, path[|path| - 1]);
      if |next| > 0 then next else before
  }

  /** Whether the schema can name one more segment after this path. */
  ghost predicate CanName(kind: DocumentKind, path: Path, segment: Segment) {
    Representable(segment, ProjectedShapes(Candidates(kind, path), segment))
  }

  /** Every segment of the path can be named after the ones before it. */
  ghost predicate Safe(kind: DocumentKind, path: Path) {
    forall i :: 0 <= i < |path| ==> CanName(kind, path[..i], path[i])
  }

  /** The longest safe prefix of a path. */
  ghost predicate IsProjection(kind: DocumentKind, path: Path, safe: Path) {
    && |safe| <= |path| && safe == path[..|safe|] && Safe(kind, safe)
    && (|safe| < |path| ==> !CanName(kind, safe, path[|safe|]))
  }

  method ProjectShapes(current: seq<Shape>, segment: Segment) returns (next: seq<Shape>)
    ensures next == ProjectedShapes(current, segment)
  {
    next := [];
    var i := 0;
    while i < |current|
      invariant 0 <= i <= |current| && next == ProjectedShapes(current[..i], segment)
    {
      assert current[..i + 1][..i] == current[..i];
      var shape := current[i];
      if shape.RecordShape? && segment.Field? {
        next := next + FieldsNamed(shape.fields, segment.name);
      } else if shape.ArrayShape? && segment.Index? && segment.index <= LAST_INDEX {
        next := next + [shape.item];
      } else if shape.Variants? && segment.Field? {
        next := next + VariantsNamed(shape.variants, segment.name);
      }
      i := i + 1;
    }
    assert current[..i] == current;
  }

  lemma NextShapes(kind: DocumentKind, path: Path, segment: Segment)
    ensures var next := ProjectedShapes(Candidates(kind, path), segment);
      Candidates(kind, path + [segment]) == if |next| > 0 then next else Candidates(kind, path)
  {
    assert (path + [segment])[..|path|] == path;
  }

  lemma NextNamed(kind: DocumentKind, path: Path, segment: Segment, next: seq<Shape>)
    requires next == ProjectedShapes(Candidates(kind, path), segment)
    ensures CanName(kind, path, segment) <==>
      if segment.Index? then segment.index <= LAST_INDEX else |next| != 0
  {
    hide Candidates, ProjectedShapes;
  }

  lemma StopsHere(kind: DocumentKind, segments: Path, path: Path)
    requires |path| <= |segments| && path == segments[..|path|] && Safe(kind, path)
    requires |path| < |segments| ==> !CanName(kind, path, segments[|path|])
    ensures IsProjection(kind, segments, path) && path == Project(kind, segments)
  {
    hide CanName, Project;
    ProjectIs(kind, segments);
    ProjectionUnique(kind, segments, path, Project(kind, segments));
  }

  method SchemaSafeLocalPath(kind: DocumentKind, segments: Path) returns (path: Path)
    ensures IsProjection(kind, segments, path) && path == Project(kind, segments)
  {
    hide RootShape, ProjectedShapes, Candidates, CanName, Safe, Project, IsProjection;
    path := [];
    NothingUnsafe(kind);
    var current := [RootShape(kind)];
    var i := 0;
    while i < |segments|
      invariant 0 <= i <= |segments| && path == segments[..i] && Safe(kind, path)
      invariant current == Candidates(kind, path)
    {
      var next := ProjectShapes(current, segments[i]);
      NextNamed(kind, path, segments[i], next);
      NextShapes(kind, path, segments[i]);
      assert segments[..i + 1][..i] == segments[..i];
      if (if segments[i].Index? then segments[i].index > LAST_INDEX else |next| == 0) {
        StopsHere(kind, segments, path);
        return;
      }
      SafeMore(kind, path, segments[i]);
      path := path + [segments[i]];
      assert path[..i] == segments[..i];
      if |next| > 0 { current := next; }
      i := i + 1;
    }
    assert segments[..i] == segments;
    StopsHere(kind, segments, path);
  }

  lemma NothingUnsafe(kind: DocumentKind)
    ensures Safe(kind, []) && Candidates(kind, []) == [RootShape(kind)]
  {
  }

  lemma SafeMore(kind: DocumentKind, path: Path, segment: Segment)
    requires Safe(kind, path)
    ensures Safe(kind, path + [segment]) <==> CanName(kind, path, segment)
  {
    hide CanName;
    var all := path + [segment];
    assert all[..|path|] == path;
    forall i | 0 <= i < |path| ensures CanName(kind, all[..i], all[i]) {
      assert all[..i] == path[..i];
    }
  }

  lemma SafeStep(kind: DocumentKind, path: Path, safe: Path, k: nat)
    requires Safe(kind, safe) && k < |safe| <= |path| && safe == path[..|safe|]
    ensures CanName(kind, path[..k], path[k])
  {
    hide CanName;
    assert CanName(kind, safe[..k], safe[k]);
    assert safe[..k] == path[..k];
  }

  lemma ProjectionUnique(kind: DocumentKind, path: Path, a: Path, b: Path)
    requires IsProjection(kind, path, a) && IsProjection(kind, path, b)
    ensures a == b
  {
    hide CanName;
    if |a| < |b| { SafeStep(kind, path, b, |a|); }
    if |b| < |a| { SafeStep(kind, path, a, |b|); }
  }

  /** The longest safe prefix. */
  ghost function Project(kind: DocumentKind, path: Path): Path {
    if path == [] then []
    else
      var init := path[..|path| - 1];
      var safe := Project(kind, init);
      if safe == init && CanName(kind, init, path[|path| - 1]) then path else safe
  }

  lemma {:induction false} ProjectIs(kind: DocumentKind, path: Path)
    ensures IsProjection(kind, path, Project(kind, path))
  {
    hide CanName;
    if path != [] {
      var n := |path| - 1;
      var safe := Project(kind, path[..n]);
      ProjectIs(kind, path[..n]);
      if safe == path[..n] && CanName(kind, path[..n], path[n]) {
        SafeMore(kind, path[..n], path[n]);
        assert path[..n] + [path[n]] == path && path[..|path|] == path;
      } else {
        assert safe == path[..n][..|safe|] == path[..|safe|];
      }
    }
  }

  // ---- owners ----

  /** How many segments of a local path a diagnostic can carry. */
  function Capacity(kind: DocumentKind): nat { if kind == DeclarationKind then 30 else 31 }

  /** The location a finding at this path is reported at. */
  ghost function OwnerOf(kind: DocumentKind, path: Path): Path {
    var safe := Project(kind, path);
    if |safe| <= Capacity(kind) then safe else safe[..Capacity(kind)]
  }

  /** A location findings can be reported at. */
  ghost predicate Location(kind: DocumentKind, path: Path) {
    Safe(kind, path) && |path| <= Capacity(kind)
  }

  /** Whether a finding below this location and segment belongs to a location further down. */
  ghost predicate Admits(kind: DocumentKind, path: Path, segment: Segment) {
    |path| < Capacity(kind) && CanName(kind, path, segment)
  }

  lemma SafePrefix(kind: DocumentKind, path: Path, rest: Path)
    requires Safe(kind, path)
    ensures path <= Project(kind, path + rest)
  {
    hide CanName, Project;
    var all := path + rest;
    ProjectIs(kind, all);
    var safe := Project(kind, all);
    assert path == all[..|path|];
    if |safe| < |path| { SafeStep(kind, all, path, |safe|); }
  }

  /** Findings below a location are reported at it or further down, as the next segment decides. */
  lemma OwnerBelow(kind: DocumentKind, path: Path, rest: Path)
    requires Location(kind, path)
    ensures path <= OwnerOf(kind, path + rest)
    ensures rest == [] || !Admits(kind, path, rest[0]) ==> OwnerOf(kind, path + rest) == path
    ensures rest != [] && Admits(kind, path, rest[0]) ==>
      Location(kind, path + [rest[0]]) && path + [rest[0]] <= OwnerOf(kind, path + rest)
  {
    hide CanName, Project;
    var all := path + rest;
    SafePrefix(kind, path, rest);
    ProjectIs(kind, all);
    var safe := Project(kind, all);
    if rest != [] {
      SafeMore(kind, path, rest[0]);
      assert all[|path|] == rest[0];
      if Admits(kind, path, rest[0]) {
        SafePrefix(kind, path + [rest[0]], rest[1..]);
        assert path + [rest[0]] + rest[1..] == all;
      } else {
        if |safe| > |path| && |path| < Capacity(kind) { SafeStep(kind, all, safe, |path|); }
      }
    } else {
      assert all == path;
    }
  }

  /** The root is a location, and every path is owned by one. */
  lemma OwnersAreLocations(kind: DocumentKind, path: Path)
    ensures Location(kind, []) && Location(kind, OwnerOf(kind, path)) && OwnerOf(kind, path) <= path
  {
    hide CanName, Project;
    ProjectIs(kind, path);
    var safe, cap := Project(kind, path), Capacity(kind);
    if |safe| > cap {
      forall i | 0 <= i < cap ensures CanName(kind, safe[..cap][..i], safe[..cap][i]) {
        assert safe[..cap][..i] == safe[..i];
      }
    }
  }

  /** A location owns itself, and nothing else does. */
  lemma LocationIffSelfOwned(kind: DocumentKind, path: Path)
    ensures Location(kind, path) <==> OwnerOf(kind, path) == path
  {
    OwnersAreLocations(kind, path);
    if Location(kind, path) {
      OwnerBelow(kind, path, []);
      assert path + [] == path;
    }
  }

  /** Indices stay admitted downwards, so items beyond the first that is not never have a location of their own. */
  lemma AdmittedIndices(kind: DocumentKind, path: Path, i: nat)
    ensures Admits(kind, path, Index(i)) <==> |path| < Capacity(kind) && i <= LAST_INDEX
  {
  }

  /** Projecting one segment more either keeps it or drops it. */
  lemma ProjectOne(kind: DocumentKind, path: Path, segment: Segment)
    requires Safe(kind, path)
    ensures Project(kind, path + [segment]) == if CanName(kind, path, segment) then path + [segment] else path
  {
    hide CanName, Project;
    var all := path + [segment];
    ProjectIs(kind, all);
    SafeMore(kind, path, segment);
    assert all[..|path|] == path && all[..|all|] == all && all[|path|] == segment;
    ProjectionUnique(kind, all, Project(kind, all), if CanName(kind, path, segment) then all else path);
  }

  // ---- the address of a diagnostic ----

  const ADDRESS_SEGMENTS: nat := 32

  /** How a document is found among those of one call: a declaration by its place, the profile by name. */
  ghost function Locator(kind: DocumentKind, ordinal: nat): Path {
    if kind == DeclarationKind then [Field("declarations"), Index(ordinal)] else [Field("profile")]
  }

  /** The address of a finding: the document, and the longest nameable part of the path, cut at 32 segments in all. */
  lemma AddressFits(kind: DocumentKind, ordinal: nat, path: Path)
    ensures var whole := Locator(kind, ordinal) + Project(kind, path);
      Locator(kind, ordinal) + OwnerOf(kind, path) ==
        if |whole| <= ADDRESS_SEGMENTS then whole else whole[..ADDRESS_SEGMENTS]
  {
    hide Project;
    var safe, locator := Project(kind, path), Locator(kind, ordinal);
    if |locator + safe| > ADDRESS_SEGMENTS {
      assert (locator + safe)[..ADDRESS_SEGMENTS] == locator + safe[..ADDRESS_SEGMENTS - |locator|];
    }
  }

  // ---- which names there are ----

  /** After this path a document may have exactly these names. */
  ghost predicate Allows(kind: DocumentKind, path: Path, names: seq<string>) {
    forall name :: CanName(kind, path, Field(name)) <==> name in names
  }

  lemma OneShape(shape: Shape, segment: Segment)
    ensures ProjectedShapes([shape], segment) == Children(shape, segment)
  {
    assert [shape][..0] == [];
  }

  lemma FieldShapes(kind: DocumentKind, path: Path, shape: Shape, name: string, next: Shape)
    requires Candidates(kind, path) == [shape] && shape.RecordShape? && FieldsNamed(shape.fields, name) == [next]
    ensures Candidates(kind, path + [Field(name)]) == [next]
  {
    hide FieldsNamed, Candidates;
    NextShapes(kind, path, Field(name));
    OneShape(shape, Field(name));
  }

  lemma ItemShapes(kind: DocumentKind, path: Path, item: Shape, i: nat)
    requires Candidates(kind, path) == [ArrayShape(item)] && i <= LAST_INDEX
    ensures Candidates(kind, path + [Index(i)]) == [item]
  {
    hide Candidates;
    NextShapes(kind, path, Index(i));
    OneShape(ArrayShape(item), Index(i));
  }

  ghost function NamesOf(fields: seq<FieldShape>): (r: seq<string>)
    ensures |r| == |fields| && forall i :: 0 <= i < |r| ==> r[i] == fields[i].name
  {
    seq(|fields|, i requires 0 <= i < |fields| => fields[i].name)
  }

  lemma {:induction false} FieldsNamedSome(fields: seq<FieldShape>, name: string)
    ensures |FieldsNamed(fields, name)| > 0 <==> name in NamesOf(fields)
  {
    if fields != [] {
      var front, last := fields[..|fields| - 1], fields[|fields| - 1];
      FieldsNamedSome(front, name);
      assert NamesOf(fields) == NamesOf(front) + [last.name];
    }
  }

  lemma RecordAllows(kind: DocumentKind, path: Path, shape: Shape)
    requires Candidates(kind, path) == [shape] && shape.RecordShape?
    ensures Allows(kind, path, NamesOf(shape.fields))
  {
    hide Candidates, NamesOf, FieldsNamed;
    forall name ensures CanName(kind, path, Field(name)) <==> name in NamesOf(shape.fields) {
      OneShape(shape, Field(name));
      FieldsNamedSome(shape.fields, name);
    }
  }

  /** The names of a declaration and of a profile. */
  lemma RootAllows()
    ensures Allows(DeclarationKind, [],
      ["kind", "schemaVersion", "moduleId", "implementationId", "owner", "provides", "slots"])
    ensures Allows(ProfileKind, [], ["kind", "schemaVersion", "profileId", "roots", "selections", "bindings"])
  {
    hide Owner, Provided, Slot, SelectionShape, BindingShape, CanName, NamesOf;
    RecordAllows(DeclarationKind, [], DeclarationShape());
    RecordAllows(ProfileKind, [], ProfileShape());
    assert NamesOf(DeclarationShape().fields) ==
      ["kind", "schemaVersion", "moduleId", "implementationId", "owner", "provides", "slots"];
    assert NamesOf(ProfileShape().fields) ==
      ["kind", "schemaVersion", "profileId", "roots", "selections", "bindings"];
  }

  lemma RootFields()
    ensures FieldsNamed(DeclarationShape().fields, "owner") == [Owner()]
    ensures FieldsNamed(DeclarationShape().fields, "provides") == [ArrayShape(Provided())]
    ensures FieldsNamed(DeclarationShape().fields, "slots") == [ArrayShape(Slot())]
    ensures FieldsNamed(ProfileShape().fields, "selections") == [ArrayShape(SelectionShape())]
    ensures FieldsNamed(ProfileShape().fields, "bindings") == [ArrayShape(BindingShape())]
  {
    hide Owner, Provided, Slot, SelectionShape, BindingShape, FieldsNamed;
    LastField(DeclarationShape().fields, 4);
    LastField(DeclarationShape().fields, 5);
    LastField(DeclarationShape().fields, 6);
    LastField(ProfileShape().fields, 4);
    LastField(ProfileShape().fields, 5);
  }

  /** A name that stands once has the shape that stands with it. */
  lemma {:induction false} LastField(fields: seq<FieldShape>, k: nat)
    requires k < |fields|
    requires forall i :: 0 <= i < |fields| && i != k ==> fields[i].name != fields[k].name
    ensures FieldsNamed(fields, fields[k].name) == [fields[k].shape]
  {
    var front := fields[..|fields| - 1];
    if k < |front| {
      LastField(front, k);
    } else {
      FieldsNamedSome(front, fields[k].name);
    }
  }

  lemma ListItem(kind: DocumentKind, list: string, item: Shape, i: nat)
    requires i <= LAST_INDEX && RootShape(kind).RecordShape?
    requires FieldsNamed(RootShape(kind).fields, list) == [ArrayShape(item)]
    ensures Candidates(kind, [Field(list), Index(i)]) == [item]
  {
    hide RootShape, FieldsNamed, Candidates;
    NothingUnsafe(kind);
    FieldShapes(kind, [], RootShape(kind), list, ArrayShape(item));
    assert [] + [Field(list)] == [Field(list)] && [Field(list)] + [Index(i)] == [Field(list), Index(i)];
    ItemShapes(kind, [Field(list)], item, i);
  }

  /** The names inside the records of a document, whatever their place in their list. */
  lemma ItemsAllow(i: nat)
    requires i <= LAST_INDEX
    ensures Allows(DeclarationKind, [Field("provides"), Index(i)], ["capabilityId", "compatibility"])
    ensures Allows(DeclarationKind, [Field("slots"), Index(i)],
      ["slotId", "capabilityId", "compatibility", "cardinality"])
    ensures Allows(ProfileKind, [Field("selections"), Index(i)], ["moduleId", "implementationId"])
    ensures Allows(ProfileKind, [Field("bindings"), Index(i)],
      ["consumerImplementationId", "slotId", "providerImplementationIds"])
  {
    hide CanName, NamesOf, Candidates, Compatibility, CardinalityShape, FieldsNamed, Allows, Owner, DeclarationShape,
         ProfileShape;
    RootFields();
    RootsAre();
    ListItem(DeclarationKind, "provides", Provided(), i);
    RecordAllows(DeclarationKind, [Field("provides"), Index(i)], Provided());
    assert NamesOf(Provided().fields) == ["capabilityId", "compatibility"];
    ListItem(DeclarationKind, "slots", Slot(), i);
    RecordAllows(DeclarationKind, [Field("slots"), Index(i)], Slot());
    assert NamesOf(Slot().fields) == ["slotId", "capabilityId", "compatibility", "cardinality"];
    ListItem(ProfileKind, "selections", SelectionShape(), i);
    RecordAllows(ProfileKind, [Field("selections"), Index(i)], SelectionShape());
    assert NamesOf(SelectionShape().fields) == ["moduleId", "implementationId"];
    ListItem(ProfileKind, "bindings", BindingShape(), i);
    RecordAllows(ProfileKind, [Field("bindings"), Index(i)], BindingShape());
    assert NamesOf(BindingShape().fields) == ["consumerImplementationId", "slotId", "providerImplementationIds"];
  }

  lemma RootsAre()
    ensures RootShape(DeclarationKind) == DeclarationShape() && DeclarationShape().RecordShape?
    ensures RootShape(ProfileKind) == ProfileShape() && ProfileShape().RecordShape?
  {
    hide Owner, Provided, Slot, SelectionShape, BindingShape;
  }

  /** The owner of a module, what a capability or slot is compatible with, and how many providers a slot takes. */
  lemma PartsAllow(i: nat)
    requires i <= LAST_INDEX
    ensures Allows(DeclarationKind, [Field("owner")], ["authority", "path"])
    ensures Allows(DeclarationKind, [Field("provides"), Index(i)] + [Field("compatibility")],
      ["family", "familyVersion", "token"])
    ensures Allows(DeclarationKind, [Field("slots"), Index(i)] + [Field("compatibility")],
      ["family", "familyVersion", "token"])
    ensures Allows(DeclarationKind, [Field("slots"), Index(i)] + [Field("cardinality")],
      ["kind", "min", "max", "order"])
  {
    hide CanName, NamesOf, Candidates, FieldsNamed, Allows, DeclarationShape, ProfileShape, CardinalityShape;
    RootFields();
    RootsAre();
    NothingUnsafe(DeclarationKind);
    FieldShapes(DeclarationKind, [], DeclarationShape(), "owner", Owner());
    assert [] + [Field("owner")] == [Field("owner")];
    RecordAllows(DeclarationKind, [Field("owner")], Owner());
    assert NamesOf(Owner().fields) == ["authority", "path"];
    assert NamesOf(Compatibility().fields) == ["family", "familyVersion", "token"];
    ListItem(DeclarationKind, "provides", Provided(), i);
    LastField(Provided().fields, 1);
    FieldShapes(DeclarationKind, [Field("provides"), Index(i)], Provided(), "compatibility", Compatibility());
    RecordAllows(DeclarationKind, [Field("provides"), Index(i)] + [Field("compatibility")], Compatibility());
    ListItem(DeclarationKind, "slots", Slot(), i);
    LastField(Slot().fields, 2);
    LastField(Slot().fields, 3);
    FieldShapes(DeclarationKind, [Field("slots"), Index(i)], Slot(), "compatibility", Compatibility());
    RecordAllows(DeclarationKind, [Field("slots"), Index(i)] + [Field("compatibility")], Compatibility());
    FieldShapes(DeclarationKind, [Field("slots"), Index(i)], Slot(), "cardinality", CardinalityShape());
    CardinalityAllows(DeclarationKind, [Field("slots"), Index(i)] + [Field("cardinality")]);
  }

  /** Every way to ask for providers contributes its names. */
  lemma CardinalityAllows(kind: DocumentKind, path: Path)
    requires Candidates(kind, path) == [CardinalityShape()]
    ensures Allows(kind, path, ["kind", "min", "max", "order"])
  {
    hide Candidates, FieldsNamed, VariantsNamed;
    var variants := CardinalityShape().variants;
    forall name ensures CanName(kind, path, Field(name)) <==> name in ["kind", "min", "max", "order"] {
      OneShape(CardinalityShape(), Field(name));
      VariantsNamedSome(variants, name);
      assert NamesOf(variants[0].fields) == ["kind", "min", "max", "order"];
      assert NamesOf(variants[1].fields) == ["kind"] && NamesOf(variants[2].fields) == ["kind"];
    }
  }

  lemma {:induction false} VariantsNamedSome(variants: seq<Shape>, name: string)
    requires forall i :: 0 <= i < |variants| ==> variants[i].RecordShape?
    ensures |VariantsNamed(variants, name)| > 0 <==>
      exists i :: 0 <= i < |variants| && name in NamesOf(variants[i].fields)
  {
    hide FieldsNamed, NamesOf;
    if variants != [] {
      var n := |variants| - 1;
      VariantsNamedSome(variants[..n], name);
      FieldsNamedSome(variants[n].fields, name);
      assert forall i :: 0 <= i < n ==> variants[..n][i] == variants[i];
    }
  }
}
