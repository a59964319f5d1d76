/** Strict-contract schema canonicalisation. */
module Canonical {
  import opened JsonValues
  import opened Counting
  import opened Sorting

  /** `components` of the document configuration, and the JSON printer used to order arrays. */
  datatype Config = Config(components: map<string, Json>, render: Printer)

  /** A reference on the resolution stack. The key of a local definition does not say which
      root it was looked up in. */
  datatype RefKey = Local(name: string) | Component(name: string)

  datatype Target = Target(schema: Json, root: Json, key: RefKey)

  const LOCAL_PREFIX := "#/$defs/"
  const COMPONENT_PREFIX := "#/components/schemas/"

  function ObjectAt(value: Json, key: string): map<string, Json> {
    match Get(value, key)
    case Some(Obj(fields)) => fields
    case _ => map[]
  }

  function Definitions(root: Json): map<string, Json> { ObjectAt(root, "$defs") }

  function Schemas(config: Config): map<string, Json> { ObjectAt(Obj(config.components), "schemas") }

  function Resolve(config: Config, reference: string, root: Json): Option<Target> {
    if LOCAL_PREFIX <= reference then
      var name := reference[|LOCAL_PREFIX|..];
      if name in Definitions(root) then Some(Target(Definitions(root)[name], root, Local(name))) else None
    else if COMPONENT_PREFIX <= reference then
      var name := reference[|COMPONENT_PREFIX|..];
      if name == "" || '/' in name || name !in Schemas(config) then None
      else Some(Target(Schemas(config)[name], Schemas(config)[name], Component(name)))
    else
      None
  }

  predicate Ignored(key: string) {
    key in {"$schema", "$id", "title", "description", "examples", "example", "default",
            "deprecated", "readOnly", "writeOnly"}
  }

  /** Members that survive in an object without a reference. */
  predicate Kept(key: string) { !Ignored(key) && key != "$defs" }

  /** Members that survive beside a reference; `$defs` is among them. */
  predicate KeptBeside(key: string) { !Ignored(key) && key != "$ref" }

  function ByText(render: Printer): (Json, Json) -> bool {
    (a, b) => StringLe(render(a), render(b))
  }

  function SortIfArray(config: Config, value: Json): Json {
    if value.Arr? then Arr(Sort(ByText(config.render), value.items)) else value
  }

  function Finish(config: Config, key: string, value: Json): Json {
    if key == "required" || key == "enum" then SortIfArray(config, value) else value
  }

  function Reference(schema: Json): Option<string> { GetStr(schema, "$ref") }

  /** Every key that a resolution started under `root` can push. */
  ghost function Universe(config: Config, root: Json): set<RefKey> {
    (set n | n in Definitions(root) :: Local(n))
    + (set s, n | s in Schemas(config) && n in Definitions(Schemas(config)[s]) :: Local(n))
    + (set n | n in Schemas(config) :: Component(n))
  }

  ghost function Fresh(config: Config, root: Json, refs: set<RefKey>): nat {
    |Universe(config, root) - refs|
  }

  /** Following a reference that is not on the stack leaves strictly fewer keys to push. */
  lemma ResolveDescends(config: Config, reference: string, root: Json, refs: set<RefKey>)
    requires Resolve(config, reference, root).Some?
    requires Resolve(config, reference, root).value.key !in refs
    ensures var t := Resolve(config, reference, root).value;
            Fresh(config, t.root, refs + {t.key}) < Fresh(config, root, refs)
  {
    var t := Resolve(config, reference, root).value;
    var before := Universe(config, root) - refs;
    var after := Universe(config, t.root) - (refs + {t.key});
    assert t.key in before;
    assert Universe(config, t.root) <= Universe(config, root);
    assert after <= before - {t.key};
    SubsetIsSmaller(after, before - {t.key});
  }

  /** The members of an object that canonicalisation visits. */
  predicate Visited(schema: Json, key: string)
    requires schema.Obj?
  {
    key in schema.fields && if Reference(schema).Some? then KeptBeside(key) else Kept(key)
  }

  predicate AllOk(results: map<string, Result<Json>>) {
    forall k | k in results :: results[k].Ok?
  }

  function Values(results: map<string, Result<Json>>): map<string, Json>
    requires AllOk(results)
  {
    map k | k in results :: results[k].value
  }

  /** An object without a reference, from its members' results. */
  function JoinMembers(config: Config, results: map<string, Result<Json>>): Result<Json> {
    if AllOk(results) then Ok(Obj(map k | k in results :: Finish(config, k, results[k].value))) else Err
  }

  /** A reference, from its target's result and the results of the members beside it. */
  function JoinReference(base: Result<Json>, beside: map<string, Result<Json>>): Result<Json> {
    if base.Ok? && base.value.Obj? && AllOk(beside) then Ok(Obj(base.value.fields + Values(beside))) else Err
  }

  function JoinItems(results: seq<Result<Json>>): Result<Json> {
    if forall i | 0 <= i < |results| :: results[i].Ok? then
      Ok(Arr(seq(|results|, i requires 0 <= i < |results| && results[i].Ok? => results[i].value)))
    else Err
  }

  /** The canonical form, as a function of the schema, the root its local references use, and the
      references being resolved. Total on every schema graph: a reference either fails, or pushes
      a key that was not on the stack, or the recursion is on a smaller schema. */
  function Canon(config: Config, schema: Json, root: Json, refs: set<RefKey>): Result<Json>
    decreases Fresh(config, root, refs), schema
  {
    match schema
    case Obj(fields) =>
      var members := map k | k in fields && Visited(schema, k) :: Canon(config, fields[k], root, refs);
      (match Reference(schema)
       case None => JoinMembers(config, members)
       case Some(reference) =>
         match Resolve(config, reference, root)
         case None => Err
         case Some(t) =>
           if t.key in refs then Err else
           ResolveDescends(config, reference, root, refs);
           JoinReference(Canon(config, t.schema, t.root, refs + {t.key}), members))
    case Arr(items) =>
      JoinItems(seq(|items|, i requires 0 <= i < |items| => Canon(config, items[i], root, refs)))
    case _ => Ok(schema)
  }

  function Members(config: Config, schema: Json, root: Json, refs: set<RefKey>): map<string, Result<Json>>
    requires schema.Obj?
  {
    map k | k in schema.fields && Visited(schema, k) :: Canon(config, schema.fields[k], root, refs)
  }

  function Items(config: Config, schema: Json, root: Json, refs: set<RefKey>): seq<Result<Json>>
    requires schema.Arr?
  {
    seq(|schema.items|, i requires 0 <= i < |schema.items| => Canon(config, schema.items[i], root, refs))
  }

  /** What a `$ref` contributes: its target under the extended stack, or failure. */
  function Followed(config: Config, reference: string, root: Json, refs: set<RefKey>): Result<Json> {
    match Resolve(config, reference, root)
    case None => Err
    case Some(t) => if t.key in refs then Err else Canon(config, t.schema, t.root, refs + {t.key})
  }

  predicate GivesObject(r: Result<Json>) { r.Ok? && r.value.Obj? }

  /** One unfolding of `Canon`, with the recursive calls named. */
  lemma CanonUnfolds(config: Config, schema: Json, root: Json, refs: set<RefKey>)
    ensures schema.Obj? && Reference(schema).None? ==>
              Canon(config, schema, root, refs) == JoinMembers(config, Members(config, schema, root, refs))
    ensures schema.Obj? && Reference(schema).Some? ==>
              Canon(config, schema, root, refs)
              == JoinReference(Followed(config, Reference(schema).value, root, refs), Members(config, schema, root, refs))
    ensures schema.Arr? ==> Canon(config, schema, root, refs) == JoinItems(Items(config, schema, root, refs))
    ensures !schema.Obj? && !schema.Arr? ==> Canon(config, schema, root, refs) == Ok(schema)
  {
    if schema.Arr? {
      assert Items(config, schema, root, refs)
        == seq(|schema.items|, i requires 0 <= i < |schema.items| => Canon(config, schema.items[i], root, refs));
    }
  }

  /** `canonical_schema`: a schema is its own root and nothing is being resolved. */
  function CanonicalSchema(config: Config, schema: Json): Result<Json> {
    Canon(config, schema, schema, {})
  }

  /** A canonical form needs the canonical form of everything the schema is made of. */
  lemma CanonNeedsParts(config: Config, schema: Json, root: Json, refs: set<RefKey>)
    requires Canon(config, schema, root, refs).Ok?
    ensures schema.Obj? ==> forall k :: k in schema.fields && Visited(schema, k) ==> Canon(config, schema.fields[k], root, refs).Ok?
    ensures schema.Obj? && Reference(schema).Some? ==> Followed(config, Reference(schema).value, root, refs).Ok?
    ensures schema.Arr? ==> forall i :: 0 <= i < |schema.items| ==> Canon(config, schema.items[i], root, refs).Ok?
  {
    CanonUnfolds(config, schema, root, refs);
    if schema.Obj? {
      forall k | k in schema.fields && Visited(schema, k) ensures Canon(config, schema.fields[k], root, refs).Ok? {
        assert k in Members(config, schema, root, refs);
      }
    } else if schema.Arr? {
      forall i | 0 <= i < |schema.items| ensures Canon(config, schema.items[i], root, refs).Ok? {
        assert Items(config, schema, root, refs)[i].Ok?;
      }
    }
  }

  /** The parts of one schema determine its canonical form. */
  lemma CanonCongruence(config: Config, a: Json, aRoot: Json, aRefs: set<RefKey>, b: Json, bRoot: Json, bRefs: set<RefKey>)
    requires a.Obj? == b.Obj? && a.Arr? == b.Arr? && (!a.Obj? && !a.Arr? ==> a == b)
    requires a.Arr? ==> Items(config, a, aRoot, aRefs) == Items(config, b, bRoot, bRefs)
    requires a.Obj? ==> Members(config, a, aRoot, aRefs) == Members(config, b, bRoot, bRefs)
    requires a.Obj? ==> Reference(a) == Reference(b)
    requires a.Obj? && Reference(a).Some? ==>
               Followed(config, Reference(a).value, aRoot, aRefs) == Followed(config, Reference(b).value, bRoot, bRefs)
    ensures Canon(config, a, aRoot, aRefs) == Canon(config, b, bRoot, bRefs)
  {
    CanonUnfolds(config, a, aRoot, aRefs);
    CanonUnfolds(config, b, bRoot, bRefs);
  }

  /** Members that are not visited do not matter. */
  lemma OnlyVisitedMembersMatter(config: Config, a: Json, b: Json, root: Json, refs: set<RefKey>)
    requires a.Obj? && b.Obj? && Reference(a) == Reference(b)
    requires forall k :: Visited(a, k) <==> Visited(b, k)
    requires forall k :: Visited(a, k) && Visited(b, k) ==> a.fields[k] == b.fields[k]
    ensures Canon(config, a, root, refs) == Canon(config, b, root, refs)
  {
    var left, right := Members(config, a, root, refs), Members(config, b, root, refs);
    forall k ensures k in left <==> k in right { assert Visited(a, k) <==> Visited(b, k); }
    CanonCongruence(config, a, root, refs, b, root, refs);
  }

  /** Success with a larger reference set is the same success with a smaller one. */
  lemma {:induction false} CanonShrinksReferences(config: Config, schema: Json, root: Json, refs: set<RefKey>, fewer: set<RefKey>)
    requires fewer <= refs && Canon(config, schema, root, refs).Ok?
    ensures Canon(config, schema, root, fewer) == Canon(config, schema, root, refs)
    decreases Fresh(config, root, refs), schema, 1
  {
    CanonNeedsParts(config, schema, root, refs);
    PartsShrinkReferences(config, schema, root, refs, fewer);
    if schema.Obj? && Reference(schema).Some? {
      var t := Resolve(config, Reference(schema).value, root).value;
      ResolveDescends(config, Reference(schema).value, root, refs);
      CanonShrinksReferences(config, t.schema, t.root, refs + {t.key}, fewer + {t.key});
    }
    CanonCongruence(config, schema, root, fewer, schema, root, refs);
  }

  lemma {:induction false} PartsShrinkReferences(config: Config, schema: Json, root: Json, refs: set<RefKey>, fewer: set<RefKey>)
    requires fewer <= refs && Canon(config, schema, root, refs).Ok?
    ensures schema.Obj? ==> Members(config, schema, root, fewer) == Members(config, schema, root, refs)
    ensures schema.Arr? ==> Items(config, schema, root, fewer) == Items(config, schema, root, refs)
    decreases Fresh(config, root, refs), schema, 0
  {
    CanonNeedsParts(config, schema, root, refs);
    if schema.Obj? {
      forall k | k in schema.fields && Visited(schema, k)
        ensures Canon(config, schema.fields[k], root, fewer) == Canon(config, schema.fields[k], root, refs)
      {
        CanonShrinksReferences(config, schema.fields[k], root, refs, fewer);
      }
    } else if schema.Arr? {
      forall i | 0 <= i < |schema.items|
        ensures Canon(config, schema.items[i], root, fewer) == Canon(config, schema.items[i], root, refs)
      {
        CanonShrinksReferences(config, schema.items[i], root, refs, fewer);
      }
    }
  }

  /** A root matters only through its definitions. */
  lemma {:induction false} CanonUsesOnlyDefinitions(config: Config, schema: Json, root: Json, other: Json, refs: set<RefKey>)
    requires Definitions(root) == Definitions(other)
    ensures Canon(config, schema, root, refs) == Canon(config, schema, other, refs)
    decreases Fresh(config, root, refs), schema, 1
  {
    PartsUseOnlyDefinitions(config, schema, root, other, refs);
    if schema.Obj? && Reference(schema).Some? {
      FollowedUsesOnlyDefinitions(config, schema, root, other, refs);
    }
    CanonCongruence(config, schema, root, refs, schema, other, refs);
  }

  lemma {:induction false} FollowedUsesOnlyDefinitions(config: Config, schema: Json, root: Json, other: Json, refs: set<RefKey>)
    requires Definitions(root) == Definitions(other) && schema.Obj? && Reference(schema).Some?
    ensures Followed(config, Reference(schema).value, root, refs) == Followed(config, Reference(schema).value, other, refs)
    decreases Fresh(config, root, refs), schema, 0
  {
    var reference := Reference(schema).value;
    ResolveUsesOnlyDefinitions(config, reference, root, other);
    if Resolve(config, reference, root).Some? && Resolve(config, reference, root).value.key !in refs {
      var t := Resolve(config, reference, root).value;
      ResolveDescends(config, reference, root, refs);
      CanonUsesOnlyDefinitions(config, t.schema, t.root, Resolve(config, reference, other).value.root, refs + {t.key});
    }
  }

  lemma ResolveUsesOnlyDefinitions(config: Config, reference: string, root: Json, other: Json)
    requires Definitions(root) == Definitions(other)
    ensures var (a, b) := (Resolve(config, reference, root), Resolve(config, reference, other));
            a.Some? == b.Some?
            && (a.Some? ==> a.value.key == b.value.key && a.value.schema == b.value.schema
                            && Definitions(a.value.root) == Definitions(b.value.root))
  {
  }

  lemma {:induction false} PartsUseOnlyDefinitions(config: Config, schema: Json, root: Json, other: Json, refs: set<RefKey>)
    requires Definitions(root) == Definitions(other)
    ensures schema.Obj? ==> Members(config, schema, root, refs) == Members(config, schema, other, refs)
    ensures schema.Arr? ==> Items(config, schema, root, refs) == Items(config, schema, other, refs)
    decreases Fresh(config, root, refs), schema, 0
  {
    if schema.Obj? {
      forall k | k in schema.fields && Visited(schema, k)
        ensures Canon(config, schema.fields[k], root, refs) == Canon(config, schema.fields[k], other, refs)
      {
        CanonUsesOnlyDefinitions(config, schema.fields[k], root, other, refs);
      }
    } else if schema.Arr? {
      forall i | 0 <= i < |schema.items|
        ensures Canon(config, schema.items[i], root, refs) == Canon(config, schema.items[i], other, refs)
      {
        CanonUsesOnlyDefinitions(config, schema.items[i], root, other, refs);
      }
    }
  }

  // ---------------------------------------------------------------- inlining local references

  /** `{"$ref": "#/$defs/name"}` and nothing else. */
  predicate BareLocalReference(schema: Json) {
    schema.Obj? && schema.fields.Keys == {"$ref"}
    && Reference(schema).Some? && LOCAL_PREFIX <= Reference(schema).value
  }

  /** `after` is `before` with any number of bare local references, none of them under `$defs`,
      replaced by the definitions they name. */
  ghost predicate Inlines(config: Config, root: Json, before: Json, after: Json)
    decreases before
  {
    || before == after
    || InlinesHere(config, root, before, after)
    || (match before
        case Obj(fields) =>
          && after.Obj? && after.fields.Keys == fields.Keys
          && ("$defs" in fields ==> after.fields["$defs"] == fields["$defs"])
          && (forall k :: k in fields ==> Inlines(config, root, fields[k], after.fields[k]))
        case Arr(items) =>
          && after.Arr? && |after.items| == |items|
          && (forall i :: 0 <= i < |items| ==> Inlines(config, root, items[i], after.items[i]))
        case _ => false)
  }

  predicate InlinesHere(config: Config, root: Json, before: Json, after: Json) {
    BareLocalReference(before)
    && var t := Resolve(config, Reference(before).value, root); t.Some? && after == t.value.schema
  }

  lemma InliningHereKeepsCanon(config: Config, root: Json, before: Json, after: Json, refs: set<RefKey>)
    requires InlinesHere(config, root, before, after)
    requires Canon(config, before, root, refs).Ok?
    ensures Canon(config, after, root, refs) == Canon(config, before, root, refs)
  {
    var t := Resolve(config, Reference(before).value, root).value;
    CanonUnfolds(config, before, root, refs);
    CanonNeedsParts(config, before, root, refs);
    var base := Followed(config, Reference(before).value, root, refs);
    assert Members(config, before, root, refs) == map[];
    assert base.value.fields + map[] == base.value.fields;
    CanonShrinksReferences(config, t.schema, root, refs + {t.key}, refs);
  }

  lemma {:induction false} InliningKeepsCanon(config: Config, root: Json, before: Json, after: Json, refs: set<RefKey>)
    requires Inlines(config, root, before, after)
    requires Canon(config, before, root, refs).Ok?
    ensures Canon(config, after, root, refs) == Canon(config, before, root, refs)
    decreases before, 1
  {
    if InlinesHere(config, root, before, after) {
      InliningHereKeepsCanon(config, root, before, after, refs);
    } else if before != after {
      if before.Obj? {
        InliningKeepsReference(config, root, before, after, refs);
        InliningKeepsMembers(config, root, before, after, refs);
      } else {
        InliningKeepsItems(config, root, before, after, refs);
      }
      CanonCongruence(config, after, root, refs, before, root, refs);
    }
  }

  lemma {:induction false} InliningKeepsMembers(config: Config, root: Json, before: Json, after: Json, refs: set<RefKey>)
    requires before.Obj? && after.Obj? && after.fields.Keys == before.fields.Keys && Reference(after) == Reference(before)
    requires forall k :: k in before.fields ==> Inlines(config, root, before.fields[k], after.fields[k])
    requires Canon(config, before, root, refs).Ok?
    ensures Members(config, after, root, refs) == Members(config, before, root, refs)
    decreases before, 0
  {
    CanonNeedsParts(config, before, root, refs);
    forall k | k in before.fields && Visited(before, k)
      ensures Canon(config, after.fields[k], root, refs) == Canon(config, before.fields[k], root, refs)
    {
      InliningKeepsCanon(config, root, before.fields[k], after.fields[k], refs);
    }
    MembersAgree(config, after, root, refs, before, root, refs);
  }

  lemma MembersAgree(config: Config, a: Json, aRoot: Json, aRefs: set<RefKey>, b: Json, bRoot: Json, bRefs: set<RefKey>)
    requires a.Obj? && b.Obj? && a.fields.Keys == b.fields.Keys && Reference(a) == Reference(b)
    requires forall k :: k in b.fields && Visited(b, k) ==>
               Canon(config, a.fields[k], aRoot, aRefs) == Canon(config, b.fields[k], bRoot, bRefs)
    ensures Members(config, a, aRoot, aRefs) == Members(config, b, bRoot, bRefs)
  {
    var m, n := Members(config, a, aRoot, aRefs), Members(config, b, bRoot, bRefs);
    assert forall k :: k in a.fields <==> k in b.fields;
    assert m.Keys == n.Keys;
  }

  lemma {:induction false} InliningKeepsItems(config: Config, root: Json, before: Json, after: Json, refs: set<RefKey>)
    requires before.Arr? && after.Arr? && |after.items| == |before.items|
    requires forall i :: 0 <= i < |before.items| ==> Inlines(config, root, before.items[i], after.items[i])
    requires Canon(config, before, root, refs).Ok?
    ensures Items(config, after, root, refs) == Items(config, before, root, refs)
    decreases before, 0
  {
    CanonNeedsParts(config, before, root, refs);
    forall i | 0 <= i < |before.items|
      ensures Canon(config, after.items[i], root, refs) == Canon(config, before.items[i], root, refs)
    {
      InliningKeepsCanon(config, root, before.items[i], after.items[i], refs);
    }
  }

  /** Inlining below an object neither adds nor removes its own string-valued `$ref`: a target
      that canonicalises under a reference is an object. */
  lemma InliningKeepsReference(config: Config, root: Json, before: Json, after: Json, refs: set<RefKey>)
    requires before.Obj? && after.Obj? && after.fields.Keys == before.fields.Keys
    requires forall k :: k in before.fields ==> Inlines(config, root, before.fields[k], after.fields[k])
    requires Canon(config, before, root, refs).Ok?
    ensures Reference(after) == Reference(before)
  {
    if "$ref" in before.fields && Reference(before).None? {
      var b, a := before.fields["$ref"], after.fields["$ref"];
      CanonNeedsParts(config, before, root, refs);
      assert Visited(before, "$ref");
      if InlinesHere(config, root, b, a) {
        CanonNeedsParts(config, b, root, refs);
        CanonUnfolds(config, b, root, refs);
        var t := Resolve(config, Reference(b).value, root).value;
        CanonUnfolds(config, t.schema, t.root, refs + {t.key});
      }
    }
  }

  /** Replacing bare local references anywhere outside `$defs` by their definitions keeps the
      canonical form of every schema that has one. */
  lemma InliningKeepsCanonicalSchema(config: Config, before: Json, after: Json)
    requires Inlines(config, before, before, after)
    requires CanonicalSchema(config, before).Ok?
    ensures CanonicalSchema(config, after) == CanonicalSchema(config, before)
  {
    InliningKeepsCanon(config, before, before, after, {});
    assert !InlinesHere(config, before, before, after);
    assert Definitions(after) == Definitions(before);
    CanonUsesOnlyDefinitions(config, after, before, after, {});
  }

  // ---------------------------------------------------------------- shape of canonical forms

  /** No object at any depth carries a string-valued `$ref`. */
  predicate ReferenceFree(value: Json) {
    match value
    case Obj(fields) => Reference(value).None? && forall k | k in fields :: ReferenceFree(fields[k])
    case Arr(items) => forall i | 0 <= i < |items| :: ReferenceFree(items[i])
    case _ => true
  }

  lemma SortIfArrayKeeps(config: Config, value: Json)
    ensures SortIfArray(config, value).Arr? == value.Arr?
    ensures value.Arr? ==> multiset(SortIfArray(config, value).items) == multiset(value.items)
    ensures ReferenceFree(value) ==> ReferenceFree(SortIfArray(config, value))
  {
    if value.Arr? {
      var sorted := SortIfArray(config, value).items;
      SortKeepsElements(ByText(config.render), value.items);
      forall i | 0 <= i < |sorted| ensures sorted[i] in value.items {
        assert sorted[i] in multiset(value.items);
      }
    }
  }

  /** Canonicalisation keeps the kind of a value; only objects and arrays are rewritten. */
  lemma CanonKeepsKind(config: Config, schema: Json, root: Json, refs: set<RefKey>)
    requires Canon(config, schema, root, refs).Ok?
    ensures Canon(config, schema, root, refs).value.Obj? == schema.Obj?
    ensures Canon(config, schema, root, refs).value.Arr? == schema.Arr?
    ensures !schema.Obj? && !schema.Arr? ==> Canon(config, schema, root, refs).value == schema
  {
    CanonUnfolds(config, schema, root, refs);
  }

  /** Canonical forms contain no string-valued `$ref` at any depth. */
  lemma {:induction false} CanonIsReferenceFree(config: Config, schema: Json, root: Json, refs: set<RefKey>)
    requires Canon(config, schema, root, refs).Ok?
    ensures ReferenceFree(Canon(config, schema, root, refs).value)
    decreases Fresh(config, root, refs), schema, 1
  {
    CanonNeedsParts(config, schema, root, refs);
    CanonUnfolds(config, schema, root, refs);
    if schema.Obj? {
      MembersAreReferenceFree(config, schema, root, refs);
      if Reference(schema).Some? {
        var t := Resolve(config, Reference(schema).value, root).value;
        ResolveDescends(config, Reference(schema).value, root, refs);
        CanonIsReferenceFree(config, t.schema, t.root, refs + {t.key});
        OverlayIsReferenceFree(Followed(config, Reference(schema).value, root, refs).value, Members(config, schema, root, refs));
      } else {
        JoinMembersIsReferenceFree(config, Members(config, schema, root, refs));
      }
    } else if schema.Arr? {
      forall i | 0 <= i < |schema.items|
        ensures ReferenceFree(Canon(config, schema.items[i], root, refs).value)
      {
        CanonIsReferenceFree(config, schema.items[i], root, refs);
      }
    }
  }

  ghost predicate CleanMembers(members: map<string, Result<Json>>) {
    && (forall k :: k in members ==> members[k].Ok? && ReferenceFree(members[k].value))
    && ("$ref" in members ==> !members["$ref"].value.Str?)
  }

  lemma {:induction false} MembersAreReferenceFree(config: Config, schema: Json, root: Json, refs: set<RefKey>)
    requires schema.Obj? && Canon(config, schema, root, refs).Ok?
    ensures CleanMembers(Members(config, schema, root, refs))
    decreases Fresh(config, root, refs), schema, 0
  {
    CanonNeedsParts(config, schema, root, refs);
    forall k | k in schema.fields && Visited(schema, k)
      ensures ReferenceFree(Canon(config, schema.fields[k], root, refs).value)
      ensures Canon(config, schema.fields[k], root, refs).value.Str? ==> schema.fields[k].Str?
    {
      CanonIsReferenceFree(config, schema.fields[k], root, refs);
      CanonKeepsKind(config, schema.fields[k], root, refs);
    }
  }

  lemma OverlayIsReferenceFree(base: Json, beside: map<string, Result<Json>>)
    requires base.Obj? && ReferenceFree(base) && CleanMembers(beside)
    ensures ReferenceFree(Obj(base.fields + Values(beside)))
  {
  }

  lemma JoinMembersIsReferenceFree(config: Config, members: map<string, Result<Json>>)
    requires CleanMembers(members)
    ensures JoinMembers(config, members).Ok? && ReferenceFree(JoinMembers(config, members).value)
  {
    forall k | k in members ensures ReferenceFree(Finish(config, k, members[k].value)) {
      SortIfArrayKeeps(config, members[k].value);
    }
  }

  /** A reference-free schema always has a canonical form, whatever the root and the stack. */
  lemma {:induction false} ReferenceFreeCanonicalises(config: Config, schema: Json, root: Json, refs: set<RefKey>)
    requires ReferenceFree(schema)
    ensures Canon(config, schema, root, refs).Ok?
    decreases schema
  {
    match schema
    case Obj(fields) =>
      forall k | k in fields ensures Canon(config, fields[k], root, refs).Ok? {
        ReferenceFreeCanonicalises(config, fields[k], root, refs);
      }
    case Arr(items) =>
      forall i | 0 <= i < |items| ensures Canon(config, items[i], root, refs).Ok? {
        ReferenceFreeCanonicalises(config, items[i], root, refs);
      }
    case _ =>
  }
}
