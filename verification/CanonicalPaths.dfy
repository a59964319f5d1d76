/** Exactly which schemas canonicalise, in terms of the chains of references they contain. */
module CanonicalPaths {
  import opened JsonValues
  import opened Canonical

  /** `reference` stands at a position that canonicalisation reaches without following anything. */
  predicate Occurs(schema: Json, reference: string) {
    match schema
    case Obj(fields) =>
      || Reference(schema) == Some(reference)
      || exists k | k in fields :: Visited(schema, k) && Occurs(fields[k], reference)
    case Arr(items) => exists i | 0 <= i < |items| :: Occurs(items[i], reference)
    case _ => false
  }

  /** `path` is a chain of references: each one occurs in the target of the one before it. */
  ghost predicate ReferencePath(config: Config, schema: Json, root: Json, path: seq<string>)
    decreases |path|
  {
    path == [] ||
    (Occurs(schema, path[0]) &&
     (|path| == 1 ||
      var t := Resolve(config, path[0], root);
      t.Some? && ReferencePath(config, t.value.schema, t.value.root, path[1..])))
  }

  /** Every reference of the chain resolves to an object under a key not met before. */
  ghost predicate Sound(config: Config, root: Json, refs: set<RefKey>, path: seq<string>)
    decreases |path|
  {
    path == [] ||
    (var t := Resolve(config, path[0], root);
     && t.Some? && t.value.schema.Obj? && t.value.key !in refs
     && Sound(config, t.value.root, refs + {t.value.key}, path[1..]))
  }

  /** What occurs in a schema that canonicalises can be followed. */
  lemma {:induction false} OccurringReferencesFollow(config: Config, schema: Json, root: Json, refs: set<RefKey>, reference: string)
    requires Canon(config, schema, root, refs).Ok? && Occurs(schema, reference)
    ensures Followed(config, reference, root, refs).Ok? && Followed(config, reference, root, refs).value.Obj?
    decreases schema
  {
    CanonNeedsParts(config, schema, root, refs);
    CanonUnfolds(config, schema, root, refs);
    if schema.Obj? && Reference(schema) != Some(reference) {
      var k :| k in schema.fields && Visited(schema, k) && Occurs(schema.fields[k], reference);
      OccurringReferencesFollow(config, schema.fields[k], root, refs, reference);
    } else if schema.Arr? {
      var i :| 0 <= i < |schema.items| && Occurs(schema.items[i], reference);
      OccurringReferencesFollow(config, schema.items[i], root, refs, reference);
    }
  }

  lemma {:induction false} CanonicalSchemasHaveSoundPaths(config: Config, schema: Json, root: Json, refs: set<RefKey>, path: seq<string>)
    requires Canon(config, schema, root, refs).Ok? && ReferencePath(config, schema, root, path)
    ensures Sound(config, root, refs, path)
    decreases |path|
  {
    if path != [] {
      OccurringReferencesFollow(config, schema, root, refs, path[0]);
      var t := Resolve(config, path[0], root).value;
      CanonKeepsKind(config, t.schema, t.root, refs + {t.key});
      CanonicalSchemasHaveSoundPaths(config, t.schema, t.root, refs + {t.key}, path[1..]);
    }
  }

  /** A schema that fails contains an unsound chain; this finds one. */
  lemma {:induction false} FailureHasUnsoundPath(config: Config, schema: Json, root: Json, refs: set<RefKey>) returns (path: seq<string>)
    requires Canon(config, schema, root, refs).Err?
    ensures path != [] && ReferencePath(config, schema, root, path) && !Sound(config, root, refs, path)
    decreases Fresh(config, root, refs), schema
  {
    CanonUnfolds(config, schema, root, refs);
    if schema.Arr? {
      var i :| 0 <= i < |schema.items| && Items(config, schema, root, refs)[i].Err?;
      path := FailureHasUnsoundPath(config, schema.items[i], root, refs);
    } else if Reference(schema).None? || GivesObject(Followed(config, Reference(schema).value, root, refs)) {
      var k :| k in Members(config, schema, root, refs) && Members(config, schema, root, refs)[k].Err?;
      path := FailureHasUnsoundPath(config, schema.fields[k], root, refs);
    } else {
      var reference := Reference(schema).value;
      path := [reference];
      var target := Resolve(config, reference, root);
      if target.Some? && target.value.key !in refs && target.value.schema.Obj? {
        var t := target.value;
        ResolveDescends(config, reference, root, refs);
        if Followed(config, reference, root, refs).Ok? {
          CanonKeepsKind(config, t.schema, t.root, refs + {t.key});
          assert false;
        }
        var rest := FailureHasUnsoundPath(config, t.schema, t.root, refs + {t.key});
        path := [reference] + rest;
        assert path[1..] == rest;
      }
    }
  }

  /** Canonicalisation succeeds exactly when every chain of references resolves to objects under
      pairwise distinct keys. Keys of local definitions omit their root, so this is stricter than
      the absence of cycles. */
  lemma CanonicalisesIff(config: Config, schema: Json, root: Json, refs: set<RefKey>)
    ensures Canon(config, schema, root, refs).Ok?
       <==> forall path :: ReferencePath(config, schema, root, path) ==> Sound(config, root, refs, path)
  {
    if Canon(config, schema, root, refs).Ok? {
      forall path | ReferencePath(config, schema, root, path) ensures Sound(config, root, refs, path) {
        CanonicalSchemasHaveSoundPaths(config, schema, root, refs, path);
      }
    } else {
      var path := FailureHasUnsoundPath(config, schema, root, refs);
    }
  }

  /** Sound chains are no longer than the number of keys that are still available, so a schema
      whose references loop (and therefore has arbitrarily long chains) never canonicalises. */
  lemma {:induction false} SoundPathsAreShort(config: Config, root: Json, refs: set<RefKey>, path: seq<string>)
    requires Sound(config, root, refs, path)
    ensures |path| <= Fresh(config, root, refs)
    decreases |path|
  {
    if path != [] {
      var t := Resolve(config, path[0], root).value;
      ResolveDescends(config, path[0], root, refs);
      SoundPathsAreShort(config, t.root, refs + {t.key}, path[1..]);
    }
  }

  /** A chain longer than the keys there are is enough for rejection. */
  lemma LongChainsAreRejected(config: Config, schema: Json, root: Json, refs: set<RefKey>, path: seq<string>)
    requires ReferencePath(config, schema, root, path) && |path| > Fresh(config, root, refs)
    ensures Canon(config, schema, root, refs).Err?
  {
    if Canon(config, schema, root, refs).Ok? {
      CanonicalSchemasHaveSoundPaths(config, schema, root, refs, path);
      SoundPathsAreShort(config, root, refs, path);
    }
  }

  // ---------------------------------------------------------------- cycles

  /** A place in the schema graph: a schema and the root its local references use. */
  datatype Place = Place(schema: Json, root: Json)

  /** The chain `path` leads from one place to another. */
  ghost predicate Leads(config: Config, here: Place, path: seq<string>, there: Place)
    decreases |path|
  {
    if path == [] then here == there
    else
      && Occurs(here.schema, path[0])
      && var t := Resolve(config, path[0], here.root);
         t.Some? && Leads(config, Place(t.value.schema, t.value.root), path[1..], there)
  }

  lemma {:induction false} LeadsOn(config: Config, here: Place, path: seq<string>, there: Place, more: seq<string>)
    requires Leads(config, here, path, there) && ReferencePath(config, there.schema, there.root, more)
    ensures ReferencePath(config, here.schema, here.root, path + more)
    decreases |path|
  {
    if path == [] {
      assert path + more == more;
    } else {
      var t := Resolve(config, path[0], here.root).value;
      LeadsOn(config, Place(t.schema, t.root), path[1..], there, more);
      var whole := path + more;
      assert whole[0] == path[0] && whole[1..] == path[1..] + more;
      assert |whole| == 1 || ReferencePath(config, t.schema, t.root, whole[1..]);
    }
  }

  /** Going around a cycle again and again gives chains of every length. */
  lemma {:induction false} CyclesGoOn(config: Config, there: Place, around: seq<string>, turns: nat) returns (path: seq<string>)
    requires Leads(config, there, around, there) && around != []
    ensures ReferencePath(config, there.schema, there.root, path) && |path| >= turns
    decreases turns
  {
    path := [];
    if turns > 0 {
      var fewer := CyclesGoOn(config, there, around, turns - 1);
      LeadsOn(config, there, around, there, fewer);
      path := around + fewer;
    }
  }

  /** A schema from which a place can be reached that leads back to itself is rejected, whatever keys
      the references on the way have. */
  lemma CyclesAreRejected(config: Config, schema: Json, root: Json, refs: set<RefKey>,
                          into: seq<string>, there: Place, around: seq<string>)
    requires Leads(config, Place(schema, root), into, there)
    requires Leads(config, there, around, there) && around != []
    ensures Canon(config, schema, root, refs).Err?
  {
    var path := CyclesGoOn(config, there, around, Fresh(config, root, refs) + 1);
    LeadsOn(config, Place(schema, root), into, there, path);
    LongChainsAreRejected(config, schema, root, refs, into + path);
  }

  // ---------------------------------------------------------------- rejection without a cycle

  const TO_X: Json := Obj(map["$ref" := Str("#/$defs/X")])
  const TO_C: Json := Obj(map["$ref" := Str("#/components/schemas/C")])
  const EMPTY: Json := Obj(map[])
  const C: Json := Obj(map["$defs" := Obj(map["X" := EMPTY]), "items" := TO_X])
  const OUTER: Json := Obj(map["$defs" := Obj(map["X" := TO_C]), "items" := TO_X])

  const X_REF := "#/$defs/X"
  const C_REF := "#/components/schemas/C"

  ghost predicate Example(config: Config) { config.components == map["schemas" := Obj(map["C" := C])] }

  lemma ExampleResolves(config: Config)
    requires Example(config)
    ensures Resolve(config, X_REF, OUTER) == Some(Target(TO_C, OUTER, Local("X")))
    ensures Resolve(config, C_REF, OUTER) == Some(Target(C, C, Component("C")))
    ensures Resolve(config, X_REF, C) == Some(Target(EMPTY, C, Local("X")))
  {
    assert X_REF[|LOCAL_PREFIX|..] == "X" && C_REF[|COMPONENT_PREFIX|..] == "C";
    assert X_REF == LOCAL_PREFIX + "X" && C_REF == COMPONENT_PREFIX + "C";
    assert C_REF[2] != LOCAL_PREFIX[2];
  }

  lemma BareReferenceOccurs(schema: Json, target: string, reference: string)
    requires schema == Obj(map["$ref" := Str(target)])
    ensures Occurs(schema, reference) <==> reference == target
  {
    assert forall j :: j in schema.fields ==> !Visited(schema, j);
  }

  lemma OnlyXOccurs(schema: Json, reference: string)
    requires schema in {OUTER, C}
    ensures Occurs(schema, reference) <==> reference == X_REF
  {
    assert Reference(schema).None? && schema.fields.Keys == {"$defs", "items"};
    BareReferenceOccurs(TO_X, X_REF, reference);
    assert schema.fields["items"] == TO_X;
    assert forall k :: k in schema.fields && Visited(schema, k) <==> k == "items";
  }

  /** Along a chain of at least two references the rest is a chain of the target. */
  lemma ChainStep(config: Config, schema: Json, root: Json, path: seq<string>)
    requires |path| >= 2
    ensures ReferencePath(config, schema, root, path)
       <==> Occurs(schema, path[0]) && Resolve(config, path[0], root).Some?
            && ReferencePath(config, Resolve(config, path[0], root).value.schema, Resolve(config, path[0], root).value.root, path[1..])
  {
  }

  lemma ExampleHasChain(config: Config)
    requires Example(config)
    ensures ReferencePath(config, OUTER, OUTER, [X_REF, C_REF, X_REF])
  {
    ExampleResolves(config);
    var path := [X_REF, C_REF, X_REF];
    assert path[1..] == [C_REF, X_REF] && path[1..][1..] == [X_REF];
    OnlyXOccurs(OUTER, X_REF);
    OnlyXOccurs(C, X_REF);
    BareReferenceOccurs(TO_C, C_REF, C_REF);
    ChainStep(config, TO_C, OUTER, path[1..]);
    ChainStep(config, OUTER, OUTER, path);
  }

  lemma ExampleChainIsUnsound(config: Config)
    requires Example(config)
    ensures !Sound(config, OUTER, {}, [X_REF, C_REF, X_REF])
  {
    ExampleResolves(config);
    assert [X_REF, C_REF, X_REF][1..] == [C_REF, X_REF] && [C_REF, X_REF][1..] == [X_REF];
    assert !Sound(config, C, {} + {Local("X")} + {Component("C")}, [X_REF]);
    assert !Sound(config, OUTER, {} + {Local("X")}, [C_REF, X_REF]);
  }

  lemma ExampleHasNoLongChain(config: Config, path: seq<string>)
    requires Example(config) && |path| >= 4
    ensures !ReferencePath(config, OUTER, OUTER, path)
  {
    if ReferencePath(config, OUTER, OUTER, path) {
      ExampleResolves(config);
      ChainStep(config, OUTER, OUTER, path);
      OnlyXOccurs(OUTER, path[0]);
      ChainStep(config, TO_C, OUTER, path[1..]);
      BareReferenceOccurs(TO_C, C_REF, path[1]);
      ChainStep(config, C, C, path[1..][1..]);
      OnlyXOccurs(C, path[2]);
      assert false;
    }
  }

  /** The converse of `CyclesAreRejected` is false: `OUTER` goes through its own `X` to the component
      `C` and through the different `X` of `C` to an empty schema. No chain is longer than three and
      no place leads back to itself; it is rejected because both definitions have the key `X`. */
  lemma RejectionNeedsNoLoop(config: Config)
    requires Example(config)
    ensures CanonicalSchema(config, OUTER).Err?
    ensures forall path :: ReferencePath(config, OUTER, OUTER, path) ==> |path| <= 3
    ensures forall into, there, around ::
              Leads(config, Place(OUTER, OUTER), into, there) && Leads(config, there, around, there) ==> around == []
  {
    ExampleHasChain(config);
    ExampleChainIsUnsound(config);
    CanonicalisesIff(config, OUTER, OUTER, {});
    forall path | ReferencePath(config, OUTER, OUTER, path) ensures |path| <= 3 {
      if |path| > 3 {
        ExampleHasNoLongChain(config, path);
      }
    }
    forall into, there, around | Leads(config, Place(OUTER, OUTER), into, there) && Leads(config, there, around, there)
      ensures around == []
    {
      if around != [] {
        var path := CyclesGoOn(config, there, around, 4);
        LeadsOn(config, Place(OUTER, OUTER), into, there, path);
      }
    }
  }
}
