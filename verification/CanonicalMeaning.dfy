/** What canonical forms keep: exactly when two schemas, references and all, have the same one. */
module CanonicalMeaning {
  import opened JsonValues
  import opened Sorting
  import opened Canonical
  import opened CanonicalNormalForm
  import opened CanonicalKernel

  // ---------------------------------------------------------------- what a schema says

  /** What a strict contract is concerned with: the kept members of a schema with every reference
      replaced by its target. A loose member is an array whose order does not count. */
  datatype Tree = Leaf(value: Json) | List(items: seq<Tree>) | Node(members: map<string, Member>)

  datatype Member = Member(loose: bool, tree: Tree)

  /** A member a strict contract is concerned with: not an annotation, and neither a reference itself
      nor, unless beside a reference, the definitions. */
  predicate Relevant(schema: Json, key: string)
    requires schema.Obj?
  {
    && key in schema.fields
    && key !in {"$schema", "$id", "title", "description", "examples", "example", "default", "deprecated", "readOnly", "writeOnly"}
    && (if "$ref" in schema.fields && schema.fields["$ref"].Str? then key != "$ref" else key != "$defs")
  }

  lemma RelevantIffVisited(schema: Json, key: string)
    requires schema.Obj?
    ensures Relevant(schema, key) <==> key in schema.fields && Visited(schema, key)
  {
  }

  /** `required` and `enum` are loose, except beside a reference. Members beside a reference, `$defs`
      among them, replace those of the target. A reference that cannot be followed says nothing. */
  function Expand(config: Config, schema: Json, root: Json, refs: set<RefKey>): Tree
    decreases Fresh(config, root, refs), schema
  {
    match schema
    case Obj(fields) =>
      var loose := Reference(schema).None?;
      var members := map k | k in fields && Relevant(schema, k) :: Member(loose && (k == "required" || k == "enum"), Expand(config, fields[k], root, refs));
      (match Reference(schema)
       case None => Node(members)
       case Some(reference) =>
         match Resolve(config, reference, root)
         case None => Leaf(Null)
         case Some(t) =>
           if t.key in refs then Leaf(Null) else
           ResolveDescends(config, reference, root, refs);
           Overlay(Expand(config, t.schema, t.root, refs + {t.key}), members))
    case Arr(items) => List(seq(|items|, i requires 0 <= i < |items| => Expand(config, items[i], root, refs)))
    case _ => Leaf(schema)
  }

  function Overlay(base: Tree, members: map<string, Member>): Tree {
    if base.Node? then Node(base.members + members) else Leaf(Null)
  }

  /** Leaves are scalars. */
  ghost predicate Proper(t: Tree) {
    match t
    case Leaf(value) => !value.Obj? && !value.Arr?
    case List(items) => forall i :: 0 <= i < |items| ==> Proper(items[i])
    case Node(members) => forall k :: k in members ==> Proper(members[k].tree)
  }

  /** A tree written down, loose arrays in printed order. */
  function Written(config: Config, t: Tree): Json {
    match t
    case Leaf(value) => value
    case List(items) => Arr(seq(|items|, i requires 0 <= i < |items| => Written(config, items[i])))
    case Node(members) => Obj(map k | k in members :: WrittenMember(config, members[k]))
  }

  function WrittenMember(config: Config, m: Member): Json {
    var value := Written(config, m.tree);
    if m.loose then SortIfArray(config, value) else value
  }

  // ---------------------------------------------------------------- the canonical form writes it down

  function ExpandedMembers(config: Config, schema: Json, root: Json, refs: set<RefKey>): map<string, Member>
    requires schema.Obj?
  {
    map k | k in schema.fields && Relevant(schema, k) ::
      Member(Reference(schema).None? && (k == "required" || k == "enum"), Expand(config, schema.fields[k], root, refs))
  }

  function ExpandedTarget(config: Config, reference: string, root: Json, refs: set<RefKey>): Tree {
    match Resolve(config, reference, root)
    case None => Leaf(Null)
    case Some(t) => if t.key in refs then Leaf(Null) else Expand(config, t.schema, t.root, refs + {t.key})
  }

  function ExpandedItems(config: Config, schema: Json, root: Json, refs: set<RefKey>): seq<Tree>
    requires schema.Arr?
  {
    seq(|schema.items|, i requires 0 <= i < |schema.items| => Expand(config, schema.items[i], root, refs))
  }

  /** One unfolding of `Expand`, with the recursive calls named. */
  lemma ExpandUnfolds(config: Config, schema: Json, root: Json, refs: set<RefKey>)
    ensures schema.Obj? && Reference(schema).None? ==>
              Expand(config, schema, root, refs) == Node(ExpandedMembers(config, schema, root, refs))
    ensures schema.Obj? && Reference(schema).Some? ==>
              Expand(config, schema, root, refs)
              == Overlay(ExpandedTarget(config, Reference(schema).value, root, refs), ExpandedMembers(config, schema, root, refs))
    ensures schema.Arr? ==> Expand(config, schema, root, refs) == List(ExpandedItems(config, schema, root, refs))
    ensures !schema.Obj? && !schema.Arr? ==> Expand(config, schema, root, refs) == Leaf(schema)
  {
    if schema.Arr? {
      assert ExpandedItems(config, schema, root, refs)
        == seq(|schema.items|, i requires 0 <= i < |schema.items| => Expand(config, schema.items[i], root, refs));
    }
  }

  lemma {:induction false} ExpandIsProper(config: Config, schema: Json, root: Json, refs: set<RefKey>)
    ensures Proper(Expand(config, schema, root, refs))
    decreases Fresh(config, root, refs), schema, 1
  {
    ExpandUnfolds(config, schema, root, refs);
    if schema.Obj? {
      forall k | k in schema.fields && Relevant(schema, k) ensures Proper(Expand(config, schema.fields[k], root, refs)) {
        ExpandIsProper(config, schema.fields[k], root, refs);
      }
      if Reference(schema).Some? {
        TargetIsProper(config, schema, root, refs);
      }
    } else if schema.Arr? {
      forall i | 0 <= i < |schema.items| ensures Proper(Expand(config, schema.items[i], root, refs)) {
        ExpandIsProper(config, schema.items[i], root, refs);
      }
    }
  }

  lemma {:induction false} ExpandedTargetIs(config: Config, reference: string, root: Json, refs: set<RefKey>)
    ensures var t := Resolve(config, reference, root);
            ExpandedTarget(config, reference, root, refs) ==
              if t.None? || t.value.key in refs then Leaf(Null) else Expand(config, t.value.schema, t.value.root, refs + {t.value.key})
  {
  }

  lemma {:induction false} TargetIsProper(config: Config, schema: Json, root: Json, refs: set<RefKey>)
    requires schema.Obj? && Reference(schema).Some?
    ensures Proper(ExpandedTarget(config, Reference(schema).value, root, refs))
    decreases Fresh(config, root, refs), schema, 0
  {
    var reference := Reference(schema).value;
    var t := Resolve(config, reference, root);
    ExpandedTargetIs(config, reference, root, refs);
    if t.None? || t.value.key in refs {
      assert Proper(Leaf(Null));
    } else {
      ResolveDescends(config, reference, root, refs);
      ExpandIsProper(config, t.value.schema, t.value.root, refs + {t.value.key});
    }
  }

  /** A canonical form is what the schema says, written down. */
  lemma {:induction false} CanonWritesMeaning(config: Config, schema: Json, root: Json, refs: set<RefKey>)
    requires Canon(config, schema, root, refs).Ok?
    ensures Canon(config, schema, root, refs).value == Written(config, Expand(config, schema, root, refs))
    decreases Fresh(config, root, refs), schema, 1
  {
    CanonUnfolds(config, schema, root, refs);
    ExpandUnfolds(config, schema, root, refs);
    if schema.Obj? {
      MembersWriteMeaning(config, schema, root, refs);
      var results, members := Members(config, schema, root, refs), ExpandedMembers(config, schema, root, refs);
      if Reference(schema).None? {
        JoinWrites(config, results, members);
      } else {
        var reference := Reference(schema).value;
        TargetWritesMeaning(config, schema, root, refs);
        OverlayWrites(config, Followed(config, reference, root, refs), results, ExpandedTarget(config, reference, root, refs), members);
      }
    } else if schema.Arr? {
      ItemsWriteMeaning(config, schema, root, refs);
    }
  }

  lemma {:induction false} TargetWritesMeaning(config: Config, schema: Json, root: Json, refs: set<RefKey>)
    requires schema.Obj? && Reference(schema).Some? && Canon(config, schema, root, refs).Ok?
    ensures var target := Followed(config, Reference(schema).value, root, refs);
            var base := ExpandedTarget(config, Reference(schema).value, root, refs);
            target.Ok? && target.value == Written(config, base) && Proper(base)
    decreases Fresh(config, root, refs), schema, 0
  {
    CanonNeedsParts(config, schema, root, refs);
    TargetIsProper(config, schema, root, refs);
    var t := Resolve(config, Reference(schema).value, root).value;
    ResolveDescends(config, Reference(schema).value, root, refs);
    CanonWritesMeaning(config, t.schema, t.root, refs + {t.key});
  }

  lemma {:induction false} ItemsWriteMeaning(config: Config, schema: Json, root: Json, refs: set<RefKey>)
    requires schema.Arr? && Canon(config, schema, root, refs).Ok?
    ensures JoinItems(Items(config, schema, root, refs)) == Ok(Written(config, List(ExpandedItems(config, schema, root, refs))))
    decreases Fresh(config, root, refs), schema, 0
  {
    CanonNeedsParts(config, schema, root, refs);
    var results, items := Items(config, schema, root, refs), ExpandedItems(config, schema, root, refs);
    forall i | 0 <= i < |results| ensures results[i] == Ok(Written(config, items[i])) {
      CanonWritesMeaning(config, schema.items[i], root, refs);
    }
    assert JoinItems(results).value.items == Written(config, List(items)).items;
  }

  ghost predicate WritesMembers(config: Config, results: map<string, Result<Json>>, members: map<string, Member>) {
    results.Keys == members.Keys && forall k :: k in results && k in members ==> results[k] == Ok(Written(config, members[k].tree))
  }

  lemma {:induction false} MembersWriteMeaning(config: Config, schema: Json, root: Json, refs: set<RefKey>)
    requires schema.Obj? && Canon(config, schema, root, refs).Ok?
    ensures WritesMembers(config, Members(config, schema, root, refs), ExpandedMembers(config, schema, root, refs))
    ensures forall k :: k in ExpandedMembers(config, schema, root, refs) ==>
              ExpandedMembers(config, schema, root, refs)[k].loose == (Reference(schema).None? && Unordered(k))
    decreases Fresh(config, root, refs), schema, 0
  {
    CanonNeedsParts(config, schema, root, refs);
    var results, members := Members(config, schema, root, refs), ExpandedMembers(config, schema, root, refs);
    forall k ensures k in results <==> k in members { RelevantIffVisited(schema, k); }
    forall k | k in results ensures results[k] == Ok(Written(config, members[k].tree)) {
      CanonWritesMeaning(config, schema.fields[k], root, refs);
    }
  }

  lemma {:induction false} JoinWrites(config: Config, results: map<string, Result<Json>>, members: map<string, Member>)
    requires WritesMembers(config, results, members) && forall k :: k in members ==> members[k].loose == Unordered(k)
    ensures JoinMembers(config, results) == Ok(Written(config, Node(members)))
  {
    assert forall k :: k in results <==> k in members;
    assert JoinMembers(config, results).value.fields == Written(config, Node(members)).fields;
  }

  lemma {:induction false} WrittenNode(config: Config, members: map<string, Member>)
    ensures var written := Written(config, Node(members));
            && written.Obj? && written.fields.Keys == members.Keys
            && forall k :: k in members ==> written.fields[k] == WrittenMember(config, members[k])
  {
  }

  lemma {:induction false} OverlayWrites(config: Config, target: Result<Json>, results: map<string, Result<Json>>, base: Tree, members: map<string, Member>)
    requires target.Ok? && target.value == Written(config, base) && Proper(base)
    requires WritesMembers(config, results, members) && forall k :: k in members ==> !members[k].loose
    ensures target.value.Obj? <==> base.Node?
    ensures base.Node? ==> JoinReference(target, results) == Ok(Written(config, Overlay(base, members)))
  {
    if base.Node? {
      var all := base.members + members;
      WrittenNode(config, base.members);
      WrittenNode(config, all);
      OverlaidFields(config, target.value.fields, results, base.members, members, Written(config, Node(all)).fields);
    }
  }

  lemma {:induction false} OverlaidFields(config: Config, target: map<string, Json>, results: map<string, Result<Json>>,
                                          base: map<string, Member>, members: map<string, Member>, written: map<string, Json>)
    requires WritesMembers(config, results, members) && forall k :: k in members ==> !members[k].loose
    requires target.Keys == base.Keys && forall k :: k in base ==> target[k] == WrittenMember(config, base[k])
    requires written.Keys == (base + members).Keys
    requires forall k :: k in base + members ==> written[k] == WrittenMember(config, (base + members)[k])
    ensures AllOk(results) && target + Values(results) == written
  {
    assert forall k :: k in results <==> k in members;
    forall k | k in written ensures k in target + Values(results) && (target + Values(results))[k] == written[k] {
      if k in members {
        assert results[k] == Ok(Written(config, members[k].tree));
      }
    }
  }

  // ---------------------------------------------------------------- the kernel

  function Writer(config: Config): Tree -> Json { t => Written(config, t) }

  /** The trees, as printed, are in order already. */
  ghost predicate InPrintedOrder(config: Config, items: seq<Tree>) { Sorted(ByText(config.render), Map(Writer(config), items)) }

  /** Two trees say the same: equal scalars, lists position by position, the same members. Where an
      array is loose on one side or on both, it is compared up to order; if on one side only, the
      other side has to be in printed order. */
  ghost predicate Agree(config: Config, a: Tree, b: Tree)
    decreases a, 0
  {
    match a
    case Leaf(_) => a == b
    case List(items) => b.List? && |items| == |b.items| && forall i :: 0 <= i < |items| ==> Agree(config, items[i], b.items[i])
    case Node(members) =>
      b.Node? && members.Keys == b.members.Keys
      && forall k :: k in members && k in b.members ==> AgreeMember(config, members[k].loose, members[k].tree, b.members[k])
  }

  ghost predicate AgreeMember(config: Config, loose: bool, a: Tree, b: Member)
    decreases a, 1
  {
    if a.List? && (loose || b.loose) then
      && b.tree.List?
      && (exists s :: Reorders(s, b.tree.items) && |s| == |a.items| && forall i :: 0 <= i < |s| ==> Agree(config, a.items[i], s[i]))
      && (!loose ==> InPrintedOrder(config, a.items))
      && (!b.loose ==> InPrintedOrder(config, b.tree.items))
    else Agree(config, a, b.tree)
  }

  lemma WrittenList(config: Config, items: seq<Tree>)
    ensures Written(config, List(items)) == Arr(Map(Writer(config), items))
  {
    assert Written(config, List(items)).items == Map(Writer(config), items);
  }

  /** Trees are written alike exactly when they agree. */
  lemma {:induction false} WrittenAlikeIff(config: Config, a: Tree, b: Tree)
    requires Injective(config) && Proper(a) && Proper(b)
    ensures Written(config, a) == Written(config, b) <==> Agree(config, a, b)
    decreases a, 0
  {
    if a.Node? && b.Node? {
      forall k | k in a.members && k in b.members
        ensures WrittenMember(config, a.members[k]) == WrittenMember(config, b.members[k])
                <==> AgreeMember(config, a.members[k].loose, a.members[k].tree, b.members[k])
      {
        MembersAlikeIff(config, a.members[k].loose, a.members[k].tree, b.members[k]);
      }
      NodesAlikeIff(config, a.members, b.members);
    } else if a.List? && b.List? && |a.items| == |b.items| {
      forall i | 0 <= i < |a.items| ensures Written(config, a.items[i]) == Written(config, b.items[i]) <==> Agree(config, a.items[i], b.items[i]) {
        WrittenAlikeIff(config, a.items[i], b.items[i]);
      }
      ListsAlikeIff(config, a.items, b.items);
    } else if a.List? && b.List? {
      assert |Written(config, a).items| != |Written(config, b).items|;
    }
  }

  lemma {:induction false} NodesAlikeIff(config: Config, a: map<string, Member>, b: map<string, Member>)
    ensures Written(config, Node(a)) == Written(config, Node(b)) <==>
              a.Keys == b.Keys && forall k :: k in a && k in b ==> WrittenMember(config, a[k]) == WrittenMember(config, b[k])
  {
    var left, right := Written(config, Node(a)).fields, Written(config, Node(b)).fields;
    assert left.Keys == a.Keys && right.Keys == b.Keys;
    if left == right {
      forall k | k in a && k in b ensures WrittenMember(config, a[k]) == WrittenMember(config, b[k]) { assert left[k] == right[k]; }
    }
  }

  lemma {:induction false} ListsAlikeIff(config: Config, s: seq<Tree>, t: seq<Tree>)
    requires |s| == |t|
    ensures Written(config, List(s)) == Written(config, List(t)) <==> forall i :: 0 <= i < |s| ==> Written(config, s[i]) == Written(config, t[i])
  {
    var left, right := Written(config, List(s)).items, Written(config, List(t)).items;
    if left == right {
      forall i | 0 <= i < |s| ensures Written(config, s[i]) == Written(config, t[i]) { assert left[i] == right[i]; }
    }
  }

  lemma {:induction false} MembersAlikeIff(config: Config, loose: bool, a: Tree, b: Member)
    requires Injective(config) && Proper(a) && Proper(b.tree)
    ensures WrittenMember(config, Member(loose, a)) == WrittenMember(config, b) <==> AgreeMember(config, loose, a, b)
    decreases a, 1
  {
    if a.List? && b.tree.List? && (loose || b.loose) {
      var f := Writer(config);
      WrittenList(config, a.items);
      WrittenList(config, b.tree.items);
      TextOrderIsTotal(config.render);
      SortIfEqualIff(ByText(config.render), loose, Map(f, a.items), b.loose, Map(f, b.tree.items));
      ReorderedAlikeIff(config, a, b.tree.items);
    } else {
      WrittenAlikeIff(config, a, b.tree);
    }
  }

  lemma {:induction false} ReorderedAlikeIff(config: Config, a: Tree, items: seq<Tree>)
    requires Injective(config) && a.List? && Proper(a) && forall i :: 0 <= i < |items| ==> Proper(items[i])
    ensures multiset(Map(Writer(config), a.items)) == multiset(Map(Writer(config), items)) <==>
              exists s :: Reorders(s, items) && |s| == |a.items| && forall i :: 0 <= i < |s| ==> Agree(config, a.items[i], s[i])
    decreases a, 0
  {
    var f := Writer(config);
    if multiset(Map(f, a.items)) == multiset(Map(f, items)) {
      var s := Realign(f, a.items, items);
      ReorderedIsProper(s, items);
      forall i | 0 <= i < |s| ensures Agree(config, a.items[i], s[i]) {
        WrittenAlikeIff(config, a.items[i], s[i]);
      }
      assert Reorders(s, items);
    }
    forall s | Reorders(s, items) && |s| == |a.items| && forall i :: 0 <= i < |s| ==> Agree(config, a.items[i], s[i])
      ensures multiset(Map(f, a.items)) == multiset(Map(f, items))
    {
      ReorderedIsProper(s, items);
      forall i | 0 <= i < |s| ensures Map(f, a.items)[i] == Map(f, s)[i] {
        WrittenAlikeIff(config, a.items[i], s[i]);
      }
      assert Map(f, a.items) == Map(f, s);
      MapKeepsPermutation(f, s, items);
    }
  }

  lemma ReorderedIsProper(s: seq<Tree>, items: seq<Tree>)
    requires multiset(s) == multiset(items) && forall i :: 0 <= i < |items| ==> Proper(items[i])
    ensures forall i :: 0 <= i < |s| ==> Proper(s[i])
  {
    forall i | 0 <= i < |s| ensures Proper(s[i]) {
      assert s[i] in multiset(items);
    }
  }

  // ---------------------------------------------------------------- the theorem

  /** Two schemas that canonicalise, whatever references they contain, have the same canonical form
      exactly when they say the same. */
  lemma SameFormIff(config: Config, a: Json, aRoot: Json, aRefs: set<RefKey>, b: Json, bRoot: Json, bRefs: set<RefKey>)
    requires Injective(config) && Canon(config, a, aRoot, aRefs).Ok? && Canon(config, b, bRoot, bRefs).Ok?
    ensures Canon(config, a, aRoot, aRefs) == Canon(config, b, bRoot, bRefs)
       <==> Agree(config, Expand(config, a, aRoot, aRefs), Expand(config, b, bRoot, bRefs))
  {
    CanonWritesMeaning(config, a, aRoot, aRefs);
    CanonWritesMeaning(config, b, bRoot, bRefs);
    ExpandIsProper(config, a, aRoot, aRefs);
    ExpandIsProper(config, b, bRoot, bRefs);
    WrittenAlikeIff(config, Expand(config, a, aRoot, aRefs), Expand(config, b, bRoot, bRefs));
  }

  ghost predicate SaysTheSame(config: Config, a: Json, b: Json) {
    Agree(config, Expand(config, a, a, {}), Expand(config, b, b, {}))
  }

  lemma CanonicalSchemasEqualIff(config: Config, a: Json, b: Json)
    requires Injective(config) && CanonicalSchema(config, a).Ok? && CanonicalSchema(config, b).Ok?
    ensures CanonicalSchema(config, a) == CanonicalSchema(config, b) <==> SaysTheSame(config, a, b)
  {
    SameFormIff(config, a, a, {}, b, b, {});
  }

  /** Members beside a reference are part of the form as they stand: not sorted, `$defs` included, and
      in place of what the target says. Nothing else of the target is lost. */
  lemma BesideReference(config: Config, schema: Json, root: Json, refs: set<RefKey>, key: string)
    requires schema.Obj? && Reference(schema).Some? && Canon(config, schema, root, refs).Ok?
    ensures var form := Canon(config, schema, root, refs).value;
            var target := Followed(config, Reference(schema).value, root, refs);
            && form.Obj? && target.Ok? && target.value.Obj?
            && (key in form.fields <==> key in target.value.fields || Relevant(schema, key))
            && (key in form.fields ==>
                  form.fields[key] == if Relevant(schema, key) then Canon(config, schema.fields[key], root, refs).value else target.value.fields[key])
  {
    CanonNeedsParts(config, schema, root, refs);
    CanonUnfolds(config, schema, root, refs);
    RelevantIffVisited(schema, key);
    assert key in Members(config, schema, root, refs) <==> Relevant(schema, key);
  }
}
