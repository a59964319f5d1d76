/** Which members and references of a schema count, keyword by keyword. */
module CanonicalKeywords {
  import opened JsonValues
  import opened Canonical

  predicate Scalar(value: Json) { !value.Obj? && !value.Arr? }

  /** Changing a scalar member changes the canonical form unless the member is an annotation, or holds
      the definitions of a schema that is not a reference. Elsewhere the schema may be anything that
      canonicalises. */
  lemma MemberMattersIff(config: Config, fields: map<string, Json>, key: string, a: Json, b: Json, root: Json, refs: set<RefKey>)
    requires key != "$ref" && Scalar(a) && Scalar(b) && a != b
    requires Canon(config, Obj(fields[key := a]), root, refs).Ok?
    ensures Canon(config, Obj(fields[key := a]), root, refs) == Canon(config, Obj(fields[key := b]), root, refs) <==>
              || key in {"$schema", "$id", "title", "description", "examples", "example", "default", "deprecated", "readOnly", "writeOnly"}
              || (key == "$defs" && !("$ref" in fields && fields["$ref"].Str?))
  {
    var x, y := Obj(fields[key := a]), Obj(fields[key := b]);
    assert Reference(x) == Reference(y) == Reference(Obj(fields));
    CanonNeedsParts(config, x, root, refs);
    if !Visited(x, key) {
      OnlyVisitedMembersMatter(config, x, y, root, refs);
    } else {
      VisitedScalarIsKept(config, x, key, root, refs);
      if Canon(config, y, root, refs).Ok? {
        VisitedScalarIsKept(config, y, key, root, refs);
      }
    }
  }

  lemma {:induction false} VisitedScalarIsKept(config: Config, schema: Json, key: string, root: Json, refs: set<RefKey>)
    requires schema.Obj? && Visited(schema, key) && Scalar(schema.fields[key]) && Canon(config, schema, root, refs).Ok?
    ensures var form := Canon(config, schema, root, refs).value;
            form.Obj? && key in form.fields && form.fields[key] == schema.fields[key]
  {
    CanonUnfolds(config, schema, root, refs);
    CanonUnfolds(config, schema.fields[key], root, refs);
    assert key in Members(config, schema, root, refs) && Members(config, schema, root, refs)[key] == Ok(schema.fields[key]);
  }

  lemma {:induction false} SingleMember(config: Config, key: string, a: Json, root: Json)
    requires key != "$ref" && Scalar(a)
    ensures Canon(config, Obj(map[key := a]), root, {}).Ok? && Definitions(Obj(map[key := a])) == map[]
  {
    var x := Obj(map[key := a]);
    assert ReferenceFree(x);
    ReferenceFreeCanonicalises(config, x, root, {});
  }

  /** For schemas with a single scalar keyword: string and integer types differ, titles do not. */
  lemma {:induction false} KeywordMattersIff(config: Config, key: string, a: Json, b: Json)
    requires key != "$ref" && Scalar(a) && Scalar(b) && a != b
    ensures CanonicalSchema(config, Obj(map[key := a])) == CanonicalSchema(config, Obj(map[key := b])) <==>
              key in {"$schema", "$id", "title", "description", "examples", "example", "default", "deprecated", "readOnly", "writeOnly", "$defs"}
  {
    var x, y := Obj(map[key := a]), Obj(map[key := b]);
    SingleMember(config, key, a, x);
    SingleMember(config, key, b, y);
    CanonUsesOnlyDefinitions(config, y, x, y, {});
    SingleMattersIff(config, key, a, b, x);
  }

  lemma {:induction false} SingleMattersIff(config: Config, key: string, a: Json, b: Json, root: Json)
    requires key != "$ref" && Scalar(a) && Scalar(b) && a != b
    ensures Canon(config, Obj(map[key := a]), root, {}) == Canon(config, Obj(map[key := b]), root, {}) <==>
              key in {"$schema", "$id", "title", "description", "examples", "example", "default", "deprecated", "readOnly", "writeOnly", "$defs"}
  {
    SingleMember(config, key, a, root);
    var none: map<string, Json> := map[];
    assert none[key := a] == map[key := a] && none[key := b] == map[key := b];
    MemberMattersIff(config, none, key, a, b, root, {});
  }

  /** A reference is followed exactly if it is `#/$defs/` and the name of a definition of the root, or
      `#/components/schemas/` and a name, not empty and without a slash, of a schema component. */
  lemma ResolvesIff(config: Config, reference: string, root: Json, target: Json, targetRoot: Json)
    ensures (exists key :: Resolve(config, reference, root) == Some(Target(target, targetRoot, key))) <==>
              || (targetRoot == root && exists name :: reference == "#/$defs/" + name && DefinedBy(root, name, target))
              || (targetRoot == target && exists name :: reference == "#/components/schemas/" + name && ComponentSchema(config, name, target))
  {
    var resolved := Resolve(config, reference, root);
    if "#/$defs/" <= reference {
      var name := reference[|"#/$defs/"|..];
      assert reference == "#/$defs/" + name;
      forall other | reference == "#/$defs/" + other ensures other == name { assert ("#/$defs/" + other)[|"#/$defs/"|..] == other; }
      forall other ensures reference != "#/components/schemas/" + other {
        assert ("#/components/schemas/" + other)[2] == 'c';
      }
    } else if "#/components/schemas/" <= reference {
      var name := reference[|"#/components/schemas/"|..];
      assert reference == "#/components/schemas/" + name;
      forall other | reference == "#/components/schemas/" + other ensures other == name {
        assert ("#/components/schemas/" + other)[|"#/components/schemas/"|..] == other;
      }
    }
  }

  predicate DefinedBy(root: Json, name: string, target: Json) {
    root.Obj? && "$defs" in root.fields && root.fields["$defs"].Obj?
    && name in root.fields["$defs"].fields && root.fields["$defs"].fields[name] == target
  }

  predicate ComponentSchema(config: Config, name: string, target: Json) {
    name != "" && '/' !in name && "schemas" in config.components && config.components["schemas"].Obj?
    && name in config.components["schemas"].fields && config.components["schemas"].fields[name] == target
  }
}
