# Models of the Lenso web ingress and OpenAPI plugins

This project models the hard core of two plugins and proves what their code keeps and computes.

- **Replicated listener and admission.** Lanes register manifests behind one ready gate; an acceptor
  places permit-carrying sockets into bounded lane queues; requests take a lane permit, then a global
  one; an idle watchdog closes quiet connections (`Manifests`, `Listener`, `ListenerPlacement`,
  `Coordinator`, `Admission`, `IdleWatchdog`).
- **Strict OpenAPI contracts.** Schemas are resolved across two reference spaces, rewritten to a
  canonical form, compared, and routes are merged into one document (`Canonical`, `CanonicalLoop`,
  `CanonicalPaths`, `CanonicalNormalForm`, `CanonicalKernel`, `CanonicalMeaning`,
  `CanonicalKeywords`, `KeyedEntries`, `StrictContracts`, `ContractBuilder`,
  `DetachedSchemas`, `DerivedContracts`, `WellFormedOperations`,
  `ContractDrift`, `PathTemplates`, `Assembly`).
- **Streams and sessions.** Response streams, WebSocket sessions and the permits they carry in event
  mode, against an arbitrary provider (`ResponseStreams`, `WebSocketSessions`, `EventPermits`).
- **Request normalisation.** Cookies, credentials, header stripping and restoring, the middleware
  chain (`FieldText`, `Cookies`, `Credentials`, `Headers`, `Middleware`).

`Sorting`, `Counting`, `Texts` and `JsonValues` are shared by these.

`dafny verify dfyconfig.toml` verifies everything.

## Conventions

- A step of a concurrent model is the code between two awaits. Semaphores are counters with permit
  tokens, channels are bounded sequences, time is a natural number, a provider is an arbitrary
  sequence of events. Runs are finite sequences of enabled steps, and safety theorems quantify over
  all of them.
- Code that changes fields or fills collections in loops is a class or a method, proved equal to a
  function of its inputs or old state; the properties are lemmas about that function.
- Error text is dropped: `Result` and `Outcome` say that and how a call fails, not in which words.
- JSON objects are maps. The source iterates them in key order; nothing it computes depends on that
  order, except the listings that `ContractBuilder.InOrder` makes explicit.
- Counters are unbounded: connection, slot and request counters do not wrap.
- Where a plausible law is false of the code, the model follows the code, lemmas give inputs for
  which it fails and the exact condition under which it holds.

## Model

| member | source | states |
|---|---|---|
| `Canonical.ResolveDescends` | crates/lenso-openapi-plugin/src/contract.rs:388-403 | following a reference that is not being resolved leaves strictly fewer keys to push, whichever of the two reference spaces it leads into; with the size of the schema this is why canonicalisation terminates on every schema graph, cyclic ones included |
| `CanonicalLoop.CanonicalSchemaWithRoot` | crates/lenso-openapi-plugin/src/contract.rs:379-446 | the recursive procedure with its mutable reference set computes exactly the canonical form, and every successful call leaves the reference set as it found it |
| `CanonicalLoop.FollowReference` | crates/lenso-openapi-plugin/src/contract.rs:389-403 | pushes the key, canonicalises the target under the target's root, and on success pops the key; a missing target or a key already on the stack is a failure |
| `CanonicalLoop.OverlayMembers` | crates/lenso-openapi-plugin/src/contract.rs:404-420 | members beside a reference override those of the target; the target must be an object |
| `CanonicalLoop.NormalizeMembers` | crates/lenso-openapi-plugin/src/contract.rs:423-435 | ignored keywords and `$defs` are dropped, `required` and `enum` arrays are sorted, everything else is canonicalised in place |
| `CanonicalLoop.NormalizeItems` | crates/lenso-openapi-plugin/src/contract.rs:437-443 | arrays are canonicalised element by element and fail as a whole |
| `Canonical.CanonShrinksReferences` | crates/lenso-openapi-plugin/src/contract.rs:391-403 | success with a larger reference set is the same success with every smaller one |
| `Canonical.CanonUsesOnlyDefinitions` | crates/lenso-openapi-plugin/src/contract.rs:448-464 | a root matters only through its definitions |
| `Canonical.InliningKeepsCanon` | crates/lenso-openapi-plugin/src/contract.rs:386-446 | replacing bare local references by their targets inside a schema, under a fixed root and stack, keeps its canonical form |
| `Canonical.InliningKeepsCanonicalSchema` | crates/lenso-openapi-plugin/src/contract.rs:371-446 | replacing any number of bare local references anywhere outside `$defs` by their definitions keeps the canonical form of every schema that has one |
| `Canonical.CanonIsReferenceFree` | crates/lenso-openapi-plugin/src/contract.rs:404-446 | canonical forms contain no string-valued `$ref` at any depth |
| `Canonical.ReferenceFreeCanonicalises` | crates/lenso-openapi-plugin/src/contract.rs:423-445 | a schema without references always has a canonical form |
| `Canonical.OnlyVisitedMembersMatter` | crates/lenso-openapi-plugin/src/contract.rs:409-434 | two objects that agree on the reference and on the visited members have the same canonical form |
| `CanonicalPaths.CanonicalisesIff` | crates/lenso-openapi-plugin/src/contract.rs:379-485 | a schema canonicalises exactly when every chain of references in it resolves to objects under keys not met before on that chain |
| `CanonicalPaths.FailureHasUnsoundPath` | crates/lenso-openapi-plugin/src/contract.rs:389-408 | every failure is explained by a concrete chain of references |
| `CanonicalPaths.SoundPathsAreShort` | crates/lenso-openapi-plugin/src/contract.rs:391-395 | a sound chain is no longer than the number of keys there are |
| `CanonicalPaths.CyclesAreRejected` | crates/lenso-openapi-plugin/src/contract.rs:391-395 | a schema from which a place (schema and root) can be reached that leads back to itself is rejected, whatever keys the references on the way have |
| `CanonicalPaths.LongChainsAreRejected` | crates/lenso-openapi-plugin/src/contract.rs:391-395 | a reference chain longer than the keys there are is enough for rejection |
| `CanonicalPaths.RejectionNeedsNoLoop` | crates/lenso-openapi-plugin/src/contract.rs:454-464 | "only cyclic references are rejected" is false: a schema in which no place leads back to itself is rejected because two different definitions share a name and local keys do not mention their root; `CanonicalisesIff` is the exact condition |
| `CanonicalNormalForm.ReferenceFreeCanonIsNormal` | crates/lenso-openapi-plugin/src/contract.rs:423-446 | on schemas without references canonicalisation is idempotent under every root and stack |
| `CanonicalNormalForm.CanonicalSchemaIgnoresShuffling` | crates/lenso-openapi-plugin/src/contract.rs:430-432 | permuting `required` and `enum` arrays anywhere in a schema, inside `$defs` as well, except directly beside a reference where the source does not sort, changes neither success nor canonical form, given that different values print differently |
| `CanonicalNormalForm.IgnoredMemberIsForgotten` | crates/lenso-openapi-plugin/src/contract.rs:487-501 | an ignored keyword leaves no trace in any object, also where it is the name of a property |
| `CanonicalKernel.UnreferencedCanon` | crates/lenso-openapi-plugin/src/contract.rs:423-445 | where no reference is reached, the canonical form is a function of the schema alone, whatever the root and the stack |
| `CanonicalMeaning.CanonWritesMeaning` | crates/lenso-openapi-plugin/src/contract.rs:386-446 | every canonical form is what the schema says, written down: kept members, every reference of either space replaced by its target, members beside a reference in place of the target's, loose arrays sorted |
| `CanonicalMeaning.SameFormIff` | crates/lenso-openapi-plugin/src/contract.rs:386-446 | two schemas that canonicalise, references included, have the same canonical form exactly when they say the same: equal scalars, lists position by position, the same members, `required` and `enum` arrays up to order except beside a reference |
| `CanonicalMeaning.BesideReference` | crates/lenso-openapi-plugin/src/contract.rs:404-420 | members beside a reference are part of the form as they stand, not sorted and `$defs` included, in place of what the target says; nothing else of the target is lost |
| `CanonicalKeywords.MemberMattersIff` | crates/lenso-openapi-plugin/src/contract.rs:409-434 | changing one scalar member of any schema that canonicalises, under any root and stack, leaves the form as it was exactly when the member is one of the ten annotation keywords, spelled out, or `$defs` in an object that is not a reference |
| `CanonicalKeywords.KeywordMattersIff` | crates/lenso-openapi-plugin/src/contract.rs:424-427 | two one-member schemas with different scalars under the same key have the same form exactly when the key is one of the ten annotation keywords or `$defs` |
| `CanonicalKeywords.ResolvesIff` | crates/lenso-openapi-plugin/src/contract.rs:448-485 | what a reference leads to, in literals: `#/$defs/` and the name of a definition of the root, with that root, or `#/components/schemas/` and the name, not empty and without a slash, of a configured schema, which is then its own root |
| `CanonicalKernel.OwnFormIff` | crates/lenso-openapi-plugin/src/contract.rs:386-446 | a schema is its own canonical form exactly when it has no reference, no dropped member, and sorted `required` and `enum` arrays |
| `CanonicalKernel.EqualFormsMeanEqualSchemas` | crates/lenso-openapi-plugin/src/contract.rs:386-446 | among schemas that are their own canonical form, equal forms mean equal schemas |
| `CanonicalKernel.PropertyNamedTitleIsForgotten` | crates/lenso-openapi-plugin/src/contract.rs:424-427 | "equal canonical forms mean equivalent schemas" is false: a property called `title` is forgotten; `CanonicalMeaning.SameFormIff` is the exact condition |
| `Sorting.SortIgnoresOrder` | crates/lenso-openapi-plugin/src/contract.rs:503-508 | under a total order two arrays sort to the same result exactly when one permutes the other |
| `Sorting.SortKeepsElements` | crates/lenso-openapi-plugin/src/contract.rs:507-507 | sorting permutes |
| `Sorting.SortSorts` | crates/lenso-openapi-plugin/src/contract.rs:507-507 | sorting yields an ordered sequence |
| `KeyedEntries.CollectIff` | crates/lenso-openapi-plugin/src/contract.rs:96-143 | the map-filling loop succeeds with a map exactly when no reading is bad and each key is read exactly as often as the map holds it, with that value |
| `KeyedEntries.CollectSucceedsIff` | crates/lenso-openapi-plugin/src/contract.rs:124-141 | it succeeds exactly when no reading is bad and no key is read twice |
| `KeyedEntries.CollectIgnoresOrder` | crates/lenso-openapi-plugin/src/contract.rs:97-143 | it does not depend on the order of the readings |
| `StrictContracts.ParameterMap` | crates/lenso-openapi-plugin/src/contract.rs:83-144 | the loop over a parameters array equals collecting its readings: header and cookie parameters are skipped, malformed and repeated ones fail |
| `StrictContracts.OtherSerializationIsRefused` | crates/lenso-openapi-plugin/src/contract.rs:153-189 | a path or query parameter with any style or explode setting other than the default of its location, or with allowReserved, is refused |
| `StrictContracts.ResponseMap` | crates/lenso-openapi-plugin/src/contract.rs:268-297 | the loop over the responses object succeeds exactly when every response can be read under an explicit status |
| `StrictContracts.CollectResponses` | crates/lenso-openapi-plugin/src/contract.rs:277-296 | the loop for any way of reading one response: all readings succeed, or the whole fails |
| `StrictContracts.Validate` | crates/lenso-openapi-plugin/src/contract.rs:14-37 | validation succeeds exactly when route id, method and path match and the generated operation accepts the authored one; when that is, is `ContractDrift.ValidatesIffNoDrift` |
| `WellFormedOperations.ComparableIff` | crates/lenso-openapi-plugin/src/contract.rs:56-297 | an operation can be compared exactly when, in its JSON: parameters are absent or an array of readable elements without a repeated location and name, the body if any and every response have a `content` whose only key is the media type required there, and every schema so found canonicalises |
| `WellFormedOperations.ComponentResolvesIff` | crates/lenso-openapi-plugin/src/contract.rs:342-369 | a value without a string `$ref` stands for itself, one with it for the component of that section it names by its literal prefix, in one step |
| `WellFormedOperations.ParametersIff` | crates/lenso-openapi-plugin/src/contract.rs:83-189 | a parameters array can be read exactly when every element stands for an object with `in`, path and query elements have a name, a boolean `required` (true in the path), default or absent serialisation settings and a schema that canonicalises, and no location and name is repeated |
| `WellFormedOperations.BodyIff` | crates/lenso-openapi-plugin/src/contract.rs:225-240 | a body can be read exactly when its only content is `application/json` with a schema that canonicalises; then its flag and that form are what is read |
| `WellFormedOperations.ResponseIff` | crates/lenso-openapi-plugin/src/contract.rs:268-340 | a response can be read exactly under an explicit status and when its only content is `application/json` (200 to 299) or `application/problem+json` (any other), with a schema that canonicalises |
| `StrictContracts.AcceptsIffSameSurface` | crates/lenso-openapi-plugin/src/contract.rs:56-266 | acceptance is equality of the surfaces a client generator sees: parameters, request body, responses |
| `StrictContracts.AcceptanceIsEquivalence` | crates/lenso-openapi-plugin/src/contract.rs:33-36 | acceptance is reflexive exactly on well-formed operations, symmetric and transitive |
| `StrictContracts.ParametersIgnoreOrder` | crates/lenso-openapi-plugin/src/contract.rs:96-144 | permuting a parameters array changes neither success nor the parameter map |
| `StrictContracts.AcceptanceIgnoresParameterOrder` | crates/lenso-openapi-plugin/src/contract.rs:56-81 | permuting the parameters array on either side changes no verdict |
| `ContractBuilder.StatusCodeIff` | crates/lenso-openapi-plugin/src/contract.rs:305-310 | the response keys accepted are exactly the decimal texts of 100 to 599 |
| `ContractBuilder.OpenApiContract.constructor` | crates/lenso-capability-http-endpoint/src/contract.rs:66-78 | a new builder has gathered nothing |
| `ContractBuilder.OpenApiContract.AddParameters` | crates/lenso-capability-http-endpoint/src/contract.rs:194-252 | succeeds exactly when the schema is an object with properties none of which is declared yet in that location, and then adds one declaration per property |
| `ContractBuilder.OpenApiContract.SetJsonBody` | crates/lenso-capability-http-endpoint/src/contract.rs:254-269 | only the first request body is accepted |
| `ContractBuilder.OpenApiContract.SuccessJson` | crates/lenso-capability-http-endpoint/src/contract.rs:105-120 | exactly one success response, with a status from 200 to 299 |
| `ContractBuilder.OpenApiContract.KnownProblem` | crates/lenso-capability-http-endpoint/src/contract.rs:123-141 | problem codes accumulate per status from 400 to 599; blank codes are refused |
| `ContractBuilder.OpenApiContract.Build` | crates/lenso-capability-http-endpoint/src/contract.rs:144-191 | fails exactly without a success response or when a problem claims its status, which the builder calls rule out; otherwise writes the fragment with ordered parameters, ordered codes and one response per status |
| `ContractBuilder.CollectProblems` | crates/lenso-capability-http-endpoint/src/contract.rs:162-183 | the loop over the known problems yields the response object for success and problems |
| `ContractBuilder.InOrder` | crates/lenso-capability-http-endpoint/src/contract.rs:154-176 | iterating an ordered set or map lists every element once, in order |
| `ContractBuilder.ListingIsUnique` | crates/lenso-capability-http-endpoint/src/contract.rs:154-176 | there is only one such listing, so the fragment is determined |
| `ContractBuilder.DeclaredParameterReads` | crates/lenso-capability-http-endpoint/src/contract.rs:241-249 | a parameter the builder writes is read back by the validator under its key, with its flag and canonical schema |
| `ContractBuilder.ProblemCanonicalises` | crates/lenso-capability-http-endpoint/src/contract.rs:283-296 | the generated problem schema always has a canonical form |
| `ContractBuilder.FragmentValidatesItselfIff` | crates/lenso-capability-http-endpoint/src/contract.rs:144-191 | a built fragment validates against its own operation exactly when the parameter, body and success schemas it carries canonicalise |
| `ContractBuilder.HasPropertiesIff` | crates/lenso-capability-http-endpoint/src/contract.rs:202-209 | which types declare parameters: object schemas with at least one named property |
| `ContractBuilder.DerivedParameterIs` | crates/lenso-capability-http-endpoint/src/contract.rs:210-249 | a derived parameter names its property and location and is required exactly when all are or the type lists the property as required |
| `ContractBuilder.DerivedBodyIs` | crates/lenso-capability-http-endpoint/src/contract.rs:260-267 | a body carries its flag, and its type's schema under `application/json` |
| `ContractBuilder.ProblemSays` | crates/lenso-capability-http-endpoint/src/contract.rs:283-296 | a problem response describes exactly the five problem members, with its status as a constant and the codes declared for that status, each once |
| `ContractBuilder.BuiltResponsesSay` | crates/lenso-capability-http-endpoint/src/contract.rs:157-183 | the built operation answers under exactly the success status and the statuses of declared problems, each with the response meant for it |
| `ContractBuilder.MentionsIff` | crates/lenso-capability-http-endpoint/src/contract.rs:298-311 | a schema mentions definitions exactly when some object inside it, at any depth, refers to `#/$defs/` and a name |
| `DetachedSchemas.RootDoesNotMatter` | crates/lenso-capability-http-endpoint/src/contract.rs:298-311 | a schema that mentions no definitions has the same canonical form under every root |
| `DetachedSchemas.DetachedIs` | crates/lenso-capability-http-endpoint/src/contract.rs:227-234 | what a property taken out of its type stands for, for every property, in terms of the type's own schema: its form in place, or, for a reference that takes definitions along, that form with the canonical definitions under `$defs`, failing if either fails |
| `DetachedSchemas.DetachedKeepsMeaningIff` | crates/lenso-capability-http-endpoint/src/contract.rs:227-234 | for every property of every type, the exact condition under which it keeps the meaning it has in place: it mentions no definitions, or takes them along and is not itself a reference or they change nothing, or, where it takes none along, its own do not differ from the root's in what they let it resolve |
| `DetachedSchemas.MoreDefinitions` | crates/lenso-openapi-plugin/src/contract.rs:448-464 | what canonicalises with some definitions has the same form with more |
| `DetachedSchemas.DetachedDefinitionChanges` | crates/lenso-capability-http-endpoint/src/contract.rs:227-234 | "detaching keeps the meaning" is false: a property that names a definition, itself not a reference, changes its form whenever it has one |
| `DetachedSchemas.BadDefinitionFails` | crates/lenso-capability-http-endpoint/src/contract.rs:227-234 | one definition without a canonical form, used or not, makes every property that is a reference and takes definitions along fail |
| `DerivedContracts.DerivedFragmentValidatesIff` | crates/lenso-capability-http-endpoint/src/contract.rs:81-191 | the fragment built for a handler validates against its own operation exactly when every property of its path and query types, its body type and its success type stand for something, in terms of the types' own schemas |
| `ContractDrift.AcceptsIffNoDrift` | crates/lenso-openapi-plugin/src/contract.rs:14-297 | one operation accepts another exactly when both are well formed (a condition on their JSON, as in `WellFormedOperations.ComparableIff`) and they declare the same path and query parameters with the same flags, both or neither a body with the same flag, the same statuses, and schemas that say the same, inline or behind components |
| `ContractDrift.ValidatesIffNoDrift` | crates/lenso-openapi-plugin/src/contract.rs:14-37 | validation in full, on the JSON: an operation validates against a contract exactly when that names its route id, method and path and carries an operation from which it does not differ in this sense |
| `ContractDrift.TypeDriftIsNoticed` | crates/lenso-openapi-plugin/src/contract.rs:242-297 | two operations that differ at most in the `type` of one response schema accept each other exactly when the types are equal |
| `ContractDrift.ParametersAgreeIff` | crates/lenso-openapi-plugin/src/contract.rs:56-144 | the parameter comparison succeeds exactly when keys and flags are the same and the schemas say the same |
| `ContractDrift.BodiesAgreeIff` | crates/lenso-openapi-plugin/src/contract.rs:191-240 | the same for request bodies |
| `ContractDrift.ResponsesAgreeIff` | crates/lenso-openapi-plugin/src/contract.rs:242-297 | the same for responses, status by status |
| `PathTemplates.OpenApiPath` | crates/lenso-openapi-plugin/src/assemble.rs:136-175 | the loop equals the recursive reading of a path: placeholders in order, names stripped of one `*`, unclosed, nested, blank and repeated names refused |
| `PathTemplates.RenderedNames` | crates/lenso-openapi-plugin/src/assemble.rs:155-162 | the names found are good and pairwise different |
| `PathTemplates.TemplateIsIdempotentIff` | crates/lenso-openapi-plugin/src/assemble.rs:136-175 | rendering a rendered template again gives the same template and names exactly when no opening brace of the path is followed by two stars |
| `PathTemplates.DoubleStarIsStrippedAgain` | crates/lenso-openapi-plugin/src/assemble.rs:155-155 | "`openapi_path` is idempotent" is false: `/{**x}` loses a second star the second time |
| `PathTemplates.AcceptedIff` | crates/lenso-openapi-plugin/src/assemble.rs:136-175 | a path is accepted with a template and names exactly when it is absolute and made of literals without an opening brace, placeholders with good and distinct names, and a last literal without braces; the template is those pieces with stripped names |
| `PathTemplates.GoodPieceIff` | crates/lenso-openapi-plugin/src/assemble.rs:150-162 | what a placeholder is, character by character: no brace inside, a name that is not empty and free of white space, after one star at most |
| `PathTemplates.AcceptedIsBalancedIff` | crates/lenso-openapi-plugin/src/assemble.rs:168-172 | an accepted path never has too few closing braces, and its braces are balanced exactly when it has as many closing as opening ones |
| `PathTemplates.StrayTerminatorIsAccepted` | crates/lenso-openapi-plugin/src/assemble.rs:144-172 | "only balanced braces are accepted" is false: every path with a stray closing brace in front of a placeholder passes unbalanced, one after the last placeholder does not pass; `AcceptedIsBalancedIff` is the exact condition |
| `PathTemplates.StrayTerminatorExample` | crates/lenso-openapi-plugin/src/assemble.rs:168-172 | `/a}{x}` is accepted and unbalanced |
| `Assembly.EnsurePathParameters` | crates/lenso-openapi-plugin/src/assemble.rs:177-223 | the two loops equal: keep what is declared, append a default for each template name not declared inline |
| `Assembly.EnsuredDeclares` | crates/lenso-openapi-plugin/src/assemble.rs:212-221 | every template name ends up declared inline and required |
| `Assembly.EnsuredIff` | crates/lenso-openapi-plugin/src/assemble.rs:177-211 | the call succeeds exactly when the path has no names or the parameters are absent or an array of objects of which those in the path have a name and are required |
| `Assembly.AppendedAreDefaults` | crates/lenso-openapi-plugin/src/assemble.rs:212-221 | what is appended are required path parameters of type string, each for a template name not declared inline |
| `Assembly.DeclaredOnceIff` | crates/lenso-openapi-plugin/src/assemble.rs:177-223 | a template name has exactly one declaration after the call, inline or behind a reference, exactly when before it none is behind a reference and at most one is inline |
| `Assembly.DeclarationsAfter` | crates/lenso-openapi-plugin/src/assemble.rs:191-221 | how many there are: at least one inline, as many as before if there were any, and those behind references as before |
| `Assembly.ReferencedDeclarationIsRepeated` | crates/lenso-openapi-plugin/src/assemble.rs:191-221 | "one declaration per path parameter" is false: a parameter declared by the component an element refers to is declared again inline; `DeclaredOnceIff` is the exact condition |
| `Assembly.RepeatedDeclarationStays` | crates/lenso-openapi-plugin/src/assemble.rs:210-210 | and two inline declarations of one parameter pass unnoticed |
| `Assembly.PrepareRoute` | crates/lenso-openapi-plugin/src/assemble.rs:50-101 | the per-route part of assembly: path, method, id, extension, responses, strict contract, path parameters |
| `Assembly.PreparedOperation` | crates/lenso-openapi-plugin/src/assemble.rs:51-101 | a prepared operation goes under the route's method in lower case without surrounding white space, one of eight, and carries its route id, no strict-contract extension, the authored responses or an undocumented default, an inline required path parameter for every template name, and every other authored member unchanged |
| `Assembly.PreparesIff` | crates/lenso-openapi-plugin/src/assemble.rs:50-101 | exactly when a route can be described |
| `Assembly.PublishedContractHoldsIff` | crates/lenso-openapi-plugin/src/assemble.rs:90-101 | a strict contract still holds of the published operation exactly when the author declared every path parameter inline, because defaults are appended after validation |
| `Assembly.PublishedIsAcceptedIff` | crates/lenso-openapi-plugin/src/assemble.rs:90-101 | the same between a generated and an authored operation |
| `DerivedContracts.PublishingCanBreakContract` | crates/lenso-openapi-plugin/src/assemble.rs:90-101 | "a published operation meets its contract" is false: a handler that does not declare the path parameter of its route is assembled, and the default appended for it breaks the contract |
| `Assembly.StrictRoutesDeclareResponses` | crates/lenso-openapi-plugin/src/assemble.rs:76-99 | a strict contract cannot be met by an operation that leaves its responses to the default |
| `Assembly.PlaceOperation` | crates/lenso-openapi-plugin/src/assemble.rs:102-112 | an operation goes to its path and method unless that place is taken |
| `Assembly.AddRoute` | crates/lenso-openapi-plugin/src/assemble.rs:46-113 | one turn of the loop: fails on an undescribable route, a repeated id or a taken place |
| `Assembly.Assemble` | crates/lenso-openapi-plugin/src/assemble.rs:40-117 | the loop over all routes of all providers equals the declarative merge |
| `Assembly.AssemblesIff` | crates/lenso-openapi-plugin/src/assemble.rs:40-117 | assembly succeeds exactly when there is a route, every route can be described, route ids differ and no two routes share a template and method |
| `Assembly.OneOperationPerRoute` | crates/lenso-openapi-plugin/src/assemble.rs:102-105 | every route's operation is in the document at its place |
| `Assembly.OneRoutePerOperation` | crates/lenso-openapi-plugin/src/assemble.rs:102-112 | every operation of the document comes from exactly one route |
| `Assembly.AssemblyIgnoresOrder` | crates/lenso-openapi-plugin/src/assemble.rs:44-113 | permuting the routes changes neither success nor document |
| `Assembly.AssemblyIgnoresProviderOrder` | crates/lenso-openapi-plugin/src/assemble.rs:46-49 | nor does permuting the providers |
| `Manifests.ManifestsEqualIff` | crates/lenso-web-ingress-plugin/src/manifest.rs:28-46 | two lanes publish equal manifests exactly when their route lists are permutations of each other and their middleware sequences are equal |
| `Listener.InitEstablishesInv` | crates/lenso-web-ingress-plugin/src/replication.rs:94-117 | a freshly bound coordinator satisfies the invariant |
| `Listener.StepKeepsInv` | crates/lenso-web-ingress-plugin/src/replication.rs:132-406 | every step of allocation, registration, acceptance, waiting, lane close, serving and finishing keeps the invariant, and readiness is never revoked |
| `Listener.RunsKeepInv` | crates/lenso-web-ingress-plugin/src/replication.rs:132-406 | in every run: free, in-hand, queued and serving permits add up to max_connections, each socket is in one place or gone and enters at most one lane queue, no slot is handed out twice, the gate is open exactly when all lanes are registered |
| `Listener.LanesServeInOrder` | crates/lenso-web-ingress-plugin/src/replication.rs:256-271 | every lane serves the connections it holds in the order in which they were accepted |
| `ListenerPlacement.ScanFindsFirst` | crates/lenso-web-ingress-plugin/src/replication.rs:379-392 | the scan sends to the first lane with room in cyclic order and blocks only if there is none |
| `ListenerPlacement.QueuesHoldEveryPermit` | crates/lenso-web-ingress-plugin/src/replication.rs:193-200 | the lane queues together have room for every connection permit |
| `ListenerPlacement.CapacityIsLeast` | crates/lenso-web-ingress-plugin/src/replication.rs:193-200 | the bound of a lane queue is at least one, and otherwise the least with which the queues together hold every connection permit |
| `ListenerPlacement.SomeLaneHasRoom` | crates/lenso-web-ingress-plugin/src/replication.rs:360-394 | with all lanes up and a permit free some lane queue is not full, by pigeonhole |
| `ListenerPlacement.AdmissionsAreCounted` | crates/lenso-web-ingress-plugin/src/replication.rs:360-377 | in every run the round-robin counter advances by exactly the connections that got a permit |
| `ListenerPlacement.AdmittedConnectionIsPlaced` | crates/lenso-web-ingress-plugin/src/replication.rs:360-394 | in every run from the start, with all lanes registered and open, the k-th connection that gets a permit is placed by the scan on the first lane with room in cyclic order from lane k modulo the number of lanes; the waiting branch is not taken |
| `ListenerPlacement.ConsecutiveConnectionsSpread` | crates/lenso-web-ingress-plugin/src/replication.rs:376-393 | as many consecutive connections as there are lanes, all with room, go to as many different lanes, one after the other |
| `ListenerPlacement.NeverWaitsWhileLanesAreUp` | crates/lenso-web-ingress-plugin/src/replication.rs:395-406 | in every run in which no lane goes down the acceptor never waits |
| `ListenerPlacement.WaitsForEveryOpenLane` | crates/lenso-web-ingress-plugin/src/replication.rs:378-406 | a connection that has to wait waits for room in every lane whose receiver is open, and in no other; all of them are full |
| `ListenerPlacement.GateOpensIff` | crates/lenso-web-ingress-plugin/src/replication.rs:187-223 | for every order of one registration per slot the gate opens exactly when all lanes own the same routes and run the same middleware in the same order |
| `ListenerPlacement.RefusedRegistrationsLeaveNoTrace` | crates/lenso-web-ingress-plugin/src/replication.rs:207-218 | after any sequence of registrations, repeated slots included, the whole state is what the registrations that match the first manifest produce alone: a refused registration leaves no trace |
| `Coordinator.ListenerCoordinator.constructor` | crates/lenso-web-ingress-plugin/src/replication.rs:94-117 | all slots free, no manifest, all permits free |
| `Coordinator.ListenerCoordinator.AllocateReplicaAt` | crates/lenso-web-ingress-plugin/src/replication.rs:139-165 | hands out a slot exactly if it exists and was never handed out |
| `Coordinator.ListenerCoordinator.AllocateReplica` | crates/lenso-web-ingress-plugin/src/replication.rs:132-137 | hands out the slot of a bare counter, which is not necessarily the next free one |
| `ListenerPlacement.AllocationsCountUp` | crates/lenso-web-ingress-plugin/src/replication.rs:132-137 | when no slot is asked for by number, successive allocations hand out slots 0, 1, 2 and so on until all lanes have one |
| `Coordinator.ListenerCoordinator.RegisterReplica` | crates/lenso-web-ingress-plugin/src/replication.rs:187-236 | registers a lane or leaves everything as it was |
| `Coordinator.ListenerCoordinator.OfferToLanes` | crates/lenso-web-ingress-plugin/src/replication.rs:376-393 | the scan loop equals its recursive specification |
| `Coordinator.ListenerCoordinator.DistributeConnection` | crates/lenso-web-ingress-plugin/src/replication.rs:360-406 | one accept step, up to the first await |
| `Coordinator.ListenerCoordinator.SendReserved` | crates/lenso-web-ingress-plugin/src/replication.rs:395-404 | a successful reservation sends the waiting connection to that lane |
| `Coordinator.ListenerCoordinator.DropWaiting` | crates/lenso-web-ingress-plugin/src/replication.rs:400-406 | when every reservation has failed the connection is dropped together with its permit |
| `Admission.StepKeepsInv` | crates/lenso-web-ingress-plugin/src/server.rs:463-482 | every arrival, acquisition, cancellation and completion conserves lane and global permits |
| `Admission.RunningIsBounded` | crates/lenso-web-ingress-plugin/src/server.rs:463-482 | in every reachable state at most max_concurrent_requests requests run, and in each lane at most any share with which the lanes together could run them all |
| `Counting.ShareIsLeast` | crates/lenso-web-ingress-plugin/src/replication.rs:94-98 | the share of a lane is the least with which the lanes together cover the total |
| `Admission.SomeoneProceeds` | crates/lenso-web-ingress-plugin/src/ingress.rs:211-230 | no deadlock: while requests wait and none runs, some acquisition is possible |
| `Admission.LoadedLanesUseEveryPermit` | crates/lenso-web-ingress-plugin/src/replication.rs:94-98 | a state without possible acquisition in which every lane has its share of requests runs exactly max_concurrent_requests |
| `IdleWatchdog.RunKeepsInv` | crates/lenso-web-ingress-plugin/src/server.rs:426-441 | while idle the pending deadline is never later than the last completion plus the timeout |
| `IdleWatchdog.FiresOnlyAfterIdleTimeout` | crates/lenso-web-ingress-plugin/src/server.rs:426-441 | the watchdog fires only if no request was active during the whole preceding timeout, exactly at the last completion plus the timeout |
| `IdleWatchdog.IdleSinceLastEnd` | crates/lenso-web-ingress-plugin/src/server.rs:93-101 | in every run, while no request is active the idle time counts from the end of the last request, or from the start of the connection |
| `IdleWatchdog.IdleConnectionIsClosedOnTime` | crates/lenso-web-ingress-plugin/src/server.rs:426-441 | an idle connection does not outlive its limit: time cannot pass it and the wake-up then due closes it |
| `IdleWatchdog.BodiesAreNotWaitedFor` | crates/lenso-web-ingress-plugin/src/server.rs:426-453 | in every run, a due wake-up closes the connection exactly when no request is active and the timeout has passed since the last answer, however many response bodies are still open |
| `IdleWatchdog.OpenBodyDoesNotDelayClosing` | crates/lenso-web-ingress-plugin/src/server.rs:453-453 | "a connection in use is left open" is false: a request is active only until its response head exists, so a connection that is still streaming a body is told to shut down; `BodiesAreNotWaitedFor` is the exact condition |
| `IdleWatchdog.ConnectionWatch.BeginRequest` | crates/lenso-web-ingress-plugin/src/server.rs:83-88 | one more active request |
| `IdleWatchdog.ConnectionWatch.EndRequest` | crates/lenso-web-ingress-plugin/src/server.rs:93-101 | the last request to end sets the idle time |
| `IdleWatchdog.ConnectionWatch.OnDeadline` | crates/lenso-web-ingress-plugin/src/server.rs:426-441 | closes exactly when idle for the timeout, otherwise re-arms |
| `ResponseStreams.ReplyIsExact` | crates/lenso-web-ingress-plugin/src/routing.rs:430-461 | the client gets exactly the bodies of the chunks before the first event that is not a good chunk, in order, and a clean end exactly when the events are a head, chunks and a successful terminal |
| `ResponseStreams.Serve` | crates/lenso-web-ingress-plugin/src/server.rs:165-196 | for every provider event sequence, head wait, receive loop and body polling together yield what the sequence without half-closes stands for |
| `ResponseStreams.AwaitHead` | crates/lenso-web-ingress-plugin/src/routing.rs:430-461 | the head loop skips half-closes, accepts a complete head, refuses everything else |
| `ResponseStreams.WebIngressResponseStream.Receive` | crates/lenso-web-ingress-plugin/src/response_stream.rs:42-82 | one chunk, clean end or error; permit and flags change exactly with the outcome; a second read while one is pending is refused |
| `ResponseStreams.WebIngressResponseStream.Cancel` | crates/lenso-web-ingress-plugin/src/response_stream.rs:87-92 | drops the permit and ends the stream |
| `ResponseStreams.PollBody` | crates/lenso-web-ingress-plugin/src/server.rs:165-196 | polling delivers the chunks and the ending of the remaining events |
| `WebSocketSessions.StepKeepsInv` | crates/lenso-web-ingress-plugin/src/websocket.rs:116-203 | every step keeps: each flag set exactly while one matching call is in flight, payload of both directions together within the session limit, a close is the last frame of its direction, no permit after cancel or end |
| `WebSocketSessions.InitEstablishesInv` | crates/lenso-web-ingress-plugin/src/websocket.rs:101-114 | a fresh session satisfies the invariant |
| `WebSocketSessions.RunsKeepInv` | crates/lenso-web-ingress-plugin/src/websocket.rs:116-203 | so does every interleaving; cancellation and end are never undone |
| `WebSocketSessions.SessionStaysWithinBudget` | crates/lenso-web-ingress-plugin/src/websocket.rs:116-125 | in every run the texts of text frames and the bodies of binary frames, sent and delivered together, stay within the session limit, and the counter holds exactly their length |
| `WebSocketSessions.SendBeginsIff` | crates/lenso-web-ingress-plugin/src/websocket.rs:20-145 | a send is handed to the stream exactly when the session is live and not writing and the frame is a text or binary message and nothing else, within the message limit and the remaining budget, or a close with a code in 1000-1003, 1007-1014 or 3000-4999 and a reason of at most 123 octets; any other frame cancels the session |
| `WebSocketSessions.MessageIsDeliveredIff` | crates/lenso-web-ingress-plugin/src/websocket.rs:162-194 | the same condition, and no close before, for a message the peer sends; a half-close is skipped, a successful terminal ends the session, all else cancels it |
| `WebSocketSessions.NothingFollowsClose` | crates/lenso-web-ingress-plugin/src/websocket.rs:129-177 | nothing is sent after a sent close or a cancel, nothing is delivered after a received close |
| `WebSocketSessions.CallsAfterCancelFail` | crates/lenso-web-ingress-plugin/src/websocket.rs:129-203 | every call begun after a cancel fails and changes nothing, whatever happened in between |
| `WebSocketSessions.WebSocketSession.ValidateData` | crates/lenso-web-ingress-plugin/src/websocket.rs:116-125 | accounts for a frame exactly if it is valid and fits the remaining budget |
| `WebSocketSessions.WebSocketSession.StartSend` | crates/lenso-web-ingress-plugin/src/websocket.rs:129-145 | `send` up to its await |
| `WebSocketSessions.WebSocketSession.FinishSend` | crates/lenso-web-ingress-plugin/src/websocket.rs:145-150 | `send` after its await; a failing stream cancels the session |
| `WebSocketSessions.WebSocketSession.StartReceive` | crates/lenso-web-ingress-plugin/src/websocket.rs:151-161 | `receive` up to its first await |
| `WebSocketSessions.WebSocketSession.ReceiveEvent` | crates/lenso-web-ingress-plugin/src/websocket.rs:162-194 | one turn of the receive loop |
| `WebSocketSessions.WebSocketSession.CancelSession` | crates/lenso-web-ingress-plugin/src/websocket.rs:198-202 | drops the permit and marks the session cancelled |
| `EventPermits.StepKeepsInv` | crates/lenso-web-ingress-plugin/src/event.rs:164-235 | every step keeps the permits accounted for and a body holds its permit exactly while it is live |
| `EventPermits.RunsKeepInv` | crates/lenso-web-ingress-plugin/src/event.rs:164-235 | so does every run, over all session and stream steps |
| `EventPermits.PermitsAreConserved` | crates/lenso-web-ingress-plugin/src/event.rs:164-235 | in every reachable state free permits, dispatching requests, live streams and live sockets add up to max_concurrent_requests; each permit returns exactly once, when its request stops being live |
| `EventPermits.PermitComesBackIff` | crates/lenso-web-ingress-plugin/src/ingress.rs:758-773 | a dispatched request gives its permit back at once exactly when it was HEAD, its response is buffered, streamed under 1xx, 204 or 304, or an upgrade with a status other than 101; otherwise the stream or the socket keeps it |
| `EventPermits.StreamKeepsPermitIff` | crates/lenso-web-ingress-plugin/src/response_stream.rs:42-82 | an open stream keeps its permit on a half-close and a chunk without status and headers, and on nothing else |
| `Cookies.SelectCookies` | crates/lenso-web-ingress-plugin/src/session_cookie.rs:125-154 | the nested loops equal pair-by-pair selection over all crumbs |
| `Cookies.AddAllCollects` | crates/lenso-web-ingress-plugin/src/session_cookie.rs:130-166 | what the loops amount to: no malformed pair, at most one value for each cookie, and those values |
| `Cookies.CrumbsIff` | crates/lenso-web-ingress-plugin/src/session_cookie.rs:130-141 | the pairs of a Cookie field are the pieces between semicolons, octet by octet, without white space around them and not empty |
| `Cookies.NormalizedValueIff` | crates/lenso-web-ingress-plugin/src/session_cookie.rs:168-182 | a cookie value is accepted exactly as plain octets or as plain octets between two quotes |
| `FieldText.TrimIs` | crates/lenso-web-ingress-plugin/src/session_cookie.rs:136-139 | trimming takes white octets off both ends, all of them and nothing else |
| `FieldText.PieceIff` | crates/lenso-web-ingress-plugin/src/session_cookie.rs:130-135 | splitting at a separator yields exactly the pieces that stand between two separators or an end and contain none |
| `FieldText.ReadableIff` | crates/lenso-web-ingress-plugin/src/session_cookie.rs:102-118 | a field value can be read exactly when it is made of tabs and visible ASCII with spaces |
| `Cookies.ClassifyIff` | crates/lenso-web-ingress-plugin/src/session_cookie.rs:140-166 | a pair counts for a cookie exactly when its name, white space aside, is that of the cookie and its value spells an acceptable value |
| `Cookies.SelectionIgnoresCrumbSplits` | crates/lenso-web-ingress-plugin/src/session_cookie.rs:130-141 | splitting a Cookie field at a crumb or joining two with "; " (section 8.2.3 of RFC 9113) selects the same cookies |
| `Cookies.SelectionIgnoresPairOrder` | crates/lenso-web-ingress-plugin/src/session_cookie.rs:125-154 | permuting cookie pairs, also across fields, selects the same cookies |
| `Credentials.TokensMatchIffEqual` | crates/lenso-web-ingress-plugin/src/session_cookie.rs:196-206 | the constant-time XOR/OR fold is equality |
| `Credentials.SessionCredentialIff` | crates/lenso-web-ingress-plugin/src/session_cookie.rs:44-72 | a credential with scheme session comes out exactly when the cookie grants it (no Authorization field and, for unsafe methods, one CSRF header equal to the CSRF cookie) or the Authorization field spells that scheme out and no session cookie is there |
| `Credentials.SafeMethodIff` | crates/lenso-web-ingress-plugin/src/session_cookie.rs:184-194 | the safe methods, octet by octet: GET, HEAD, OPTIONS and TRACE as spelled, QUERY in any case |
| `Credentials.AuthorizationIff` | crates/lenso-web-ingress-plugin/src/session_cookie.rs:74-118 | exactly when an Authorization field yields a credential: one readable field of scheme, space and value, where the value of a bearer or basic credential is a single token; the scheme comes out in lower case |
| `Credentials.WithoutPolicyIff` | crates/lenso-web-ingress-plugin/src/session_cookie.rs:44-52 | without a session cookie policy the Authorization field alone decides: none gives no credential, one that yields a credential gives that, anything else is a bad request |
| `Credentials.SessionSchemeNeedsNoCookie` | crates/lenso-web-ingress-plugin/src/session_cookie.rs:74-100 | "a session credential needs the session cookie" is false: `Authorization: Session x` yields one by itself |
| `Credentials.CsrfForbiddenIff` | crates/lenso-web-ingress-plugin/src/session_cookie.rs:59-67 | a request is turned away for CSRF exactly when it is unsafe, leans on the session cookie, and cookie and header do not agree; a repeated or unreadable header is a bad request instead |
| `Credentials.CredentialIgnoresCrumbSplits` | crates/lenso-web-ingress-plugin/src/session_cookie.rs:44-72 | the whole selection, rejections included, does not depend on how Cookie fields are split |
| `Credentials.CredentialIgnoresPairOrder` | crates/lenso-web-ingress-plugin/src/session_cookie.rs:44-72 | nor on the order of the cookie pairs |
| `Headers.ConnectionOwnedHeaders` | crates/lenso-web-ingress-plugin/src/ingress.rs:417-437 | the nested loops collect the names listed in Connection fields, or refuse |
| `Headers.MiddlewareSees` | crates/lenso-web-ingress-plugin/src/ingress.rs:240-284 | what middleware sees of an accepted request, in terms of the octets the client sent: the method in upper case, the path and query of the target, the body, and name by name the request id, nothing under the twelve filtered names, the CSRF header or a name a Connection field lists, every other value in order |
| `Headers.TargetIsRead` | crates/lenso-web-ingress-plugin/src/ingress.rs:256-256 | path and query are those the target spells: after a slash, or after scheme, `://` and authority with `/` for a missing path, up to a question mark, then up to a hash; a fragment is dropped |
| `Headers.TargetSays` | crates/lenso-web-ingress-plugin/src/ingress.rs:256-256 | every target that starts with a slash, is a star, or is absolute spells such a path and query |
| `Headers.FilteredIff` | crates/lenso-web-ingress-plugin/src/ingress.rs:439-466 | the twelve names that never pass as the client sent them |
| `Headers.NamedByConnectionIff` | crates/lenso-web-ingress-plugin/src/ingress.rs:417-437 | a Connection field names a header when the name, in any case and with white space around it, stands between two commas or between a comma and an end |
| `Headers.AcceptedIff` | crates/lenso-web-ingress-plugin/src/ingress.rs:475-517 | a request is accepted exactly when its first request id is readable and 1 to 128 octets long, its credential is accepted, its Connection fields list header names, and every value that passes on is readable |
| `Headers.AcceptedRequestHasId` | crates/lenso-web-ingress-plugin/src/ingress.rs:605-614 | an accepted request has a readable request id of 1 to 128 octets |
| `Headers.MiddlewareRequest` | crates/lenso-web-ingress-plugin/src/ingress.rs:240-284 | rebuilds the request: no request at all, where the source panics, exactly when there is neither path nor query; otherwise, name by name, the request id and the accepted values |
| `Headers.RebuildsIff` | crates/lenso-web-ingress-plugin/src/ingress.rs:256-262 | an accepted request can be rebuilt exactly when its target starts with a slash, is a star, or is absolute |
| `Headers.AuthorityAloneIsNotRebuilt` | crates/lenso-web-ingress-plugin/src/ingress.rs:256-262 | "every accepted request reaches the middleware" is false: `GET localhost` is accepted and the source panics on rebuilding it; `RebuildsIff` is the exact condition |
| `Headers.RoundTrip` | crates/lenso-web-ingress-plugin/src/ingress.rs:240-324 | under middleware that changes nothing the endpoint gets the method, the path and query the client's target spells, the body, the credential, the request id and, name by name, the headers that the ingress accepted, whenever the request can be rebuilt |
| `Headers.TargetRebuilds` | crates/lenso-web-ingress-plugin/src/ingress.rs:256-256 | taking a target apart and putting it together again loses only scheme, authority and fragment |
| `Headers.RestoredIsolatesCredentials` | crates/lenso-web-ingress-plugin/src/ingress.rs:286-324 | for every request a middleware leaves behind, credential, CSRF, hop-by-hop, Connection-named and the other filtered headers are gone, and every other name keeps exactly its values |
| `Headers.RestoredIff` | crates/lenso-web-ingress-plugin/src/ingress.rs:286-312 | a request is refused on restoring exactly when a Connection field is unreadable or lists no header name, or a value that would pass on is unreadable |
| `Middleware.Run` | crates/lenso-web-ingress-plugin/src/middleware.rs:68-97 | the two loops equal the recursive onion with a threaded mutable request, for all layers, hooks and failures |
| `Middleware.OnionCalls` | crates/lenso-web-ingress-plugin/src/middleware.rs:79-96 | which hooks are called, in which order, from every layer on |
| `Middleware.DispatchesAtMostOnce` | crates/lenso-web-ingress-plugin/src/middleware.rs:79-93 | dispatch happens once if every layer continues and otherwise not at all |
| `Middleware.CleanRunLeavesWhatItEntered` | crates/lenso-web-ingress-plugin/src/middleware.rs:94-97 | a run without error calls the after-hooks of exactly the entered layers, in reverse |
| `Middleware.CleanRunIsVisit` | crates/lenso-web-ingress-plugin/src/middleware.rs:68-97 | every run without error is a clean visit, written out layer by layer: its response is what the outermost after-hook made of the response inside it, down to the dispatched one or the one a layer answered with, and every after-hook sees the request as the innermost entered layer left it |
| `Middleware.VisitIsCleanRun` | crates/lenso-web-ingress-plugin/src/middleware.rs:68-97 | and every clean visit is that run, so no other response, request or world is possible |

## Left out

- Sockets, Hyper, the WebSocket pump and handshake, the kernel's streams and readiness: foreign I/O; they appear as steps that may happen at any time.
- Path matching, URL parsing beyond path, query and fragment, base64, hashing, serialisation and schema derivation: libraries. The JSON printer that orders arrays is an arbitrary function; where the order must not depend on ties it is required to be injective.
- Error and diagnostic text, and which of several errors is reported first where all have the same kind.
- The byte rendering of the document, its title, servers and components: copied from the configuration.
- Configuration range validation and the proc-macro crate, which works on token trees.
- `lenso-http-egress-plugin`, `lenso-http-auth` and `lenso-web-host`: outbound calls, authentication helpers and plan assembly.
- Teardown of the coordinator (its weak reference failing to upgrade) and acceptor failures: the acceptor then stops accepting.
- Response head validation of streamed endpoints (status range, header syntax) and transport headers added to responses.
- Body and head size limits, request deadlines.
- The listener mode without replicas: it has no lane semaphore and no distribution.
- Fairness: nothing is said about which waiter a semaphore serves, so progress is stated as some acquisition being possible.
- Coordinator.ListenerCoordinator.DistributeConnection: covers the code up to the first await; what follows is `SendReserved` and `DropWaiting`, and which reservation succeeds first is not determined.
- ResponseStreams.WebIngressResponseStream.Receive: consumes the events the provider has already produced; a cancel that interleaves with a pending receive is a step of `EventPermits` instead.
- CanonicalNormalForm.CanonicalSchemaIgnoresShuffling: the printer that orders arrays is a parameter, required to print different values differently; the library's own printer is not part of this model.
- CanonicalMeaning.SameFormIff: the printer that orders arrays is required to print different values differently, as for shuffling.
- Headers.RebuildsIff: that the library refuses to build an empty URI, and no other made of an accepted path and query, is an assumption about the library; the turning away of CONNECT before this point is not modelled.
- IdleWatchdog.FiresOnlyAfterIdleTimeout: assumes an ideal timer, that is, time does not pass a pending deadline before the sleeper runs.
- ContractBuilder.OpenApiContract.AddParameters: says nothing about the builder after a failing call, which gives the builder up.
