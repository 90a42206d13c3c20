# hyperfastapi: verified model

hyperfastapi is a FastAPI-compatible web framework whose dispatcher is written
in Rust (`crates/fr-pyiface`) and whose signature inspection, dependency
resolution, form parsing, WebSocket and OpenAPI code is Python
(`python/hyperfastapi`).  This project models the parts of it that carry state
or branch the most, and proves what they keep over every input, every request
and every interleaving.

Check everything with `dafny verify dfyconfig.toml`.

## How it is laid out

Code that works by changing things is modelled as methods, over classes where
the source has objects: the output buffer, a router's route list, the compiler's
guard set, the per-request record, the resolver with its memo table, the two
ends of a WebSocket.  Each method is proved equal to a function of its inputs or
of the old state.  The theorems are about those functions.

| area | modules |
|---|---|
| JSON printer, an RFC 8259 reader, their round trip, and what the printed text is among all texts | `JsonPrinter`, `JsonReader`, `JsonRoundTrip`, `JsonLaws` |
| multipart parser, a printer for RFC 2046 / RFC 7578, their round trip, and what the parser's expressions match | `Multipart`, `MultipartRoundTrip`, `MultipartLaws` |
| path templates and their inverse, substitution; the names they declare | `PathTemplate`, `TemplateNames` |
| route selection, slash redirects, the trivial-route index | `Routes`, `Router` |
| `include_router` over trees of routers | `RouterTree` |
| compiling dependency graphs into plans | `DependencyPlan`, `AcyclicGraphs` |
| resolving plans; evaluation without a memo table; when the two agree; which callables are called, in what order and with which scopes | `Resolver`, `Memoisation`, `UseAgreement`, `MemoExactness`, `CallSequence`, `InvocationOrder`, `ScopeFlow`, `AcyclicApps` |
| generator dependencies and their teardown | `YieldDependencies` |
| taking parameters from the request, and where each value comes from | `Parameters`, `ExtractionLaws` |
| one request from extraction to teardown; what the handler is called with | `RequestLifecycle`, `RequestGuarantees`, `HandlerCall` |
| WebSocket handler, reader and writer; all their interleavings | `WebSocketBridge`, `WebSocketProtocol` |
| the OpenAPI document, its references, and what each operation says of its route | `OpenApi`, `OpenApiClosure`, `OpenApiLaws` |
| shared data types and sequence lemmas | `Wrappers`, `ByteStrings`, `Sequences` |

Python callables, Pydantic, casts, validators and the JSON parser for request
bodies are arbitrary functions (`World`, `Library`).  Exceptions are identities,
all derived from `Exception`.  A suspended generator carries what it will do when
it is resumed normally and when an exception is thrown into it.  A request is
handled on its own, as in the ASGI path.

## Where the code falls short of its own description

The model follows the code.  In these places the natural statement is false of
it; each has a counterexample or an exact condition.

- **Memo key.** Resolved values are remembered by callable only, after overrides.
  Two uses of one dependency with different security scopes share a value:
  `ScopesLeak`.  Two dependencies overridden to one callable lend it different
  plans and share a value: `OverridesCollide`.  With every entry cached and no
  callable below itself, resolution equals evaluation without a memo table for
  all behaviours of the callables iff any two uses of one callable fill the same
  parameters from the same request values, scopes and callables:
  `MemoisationIsTransparentIff`, and `RequestsMemoiseSafelyIff` for whole requests
  on any graph.  Without those two hypotheses the agreement is still enough,
  `AgreeingUsesAreTransparent`, but no longer needed: `UncachedMayRepair`,
  `NestedMayDiffer`.
- **Teardown.** A synchronous generator that raises after its yield ends a drain.
  The dispatcher discards the error and one more drain follows, so a third such
  generator is never resumed.  `TeardownCompleteIff` and `WholeRequestTeardown`
  give the exact condition: not counting the first generator opened, at most one
  such generator after a handler that returned, and none when the request
  stopped before the handler.  After a handler that raised, the teardown is
  always complete.  `ThirdIsNotResumed` is a request whose teardown is not.  The
  comment at `python/hyperfastapi/applications.py:467-468`
  says that leftovers are closed by throwing; the code resumes them normally.
- **Trivial-route index.** Of two registrations of one key the index serves the
  last and the scan the first, `DuplicateKeysDiffer`; and it serves a route at a
  built-in URL, which the dispatcher answers itself: `BuiltInIsOverruled`.
  `HitAgreesIff` says exactly when index and dispatcher choose the same route,
  and a hit is never a 404, 405 or redirect.
- **State reset.** The native entry skips the reset of the per-request state for
  routes that look trivial.  `TrivialTakesFastPathIff` says exactly when such a
  request then takes the shortcut that needs no state; with a default response
  class it never does: `DefaultClassNeedsState`.
- **Empty alias.** The extractor for sub-dependencies takes an empty alias for
  none, the one for handlers looks it up: `EmptyAliasDiffers`.
- **Redirects.** The target of a slash redirect is empty exactly for a path of
  slashes only (other than `/`), and a path that starts with two slashes keeps
  them: `RedirectTarget`, `RedirectToNothing`.
- **Path templates.** The matcher ignores what follows a `{name:path}` segment,
  and treats a placeholder inside a longer segment as plain text, while the plan
  compiler takes both for parameters: `CatchAllHidesRest`,
  `PartialPlaceholderDiffers`.  `NamesAgreeIff` says that these are the only ways
  for the two to differ.
- **Multipart.** A file name is lost when the field name ends in `filename=`:
  `PartRoundTripIff`.  A file whose `filename` parameter comes before its `name` is
  filed under the file name: `FilenameFirstTakesName`.  A part with bare line feeds
  comes back iff its content does not end with a carriage return and holds no
  CRLF CRLF: `LfRoundTripIff`.
- **WebSocket.** A handler that ends without closing leaves a Close(1000) in the
  channel exactly when the receiving end is still there: `EndQueuesClose`.  After a
  disconnect nothing is queued and the writer waits: `DisconnectLeavesWriter`.
  A close code outside sixteen bits sets the flag and queues nothing either:
  `BadCodeLeavesWriter`.  Once the connection is closed the writer can end without
  a failed write iff a Close was queued: `WriterEndsIff`.
- **OpenAPI.** Models of one name are documented as one: across routes as the
  first, `SameNameCollides`; in one route as the body's rather than the response's,
  `BodyWinsOverResponse`, and as the last of several body parameters',
  `LastBodyWins`; and a model named `HTTPValidationError` takes the place of the
  validation error, `ValidationErrorTaken`.  `NamesAreOwnIff` says that every model
  is documented as exported exactly when no two bring different schemas under one
  name.

## Model

| member | source | states |
|---|---|---|
| `JsonPrinter.WriteStr` | crates/fr-pyiface/src/json_fast.rs:145-181 | the loop that copies plain runs as slices appends exactly the byte-by-byte escape map of the string, between quotation marks |
| `JsonPrinter.WriteControl` | crates/fr-pyiface/src/json_fast.rs:166-173 | appends the six-character escape of a control byte |
| `JsonPrinter.WriteValue` | crates/fr-pyiface/src/json_fast.rs:31-126 | succeeds iff the value has an encoding and then appends it to what the buffer held |
| `JsonPrinter.WriteKey` | crates/fr-pyiface/src/json_fast.rs:77-91 | a key of each accepted type is coerced to text and written as a string; others fail |
| `JsonPrinter.WriteEntries` | crates/fr-pyiface/src/json_fast.rs:67-97 | the dictionary loop writes all entries in order with commas between, or fails iff one of them does |
| `JsonPrinter.WriteItems` | crates/fr-pyiface/src/json_fast.rs:98-123 | the same for lists and tuples |
| `JsonPrinter.Encode` | crates/fr-pyiface/src/json_fast.rs:25-29 | the bytes of the value, or an error without any |
| `JsonPrinter.EscapedRun` | crates/fr-pyiface/src/json_fast.rs:149-175 | escaping a plain run and one more byte is copying the run and escaping the byte |
| `JsonRoundTrip.ReadEscapedByte` | crates/fr-pyiface/src/json_fast.rs:150-174 | an RFC 8259 reader takes every escape as exactly the byte it stands for, whatever follows |
| `JsonRoundTrip.StringRoundTrip` | crates/fr-pyiface/src/json_fast.rs:145-181 | unescaping the printed string gives back every byte string and leaves the rest untouched |
| `JsonRoundTrip.EscapedIsStringBody` | crates/fr-pyiface/src/json_fast.rs:142-181 | between the quotation marks there is no raw control byte and no unescaped quotation mark |
| `JsonRoundTrip.DecimalRoundTrip` | crates/fr-pyiface/src/json_fast.rs:43-56 | the decimal text of every unbounded integer is a JSON number that reads back as that integer |
| `JsonRoundTrip.ValueRoundTrip` | crates/fr-pyiface/src/json_fast.rs:31-126 | reading the encoding followed by any text that does not extend a number gives back the value and that text |
| `JsonRoundTrip.ItemsRoundTrip` | crates/fr-pyiface/src/json_fast.rs:98-123 | the same for the items of an array up to its closing bracket |
| `JsonRoundTrip.EntryRoundTrip` | crates/fr-pyiface/src/json_fast.rs:75-93 | an object member reads back as its coerced key and its value |
| `JsonRoundTrip.EntriesRoundTrip` | crates/fr-pyiface/src/json_fast.rs:67-97 | the same for the members of an object, in order |
| `JsonRoundTrip.EncodeRoundTrip` | crates/fr-pyiface/src/json_fast.rs:25-29 | the whole text is one JSON text for the value |
| `JsonRoundTrip.EncodeInjective` | crates/fr-pyiface/src/json_fast.rs:22-29 | values with the same text denote the same JSON value |
| `JsonRoundTrip.FromToJson` | crates/fr-pyiface/src/json_fast.rs:31-126 | values without tuples, floats and coerced keys can be recovered from the JSON value |
| `JsonRoundTrip.EncodeInjectiveCanonical` | crates/fr-pyiface/src/json_fast.rs:22-29 | on those values the printer is injective outright |
| `JsonRoundTrip.EncodeFailsIff` | crates/fr-pyiface/src/json_fast.rs:22-25 | encoding fails iff some subtree or key has an unsupported type, holds a lone surrogate, or is an integer `str` refuses to print |
| `JsonLaws.ValueIsLong` | crates/fr-pyiface/src/json_fast.rs:31-126 | whatever JSON text is read, it is at least as long as the least text of the value read |
| `JsonLaws.PrintedIsShortest` | crates/fr-pyiface/src/json_fast.rs:25-181 | no JSON text for the same value is shorter than the printed one, so there is no white space and nothing is escaped that need not be |
| `JsonLaws.EscapesAreLower` | crates/fr-pyiface/src/json_fast.rs:140-174 | the hexadecimal digits of escapes are in lower case |
| `JsonLaws.PlainHasSameText` | crates/fr-pyiface/src/json_fast.rs:58-123 | a value has the text of its plain form: lists for tuples, null for NaN and the infinities, string keys that read as the text of their own value |
| `Multipart.ParseHeaders` | python/hyperfastapi/_routing.py:650-654 | the header loop: names lowered and stripped, later lines of a name winning |
| `Multipart.DropBreaks` | python/hyperfastapi/_routing.py:629-638 | at most one line break is removed at each end |
| `Multipart.ParseBodyPart` | python/hyperfastapi/_routing.py:628-678 | one pass of the loop: the field of a part, or nothing for a part that is skipped |
| `Multipart.ParseMultipart` | python/hyperfastapi/_routing.py:611-680 | the form is the grouping of the parsed parts between preamble and epilogue |
| `MultipartLaws.BoundaryTextIs` | python/hyperfastapi/_routing.py:618-621 | the boundary is the first possible match of its expression, up to the end of the line, and there is none only if nothing can match |
| `MultipartLaws.QuotedAfterIs` | python/hyperfastapi/_routing.py:657-664 | a quoted parameter is the first possible match of its expression, although only the first prefix is looked at |
| `MultipartLaws.NoSectionsIff` | python/hyperfastapi/_routing.py:639-646 | a part is skipped iff it holds no blank line of either kind |
| `MultipartLaws.NoFieldIff` | python/hyperfastapi/_routing.py:656-659 | or its disposition no name |
| `MultipartLaws.StripTrims` | python/hyperfastapi/_routing.py:621-654 | exactly the white space of Latin-1 text around a text is removed |
| `MultipartLaws.HeaderIs` | python/hyperfastapi/_routing.py:650-654 | the last line of a name gives the header, whatever the case of the name and the white space around name and value |
| `MultipartRoundTrip.NameIsRead` | python/hyperfastapi/_routing.py:656-660 | the field name of a printed part is found, whatever the file name after it |
| `MultipartRoundTrip.FilenameIsRead` | python/hyperfastapi/_routing.py:662-664 | the file name is found, or none if there is none; if the name ends in `filename=` the text between the two is taken instead |
| `MultipartRoundTrip.HeadersOfBlock` | python/hyperfastapi/_routing.py:647-656 | the printed disposition and content type come back from the header block |
| `MultipartRoundTrip.SectionsOfPart` | python/hyperfastapi/_routing.py:639-648 | the blank line found is the one that ends the headers, even if the content holds others |
| `MultipartRoundTrip.PartRoundTripIff` | python/hyperfastapi/_routing.py:628-678 | every well-formed part keeps its name and exact content, and its file name iff the name does not end in `filename=` (or the text taken by mistake is the same) |
| `MultipartRoundTrip.PartRoundTrip` | python/hyperfastapi/_routing.py:628-678 | without such a name the whole part comes back |
| `MultipartLaws.LfRoundTripIff` | python/hyperfastapi/_routing.py:629-654 | a part with bare line feeds comes back iff its content does not end with a carriage return and holds no blank line of carriage returns |
| `MultipartLaws.FilenameFirstTakesName` | python/hyperfastapi/_routing.py:656-672 | a file whose name parameter follows its file name is filed under the file name |
| `MultipartRoundTrip.SplitBody` | python/hyperfastapi/_routing.py:624-628 | splitting a printed body at the delimiter gives preamble, parts and epilogue |
| `MultipartRoundTrip.GroupedFields` | python/hyperfastapi/_routing.py:672-680 | the form holds under each name exactly the fields of that name, in order |
| `MultipartRoundTrip.BodyRoundTrip` | python/hyperfastapi/_routing.py:611-680 | for every list of parts, parsing the printed body gives every name with all its fields in order: file names, types and exact contents |
| `MultipartRoundTrip.QuotedBoundaryIsRead` | python/hyperfastapi/_routing.py:618-624 | a boundary between quotation marks is found in the content type as it is |
| `MultipartRoundTrip.BareBoundaryIsRead` | python/hyperfastapi/_routing.py:618-624 | so is a bare one without white space around it |
| `PathTemplate.MatchPathTemplate` | crates/fr-pyiface/src/app.rs:2718-2780 | the two-index loop computes the recursive match on every template and path |
| `PathTemplate.FastPathAgrees` | crates/fr-pyiface/src/app.rs:2719-2726 | byte equality on templates without placeholders answers as the segment loop would |
| `PathTemplate.MatchIffFills` | crates/fr-pyiface/src/app.rs:2714-2780 | a match returns given captures iff substituting them into the template gives the path and single-segment captures hold no slash |
| `PathTemplate.FillsUnique` | crates/fr-pyiface/src/app.rs:2728-2779 | a path determines its captures |
| `TemplateNames.NamesAgreeIff` | python/hyperfastapi/_routing.py:683-684 | on templates of brace-free text mixed with placeholders, the names the compiler extracts are those the matcher binds, in order, iff every placeholder is a whole segment and none follows a catch-all |
| `TemplateNames.PlaceholderIff` | python/hyperfastapi/_routing.py:38 | at the start of a text the expression matches exactly {name} and {name:type} with neither part empty |
| `TemplateNames.CapturedNamesIff` | python/hyperfastapi/_routing.py:978 | so are the names of the captures of any matching path |
| `TemplateNames.CapturedNames` | python/hyperfastapi/_routing.py:683-684 | on such well-formed templates the names agree whatever text the literal segments hold |
| `TemplateNames.PartialPlaceholderDiffers` | crates/fr-pyiface/src/app.rs:2739-2768 | a placeholder after other text in its segment is a name to the compiler and plain text to the matcher |
| `TemplateNames.CatchAllHidesRest` | crates/fr-pyiface/src/app.rs:2747-2757 | a placeholder after a catch-all is a name to the compiler and nothing to the matcher, for every path |
| `Router.SelectRoute` | crates/fr-pyiface/src/app.rs:1287-1456 | the loops over the live table compute the outcome function: built-in page, route, redirect, 405 or 404 |
| `Router.BuiltInIff` | crates/fr-pyiface/src/app.rs:1289-1342 | a GET or HEAD of one of the three configured URLs, and nothing else, is answered by a built-in page; for the rest these URLs do not matter |
| `Router.Classification` | crates/fr-pyiface/src/app.rs:1344-1456 | each request has exactly one outcome: the least index with its method, else for HEAD the least GET, else 307, else 405 iff some route matches the path, else 404 |
| `Router.RedirectsDoNotChain` | crates/fr-pyiface/src/app.rs:1419-1440 | the target of a redirect, requested with the same method, reaches a route of that method or a built-in page |
| `Router.RedirectTarget` | crates/fr-pyiface/src/app.rs:1422-1427 | the target differs from the path by trailing slashes only, is empty iff the path is all slashes, and otherwise starts with two slashes iff the path does |
| `Router.RedirectToNothing` | crates/fr-pyiface/src/app.rs:1422-1439 | a table that answers with the empty target |
| `Router.SnapshotTrivialRoutes` | crates/fr-pyiface/src/server.rs:381-438 | the map is the insertion of the eligible routes in table order, and empty with app-level dependencies |
| `Router.InsertedIff` | crates/fr-pyiface/src/server.rs:397-437 | a key is present iff some eligible route registers it, and the last such route supplies the entry |
| `Router.IndexHas` | crates/fr-pyiface/src/server.rs:381-410 | the index answers for exactly the methods and paths of literal routes without parameters, dependencies, response model and response class, HEAD standing in for GET, and for nothing in an app with dependencies |
| `Router.IndexEntryIs` | crates/fr-pyiface/src/server.rs:411-437 | with the handler of the last such route, its status in sixteen bits or 200, and its flags |
| `Router.HitIsMatched` | crates/fr-pyiface/src/server.rs:367-375 | for every table, what the index answers the dispatcher answers with a route or a built-in page |
| `Router.HitAgreesIff` | crates/fr-pyiface/src/server.rs:608-613 | index and dispatcher choose the same route iff the URL is not built in, no earlier route of its method matches the path and, for HEAD served by GET, no HEAD route does |
| `Router.IndexRefinesDispatch` | crates/fr-pyiface/src/server.rs:378-438 | on tables without shadowed literal routes every hit has the handler, kind and status code of the route that the dispatcher chooses, except at built-in URLs |
| `Router.DuplicateKeysDiffer` | crates/fr-pyiface/src/server.rs:412-420 | of two registrations of one key the index serves the second and the dispatcher the first |
| `Router.BuiltInIsOverruled` | crates/fr-pyiface/src/app.rs:1289-1342 | at a built-in URL the index serves a route that the dispatcher never reaches |
| `Router.IsTrivialRoute` | crates/fr-pyiface/src/app.rs:1978-2001 | true iff there are no app-level dependencies and the first route with this very method and path text takes the fast path |
| `Router.TrivialRouteIsSelectedIff` | crates/fr-pyiface/src/app.rs:1984-1998 | that route is the one dispatched to iff the URL is not built in and no earlier route of the method matches the path |
| `Router.TrivialTakesFastPathIff` | crates/fr-pyiface/src/app.rs:1266-1276 | a request found trivial takes the shortcut of the dispatcher iff there is no default response class, the URL is not built in, and the first route that serves it is a fast one without placeholders |
| `Router.DefaultClassNeedsState` | crates/fr-pyiface/src/app.rs:1389-1400 | with a default response class a fast literal route is found trivial and takes no shortcut |
| `RouterTree.PushTags` | crates/fr-pyiface/src/app.rs:1095-1105 | tags already present are not added again |
| `RouterTree.APIRouter.IncludeRouter` | crates/fr-pyiface/src/app.rs:1056-1155 | the child's routes are appended in order, each with joined path, merged tags and dependencies, visibility and response class |
| `RouterTree.Build` | crates/fr-pyiface/src/app.rs:2390-2463 | including a tree bottom-up leaves the flattening of the tree in the root's table |
| `RouterTree.MergeTagsAdds` | crates/fr-pyiface/src/app.rs:2415-2425 | merging adds exactly the missing tags, each once, after the route's own |
| `RouterTree.AdoptedDescribes` | crates/fr-pyiface/src/app.rs:1087-1153 | one more include extends the description of a route by one level |
| `RouterTree.FlattenDescribesLeaves` | crates/fr-pyiface/src/app.rs:1056-1155 | for a tree of any depth the table lists the leaves in order; path, dependencies, tags, visibility and response class follow from the chain of includes, and nothing else changes |
| `DependencyPlan.PlanCompiler.CompileRoutePlan` | python/hyperfastapi/_routing.py:1166-1190 | terminates on every graph, computes the guarded unfolding and leaves the guard set as it was |
| `DependencyPlan.CompiledMirrors` | python/hyperfastapi/_routing.py:1166-1190 | on every graph there is one entry for each parameter, in order, with its name, callable, cache flag and scopes; a sub-plan has one for each parameter of the callable's signature, or is empty below a scheme or a callable under expansion |
| `DependencyPlan.NoRepeatOnPaths` | python/hyperfastapi/_routing.py:973-977 | no expanded callable repeats on a root-to-leaf path, so paths are no longer than the callables plus one |
| `AcyclicGraphs.AcyclicIffRanked` | python/hyperfastapi/_routing.py:973-974 | no walk along expanded dependencies comes back to its start iff some rank falls along all of them |
| `AcyclicGraphs.FindRank` | python/hyperfastapi/_routing.py:1178-1190 | an acyclic graph has a rank, with a bound for the dependencies of any handler |
| `DependencyPlan.AcyclicIsUnfolded` | python/hyperfastapi/_routing.py:1178-1190 | on an acyclic graph the plan is the full unfolding, nothing cut |
| `DependencyPlan.ExpandRouteLevelDependencies` | python/hyperfastapi/_routing.py:308-359 | one internal entry for each marker that has a callable, in order, with the marker's callable, cache flag and scopes, and the callable's own plan |
| `DependencyPlan.PlansAgreeIfAcyclic` | python/hyperfastapi/_routing.py:328-331 | on an acyclic graph a dependency has the same plan at route level and below any handler |
| `YieldDependencies.BgState.Reset` | python/hyperfastapi/_bg.py:28-36 | a request starts with an empty stack and no background tasks |
| `YieldDependencies.BgState.CallWithAsyncHandling` | python/hyperfastapi/_routing.py:99-178 | the value of the call; a generator is pushed once it has reached its yield, and only then |
| `YieldDependencies.BgState.DrainYieldDeps` | python/hyperfastapi/_routing.py:181-254 | with an exception every generator gets it and the stack is emptied; without one, exactly the top of the stack through the first raising synchronous generator is resumed and closed, the rest stays in order, and the error raised is that one or the last asynchronous one |
| `YieldDependencies.DrainStopsAt` | python/hyperfastapi/_routing.py:203-222 | the last opened synchronous generator that raises ends the drain with its error and leaves what was opened before it |
| `YieldDependencies.DrainRunsThrough` | python/hyperfastapi/_routing.py:203-254 | without one everything is resumed, and the error is that of the first opened asynchronous generator that raises, if any does |
| `YieldDependencies.TeardownAt` | python/hyperfastapi/_routing.py:200-250 | the k-th generator from the top is the k-th to be resumed, and is closed at once |
| `YieldDependencies.TeardownSplit` | python/hyperfastapi/_routing.py:200-202 | popping one generator advances the last-in first-out teardown by one |
| `Resolver.DependencyResolver.Dependency` | python/hyperfastapi/_routing.py:471-515 | override, memo table, security scheme or sub-plan, call: the value or first error, and the whole new state |
| `Resolver.DependencyResolver.SubDependencies` | python/hyperfastapi/_routing.py:491-508 | the loop over a sub-plan, with the scopes passed down |
| `Resolver.DependencyResolver.Resolve` | python/hyperfastapi/_routing.py:517-540 | the loop over the handler's plan; internal entries run without binding a value |
| `Memoisation.DepUnchanged` | python/hyperfastapi/_routing.py:471-515 | under consistent occurrences a dependency resolves to what plain evaluation gives, and the memo table stays right |
| `Memoisation.MemoisationIsTransparent` | python/hyperfastapi/_routing.py:362-540 | resolution gives the keyword arguments or the first error of evaluation without a memo table, for any mix of `use_cache` flags |
| `Memoisation.ScopesLeak` | python/hyperfastapi/_routing.py:476-496 | with the same callable under two scopes the second use gets the value made for the first |
| `UseAgreement.Collected` | python/hyperfastapi/_routing.py:492-508 | an evaluated sub-plan has under each parameter's name what its entry gives, and nothing else |
| `UseAgreement.SameValue` | python/hyperfastapi/_routing.py:491-515 | where the uses of each callable bind alike, every use evaluates to the value of any other that evaluates |
| `UseAgreement.AgreeingUsesAreTransparent` | python/hyperfastapi/_routing.py:362-540 | then resolution equals evaluation without a memo table, for any mix of `use_cache` flags and any nesting |
| `MemoExactness.EvalRefused` | python/hyperfastapi/_routing.py:491-512 | evaluation without a memo table meets the refusal of the bindings of any use |
| `MemoExactness.TwoRuns` | python/hyperfastapi/_routing.py:471-515 | of two worlds in which one callable refuses different bindings, the resolver fails in one at most |
| `MemoExactness.MemoisationIsTransparentIff` | python/hyperfastapi/_routing.py:362-540 | with every entry cached and no callable below itself, resolution equals evaluation in every world iff any two uses of one callable have the same security flag and the same bindings |
| `MemoExactness.SamePlansDoNotNestInPlan` | python/hyperfastapi/_routing.py:471-510 | where the callable determines its sub-plan, no callable is below itself |
| `MemoExactness.UncachedMayRepair` | python/hyperfastapi/_routing.py:477-479 | with an uncached entry the bindings may differ although no world tells |
| `MemoExactness.NestedMayDiffer` | python/hyperfastapi/_routing.py:473-514 | so may those of a callable below itself, which is called each time |
| `MemoExactness.HarmlessCollision` | python/hyperfastapi/_routing.py:473-508 | two callables with different plans overridden to one do no harm if the plans bind the same |
| `InvocationOrder.NotBelowItself` | python/hyperfastapi/_routing.py:471-510 | where the callable determines its sub-plan, no callable is below itself |
| `InvocationOrder.DepOrder` | python/hyperfastapi/_routing.py:471-515 | resolving one entry extends the call log by its new post-order, or by a prefix of it on an error |
| `InvocationOrder.InvocationsArePostOrder` | python/hyperfastapi/_routing.py:362-540 | with every entry cached, a successful resolution calls exactly the post-order of the forest with repeats removed, each callable once and after everything below it; a failed one a prefix of it |
| `CallSequence.PlanCalls` | python/hyperfastapi/_routing.py:471-540 | for every plan and any mix of `use_cache` flags, a successful resolution makes exactly the calls that flags and remembered callables leave to make, in order, and remembers exactly the callables it should; a failed one makes some first ones of them |
| `CallSequence.UncachedCallsRepeat` | python/hyperfastapi/_routing.py:477-515 | with `use_cache=False` throughout every occurrence is called anew, in post-order |
| `ScopeFlow.UsesArePaths` | python/hyperfastapi/_routing.py:491-499 | the uses of a plan are exactly the ends of its paths with no scheme on the way, each with the last scopes that are named along the path |
| `ScopeFlow.UseIsCalled` | python/hyperfastapi/_routing.py:471-515 | a use calls its callable, overridden or not, with each parameter of its sub-plan and nothing else |
| `ScopeFlow.ScopesReach` | python/hyperfastapi/_routing.py:491-508 | where uses agree, a successful resolution has called the callable at the end of every path with its parameters filled, a parameter for the scopes with the last ones named along the path |
| `ScopeFlow.MarkerScopesReach` | python/hyperfastapi/_routing.py:308-359 | the callable of a route-level marker is given the marker's scopes |
| `AcyclicApps.RouteLevelCompiles` | python/hyperfastapi/_routing.py:318-358 | route-level entries are compiled as entries of a handler are |
| `AcyclicApps.PlansAreSameIff` | python/hyperfastapi/_routing.py:472-493 | in a plan from an acyclic graph the callable after overrides determines its sub-plan iff any two callables overridden to one have the same plan, so whenever overrides are injective on the callables in play |
| `AcyclicApps.OverridesCollide` | python/hyperfastapi/_routing.py:472-493 | with two dependencies of different plans overridden to one callable the second use gets the first one's value |
| `AcyclicApps.ScopesAreSame` | python/hyperfastapi/_routing.py:494-496 | where no dependency asks for the scopes, all uses agree on them |
| `AcyclicApps.AcyclicAppsMemoiseSafely` | crates/fr-pyiface/src/app.rs:1732-1797 | where no dependency reads the scopes and the overrides fit, every request of an acyclic application resolves as without a memo table, whatever route-level dependencies come first, and in post-order |
| `AcyclicApps.FittingDoNotNest` | python/hyperfastapi/_routing.py:472-493 | on an acyclic graph fitting overrides put no callable below itself |
| `AcyclicApps.RequestsMemoiseSafelyIff` | crates/fr-pyiface/src/app.rs:1732-1797 | on every graph, cyclic or not, requests with every entry cached and no callable below itself resolve as without a memo table for all behaviours of the callables iff the uses of each callable agree |
| `Parameters.ExtractorsAgree` | python/hyperfastapi/_routing.py:391-469 | wherever the two casts agree on the raw values and the alias is not empty, the extractor for sub-dependencies agrees with the one for handlers on keys, defaults, lists and errors; a value that a validator rejects gets through |
| `Parameters.EmptyAliasDiffers` | python/hyperfastapi/_routing.py:408-410 | with an empty alias a handler is refused the value that a sub-dependency is given |
| `RequestGuarantees.SharedParameter` | python/hyperfastapi/_routing.py:503-508 | a sub-dependency and the handler that ask for one parameter are then given the same value or the same error |
| `Parameters.ExtractParams` | crates/fr-pyiface/src/app.rs:1637-1662 | binds each parameter that has a value and reports one error for each failing one, in plan order |
| `ExtractionLaws.ExtractedFromRequest` | crates/fr-pyiface/src/app.rs:3317-3576 | a path parameter is looked up by name, a header by alias or dashed name in lower case, query and cookies by alias or name; the first value, or for a list all values in order, is cast and validated, and nothing at all is an error or the default |
| `ExtractionLaws.UploadsAre` | crates/fr-pyiface/src/app.rs:3317-3500 | an upload is the first form item of the key, a list of uploads all of them, and bytes the content of the first |
| `ExtractionLaws.ExtractedFromForm` | crates/fr-pyiface/src/app.rs:3317-3500 | other form parameters are converted from the text items of the key, in order; a type that no form can give counts as absent |
| `ExtractionLaws.ErrorsAreListed` | crates/fr-pyiface/src/app.rs:1637-1662 | the errors are those of the failing parameters, one each, in plan order |
| `Parameters.ReadEntries` | crates/fr-pyiface/src/app.rs:3185-3264 | binds and reports body parameters in plan order |
| `Parameters.ExtractBodyParams` | crates/fr-pyiface/src/app.rs:2996-3266 | the body's values and errors in every layout: empty, single, envelope, not JSON, not an object |
| `ExtractionLaws.SingleBodyIs` | crates/fr-pyiface/src/app.rs:2996-3183 | the one body parameter that is not embedded is the whole body, validated or parsed |
| `ExtractionLaws.EnvelopeModes` | crates/fr-pyiface/src/app.rs:3185-3264 | several, or an embedded one, are the members of their names, each missing one an error if it is required |
| `ExtractionLaws.EnvelopeErrorsAre` | crates/fr-pyiface/src/app.rs:2996-3264 | their errors are listed in plan order after that of a wrong content type; a body that is not JSON is one error |
| `RequestLifecycle.RunBody` | crates/fr-pyiface/src/app.rs:1637-1852 | validation errors stop before resolution, a failed resolution before the handler; otherwise the handler is called once with what was taken and resolved |
| `RequestLifecycle.Dispatch` | crates/fr-pyiface/src/app.rs:1849-1862 | the drain after the handler, with its exception iff it raised, and the answer whatever the drain reports |
| `RequestLifecycle.DispatchAsync` | python/hyperfastapi/applications.py:451-479 | the answer, the exact trace of generators over both drains, and a clean state afterwards |
| `RequestGuarantees.DrainCovers` | python/hyperfastapi/_routing.py:201-222 | what a drain resumes and what it leaves make up the stack; it leaves something iff a generator other than the first opened stops it |
| `RequestGuarantees.TeardownCompleteIff` | python/hyperfastapi/applications.py:466-475 | both drains together resume a prefix of the full teardown, and all of it iff few enough generators raise |
| `RequestGuarantees.BodyTracked` | python/hyperfastapi/_routing.py:128-130 | generators are on the stack in the order they were opened, all of them |
| `RequestGuarantees.WholeRequestTeardown` | python/hyperfastapi/applications.py:451-479 | on every exit, generators are resumed only after resolution or handler ended, at most once, in reverse order of opening, with the handler's exception iff it raised; and all of them iff few enough raise |
| `RequestGuarantees.ThirdIsNotResumed` | python/hyperfastapi/applications.py:466-475 | after a successful handler, of three raising synchronous generators the first opened is never resumed |
| `RequestGuarantees.ResolvedKeys` | python/hyperfastapi/_routing.py:517-540 | a successful resolution binds exactly the names of the entries that supply a value |
| `RequestGuarantees.TakenAreBound` | crates/fr-pyiface/src/app.rs:1637-1730 | without errors every required parameter is bound, and nothing but parameters |
| `RequestGuarantees.HandlerCallIsComplete` | crates/fr-pyiface/src/app.rs:1719-1852 | what was taken and what was resolved make up every required parameter and dependency, and nothing else |
| `HandlerCall.ArgumentsOf` | crates/fr-pyiface/src/app.rs:1637-1834 | in what they make up, each parameter has the value extracted for it and each dependency the value resolved for it |
| `HandlerCall.HandlerIsCalledWith` | crates/fr-pyiface/src/app.rs:1719-1862 | whenever a handler ran it was called once, last, and with exactly these arguments, complete; and the request ended with what it returned or raised |
| `HandlerCall.DependencyArgumentIs` | python/hyperfastapi/_routing.py:517-540 | where uses agree, the argument of each dependency is what evaluating its entry gives |
| `HandlerCall.ErrorsAreAnswered` | crates/fr-pyiface/src/app.rs:1719-1730 | a request with errors is answered with all of them, in order, with nothing resolved or called |
| `HandlerCall.HandledEnds` | crates/fr-pyiface/src/app.rs:1732-1862 | a refused resolution is answered with its detail, a raising one raises, and otherwise the handler's call decides |
| `HandlerCall.RequestCalls` | crates/fr-pyiface/src/app.rs:1732-1862 | a request calls its route-level dependencies, then those of the handler, each as flags and memo table leave it to be called, then the handler; one that does not get there some first ones of them |
| `HandlerCall.TasksAreMadeIff` | python/hyperfastapi/_routing.py:517-540 | a background tasks object is made iff the handler asks for one |
| `WebSocketBridge.WsSendHandle.Queue` | crates/fr-pyiface/src/ws.rs:169-189 | queues at the end while the writer lives, and fails without effect afterwards |
| `WebSocketBridge.NativeWebSocket.SendText` | python/hyperfastapi/_ws.py:59-62 | queues one text frame unless closed |
| `WebSocketBridge.NativeWebSocket.SendBytes` | python/hyperfastapi/_ws.py:64-67 | the same for binary frames |
| `WebSocketBridge.NativeWebSocket.TakeNext` | python/hyperfastapi/_ws.py:76-81 | takes the oldest frame; a disconnect closes and raises |
| `WebSocketBridge.NativeWebSocket.ReceiveText` | python/hyperfastapi/_ws.py:83-87 | takes one frame in any case and returns it iff it is text |
| `WebSocketBridge.NativeWebSocket.ReceiveBytes` | python/hyperfastapi/_ws.py:89-93 | the same for binary frames |
| `WebSocketBridge.NativeWebSocket.CloseWith` | python/hyperfastapi/_ws.py:103-110 | closes once; the flag stays set even when no Close can be queued |
| `WebSocketBridge.ReadLoop` | crates/fr-pyiface/src/ws.rs:226-247 | pushes a text frame for each text message and a bytes frame for each binary one before the first Close, in order, a disconnect for the Close, and one at the end |
| `WebSocketBridge.WriteLoop` | crates/fr-pyiface/src/ws.rs:250-272 | forwards a prefix of the channel, ending at a Close, a failed write or the end of the channel |
| `WebSocketProtocol.RunKeepsInvariant` | crates/fr-pyiface/src/ws.rs:191-275 | the invariant of queues, flags and tasks holds after every interleaving of reader, worker loop, handler and writer |
| `WebSocketProtocol.LineIsExact` | crates/fr-pyiface/src/ws.rs:226-247 | after every interleaving the frames delivered, queued and scheduled are one for each text or binary message before the first Close, of its kind and with its content, in order, and then disconnects |
| `WebSocketProtocol.InboundSafety` | python/hyperfastapi/_ws.py:76-101 | the handler gets text frames for text messages and bytes frames for binary ones, in order and once each, and a disconnect only after all of them and with the reader stopped |
| `WebSocketProtocol.OutboundSafety` | crates/fr-pyiface/src/ws.rs:250-272 | the channel holds data frames and then at most one Close, and the socket carries a prefix of it |
| `WebSocketProtocol.OutboundIsExact` | crates/fr-pyiface/src/ws.rs:169-272 | after every interleaving the channel was given exactly the accepted sends and the first close, and the socket exactly the frames that the writer wrote, in order |
| `WebSocketProtocol.NothingQueuedOnceClosed` | python/hyperfastapi/_ws.py:59-67 | once closed, no continuation queues anything or opens the connection again |
| `WebSocketProtocol.EndQueuesClose` | python/hyperfastapi/_ws.py:147-160 | a handler that ends having neither closed nor seen a disconnect leaves exactly one Close(1000), iff the receiving end of the channel was still there |
| `WebSocketProtocol.DisconnectLeavesWriter` | python/hyperfastapi/_ws.py:76-81 | wherever a disconnect, and neither handler nor its end, closed the connection, no Close is queued and the writer's loop waits |
| `WebSocketProtocol.DisconnectHappens` | crates/fr-pyiface/src/ws.rs:235-238 | there are such runs |
| `WebSocketProtocol.BadCodeLeavesWriter` | python/hyperfastapi/_ws.py:103-110 | a close code outside sixteen bits closes the connection, queues nothing and leaves the writer waiting |
| `WebSocketProtocol.WriterOutlivesDisconnect` | python/hyperfastapi/_ws.py:103-106 | no continuation without a failed write ends a waiting writer |
| `WebSocketProtocol.FinishWriting` | crates/fr-pyiface/src/ws.rs:250-272 | with a Close in the channel the writer can write all of it and exit |
| `WebSocketProtocol.WriterEndsIff` | crates/fr-pyiface/src/ws.rs:250-272 | once the connection is closed, the writer can end without a failed write iff a Close was queued |
| `OpenApi.BuildRequestBody` | python/hyperfastapi/_openapi.py:271-337 | the request body and the components it needs |
| `OpenApi.BuildResponses` | python/hyperfastapi/_openapi.py:340-399 | success, declared and validation responses, and their components |
| `OpenApi.CollectSchemes` | python/hyperfastapi/_openapi.py:207-214 | the first model seen for a scheme name is kept |
| `OpenApi.BuildOpenApiSchema` | python/hyperfastapi/_openapi.py:128-229 | the loop over the routes computes the document |
| `OpenApiLaws.NoBodyIff` | python/hyperfastapi/_openapi.py:173-197 | an operation has a request body iff some parameter is taken from the body or a form |
| `OpenApiLaws.LoneBody` | python/hyperfastapi/_openapi.py:281-299 | a lone body parameter is a reference to its model's component, named by title or class, or a plain object |
| `OpenApiLaws.FormBodyIs` | python/hyperfastapi/_openapi.py:302-317 | form fields and files alone make a form with their names in order |
| `OpenApiLaws.InlineBodyIs` | python/hyperfastapi/_openapi.py:320-337 | any other body is an object with a property for exactly the body parameters, referring to the model of the last one of its name |
| `OpenApiLaws.ResponsesAre` | python/hyperfastapi/_openapi.py:340-399 | documented are the success status, the declared ones, and 422 iff it is one of these or some parameter can fail validation |
| `OpenApiLaws.ResponseIs` | python/hyperfastapi/_openapi.py:340-399 | each refers to the model of its last declaration; failing that, success to the response model unless the status forbids content, and 422 to the validation error |
| `OpenApiLaws.DeclaredSchemesAre` | python/hyperfastapi/_openapi.py:207-216 | a security scheme is declared iff some published route asks for it |
| `OpenApiLaws.DeclaredSchemeIs` | python/hyperfastapi/_openapi.py:207-213 | and with the model of the first entry that names it |
| `OpenApiLaws.OperationSecurity` | python/hyperfastapi/_openapi.py:207-216 | the operation asks for its route's schemes in order, all of them declared |
| `OpenApiClosure.WithRouteCloses` | python/hyperfastapi/_openapi.py:191-216 | adding a route keeps all references resolved, except to the validation schemas |
| `OpenApiClosure.ReferencesResolve` | python/hyperfastapi/_openapi.py:128-229 | for every list of routes, each `$ref` names a component and each required scheme is declared |
| `OpenApiClosure.LaterRoutesKeepComponents` | python/hyperfastapi/_openapi.py:196-213 | later routes never change a component or scheme that is there |
| `OpenApiClosure.FirstContributorWins` | python/hyperfastapi/_openapi.py:196-205 | a component is that of the first route that brings its name |
| `OpenApiClosure.ComponentSource` | python/hyperfastapi/_openapi.py:191-205 | every component is one that some published route's model brings under that name |
| `OpenApiClosure.ComponentsCover` | python/hyperfastapi/_openapi.py:191-205 | and every name that a published route's model brings is there |
| `OpenApiClosure.NamesAreOwnIff` | python/hyperfastapi/_openapi.py:191-221 | every model of a body parameter, response or declared extra, and the validation schemas, are documented as exported iff no two of them bring different schemas under one name |
| `OpenApiClosure.SameNameCollides` | python/hyperfastapi/_openapi.py:285-292 | the body of the second of two routes with models of one name refers to the first one's schema |
| `OpenApiClosure.BodyWinsOverResponse` | python/hyperfastapi/_openapi.py:191-205 | in one route a response of the same name refers to the body's schema |
| `OpenApiClosure.LastBodyWins` | python/hyperfastapi/_openapi.py:317-329 | of two body parameters with models of one name both refer to the last one's schema |
| `OpenApiClosure.ValidationErrorTaken` | python/hyperfastapi/_openapi.py:219-221 | a model named like the validation error takes its place in the 422 response |
| `OpenApiClosure.OperationsAreLast` | python/hyperfastapi/_openapi.py:157-216 | the document has an operation for exactly the published routes, the last one's for each path and method |

## Left out

- Network and library code: the hyper, TLS and QUIC servers, the WebSocket handshake and framing, Pydantic, Starlette responses and middleware.
- Signature inspection: the compiler starts from the callables' parameters with their sources already decided; the classification of parameters and the passes that mark embedded bodies and uploads are not modelled.
- JsonRoundTrip.ValueRoundTrip: floats are opaque tokens that are assumed to be JSON numbers; whether the float printer reads back to the same float is not modelled.
- JsonPrinter.Encode: strings are the bytes of their UTF-8 text and nothing is proved about UTF-8 itself; the interpreter's limit on the digits of `str(int)` is a parameter.
- MultipartRoundTrip.BodyRoundTrip: the printer ends lines with CRLF, as RFC 2046 does; bare LF is inverted part by part, `MultipartLaws.LfRoundTripIff`, and not for whole bodies.
- JsonLaws.PrintedIsShortest: floats whose text has neither fraction nor exponent are outside its hypothesis, as the float printer emits none.
- Multipart.ParseMultipart: the content type is Latin-1 text, and text fields stay bytes; their decoding as UTF-8 or Latin-1 is not modelled.
- Multipart.ParseBodyPart: the same; the model promises the exact bytes of a field and not the text made of them.
- Router.IndexRefinesDispatch: handlers and status codes are compared; response classes and the response details of the trivial path are not.
- TemplateNames.NamesAgreeIff: placeholders that span segments or have no name, and closing braces in literal text, are outside its hypothesis; what the expression matches at all is `TemplateNames.PlaceholderIff`.
- MemoExactness.MemoisationIsTransparentIff: parameters of one signature have different names, as in Python; for plans with uncached entries or callables below themselves only the sufficient condition is stated.
- RouterTree.APIRouter.IncludeRouter: a router included in itself is excluded, as the source takes both route locks; options that are copied unchanged are one opaque rest of the route.
- Parameters.ExtractorsAgree: holds for path, query, header and cookie parameters without an empty alias that are not lists in a path; form and file parameters of sub-dependencies are not modelled, and the two casts are abstract.
- YieldDependencies.BgState.CallWithAsyncHandling: an asynchronous callable is one call; the probe that runs a coroutine twice if it awaits, and the worker loop, are not modelled.
- YieldDependencies.BgState.DrainYieldDeps: exceptions derive from `Exception`; closing a generator never changes what was observed of it.
- RequestLifecycle.Dispatch: the shortcut for routes without parameters, and the building of the response, are one function that may raise.
- WebSocketProtocol.RunKeepsInvariant: events are over-approximated, so a handler task may still send after it ended; sending does nothing then. The channel never ends for the writer, because its sending half lives as long as the two tasks.
- WebSocketBridge.NativeWebSocket.TakeNext: called when a frame is there, since the source waits for one; JSON helpers and iterators on top of it are not modelled.
- OpenApi.BuildOpenApiSchema: parameter objects, descriptions and inline schemas are left out, since they hold no references.
- OpenApi.BuildRequestBody: so are the required flags, the content types and the inline schemas of form fields and untyped parameters.
- OpenApi.BuildResponses: so are descriptions and empty content.
- Isolation of the per-request record between threads under the native server: the code does not provide it.
- Security schemes' own extraction, documentation pages, lifespan, mounts and encoders: single-branch code that would add only easy members.
