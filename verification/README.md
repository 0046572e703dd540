# SCIM primitives: a verified model

This project models four parts of scimkit, a Go implementation of SCIM 2.0 (RFC 7643 and
RFC 7644), and proves what they promise.

- **The filter language** (section 3.4.2.2 of RFC 7644): the character scanner, the
  recursive-descent parser with its depth bound of 64, the printer with minimal parentheses, and
  the evaluator. `FilterScanner.Scanner` and `FilterParser.Parser` are the imperative scanner and
  parser, proved against the grammar functions of `FilterGrammar`; `FilterAbnf` and `FilterTokens`
  tie those to the grammar of the RFC, given apart from any parser, and `FilterRoundTrip` shows
  that printing and parsing undo each other. `FilterAnswers` and `FilterLaws` say what a filter
  means for the resources of a query and the elements of a list.
- **The resource and the PATCH engine** (sections 3.5.2.1 to 3.5.2.3 of RFC 7644). `Documents`
  gives a resource's deep value and what Get and Set do to it; `Resources` is the heap object
  with its containers and live complex values, edited in place, and its lists, arrays of maps that
  copies share. `PatchSpec` gives PATCH as a function on documents; `PatchEngine.Applier` is the
  engine that works through references on a shared copy, and clones a list and each element
  before it writes to them, proved against it. The guarantees (mutability, change reporting, primary
  handling, value filters, synthesis) are proved about the functions.
- **The store, the query engine and the handlers**. `Memstore.Store` keeps its maps, order,
  ranks and index in place; `Handlers` interleaves the compare-and-swap PATCH and the PUT with
  arbitrary requests of others; `Engine` and `Paging` cover list queries and the client's walk
  over their pages.
- **Messages and resources as JSON trees**: `PatchCodec` and `Codec`, with their round trips;
  `PatchWire` and `Bodies` say which trees decode, and to what.

How the parts fit: a specification function (`Lex`, `ParseOr`, `Set`, `ApplyOp`, `Step`,
`Listed`, …) says what an operation computes, the method of the same purpose is proved to compute
exactly that, and the lemmas prove what the source promises about the function.

Conditions used throughout. `Regular(rt)`: extensions are identified by URNs, no schema is declared
twice, and no schema identifier is the qualified text of a declared attribute (one identifier may
extend another); complex values nest one level; attribute names follow the grammar.
`StoreType(rt)` adds that the core schema does not redeclare the common attributes.
`Canonical(rt, d)`: every value is the stored form of its declared attribute, the derived attributes
are not kept and no container is empty, which Set, Apply and decoding preserve. `DistinctAttrs(rt)`:
no two attributes of a schema have the same folded name, as schema validation demands. `ParsedPath`
and `ParsedOp`: paths are as the parser delivers them.

Where the code does something else than its own comments say, the code is followed:

- A null add to an assigned immutable single-valued attribute passes the guard and unassigns it
  (`Samples.NullAddUnassigns`; `PatchGuards.ImmutableKeptIff` gives the exact condition).
- In a synthesis filter a null clause before a value clause on the same name is not seen as a
  conflict (`PatchSynthesis.NullBeforeValue` is such a filter, `PatchSynthesis.SynthesizedMatches` the exact
  condition).
- Set refuses a stored multi-valued scalar that is not text (`Samples.NumbersRefused`,
  `Values.CoerceFixedIff`).
- PATCH and Get resolve the same text differently exactly when the text is itself a schema
  identifier (`Paths.ResolversAgree`, `Samples.OverlapDisagrees`).
- Adding the very same bare element again to an immutable multi-valued attribute is refused, and
  in an array it is accepted (`PatchElements.AddOpTwice`, `PatchReplay.PathlessTwice`,
  `Samples.BareAddRefused`).
- Replaying a synthesizing add is refused on an immutable attribute, and when it named a readOnly
  member Set does not take back (`PatchSynthesis.SynthesisReplays`, `Samples.SynthesisRefused`).
- Writing a whole single-valued complex attribute does not consult the mutability of its members
  (`PatchTables.MemberKeptIff`, `Samples.MemberOverwritten`).
- Decode lets a remove without a path through, which EncodeOps cannot write
  (`PatchCodec.DecodedAgain`, `Samples.RemoveNotSent`).
- A pathed add to the derived schemas attribute is accepted when it has nothing to add
  (`PatchTables.DecisionTable`).
- A sort key's value filter gives up at the first element that holds a typed slice other than
  text, where the PATCH engine goes on (`FilterLaws.MatchIndexIs`, `Samples.ProbingStops`).
- A PUT that has to carry over a readOnly or immutable list of numbers, instants or the like is
  refused, as Set does not take it back (`MergePut.MergeIff`).
- Uniqueness is enforced for the texts of core attributes only, not for extensions or other types
  (`Uniqueness.WritesDecided`).
- Deleting a resource drops its version counter (`StoreRuns.VersionStartsOver`).
- The index answers only for attributes of string type, and for those it loses nothing, caseExact
  or not (`Listing.IndexNarrows`).

## Model

| member | source | states |
|---|---|---|
| FilterScanner.Scanner.Next | filter/token.go:83-111 | the token and the text left are those of the lexical grammar, and an error is an invalid filter |
| FilterScanner.Scanner.ScanString | filter/token.go:130-154 | a string literal ends at the first quote no backslash escapes and decodes as JSON does, surrogate pairs included |
| FilterScanner.Scanner.ScanNumber | filter/token.go:158-176 | the longest run of number characters must be a JSON number |
| FilterTokens.LexIff | filter/token.go:83-126 | a token is found exactly where the text is blanks and then a spelling of it that could not be longer |
| FilterTokens.NumberIff | filter/token.go:156-176 | a number is one of the JSON grammar: no leading zero, digits on both sides of the point and in the exponent |
| FilterTokens.EscapesDecoded | filter/token.go:128-154 | an escape stands for its character, two halves for one above U+FFFF, a lone half for U+FFFD |
| FilterLexing.UnescapeEscape | filter/ast.go:190-211 | decoding the escaped text of any string, quotes, backslashes and control characters included, gives it back |
| FilterLexing.LexLiteral | filter/ast.go:190-211 | the printed form of every literal scans as one token that stands for that literal |
| FilterLexing.SplitPlainText | filter/token.go:183-207 | splitting the printed text of a well-formed path recovers its URN, attribute and sub-attribute |
| FilterAbnf.SplitIff | filter/token.go:178-207 | a word stands for a path exactly when it is the text of a well-formed one |
| FilterParser.Parser.ParseOr | filter/parse.go:207-223 | the loop builds the left-associated or-chain of the grammar, and restores depth and flag |
| FilterParser.Parser.ParseAnd | filter/parse.go:225-241 | the loop builds the left-associated and-chain of the grammar |
| FilterParser.Parser.ParseUnary | filter/parse.go:246-267 | not binds one operand, costs one level of depth, and a bare attribute spelled not is not a path |
| FilterParser.Parser.ParseGroup | filter/parse.go:284-303 | a parenthesised group costs one level of the 64 and must close |
| FilterParser.Parser.ParseAttrExpr | filter/parse.go:307-348 | comparison, presence or value path, with the rule against nested value filters |
| FilterParser.Parser.ParseValueFilter | filter/parse.go:107-125 | a bracketed filter is parsed with nesting forbidden, and the flag is put back |
| FilterParser.Parse | filter/parse.go:34-47 | the parser accepts exactly the texts of the grammar and yields their tree |
| FilterParser.ParsePath | filter/parse.go:52-62 | the same for PATCH paths, every failure reported as an invalid path |
| FilterAbnf.ParsesIff | filter/parse.go:30-47 | a text is accepted and stands for a tree exactly when a derivation of the grammar of RFC 7644 of at most 64 levels spells its tokens and means that tree, words in any case |
| FilterAbnf.PathParsesIff | filter/parse.go:159-205 | a text is accepted as a path exactly when it is a word, or a word with a bracketed filter and maybe a sub-attribute, and stands for that path |
| FilterNesting.DepthIrrelevant | filter/parse.go:94-125 | the tree an accepted text stands for is the same from every start depth that leaves the levels counted on its tokens, one for a parenthesis and two after not, and with fewer left it is refused |
| FilterNesting.PrintedLevels | filter/ast.go:131-182 | the printed form of a tree needs exactly as many levels as the tree nests |
| FilterNesting.PrintShallows | filter/ast.go:131-182 | what an accepted text stands for nests no deeper than the text, and neither does its printed form, which reads back to the same tree |
| FilterAccepts.ParseFilterAccepts | filter/parse.go:34-47 | whatever Parse accepts is well-formed and its printed form stays within the depth bound |
| FilterRoundTrip.ParsePrinted | filter/ast.go:131-182 | every well-formed expression nested at most 64 deep parses back from its printed form to the same tree |
| FilterRoundTrip.ParsePrintedIff | filter/ast.go:139-182 | an expression parses back from its printed form exactly when it is well-formed and nested at most 64 deep |
| FilterRoundTrip.PrintParsed | filter/parse_fuzz_test.go:59-72 | what Parse accepts survives printing and parsing, so printing is a fixpoint after one parse |
| FilterRoundTrip.PrintInjective | filter/ast.go:131-182 | two well-formed expressions with the same printed text are equal |
| FilterRoundTrip.Precedence | filter/parse.go:207-267 | and binds tighter than or, a group is read first and not negates a group, over any parts in printed form |
| FilterRoundTrip.ParsePrintedPath | filter/ast.go:60-77 | a path, value filter and trailing sub-attribute included, parses back from its text exactly when it is well-formed |
| FilterRoundTrip.PrintParsedPath | filter/parse.go:159-205 | whatever ParsePath accepts survives printing and parsing |
| FilterLaws.Trichotomy | filter/match.go:466-487 | gt, ge, lt, le, eq and ne hold exactly as the value stands to the literal: numbers by size, instants by time, texts by their first difference |
| FilterLaws.PlainEquality | filter/match.go:489-510 | booleans and bytes are only equal or not, and nothing else about them holds |
| Ordering.LessEqIff | server/sort.go:182-191 | a text comes no later than another exactly when it is a prefix or smaller where they first differ |
| FilterAnswers.KeepAnswer | server/memstore/list.go:36-52 | a valid filter keeps of a list the resources it answers with, in the order of the list |
| FilterAnswers.Connectives | filter/match.go:216-226 | over a list, or keeps what either filter keeps, and what both keep, not the rest, in the order of the list |
| FilterAnswers.ValidConnectives | filter/match.go:146-178 | a compound filter is valid exactly when its parts are |
| FilterAnswers.ClausesValid | filter/match.go:158-195 | a comparison is invalid exactly when it asks for an order on a boolean or binary attribute, a value path exactly when its filter is, a nested one always |
| FilterAnswers.InvalidRefused | filter/match.go:20-33 | an invalid filter is refused over every list that is not empty |
| FilterAnswers.Selections | filter/match.go:365-392 | on the elements of a list, or selects the union, and the intersection, not the complement |
| FilterAnswers.ValuePathSelects | filter/match.go:338-363 | a value path holds exactly when its filter selects an element of the list |
| FilterAnswers.MemberOfSome | filter/match.go:269-285 | a comparison or presence test on a member of a list holds exactly when one element alone satisfies it |
| FilterAnswers.ComparesHeld | filter/match.go:235-267 | elsewhere a comparison is one of the value held, or of some scalar of a list, and what is unassigned compares like null |
| FilterAnswers.HeldClauses | filter/match.go:318-361 | presence is that Get shows something, and a value path on a single complex value is its filter on that one element |
| FilterAnswers.UndefinedClauses | filter/match.go:75-101 | a clause on an attribute the type does not declare is valid and does not hold |
| FilterAnswers.ElementClauses | filter/match.go:373-388 | on an element a clause is about the member of the bare name, a missing one compares like null, and qualified names hold nothing |
| FilterLaws.ContainsIff | filter/match.go:433-462 | co holds exactly when the text stands somewhere inside |
| FilterLaws.Substrings | filter/match.go:433-462 | sw, ew and co hold exactly when the folded or exact text begins with, ends with or contains the literal |
| FilterLaws.CaseAlike | filter/match.go:433-462 | filters that differ only in the case of texts compared with attributes that are not caseExact match the same resources, inside value filters too |
| FilterLaws.NullLaws | filter/match.go:249-290 | ne null is pr, and eq null its opposite, except that across the elements of a list eq null asks for an element without the member |
| FilterLaws.ProbeMatches | server/sort.go:104-115 | a resource takes an element alone exactly when it holds no typed slice other than text, and matching that resource is then matching the element |
| FilterLaws.MatchIndexIs | server/sort.go:102-123 | probing elements one by one finds the first the PATCH engine would select among those before the first element no resource takes alone, and nothing beyond |
| Values.CoerceStored | scim/value.go:63-106 | Coerce yields nothing or a stored form: never empty, at most one primary element |
| Values.CoerceFixedIff | scim/value.go:294-326 | Coerce returns a stored value unchanged exactly when it holds no typed slice other than text, and fails on the others |
| Coercion.ScalarIff | scim/value.go:111-240 | a scalar coerces to exactly the stored scalar it stands for: itself, a number without loss, the text of a number, instant, bytes or reference |
| Coercion.SimpleIff | scim/value.go:353-398 | a simple attribute stores for a value exactly that scalar, or the list of those its items that are not null stand for |
| Coercion.ElementIff | scim/value.go:242-280 | a complex value stores exactly its declared members that stand for something |
| Coercion.ArrayIff | scim/value.go:328-351 | an array of complex values is taken exactly when every item is and at most one is primary, empty ones dropped |
| Values.EqualIff | patch/equal.go:14-77 | valuesEqual on stored values of an attribute is equality up to the offsets of dateTimes |
| Values.EqualTrans | patch/equal.go:14-77 | valuesEqual is transitive on all values it relates |
| Values.EqualSym | patch/equal.go:14-77 | valuesEqual is symmetric |
| Values.EqualSelf | patch/equal.go:14-77 | valuesEqual is reflexive on stored values |
| Paths.ResolversAgree | patch/resolve.go:16-60 | whatever the schema identifiers, a path PATCH accepts is resolved by Get and Set, from its rendered text, to the same namespace, attribute and sub-attribute exactly when that text is not itself a schema identifier |
| Paths.SplitsAtHome | scim/path.go:113-147 | longest-prefix matching splits a qualified text at the identifier of the schema it names, overlapping identifiers included, unless the whole text is an identifier |
| DocumentFacts.SetFrame | scim/resource.go:213-226 | Set touches one location and never the metadata |
| DocumentFacts.SetCanonical | scim/resource.go:312-355 | Set keeps every value in stored form and no container empty |
| DocumentFacts.ChangeSeen | patch/apply.go:237-249 | comparing what Get shows before and after a Set detects exactly the changes of the resource |
| DocumentFacts.SetGet | scim/resource.go:213-240 | Set succeeds exactly when the value coerces for the attribute or member, and Get then shows the coerced value |
| Reading.DeclaredReads | scim/resource.go:128-180 | the text of a declared attribute or member, in any case and with or without the core identifier, reads its own schema's map |
| Reading.SchemasShown | scim/resource.go:151-167 | schemas shows the core identifier and then those of the extensions that hold data, in the order of declaration |
| Reading.MetaShown | scim/resource.go:182-205 | each metadata field shows under its own name, and only when assigned |
| Reading.ExtensionWritten | scim/resource.go:268-296 | setting an extension by its identifier replaces all it held by the members that coerce, null removes it, and nothing outside changes |
| Resources.Container.SetSub | scim/resource.go:331-355 | the live parent is edited in place, created when missing, deleted with its last member |
| Resources.Container.SetWhole | scim/resource.go:312-327 | a whole attribute is replaced, the old complex value is not edited |
| Resources.Container.Copy | scim/resource.go:387-400 | an equal container whose map and single complex values are fresh and whose lists are the very same arrays |
| Resources.Resource.Set | scim/resource.go:213-226 | the value becomes the specified one or nothing changes on failure; no list handed out before is edited, and setting a whole attribute edits no complex value handed out before |
| Resources.Resource.SetExtension | scim/resource.go:241-255 | the extension container is edited in place or created, and dropped when empty |
| Resources.Resource.SetContainer | scim/resource.go:270-296 | a whole extension is replaced by the coerced members of an object |
| Resources.Resource.Commit | scim/resource.go:260-266 | an empty container is never kept |
| Resources.Resource.Get | scim/resource.go:129-167 | what Get hands out, the live complex values and lists included, stands for the specified value |
| Resources.Resource.Schemas | scim/resource.go:76-84 | the core URN, then the extensions that hold data, in declaration order |
| Resources.Resource.CloneShared | scim/resource.go:380-400 | an equal resource with containers and single complex values of its own and the very same lists |
| Resources.Interleave | scim/resource.go:369-382 | two resources that may hold the same lists but edit no object of each other end, under every interleaving of later writes, each as if the other did not exist |
| PatchEngine.Applier.SetTracked | patch/apply.go:239-249 | although the before value is a live reference, complex or list, read after the write, the flag is raised exactly when the value changed |
| PatchEngine.Applier.ResolveOpTarget | patch/apply.go:57-115 | the target or the failure the guards prescribe, in their order |
| PatchEngine.Applier.CheckImmutableAttr | patch/apply.go:123-139 | match-or-error on an assigned immutable attribute |
| PatchEngine.Applier.CheckImmutableSubPath | patch/apply.go:177-196 | an assigned immutable sub-attribute accepts only its current value |
| PatchEngine.Changes | patch/apply.go:146-166 | the guard computes on copies of the live value what the write would make of it |
| PatchEngine.Applier.AddMulti | patch/apply_add.go:51-68 | an empty value is a no-op, otherwise what is new is appended |
| PatchEngine.Applier.MergeComplex | patch/apply_add.go:82-107 | named sub-attributes are set, the others remain |
| PatchEngine.Applier.ReplaceAttribute | patch/apply_replace.go:37-50 | arrays are replaced whole, complex values merged, the rest set |
| PatchEngine.Applier.WriteValuePath | patch/apply_replace.go:55-93 | addValuePath and replaceValuePath: noTarget or synthesis when nothing matches, else the matched elements edited and the others demoted |
| PatchEngine.Applier.RemoveValuePath | patch/apply_remove.go:38-72 | matching elements go, a required attribute keeps at least one, an unassigned attribute is a no-op |
| PatchEngine.Applier.RemoveSubFromElements | patch/apply_remove.go:77-93 | the sub-attribute goes from the matched elements unless immutable and assigned |
| PatchEngine.Applier.SynthesizeElement | patch/synthesize.go:16-38 | the new element is the filter's literals overridden by the value, the others demoted if it is primary |
| PatchEngine.CollectEqClauses | patch/synthesize.go:52-74 | the map handed down the conjunction ends as the collected literals |
| PatchEngine.DemoteOthers | patch/apply.go:310-329 | every primary outside keep loses the flag when a kept element is primary; the array is written in place, an element only as a copy |
| PatchEngine.AppendComplexElements | patch/apply_add.go:351-368 | non-duplicates are appended in order and a new primary demotes the old, in an array of its own unless nothing is added |
| PatchEngine.EditMatches | patch/apply_add.go:138-166 | on a copy of the live list each matched position gets an edited element of its own, the others stay the very same, as editing the selected elements in order prescribes, and a failure midway leaves list and elements as they were |
| PatchEngine.MatchingElements | patch/apply.go:274-286 | the increasing positions of the elements that satisfy the filter |
| PatchEngine.MergeElemKeys | patch/apply_add.go:170-184 | whatever the order of the members, the merge succeeds alike and yields the same element |
| PatchEngine.CheckReplacedElement | patch/apply_replace.go:100-124 | the first immutable sub-attribute a replacement drops or changes decides the failure |
| PatchEngine.Applier.ApplyPathlessKey | patch/apply_add.go:208-224 | schemas and meta are skipped, an extension URN recurses, an unknown name is ignored |
| PatchEngine.Applier.ApplyPathlessAttr | patch/apply_add.go:247-260 | readOnly members are skipped, immutable ones guarded, the rest added or replaced |
| PatchEngine.Apply | patch/apply.go:23-31 | no object older than the call changes, lists and elements shared with the working copy included, even on failure midway; result and input edit no object of each other, and the value and Changed flag are the specified ones |
| PatchEngine.ApplyThenWrite | scim/resource.go:369-382 | patched resource and input stay independent under every interleaving of later writes, although they hold the same lists |
| PatchMerging.MergeAllIff | patch/apply_add.go:170-184 | a merge succeeds exactly when every member passes its guard on the element as it was, and writes all but the readOnly ones |
| PatchFacts.PathedEffect | patch/apply.go:57-96 | an accepted pathed operation writes its target location only, which is not readOnly |
| PatchFacts.KeysEffect | patch/apply_add.go:192-260 | a pathless value writes only the locations its members name |
| PatchFacts.ChangedIff | patch/apply.go:237-249 | Result.Changed is true exactly when some operation of the sequence altered the working copy; if false the result equals the input up to dateTime offsets |
| PatchTables.DecisionTable | patch/apply_replace.go:17-50 | an accepted operation without a value filter leaves its target removed, replaced, merged member by member, or appended to; on the derived attributes it is accepted only when it does nothing |
| PatchTables.AddMultiTable | patch/apply_add.go:51-68 | an accepted add to a multi-valued attribute leaves the old value, the batch, or the old value with what is new appended |
| PatchTables.MemberKeptIff | patch/apply_add.go:82-107 | a readOnly or immutable member of a single-valued complex attribute survives an accepted operation without a value filter exactly unless the operation is on the whole attribute and removes it or carries another value for it |
| PatchPathless.PathlessTable | patch/apply_add.go:192-260 | a pathless add or replace is accepted exactly when no member is refused on the resource as it was, else the first refusal is the failure; every location named, extensions included, ends as the tables say for its member and the rest stays |
| PatchAccepts.PathedIff | patch/apply.go:57-122 | an operation without a value filter is accepted exactly when target, mutability and value allow it, and fails in the way stated otherwise |
| PatchAccepts.ApplyIff | patch/apply.go:12-31 | a sequence is its operations one after another on the working copy: accepted exactly when each goes through, failing as the first that does not |
| PatchAccepts.NotPerformed | patch/apply.go:40-51 | an unknown kind is malformed, a remove without a path has no target |
| PatchValuePaths.ValuePathIff | patch/apply_add.go:112-166 | an operation with a value filter is refused outright in the way stated, or accepted exactly when every element edited permits the edit and the list made can be stored |
| PatchValuePaths.SeedIff | patch/synthesize.go:44-74 | an element can be made from a filter exactly when it is a conjunction of eq comparisons that agree, and has the values they give |
| PatchGuards.GuardedWriteIff | patch/apply.go:146-166 | wouldChange returning false means the write leaves an assigned immutable value as it was, exactly unless it adds null to a single scalar |
| PatchGuards.ImmutableKeptIff | patch/apply.go:103-166 | an accepted operation leaves an assigned immutable attribute equal exactly when it does not null it that way |
| PatchGuards.ImmutableKept | patch/apply.go:98-139 | once assigned, an immutable attribute survives every accepted sequence with no such null |
| PatchGuards.ReadOnlyKept | patch/apply.go:79-96 | no accepted sequence, under any profile, changes a readOnly attribute or meta, and everything stays canonical |
| PatchGuards.ApplyCanonical | patch/apply.go:11-31 | Apply keeps resources canonical, so no attribute ends with two primaries, and carries meta over |
| PatchElements.AppendStored | patch/apply_add.go:351-379 | appending a batch leaves at most one primary, the batch's if it brings one, and alters no existing element but for that flag |
| PatchAppend.ComplexAppend | patch/apply_add.go:349-379 | appending leaves the old elements, demoted when a new one is primary, followed by the elements of the batch that neither the list nor the batch before them has, by value member or else as a whole |
| PatchAppend.ScalarAppend | patch/apply_add.go:321-347 | the same for lists of scalars |
| PatchElements.AddTwice | patch/apply_add.go:51-68 | adding the same value again leaves the resource as it was |
| PatchElements.AddOpTwice | patch/apply_add.go:17-68 | an accepted add to a multi-valued attribute, sent again, leaves the resource as it is and on its own reports Changed=false, exactly unless the attribute is immutable and the value a bare element that adds something: then it is an invalid value |
| PatchReplay.PathlessTwice | patch/apply_add.go:186-260 | an accepted pathless add of any object, extensions, nulls and complex values included, sent again leaves the resource as it is and on its own reports Changed=false, exactly unless a member adds a bare element to an immutable list: then it is an invalid value |
| PatchElements.AppendIff | patch/apply_add.go:51-68 | an append to an assigned complex attribute fails only if the batch does not coerce or the outcome cannot be written back, never because of the old primary |
| PatchSelected.SelectedEdit | patch/apply_add.go:112-166 | an accepted valuePath add, replace or sub-attribute remove leaves stored, element by element, the selected ones with the member set, the object merged in or put in their place, or the member gone, the others but for a demoted primary as they were, every immutable sub-attribute of both kept, and the emptied ones dropped |
| PatchSelected.SelectedRemoved | patch/apply_remove.go:38-72 | removing elements leaves exactly the unselected ones, in order and unchanged |
| PatchSynthesis.SynthesizedMatches | patch/synthesize.go:16-74 | the manufactured element satisfies the filter, and is the only one to, exactly when no null clause names a seeded sub-attribute |
| PatchSynthesis.SynthesisReplays | patch/synthesize.go:9-38 | an accepted add that builds a non-empty element and has no clashing null clause, sent again, selects exactly the element it made, leaves the resource as it is and on its own reports Changed=false, exactly when the attribute is not immutable and each readOnly member it named can be written back; otherwise it is refused, with the kind stated |
| PatchCodec.EncodeOps | patch/encode.go:22-38 | the message holds the encodings in order, their values as encoding/json writes them, or the first failure is reported |
| PatchCodec.Decode | patch/decode.go:71-121 | envelope checks, then the shape of all operations whatever the order of their members, then kind, path and value of each, first failure reported |
| PatchWire.OpIff | patch/decode.go:157-226 | an operation decodes exactly from the objects that say it: kind in lower case, path as its text, a value for an add or replace and none for a remove |
| PatchWire.MessageIff | patch/decode.go:71-155 | a body decodes exactly when it names the message schema in any case and holds 1 to 1000 operations that each say theirs |
| PatchCodec.TwoPasses | patch/decode.go:114-160 | checking the shapes first and building afterwards succeeds exactly when every operation decodes, with the same operations |
| PatchCodec.OpRoundTrip | patch/encode.go:54-74 | an operation survives encoding and strict decoding exactly when a message can carry it, a JSON value included |
| PatchCodec.MarshalFixed | patch/encode.go:19-22 | exactly the JSON values, numbers as their text, come back from encoding/json as they were |
| PatchCodec.MessageRoundTrip | patch/decode.go:193-250 | a sequence survives exactly when it has 1 to 1000 operations a message can carry |
| PatchCodec.DecodedAgain | patch/encode.go:62-66 | what Decode accepts of a JSON body can be sent on unchanged exactly when it holds no remove without a path |
| Versions.VersionMatchesIff | server/memstore/memstore.go:184-202 | stamped versions match exactly when their counters are equal |
| Versions.EtagMatchIff | server/etag.go:41-60 | a stamped version sent as an If-Match header admits exactly that version |
| Versions.EchoedForms | server/memstore/memstore.go:188-202 | a version echoed bare or quoted matches the weak form |
| Versions.HeaderIff | server/etag.go:41-60 | an If-Match header of any candidates admits a version exactly when one names it, bare, quoted or weak and with blanks around, or it is a star |
| Versions.TokenIff | server/memstore/memstore.go:188-202 | a compare-and-swap token stands for a version exactly when it is empty or names it in one of these forms |
| Handlers.PassesIff | server/etag.go:62-78 | a request without If-Match passes, one with it exactly when the header admits the version |
| Memstore.Store.Reindex | server/memstore/memstore.go:133-158 | every bucket trades the id's old terms for its new ones, attributes indexed twice included |
| Memstore.Store.CheckUnique | server/memstore/memstore.go:162-173 | the index-based test refuses exactly the writes that share a unique value with another resource |
| Uniqueness.UniqueNamesIff | server/memstore/memstore.go:70-75 | the names watched are exactly those of the core attributes declared unique |
| Uniqueness.StoreUnique | server/memstore/memstore.go:160-173 | no two resources of a store share a folded text of an attribute declared unique |
| Uniqueness.WritesDecided | server/memstore/crud.go:13-79 | a Create under a free id is refused exactly when another resource shares such a text, a Replace with a matching token exactly when another one does |
| Uniqueness.PatchDecided | server/memstore/patch.go:17-42 | a PATCH that changes a resource is refused for uniqueness exactly when another resource shares such a text of the outcome |
| StoreEffects.CreateFiles | server/memstore/crud.go:13-39 | Create files the resource last under its own or the generated id at version one, everything else as it was, and a refused one changes nothing |
| StoreEffects.ReplaceFiles | server/memstore/crud.go:52-79 | Replace files the resource under the id of the address and the next version, in its old place |
| StoreEffects.DeleteDrops | server/memstore/crud.go:81-92 | Delete takes the resource, its counter and its place, and the rest keeps its order |
| StoreEffects.PatchCommits | server/memstore/patch.go:11-42 | a PATCH that changes something leaves what Apply made with a new time and version, any other leaves everything as it was |
| Memstore.Store.Create | server/memstore/crud.go:13-39 | refused on a taken id or unique value with nothing changed, else filed last, at version one, all structures agreeing |
| Memstore.Store.Replace | server/memstore/crud.go:58-79 | swaps exactly when the id exists, the token matches and nothing clashes; otherwise nothing changes |
| Memstore.Store.Delete | server/memstore/crud.go:82-92 | the id leaves every structure, its version counter included |
| Memstore.Store.Patch | server/memstore/patch.go:17-42 | commits exactly what Apply computes, or changes nothing when it fails, is a no-op or clashes |
| Memstore.Store.CandidateSet | server/memstore/list.go:59-81 | the hits sorted by rank are the hits in insertion order |
| Memstore.Store.List | server/memstore/list.go:18-54 | the page is that of a full scan, whether or not the index answered |
| StoreState.ReindexedAgrees | server/memstore/memstore.go:131-158 | after a reindexing the index holds exactly the terms of the new set of resources |
| StoreState.OrderRemove | server/memstore/memstore.go:92-99 | removing an id keeps order, ranks and counters in agreement |
| StoreState.PatchKeepsId | server/memstore/patch.go:17-42 | PATCH keeps the id, the metadata and canonical form |
| StoreRuns.Perform | server/memstore/crud.go:13-92 | every method is one step on the observable state and preserves the invariants |
| StoreRuns.PerformAll | server/memstore/memstore.go:28-41 | every run of requests ends in the run of steps with all structures agreeing, and every resource carries the version of its counter |
| StoreRuns.RunEvolves | server/memstore/memstore.go:175-182 | along every run in which no Create of an id goes through, its version grows by exactly the number of changes, and equal versions mean equal resources |
| StoreRuns.VersionStartsOver | server/memstore/memstore.go:92-99 | deleting and creating an id starts its version over at one |
| Handlers.PatchFallback | server/handler_patch.go:97-134 | against every interleaving of other requests an accepted PATCH is one native Patch at the point it took effect, a refused one changes nothing; a swap is retried, and after the third given up with a precondition failure, exactly when others changed the resource in between; If-Match holds at the first read, and of what is overwritten when no swap was retried |
| Handlers.RacedTagStale | server/handler_patch.go:91-110 | once others changed the resource after the first read, a header with the version first read admits no later version: a retried PATCH overwrites one the header does not name |
| Handlers.SwapIsPatch | server/memstore/patch.go:17-42 | a swap that goes through over the state it was computed from is the native Patch |
| Handlers.TokenPins | server/memstore/memstore.go:198-202 | a token read from an earlier state of a resource matches that very state and no other |
| Handlers.ReplaceLocked | server/handler_crud.go:102-120 | an accepted PUT overwrites exactly the resource it was merged with, whose version If-Match admits, and shows the request everywhere but at the id and the assigned protected attributes; its write fails as a lost race exactly when others changed the resource |
| MergePut.MergeRetains | server/pipeline.go:118-174 | an accepted merge shows the current value at the id and at every assigned readOnly or immutable attribute, everywhere else exactly what the request has, nothing included, and the current metadata but for lastModified |
| MergePut.MergeIff | server/pipeline.go:151-190 | a merge is accepted exactly when no assigned immutable attribute is sent with another value and every value to carry over can be written back; mutability is reported only for the first |
| MergePut.MergeInto | server/pipeline.go:126-188 | merging in place computes that and leaves the current resource alone |
| Sorting.SortIs | server/sort.go:21-47 | sorting rearranges canonical resources so that keys ascend or descend as asked, by text, size, time, truth value or bytes, missing keys last in both directions, ties in original order |
| Sorting.KeyChoice | server/sort.go:51-100 | the key of a list is the member of a primary element, or of the first when none is, or of the element the value filter picks |
| Sorting.KeysTrans | server/sort.go:145-222 | the comparison of keys of one attribute is transitive |
| Sorting.GetKind | server/sort.go:51-60 | all keys at a sort path are of one kind |
| Listing.IndexNarrows | server/memstore/list.go:83-98 | filtering the index bucket and filtering everything give the same resources in the same order |
| Listing.EvalTerm | filter/match.go:433-462 | a resource that satisfies a bare eq on a string attribute carries the folded term looked up |
| Listing.PageIs | server/memstore/list.go:18-36 | a page holds the resources at its own positions of the sorted matches, as many as the count allows, and the number of matches |
| Engine.ScanQuery | server/engine.go:51-81 | too many when the fetched set is over the limit, else the same page a list of the store gives |
| Engine.LimitIff | server/engine.go:47-64 | a scan that finds at most the limit answers with the store's page, one resource more is too many |
| Engine.RunQuery | server/engine.go:16-27 | pushing down and scanning answer alike |
| Engine.Normalized | server/query.go:133-156 | without a start the page begins at the first resource, without a count it has the default size, a count is cut to the maximum and nothing else changes |
| Engine.PaginateSlice | server/engine.go:86-93 | the server's window equals the store's for normalized bounds |
| Paging.ListAll | client/query.go:44-125 | the walk yields every remaining match exactly once and in order, never reports a stall, and ends, for any page cap of at least one |
| Paging.MatchedDistinct | client/query.go:98-126 | no resource is listed twice, so no two pages share a first resource |
| Samples.SampleFits | scim/resource.go:207-226 | a concrete resource type, one of whose schema identifiers extends the other, and resources meet the conditions the results are stated under |
| Samples.NullAddUnassigns | patch/apply.go:147-151 | a pathless add of null to an assigned immutable attribute is accepted, unassigns it and reports a change |
| Samples.BareAddRefused | patch/apply_add.go:51-77 | re-adding a bare element to an immutable list is refused, wrapped in an array it is accepted and changes nothing |
| Samples.SynthesisRefused | patch/apply.go:103-115 | a synthesizing add to an unassigned immutable attribute is accepted and its replay refused |
| Samples.MemberOverwritten | patch/apply_replace.go:37-50 | a replace of a whole complex attribute overwrites its immutable member, a replace of the member is refused |
| Samples.RemoveNotSent | patch/encode.go:62-66 | a message with a remove without a path decodes, and what it decodes to cannot be encoded |
| Samples.NumbersRefused | scim/value.go:294-326 | a stored list of numbers is not accepted back |
| Samples.ProbingStops | server/sort.go:102-123 | a sort key finds no element where the PATCH engine selects the second, since no resource takes the first alone |
| Samples.Int64Back | scim/value.go:171-186 | the text of an integer reads back as a 64-bit integer exactly when it has 64 bits |
| Samples.SizedReturns | scim/codec_fuzz_test.go:41-61 | with converters of 64 bits a concrete resource with numbers, an extension and a time comes back from its encoding exactly when its number has 64 bits |
| Samples.NotReparsed | filter/parse.go:246-267 | a filter on an attribute named not does not parse back from its printed form |
| Samples.OperatorsWritten | filter/ast.go:131-137 | the operators and literals as they are written |
| Samples.AddWritten | patch/encode.go:22-74 | a PATCH message as it is written, every name spelled out |
| Samples.BodyWritten | scim/codec.go:313-386 | a resource as it is written, its schemas listed first by identifier |
| Samples.OverlapDisagrees | scim/path.go:113-147 | with a schema identifier that is the text of an attribute, PATCH and Get resolve that text differently |
| Codec.ValueBack | scim/codec.go:391-451 | a stored value, typed slices included, reads back from its wire form exactly when every scalar in it does |
| Codec.Decode | scim/codec.go:33-117 | whatever order the members come in, the resource is the same; it fails exactly when some member does not decode, and in the way one of them does |
| Bodies.BodyIff | scim/codec.go:33-117 | a body decodes exactly when every member a declared attribute, extension or the metadata takes fits it; others are ignored |
| Bodies.BodyGives | scim/codec.go:33-170 | the resource holds at every location what its attribute stores for the member given for it, nothing else, and the metadata unless readOnly attributes are dropped |
| Codec.DecodedCanonical | scim/codec.go:33-117 | every body that decodes yields a canonical resource, with or without DropReadOnly |
| Codec.DropsReadOnly | scim/codec.go:17-96 | DropReadOnly loses exactly the metadata and the readOnly attributes, extensions included, and refuses nothing that decodes without it |
| Codec.EncodeResource | scim/codec.go:313-386 | the declared attributes, extensions and metadata that are assigned, nothing else |
| Codec.CodecRoundTrip | scim/codec_fuzz_test.go:41-61 | decoding the encoding of a canonical resource gives back its attributes, extensions and metadata exactly when each number, instant and byte string it holds reads back from its text |
| Codec.EncodeDecode | scim/codec_fuzz_test.go:41-61 | encoding and then decoding yields the resource exactly when what it holds reads back |

## Left out

- Lenient filter parsing: one more branch per construct, and it breaks the statement about depth.
- Text beyond ASCII and invalid UTF-8: names fold and compare as ASCII, strings are sequences of characters.
- Error detail: failures are told apart by their kind only.
- JSON object keys that fold alike: objects are keyed by folded name, so their original case is lost and such objects are excluded.
- The order in which Go visits a map when several members fail: where the code reports whichever it meets first, `PatchEngine.MergeElemKeys`, `PatchCodec.Decode` and `Codec.Decode` allow the kind of any member that fails.
- PatchCodec.Decode: the normalizations of lenient profiles are not modelled.
- Codec.EncodeResource: projections and the returned characteristic are not modelled, nor the order of the emitted fields, which a map does not carry.
- Codec.CodecRoundTrip: how dateTimes, bytes and numbers become text and are read is a parameter, and which of them read back is the condition (`ReadsDoc`), as encoding/json, base64 and RFC 3339 text are not part of this model; `Samples.Int64Back` gives it for integers.
- Go-native inputs to Set other than the decoded JSON forms and the stored forms.
- Floating point rounding: decimals are reals.
- Counters of 64 bits: versions and ranks are unbounded.
- One Go map holds core attributes and extension containers side by side; here a resource has a field for each, since a URN and an attribute name never meet.
- Resources.Resource.CloneShared: slices of scalars and binary values are values in the model, so that they are shared and never edited holds by construction, unlike for lists of complex values; Clone, which copies everything, is not modelled apart.
- Memstore.Store.Patch: the store holds resources by value, because everything that crosses its boundary is cloned; the heap side of Apply is proved in PatchEngine.
- Memstore.Store.Create: identifier generation and the clock are parameters, as they are in Patch and the handlers.
- Handlers.PatchFallback: store and handler apply operations under the same profile; schema validation is a parameter; the requests of others may not delete the resource and create it anew between a read and the swap that follows (`StoreRuns.VersionStartsOver` says why).
- Paging.ListAll: the first resource of a page is compared as a whole value, where the client compares its JSON text under the requested projection; id is always returned, so distinct first resources differ there too.
- Handlers.ReplaceLocked: reading and decoding the request are left out; jsonEqual is equality of stored values.
- PatchSelected.SelectedEdit: an immutable primary sub-attribute of an unselected element is excepted, because demotion overrides it.
- The striped locks and the store's mutex: each store method is one atomic step.
- Discovery, middleware, authentication, the typed views, schema parsing, IdP normalization, the simulator and the HTTP client apart from the list walk: input and output, or long and shallow.
- Validation of resources against canonical values and required attributes (server/pipeline.go:17-116): it only reads, and enters the handlers as a parameter.
