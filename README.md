# schema-dts core, modelled in Dafny

schema-dts compiles the schema.org ontology into TypeScript declarations.
Its input is a list of facts (subject, predicate, object). From them it
builds one entity per class, datatype and property. It then emits one
block of declarations per class, in a canonical order.

The model covers the behaviour that the repository's tests pin down:

- **Canonical order** (`EntityOrder`, `Iri`, `Strings`). `Sort` puts
  primitive datatypes first, then datatype unions, then regular classes.
  Within a tier it compares by local name, which is the fragment of a `#`
  IRI or else the last path segment. Ties go by the full IRI text. Any two
  datatype unions compare equal.
- **Recording facts about a class** (`Classes`). `ClassEntity.Add` is a
  method on a class object. `subClassOf` records a parent,
  `supersededBy` records a deprecation target and `rdfs:comment` stores
  the raw comment. A parent or target missing from the class map is an
  error; nothing changes then. Every other fact is left unapplied.
- **Ingestion** (`Store`, `Ingestion`, `Builder`). This is a fold in two
  passes. The first pass declares every typed entity. The second applies
  each fact in arrival order and stops at the first unresolved reference.
  `Store` states the fold as functions. `Ingestion` proves what the
  result records, and when ingestion succeeds. `Builder.Registry` performs
  the fold in place, over class objects, and is proved to produce exactly
  `Store.Ingest`.
- **Deprecation notices** (`Deprecation`).
  - A class reads "Use A or B instead.", with its replacements named in
    key order.
  - A property reads "Consider using <IRI> or <IRI> instead.", with the
    full IRIs in fact order.
  - Each notice ends the documentation as an `@deprecated` line.
- **Declarations** (`Declarations`). They are abstract syntax, not printed
  text. A regular class `C` yields:
  - `CBase`, unless it has exactly one parent and no fields;
  - `CLeaf`, which carries the `"@type"` tag;
  - the exported `C`, which is its leaf or any of its direct subclasses,
    in canonical order.

  Fields are sorted by property key, and so is each field's range. A
  datatype is its configured host type. An enumeration is the host type
  joined with its members' IRIs, plus a value map in discovery order. The
  `DataType` class is the union of all datatypes.
- **Comment sanitising** (`Comments`). A comment is lexed into characters
  and tags.
  - `<a href="X">Y</a>` becomes `{@link X Y}`.
  - `<br/>` breaks the line.
  - Any other tag fails with an "Unknown tag" error. This happens when
    declarations are built, not when the comment is recorded.
  - Inside a line, whitespace runs collapse to one space and the ends are
    trimmed. Blank lines at either end are dropped.
- **The pipeline** (`Compiler`). It ingests, then emits. Its lemmas follow
  a fact through to the declaration it shapes.

Choices the tests decide:

- Ingestion declares every typed entity before relating any fact. In
  `test/baselines/deprecated_objects_test.ts`, `name domainIncludes Thing`
  (line 28) comes before Thing is typed (line 40), and the run succeeds.
- Only a class with exactly one parent and no fields reuses its parent's
  base (`test/ts/class_test.ts:87-98`). `CarBase` extends `ThingBase` and
  adds a field (`test/baselines/deprecated_objects_test.ts:87-89`), so one
  parent alone does not rule out an own base.
- Property replacements keep fact order: "name or height"
  (`test/baselines/deprecated_objects_test.ts:108`), not alphabetical.
  Replacements are always joined with " or ".
- The notice follows a class comment with no blank line
  (`test/ts/class_test.ts:207-210`). A property comment of one line is set
  off by a blank line (`test/baselines/deprecated_objects_test.ts:105-109`).
  A comment of several lines is not (lines 111-115).
- Parents and replacements are recorded once each, in arrival order
  (`test/ts/class_test.ts:139-177`).

## Model

| member | source | states |
|---|---|---|
| EntityOrder.Sort | test/ts/class_test.ts:242-447 | the result is -1, 0 or +1; a lower tier (primitive < union < regular) always sorts first |
| EntityOrder.SortZeroIff | test/ts/class_test.ts:426-447 | Sort is 0 exactly for two entities of one tier that are both unions or share the identifier |
| EntityOrder.SortAntisymmetric | test/ts/class_test.ts:244-269 | swapping the arguments negates the result |
| EntityOrder.SortTransitive | test/ts/class_test.ts:242-447 | a <= b and b <= c give a <= c |
| EntityOrder.SortIsTotalPreorder | test/ts/class_test.ts:242-447 | Sort is total and transitive, so canonical order is well defined |
| EntityOrder.KeyOrderIsTotalOrder | test/ts/class_test.ts:279-295 | the key order (name, then full IRI) is total, transitive and antisymmetric |
| EntityOrder.SortRegularByName | test/ts/class_test.ts:244-277 | for IRIs parsed from a namespace and a name, regular classes order by local name whatever their namespaces; `Z#A` is named by its fragment, so `Z` sorts after it |
| EntityOrder.SortRegularSameName | test/ts/class_test.ts:279-290 | classes of equal name order by full IRI text: `schema.org/A` after `foo.bar/A`, before `z.org/2010#A` |
| EntityOrder.SortRegularSameNameFragment | test/ts/class_test.ts:291-294 | in one namespace, a segment name against the same name as the fragment of a longer IRI compares the IRI tails |
| EntityOrder.SortTiers | test/ts/class_test.ts:297-447 | primitives precede unions, and both precede regular classes, in either argument order; any two unions compare 0; an entity compares 0 with itself |
| EntityOrder.SortPrimitivesByName | test/ts/class_test.ts:376-393 | primitive datatypes order by local name, a fragment name included, whatever their namespaces |
| EntityOrder.SortPrimitivesSameName | test/ts/class_test.ts:382-387 | primitives of equal name order by full IRI text: `z.org/C` after `schema.org/C` |
| EntityOrder.ByKey | test/ts/class_test.ts:139-177 | the result is in key order and a permutation of the input |
| EntityOrder.Ranked | test/baselines/deprecated_objects_test.ts:83-132 | the result is in canonical order and a permutation of the input |
| Iri.Parse | test/ts/class_test.ts:271-276 | the local name is the text after the first `#`, or else the last path segment, and is a suffix of the IRI |
| Iri.NamedBySegment | test/ts/class_test.ts:244-269 | an IRI made of a namespace ending in `/` and a name parses to that name |
| Iri.NamedByFragment | test/ts/class_test.ts:271-276 | an IRI with a `#` parses to the text after it, so `https://schema.org/Z#A` is named A |
| Iri.CompareKeys | test/ts/class_test.ts:279-295 | the key comparison answers -1, 0 or 1 |
| Iri.CompareKeysZeroIffSame | test/ts/class_test.ts:257-262 | the key comparison is 0 exactly for equal identifiers |
| Iri.CompareKeysAntisymmetric | test/ts/class_test.ts:264-269 | swapping the identifiers negates the key comparison |
| Iri.CompareKeysTransitive | test/ts/class_test.ts:279-295 | the key comparison is transitive |
| Sorting.SortBy | test/baselines/sorted_proptypes_test.ts:27-32 | the result is sorted by the comparator and a permutation of the input |
| Sorting.InsertSpec | test/baselines/sorted_proptypes_test.ts:27-32 | inserting into a sorted list keeps it sorted and adds exactly that element |
| Sorting.SortedUnique | test/ts/class_test.ts:139-177 | under a total order, two sorted permutations of each other are equal |
| Sorting.SortByIgnoresInputOrder | test/ts/class_test.ts:139-177 | sorting two permutations of one list gives the same result |
| Sorting.SortedByNeighbours | test/baselines/sorted_proptypes_test.ts:66-80 | a list whose neighbours are in order is sorted |
| Classes.ClassEntity.constructor | test/ts/class_test.ts:43-45 | a new class has nothing recorded and is not deprecated |
| Classes.ClassEntity.Add | test/ts/class_test.ts:47-70 | the new state and answer are those of ApplyClassFact; on an error the class is unchanged |
| Classes.ApplyClassFact | test/ts/class_test.ts:47-70 | error exactly when a subClassOf/supersededBy target is not a known class, naming it; otherwise true exactly for such a node or a literal comment; a parent or replacement is appended once after the earlier ones, and only that field changes |
| Classes.ApplyClassFactIdempotent | test/ts/class_test.ts:483-490 | recording the same fact again changes nothing |
| Classes.ApplyClassFactKeepsReferences | test/ts/class_test.ts:47-70 | every parent and replacement recorded names a known class, and none is recorded twice |
| Classes.AddOnce | test/ts/class_test.ts:139-168 | appends the element unless present; keeps earlier order and no duplicates |
| Classes.PermutationKeepsDistinct | test/ts/class_test.ts:139-177 | a rearrangement of a list has no duplicates exactly when the list has none |
| Classes.ClassEntity.MarkDataType | test/baselines/sorted_proptypes_test.ts:36-47 | a DataType typing turns the class into a datatype and changes nothing else |
| Classes.ClassEntity.AddMember | test/baselines/sorted_proptypes_test.ts:48-49 | an individual joins the members once, after the earlier ones |
| Errors.Message | test/ts/class_test.ts:57-69 | the messages start "Couldn't find parent of", "Couldn't find class <IRI>" and "Unknown tag" |
| Store.ApplyPropFact | test/baselines/deprecated_objects_test.ts:27-59 | error exactly for an unknown domain or range class, or an unknown replacement; otherwise a domain, range or replacement is appended once after the earlier ones, or the comment is recorded, and nothing else changes |
| Store.Declare | test/baselines/deprecated_objects_test.ts:27-63 | the first-pass step: only a type fact over a non-property declares, only its subject; the orders only grow at the end, and every other entity is unchanged |
| Store.Relate | test/ts/class_test.ts:47-70 | the second-pass step declares nothing and changes no kind; it fails only on a reference to something that is not a class |
| Store.RelateAll | test/baselines/deprecated_objects_test.ts:27-63 | the second pass keeps the declared entities; an error means some fact refers to a non-class |
| Store.Ingest | test/baselines/deprecated_objects_test.ts:24-66 | ingestion holds exactly the entities the type facts declare; an error means some fact refers to something no type fact makes a class |
| Ingestion.DeclareAllWellFormed | test/baselines/deprecated_objects_test.ts:27-63 | the first pass lists each entity once, no entity is both class and property, and nothing is recorded yet |
| Ingestion.DeclaredKind | test/baselines/deprecated_objects_test.ts:60-63 | a class is a datatype exactly when some fact types it DataType, wherever that fact comes |
| Ingestion.DedupSpec | test/baselines/sorted_proptypes_test.ts:27-32 | de-duplication keeps every element once and no other |
| Ingestion.TargetsIff | test/baselines/deprecated_objects_test.ts:36-38 | an identifier is a recorded target exactly when some fact names it with that predicate |
| Ingestion.InstancesIff | test/baselines/sorted_proptypes_test.ts:48-49 | an identifier is an instance exactly when some fact types it with the datatype |
| Ingestion.RelateOkIff | test/ts/class_test.ts:47-70 | one fact applies exactly when every reference it makes resolves among the declared entities |
| Ingestion.RelateAllOkIff | test/baselines/deprecated_objects_test.ts:27-63 | the second pass succeeds exactly when every fact resolves |
| Ingestion.IngestOkIff | test/baselines/deprecated_objects_test.ts:27-63 | ingestion succeeds exactly when every reference resolves, including references to entities typed later |
| Ingestion.IngestRecords | test/baselines/deprecated_objects_test.ts:27-63 | each entity records the de-duplicated targets, the last comment and the instances its facts give it |
| Builder.Registry.constructor | test/baselines/deprecated_objects_test.ts:24-27 | the registry starts empty |
| Builder.Registry.AddClass | test/baselines/deprecated_objects_test.ts:40-46 | files a fresh class object under its identifier and appends it to the class order |
| Builder.Registry.Promote | test/baselines/sorted_proptypes_test.ts:36-37 | the class becomes a datatype; nothing else changes |
| Builder.Registry.Register | test/baselines/deprecated_objects_test.ts:27-63 | the registry afterwards is the first-pass step of the fact |
| Builder.Registry.ApplyToClass | test/ts/class_test.ts:47-70 | delegates to the class object's Add; the registry matches ApplyClassFact, unchanged on an error |
| Builder.Registry.AddMemberTo | test/baselines/sorted_proptypes_test.ts:48-49 | the individual joins the datatype's members; nothing else changes |
| Builder.Registry.Apply | test/baselines/deprecated_objects_test.ts:27-63 | the outcome is the second-pass step of the fact |
| Builder.Registry.RegisterAll | test/baselines/deprecated_objects_test.ts:27-63 | the loop builds exactly the first pass over all facts |
| Builder.Registry.ApplyAll | test/baselines/deprecated_objects_test.ts:27-63 | the loop yields the second pass over all facts, or its first error |
| Builder.Build | test/baselines/deprecated_objects_test.ts:24-66 | the registry built in place equals the specified ingestion, error included |
| Builder.RelateAllStopsAtError | test/ts/class_test.ts:47-70 | once a prefix of the facts fails, the whole run fails with that error |
| Builder.RelateAllNext | test/baselines/deprecated_objects_test.ts:27-63 | the second pass over one more fact is that fact related to the store so far |
| Deprecation.ClassNotice | test/ts/class_test.ts:115-137 | a class has a notice exactly when something supersedes it |
| Deprecation.PropertyNotice | test/baselines/deprecated_objects_test.ts:47-54 | a property has a notice exactly when something supersedes it |
| Deprecation.ClassDoc | test/ts/class_test.ts:179-213 | the comment lines come first, then the notice on one more line, with no blank line |
| Deprecation.PropertyDoc | test/baselines/deprecated_objects_test.ts:105-116 | the comment lines come first and the notice is last; a one-line comment gets a blank line before it |
| Deprecation.ClassNoticeIgnoresOrder | test/ts/class_test.ts:139-177 | the class notice depends only on which replacements there are |
| Deprecation.ClassNoticeOne | test/ts/class_test.ts:115-137 | one replacement: "Use X instead." |
| Deprecation.ClassNoticeTwo | test/ts/class_test.ts:139-177 | two replacements are named in key order, whichever came first |
| Deprecation.TwoReplacementsAlphabetical | test/ts/class_test.ts:170-175 | CoolPerson recorded before APerson reads "Use APerson or CoolPerson instead." |
| Deprecation.PropertyNoticeOne | test/baselines/deprecated_objects_test.ts:125 | one replacement: "Consider using <IRI> instead." |
| Deprecation.PropertyNoticeTwo | test/baselines/deprecated_objects_test.ts:53-54 | two property replacements keep fact order |
| Deprecation.TwoPropertyReplacementsInFactOrder | test/baselines/deprecated_objects_test.ts:108 | name then height reads "Consider using http://schema.org/name or http://schema.org/height instead." |
| Comments.ParseTag | test/baselines/deprecated_objects_test.ts:52-58 | a tag body gives a tag, closing exactly when it starts with `/` |
| Comments.ParseTagName | test/baselines/deprecated_objects_test.ts:52-58 | a tag is named by its leading run of name characters, in lower case, with the href read from what follows; a leading `/` only makes it closing |
| Comments.ParseTagClosing | test/baselines/deprecated_objects_test.ts:52 | `/` before a tag body gives the same name and href, closing |
| Comments.Lex | test/baselines/deprecated_objects_test.ts:52-58 | at most one token per character; text without `<` is read character by character |
| Comments.Markup | test/ts/class_test.ts:215-237 | an error is always an unknown tag, off the allow-list, that occurs in the tokens |
| Comments.Sanitize | test/ts/class_test.ts:215-237 | an error names a tag off the allow-list that occurs in the comment; on success neither the first nor the last line is blank |
| Comments.Href | test/baselines/deprecated_objects_test.ts:52 | the href read from a tag never contains a quote |
| Comments.ParseLinkTag | test/baselines/deprecated_objects_test.ts:52 | `a href="X"` reads as an opening `a` tag with href X |
| Comments.LexLink | test/baselines/deprecated_objects_test.ts:52 | a link lexes as its opening tag, its text characters and its closing tag |
| Comments.LexOpenLink | test/baselines/deprecated_objects_test.ts:52 | the opening link tag is read as one token, up to its `>` |
| Comments.LexCloseLink | test/baselines/deprecated_objects_test.ts:52 | `</a>` is read as one closing tag |
| Comments.MarkupOkIff | test/ts/class_test.ts:215-237 | the markup succeeds exactly when every tag is `a` or `br` |
| Comments.MarkupNamesFirstBadTag | test/ts/class_test.ts:215-237 | the error names the first tag off the allow-list |
| Comments.LinkBecomesReference | test/baselines/deprecated_objects_test.ts:106 | a link with plain text becomes the text `{@link X Y}` |
| Comments.Lines | test/baselines/deprecated_objects_test.ts:111-113 | one more line than there are breaks, and the lines hold all the text in order |
| Comments.JoinWords | test/baselines/deprecated_objects_test.ts:106 | words joined by single spaces are tidy, start and end in a non-space, and keep every non-space character |
| Comments.WordsOfJoin | test/baselines/deprecated_objects_test.ts:106 | splitting words joined by single spaces gives the words back |
| Comments.WordsOfGap | test/baselines/deprecated_objects_test.ts:52 | a word, then any run of whitespace (a newline included), then more text splits into that word and the words of the rest |
| Comments.CollapseIsTidy | test/baselines/deprecated_objects_test.ts:106 | a collapsed line has single inner spaces, no spaces at its ends and the same non-space text |
| Comments.CollapseIdempotent | test/baselines/deprecated_objects_test.ts:106 | collapsing twice is collapsing once |
| Comments.DropLeadingBlank | test/baselines/deprecated_objects_test.ts:111-113 | drops exactly the blank lines at the start |
| Comments.DropTrailingBlank | test/baselines/deprecated_objects_test.ts:111-113 | drops exactly the blank lines at the end |
| Comments.SanitizeShape | test/ts/class_test.ts:215-237 | sanitising succeeds exactly when every tag is allowed; then every line is tidy and neither end line is blank |
| Comments.UnknownTagFails | test/ts/class_test.ts:215-237 | text, then a tag off the allow-list, fails naming that tag, whatever follows |
| Comments.LexTagAfterText | test/ts/class_test.ts:215-237 | text then a tag lexes as the text characters, the tag, then the rest |
| Comments.MarkupTagAfterText | test/ts/class_test.ts:215-237 | text then a tag off the allow-list fails naming that tag |
| Comments.TableIsRejected | test/ts/class_test.ts:224-237 | "Hello World. <table>…" fails with UnknownTag("table") |
| Comments.LinkAfterText | test/baselines/deprecated_objects_test.ts:52 | text then a link is one collapsed line ending in `{@link X Y}` |
| Comments.BreakThenLink | test/baselines/deprecated_objects_test.ts:58 | text, `<br/>`, then a link gives two lines: the text, then `{@link X Y}` |
| CommentExamples.NamesComment | test/baselines/deprecated_objects_test.ts:52 | the `names` comment sanitises to the one line `Names are great! {@link X Y}` (shown at line 106) |
| CommentExamples.Names2Comment | test/baselines/deprecated_objects_test.ts:58 | the `names2` comment sanitises to `Names are great!` and `{@link X Y}` (shown at lines 112-113) |
| CommentExamples.ThreeWords | test/baselines/deprecated_objects_test.ts:52 | three words, single spaces, then whitespace split into those words and the words of the rest |
| CommentExamples.TextLine | test/baselines/deprecated_objects_test.ts:58 | three words and trailing whitespace collapse to the three words on one line |
| Declarations.FieldIds | test/baselines/deprecated_objects_test.ts:103-117 | a class's fields are exactly the shown properties naming it in their domain, in key order, each once when the properties are declared once |
| Declarations.FieldsOf | test/baselines/deprecated_objects_test.ts:103-117 | succeeds exactly when every field builds; then one field per property, in order |
| Declarations.ClassDocOf | test/ts/class_test.ts:179-213 | fails exactly when the comment fails; the comment lines come first, one line longer exactly when deprecated |
| Declarations.RegularDecls | test/ts/class_test.ts:74-113 | fails exactly when the class comment or a field fails, with the class comment checked first; on success two or three declarations, the last exporting the class |
| Declarations.PrimitiveDecls | test/baselines/sorted_proptypes_test.ts:66-80 | fails exactly when the comment fails; one declaration, or two for an enumeration, the first exporting the datatype with its documentation |
| Declarations.UnionDecls | test/ts/class_test.ts:327-338 | fails exactly when the comment fails; one exported union with the class's documentation and one member per shown datatype |
| Declarations.EmissionOrder | test/baselines/deprecated_objects_test.ts:83-132 | sorted canonically; holds exactly the shown classes with their kinds; each once when the classes are declared once |
| Declarations.Emit | test/baselines/deprecated_objects_test.ts:83-132 | succeeds exactly when every emitted class builds; then one block per emitted class |
| Declarations.EntitiesWhere | test/baselines/deprecated_objects_test.ts:83-132 | in canonical order; holds exactly the declared classes that satisfy the filter, each once when the classes are declared once |
| Declarations.EmitEach | test/baselines/deprecated_objects_test.ts:83-132 | succeeds exactly when every entity builds; then one block per entity, in order |
| Declarations.BaseRule | test/ts/class_test.ts:74-113 | an own base exists unless there is exactly one parent and no field; the leaf tags the class and sits on the own or the parent's base |
| Declarations.OwnBaseRule | test/ts/class_test.ts:100-113 | an own base intersects the bare id reference (no parent) or every parent's base, then the fields if any |
| Declarations.FieldOfRule | test/baselines/sorted_proptypes_test.ts:83 | a field's range is the property's range in key order; its doc is the comment and the notice |
| Declarations.FieldsRule | test/baselines/deprecated_objects_test.ts:103-117 | the fields are in key order, are exactly the class's shown properties, each that property's field, and name each property once |
| Declarations.ExportedRule | test/baselines/deprecated_objects_test.ts:118-132 | only the last declaration is exported; it carries the class doc and is the leaf or any direct subclass, in canonical order, each subclass once |
| Declarations.DataTypeRule | test/baselines/sorted_proptypes_test.ts:66-80 | a datatype is its host type; with members, the host type or any member IRI, plus a value map of name to IRI in member order |
| Declarations.DataTypeUnionRule | test/ts/class_test.ts:327-338 | the DataType class is the union of every shown datatype, in canonical order, each once |
| Declarations.MarkupCheckedLazily | test/ts/class_test.ts:215-237 | recording a `<table>` comment succeeds and applies; building the class's declarations then fails with UnknownTag("table") |
| Declarations.FieldIgnoresRangeOrder | test/baselines/sorted_proptypes_test.ts:27-32 | a field does not depend on the order the range facts arrived in |
| Declarations.EmissionOrderRule | test/baselines/deprecated_objects_test.ts:83-132 | blocks come in canonical order, datatypes before classes, exactly one per shown class; deprecated ones are dropped when excluded |
| Declarations.Exports | test/baselines/deprecated_objects_test.ts:83-132 | every class that builds exports itself |
| Declarations.EmitRule | test/baselines/deprecated_objects_test.ts:83-132 | one block per emitted entity, in emission order, each exporting its entity |
| Declarations.DataTypeNamesAscend | test/baselines/sorted_proptypes_test.ts:66-80 | Boolean < Date < DateTime < Number < Text < Time by name |
| Declarations.SixInKeyOrder | test/baselines/sorted_proptypes_test.ts:27-32 | six identifiers in key order are sorted into it from the order the facts gave |
| Declarations.RangeInKeyOrder | test/baselines/sorted_proptypes_test.ts:83 | the range Time, Date, Boolean, DateTime, Number, Text becomes Boolean, Date, DateTime, Number, Text, Time |
| Compiler.Compile | test/baselines/deprecated_objects_test.ts:24-68 | building then emitting gives the specified compilation, with one block per emitted entity |
| Compiler.EmittedOnce | test/baselines/deprecated_objects_test.ts:83-132 | after a successful ingestion, no class is emitted twice, and no field list or subclass union repeats an entry |
| Compiler.DomainFactMakesField | test/baselines/deprecated_objects_test.ts:36-38 | a class has a field for a property exactly when that property is shown and some fact puts the class in its domain |
| Compiler.EnumerationInDiscoveryOrder | test/baselines/sorted_proptypes_test.ts:48-70 | the value map lists each individual typed with the datatype once, in the order the facts typed them; with none, the datatype is its host type |

## Left out

- Reading N-Triples text is not modelled; facts arrive as structured triples. Neither is the command line, the file reading and writing, or the stream plumbing around a run (test/baseline_test.ts).
- The TypeScript printer, whitespace, and the choice between `interface … extends` and `type … &` are left out. Declarations are abstract syntax.
- The fixed preamble (`WithContext`, `Graph`, `SchemaValue`, `IdReference`) is constant text and is left out.
- The host type of each datatype (`string`, `number`, `true | false`, …) is a parameter of the configuration. It depends on settings the tests do not show.
- Whether deprecated entities are emitted is a boolean in the configuration. The command-line option that sets it is not modelled.
- Rewriting `http://schema.org` to `https://schema.org` in enumeration literals is not modelled. It depends on URL context settings the tests do not show. The model keeps each IRI as the facts give it.
- Expanding a datatype-union member of a range into its datatypes is left out; the tests do not exercise it.
- A regular class with typed individuals is not turned into an enumeration. Only datatypes collect members here.
- A parent's base is referred to by name. How inherited fields resolve through it belongs to the printer and the type checker.
- Names compare by code point, which agrees with JavaScript's UTF-16 code-unit order below U+10000. Above it the two can differ: U+1D400 sorts after U+FF21 here, but before it in JavaScript, whose first code unit for it is 0xD835. Locale collation is not modelled.
- Facts carry identifiers whose local names are already split off. Only the entity constructors of `EntityOrder` parse an IRI, so the sort examples start from IRI text.
- Iri.CompareKeys: states only the range of its answer; CompareKeysZeroIffSame, CompareKeysAntisymmetric and CompareKeysTransitive state the order it defines.
- Comments.Lex: states the token count bound and the plain-text case; ParseTagName, LexLink and LexTagAfterText give the tokens for the tag forms the tests use.
- Comments.Markup: states what an error names; MarkupOkIff and LinkBecomesReference state the success cases.
- Comments.Href: reads only an `href` attribute written first in an `a` tag, as the tests use it. Other attributes or orders give a link with no target.
- Comments.SanitizeShape: states the shape of the lines (tidy, no blank end lines) rather than their exact text. LinkAfterText and BreakThenLink give the exact text for the forms the tests use.
- Deprecation.ClassNotice: joins any number of replacements with " or ". The tests show at most two, and nothing pins a list of three.
- Declarations.EmitRule: states that each block exports its entity. The full shape of each block is stated per kind by BaseRule, FieldsRule, ExportedRule, DataTypeRule and DataTypeUnionRule.
