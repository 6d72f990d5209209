# cc-scholarship-graph: a Dafny model of the citation and profile core

The Colorado College scholarship graph keeps the faculty's scholarly works and
research profiles as RDF. This project models the deterministic core around
that graph and proves properties of the model:

- **The citation subgraph** (`citation_graph.dfy`, module `CitationGraph`).
  `EmailProfile` adds a submitted article, book or book chapter to its graph
  one triple at a time. The model covers:
  - the precedence that picks the work's IRI;
  - the dispatch on the citation type;
  - the journal → volume → issue `schema:partOf` chain;
  - the FAST subject triples that `update_profile` adds.

  A graph is a set of triples. `rdflib.BNode()` is a fresh-name oracle (a
  counter of minted blank nodes), and `Valid()` says that every blank node in
  the graph was minted by the profile.
- **Profile synchronisation** (`profile_sync.dfy`, module `ProfileSync`).
  `ProfileUpdate` brings the research statements and the FAST subjects in
  line with an edited profile graph:
  - it syncs the set of `schema:about` subjects of the person's statement;
  - it replaces the statement's description.
- **Identifiers** (`identifiers.dfy`, module `Identifiers`).
  - The path of the current academic year's graph file.
  - The normalisation of submitted FAST headings `id==label` into IRIs.
- **Display filters and the citation dictionary** (`filters.dfy`, module
  `Filters`):
  - the Jinja filters of the web application;
  - the home-page statistics, with Python's `"{:,}"` number formatting;
  - the `raw_citation` dictionary that `add_work` builds.
- **Author lookup** (`author_lookup.dfy`, module `AuthorLookup`): the first
  person in a people graph whose label contains a string, as SPARQL's
  `CONTAINS` decides (section 17.4.3.8 of the SPARQL 1.1 Query Language).

Supporting modules:
- `rdf.dfy`: nodes, triples and the rdflib lookups the code uses.
- `text.dfy`: substring search, split and join, decimal and thousands-grouped
  numerals, ASCII lower-casing.
- `wrappers.dfy`: `Option` and `Result`.

Python exceptions become `Failure` values. Examples are a `KeyError` from
`row[key]`, the `ValueError` of a row that does not split in two, `abort(500)`
in `add_work`, the unbound `work_form` in `add_work`, and rdflib's refusal to
add a triple whose subject is None. `__populate_work__` also calls
`abort(500)` for an unsupported type, but profiles.py imports only
`current_app` from flask, so there the call raises a NameError; its error is
`CitationGraph.UnsupportedCitationType`.

rdflib's `graph.value(...)` returns some matching node when several match,
and which one is not specified. The model writes it as a method that may
choose any of them (`Rdf.SubjectOf`, `Rdf.ObjectOf`). The class methods
return the nodes chosen, so their postconditions can speak about them.

## Model

| member | source | states |
|---|---|---|
| Rdf.Objects | scholarship_graph/profiles.py:238-245 | `graph.objects(s, p)` is the set of objects of the triples that fit the pattern, with a None subject as a wildcard |
| Rdf.ObjectsOfSubject | scholarship_graph/profiles.py:238-240 | with the subject given, an object is found exactly when its triple is in the graph |
| Rdf.RemovePattern | scholarship_graph/profiles.py:280-282 | `graph.remove` keeps exactly the triples that do not fit the pattern, and nothing is added |
| Rdf.SubjectOf | scholarship_graph/profiles.py:235-237 | `value(predicate, object)` gives a subject of a matching triple, and None exactly when there is none |
| Rdf.ObjectOf | scholarship_graph/profiles.py:272-277 | `value(subject, predicate)` gives an object of a matching triple; it gives None when there is none, and also when the subject is None, since two positions are then unbound |
| Text.Contains | utilities.py:12 | true exactly when the lookup text occurs at some index of the label |
| Text.Split | scholarship_graph/profiles.py:840 | `str.split(sep)` always gives at least one piece |
| Text.SplitPiecesAvoidSeparator | scholarship_graph/profiles.py:840 | the string is cut at every occurrence of the separator: no piece contains it |
| Text.SplitJoin | scholarship_graph/profiles.py:840 | joining the pieces of a split with the separator gives the string back |
| Text.NatToString | scholarship_graph/profiles.py:53-54 | `str(n)` is a non-empty string of digits |
| Text.ParseNatToString | scholarship_graph/profiles.py:53-54 | parsing the rendering of a number gives the number back, so different years give different paths |
| Text.GroupThousandsDigits | scholarship_graph/app.py:185 | deleting the commas from `"{:,}".format(n)` leaves exactly `str(n)` |
| Text.GroupThousandsWellGrouped | scholarship_graph/app.py:185 | the grouped numeral starts with a digit, and each comma is followed by exactly three digits and then a comma or the end; no four digits are in a row |
| Text.Lower | scholarship_graph/app.py:169 | lower-casing keeps the length and maps each character on its own |
| Identifiers.StartYear | scholarship_graph/profiles.py:46-52 | the academic year that starts in July of the result is the one holding the date, and it is the only such year |
| Identifiers.AcademicYearPathRoundTrip | scholarship_graph/profiles.py:46-54 | the path is `/KnowledgeGraph/cc-S-E.ttl` and reads back as the start year and start year + 1 |
| Identifiers.FastIri | scholarship_graph/profiles.py:841-844 | an id starting with `http` is kept; any other id becomes the FAST base IRI followed by `id[3:]` |
| Identifiers.FastIriNormalises | scholarship_graph/profiles.py:1017-1020 | every id becomes an `http` IRI, and normalising again changes nothing |
| Identifiers.FastIriOfNumber | scholarship_graph/profiles.py:1020 | `fst` + digits becomes the FAST base IRI + digits |
| Identifiers.ParseSubjectRow | scholarship_graph/profiles.py:840 | a parsed row is `id + "==" + label`; a failure never reports two pieces |
| Identifiers.ParseSubjectRowPieces | scholarship_graph/profiles.py:840 | a row parses exactly when `split("==")` gives two pieces; otherwise the error carries the number of pieces |
| Identifiers.ParseSubjectRowBare | scholarship_graph/profiles.py:840 | a bare id with no `=`, such as `fst01234`, is one piece and raises the unpacking error |
| Identifiers.ParseSubjectRowThreePieces | scholarship_graph/profiles.py:840 | a row `a==b==c` is three pieces and raises the unpacking error |
| Identifiers.ParseSubjectRowOfPair | scholarship_graph/profiles.py:840 | a row built from an id and a label without `=` parses back into them |
| Identifiers.FirstUnparsed | scholarship_graph/profiles.py:1015-1016 | the index of the first row that raises lies between the start and the number of rows |
| Identifiers.FirstUnparsedSpec | scholarship_graph/profiles.py:1015-1016 | every row before that index parses, and the row at it does not |
| Identifiers.SubjectMapFails | scholarship_graph/profiles.py:839-840 | the dictionary loop raises exactly when some row does not parse |
| Identifiers.SubjectMapStep | scholarship_graph/profiles.py:839-845 | proof helper: a row's label is recorded under its IRI on top of the dictionary of the rows before it |
| Identifiers.SubjectMapKeys | scholarship_graph/profiles.py:839-845 | every row's IRI is a key of the dictionary |
| Identifiers.SubjectMapLastWins | scholarship_graph/profiles.py:845 | duplicate IRIs collapse to one key, which holds the label of the last row with that IRI |
| Identifiers.SubjectMapFailureStays | scholarship_graph/profiles.py:839-840 | once a row raises, the loop's result is that failure |
| Identifiers.NormaliseSubjects | scholarship_graph/profiles.py:837-845 | the `new_subjects` loop computes the dictionary fold, or the same failure |
| CitationGraph.WorkIri | scholarship_graph/profiles.py:448-456 | a non-empty form IRI wins, else a filled DOI, else `http://catalog.coloradocollege.edu/` + uuid |
| CitationGraph.ChapterBeforeBook | scholarship_graph/profiles.py:489-497 | a `book chapter` type also starts with `book`, yet it is dispatched as a chapter |
| CitationGraph.HyphenatedChapterIsBook | scholarship_graph/profiles.py:491-497 | the `book-chapter` type that `add_work` tests for is a plain book here |
| CitationGraph.PartOfTargets | scholarship_graph/profiles.py:384-404 | the `schema:partOf` targets of a node are the objects of its `partOf` triples |
| CitationGraph.VolumePartOf | scholarship_graph/profiles.py:378-384 | the volume triples hold one `partOf` edge, from the volume to the journal, and only when a volume number is given |
| CitationGraph.IssuePartOf | scholarship_graph/profiles.py:385-398 | the issue triples hold one `partOf` edge, from the issue to the volume if any and otherwise to the journal |
| CitationGraph.ArticlePartOf | scholarship_graph/profiles.py:378-404 | the article subgraph's `partOf` edges, node by node, are the work's container edge, the volume's edge and the issue's edge, and no other |
| CitationGraph.ArticleContainerEdge | scholarship_graph/profiles.py:385-404 | the work is part of exactly one node: the issue if an issue number is given, else the volume if a volume number is given, else the journal, with the matching schema type |
| CitationGraph.ArticleChain | scholarship_graph/profiles.py:378-398 | the volume is part of the journal only; the issue is part of the volume, or of the journal when there is no volume; the journal is part of nothing |
| CitationGraph.FreshJournalIsTop | scholarship_graph/profiles.py:372-373 | the freshly minted journal is part of nothing, even in the whole profile graph |
| CitationGraph.MintedIsFresh | scholarship_graph/profiles.py:372 | a blank node not yet minted occurs in no triple of a valid graph |
| CitationGraph.BookHasNoPartOf | scholarship_graph/profiles.py:411-439 | the book fields contain no `partOf` edge |
| CitationGraph.WorkPartOfIsKindPartOf | scholarship_graph/profiles.py:457-488 | the common triples add no `partOf` edge, so the work's containers are those of the dispatch |
| CitationGraph.ChapterPartOf | scholarship_graph/profiles.py:491-495 | a chapter is part of exactly the fresh book node |
| CitationGraph.WorkPartOfEdges | scholarship_graph/profiles.py:489-499 | an article has its one container; a chapter is typed Chapter and part of one fresh book that carries the book fields; a book carries the fields itself and is part of nothing; an unsupported type adds no edge |
| CitationGraph.SubjectTriplesAbout | scholarship_graph/profiles.py:1015-1025 | the statement is about every submitted subject |
| CitationGraph.SubjectTriplesPredicates | scholarship_graph/profiles.py:1021-1033 | the subject rows add only about, type and label triples |
| CitationGraph.SubjectTriplesStep | scholarship_graph/profiles.py:1021-1033 | proof helper: each parsed row adds its about triple, its `bf:Topic` type and its English label |
| CitationGraph.ArticleKeepsValid | scholarship_graph/profiles.py:372-399 | the article subgraph mentions only blank nodes minted while building it |
| CitationGraph.BookKeepsValid | scholarship_graph/profiles.py:411-439 | the book fields keep the graph valid |
| CitationGraph.WorkKeepsValid | scholarship_graph/profiles.py:442-503 | populating a work keeps every blank node below the mint counter |
| CitationGraph.SubjectsKeepValid | scholarship_graph/profiles.py:1013-1033 | the subject rows keep the graph valid |
| CitationGraph.EmailProfile.MintBNode | scholarship_graph/profiles.py:372 | `rdflib.BNode()` hands out the next unused name, and the graph stays valid with the advanced counter |
| CitationGraph.EmailProfile.AddArticle | scholarship_graph/profiles.py:351-409 | the graph grows by exactly the article triples, and one, two or three blank nodes are minted; every blank node stays below the counter |
| CitationGraph.EmailProfile.AddBook | scholarship_graph/profiles.py:411-439 | the graph grows by exactly the book triples, each optional field only when given; every blank node stays below the counter |
| CitationGraph.EmailProfile.AddCommonTriples | scholarship_graph/profiles.py:457-488 | date, author string, type, author, URL and abstract are added; the profile's person becomes the form author, else the generating person; every blank node stays below the counter |
| CitationGraph.EmailProfile.AddKindTriples | scholarship_graph/profiles.py:489-499 | the dispatch adds the triples of the selected kind, and reports an unsupported type; the chapter's book node is fresh and every blank node stays below the counter |
| CitationGraph.EmailProfile.PopulateWork | scholarship_graph/profiles.py:442-504 | returns the work IRI, or fails for an unsupported type after the common triples (the `abort(500)` there raises a NameError); the graph grows by exactly the work triples and every blank node stays below the counter |
| CitationGraph.EmailProfile.AddSubjectRows | scholarship_graph/profiles.py:1013-1033 | the rows before the first that raises are added, each with its three triples; the failing row and its error are reported; every blank node stays below the counter |
| ProfileSync.AboutTriples | scholarship_graph/profiles.py:246-254 | the about triples of a statement are exactly those to the given subjects |
| ProfileSync.SyncAboutMatchesProfile | scholarship_graph/profiles.py:246-254 | after the sync the statement is about exactly the profile's subjects, and every other triple is unchanged |
| ProfileSync.SyncAboutIdempotent | scholarship_graph/profiles.py:246-254 | syncing twice is syncing once |
| ProfileSync.TopicTypes | scholarship_graph/profiles.py:255-257 | the added subjects, and only they, are typed `bf:Topic` |
| ProfileSync.LabelTriples | scholarship_graph/profiles.py:258-263 | a label triple exists exactly for each chosen label |
| ProfileSync.ChosenLabelsStep | scholarship_graph/profiles.py:258-263 | proof helper: a new subject gets a label exactly when the profile has one, and the label is one of the profile's |
| ProfileSync.FastSubjectsStep | scholarship_graph/profiles.py:255-263 | proof helper: adding a subject's type and its optional label extends the FAST subjects by that subject |
| ProfileSync.RemoveStep | scholarship_graph/profiles.py:246-249 | proof helper: removing one subject triple more |
| ProfileSync.AddStep | scholarship_graph/profiles.py:250-254 | proof helper: adding one subject triple more |
| ProfileSync.AddSubjectStep | scholarship_graph/profiles.py:250-263 | proof helper: one pass of the add loop keeps what it has added so far in line with the subjects done |
| ProfileSync.RemoveSubjects | scholarship_graph/profiles.py:246-249 | the remove loop deletes exactly the about triples of the dropped subjects |
| ProfileSync.AddSubjects | scholarship_graph/profiles.py:250-263 | the add loop adds the about triples and the topic types of the new subjects, and labels exactly the labelled ones |
| ProfileSync.DescriptionUpdateSets | scholarship_graph/profiles.py:278-285 | when the statement had at most the one description that was looked up, an update leaves it with exactly the new description; without an update nothing changes; no other triple changes |
| ProfileSync.DescriptionUpdateSettles | scholarship_graph/profiles.py:278-285 | updating again from the new description changes nothing |
| ProfileSync.WildcardAboutSync | scholarship_graph/profiles.py:235-257 | the code as written for a person without a statement raises exactly when the profile has a subject that no statement has; otherwise it keeps every triple except the about triples, of any statement, to a subject the profile lacks |
| ProfileSync.DropObjects | scholarship_graph/profiles.py:246-249 | `remove((None, p, o))` for each `o` deletes those objects from every subject |
| ProfileSync.WildcardSyncDropsOtherSubjects | scholarship_graph/profiles.py:235-249 | another person's statement loses its subject in the code as written |
| ProfileSync.ProfileUpdate.UpdateFastSubjects | scholarship_graph/profiles.py:233-263 | the research statements become the synced graph and the FAST subjects grow by the new subjects' types and chosen labels; a person without a statement changes nothing |
| ProfileSync.ProfileUpdate.UpdateResearchStatements | scholarship_graph/profiles.py:268-285 | the research statements become the description update of the looked-up values; a person without a statement changes nothing |
| Filters.Get | scholarship_graph/app.py:632 | `row[key]` gives the bound value, or a KeyError naming the key |
| Filters.VolumeIssueCases | scholarship_graph/app.py:644-656 | `v.V no.I`, `v.V`, `no.I` or `""`, depending on which of the two is given |
| Filters.VolumeIssueShape | scholarship_graph/app.py:649-656 | empty exactly when neither is given; starts with `v.` exactly when a volume is given |
| Filters.PageNumberCases | scholarship_graph/app.py:663-673 | `p.S-E.`, `p.S.`, `-E.` or `""` |
| Filters.PageNumberShape | scholarship_graph/app.py:667-673 | empty exactly when neither page is given, and otherwise ends with `.` |
| Filters.BookEdition | scholarship_graph/app.py:690-695 | `<ed> ed. ` exactly when a non-empty edition is given, else `""` |
| Filters.BookTitleCases | scholarship_graph/app.py:678-686 | a catalogue book is a link around its title; any other book is its bare title; a missing title raises, and then a missing book |
| Filters.ArticleLinkCases | scholarship_graph/app.py:632-637 | an `http` URL gives a link around the name, any other URL the bare name; a missing URL raises, and then a missing name |
| Filters.ArticleLinkShowsName | scholarship_graph/app.py:632-637 | whatever the URL, the text shown contains the article's name |
| Filters.ExtractIri | scholarship_graph/app.py:158-164 | the article IRI is preferred over the book over the person, and `''` is returned when none is present |
| Filters.StatisticQueryIgnoresCase | scholarship_graph/app.py:169 | the statistic name is case-insensitive |
| Filters.StatisticQueryByName | scholarship_graph/app.py:169-181 | a name selects a count exactly when, lower-cased, it starts with that count's prefix |
| Filters.StatisticQueryUnknown | scholarship_graph/app.py:169-183 | a name selects no query exactly when it starts with none of the six prefixes |
| Filters.GenerateStatistic | scholarship_graph/app.py:168-185 | there is a text exactly when the name is known and the query has rows |
| Filters.GenerateStatisticDigits | scholarship_graph/app.py:184-185 | the text is the count's digits, thousands-grouped with commas |
| Filters.CitationOfEntries | scholarship_graph/app.py:542-569 | each key holds what the key-by-key rules say: type, author and year always; article fields only when given; `number` for the issue and `link` for the URL; no title for `book-chapter` |
| Filters.BuildRawCitation | scholarship_graph/app.py:534-569 | a type starting with neither `article` nor `book` fails; otherwise the dictionary is the one those rules describe |
| AuthorLookup.FirstSolution | utilities.py:17-18 | the index of the first solution, and none when there is none |
| AuthorLookup.Lookup | utilities.py:6-19 | the result is the person of a solution with no solution before it; None exactly when there is no solution |
| AuthorLookup.LookupIsPerson | utilities.py:8-13 | a result is typed `bf:Person` and has a label that contains the lookup text |
| AuthorLookup.LookupIsCaseSensitive | utilities.py:12 | `smith` does not find a person labelled `Smith`, but `Smith` does |

## Left out

- GitHub and triplestore I/O, graph hashing and serialisation are not modelled. The two graphs of `ProfileUpdate` and the people graph of the author lookup are parameters.
- Sending email and the threads that run the updates are not modelled; the two update methods run as plain sequential operations.
- Flask routes, LDAP login, WTForms validation (`work_form.validate()`) and the SPARQL query templates are not modelled. The datastore's counts are a function parameter of `Filters.GenerateStatistic`.
- `CitationGraph.EmailProfile.PopulateWork`: does not add the generation triples of `add_qualified_generation` (profiles.py:464), which is not part of this model because it is not among the source files.
- `__reconcile_article__`, `generate_citation_html` and the entry points `add_creative_work`, `add_profile`, `update_profile` and `edit_creative_work` are not modelled as wholes. Only the FAST-normalisation loops of `add_profile` and `update_profile` are. The second loop of `add_profile`, which writes `new_subjects` to the graph, is left out with them.
- `uuid.uuid1()` and `datetime.utcnow()` are parameters: a uuid string, and a year and month.
- `CitationGraph.WorkForm` stands for both ArticleForm and BookForm: fields that one form lacks are None.
- `CitationGraph.WorkForm`: None in `doi`, `author` or `url` means the field is absent from the form. A field that is present with `.data` None is not modelled, and neither is an `iri` whose `.data` is None: `len(None)` at profiles.py:448, 451, 471 and 481 would raise a TypeError. In `Filters.BuildRawCitation` the same None stands for `.data` None, which `add_work` copies into the citation.
- The EmailProfile methods add their triples to a copy of the graph, in the order of the code, and store it once at the end. Aliasing of the graph during an operation is not modelled.
- `Text.Lower` lower-cases ASCII letters only; Python's `str.lower` also folds other scripts.
- `Filters.GenerateStatistic` takes the counts as integers. The `int(...)` conversion of the datastore's string is left to the datastore parameter.
- `Filters.BuildRawCitation`: the dictionary is a record with one optional field per key rather than a string-keyed map; `Filters.KeyName` gives each key's string.
- `Filters.BuildRawCitation`: the validation failure branch of `add_work` and the call to the ingestion engine are not modelled.
- `AuthorLookup.Lookup`: requires a lookup string without `"`, `\` or line breaks. The code splices the string unescaped into the query, so any other string changes the query text itself, and the model does not give its meaning. The query's `bf:` prefix is taken to be bound in the people graph.
- `AuthorLookup.Lookup`: the order in which the query engine returns solutions is the order of the triples given; which person is first among several is otherwise unspecified.
- "book chapter" versus "book-chapter": `__populate_work__` tests for `book chapter` and `add_work` for `book-chapter`. Which one the forms send cannot be determined from the source, so both are modelled as written; `CitationGraph.HyphenatedChapterIsBook` records the consequence.

## Findings

| source | as written | input that shows it | evidently intended | confidence | as-written member | corrected member |
|---|---|---|---|---|---|---|
| scholarship_graph/profiles.py:235-257 | When the person has no statement in the research statements, the lookup returns None, which rdflib reads as a wildcard. Every subject the edited profile lacks is then removed from every statement, and a subject to add makes `graph.add((None, ...))` raise. | research statements `{(statement-2, accountablePerson, person-2), (statement-2, about, subject-x)}` and an empty profile graph: statement-2 loses subject-x | a person without a statement changes nothing | not executed | ProfileSync.WildcardSyncDropsOtherSubjects | ProfileSync.ProfileUpdate.UpdateFastSubjects |
