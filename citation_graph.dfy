/** The citation subgraph an EmailProfile builds for a submitted work
    (profiles.py:351-504), and the FAST subject triples update_profile adds
    to it (profiles.py:1013-1033). */
module CitationGraph {
  import opened Wrappers
  import opened Rdf
  import Text
  import Identifiers

  /** The values of a submitted ArticleForm or BookForm. A field that the
      code tests with `!= None` is an Option; `doi`, `author` and `url`,
      which it first tests with `in work_form`, are None when the form has
      no such field. */
  datatype WorkForm = WorkForm(
    iri: string,
    doi: Option<string>,
    datePublished: string,
    authorString: string,
    citationType: string,
    author: Option<string>,
    url: Option<string>,
    abstractText: Option<string>,
    articleTitle: string,
    journalTitle: string,
    pageStart: Option<string>,
    pageEnd: Option<string>,
    volumeNumber: Option<string>,
    issueNumber: Option<string>,
    month: Option<string>,
    bookTitle: string,
    isbn: Option<string>,
    editionStatement: Option<string>,
    editor: Option<string>,
    provisionActivityStatement: Option<string>,
    notes: Option<string>)

  const CatalogBase := "http://catalog.coloradocollege.edu/"

  /** A form field that is present and not empty, as `"f" in work_form and len(work_form.f.data) > 0`. */
  predicate Filled(field: Option<string>) {
    field.Some? && |field.value| > 0
  }

  /** Python truthiness of an rdflib term: every term is a string, and only the empty one is false. */
  predicate Truthy(n: Option<Node>) {
    n.Some? && |Str(n.value)| > 0
  }

  /** The IRI of the work: the form's IRI when it is not empty, else its DOI
      when that is filled, else a catalog IRI minted from `uuid`. */
  function WorkIri(form: WorkForm, uuid: string): (r: Node)
    ensures r.IRI?
    ensures |form.iri| > 0 ==> r.iri == form.iri
    ensures |form.iri| == 0 && Filled(form.doi) ==> r.iri == form.doi.value
    ensures |form.iri| == 0 && !Filled(form.doi) ==>
              Text.StartsWith(r.iri, CatalogBase) && r.iri[|CatalogBase|..] == uuid
  {
    if |form.iri| > 0 then IRI(form.iri)
    else if Filled(form.doi) then IRI(form.doi.value)
    else IRI(CatalogBase + uuid)
  }

  /** Which subgraph a citation type selects, tested in the code's order. */
  datatype Kind = ArticleKind | ChapterKind | BookKind | Unsupported

  function KindOf(citationType: string): Kind {
    if Text.StartsWith(citationType, "article") then ArticleKind
    else if Text.StartsWith(citationType, "book chapter") then ChapterKind
    else if Text.StartsWith(citationType, "book") then BookKind
    else Unsupported
  }

  /** The "book chapter" test comes before the "book" test, so a chapter is
      never treated as a book, although its type also starts with "book". */
  lemma ChapterBeforeBook(citationType: string)
    requires Text.StartsWith(citationType, "book chapter")
    ensures Text.StartsWith(citationType, "book")
    ensures KindOf(citationType) == ChapterKind
  {
    assert citationType[..4] == citationType[..12][..4];
    assert citationType[0] == 'b' != "article"[0];
  }

  /** The hyphenated type that add_work in app.py tests for is not a chapter
      here: it starts with "book" but not with "book chapter". */
  lemma HyphenatedChapterIsBook()
    ensures KindOf("book-chapter") == BookKind
  {
    assert "book-chapter"[..12][4] == '-';
  }

  // ---------------------------------------------------------------------
  // Specification of the triples each operation adds. `m` is the number of
  // blank nodes the profile had minted when the operation started.

  /** A triple with a plain literal, present only when the field is not None. */
  function OptTriple(s: Node, p: Node, field: Option<string>): Graph {
    if field.Some? then {Triple(s, p, Lit(field.value))} else {}
  }

  function JournalNode(m: nat): Node { BNode(m) }

  function VolumeNode(m: nat): Node { BNode(m + 1) }

  function IssueNode(form: WorkForm, m: nat): Node {
    if form.volumeNumber.Some? then BNode(m + 2) else BNode(m + 1)
  }

  /** What the issue node is part of: the volume when there is one, else the journal. */
  function IssueParent(form: WorkForm, m: nat): Node {
    if form.volumeNumber.Some? then VolumeNode(m) else JournalNode(m)
  }

  /** The one node an article is part of: the issue, else the volume, else the journal. */
  function Container(form: WorkForm, m: nat): Node {
    if form.issueNumber.Some? then IssueNode(form, m)
    else if form.volumeNumber.Some? then VolumeNode(m)
    else JournalNode(m)
  }

  /** How many blank nodes the article subgraph mints. */
  function ArticleMints(form: WorkForm): nat {
    1 + (if form.volumeNumber.Some? then 1 else 0) + (if form.issueNumber.Some? then 1 else 0)
  }

  function VolumeTriples(form: WorkForm, m: nat): Graph {
    if form.volumeNumber.Some? then
      {Triple(VolumeNode(m), RdfType, PublicationVolume),
       Triple(VolumeNode(m), VolumeNumber, Lit(form.volumeNumber.value)),
       Triple(VolumeNode(m), PartOf, JournalNode(m))}
    else {}
  }

  function IssueTriples(form: WorkForm, m: nat): Graph {
    if form.issueNumber.Some? then
      {Triple(IssueNode(form, m), RdfType, PublicationIssue),
       Triple(IssueNode(form, m), IssueNumber, Lit(form.issueNumber.value)),
       Triple(IssueNode(form, m), PartOf, IssueParent(form, m))}
    else {}
  }

  /** The first part of the article triples: its type, name, pages and journal. */
  function ArticleHead(work: Node, form: WorkForm, m: nat): Graph {
    {Triple(work, RdfType, ScholarlyArticle), Triple(work, SchemaName, Lit(form.articleTitle))}
    + OptTriple(work, PageStart, form.pageStart)
    + OptTriple(work, PageEnd, form.pageEnd)
    + {Triple(JournalNode(m), RdfType, Periodical), Triple(JournalNode(m), SchemaName, Lit(form.journalTitle))}
  }

  /** The triples `__add_article__` adds for `work`. */
  function ArticleTriples(work: Node, form: WorkForm, m: nat): Graph {
    ArticleHead(work, form, m)
    + VolumeTriples(form, m)
    + IssueTriples(form, m)
    + {Triple(work, PartOf, Container(form, m))}
    + OptTriple(work, CiteMonth, form.month)
  }

  /** The triples `__add_book__` adds for `book`. */
  function BookTriples(book: Node, form: WorkForm): Graph {
    {Triple(book, RdfType, Book), Triple(book, SchemaTitle, Lit(form.bookTitle))}
    + OptTriple(book, SchemaIsbn, form.isbn)
    + OptTriple(book, EditionStatement, form.editionStatement)
    + OptTriple(book, SchemaEditor, form.editor)
    + OptTriple(book, ProvisionActivityStatement, form.provisionActivityStatement)
    + OptTriple(book, SchemaDescription, form.notes)
  }

  /** The author edge: the form's author when filled, else the generating person when truthy. */
  function AuthorTriples(work: Node, form: WorkForm, generatedBy: Option<Node>): Graph {
    if Filled(form.author) then {Triple(work, SchemaAuthor, IRI(form.author.value))}
    else if Truthy(generatedBy) then {Triple(work, SchemaAuthor, generatedBy.value)}
    else {}
  }

  function UrlTriples(work: Node, form: WorkForm): Graph {
    if Filled(form.url) then {Triple(work, SchemaUrl, IRI(form.url.value))} else {}
  }

  /** What `__populate_work__` adds before it dispatches on the citation type. */
  function CommonTriples(work: Node, form: WorkForm, generatedBy: Option<Node>): Graph {
    {Triple(work, DataPublished, Lit(form.datePublished)),
     Triple(work, CiteAuthorString, Lit(form.authorString)),
     Triple(work, CiteCitationType, Lit(form.citationType))}
    + AuthorTriples(work, form, generatedBy)
    + UrlTriples(work, form)
    + OptTriple(work, SchemaAbout, form.abstractText)
  }

  /** What the dispatch on the citation type adds. */
  function KindTriples(work: Node, form: WorkForm, m: nat): Graph {
    match KindOf(form.citationType)
    case ArticleKind => ArticleTriples(work, form, m)
    case ChapterKind =>
      {Triple(work, RdfType, Chapter), Triple(work, PartOf, BNode(m))} + BookTriples(BNode(m), form)
    case BookKind => BookTriples(work, form)
    case Unsupported => {}
  }

  function KindMints(form: WorkForm): nat {
    match KindOf(form.citationType)
    case ArticleKind => ArticleMints(form)
    case ChapterKind => 1
    case BookKind => 0
    case Unsupported => 0
  }

  /** Everything `__populate_work__` adds for a form. */
  function WorkTriples(form: WorkForm, generatedBy: Option<Node>, uuid: string, m: nat): Graph {
    var work := WorkIri(form, uuid);
    CommonTriples(work, form, generatedBy) + KindTriples(work, form, m)
  }

  /** The profile's person after `__populate_work__`. */
  function NewPersonIri(form: WorkForm, generatedBy: Option<Node>, personIri: Option<Node>): Option<Node> {
    if Filled(form.author) then Some(IRI(form.author.value))
    else if Truthy(generatedBy) then generatedBy
    else personIri
  }

  /** The objects of the `schema:partOf` triples of `n`. */
  function PartOfTargets(g: Graph, n: Node): (r: set<Node>)
    ensures forall o :: o in r <==> Triple(n, PartOf, o) in g
  {
    set t | t in g && t.s == n && t.p == PartOf :: t.o
  }

  /** Every blank node in a triple was minted before `m`. */
  predicate NodeBelow(n: Node, m: nat) {
    n.BNode? ==> n.id < m
  }

  predicate TripleBelow(t: Triple, m: nat) {
    NodeBelow(t.s, m) && NodeBelow(t.p, m) && NodeBelow(t.o, m)
  }

  predicate GraphBelow(g: Graph, m: nat) {
    forall t :: t in g ==> TripleBelow(t, m)
  }

  // ---------------------------------------------------------------------
  // Properties of the specification.

  /** The `schema:partOf` targets of a union are those of its parts. */
  lemma PartOfUnion(a: Graph, b: Graph, n: Node)
    ensures PartOfTargets(a + b, n) == PartOfTargets(a, n) + PartOfTargets(b, n)
  {
  }

  /** A graph none of whose triples is a `schema:partOf` edge. */
  predicate NoPartOf(g: Graph) {
    forall t :: t in g ==> t.p != PartOf
  }

  lemma NoPartOfTargets(g: Graph, n: Node)
    requires NoPartOf(g)
    ensures PartOfTargets(g, n) == {}
  {
    forall o
      ensures o !in PartOfTargets(g, n)
    {
    }
  }

  /** A graph without `schema:partOf` edges plus one such edge from `s`. */
  lemma OneEdgeTargets(a: Graph, s: Node, o: Node, n: Node)
    requires NoPartOf(a)
    ensures PartOfTargets(a + {Triple(s, PartOf, o)}, n) == if n == s then {o} else {}
  {
    NoPartOfTargets(a, n);
    PartOfUnion(a, {Triple(s, PartOf, o)}, n);
    assert PartOfTargets({Triple(s, PartOf, o)}, n) == if n == s then {o} else {};
  }

  lemma VolumePartOf(form: WorkForm, m: nat, n: Node)
    ensures PartOfTargets(VolumeTriples(form, m), n)
         == if form.volumeNumber.Some? && n == VolumeNode(m) then {JournalNode(m)} else {}
  {
    if form.volumeNumber.Some? {
      var a: Graph := {Triple(VolumeNode(m), RdfType, PublicationVolume),
                       Triple(VolumeNode(m), VolumeNumber, Lit(form.volumeNumber.value))};
      assert VolumeTriples(form, m) == a + {Triple(VolumeNode(m), PartOf, JournalNode(m))};
      OneEdgeTargets(a, VolumeNode(m), JournalNode(m), n);
    } else {
      NoPartOfTargets({}, n);
    }
  }

  lemma IssuePartOf(form: WorkForm, m: nat, n: Node)
    ensures PartOfTargets(IssueTriples(form, m), n)
         == if form.issueNumber.Some? && n == IssueNode(form, m) then {IssueParent(form, m)} else {}
  {
    if form.issueNumber.Some? {
      var a: Graph := {Triple(IssueNode(form, m), RdfType, PublicationIssue),
                       Triple(IssueNode(form, m), IssueNumber, Lit(form.issueNumber.value))};
      assert IssueTriples(form, m) == a + {Triple(IssueNode(form, m), PartOf, IssueParent(form, m))};
      OneEdgeTargets(a, IssueNode(form, m), IssueParent(form, m), n);
    } else {
      NoPartOfTargets({}, n);
    }
  }

  /** The `schema:partOf` edges of the article subgraph, node by node: the
      work's container edge, the volume's edge to the journal and the issue's
      edge to its parent, and no other. */
  lemma ArticlePartOf(work: Node, form: WorkForm, m: nat, n: Node)
    ensures PartOfTargets(ArticleTriples(work, form, m), n)
         == (if n == work then {Container(form, m)} else {})
          + (if form.volumeNumber.Some? && n == VolumeNode(m) then {JournalNode(m)} else {})
          + (if form.issueNumber.Some? && n == IssueNode(form, m) then {IssueParent(form, m)} else {})
  {
    var head := ArticleHead(work, form, m) + OptTriple(work, CiteMonth, form.month);
    var vol := VolumeTriples(form, m);
    var iss := IssueTriples(form, m);
    var edge: Graph := {Triple(work, PartOf, Container(form, m))};
    ArticleRegroup(work, form, m);
    ArticleHeadNoPartOf(work, form, m);
    OneEdgeTargets(head, work, Container(form, m), n);
    VolumePartOf(form, m, n);
    IssuePartOf(form, m, n);
    PartOfUnion(vol, iss, n);
    PartOfUnion(head + edge, vol + iss, n);
  }

  lemma ArticleHeadNoPartOf(work: Node, form: WorkForm, m: nat)
    ensures NoPartOf(ArticleHead(work, form, m) + OptTriple(work, CiteMonth, form.month))
  {
  }

  /** The article triples with the `schema:partOf` edges gathered at the end. */
  lemma ArticleRegroup(work: Node, form: WorkForm, m: nat)
    ensures ArticleTriples(work, form, m)
         == ArticleHead(work, form, m) + OptTriple(work, CiteMonth, form.month)
          + {Triple(work, PartOf, Container(form, m))}
          + (VolumeTriples(form, m) + IssueTriples(form, m))
  {
  }

  /** An article gets exactly one container edge: to the issue when an issue
      number is given, else to the volume, else to the journal; and the
      container is typed accordingly. */
  lemma ArticleContainerEdge(work: Node, form: WorkForm, m: nat)
    requires NodeBelow(work, m)
    ensures PartOfTargets(ArticleTriples(work, form, m), work) == {Container(form, m)}
    ensures form.issueNumber.Some? ==>
              Triple(Container(form, m), RdfType, PublicationIssue) in ArticleTriples(work, form, m)
    ensures form.issueNumber.None? && form.volumeNumber.Some? ==>
              Triple(Container(form, m), RdfType, PublicationVolume) in ArticleTriples(work, form, m)
    ensures form.issueNumber.None? && form.volumeNumber.None? ==>
              Triple(Container(form, m), RdfType, Periodical) in ArticleTriples(work, form, m)
  {
    ArticlePartOf(work, form, m, work);
  }

  /** The volume is part of the journal; the issue is part of the volume when
      there is one and of the journal otherwise; the journal is part of nothing. */
  lemma ArticleChain(work: Node, form: WorkForm, m: nat)
    requires NodeBelow(work, m)
    ensures form.volumeNumber.Some? ==> PartOfTargets(ArticleTriples(work, form, m), VolumeNode(m)) == {JournalNode(m)}
    ensures form.issueNumber.Some? ==>
              PartOfTargets(ArticleTriples(work, form, m), IssueNode(form, m))
              == {if form.volumeNumber.Some? then VolumeNode(m) else JournalNode(m)}
    ensures PartOfTargets(ArticleTriples(work, form, m), JournalNode(m)) == {}
  {
    ArticlePartOf(work, form, m, VolumeNode(m));
    ArticlePartOf(work, form, m, IssueNode(form, m));
    ArticlePartOf(work, form, m, JournalNode(m));
  }

  /** The journal is a fresh blank node, so even inside the whole profile
      graph the journal is part of nothing. */
  lemma FreshJournalIsTop(g: Graph, work: Node, form: WorkForm, m: nat)
    requires GraphBelow(g, m) && NodeBelow(work, m)
    ensures PartOfTargets(g + ArticleTriples(work, form, m), JournalNode(m)) == {}
  {
    ArticleChain(work, form, m);
    PartOfUnion(g, ArticleTriples(work, form, m), JournalNode(m));
    MintedIsFresh(g, m);
    forall o
      ensures o !in PartOfTargets(g, JournalNode(m))
    {
    }
  }

  /** The book fields never include a `schema:partOf` edge. */
  lemma BookHasNoPartOf(book: Node, n: Node, form: WorkForm)
    ensures PartOfTargets(BookTriples(book, form), n) == {}
  {
    assert NoPartOf(BookTriples(book, form));
    NoPartOfTargets(BookTriples(book, form), n);
  }

  /** The common triples hold no `schema:partOf` edge, so the work's
      containers are those the dispatch adds. */
  lemma WorkPartOfIsKindPartOf(form: WorkForm, generatedBy: Option<Node>, uuid: string, m: nat)
    ensures var work := WorkIri(form, uuid);
            PartOfTargets(WorkTriples(form, generatedBy, uuid, m), work) == PartOfTargets(KindTriples(work, form, m), work)
  {
    var work := WorkIri(form, uuid);
    var common := CommonTriples(work, form, generatedBy);
    assert NoPartOf(common);
    NoPartOfTargets(common, work);
    PartOfUnion(common, KindTriples(work, form, m), work);
  }

  /** A chapter is part of the fresh book node and nothing else. */
  lemma ChapterPartOf(work: Node, form: WorkForm, m: nat)
    ensures PartOfTargets({Triple(work, RdfType, Chapter), Triple(work, PartOf, BNode(m))} + BookTriples(BNode(m), form), work)
         == {BNode(m)}
  {
    var head: Graph := {Triple(work, RdfType, Chapter), Triple(work, PartOf, BNode(m))};
    BookHasNoPartOf(BNode(m), work, form);
    PartOfUnion(head, BookTriples(BNode(m), form), work);
    assert PartOfTargets(head, work) == {BNode(m)};
  }

  /** Every kind of work gets its container edges as the dispatch says: an
      article its single container, a chapter a single fresh book that holds
      the book fields, a book none, and the book fields sit on the book itself. */
  lemma WorkPartOfEdges(form: WorkForm, generatedBy: Option<Node>, uuid: string, m: nat)
    ensures var work := WorkIri(form, uuid);
            var g := WorkTriples(form, generatedBy, uuid, m);
            && (KindOf(form.citationType) == ArticleKind ==> PartOfTargets(g, work) == {Container(form, m)})
            && (KindOf(form.citationType) == ChapterKind ==>
                  PartOfTargets(g, work) == {BNode(m)}
                  && Triple(work, RdfType, Chapter) in g
                  && BookTriples(BNode(m), form) <= g)
            && (KindOf(form.citationType) == BookKind ==> PartOfTargets(g, work) == {} && BookTriples(work, form) <= g)
            && (KindOf(form.citationType) == Unsupported ==> PartOfTargets(g, work) == {})
  {
    var work := WorkIri(form, uuid);
    WorkPartOfIsKindPartOf(form, generatedBy, uuid, m);
    match KindOf(form.citationType)
    case ArticleKind =>
      ArticleContainerEdge(work, form, m);
    case ChapterKind =>
      ChapterPartOf(work, form, m);
    case BookKind =>
      BookHasNoPartOf(work, work, form);
    case Unsupported =>
      NoPartOfTargets({}, work);
  }

  /** The triples update_profile adds for the submitted subject rows, each of
      which parses: the statement is about the subject, which is a `bf:Topic`
      labelled in English. */
  function SubjectTriples(statement: Node, rows: seq<string>): Graph
    decreases |rows|
  {
    if |rows| == 0 then {}
    else
      var row := rows[|rows| - 1];
      SubjectTriples(statement, rows[..|rows| - 1])
        + TopicTriples(statement, Identifiers.RowIri(row), Identifiers.RowLabel(row))
  }

  /** The three triples one subject row adds. */
  function TopicTriples(statement: Node, iri: string, text: string): Graph {
    {Triple(statement, SchemaAbout, IRI(iri)), Triple(IRI(iri), RdfType, BfTopic),
     Triple(IRI(iri), RdfsLabel, Literal(text, "en"))}
  }

  /** Every row's subject is something the statement is about. */
  lemma {:induction false} SubjectTriplesAbout(statement: Node, rows: seq<string>)
    ensures forall i :: 0 <= i < |rows| ==>
      Triple(statement, SchemaAbout, IRI(Identifiers.RowIri(rows[i]))) in SubjectTriples(statement, rows)
    decreases |rows|
  {
    if |rows| > 0 {
      var init := rows[..|rows| - 1];
      SubjectTriplesAbout(statement, init);
      var g := SubjectTriples(statement, rows);
      assert SubjectTriples(statement, init) <= g;
      forall i | 0 <= i < |rows| - 1
        ensures Triple(statement, SchemaAbout, IRI(Identifiers.RowIri(rows[i]))) in g
      {
        assert init[i] == rows[i];
      }
    }
  }

  /** The subject triples use no predicate beyond about, type and label. */
  lemma {:induction false} SubjectTriplesPredicates(statement: Node, rows: seq<string>)
    ensures forall t :: t in SubjectTriples(statement, rows) ==> t.p == SchemaAbout || t.p == RdfType || t.p == RdfsLabel
    decreases |rows|
  {
    if |rows| > 0 {
      SubjectTriplesPredicates(statement, rows[..|rows| - 1]);
    }
  }

  // ---------------------------------------------------------------------
  // Freshness of minted blank nodes.

  /** A blank node the oracle has not handed out yet occurs in no triple of a
      graph whose blank nodes are all below the counter. */
  lemma MintedIsFresh(g: Graph, m: nat)
    requires GraphBelow(g, m)
    ensures forall t :: t in g ==> t.s != BNode(m) && t.p != BNode(m) && t.o != BNode(m)
  {
    forall t | t in g
      ensures t.s != BNode(m) && t.p != BNode(m) && t.o != BNode(m)
    {
      assert TripleBelow(t, m);
    }
  }

  lemma GraphBelowMono(g: Graph, m: nat, n: nat)
    requires GraphBelow(g, m) && m <= n
    ensures GraphBelow(g, n)
  {
    forall t | t in g
      ensures TripleBelow(t, n)
    {
      assert TripleBelow(t, m);
    }
  }

  lemma GraphBelowUnion(a: Graph, b: Graph, m: nat)
    requires GraphBelow(a, m) && GraphBelow(b, m)
    ensures GraphBelow(a + b, m)
  {
  }

  /** The article subgraph only mentions blank nodes minted while building
      it, so adding it keeps every blank node of the graph below the counter. */
  lemma ArticleKeepsValid(g: Graph, work: Node, form: WorkForm, m: nat)
    requires GraphBelow(g, m) && NodeBelow(work, m)
    ensures GraphBelow(g + ArticleTriples(work, form, m), m + ArticleMints(form))
  {
    var n := m + ArticleMints(form);
    var head := ArticleHead(work, form, m);
    var vol := VolumeTriples(form, m);
    var iss := IssueTriples(form, m);
    var edge: Graph := {Triple(work, PartOf, Container(form, m))};
    var mon := OptTriple(work, CiteMonth, form.month);
    assert GraphBelow(head, n);
    assert GraphBelow(vol, n);
    assert GraphBelow(iss, n);
    assert GraphBelow(edge, n);
    assert GraphBelow(mon, n);
    GraphBelowMono(g, m, n);
    GraphBelowUnion(g, head, n);
    GraphBelowUnion(g + head, vol, n);
    GraphBelowUnion(g + head + vol, iss, n);
    GraphBelowUnion(g + head + vol + iss, edge, n);
    GraphBelowUnion(g + head + vol + iss + edge, mon, n);
    assert g + ArticleTriples(work, form, m) == g + head + vol + iss + edge + mon;
  }

  lemma BookKeepsValid(g: Graph, book: Node, form: WorkForm, m: nat)
    requires GraphBelow(g, m) && NodeBelow(book, m)
    ensures GraphBelow(g + BookTriples(book, form), m)
  {
    GraphBelowUnion(g, BookTriples(book, form), m);
  }

  /** Populating a work keeps every blank node below the counter. */
  lemma WorkKeepsValid(g: Graph, form: WorkForm, generatedBy: Option<Node>, uuid: string, m: nat)
    requires GraphBelow(g, m) && (generatedBy.Some? ==> NodeBelow(generatedBy.value, m))
    ensures GraphBelow(g + WorkTriples(form, generatedBy, uuid, m), m + KindMints(form))
  {
    var work := WorkIri(form, uuid);
    var n := m + KindMints(form);
    var common := CommonTriples(work, form, generatedBy);
    assert GraphBelow(common, m);
    GraphBelowUnion(g, common, m);
    match KindOf(form.citationType)
    case ArticleKind =>
      ArticleKeepsValid(g + common, work, form, m);
    case ChapterKind =>
      var head: Graph := {Triple(work, RdfType, Chapter), Triple(work, PartOf, BNode(m))};
      GraphBelowMono(g + common, m, n);
      GraphBelowUnion(g + common, head, n);
      BookKeepsValid(g + common + head, BNode(m), form, n);
      assert g + WorkTriples(form, generatedBy, uuid, m) == g + common + head + BookTriples(BNode(m), form);
    case BookKind =>
      BookKeepsValid(g + common, work, form, m);
    case Unsupported =>
  }

  /** The subject triples only mention IRIs, literals and the statement. */
  lemma {:induction false} SubjectsKeepValid(g: Graph, statement: Node, rows: seq<string>, m: nat)
    requires GraphBelow(g, m) && NodeBelow(statement, m)
    ensures GraphBelow(g + SubjectTriples(statement, rows), m)
    decreases |rows|
  {
    if |rows| > 0 {
      SubjectsKeepValid(g, statement, rows[..|rows| - 1], m);
    }
  }

  /** Adding row `i`, which parses into `p`, adds its three triples. */
  lemma SubjectTriplesStep(statement: Node, rows: seq<string>, i: nat, p: (string, string))
    requires i < |rows| && Identifiers.ParseSubjectRow(rows[i]) == Success(p)
    ensures SubjectTriples(statement, rows[..i + 1])
         == SubjectTriples(statement, rows[..i]) + TopicTriples(statement, Identifiers.FastIri(p.0), p.1)
  {
    assert rows[..i + 1][..i] == rows[..i];
  }

  /** Adding a row's three triples one by one to a graph `g + done` is
      adding them to `done`. */
  lemma AddTopic(g: Graph, done: Graph, statement: Node, iri: string, text: string)
    ensures g + done + {Triple(statement, SchemaAbout, IRI(iri))} + {Triple(IRI(iri), RdfType, BfTopic)}
              + {Triple(IRI(iri), RdfsLabel, Literal(text, "en"))}
         == g + (done + TopicTriples(statement, iri, text))
  {
  }

  /** The chapter's type and its edge to the freshly minted book node keep
      every blank node below the advanced counter. */
  lemma ChapterHeadKeepsValid(g: Graph, work: Node, m: nat)
    requires GraphBelow(g, m) && NodeBelow(work, m)
    ensures GraphBelow(g + {Triple(work, RdfType, Chapter)} + {Triple(work, PartOf, BNode(m))}, m + 1)
  {
    GraphBelowMono(g, m, m + 1);
    GraphBelowUnion(g, {Triple(work, RdfType, Chapter)} + {Triple(work, PartOf, BNode(m))}, m + 1);
    assert g + {Triple(work, RdfType, Chapter)} + {Triple(work, PartOf, BNode(m))}
        == g + ({Triple(work, RdfType, Chapter)} + {Triple(work, PartOf, BNode(m))});
  }

  /** Two triples added one by one and then a graph are the same as adding
      the two with that graph at once. */
  lemma UnionRegroup(g: Graph, a: Triple, b: Triple, h: Graph)
    ensures g + {a} + {b} + h == g + ({a, b} + h)
  {
  }

  /** Three triples added one by one are the three added at once. */
  lemma AddThree(g: Graph, a: Triple, b: Triple, c: Triple)
    ensures g + {a} + {b} + {c} == g + {a, b, c}
  {
  }

  /** Adding again what was already added changes nothing. */
  lemma UnionAbsorb(g: Graph, c: Graph, k: Graph, a: Graph)
    requires a <= c
    ensures g + c + k + a == g + (c + k)
  {
  }

  // ---------------------------------------------------------------------
  // The profile object.

  /** The error `__populate_work__` raises for an unsupported citation type.
      The code calls `abort(500)`, but profiles.py imports only `current_app`
      from flask (profiles.py:24), so the call raises a NameError. */
  datatype PopulateError = UnsupportedCitationType

  /** The state the `EmailProfile` methods change: its graph, its person,
      and the number of blank nodes minted so far (the fresh-name oracle
      that stands for `rdflib.BNode()`). */
  class EmailProfile {
    var graph: Graph
    var personIri: Option<Node>
    var minted: nat

    /** Every blank node in the graph was minted by this profile, so a newly
        minted one is fresh. */
    predicate Valid()
      reads this
    {
      GraphBelow(graph, minted)
    }

    constructor(personIri: Option<Node>)
      ensures Valid()
      ensures graph == {} && this.personIri == personIri
    {
      graph := {};
      this.personIri := personIri;
      minted := 0;
    }

    /** `rdflib.BNode()`: the next name of the oracle, which no triple of a
        valid graph mentions (MintedIsFresh). */
    method MintBNode() returns (b: Node)
      requires Valid()
      modifies this`minted
      ensures Valid()
      ensures b == BNode(old(minted)) && minted == old(minted) + 1
    {
      b := BNode(minted);
      minted := minted + 1;
      GraphBelowMono(graph, minted - 1, minted);
    }

    // Each method below adds its triples one at a time, in the order the
    // code calls `graph.add`, to a copy of the graph that it then stores.
    // Each keeps Valid(), so the blank nodes it mints are fresh.

    /** Adds the article properties of `work`, minting its journal, volume and issue. */
    method AddArticle(work: Node, form: WorkForm)
      requires Valid() && NodeBelow(work, minted)
      modifies this`graph, this`minted
      ensures Valid()
      ensures minted == old(minted) + ArticleMints(form)
      ensures graph == old(graph) + ArticleTriples(work, form, old(minted))
    {
      AddArticleTriples(work, form);
      ArticleKeepsValid(old(graph), work, form, old(minted));
    }

    /** The body of `__add_article__`, apart from the freshness argument of
        AddArticle. It collects the article's triples in the order the code
        adds them and then adds them to the graph together. */
    method AddArticleTriples(work: Node, form: WorkForm)
      requires Valid()
      modifies this`graph, this`minted
      ensures minted == old(minted) + ArticleMints(form)
      ensures graph == old(graph) + ArticleTriples(work, form, old(minted))
    {
      ghost var m := minted;
      var g: Graph := {};
      g := g + {Triple(work, RdfType, ScholarlyArticle)};
      g := g + {Triple(work, SchemaName, Lit(form.articleTitle))};
      g := g + OptTriple(work, PageStart, form.pageStart);
      g := g + OptTriple(work, PageEnd, form.pageEnd);
      var journal := MintBNode();
      g := g + {Triple(journal, RdfType, Periodical)};
      g := g + {Triple(journal, SchemaName, Lit(form.journalTitle))};
      assert g == ArticleHead(work, form, m);
      ghost var g1 := g;
      var volume: Option<Node> := None;
      if form.volumeNumber.Some? {
        var v := MintBNode();
        volume := Some(v);
        g := g + {Triple(v, RdfType, PublicationVolume)};
        g := g + {Triple(v, VolumeNumber, Lit(form.volumeNumber.value))};
        g := g + {Triple(v, PartOf, journal)};
        AddThree(g1, Triple(v, RdfType, PublicationVolume),
                 Triple(v, VolumeNumber, Lit(form.volumeNumber.value)), Triple(v, PartOf, journal));
      }
      ghost var g2 := g1 + VolumeTriples(form, m);
      assert g == g2;
      ghost var g3 := g2 + IssueTriples(form, m);
      if form.issueNumber.Some? {
        var issue := MintBNode();
        g := g + {Triple(issue, RdfType, PublicationIssue)};
        g := g + {Triple(issue, IssueNumber, Lit(form.issueNumber.value))};
        var parent := if volume.Some? then volume.value else journal;
        g := g + {Triple(issue, PartOf, parent)};
        assert parent == IssueParent(form, m);
        AddThree(g2, Triple(issue, RdfType, PublicationIssue),
                 Triple(issue, IssueNumber, Lit(form.issueNumber.value)), Triple(issue, PartOf, parent));
        g := g + {Triple(work, PartOf, issue)};
      } else if volume.Some? {
        g := g + {Triple(work, PartOf, volume.value)};
      } else {
        g := g + {Triple(work, PartOf, journal)};
      }
      assert g == g3 + {Triple(work, PartOf, Container(form, m))};
      g := g + OptTriple(work, CiteMonth, form.month);
      assert g == ArticleTriples(work, form, m);
      graph := graph + g;
    }

    /** Adds the book properties to `book`. */
    method AddBook(book: Node, form: WorkForm)
      requires Valid() && NodeBelow(book, minted)
      modifies this`graph
      ensures Valid()
      ensures graph == old(graph) + BookTriples(book, form)
    {
      var g := graph;
      g := g + {Triple(book, RdfType, Book)};
      g := g + {Triple(book, SchemaTitle, Lit(form.bookTitle))};
      g := g + OptTriple(book, SchemaIsbn, form.isbn);
      g := g + OptTriple(book, EditionStatement, form.editionStatement);
      g := g + OptTriple(book, SchemaEditor, form.editor);
      g := g + OptTriple(book, ProvisionActivityStatement, form.provisionActivityStatement);
      g := g + OptTriple(book, SchemaDescription, form.notes);
      graph := g;
      BookKeepsValid(old(graph), book, form, minted);
    }

    /** The dispatch on the citation type in `__populate_work__`: the article
        subgraph, a chapter part of a fresh book, or a book; `supported` is
        false where the code aborts. */
    method AddKindTriples(work: Node, form: WorkForm) returns (supported: bool)
      requires Valid() && NodeBelow(work, minted)
      modifies this`graph, this`minted
      ensures Valid()
      ensures supported <==> KindOf(form.citationType) != Unsupported
      ensures graph == old(graph) + KindTriples(work, form, old(minted))
      ensures minted == old(minted) + KindMints(form)
    {
      var citationType := form.citationType;
      if Text.StartsWith(citationType, "article") {
        AddArticle(work, form);
      } else if Text.StartsWith(citationType, "book chapter") {
        assert GraphBelow({Triple(work, RdfType, Chapter)}, minted);
        GraphBelowUnion(graph, {Triple(work, RdfType, Chapter)}, minted);
        graph := graph + {Triple(work, RdfType, Chapter)};
        var bookNode := MintBNode();
        graph := graph + {Triple(work, PartOf, bookNode)};
        ChapterHeadKeepsValid(old(graph), work, old(minted));
        AddBook(bookNode, form);
        UnionRegroup(old(graph), Triple(work, RdfType, Chapter), Triple(work, PartOf, bookNode), BookTriples(bookNode, form));
      } else if Text.StartsWith(citationType, "book") {
        AddBook(work, form);
      } else {
        return false;
      }
      return true;
    }

    /** The first part of `__populate_work__`: the date, author string and
        citation type of `work`, its author (which also becomes the profile's
        person), its URL and its abstract. */
    method AddCommonTriples(work: Node, form: WorkForm, generatedBy: Option<Node>)
      requires Valid() && NodeBelow(work, minted)
      requires generatedBy.Some? ==> NodeBelow(generatedBy.value, minted)
      modifies this`graph, this`personIri
      ensures Valid()
      ensures graph == old(graph) + CommonTriples(work, form, generatedBy)
      ensures personIri == NewPersonIri(form, generatedBy, old(personIri))
    {
      var g := graph;
      g := g + {Triple(work, DataPublished, Lit(form.datePublished))};
      g := g + {Triple(work, CiteAuthorString, Lit(form.authorString))};
      g := g + {Triple(work, CiteCitationType, Lit(form.citationType))};
      ghost var g1 := g;
      if form.author.Some? && |form.author.value| > 0 {
        personIri := Some(IRI(form.author.value));
        g := g + {Triple(work, SchemaAuthor, personIri.value)};
      } else if generatedBy.Some? && |Str(generatedBy.value)| > 0 {
        personIri := generatedBy;
        g := g + {Triple(work, SchemaAuthor, generatedBy.value)};
      }
      assert g == g1 + AuthorTriples(work, form, generatedBy);
      ghost var g2 := g;
      if form.url.Some? && |form.url.value| > 0 {
        g := g + {Triple(work, SchemaUrl, IRI(form.url.value))};
      }
      assert g == g2 + UrlTriples(work, form);
      g := g + OptTriple(work, SchemaAbout, form.abstractText);
      graph := g;
      assert GraphBelow(CommonTriples(work, form, generatedBy), minted);
      GraphBelowUnion(old(graph), CommonTriples(work, form, generatedBy), minted);
    }

    /** Adds a new work to the profile graph and returns its IRI; an
        unsupported citation type aborts after the common triples are in. */
    method PopulateWork(form: WorkForm, generatedBy: Option<Node>, uuid: string)
      returns (r: Result<Node, PopulateError>)
      requires Valid() && (generatedBy.Some? ==> NodeBelow(generatedBy.value, minted))
      modifies this`graph, this`minted, this`personIri
      ensures Valid()
      ensures r == if KindOf(form.citationType) == Unsupported then Failure(UnsupportedCitationType) else Success(WorkIri(form, uuid))
      ensures graph == old(graph) + WorkTriples(form, generatedBy, uuid, old(minted))
      ensures minted == old(minted) + KindMints(form)
      ensures personIri == NewPersonIri(form, generatedBy, old(personIri))
    {
      ghost var m := minted;
      var work: Node;
      if |form.iri| > 0 {
        work := IRI(form.iri);
      } else if form.doi.Some? && |form.doi.value| > 0 {
        work := IRI(form.doi.value);
      } else {
        work := IRI(CatalogBase + uuid);
      }
      assert work == WorkIri(form, uuid);
      AddCommonTriples(work, form, generatedBy);
      var supported := AddKindTriples(work, form);
      if !supported {
        return Failure(UnsupportedCitationType);
      }
      // The abstract was already added with the common triples.
      graph := graph + OptTriple(work, SchemaAbout, form.abstractText);
      UnionAbsorb(old(graph), CommonTriples(work, form, generatedBy), KindTriples(work, form, m),
                  OptTriple(work, SchemaAbout, form.abstractText));
      r := Success(work);
    }

    /** update_profile's loop over the submitted subject rows: each row
        `id==label` adds its subject to the statement. A row that does not
        split into two pieces raises, after the rows before it were added;
        `done` is the number of rows added, which by FirstUnparsedSpec all
        parse. */
    method AddSubjectRows(statement: Node, rows: seq<string>) returns (done: nat, err: Option<Identifiers.RowError>)
      requires Valid() && NodeBelow(statement, minted)
      modifies this`graph
      ensures Valid()
      ensures done == Identifiers.FirstUnparsed(rows, 0)
      ensures err.None? <==> done == |rows|
      ensures err.Some? ==> Identifiers.ParseSubjectRow(rows[done]) == Failure(err.value)
      ensures graph == old(graph) + SubjectTriples(statement, rows[..done])
    {
      var g := graph;
      for i := 0 to |rows|
        invariant Identifiers.FirstUnparsed(rows, 0) == Identifiers.FirstUnparsed(rows, i)
        invariant g == old(graph) + SubjectTriples(statement, rows[..i])
        invariant graph == old(graph)
      {
        var parsed := Identifiers.ParseSubjectRow(rows[i]);
        if parsed.Failure? {
          graph := g;
          SubjectsKeepValid(old(graph), statement, rows[..i], minted);
          return i, Some(parsed.error);
        }
        var fastUri := Identifiers.FastIri(parsed.value.0);
        var iriSubject := IRI(fastUri);
        g := g + {Triple(statement, SchemaAbout, iriSubject)};
        g := g + {Triple(iriSubject, RdfType, BfTopic)};
        g := g + {Triple(iriSubject, RdfsLabel, Literal(parsed.value.1, "en"))};
        AddTopic(old(graph), SubjectTriples(statement, rows[..i]), statement, fastUri, parsed.value.1);
        SubjectTriplesStep(statement, rows, i, parsed.value);
      }
      assert rows[..|rows|] == rows;
      graph := g;
      SubjectsKeepValid(old(graph), statement, rows, minted);
      return |rows|, None;
    }
  }
}
