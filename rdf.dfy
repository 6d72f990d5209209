/** The RDF graphs the profiles code manipulates through rdflib: a graph is a
    finite set of (subject, predicate, object) triples, and a lookup that rdflib
    is given `None` for a position treats that position as a wildcard. */
module Rdf {
  import opened Wrappers
  import Text

  /** An IRI (rdflib URIRef), a blank node, or a literal with an optional
      language tag ("" when there is none). Blank nodes are named by numbers
      handed out by the minting oracle of the graph that holds them. */
  datatype Node = IRI(iri: string) | BNode(id: nat) | Literal(lex: string, lang: string)

  datatype Triple = Triple(s: Node, p: Node, o: Node)

  type Graph = set<Triple>

  /** A plain literal, as `rdflib.Literal(text)` makes it. */
  function Lit(text: string): Node {
    Literal(text, "")
  }

  /** Python's `str()` of a node: the IRI, the lexical form of a literal (its
      language tag is dropped), or the name of a blank node. */
  function Str(n: Node): string {
    match n
    case IRI(i) => i
    case BNode(id) => "N" + Text.NatToString(id)
    case Literal(lex, _) => lex
  }

  /** Python's `str()` of a lookup result, where a missing value prints as "None". */
  function OptStr(n: Option<Node>): string {
    match n
    case None => "None"
    case Some(v) => Str(v)
  }

  /** A triple pattern position: `None` matches anything. */
  predicate Fits(pattern: Option<Node>, n: Node) {
    pattern.None? || pattern.value == n
  }

  /** rdflib's `graph.objects(subject, predicate)`. */
  function Objects(g: Graph, s: Option<Node>, p: Node): (r: set<Node>)
    ensures forall o :: o in r <==> exists t :: t in g && Fits(s, t.s) && t.p == p && t.o == o
  {
    set t | t in g && Fits(s, t.s) && t.p == p :: t.o
  }

  /** With the subject given, the objects are those of the matching triples. */
  lemma ObjectsOfSubject(g: Graph, s: Node, p: Node)
    ensures forall o :: o in Objects(g, Some(s), p) <==> Triple(s, p, o) in g
  {
    forall o | Triple(s, p, o) in g
      ensures o in Objects(g, Some(s), p)
    {
      var t := Triple(s, p, o);
      assert t in g && Fits(Some(s), t.s) && t.p == p && t.o == o;
    }
  }

  /** rdflib's `graph.remove((s, p, o))`: every triple that fits the pattern goes. */
  function RemovePattern(g: Graph, s: Option<Node>, p: Node, o: Option<Node>): (r: Graph)
    ensures r <= g
    ensures forall t :: t in g ==> (t in r <==> !(Fits(s, t.s) && t.p == p && Fits(o, t.o)))
  {
    set t | t in g && !(Fits(s, t.s) && t.p == p && Fits(o, t.o))
  }

  /** rdflib's `graph.value(predicate=p, object=o)`: the subject of some
      triple with that predicate and object, or None when there is none. Which
      one rdflib returns when several fit is not specified. */
  method SubjectOf(g: Graph, p: Node, o: Node) returns (r: Option<Node>)
    ensures r.Some? ==> Triple(r.value, p, o) in g
    ensures r.None? <==> forall t :: t in g ==> !(t.p == p && t.o == o)
  {
    if t :| t in g && t.p == p && t.o == o {
      r := Some(t.s);
    } else {
      r := None;
    }
  }

  /** rdflib's `graph.value(subject=s, predicate=p)`: the object of some
      triple with that subject and predicate, or None when there is none.
      With the subject None as well, two of the three positions are unbound
      and rdflib answers None without looking at the graph. */
  method ObjectOf(g: Graph, s: Option<Node>, p: Node) returns (r: Option<Node>)
    ensures r.Some? ==> s.Some? && Triple(s.value, p, r.value) in g
    ensures r.None? <==> s.None? || forall t :: t in g ==> !(t.s == s.value && t.p == p)
  {
    if s.None? {
      return None;
    }
    if t :| t in g && t.s == s.value && t.p == p {
      r := Some(t.o);
    } else {
      r := None;
    }
  }

  // The vocabulary terms the core writes (namespaces of profiles.py:31-34).
  const RdfType := IRI("http://www.w3.org/1999/02/22-rdf-syntax-ns#type")
  const RdfsLabel := IRI("http://www.w3.org/2000/01/rdf-schema#label")

  /** schema.org terms; `DataPublished` keeps the spelling the code writes. */
  const ScholarlyArticle := IRI("http://schema.org/ScholarlyArticle")
  const SchemaName := IRI("http://schema.org/name")
  const PageStart := IRI("http://schema.org/pageStart")
  const PageEnd := IRI("http://schema.org/pageEnd")
  const Periodical := IRI("http://schema.org/Periodical")
  const PublicationVolume := IRI("http://schema.org/PublicationVolume")
  const VolumeNumber := IRI("http://schema.org/volumeNumber")
  const PublicationIssue := IRI("http://schema.org/PublicationIssue")
  const IssueNumber := IRI("http://schema.org/issueNumber")
  const PartOf := IRI("http://schema.org/partOf")
  const Book := IRI("http://schema.org/Book")
  const SchemaTitle := IRI("http://schema.org/title")
  const SchemaIsbn := IRI("http://schema.org/isbn")
  const EditionStatement := IRI("http://schema.org/editionStatement")
  const SchemaEditor := IRI("http://schema.org/editor")
  const ProvisionActivityStatement := IRI("http://schema.org/provisionActivityStatement")
  const SchemaDescription := IRI("http://schema.org/description")
  const DataPublished := IRI("http://schema.org/dataPublished")
  const SchemaAuthor := IRI("http://schema.org/author")
  const SchemaUrl := IRI("http://schema.org/url")
  const SchemaAbout := IRI("http://schema.org/about")
  const Chapter := IRI("http://schema.org/Chapter")
  const AccountablePerson := IRI("http://schema.org/accountablePerson")

  /** Colorado College citation vocabulary. */
  const CiteMonth := IRI("https://www.coloradocollege.edu/library/ns/citation/month")
  const CiteAuthorString := IRI("https://www.coloradocollege.edu/library/ns/citation/authorString")
  const CiteCitationType := IRI("https://www.coloradocollege.edu/library/ns/citation/citationType")

  /** BIBFRAME classes. */
  const BfTopic := IRI("http://id.loc.gov/ontologies/bibframe/Topic")
  const BfPerson := IRI("http://id.loc.gov/ontologies/bibframe/Person")
}
