/** `utilities.author_lookup`: the first person of the people graph whose
    label contains a lookup string. The SPARQL query it runs selects the
    subjects typed `bf:Person` with an `rdfs:label` for which
    `CONTAINS(?label, "lookup")` holds, and the function returns the first
    solution. The graph is given as its triples in the order the query engine
    enumerates the label patterns, which fixes which solution is first. */
module AuthorLookup {
  import opened Wrappers
  import opened Rdf
  import opened Text

  /** The lookup text sits inside a double-quoted SPARQL string literal; this
      keeps it there. */
  predicate InsideStringLiteral(lookup: string) {
    forall k :: 0 <= k < |lookup| ==> lookup[k] !in "\"\\\n\r"
  }

  /** A solution of the query: a label triple of a `bf:Person` whose literal
      contains the lookup text, case-sensitively. CONTAINS on an IRI is an
      error, which drops the solution. */
  predicate Solution(people: seq<Triple>, t: Triple, lookup: string) {
    && t.p == RdfsLabel
    && t.o.Literal?
    && Contains(t.o.lex, lookup)
    && Triple(t.s, RdfType, BfPerson) in people
  }

  /** The index of the first solution at or after `from`, if any. */
  function FirstSolution(people: seq<Triple>, lookup: string, from: nat): (r: Option<nat>)
    requires from <= |people|
    ensures r.Some? ==> from <= r.value < |people| && Solution(people, people[r.value], lookup)
    ensures r.Some? ==> forall j :: from <= j < r.value ==> !Solution(people, people[j], lookup)
    ensures r.None? ==> forall j :: from <= j < |people| ==> !Solution(people, people[j], lookup)
    decreases |people| - from
  {
    if from == |people| then None
    else if Solution(people, people[from], lookup) then Some(from)
    else FirstSolution(people, lookup, from + 1)
  }

  /** The person of the first solution, or None when there is none. */
  function Lookup(people: seq<Triple>, lookup: string): (r: Option<Node>)
    requires InsideStringLiteral(lookup)
    ensures r.Some? ==> exists i :: 0 <= i < |people| && Solution(people, people[i], lookup)
                                    && people[i].s == r.value
                                    && forall j :: 0 <= j < i ==> !Solution(people, people[j], lookup)
    ensures r.None? <==> forall i :: 0 <= i < |people| ==> !Solution(people, people[i], lookup)
  {
    match FirstSolution(people, lookup, 0)
    case None => None
    case Some(i) => Some(people[i].s)
  }

  /** A result is a person whose label contains the lookup text. */
  lemma LookupIsPerson(people: seq<Triple>, lookup: string)
    requires InsideStringLiteral(lookup) && Lookup(people, lookup).Some?
    ensures var p := Lookup(people, lookup).value;
            Triple(p, RdfType, BfPerson) in people
            && exists l: string, lang: string :: Triple(p, RdfsLabel, Literal(l, lang)) in people && Contains(l, lookup)
  {
    var i :| 0 <= i < |people| && Solution(people, people[i], lookup) && people[i].s == Lookup(people, lookup).value;
    var t := people[i];
    assert Triple(t.s, RdfsLabel, Literal(t.o.lex, t.o.lang)) == t;
  }

  /** The match is case-sensitive: "smith" does not find a person labelled "Smith". */
  lemma LookupIsCaseSensitive()
    ensures var p := IRI("http://example.org/person");
            var people := [Triple(p, RdfType, BfPerson), Triple(p, RdfsLabel, Literal("Smith", ""))];
            Lookup(people, "smith") == None && Lookup(people, "Smith") == Some(p)
  {
    var p := IRI("http://example.org/person");
    var people := [Triple(p, RdfType, BfPerson), Triple(p, RdfsLabel, Literal("Smith", ""))];
    assert RdfType != RdfsLabel by {
      assert RdfType.iri[18] != RdfsLabel.iri[18];
    }
    assert !Contains("Smith", "smith") by {
      assert "Smith"[0] != "smith"[0];
      assert !OccursAt("Smith", "smith", 0);
    }
    assert OccursAt("Smith", "Smith", 0);
    assert !Solution(people, people[0], "smith") && !Solution(people, people[1], "smith");
    assert Solution(people, people[1], "Smith") && !Solution(people, people[0], "Smith");
  }
}
