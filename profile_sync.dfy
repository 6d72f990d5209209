/** The background thread that, after a profile was edited, brings the
    research-statements graph and the FAST-subjects graph in line with the
    edited profile graph (profiles.py, class ProfileUpdateThread). The two
    graphs are given to the constructor; loading them from and saving them
    to the repository is not modelled. */
module ProfileSync {
  import opened Wrappers
  import opened Rdf
  import CitationGraph

  /** The `schema:about` triples of statement `s` for the objects `objs`. */
  function AboutTriples(s: Node, objs: set<Node>): (g: Graph)
    ensures forall t :: t in g <==> t.s == s && t.p == SchemaAbout && t.o in objs
  {
    set o | o in objs :: Triple(s, SchemaAbout, o)
  }

  /** The subjects the research statements give for `s`, and those the profile gives. */
  function ExistingSubjects(rs: Graph, s: Node): set<Node> {
    Objects(rs, Some(s), SchemaAbout)
  }

  function ProfileSubjects(pg: Graph, s: Node): set<Node> {
    Objects(pg, Some(s), SchemaAbout)
  }

  /** The subjects the sync adds to the statement. */
  function AddedSubjects(rs: Graph, s: Node, pg: Graph): set<Node> {
    ProfileSubjects(pg, s) - ExistingSubjects(rs, s)
  }

  /** The research statements after the subjects of `s` were synchronised
      with the profile graph: the subjects the profile dropped are removed and
      the ones it added are added. */
  function SyncAbout(rs: Graph, s: Node, pg: Graph): Graph {
    rs - AboutTriples(s, ExistingSubjects(rs, s) - ProfileSubjects(pg, s))
       + AboutTriples(s, AddedSubjects(rs, s, pg))
  }

  /** After the sync the statement is about exactly the profile's subjects,
      and no other triple was touched. */
  lemma SyncAboutMatchesProfile(rs: Graph, s: Node, pg: Graph)
    ensures ExistingSubjects(SyncAbout(rs, s, pg), s) == ProfileSubjects(pg, s)
    ensures forall t: Triple :: !(t.s == s && t.p == SchemaAbout) ==> (t in SyncAbout(rs, s, pg) <==> t in rs)
  {
    var r := SyncAbout(rs, s, pg);
    ObjectsOfSubject(rs, s, SchemaAbout);
    ObjectsOfSubject(pg, s, SchemaAbout);
    ObjectsOfSubject(r, s, SchemaAbout);
    forall o
      ensures o in ExistingSubjects(r, s) <==> o in ProfileSubjects(pg, s)
    {
      assert Triple(s, SchemaAbout, o) in r <==> Triple(s, SchemaAbout, o) in pg;
    }
  }

  /** Syncing a second time changes nothing. */
  lemma SyncAboutIdempotent(rs: Graph, s: Node, pg: Graph)
    ensures SyncAbout(SyncAbout(rs, s, pg), s, pg) == SyncAbout(rs, s, pg)
  {
    var r := SyncAbout(rs, s, pg);
    SyncAboutMatchesProfile(rs, s, pg);
    assert ExistingSubjects(r, s) - ProfileSubjects(pg, s) == {};
    assert AddedSubjects(r, s, pg) == {};
    assert AboutTriples(s, {}) == {};
  }

  /** The `rdf:type bf:Topic` triples of the added subjects. */
  function TopicTypes(subjects: set<Node>): (g: Graph)
    ensures forall t :: t in g <==> t.o == BfTopic && t.p == RdfType && t.s in subjects
  {
    set o | o in subjects :: Triple(o, RdfType, BfTopic)
  }

  /** The label triples of the labels chosen for the added subjects. */
  function LabelTriples(labels: map<Node, Node>): (g: Graph)
    ensures forall t :: t in g <==> t.p == RdfsLabel && t.s in labels && labels[t.s] == t.o
  {
    set o | o in labels :: Triple(o, RdfsLabel, labels[o])
  }

  /** `n` has a label in `g`. */
  predicate HasLabel(g: Graph, n: Node) {
    exists t :: t in g && t.s == n && t.p == RdfsLabel
  }

  /** `labels` holds, for each subject of `added` the profile labels, one of
      its labels, and nothing else. */
  predicate ChosenLabels(pg: Graph, added: set<Node>, labels: map<Node, Node>) {
    && (forall o :: o in labels ==> o in added && Triple(o, RdfsLabel, labels[o]) in pg)
    && (forall o :: o in added ==> (o in labels <==> HasLabel(pg, o)))
  }

  /** Choosing the label of one more subject, when the profile has one. */
  lemma ChosenLabelsStep(pg: Graph, done: set<Node>, labels: map<Node, Node>, o: Node, l: Option<Node>)
    requires ChosenLabels(pg, done, labels) && o !in done
    requires l.Some? ==> Triple(o, RdfsLabel, l.value) in pg
    requires l.None? <==> !HasLabel(pg, o)
    ensures ChosenLabels(pg, done + {o}, if l.Some? then labels[o := l.value] else labels)
  {
    if l.Some? {
      assert HasLabel(pg, o) by {
        assert Triple(o, RdfsLabel, l.value) in pg;
      }
    }
  }

  /** Adding the type triple and, when there is one, the label triple of a
      new subject extends the topic and label triples by that subject. */
  lemma FastSubjectsStep(g: Graph, done: set<Node>, labels: map<Node, Node>, o: Node, l: Option<Node>)
    requires o !in labels
    ensures var next := if l.Some? then labels[o := l.value] else labels;
            g + TopicTypes(done) + LabelTriples(labels) + {Triple(o, RdfType, BfTopic)}
              + (if l.Some? then {Triple(o, RdfsLabel, l.value)} else {})
            == g + TopicTypes(done + {o}) + LabelTriples(next)
  {
  }

  /** Removing one more subject triple. */
  lemma RemoveStep(g: Graph, s: Node, done: set<Node>, o: Node)
    ensures g - AboutTriples(s, done) - {Triple(s, SchemaAbout, o)} == g - AboutTriples(s, done + {o})
  {
  }

  /** Adding one more subject triple. */
  lemma AddStep(g: Graph, s: Node, done: set<Node>, o: Node)
    ensures g + AboutTriples(s, done) + {Triple(s, SchemaAbout, o)} == g + AboutTriples(s, done + {o})
  {
  }

  /** What the code writes to the research statements when the description
      of `s` is updated from `current` to `incoming` (both as looked up). */
  function DescriptionUpdate(rs: Graph, s: Node, current: Option<Node>, incoming: Option<Node>): Graph {
    if incoming.Some? && OptStr(current) != Str(incoming.value) then
      RemovePattern(rs, Some(s), SchemaDescription, current) + {Triple(s, SchemaDescription, incoming.value)}
    else rs
  }

  /** When the statement had at most the one description that was looked up,
      an update leaves it with exactly the new one; without an update nothing
      changes; other triples are never touched. */
  lemma DescriptionUpdateSets(rs: Graph, s: Node, current: Option<Node>, incoming: Option<Node>)
    requires current.Some? ==> Objects(rs, Some(s), SchemaDescription) == {current.value}
    requires current.None? ==> Objects(rs, Some(s), SchemaDescription) == {}
    ensures incoming.Some? && OptStr(current) != Str(incoming.value) ==>
              Objects(DescriptionUpdate(rs, s, current, incoming), Some(s), SchemaDescription) == {incoming.value}
    ensures !(incoming.Some? && OptStr(current) != Str(incoming.value)) ==>
              DescriptionUpdate(rs, s, current, incoming) == rs
    ensures forall t: Triple :: !(t.s == s && t.p == SchemaDescription) ==>
              (t in DescriptionUpdate(rs, s, current, incoming) <==> t in rs)
  {
    var r := DescriptionUpdate(rs, s, current, incoming);
    if incoming.Some? && OptStr(current) != Str(incoming.value) {
      ObjectsOfSubject(rs, s, SchemaDescription);
      ObjectsOfSubject(r, s, SchemaDescription);
      forall o
        ensures o in Objects(r, Some(s), SchemaDescription) <==> o == incoming.value
      {
        assert Triple(s, SchemaDescription, o) in r <==> o == incoming.value;
      }
    }
  }

  /** Once updated, looking the new description up and updating again changes nothing. */
  lemma DescriptionUpdateSettles(rs: Graph, s: Node, current: Option<Node>, incoming: Option<Node>)
    requires incoming.Some?
    ensures var r := DescriptionUpdate(rs, s, current, incoming);
            DescriptionUpdate(r, s, incoming, incoming) == r
  {
  }

  // ---------------------------------------------------------------------
  // The code as written when the person has no statement: rdflib takes the
  // None the statement lookup returns as a wildcard.

  /** rdflib refuses to add a triple whose subject is None, so the thread
      stops there and saves neither graph. */
  datatype SyncError = NoneSubject

  /** `__update_fast_subjects__` for a person without a statement: every
      subject of every statement is compared with every subject in the
      profile graph, each one the profile lacks is removed from all
      statements, and any subject to add makes the thread raise. */
  function WildcardAboutSync(rs: Graph, pg: Graph): (r: Result<Graph, SyncError>)
    ensures r.Failure? <==> Objects(pg, None, SchemaAbout) - Objects(rs, None, SchemaAbout) != {}
    ensures r.Success? ==> r.value <= rs
    ensures r.Success? ==> forall t :: t in rs ==>
              (t in r.value <==> !(t.p == SchemaAbout && t.o !in Objects(pg, None, SchemaAbout)))
  {
    var existing := Objects(rs, None, SchemaAbout);
    var incoming := Objects(pg, None, SchemaAbout);
    if incoming - existing != {} then Failure(NoneSubject)
    else Success(DropObjects(rs, SchemaAbout, existing - incoming))
  }

  /** rdflib's `graph.remove((None, p, o))` for every `o` of `objs`. */
  function DropObjects(g: Graph, p: Node, objs: set<Node>): (r: Graph)
    ensures forall t :: t in r <==> t in g && !(t.p == p && t.o in objs)
  {
    set t | t in g && !(t.p == p && t.o in objs)
  }

  /** Another person's statement loses its subject when someone without a
      statement saves a profile with no subjects. */
  lemma WildcardSyncDropsOtherSubjects()
    ensures var other := Triple(IRI("statement-2"), SchemaAbout, IRI("subject-x"));
            var owner := Triple(IRI("statement-2"), AccountablePerson, IRI("person-2"));
            WildcardAboutSync({owner, other}, {}) == Success({owner})
  {
    var other := Triple(IRI("statement-2"), SchemaAbout, IRI("subject-x"));
    var owner := Triple(IRI("statement-2"), AccountablePerson, IRI("person-2"));
    var rs: Graph := {owner, other};
    assert SchemaAbout.iri[19] != AccountablePerson.iri[19];
    assert Objects(rs, None, SchemaAbout) == {IRI("subject-x")};
    assert Objects({}, None, SchemaAbout) == {};
    assert Objects(rs, None, SchemaAbout) - Objects({}, None, SchemaAbout) == {IRI("subject-x")};
    assert Objects({}, None, SchemaAbout) - Objects(rs, None, SchemaAbout) == {};
    var kept := DropObjects(rs, SchemaAbout, {IRI("subject-x")});
    assert owner in kept && other !in kept;
    assert kept == {owner};
    assert WildcardAboutSync(rs, {}) == Success(kept);
  }

  // ---------------------------------------------------------------------
  // The corrected synchronisation.

  /** Taking `o` off the subjects still to do puts it among those done. */
  lemma MoveOne(all: set<Node>, todo: set<Node>, o: Node)
    requires o in todo && todo <= all
    ensures all - (todo - {o}) == (all - todo) + {o}
  {
  }

  /** The first loop of the subject sync: each dropped subject's triple is
      removed from the research statements. */
  method RemoveSubjects(rs: Graph, s: Node, drop: set<Node>) returns (r: Graph)
    ensures r == rs - AboutTriples(s, drop)
  {
    r := rs;
    var toRemove := drop;
    while toRemove != {}
      invariant toRemove <= drop
      invariant r == rs - AboutTriples(s, drop - toRemove)
      decreases toRemove
    {
      var o :| o in toRemove;
      RemoveStep(rs, s, drop - toRemove, o);
      r := r - {Triple(s, SchemaAbout, o)};
      MoveOne(drop, toRemove, o);
      toRemove := toRemove - {o};
    }
    assert drop - toRemove == drop;
  }

  /** After the subjects `done` were added: the statement is about them, the
      FAST subjects type them as topics and hold the labels chosen for them. */
  predicate AddedSoFar(rs: Graph, fs: Graph, s: Node, pg: Graph, done: set<Node>,
                       rs': Graph, fs': Graph, labels: map<Node, Node>) {
    && rs' == rs + AboutTriples(s, done)
    && fs' == fs + TopicTypes(done) + LabelTriples(labels)
    && ChosenLabels(pg, done, labels)
  }

  /** Adding one more subject `o`, whose looked-up label is `l`. */
  lemma AddSubjectStep(rs: Graph, fs: Graph, s: Node, pg: Graph, done: set<Node>,
                       rs': Graph, fs': Graph, labels: map<Node, Node>, o: Node, l: Option<Node>)
    requires AddedSoFar(rs, fs, s, pg, done, rs', fs', labels) && o !in done
    requires l.Some? ==> Triple(o, RdfsLabel, l.value) in pg
    requires l.None? <==> !HasLabel(pg, o)
    ensures AddedSoFar(rs, fs, s, pg, done + {o},
                       rs' + {Triple(s, SchemaAbout, o)},
                       fs' + {Triple(o, RdfType, BfTopic)} + (if l.Some? then {Triple(o, RdfsLabel, l.value)} else {}),
                       if l.Some? then labels[o := l.value] else labels)
  {
    AddStep(rs, s, done, o);
    FastSubjectsStep(fs, done, labels, o, l);
    ChosenLabelsStep(pg, done, labels, o, l);
  }

  /** The second loop of the subject sync: each new subject is added to the
      statement and typed as a topic in the FAST subjects, where it also gets
      one of its profile labels when it has any. */
  method AddSubjects(rs: Graph, fs: Graph, s: Node, add: set<Node>, pg: Graph)
    returns (rs': Graph, fs': Graph, labels: map<Node, Node>)
    ensures rs' == rs + AboutTriples(s, add)
    ensures fs' == fs + TopicTypes(add) + LabelTriples(labels)
    ensures ChosenLabels(pg, add, labels)
  {
    rs', fs', labels := rs, fs, map[];
    var toAdd := add;
    assert AboutTriples(s, {}) == {} && TopicTypes({}) == {} && LabelTriples(map[]) == {};
    while toAdd != {}
      invariant toAdd <= add
      invariant AddedSoFar(rs, fs, s, pg, add - toAdd, rs', fs', labels)
      decreases toAdd
    {
      var o :| o in toAdd;
      ghost var done := add - toAdd;
      var l := ObjectOf(pg, Some(o), RdfsLabel);
      AddSubjectStep(rs, fs, s, pg, done, rs', fs', labels, o, l);
      rs' := rs' + {Triple(s, SchemaAbout, o)};
      fs' := fs' + {Triple(o, RdfType, BfTopic)};
      if l.Some? {
        fs' := fs' + {Triple(o, RdfsLabel, l.value)};
        labels := labels[o := l.value];
      }
      MoveOne(add, toAdd, o);
      toAdd := toAdd - {o};
    }
    assert add - toAdd == add;
  }

  class ProfileUpdate {
    var researchStatements: Graph
    var fastSubjects: Graph
    const personIri: Node
    const profile: CitationGraph.EmailProfile

    /** The thread after it parsed the two graphs from the repository. */
    constructor(personIri: Node, profile: CitationGraph.EmailProfile, researchStatements: Graph, fastSubjects: Graph)
      ensures this.personIri == personIri && this.profile == profile
      ensures this.researchStatements == researchStatements && this.fastSubjects == fastSubjects
    {
      this.personIri := personIri;
      this.profile := profile;
      this.researchStatements := researchStatements;
      this.fastSubjects := fastSubjects;
    }

    /** Synchronises the subjects of the person's statement with the profile
        graph and records each added subject, with one of its labels when the
        profile has some, in the FAST subjects. A person without a statement
        changes nothing (see the findings in the README for what the code as
        written does then). */
    method UpdateFastSubjects() returns (stmt: Option<Node>, labels: map<Node, Node>)
      modifies this`researchStatements, this`fastSubjects
      ensures stmt.Some? ==> Triple(stmt.value, AccountablePerson, personIri) in old(researchStatements)
      ensures stmt.None? <==> forall t :: t in old(researchStatements) ==> !(t.p == AccountablePerson && t.o == personIri)
      ensures stmt.None? ==> researchStatements == old(researchStatements) && fastSubjects == old(fastSubjects)
      ensures stmt.Some? ==> researchStatements == SyncAbout(old(researchStatements), stmt.value, profile.graph)
      ensures stmt.Some? ==>
                var added := AddedSubjects(old(researchStatements), stmt.value, profile.graph);
                && fastSubjects == old(fastSubjects) + TopicTypes(added) + LabelTriples(labels)
                && ChosenLabels(profile.graph, added, labels)
    {
      labels := map[];
      stmt := SubjectOf(researchStatements, AccountablePerson, personIri);
      if stmt.None? {
        return;
      }
      var s := stmt.value;
      var existing := Objects(researchStatements, Some(s), SchemaAbout);
      var incoming := Objects(profile.graph, Some(s), SchemaAbout);
      var rs := RemoveSubjects(researchStatements, s, existing - incoming);
      var fs;
      rs, fs, labels := AddSubjects(rs, fastSubjects, s, incoming - existing, profile.graph);
      researchStatements := rs;
      fastSubjects := fs;
    }

    /** Replaces the description of the person's statement with the profile's
        when the profile has one whose text differs; the values the lookups
        chose are returned. For a person without a statement both lookups
        answer None, so nothing changes. */
    method UpdateResearchStatements() returns (stmt: Option<Node>, current: Option<Node>, incoming: Option<Node>)
      modifies this`researchStatements
      ensures stmt.Some? ==> Triple(stmt.value, AccountablePerson, personIri) in old(researchStatements)
      ensures stmt.None? <==> forall t :: t in old(researchStatements) ==> !(t.p == AccountablePerson && t.o == personIri)
      ensures stmt.None? ==> current.None? && incoming.None? && researchStatements == old(researchStatements)
      ensures stmt.Some? && current.Some? ==> Triple(stmt.value, SchemaDescription, current.value) in old(researchStatements)
      ensures stmt.Some? && current.None? ==> Objects(old(researchStatements), stmt, SchemaDescription) == {}
      ensures stmt.Some? && incoming.Some? ==> Triple(stmt.value, SchemaDescription, incoming.value) in profile.graph
      ensures stmt.Some? && incoming.None? ==> Objects(profile.graph, stmt, SchemaDescription) == {}
      ensures stmt.Some? ==> researchStatements == DescriptionUpdate(old(researchStatements), stmt.value, current, incoming)
    {
      stmt := SubjectOf(researchStatements, AccountablePerson, personIri);
      current := ObjectOf(researchStatements, stmt, SchemaDescription);
      incoming := ObjectOf(profile.graph, stmt, SchemaDescription);
      if incoming.Some? && OptStr(current) != Str(incoming.value) {
        var rs := RemovePattern(researchStatements, stmt, SchemaDescription, current);
        researchStatements := rs + {Triple(stmt.value, SchemaDescription, incoming.value)};
      }
    }
  }
}
