/** The Jinja template filters of the web application (app.py) that turn a
    SPARQL result row into display text, the statistics on the home page, and
    the citation dictionary `add_work` hands to the ingestion engine. A result
    row maps each bound variable to its value; Python's `row[key]` on a
    missing key raises a KeyError, which is a `Failure` here. */
module Filters {
  import opened Wrappers
  import opened Text
  import CitationGraph

  type Row = map<string, string>

  /** The key whose lookup raised a KeyError. */
  datatype KeyError = KeyError(key: string)

  /** `row[key]["value"]`. */
  function Get(row: Row, key: string): (r: Result<string, KeyError>)
    ensures r.Success? <==> key in row
    ensures r.Success? ==> r.value == row[key]
    ensures r.Failure? ==> r.error == KeyError(key)
  {
    if key in row then Success(row[key]) else Failure(KeyError(key))
  }

  /** The value under `key`, or "" when the row does not bind it. */
  function Field(row: Row, key: string): string {
    if key in row then row[key] else ""
  }

  // ---------------------------------------------------------------------
  // volume_issue_filter

  function VolumeIssue(row: Row): string {
    var volume := Field(row, "volume_number");
    var issue := Field(row, "issue_number");
    var s := if volume != "" then
               (if issue != "" then "v." + volume + " no." + issue else "v." + volume)
             else "";
    if volume == "" && issue != "" then "no." + issue else s
  }

  /** Volume and issue render as `v.V no.I`, `v.V`, `no.I` or nothing. */
  lemma VolumeIssueCases(row: Row)
    ensures var volume := Field(row, "volume_number");
            var issue := Field(row, "issue_number");
            && (volume != "" && issue != "" ==> VolumeIssue(row) == "v." + volume + " no." + issue)
            && (volume != "" && issue == "" ==> VolumeIssue(row) == "v." + volume)
            && (volume == "" && issue != "" ==> VolumeIssue(row) == "no." + issue)
            && (volume == "" && issue == "" ==> VolumeIssue(row) == "")
  {
  }

  /** The rendering is empty exactly when neither is given, and it starts
      with `v.` exactly when a volume is given. */
  lemma VolumeIssueShape(row: Row)
    ensures VolumeIssue(row) == "" <==> Field(row, "volume_number") == "" && Field(row, "issue_number") == ""
    ensures StartsWith(VolumeIssue(row), "v.") <==> Field(row, "volume_number") != ""
  {
    var volume := Field(row, "volume_number");
    var issue := Field(row, "issue_number");
    if volume == "" && issue != "" {
      assert VolumeIssue(row)[1] == 'o';
    }
  }

  // ---------------------------------------------------------------------
  // page_number_filter

  function PageNumber(row: Row): string {
    var start := Field(row, "page_start");
    var end := Field(row, "page_end");
    var s := if start != "" then "p." + start else "";
    var s' := if end != "" then s + "-" + end else s;
    if s' != "" then s' + "." else s'
  }

  /** Pages render as `p.S-E.`, `p.S.`, `-E.` or nothing. */
  lemma PageNumberCases(row: Row)
    ensures var start := Field(row, "page_start");
            var end := Field(row, "page_end");
            && (start != "" && end != "" ==> PageNumber(row) == "p." + start + "-" + end + ".")
            && (start != "" && end == "" ==> PageNumber(row) == "p." + start + ".")
            && (start == "" && end != "" ==> PageNumber(row) == "-" + end + ".")
            && (start == "" && end == "" ==> PageNumber(row) == "")
  {
  }

  /** The rendering is empty exactly when neither page is given, and
      otherwise ends with a full stop. */
  lemma PageNumberShape(row: Row)
    ensures PageNumber(row) == "" <==> Field(row, "page_start") == "" && Field(row, "page_end") == ""
    ensures PageNumber(row) != "" ==> PageNumber(row)[|PageNumber(row)| - 1] == '.'
  {
  }

  // ---------------------------------------------------------------------
  // book_edition_filter

  function BookEdition(row: Row): (r: string)
    ensures r != "" <==> "editionStatement" in row && row["editionStatement"] != ""
    ensures r != "" ==> r == row["editionStatement"] + " ed. "
  {
    if "editionStatement" in row && row["editionStatement"] != "" then row["editionStatement"] + " ed. " else ""
  }

  // ---------------------------------------------------------------------
  // book_title_filter and article_link_filter

  const TigerBase := "https://tiger.coloradocollege.edu/"

  /** The title as a link when the book's IRI is in the library's catalogue.
      The title is looked up before the book. */
  function BookTitle(row: Row): Result<string, KeyError> {
    var title := Get(row, "title");
    if title.Failure? then Failure(title.error)
    else
      var uri := Get(row, "book");
      if uri.Failure? then Failure(uri.error)
      else if StartsWith(uri.value, TigerBase) then
        Success("<a href='" + uri.value + "', target='_blank'>" + title.value + "</a>")
      else Success(title.value)
  }

  /** A catalogue book is a link to itself around its title; any other book
      is its bare title; a row without a title or a book raises, the title
      first. */
  lemma BookTitleCases(row: Row)
    ensures "title" !in row ==> BookTitle(row) == Failure(KeyError("title"))
    ensures "title" in row && "book" !in row ==> BookTitle(row) == Failure(KeyError("book"))
    ensures "title" in row && "book" in row && StartsWith(row["book"], TigerBase) ==>
              BookTitle(row) == Success("<a href='" + row["book"] + "', target='_blank'>" + row["title"] + "</a>")
    ensures "title" in row && "book" in row && !StartsWith(row["book"], TigerBase) ==>
              BookTitle(row) == Success(row["title"])
  {
  }

  /** The article name as a link when its URL is an http(s) URL. The URL is
      looked up before the name. */
  function ArticleLink(row: Row): Result<string, KeyError> {
    var url := Get(row, "url");
    if url.Failure? then Failure(url.error)
    else
      var name := Get(row, "name");
      if name.Failure? then Failure(name.error)
      else if StartsWith(url.value, "http") then
        Success("<a href='" + url.value + "' target='_blank'>" + name.value + "</a>")
      else Success(name.value)
  }

  lemma ArticleLinkCases(row: Row)
    ensures "url" !in row ==> ArticleLink(row) == Failure(KeyError("url"))
    ensures "url" in row && "name" !in row ==> ArticleLink(row) == Failure(KeyError("name"))
    ensures "url" in row && "name" in row && StartsWith(row["url"], "http") ==>
              ArticleLink(row) == Success("<a href='" + row["url"] + "' target='_blank'>" + row["name"] + "</a>")
    ensures "url" in row && "name" in row && !StartsWith(row["url"], "http") ==>
              ArticleLink(row) == Success(row["name"])
  {
  }

  /** Whatever the URL, the shown text holds the article's name. */
  lemma ArticleLinkShowsName(row: Row)
    requires "url" in row && "name" in row
    ensures ArticleLink(row).Success? && Contains(ArticleLink(row).value, row["name"])
  {
    var name := row["name"];
    if StartsWith(row["url"], "http") {
      var prefix := "<a href='" + row["url"] + "' target='_blank'>";
      var link := prefix + name + "</a>";
      assert link == ArticleLink(row).value;
      assert OccursAt(link, name, |prefix|) by {
        assert link[|prefix|..|prefix| + |name|] == name;
      }
    } else {
      assert OccursAt(name, name, 0) by {
        assert name[0..|name|] == name;
      }
    }
  }

  // ---------------------------------------------------------------------
  // get_iri

  /** The IRI a search-result row is about: its article, else its book,
      else its person, else "". */
  function ExtractIri(row: Row): (r: string)
    ensures "article" in row ==> r == row["article"]
    ensures "article" !in row && "book" in row ==> r == row["book"]
    ensures "article" !in row && "book" !in row && "person" in row ==> r == row["person"]
    ensures "article" !in row && "book" !in row && "person" !in row ==> r == ""
  {
    if "article" in row then row["article"]
    else if "book" in row then row["book"]
    else if "person" in row then row["person"]
    else ""
  }

  // ---------------------------------------------------------------------
  // get_stat

  /** The counting queries of the home page. */
  datatype Statistic = CountArticles | CountBookAuthors | CountBooks | CountJournals | CountOrgs | CountPeople

  /** Which count a statistic name asks for, by the prefix of its lower-cased
      form, in the order the code tests them. */
  function StatisticQuery(typeOf: string): Option<Statistic> {
    var t := Lower(typeOf);
    if StartsWith(t, "articles") then Some(CountArticles)
    else if StartsWith(t, "authors") then Some(CountBookAuthors)
    else if StartsWith(t, "book") then Some(CountBooks)
    else if StartsWith(t, "journal") then Some(CountJournals)
    else if StartsWith(t, "org") then Some(CountOrgs)
    else if StartsWith(t, "users") then Some(CountPeople)
    else None
  }

  /** The statistic text: the first count of the query's rows with comma
      thousands separators, or None for an unknown name or no rows. The
      datastore is a parameter that gives the counts of each query's rows. */
  function GenerateStatistic(typeOf: string, datastore: Statistic -> seq<int>): (r: Option<string>)
    ensures r.Some? <==> StatisticQuery(typeOf).Some? && |datastore(StatisticQuery(typeOf).value)| > 0
  {
    match StatisticQuery(typeOf)
    case None => None
    case Some(q) =>
      var result := datastore(q);
      if |result| > 0 then Some(FormatThousands(result[0])) else None
  }

  /** The prefix each count is asked for by. */
  function StatisticName(q: Statistic): string {
    match q
    case CountArticles => "articles"
    case CountBookAuthors => "authors"
    case CountBooks => "book"
    case CountJournals => "journal"
    case CountOrgs => "org"
    case CountPeople => "users"
  }

  /** Lower-casing twice is lower-casing once. */
  lemma LowerIdempotent(s: string)
    ensures Lower(Lower(s)) == Lower(s)
  {
  }

  /** The name is case-insensitive. */
  lemma StatisticQueryIgnoresCase(typeOf: string)
    ensures StatisticQuery(Lower(typeOf)) == StatisticQuery(typeOf)
  {
    LowerIdempotent(typeOf);
  }

  /** A string that starts with a prefix shares its first two characters. */
  lemma StartsWithHead(t: string, prefix: string)
    requires |prefix| >= 2
    ensures StartsWith(t, prefix) ==> |t| >= 2 && t[0] == prefix[0] && t[1] == prefix[1]
  {
    if StartsWith(t, prefix) {
      assert t[..|prefix|][0] == t[0] && t[..|prefix|][1] == t[1];
    }
  }

  /** The six prefixes differ in their first two letters, so the order of the
      tests does not matter: a name selects a count exactly when, lower-cased,
      it starts with that count's prefix. */
  lemma StatisticQueryByName(typeOf: string, q: Statistic)
    ensures StatisticQuery(typeOf) == Some(q) <==> StartsWith(Lower(typeOf), StatisticName(q))
  {
    var t := Lower(typeOf);
    StartsWithHead(t, "articles");
    StartsWithHead(t, "authors");
    StartsWithHead(t, "book");
    StartsWithHead(t, "journal");
    StartsWithHead(t, "org");
    StartsWithHead(t, "users");
  }

  /** A name selects no count exactly when it starts with none of the prefixes. */
  lemma StatisticQueryUnknown(typeOf: string)
    ensures StatisticQuery(typeOf).None? <==> forall q :: !StartsWith(Lower(typeOf), StatisticName(q))
  {
    if StatisticQuery(typeOf).Some? {
      StatisticQueryByName(typeOf, StatisticQuery(typeOf).value);
    } else {
      forall q
        ensures !StartsWith(Lower(typeOf), StatisticName(q))
      {
        StatisticQueryByName(typeOf, q);
      }
    }
  }

  /** A non-negative count is shown with its digits intact: deleting the
      separators gives Python's `str` of the count. */
  lemma GenerateStatisticDigits(typeOf: string, datastore: Statistic -> seq<int>)
    requires StatisticQuery(typeOf).Some?
    requires |datastore(StatisticQuery(typeOf).value)| > 0
    requires datastore(StatisticQuery(typeOf).value)[0] >= 0
    ensures var r := GenerateStatistic(typeOf, datastore);
            var n := datastore(StatisticQuery(typeOf).value)[0];
            r.Some? && RemoveCommas(r.value) == NatToString(n) && WellGrouped(r.value)
  {
    var n := datastore(StatisticQuery(typeOf).value)[0];
    GroupThousandsDigits(n);
    GroupThousandsWellGrouped(n);
  }

  // ---------------------------------------------------------------------
  // add_work's raw_citation

  /** `add_work` fails before it builds anything when the citation type
      selects no form class (`work_form` is then unbound), and aborts with 500
      for a type that passes the first test but neither branch (this cannot
      happen). */
  datatype CitationError = UnboundForm | Abort500

  /** The keys of the citation dictionary; `KeyName` gives the string the
      code uses for each. */
  datatype CitationKey =
    | EntryType | AuthorKey | Year | Journal | Title | PageStart | PageEnd | Month
    | VolumeNumber | Number | Doi | Link | Abstract

  function KeyName(k: CitationKey): string {
    match k
    case EntryType => "ENTRYTYPE"
    case AuthorKey => "author"
    case Year => "year"
    case Journal => "journal"
    case Title => "title"
    case PageStart => "page_start"
    case PageEnd => "page_end"
    case Month => "month"
    case VolumeNumber => "volume_number"
    case Number => "number"
    case Doi => "doi"
    case Link => "link"
    case Abstract => "abstract"
  }

  /** The entry under each key of the citation dictionary, or None when
      the key is absent: every citation carries its type, author string and
      year; an article its journal and title and each optional field exactly
      when it was given (the issue under `number`, the URL under `link`); a
      chapter no title; a book its book title; and any citation the abstract
      when it was given. */
  function Entry(citationType: string, form: CitationGraph.WorkForm, key: CitationKey): Option<string> {
    var article := StartsWith(citationType, "article");
    var book := !article && !StartsWith(citationType, "book-chapter") && StartsWith(citationType, "book");
    match key
    case EntryType => Some(citationType)
    case AuthorKey => Some(form.authorString)
    case Year => Some(form.datePublished)
    case Title => if article then ArticleEntry(form, key) else if book then Some(form.bookTitle) else None
    case Abstract => form.abstractText
    case _ => if article then ArticleEntry(form, key) else None
  }

  /** The entries only an article citation has. */
  function ArticleEntry(form: CitationGraph.WorkForm, key: CitationKey): Option<string> {
    match key
    case Journal => Some(form.journalTitle)
    case Title => Some(form.articleTitle)
    case PageStart => form.pageStart
    case PageEnd => form.pageEnd
    case Month => form.month
    case VolumeNumber => form.volumeNumber
    case Number => form.issueNumber
    case Doi => form.doi
    case Link => form.url
    case _ => None
  }

  /** The citation dictionary: the three entries every citation has and
      the optional ones, None where the dictionary lacks the key. */
  datatype RawCitation = RawCitation(
    entryType: string, author: string, year: string,
    journal: Option<string>, title: Option<string>,
    pageStart: Option<string>, pageEnd: Option<string>, month: Option<string>,
    volumeNumber: Option<string>, number: Option<string>, doi: Option<string>,
    link: Option<string>, abstractText: Option<string>)

  /** `raw.get(KeyName(key))`. */
  function Lookup(raw: RawCitation, key: CitationKey): Option<string> {
    match key
    case EntryType => Some(raw.entryType)
    case AuthorKey => Some(raw.author)
    case Year => Some(raw.year)
    case Journal => raw.journal
    case Title => raw.title
    case PageStart => raw.pageStart
    case PageEnd => raw.pageEnd
    case Month => raw.month
    case VolumeNumber => raw.volumeNumber
    case Number => raw.number
    case Doi => raw.doi
    case Link => raw.link
    case Abstract => raw.abstractText
  }

  /** The citation dictionary for a citation type and a validated form, field by field. */
  function CitationOf(citationType: string, form: CitationGraph.WorkForm): RawCitation {
    var article := StartsWith(citationType, "article");
    var book := !article && !StartsWith(citationType, "book-chapter") && StartsWith(citationType, "book");
    RawCitation(citationType, form.authorString, form.datePublished,
                if article then Some(form.journalTitle) else None,
                if article then Some(form.articleTitle) else if book then Some(form.bookTitle) else None,
                if article then form.pageStart else None,
                if article then form.pageEnd else None,
                if article then form.month else None,
                if article then form.volumeNumber else None,
                if article then form.issueNumber else None,
                if article then form.doi else None,
                if article then form.url else None,
                form.abstractText)
  }

  /** The record holds, under every key, the entry the key-by-key
      description gives. */
  lemma CitationOfEntries(citationType: string, form: CitationGraph.WorkForm)
    ensures forall k :: Lookup(CitationOf(citationType, form), k) == Entry(citationType, form, k)
  {
  }

  /** add_work's dictionary, built key by key as the code does; a type that
      starts with neither `article` nor `book` leaves `work_form` unbound. */
  method BuildRawCitation(citationType: string, form: CitationGraph.WorkForm)
    returns (r: Result<RawCitation, CitationError>)
    ensures r.Failure? <==> !StartsWith(citationType, "article") && !StartsWith(citationType, "book")
    ensures r.Failure? ==> r.error == UnboundForm
    ensures r.Success? ==> r.value == CitationOf(citationType, form)
  {
    if !StartsWith(citationType, "article") && !StartsWith(citationType, "book") {
      return Failure(UnboundForm);
    }
    var raw := RawCitation(citationType, form.authorString, form.datePublished,
                           None, None, None, None, None, None, None, None, None, None);
    if StartsWith(citationType, "article") {
      raw := raw.(journal := Some(form.journalTitle));
      raw := raw.(title := Some(form.articleTitle));
      if form.pageStart.Some? {
        raw := raw.(pageStart := form.pageStart);
      }
      if form.pageEnd.Some? {
        raw := raw.(pageEnd := form.pageEnd);
      }
      if form.month.Some? {
        raw := raw.(month := form.month);
      }
      if form.volumeNumber.Some? {
        raw := raw.(volumeNumber := form.volumeNumber);
      }
      if form.issueNumber.Some? {
        raw := raw.(number := form.issueNumber);
      }
      if form.doi.Some? {
        raw := raw.(doi := form.doi);
      }
      if form.url.Some? {
        raw := raw.(link := form.url);
      }
    } else if StartsWith(citationType, "book-chapter") {
    } else if StartsWith(citationType, "book") {
      raw := raw.(title := Some(form.bookTitle));
    } else {
      return Failure(Abort500);
    }
    if form.abstractText.Some? {
      raw := raw.(abstractText := form.abstractText);
    }
    r := Success(raw);
  }
}
