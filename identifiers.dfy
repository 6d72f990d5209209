/** Identifiers the profile code derives from its inputs: the path of the
    current academic year's graph file and the IRIs of FAST subject headings
    submitted with a profile form. */
module Identifiers {
  import opened Wrappers
  import opened Text

  // ---------------------------------------------------------------------------
  // The academic-year graph path (GitProfile.__init__). The clock reading is an
  // input here: `year` and `month` are those of `datetime.utcnow()`.
  // ---------------------------------------------------------------------------

  /** Academic years run from July to June: the date (`year`, `month`) falls in
      the academic year that starts in July of `start`. */
  predicate InAcademicYear(start: int, year: int, month: int) {
    && (start < year || (start == year && 7 <= month))
    && (year < start + 1 || (year == start + 1 && month < 7))
  }

  /** The calendar year in which the current academic year began. */
  function StartYear(year: int, month: int): (start: nat)
    requires 1 <= year && 1 <= month <= 12
    ensures InAcademicYear(start, year, month)
    ensures forall s :: InAcademicYear(s, year, month) ==> s == start
  {
    if month < 7 then year - 1 else year
  }

  const YearPathPrefix := "/KnowledgeGraph/cc-"
  const YearPathSuffix := ".ttl"

  /** `/KnowledgeGraph/cc-{start}-{end}.ttl` with end = start + 1. */
  function AcademicYearPath(year: int, month: int): string
    requires 1 <= year && 1 <= month <= 12
  {
    var start := StartYear(year, month);
    YearPathPrefix + NatToString(start) + "-" + NatToString(start + 1) + YearPathSuffix
  }

  /** Reads the two years back out of a path of that shape. */
  function ParseYearPath(path: string): Option<(nat, nat)> {
    if |path| >= |YearPathPrefix| + |YearPathSuffix|
       && path[..|YearPathPrefix|] == YearPathPrefix
       && path[|path| - |YearPathSuffix|..] == YearPathSuffix
    then
      var parts := Split(path[|YearPathPrefix|..|path| - |YearPathSuffix|], "-");
      if |parts| == 2 && AllDigits(parts[0]) && AllDigits(parts[1]) && |parts[0]| > 0 && |parts[1]| > 0
      then Some((ParseNat(parts[0]), ParseNat(parts[1])))
      else None
    else None
  }

  lemma DigitsHoldNoDash(s: string)
    requires AllDigits(s)
    ensures forall k :: 0 <= k < |s| ==> s[k] !in "-"
  {
    forall k | 0 <= k < |s| ensures s[k] !in "-" {
      assert IsDigit(s[k]);
    }
  }

  /** Two numerals joined by a dash split back into the two. */
  lemma SplitYears(a: string, b: string)
    requires AllDigits(a) && AllDigits(b)
    ensures Split(a + "-" + b, "-") == [a, b]
  {
    DigitsHoldNoDash(a);
    DigitsHoldNoDash(b);
    SplitAfterPrefix(a, "-", b);
    SplitNoSeparator(b, "-");
  }

  /** A path built around a body that splits into two numerals parses into
      their values. */
  lemma ParseYearPathOfBody(body: string, a: string, b: string)
    requires Split(body, "-") == [a, b]
    requires AllDigits(a) && AllDigits(b) && |a| > 0 && |b| > 0
    ensures ParseYearPath(YearPathPrefix + body + YearPathSuffix) == Some((ParseNat(a), ParseNat(b)))
  {
    var path := YearPathPrefix + body + YearPathSuffix;
    assert path[..|YearPathPrefix|] == YearPathPrefix;
    assert path[|path| - |YearPathSuffix|..] == YearPathSuffix;
    assert path[|YearPathPrefix|..|path| - |YearPathSuffix|] == body;
  }

  lemma ParseYearPathOf(start: nat, end: nat)
    ensures ParseYearPath(YearPathPrefix + NatToString(start) + "-" + NatToString(end) + YearPathSuffix)
            == Some((start, end))
  {
    var a, b := NatToString(start), NatToString(end);
    assert YearPathPrefix + a + "-" + b + YearPathSuffix == YearPathPrefix + (a + "-" + b) + YearPathSuffix;
    SplitYears(a, b);
    ParseYearPathOfBody(a + "-" + b, a, b);
    ParseNatToString(start);
    ParseNatToString(end);
  }

  /** The path names exactly one academic year: parsing it gives back the
      start year of the date and the year after it. */
  lemma AcademicYearPathRoundTrip(year: int, month: int)
    requires 1 <= year && 1 <= month <= 12
    ensures ParseYearPath(AcademicYearPath(year, month))
            == Some((StartYear(year, month), StartYear(year, month) + 1))
  {
    ParseYearPathOf(StartYear(year, month), StartYear(year, month) + 1);
  }

  // ---------------------------------------------------------------------------
  // FAST subject headings (add_profile, update_profile). Each submitted row is
  // `id==label`; the id is either an IRI already or a FAST number such as
  // `fst01234`.
  // ---------------------------------------------------------------------------

  const FastBase := "http://id.worldcat.org/fast/"

  /** Python's `s[3:]`, which is empty for a string shorter than three. */
  function DropThree(s: string): string {
    if |s| >= 3 then s[3..] else ""
  }

  /** The IRI of a FAST heading id. */
  function FastIri(fastId: string): (iri: string)
    ensures StartsWith(fastId, "http") ==> iri == fastId
    ensures !StartsWith(fastId, "http") ==> iri == FastBase + DropThree(fastId)
  {
    if StartsWith(fastId, "http") then fastId else FastBase + DropThree(fastId)
  }

  /** Every id becomes an `http` IRI, and normalising an IRI changes nothing. */
  lemma FastIriNormalises(fastId: string)
    ensures StartsWith(FastIri(fastId), "http")
    ensures FastIri(FastIri(fastId)) == FastIri(fastId)
  {
    if !StartsWith(fastId, "http") {
      assert (FastBase + DropThree(fastId))[..4] == "http";
    }
  }

  /** A FAST number written with its three-letter prefix maps to the
      WorldCat FAST IRI of the number. */
  lemma FastIriOfNumber(digits: string)
    ensures FastIri("fst" + digits) == FastBase + digits
  {
    var id := "fst" + digits;
    assert id[0] == 'f';
    assert id[3..] == digits;
  }

  /** Python's `fast_id, fast_label = row.split("==")` raises a ValueError
      unless the split gives exactly two pieces. */
  datatype RowError = UnpackError(pieces: nat)

  function ParseSubjectRow(row: string): (r: Result<(string, string), RowError>)
    ensures r.Success? ==> row == r.value.0 + "==" + r.value.1
    ensures r.Failure? ==> r.error.pieces != 2
  {
    var parts := Split(row, "==");
    if |parts| == 2 then
      SplitJoin(row, "==");
      assert parts[1..] == [parts[1]];
      Success((parts[0], parts[1]))
    else Failure(UnpackError(|parts|))
  }

  /** A row parses exactly when `split("==")` gives two pieces; otherwise the
      error carries the number of pieces. */
  lemma ParseSubjectRowPieces(row: string)
    ensures ParseSubjectRow(row).Success? <==> |Split(row, "==")| == 2
    ensures ParseSubjectRow(row).Failure? ==> ParseSubjectRow(row).error == UnpackError(|Split(row, "==")|)
  {
  }

  /** A bare id such as `fst01234`, with no `=` in it, is one piece: the
      unpacking raises. */
  lemma ParseSubjectRowBare(row: string)
    requires forall k :: 0 <= k < |row| ==> row[k] != '='
    ensures ParseSubjectRow(row) == Failure(UnpackError(1))
  {
    SplitNoSeparator(row, "==");
  }

  /** A row with a second `==` splits into three pieces: the unpacking raises. */
  lemma ParseSubjectRowThreePieces(a: string, b: string, c: string)
    requires forall k :: 0 <= k < |a| ==> a[k] != '='
    requires forall k :: 0 <= k < |b| ==> b[k] != '='
    requires forall k :: 0 <= k < |c| ==> c[k] != '='
    ensures ParseSubjectRow(a + "==" + b + "==" + c) == Failure(UnpackError(3))
  {
    var row := a + "==" + b + "==" + c;
    assert row == a + "==" + (b + "==" + c);
    SplitNoSeparator(c, "==");
    SplitAfterPrefix(b, "==", c);
    SplitAfterPrefix(a, "==", b + "==" + c);
    assert Split(row, "==") == [a, b, c];
    ParseSubjectRowPieces(row);
  }

  /** The index of the first row from `from` on that does not parse, or
      |rows| when they all do. */
  function FirstUnparsed(rows: seq<string>, from: nat): (k: nat)
    requires from <= |rows|
    ensures from <= k <= |rows|
    decreases |rows| - from
  {
    if from == |rows| then from
    else if ParseSubjectRow(rows[from]).Failure? then from
    else FirstUnparsed(rows, from + 1)
  }

  /** Every row before the first unparsed one parses, and that one does not. */
  lemma {:induction false} FirstUnparsedSpec(rows: seq<string>, from: nat)
    requires from <= |rows|
    ensures forall i :: from <= i < FirstUnparsed(rows, from) ==> ParseSubjectRow(rows[i]).Success?
    ensures FirstUnparsed(rows, from) < |rows| ==> ParseSubjectRow(rows[FirstUnparsed(rows, from)]).Failure?
    decreases |rows| - from
  {
    if from < |rows| && ParseSubjectRow(rows[from]).Success? {
      FirstUnparsedSpec(rows, from + 1);
    }
  }

  /** A row built from an id and a label that hold no `=` parses back into them. */
  lemma ParseSubjectRowOfPair(fastId: string, fastLabel: string)
    requires '=' !in fastId && '=' !in fastLabel
    ensures ParseSubjectRow(fastId + "==" + fastLabel) == Success((fastId, fastLabel))
  {
    assert forall k :: 0 <= k < |fastId| ==> fastId[k] !in "==";
    assert forall k :: 0 <= k < |fastLabel| ==> fastLabel[k] !in "==";
    SplitAfterPrefix(fastId, "==", fastLabel);
    SplitNoSeparator(fastLabel, "==");
  }

  /** The IRI and the label a row contributes ("" for a row that does not parse). */
  function RowIri(row: string): string {
    match ParseSubjectRow(row)
    case Success(p) => FastIri(p.0)
    case Failure(_) => ""
  }

  function RowLabel(row: string): string {
    match ParseSubjectRow(row)
    case Success(p) => p.1
    case Failure(_) => ""
  }

  /** Row `k` is the last of the first `n` rows whose IRI is `key`. */
  predicate IsLastRow(rows: seq<string>, n: nat, key: string, k: int) {
    0 <= k < n <= |rows| && RowIri(rows[k]) == key && forall j :: k < j < n ==> RowIri(rows[j]) != key
  }

  /** The `new_subjects` dictionary of add_profile as a fold over the rows:
      each row is recorded under its IRI, replacing any earlier label, and the
      first row that does not split into two pieces raises. */
  function SubjectMap(rows: seq<string>): Result<map<string, string>, RowError>
    decreases |rows|
  {
    if |rows| == 0 then Success(map[])
    else
      match SubjectMap(rows[..|rows| - 1])
      case Failure(e) => Failure(e)
      case Success(m) =>
        match ParseSubjectRow(rows[|rows| - 1])
        case Failure(e) => Failure(e)
        case Success(p) => Success(m[FastIri(p.0) := p.1])
  }

  /** The fold fails exactly when some row does not parse. */
  lemma {:induction false} SubjectMapFails(rows: seq<string>)
    ensures SubjectMap(rows).Success? <==> forall i :: 0 <= i < |rows| ==> ParseSubjectRow(rows[i]).Success?
    decreases |rows|
  {
    if |rows| > 0 {
      var init := rows[..|rows| - 1];
      SubjectMapFails(init);
      assert forall i :: 0 <= i < |init| ==> init[i] == rows[i];
    }
  }

  /** A successful fold is the fold of all rows but the last, with the last
      row's label recorded under its IRI. */
  lemma SubjectMapStep(rows: seq<string>)
    requires |rows| > 0 && SubjectMap(rows).Success?
    ensures SubjectMap(rows[..|rows| - 1]).Success?
    ensures SubjectMap(rows).value
         == SubjectMap(rows[..|rows| - 1]).value[RowIri(rows[|rows| - 1]) := RowLabel(rows[|rows| - 1])]
  {
  }

  /** Every row's IRI is a key of the fold. */
  lemma {:induction false} SubjectMapKeys(rows: seq<string>)
    requires SubjectMap(rows).Success?
    ensures forall i :: 0 <= i < |rows| ==> RowIri(rows[i]) in SubjectMap(rows).value
    decreases |rows|
  {
    if |rows| > 0 {
      var n := |rows| - 1;
      var init := rows[..n];
      SubjectMapStep(rows);
      SubjectMapKeys(init);
      var before, after := SubjectMap(init).value, SubjectMap(rows).value;
      var key := RowIri(rows[n]);
      assert after == before[key := RowLabel(rows[n])];
      assert key in after;
      forall i | 0 <= i < |rows|
        ensures RowIri(rows[i]) in after
      {
        if i < n {
          assert init[i] == rows[i];
          assert RowIri(rows[i]) in before;
        } else {
          assert rows[i] == rows[n];
        }
      }
    }
  }

  /** Duplicates collapse and the last label wins: each key holds the label of
      the last row with that IRI. */
  lemma {:induction false} SubjectMapLastWins(rows: seq<string>)
    requires SubjectMap(rows).Success?
    ensures forall key :: key in SubjectMap(rows).value ==>
              exists i :: IsLastRow(rows, |rows|, key, i) && SubjectMap(rows).value[key] == RowLabel(rows[i])
    decreases |rows|
  {
    if |rows| > 0 {
      var n := |rows| - 1;
      var init := rows[..n];
      SubjectMapStep(rows);
      SubjectMapLastWins(init);
      var before := SubjectMap(init).value;
      forall key | key in before
        ensures exists k :: IsLastRow(rows, n, key, k) && before[key] == RowLabel(rows[k])
      {
        var k :| IsLastRow(init, n, key, k) && before[key] == RowLabel(init[k]);
        assert init[k] == rows[k];
        forall j | k < j < n
          ensures RowIri(rows[j]) != key
        {
          assert init[j] == rows[j];
        }
        assert IsLastRow(rows, n, key, k);
      }
      LastRowStep(rows, n, before, RowIri(rows[n]), RowLabel(rows[n]), SubjectMap(rows).value);
    }
  }

  /** Recording row `i` under its IRI keeps every entry tied to the last row with its key. */
  lemma LastRowStep(rows: seq<string>, i: nat, before: map<string, string>, key0: string, label0: string,
                    after: map<string, string>)
    requires i < |rows| && RowIri(rows[i]) == key0 && RowLabel(rows[i]) == label0
    requires forall key :: key in before ==> exists k :: IsLastRow(rows, i, key, k) && before[key] == RowLabel(rows[k])
    requires after == before[key0 := label0]
    ensures forall key :: key in after ==> exists k :: IsLastRow(rows, i + 1, key, k) && after[key] == RowLabel(rows[k])
  {
    forall key | key in after
      ensures exists k :: IsLastRow(rows, i + 1, key, k) && after[key] == RowLabel(rows[k])
    {
      if key == key0 {
        assert after[key] == label0;
        assert IsLastRow(rows, i + 1, key, i);
      } else {
        assert key in before && after[key] == before[key];
        var k :| IsLastRow(rows, i, key, k) && before[key] == RowLabel(rows[k]);
        LastRowStays(rows, i, key, k);
      }
    }
  }

  /** The last row with a key other than row `i`'s stays the last one once
      row `i` is included. */
  lemma LastRowStays(rows: seq<string>, i: nat, key: string, k: int)
    requires i < |rows| && RowIri(rows[i]) != key && IsLastRow(rows, i, key, k)
    ensures IsLastRow(rows, i + 1, key, k)
  {
  }

  /** add_profile's loop over the submitted rows, filling `new_subjects`. */
  method NormaliseSubjects(rows: seq<string>) returns (r: Result<map<string, string>, RowError>)
    ensures r == SubjectMap(rows)
  {
    var subjects: map<string, string> := map[];
    for i := 0 to |rows|
      invariant SubjectMap(rows[..i]) == Success(subjects)
    {
      assert rows[..i + 1][..i] == rows[..i];
      var parsed := ParseSubjectRow(rows[i]);
      if parsed.Failure? {
        assert SubjectMap(rows[..i + 1]) == Failure(parsed.error);
        SubjectMapFailureStays(rows, i + 1);
        return Failure(parsed.error);
      }
      var (fastId, fastLabel) := parsed.value;
      var fastUri := FastIri(fastId);
      subjects := subjects[fastUri := fastLabel];
    }
    assert rows[..|rows|] == rows;
    r := Success(subjects);
  }

  /** Once a prefix of the rows fails, the whole fold fails with the same error. */
  lemma {:induction false} SubjectMapFailureStays(rows: seq<string>, n: nat)
    requires n <= |rows| && SubjectMap(rows[..n]).Failure?
    ensures SubjectMap(rows) == SubjectMap(rows[..n])
    decreases |rows| - n
  {
    if n < |rows| {
      assert rows[..n + 1][..n] == rows[..n];
      SubjectMapFailureStays(rows, n + 1);
    } else {
      assert rows[..n] == rows;
    }
  }
}
