/** String operations of Python and SPARQL that the rest of the model relies on:
    prefix and substring tests, `str.split`, decimal rendering of integers and the
    `"{:,}"` thousands-separator format. Strings are sequences of characters. */
module Text {
  import opened Wrappers

  /** Python's `str.startswith`. */
  predicate StartsWith(s: string, prefix: string) {
    |prefix| <= |s| && s[..|prefix|] == prefix
  }

  /** `sub` occurs in `s` starting at index `i`. */
  predicate OccursAt(s: string, sub: string, i: nat) {
    i + |sub| <= |s| && s[i..i + |sub|] == sub
  }

  lemma ShiftOccurs(s: string, sub: string)
    requires |s| >= 1
    ensures forall i: nat :: OccursAt(s[1..], sub, i) <==> OccursAt(s, sub, i + 1)
  {
    forall i: nat ensures OccursAt(s[1..], sub, i) <==> OccursAt(s, sub, i + 1) {
      if i + 1 + |sub| <= |s| {
        assert s[1..][i..i + |sub|] == s[i + 1..i + 1 + |sub|];
      }
    }
  }

  /** Case-sensitive substring test, as SPARQL's CONTAINS applies it to two
      lexical forms: true exactly when `sub` occurs somewhere in `s`. */
  function Contains(s: string, sub: string): (b: bool)
    ensures b <==> exists i: nat :: OccursAt(s, sub, i)
    decreases |s|
  {
    if |sub| > |s| then false
    else if OccursAt(s, sub, 0) then true
    else
      ShiftOccurs(s, sub);
      var r := Contains(s[1..], sub);
      assert r ==> exists i: nat :: OccursAt(s, sub, i) by {
        if r {
          var i: nat :| OccursAt(s[1..], sub, i);
          assert OccursAt(s, sub, i + 1);
        }
      }
      assert (exists i: nat :: OccursAt(s, sub, i)) ==> r by {
        if exists i: nat :: OccursAt(s, sub, i) {
          var i: nat :| OccursAt(s, sub, i);
          assert i != 0;
          assert OccursAt(s[1..], sub, i - 1);
        }
      }
      r
  }

  /** The first index at or after `k` where `sub` occurs in `s`, if any. */
  function FindFrom(s: string, sub: string, k: nat): (r: Option<nat>)
    requires |sub| > 0
    ensures r.Some? ==> k <= r.value && OccursAt(s, sub, r.value)
    ensures r.Some? ==> forall j: nat :: k <= j < r.value ==> !OccursAt(s, sub, j)
    ensures r.None? ==> forall j: nat :: k <= j ==> !OccursAt(s, sub, j)
    decreases |s| - k
  {
    if k + |sub| > |s| then None
    else if OccursAt(s, sub, k) then Some(k)
    else FindFrom(s, sub, k + 1)
  }

  /** Python's `str.split(sep)`: the pieces of `s` between the occurrences of
      `sep`, which are found left to right and do not overlap. */
  function Split(s: string, sep: string): (parts: seq<string>)
    requires |sep| > 0
    ensures |parts| >= 1
    decreases |s|
  {
    match FindFrom(s, sep, 0)
    case None => [s]
    case Some(i) => [s[..i]] + Split(s[i + |sep|..], sep)
  }

  /** A string with no occurrence of `sep` before index `i` has none in its
      first `i` characters. */
  lemma NoOccurrenceInPrefix(s: string, sep: string, i: nat)
    requires |sep| > 0 && i <= |s|
    requires forall j: nat :: j < i ==> !OccursAt(s, sep, j)
    ensures forall j: nat :: !OccursAt(s[..i], sep, j)
  {
    forall j: nat ensures !OccursAt(s[..i], sep, j) {
      if j + |sep| <= i {
        assert !OccursAt(s, sep, j);
        assert s[..i][j..j + |sep|] == s[j..j + |sep|];
      }
    }
  }

  /** The string is cut at every occurrence of `sep`: no piece holds one. */
  lemma {:induction false} SplitPiecesAvoidSeparator(s: string, sep: string)
    requires |sep| > 0
    ensures forall k :: 0 <= k < |Split(s, sep)| ==> forall j: nat :: !OccursAt(Split(s, sep)[k], sep, j)
    decreases |s|
  {
    match FindFrom(s, sep, 0)
    case None =>
      assert Split(s, sep) == [s];
    case Some(i) =>
      var rest := s[i + |sep|..];
      SplitFirstCut(s, sep, i);
      SplitPiecesAvoidSeparator(rest, sep);
      NoOccurrenceInPrefix(s, sep, i);
      var parts := Split(s, sep);
      forall k | 0 <= k < |parts| ensures forall j: nat :: !OccursAt(parts[k], sep, j) {
        if k > 0 {
          assert parts[k] == Split(rest, sep)[k - 1];
        }
      }
  }

  /** Python's `sep.join(parts)`. */
  function Join(parts: seq<string>, sep: string): string
    decreases |parts|
  {
    if |parts| == 0 then ""
    else if |parts| == 1 then parts[0]
    else parts[0] + sep + Join(parts[1..], sep)
  }

  /** Splitting loses nothing: joining the pieces back gives the string. */
  lemma {:induction false} SplitJoin(s: string, sep: string)
    requires |sep| > 0
    ensures Join(Split(s, sep), sep) == s
    decreases |s|
  {
    match FindFrom(s, sep, 0)
    case None =>
    case Some(i) =>
      var rest := s[i + |sep|..];
      SplitFirstCut(s, sep, i);
      SplitJoin(rest, sep);
      JoinCons(s[..i], Split(rest, sep), sep);
  }

  /** The first cut of a split, where `sep` is first found. */
  lemma SplitFirstCut(s: string, sep: string, i: nat)
    requires |sep| > 0 && FindFrom(s, sep, 0) == Some(i)
    ensures Split(s, sep) == [s[..i]] + Split(s[i + |sep|..], sep)
    ensures s == s[..i] + sep + s[i + |sep|..]
  {
    assert OccursAt(s, sep, i);
    assert s == s[..i] + s[i..i + |sep|] + s[i + |sep|..];
  }

  lemma JoinCons(a: string, tail: seq<string>, sep: string)
    requires |tail| >= 1
    ensures Join([a] + tail, sep) == a + sep + Join(tail, sep)
  {
    assert ([a] + tail)[1..] == tail;
  }

  /** When no character of `sep` occurs in `a`, the first cut of
      `a + sep + b` falls right after `a`. */
  lemma SplitAfterPrefix(a: string, sep: string, b: string)
    requires |sep| > 0
    requires forall k :: 0 <= k < |a| ==> a[k] !in sep
    ensures Split(a + sep + b, sep) == [a] + Split(b, sep)
  {
    var s := a + sep + b;
    assert OccursAt(s, sep, |a|) by {
      assert s[|a|..|a| + |sep|] == sep;
    }
    forall j: nat | j < |a| ensures !OccursAt(s, sep, j) {
      assert s[j] == a[j] && sep[0] in sep;
      assert s[j..j + |sep|][0] == s[j] != sep[0];
    }
    var r := FindFrom(s, sep, 0);
    assert r == Some(|a|);
    assert s[..|a|] == a;
    assert s[|a| + |sep|..] == b;
  }

  /** A string holding no character of `sep` splits into itself alone. */
  lemma SplitNoSeparator(b: string, sep: string)
    requires |sep| > 0
    requires forall k :: 0 <= k < |b| ==> b[k] !in sep
    ensures Split(b, sep) == [b]
  {
    forall j: nat ensures !OccursAt(b, sep, j) {
      if j + |sep| <= |b| {
        assert b[j] !in sep && sep[0] in sep;
        assert b[j..j + |sep|][0] == b[j] != sep[0];
      }
    }
  }

  predicate IsDigit(c: char) {
    '0' <= c <= '9'
  }

  predicate AllDigits(s: string) {
    forall k :: 0 <= k < |s| ==> IsDigit(s[k])
  }

  function DigitChar(d: nat): (c: char)
    requires d < 10
    ensures IsDigit(c)
  {
    ('0' as int + d) as char
  }

  function DigitValue(c: char): (d: nat)
    requires IsDigit(c)
    ensures d < 10 && DigitChar(d) == c
  {
    c as int - '0' as int
  }

  /** Python's `str(n)` for a non-negative integer: decimal digits, most significant first. */
  function NatToString(n: nat): (s: string)
    ensures |s| >= 1 && AllDigits(s)
    ensures n < 10 ==> |s| == 1
    ensures n < 100 ==> |s| <= 2
    ensures n < 1000 ==> |s| <= 3
  {
    if n < 10 then [DigitChar(n)] else NatToString(n / 10) + [DigitChar(n % 10)]
  }

  /** The value of a string of decimal digits. */
  function ParseNat(s: string): nat
    requires AllDigits(s)
    decreases |s|
  {
    if |s| == 0 then 0 else ParseNat(s[..|s| - 1]) * 10 + DigitValue(s[|s| - 1])
  }

  /** Rendering then parsing gives the number back, so the rendering is injective. */
  lemma {:induction false} ParseNatToString(n: nat)
    ensures ParseNat(NatToString(n)) == n
  {
    var s := NatToString(n);
    if n >= 10 {
      ParseNatToString(n / 10);
      assert s[..|s| - 1] == NatToString(n / 10);
    }
  }

  /** The three digits of a number below 1000, zero-padded on the left. */
  function Pad3(n: nat): (s: string)
    requires n < 1000
    ensures |s| == 3 && AllDigits(s)
  {
    [DigitChar(n / 100), DigitChar(n / 10 % 10), DigitChar(n % 10)]
  }

  /** Python's `"{:,}".format(n)` for a non-negative integer. */
  function GroupThousands(n: nat): string
    decreases n
  {
    if n < 1000 then NatToString(n) else GroupThousands(n / 1000) + "," + Pad3(n % 1000)
  }

  /** Python's `"{:,}".format(n)`: a minus sign for a negative number, then the
      grouped digits of its magnitude. */
  function FormatThousands(n: int): string {
    if n < 0 then "-" + GroupThousands(-n) else GroupThousands(n)
  }

  function RemoveCommas(s: string): string
    decreases |s|
  {
    if |s| == 0 then "" else (if s[0] == ',' then "" else [s[0]]) + RemoveCommas(s[1..])
  }

  lemma {:induction false} RemoveCommasAppend(a: string, b: string)
    ensures RemoveCommas(a + b) == RemoveCommas(a) + RemoveCommas(b)
    decreases |a|
  {
    if |a| > 0 {
      assert (a + b)[1..] == a[1..] + b;
      RemoveCommasAppend(a[1..], b);
    } else {
      assert a + b == b;
    }
  }

  lemma {:induction false} RemoveCommasDigits(s: string)
    requires AllDigits(s)
    ensures RemoveCommas(s) == s
    decreases |s|
  {
    if |s| > 0 {
      RemoveCommasDigits(s[1..]);
      assert s == [s[0]] + s[1..];
    }
  }

  /** The last three decimal digits of `n`, read off `n % 1000` and off `n`. */
  lemma LastThreeDigits(n: nat)
    requires n >= 1000
    ensures n / 10 >= 100 && n / 100 >= 10
    ensures n / 10 / 10 == n / 100 && n / 100 / 10 == n / 1000
    ensures n % 1000 / 100 == n / 100 % 10
    ensures n % 1000 / 10 % 10 == n / 10 % 10
    ensures n % 1000 % 10 == n % 10
  {
    var q, r := n / 1000, n % 1000;
    assert n == 1000 * q + r;
    assert n / 10 == 100 * q + r / 10;
    assert n / 100 == 10 * q + r / 100;
  }

  /** The decimal rendering of a number of at least 1000 is that of its
      thousands followed by its last three digits. */
  lemma NatToStringLastThree(n: nat)
    requires n >= 1000
    ensures NatToString(n) == NatToString(n / 1000) + Pad3(n % 1000)
  {
    LastThreeDigits(n);
    calc {
      NatToString(n);
      NatToString(n / 10) + [DigitChar(n % 10)];
      NatToString(n / 100) + [DigitChar(n / 10 % 10)] + [DigitChar(n % 10)];
      NatToString(n / 1000) + [DigitChar(n / 100 % 10)] + [DigitChar(n / 10 % 10)] + [DigitChar(n % 10)];
      NatToString(n / 1000) + Pad3(n % 1000);
    }
  }

  /** Deleting the separators from the grouped form leaves exactly the plain
      decimal rendering: the grouping adds commas and nothing else. */
  lemma {:induction false} GroupThousandsDigits(n: nat)
    ensures RemoveCommas(GroupThousands(n)) == NatToString(n)
    decreases n
  {
    if n < 1000 {
      RemoveCommasDigits(NatToString(n));
    } else {
      GroupThousandsDigits(n / 1000);
      RemoveCommasAppend(GroupThousands(n / 1000) + ",", Pad3(n % 1000));
      RemoveCommasAppend(GroupThousands(n / 1000), ",");
      assert RemoveCommas(",") == "";
      RemoveCommasDigits(Pad3(n % 1000));
      NatToStringLastThree(n);
    }
  }

  /** The shape of a thousands-grouped numeral: it starts with a digit, holds
      only digits and commas, every comma is followed by exactly three digits
      and then a comma or the end, and no four characters in a row are all
      digits. */
  predicate WellGrouped(s: string) {
    && |s| >= 1 && IsDigit(s[0])
    && DigitsOrCommas(s)
    && CommasBeforeTriples(s)
    && NoLongRun(s)
  }

  predicate DigitsOrCommas(s: string) {
    forall k :: 0 <= k < |s| ==> IsDigit(s[k]) || s[k] == ','
  }

  predicate CommasBeforeTriples(s: string) {
    forall k :: 0 <= k < |s| && s[k] == ',' ==>
      k + 3 < |s| && IsDigit(s[k + 1]) && IsDigit(s[k + 2]) && IsDigit(s[k + 3])
      && (k + 4 == |s| || s[k + 4] == ',')
  }

  predicate NoLongRun(s: string) {
    forall k :: 0 <= k && k + 3 < |s| ==>
      s[k] == ',' || s[k + 1] == ',' || s[k + 2] == ',' || s[k + 3] == ','
  }

  lemma CommasBeforeTriplesAppend(g: string, p: string)
    requires CommasBeforeTriples(g) && |p| == 3 && AllDigits(p)
    ensures CommasBeforeTriples(g + "," + p)
  {
    var s := g + "," + p;
    forall k | 0 <= k < |s| && s[k] == ','
      ensures k + 3 < |s| && IsDigit(s[k + 1]) && IsDigit(s[k + 2]) && IsDigit(s[k + 3])
      ensures k + 4 == |s| || s[k + 4] == ','
    {
      if k < |g| {
        assert g[k] == ',';
        assert k + 4 == |g| || g[k + 4] == ',';
      } else {
        assert k == |g|;
      }
    }
  }

  lemma NoLongRunAppend(g: string, p: string)
    requires NoLongRun(g) && |p| == 3
    ensures NoLongRun(g + "," + p)
  {
    var s := g + "," + p;
    forall k | 0 <= k && k + 3 < |s|
      ensures s[k] == ',' || s[k + 1] == ',' || s[k + 2] == ',' || s[k + 3] == ','
    {
      if k + 3 < |g| {
        assert g[k] == ',' || g[k + 1] == ',' || g[k + 2] == ',' || g[k + 3] == ',';
      } else {
        assert s[|g|] == ',';
      }
    }
  }

  lemma {:induction false} GroupThousandsWellGrouped(n: nat)
    ensures WellGrouped(GroupThousands(n))
    decreases n
  {
    if n >= 1000 {
      GroupThousandsWellGrouped(n / 1000);
      var g := GroupThousands(n / 1000);
      var p := Pad3(n % 1000);
      CommasBeforeTriplesAppend(g, p);
      NoLongRunAppend(g, p);
      var s := g + "," + p;
      assert s[0] == g[0];
      assert DigitsOrCommas(s) by {
        forall k | 0 <= k < |s| ensures IsDigit(s[k]) || s[k] == ',' {
          if k < |g| { assert s[k] == g[k]; }
          else if k > |g| { assert s[k] == p[k - |g| - 1]; }
        }
      }
    }
  }

  function LowerChar(c: char): char {
    if 'A' <= c <= 'Z' then (c as int + 32) as char else c
  }

  /** Python's `str.lower`, restricted to the ASCII letters. */
  function Lower(s: string): (r: string)
    ensures |r| == |s|
    ensures forall k :: 0 <= k < |s| ==> r[k] == LowerChar(s[k])
  {
    seq(|s|, k requires 0 <= k < |s| => LowerChar(s[k]))
  }
}
