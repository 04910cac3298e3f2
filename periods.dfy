/** Month keys of the data folder: the `YYYY-MM` stem format that `record_data`
    writes and `update_time_list` parses, the glob that selects monthly files,
    and the newest-first order of the period index. */
module Periods {

  datatype Option<T> = None | Some(value: T)

  /** A calendar month. */
  datatype Period = Period(year: int, month: int)

  predicate IsDigit(c: char) {
    '0' <= c <= '9'
  }

  function DigitValue(c: char): (d: int)
    requires IsDigit(c)
    ensures 0 <= d <= 9
  {
    c as int - '0' as int
  }

  function DigitChar(d: int): (c: char)
    requires 0 <= d <= 9
    ensures IsDigit(c) && DigitValue(c) == d
  {
    ('0' as int + d) as char
  }

  /** The file stems the pattern `????-??.json` selects: seven characters with a
      dash in the middle; like every glob wildcard, `?` does not match a
      leading dot. */
  predicate MatchesGlob(stem: string) {
    |stem| == 7 && stem[4] == '-' && stem[0] != '.'
  }

  /** `datetime.strptime(stem, '%Y-%m')` on a seven-character stem: four digits,
      a dash and a two-digit month from 01 to 12. Year 0 is outside `datetime`'s
      range and fails as well. `None` stands for the `ValueError`. */
  function ParsePeriod(stem: string): (r: Option<Period>)
    ensures r.Some? ==> 1 <= r.value.year <= 9999 && 1 <= r.value.month <= 12
    ensures r.Some? ==> |stem| == 7 && stem[4] == '-'
  {
    if |stem| == 7 && IsDigit(stem[0]) && IsDigit(stem[1]) && IsDigit(stem[2]) && IsDigit(stem[3])
       && stem[4] == '-' && IsDigit(stem[5]) && IsDigit(stem[6])
    then
      var y := 1000 * DigitValue(stem[0]) + 100 * DigitValue(stem[1])
               + 10 * DigitValue(stem[2]) + DigitValue(stem[3]);
      var m := 10 * DigitValue(stem[5]) + DigitValue(stem[6]);
      if 1 <= y && 1 <= m <= 12 then Some(Period(y, m)) else None
    else None
  }

  /** `strftime('%Y-%m')`: the zero-padded key of a month. */
  function PeriodName(p: Period): (s: string)
    requires 1 <= p.year <= 9999 && 1 <= p.month <= 12
    ensures MatchesGlob(s)
  {
    [DigitChar(p.year / 1000), DigitChar(p.year / 100 % 10), DigitChar(p.year / 10 % 10),
     DigitChar(p.year % 10), '-', DigitChar(p.month / 10), DigitChar(p.month % 10)]
  }

  /** Parsing reads back the month a key was written for. */
  lemma ParseName(p: Period)
    requires 1 <= p.year <= 9999 && 1 <= p.month <= 12
    ensures ParsePeriod(PeriodName(p)) == Some(p)
  {
    var s := PeriodName(p);
    FourDigits(p.year);
    assert 10 * (p.month / 10) + p.month % 10 == p.month;
    assert IsDigit(s[0]) && IsDigit(s[1]) && IsDigit(s[2]) && IsDigit(s[3]) && IsDigit(s[5]) && IsDigit(s[6]);
    assert DigitValue(s[0]) == p.year / 1000 && DigitValue(s[1]) == p.year / 100 % 10;
    assert DigitValue(s[2]) == p.year / 10 % 10 && DigitValue(s[3]) == p.year % 10;
    assert DigitValue(s[5]) == p.month / 10 && DigitValue(s[6]) == p.month % 10;
  }

  /** A number below 10000 is the sum of its four decimal digits' place values. */
  lemma FourDigits(y: int)
    requires 0 <= y <= 9999
    ensures 0 <= y / 1000 <= 9
    ensures 1000 * (y / 1000) + 100 * (y / 100 % 10) + 10 * (y / 10 % 10) + y % 10 == y
  {
    var q := y / 10;
    var q2 := q / 10;
    assert y == 10 * q + y % 10;
    assert q == 10 * q2 + q % 10;
    assert y / 100 == q2;
    assert q2 == 10 * (q2 / 10) + q2 % 10;
    assert y / 1000 == q2 / 10;
  }

  /** The decimal digits of a four-digit number are the ones it was built from. */
  lemma YearDigits(d0: int, d1: int, d2: int, d3: int)
    requires 0 <= d0 <= 9 && 0 <= d1 <= 9 && 0 <= d2 <= 9 && 0 <= d3 <= 9
    ensures var y := 1000 * d0 + 100 * d1 + 10 * d2 + d3;
            y / 1000 == d0 && y / 100 % 10 == d1 && y / 10 % 10 == d2 && y % 10 == d3
  {
    var y := 1000 * d0 + 100 * d1 + 10 * d2 + d3;
    assert y / 10 == 100 * d0 + 10 * d1 + d2;
    assert y / 100 == 10 * d0 + d1;
  }

  /** Every stem that parses is the key of the month it parses to: there is
      exactly one spelling per month. */
  lemma NameParse(s: string)
    requires ParsePeriod(s).Some?
    ensures s == PeriodName(ParsePeriod(s).value)
  {
    var p := ParsePeriod(s).value;
    YearDigits(DigitValue(s[0]), DigitValue(s[1]), DigitValue(s[2]), DigitValue(s[3]));
    var n := PeriodName(p);
    assert n[0] == s[0] && n[1] == s[1] && n[2] == s[2] && n[3] == s[3];
    assert n[5] == s[5] && n[6] == s[6];
  }

  /** Number of months from January of year 0 to `p`. */
  function Position(p: Period): int {
    p.year * 12 + p.month - 1
  }

  /** Distinct months have distinct positions. */
  lemma PositionInjective(p: Period, q: Period)
    requires 1 <= p.month <= 12 && 1 <= q.month <= 12
    requires Position(p) == Position(q)
    ensures p == q
  {
    assert Position(p) / 12 == p.year;
    assert Position(q) / 12 == q.year;
  }

  /** Calendar position of a stem, the key `sorted` orders by; stems that do not
      parse get -1. */
  function Value(stem: string): int {
    match ParsePeriod(stem)
    case Some(p) => Position(p)
    case None => -1
  }

  /** Two parsing stems at the same calendar position are the same stem. */
  lemma ValueInjective(a: string, b: string)
    requires ParsePeriod(a).Some? && ParsePeriod(b).Some?
    requires Value(a) == Value(b)
    ensures a == b
  {
    var p, q := ParsePeriod(a).value, ParsePeriod(b).value;
    PositionInjective(p, q);
    NameParse(a);
    NameParse(b);
  }

  /** Months later in the calendar have larger values. */
  lemma ValueOrder(a: string, b: string)
    requires ParsePeriod(a).Some? && ParsePeriod(b).Some?
    ensures var p, q := ParsePeriod(a).value, ParsePeriod(b).value;
            Value(a) > Value(b) <==> p.year > q.year || (p.year == q.year && p.month > q.month)
  {
  }

  ghost predicate Descending(key: string -> int, s: seq<string>) {
    forall i, j :: 0 <= i < j < |s| ==> key(s[i]) >= key(s[j])
  }

  ghost predicate StrictlyDescending(key: string -> int, s: seq<string>) {
    forall i, j :: 0 <= i < j < |s| ==> key(s[i]) > key(s[j])
  }

  ghost predicate DistinctValues(key: string -> int, s: seq<string>) {
    forall i, j :: 0 <= i < j < |s| ==> key(s[i]) != key(s[j])
  }

  /** Places `x` before the first element that is not later than it. */
  function Insert(key: string -> int, x: string, s: seq<string>): (r: seq<string>)
    ensures multiset(r) == multiset(s) + multiset{x}
  {
    if s == [] then [x]
    else if key(x) >= key(s[0]) then [x] + s
    else
      assert s == [s[0]] + s[1..];
      [s[0]] + Insert(key, x, s[1..])
  }

  /** The tail of a newest-first list is newest first. */
  lemma TailOrdered(key: string -> int, s: seq<string>)
    requires s != []
    ensures Descending(key, s) ==> Descending(key, s[1..])
    ensures StrictlyDescending(key, s) ==> StrictlyDescending(key, s[1..])
  {
    forall i, j | 0 <= i < j < |s| - 1 ensures s[1..][i] == s[i + 1] && s[1..][j] == s[j + 1] {
    }
  }

  /** A key not earlier than every key of a newest-first list can head it. */
  lemma ConsOrdered(key: string -> int, h: string, t: seq<string>)
    ensures Descending(key, t) && (forall y :: y in t ==> key(y) <= key(h))
            ==> Descending(key, [h] + t)
    ensures StrictlyDescending(key, t) && (forall y :: y in t ==> key(y) < key(h))
            ==> StrictlyDescending(key, [h] + t)
  {
    var r := [h] + t;
    forall i, j | 0 <= i < j < |r| ensures r[j] == t[j - 1] && r[j] in t && (i > 0 ==> r[i] == t[i - 1]) {
    }
  }

  /** Everything in the result of an insertion is the new key or was there before. */
  lemma InsertMembers(key: string -> int, x: string, s: seq<string>)
    ensures forall y :: y in Insert(key, x, s) ==> y == x || y in s
  {
    forall y | y in Insert(key, x, s) ensures y == x || y in s {
      assert y in multiset(Insert(key, x, s));
    }
  }

  /** The head of a newest-first list is not earlier than any of its keys, and
      in a strictly newest-first list it is later than every other. */
  lemma HeadBounds(key: string -> int, s: seq<string>)
    requires s != []
    ensures Descending(key, s) ==> forall y :: y in s ==> key(y) <= key(s[0])
    ensures StrictlyDescending(key, s) ==> forall y :: y in s[1..] ==> key(y) < key(s[0])
  {
    forall y | y in s ensures Descending(key, s) ==> key(y) <= key(s[0]) {
      var k :| 0 <= k < |s| && s[k] == y;
      if Descending(key, s) && k > 0 {
        assert key(s[0]) >= key(s[k]);
      }
    }
    forall y | y in s[1..] ensures StrictlyDescending(key, s) ==> key(y) < key(s[0]) {
      var k :| 0 <= k < |s| - 1 && s[1..][k] == y;
      assert s[k + 1] == y;
    }
  }

  /** Inserting keeps a newest-first list newest first. */
  lemma {:induction false} InsertDescending(key: string -> int, x: string, s: seq<string>)
    requires Descending(key, s)
    ensures Descending(key, Insert(key, x, s))
  {
    if s != [] {
      HeadBounds(key, s);
      if key(x) >= key(s[0]) {
        ConsOrdered(key, x, s);
      } else {
        var t := s[1..];
        TailOrdered(key, s);
        InsertDescending(key, x, t);
        InsertMembers(key, x, t);
        var rt := Insert(key, x, t);
        assert forall y :: y in t ==> y in s;
        assert forall y :: y in rt ==> key(y) <= key(s[0]);
        ConsOrdered(key, s[0], rt);
      }
    }
  }

  /** Inserting a month not already present keeps a list strictly newest first. */
  lemma {:induction false} InsertStrictly(key: string -> int, x: string, s: seq<string>)
    requires StrictlyDescending(key, s)
    requires forall y :: y in s ==> key(y) != key(x)
    ensures StrictlyDescending(key, Insert(key, x, s))
  {
    if s != [] {
      HeadBounds(key, s);
      assert s == [s[0]] + s[1..];
      assert s[0] in s;
      if key(x) >= key(s[0]) {
        assert forall y :: y in s ==> key(y) < key(x);
        ConsOrdered(key, x, s);
      } else {
        var t := s[1..];
        TailOrdered(key, s);
        assert forall y :: y in t ==> y in s;
        InsertStrictly(key, x, t);
        InsertMembers(key, x, t);
        var rt := Insert(key, x, t);
        assert forall y :: y in rt ==> key(y) < key(s[0]);
        ConsOrdered(key, s[0], rt);
      }
    }
  }

  /** `sorted(stems, key=…, reverse=True)`: newest first. */
  function SortDescending(key: string -> int, stems: seq<string>): (r: seq<string>)
    ensures multiset(r) == multiset(stems)
  {
    if stems == [] then []
    else
      assert stems == [stems[0]] + stems[1..];
      Insert(key, stems[0], SortDescending(key, stems[1..]))
  }

  /** Sorting puts the stems newest first, strictly so when no two of them name
      the same month. */
  lemma {:induction false} SortOrdered(key: string -> int, stems: seq<string>)
    ensures Descending(key, SortDescending(key, stems))
    ensures DistinctValues(key, stems) ==> StrictlyDescending(key, SortDescending(key, stems))
  {
    if stems != [] {
      var t := stems[1..];
      SortOrdered(key, t);
      var rest := SortDescending(key, t);
      InsertDescending(key, stems[0], rest);
      if DistinctValues(key, stems) {
        assert DistinctValues(key, t) by {
          forall i, j | 0 <= i < j < |t| ensures key(t[i]) != key(t[j]) {
            assert t[i] == stems[i + 1] && t[j] == stems[j + 1];
          }
        }
        forall y | y in rest ensures key(y) != key(stems[0]) {
          assert y in multiset(rest);
          var k :| 0 <= k < |t| && t[k] == y;
          assert stems[k + 1] == y;
        }
        InsertStrictly(key, stems[0], rest);
      }
    }
  }

  /** The period index of a folder whose file stems are `stems`: exactly the
      stems the glob selects, each naming a month, newest first. */
  ghost predicate IsPeriodIndex(stems: set<string>, index: seq<string>) {
    (forall s :: s in index <==> s in stems && MatchesGlob(s))
    && (forall s :: s in index ==> ParsePeriod(s).Some?)
    && StrictlyDescending(Value, index)
  }

  /** The index starts with the newest selected month, and its second entry is
      the newest of the others. */
  lemma IndexNewestFirst(stems: set<string>, index: seq<string>, s: string)
    requires IsPeriodIndex(stems, index) && s in stems && MatchesGlob(s)
    ensures |index| > 0 && Value(index[0]) >= Value(s)
    ensures s != index[0] ==> |index| > 1 && Value(index[1]) >= Value(s)
  {
    var k :| 0 <= k < |index| && index[k] == s;
    if k > 1 {
      assert Value(index[1]) > Value(index[k]);
    }
    if k > 0 {
      assert Value(index[0]) > Value(index[k]);
    }
  }

  /** Two strictly newest-first lists with the same members start alike. */
  lemma HeadsAgree(key: string -> int, a: seq<string>, b: seq<string>)
    requires StrictlyDescending(key, a) && StrictlyDescending(key, b)
    requires forall s :: s in a <==> s in b
    requires a != []
    ensures b != [] && a[0] == b[0]
  {
    assert a[0] in a;
    assert b != [] && b[0] in b;
    HeadBounds(key, a);
    HeadBounds(key, b);
    assert a == [a[0]] + a[1..] && b == [b[0]] + b[1..];
  }

  /** Past a shared head, two strictly newest-first lists with the same members
      still have the same members. */
  lemma TailsAgree(key: string -> int, a: seq<string>, b: seq<string>)
    requires StrictlyDescending(key, a) && StrictlyDescending(key, b)
    requires forall s :: s in a <==> s in b
    requires a != [] && b != [] && a[0] == b[0]
    ensures forall s :: s in a[1..] <==> s in b[1..]
  {
    HeadBounds(key, a);
    HeadBounds(key, b);
    assert a == [a[0]] + a[1..] && b == [b[0]] + b[1..];
  }

  /** A non-empty list holds its first element. */
  lemma HeadIn(b: seq<string>)
    ensures b != [] ==> b[0] in b
  {
  }

  /** Newest-first order admits only one arrangement of a given set of keys,
      whatever order the folder listing produced them in. */
  lemma {:induction false} StrictlyDescendingUnique(key: string -> int, a: seq<string>, b: seq<string>)
    requires StrictlyDescending(key, a) && StrictlyDescending(key, b)
    requires forall s :: s in a <==> s in b
    ensures a == b
    decreases |a|
  {
    if a != [] {
      HeadsAgree(key, a, b);
      TailsAgree(key, a, b);
      TailOrdered(key, a);
      TailOrdered(key, b);
      StrictlyDescendingUnique(key, a[1..], b[1..]);
      assert a == [a[0]] + a[1..] && b == [b[0]] + b[1..];
    } else {
      HeadIn(b);
    }
  }

  /** A folder has at most one period index. */
  lemma PeriodIndexUnique(stems: set<string>, a: seq<string>, b: seq<string>)
    requires IsPeriodIndex(stems, a) && IsPeriodIndex(stems, b)
    ensures a == b
  {
    StrictlyDescendingUnique(Value, a, b);
  }

  /** Sorting the selected stems of any listing of the folder gives its period
      index, provided every selected stem names a month. */
  lemma SortGivesIndex(stems: set<string>, listing: seq<string>)
    requires forall s :: s in listing <==> s in stems && MatchesGlob(s)
    requires forall i, j :: 0 <= i < j < |listing| ==> listing[i] != listing[j]
    requires forall s :: s in stems && MatchesGlob(s) ==> ParsePeriod(s).Some?
    ensures IsPeriodIndex(stems, SortDescending(Value, listing))
  {
    assert forall s :: s in listing ==> ParsePeriod(s).Some?;
    DistinctMonths(listing);
    SortOrdered(Value, listing);
    SortMembers(Value, listing);
  }

  /** Distinct stems that all parse name distinct months. */
  lemma DistinctMonths(listing: seq<string>)
    requires forall i, j :: 0 <= i < j < |listing| ==> listing[i] != listing[j]
    requires forall s :: s in listing ==> ParsePeriod(s).Some?
    ensures DistinctValues(Value, listing)
  {
    forall i, j | 0 <= i < j < |listing| ensures Value(listing[i]) != Value(listing[j]) {
      assert listing[i] in listing && listing[j] in listing;
      if Value(listing[i]) == Value(listing[j]) {
        ValueInjective(listing[i], listing[j]);
      }
    }
  }

  /** Sorting neither adds nor drops a stem. */
  lemma SortMembers(key: string -> int, stems: seq<string>)
    ensures forall s :: s in SortDescending(key, stems) <==> s in stems
  {
    var r := SortDescending(key, stems);
    forall s ensures s in r <==> s in stems {
      assert s in r <==> s in multiset(r);
      assert s in stems <==> s in multiset(stems);
    }
  }
}
