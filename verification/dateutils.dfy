/** Date-string predicates (utils/dateUtils.ts). Dates are `YYYY-MM-DD`
    strings, the calendar-date extended form of section 4.1.2.2 of ISO 8601:2004.
    Today's date and the day before it are parameters: they come from the clock. */
module DateUtils {
  import opened Strings
  import opened Seqs
  import opened Sorting

  /** `isDatePast`: the date string is below today's under the string `<`.
      A past date is not today and today is not below it; any other date but
      today has today below it. */
  predicate IsDatePast(date: string, today: string)
    ensures IsDatePast(date, today) ==> date != today && !LexLess(today, date)
    ensures !IsDatePast(date, today) && date != today ==> LexLess(today, date)
  {
    LexIrreflexive(today);
    LexAsymmetric(date, today);
    LexTotal(date, today);
    LexLess(date, today)
  }

  /** Today is never past. */
  lemma TodayNotPast(today: string)
    ensures !IsDatePast(today, today)
  {
    LexIrreflexive(today);
  }

  /** Whatever is not later than a past date is past too. */
  lemma PastMonotone(a: string, b: string, today: string)
    requires !LexLess(b, a)
    requires IsDatePast(b, today)
    ensures IsDatePast(a, today)
  {
    LexTotal(a, b);
    if a != b {
      LexTransitive(a, b, today);
    }
  }

  /** Exactly one of: past, today, future. */
  lemma PastTodayFuture(date: string, today: string)
    ensures IsDatePast(date, today) || date == today || IsDatePast(today, date)
    ensures !(IsDatePast(date, today) && IsDatePast(today, date))
    ensures date == today ==> !IsDatePast(date, today)
  {
    LexTotal(date, today);
    LexAsymmetric(date, today);
    LexIrreflexive(today);
  }

  // ---- orders for sorting ----

  /** The comparator `(a, b) => b.localeCompare(a)` on date strings: later dates first. */
  predicate LaterFirst(a: string, b: string) {
    !LexLess(a, b)
  }

  /** The default `sort()` order on strings: earlier dates first. */
  predicate EarlierFirst(a: string, b: string) {
    !LexLess(b, a)
  }

  lemma LaterFirstIsPreorder()
    ensures TotalPreorder(LaterFirst)
  {
    forall a, b
      ensures LaterFirst(a, b) || LaterFirst(b, a)
    {
      LexAsymmetric(a, b);
    }
    forall a, b, c | LaterFirst(a, b) && LaterFirst(b, c)
      ensures LaterFirst(a, c)
    {
      if LexLess(a, c) {
        LexTotal(a, b);
        if a != b {
          LexTransitive(b, a, c);
        }
      }
    }
  }

  lemma EarlierFirstIsPreorder()
    ensures TotalPreorder(EarlierFirst)
  {
    forall a, b
      ensures EarlierFirst(a, b) || EarlierFirst(b, a)
    {
      LexAsymmetric(a, b);
    }
    forall a, b, c | EarlierFirst(a, b) && EarlierFirst(b, c)
      ensures EarlierFirst(a, c)
    {
      if LexLess(c, a) {
        LexTotal(a, b);
        if a != b {
          LexTransitive(c, a, b);
        }
      }
    }
  }

  /** The distinct dates of `dates`, latest first when `latestFirst`, earliest
      first otherwise. */
  function SortedDates(dates: seq<string>, latestFirst: bool): (r: seq<string>)
    ensures Distinct(r)
    ensures forall d | d in dates :: d in r
    ensures forall d | d in r :: d in dates
    ensures latestFirst ==> forall i, j | 0 <= i < j < |r| :: LexLess(r[j], r[i])
    ensures !latestFirst ==> forall i, j | 0 <= i < j < |r| :: LexLess(r[i], r[j])
  {
    var keys := Dedup(dates);
    LaterFirstIsPreorder();
    EarlierFirstIsPreorder();
    var r := SortBy(keys, if latestFirst then LaterFirst else EarlierFirst);
    SameElements(keys, r);
    StrictlyOrdered(r, latestFirst);
    r
  }

  /** A permutation of a distinct list is distinct and has the same elements. */
  lemma SameElements(keys: seq<string>, r: seq<string>)
    requires Distinct(keys) && multiset(r) == multiset(keys)
    ensures Distinct(r)
    ensures forall d | d in keys :: d in r
    ensures forall d | d in r :: d in keys
  {
    assert forall d | d in r :: d in multiset(keys);
    assert forall d | d in keys :: d in multiset(r);
    DistinctPermutation(keys, r);
  }

  /** Distinct dates sorted by either order are strictly ordered. */
  lemma StrictlyOrdered(r: seq<string>, latestFirst: bool)
    requires Distinct(r)
    requires SortedBy(r, if latestFirst then LaterFirst else EarlierFirst)
    ensures latestFirst ==> forall i, j | 0 <= i < j < |r| :: LexLess(r[j], r[i])
    ensures !latestFirst ==> forall i, j | 0 <= i < j < |r| :: LexLess(r[i], r[j])
  {
    forall i, j | 0 <= i < j < |r|
      ensures latestFirst ==> LexLess(r[j], r[i])
      ensures !latestFirst ==> LexLess(r[i], r[j])
    {
      LexTotal(r[i], r[j]);
    }
  }

  // ---- well-formed dates ----

  predicate WellFormedDate(s: string) {
    && |s| == 10
    && s[4] == '-' && s[7] == '-'
    && AllDigits(s[..4]) && AllDigits(s[5..7]) && AllDigits(s[8..])
  }

  function Year(s: string): nat
    requires WellFormedDate(s)
  {
    ParseDecimal(s[..4])
  }

  function Month(s: string): nat
    requires WellFormedDate(s)
  {
    ParseDecimal(s[5..7])
  }

  function Day(s: string): nat
    requires WellFormedDate(s)
  {
    ParseDecimal(s[8..])
  }

  /** Calendar order: by year, then month, then day. */
  predicate ChronologicallyBefore(a: string, b: string)
    requires WellFormedDate(a) && WellFormedDate(b)
  {
    || Year(a) < Year(b)
    || (Year(a) == Year(b) && Month(a) < Month(b))
    || (Year(a) == Year(b) && Month(a) == Month(b) && Day(a) < Day(b))
  }

  /** Two digit strings of one length are equal exactly when their values are. */
  lemma DigitsEqual(a: string, b: string)
    requires AllDigits(a) && AllDigits(b) && |a| == |b|
    ensures a == b <==> ParseDecimal(a) == ParseDecimal(b)
  {
    LexTotal(a, b);
    LexLessDigits(a, b);
    LexLessDigits(b, a);
  }

  /** Splitting a field off the front of two strings whose fronts are digits of
      one length: `<` on the whole is `<` on the values, then on the rest. */
  lemma FieldThenRest(a: string, b: string, n: nat)
    requires n <= |a| && n <= |b|
    requires AllDigits(a[..n]) && AllDigits(b[..n])
    ensures LexLess(a, b) <==>
      ParseDecimal(a[..n]) < ParseDecimal(b[..n]) ||
      (ParseDecimal(a[..n]) == ParseDecimal(b[..n]) && LexLess(a[n..], b[n..]))
  {
    assert a == a[..n] + a[n..] && b == b[..n] + b[n..];
    LexConcat(a[..n], a[n..], b[..n], b[n..]);
    LexLessDigits(a[..n], b[..n]);
    DigitsEqual(a[..n], b[..n]);
  }

  /** Dropping one equal character from the front of both strings. */
  lemma SameHead(a: string, b: string)
    requires |a| > 0 && |b| > 0 && a[0] == b[0]
    ensures LexLess(a, b) <==> LexLess(a[1..], b[1..])
  {
  }

  /** For well-formed dates, "past" is "chronologically earlier". */
  lemma PastIsChronological(date: string, today: string)
    requires WellFormedDate(date) && WellFormedDate(today)
    ensures IsDatePast(date, today) <==> ChronologicallyBefore(date, today)
  {
    var a, b := date, today;
    FieldThenRest(a, b, 4);
    var a1, b1 := a[5..], b[5..];
    SameHead(a[4..], b[4..]);
    assert a[4..][1..] == a1 && b[4..][1..] == b1;
    assert a1[..2] == a[5..7] && b1[..2] == b[5..7];
    FieldThenRest(a1, b1, 2);
    var a2, b2 := a1[3..], b1[3..];
    SameHead(a1[2..], b1[2..]);
    assert a1[2..][1..] == a2 && b1[2..][1..] == b2;
    assert a2 == a[8..] && b2 == b[8..];
    LexLessDigits(a2, b2);
  }

  // ---- labels ----

  /** The label of a date section: the locale-formatted calendar label is
      represented by the date it formats. */
  datatype DateLabel = TodayLabel | YesterdayLabel | CalendarLabel(date: string)

  /** `formatDateLabel`; `yesterday` is the date one day before `today`. */
  function FormatDateLabel(date: string, today: string, yesterday: string): (r: DateLabel)
    ensures r == TodayLabel <==> date == today
    ensures r == YesterdayLabel ==> date == yesterday
    ensures r.CalendarLabel? ==> r.date == date && date != today && date != yesterday
  {
    if date == today then TodayLabel
    else if date == yesterday then YesterdayLabel
    else CalendarLabel(date)
  }

  /** 'Today' is decided before 'Yesterday': a date is labelled Yesterday
      exactly when it is the day before and not today, whatever `yesterday`
      is. */
  lemma YesterdayLabelExactly(date: string, today: string, yesterday: string)
    ensures FormatDateLabel(date, today, yesterday) == YesterdayLabel <==> date == yesterday && date != today
    ensures FormatDateLabel(today, today, yesterday) == TodayLabel
  {
  }
}
