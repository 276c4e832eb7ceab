/** The CSV text built by `exportToCSV` (utils/csvUtils.ts): a header line,
    then one line per task, latest date first. The text field is quoted as
    section 2, rule 7 of RFC 4180 describes: the field is enclosed in double
    quotes and every double quote inside it is doubled. The current date is a
    parameter; the download of the text is not modelled. */
module Csv {
  import opened Types
  import opened Sorting
  import DateUtils
  import Strings
  import TodoItem

  // ---- joining and splitting on a separator ----

  /** `Array.prototype.join(sep)`. */
  function Join(parts: seq<string>, sep: char): (r: string)
    ensures |parts| == 1 ==> r == parts[0]
  {
    if |parts| == 0 then ""
    else if |parts| == 1 then parts[0]
    else parts[0] + [sep] + Join(parts[1..], sep)
  }

  /** Every piece between separators, as `String.prototype.split(sep)` does:
      `k` separators give `k + 1` pieces. */
  function Split(s: string, sep: char): (r: seq<string>)
    ensures |r| >= 1
    ensures forall i | 0 <= i < |r| :: sep !in r[i]
    decreases |s|
  {
    if |s| == 0 then [""]
    else
      var rest := Split(s[1..], sep);
      if s[0] == sep then [""] + rest
      else [[s[0]] + rest[0]] + rest[1..]
  }

  /** Text without the separator stays one piece and glues onto the first
      piece of what follows. */
  lemma {:induction false} SplitPrefix(a: string, tail: string, sep: char)
    requires sep !in a
    ensures Split(a + tail, sep) == [a + Split(tail, sep)[0]] + Split(tail, sep)[1..]
  {
    var t := Split(tail, sep);
    if |a| > 0 {
      assert (a + tail)[1..] == a[1..] + tail;
      SplitPrefix(a[1..], tail, sep);
      var rest := Split(a[1..] + tail, sep);
      assert rest[0] == a[1..] + t[0] && rest[1..] == t[1..];
      assert [a[0]] + (a[1..] + t[0]) == a + t[0];
    } else {
      assert a + tail == tail;
      assert a + t[0] == t[0];
      assert [t[0]] + t[1..] == t;
    }
  }

  /** Splitting undoes joining when no part contains the separator. */
  lemma {:induction false} SplitJoin(parts: seq<string>, sep: char)
    requires |parts| >= 1
    requires forall i | 0 <= i < |parts| :: sep !in parts[i]
    ensures Split(Join(parts, sep), sep) == parts
  {
    if |parts| == 1 {
      SplitPrefix(parts[0], "", sep);
      assert parts[0] + "" == parts[0];
    } else {
      var rest := Join(parts[1..], sep);
      SplitJoin(parts[1..], sep);
      assert parts[0] + [sep] + rest == parts[0] + ([sep] + rest);
      SplitPrefix(parts[0], [sep] + rest, sep);
      assert ([sep] + rest)[1..] == rest;
      assert Split([sep] + rest, sep) == [""] + parts[1..];
      assert parts[0] + "" == parts[0];
    }
  }

  /** The text before the first separator and the text after it, if there is
      a separator. */
  function Cut(s: string, sep: char): (r: Option<(string, string)>)
    ensures r.None? <==> sep !in s
    ensures r.Some? ==> sep !in r.value.0 && s == r.value.0 + [sep] + r.value.1
    decreases |s|
  {
    if |s| == 0 then None
    else if s[0] == sep then Some(([], s[1..]))
    else
      match Cut(s[1..], sep)
      case None => None
      case Some(p) => Some(([s[0]] + p.0, p.1))
  }

  lemma {:induction false} CutAfter(a: string, b: string, sep: char)
    requires sep !in a
    ensures Cut(a + [sep] + b, sep) == Some((a, b))
  {
    if |a| > 0 {
      assert (a + [sep] + b)[1..] == a[1..] + [sep] + b;
      CutAfter(a[1..], b, sep);
      assert [a[0]] + a[1..] == a;
    } else {
      assert a + [sep] + b == [sep] + b;
    }
  }

  // ---- quoting the text field ----

  /** `text.replace(/"/g, '""')`. */
  function EscapeQuotes(s: string): (r: string)
    ensures |r| >= |s|
    ensures '"' !in s ==> r == s
  {
    if |s| == 0 then ""
    else (if s[0] == '"' then "\"\"" else [s[0]]) + EscapeQuotes(s[1..])
  }

  /** The quoted text field. */
  function QuoteField(s: string): (r: string)
    ensures |r| >= |s| + 2 && r[0] == '"' && r[|r| - 1] == '"'
  {
    "\"" + EscapeQuotes(s) + "\""
  }

  /** Reading the rest of a quoted field after its opening quote: a doubled
      quote stands for one quote, a single quote closes the field. Gives the
      field's text and what follows the closing quote, or `None` if the field
      is never closed. */
  function ReadQuoted(s: string): (r: Option<(string, string)>)
    ensures r.Some? ==> |r.value.1| < |s|
    decreases |s|
  {
    if |s| == 0 then None
    else if s[0] == '"' then
      if |s| >= 2 && s[1] == '"' then
        match ReadQuoted(s[2..])
        case None => None
        case Some(p) => Some(("\"" + p.0, p.1))
      else Some(([], s[1..]))
    else
      match ReadQuoted(s[1..])
      case None => None
      case Some(p) => Some(([s[0]] + p.0, p.1))
  }

  /** A reader recovers the quoted text exactly, and stops right after the
      closing quote whatever follows, unless what follows starts with a quote
      (which the format forbids). */
  lemma {:induction false} QuoteRoundTrip(text: string, rest: string)
    requires |rest| == 0 || rest[0] != '"'
    ensures QuoteField(text)[0] == '"'
    ensures ReadQuoted(QuoteField(text)[1..] + rest) == Some((text, rest))
  {
    var q := QuoteField(text);
    assert q[1..] == EscapeQuotes(text) + "\"";
    EscapedThenClosed(text, rest);
  }

  lemma {:induction false} EscapedThenClosed(text: string, rest: string)
    requires |rest| == 0 || rest[0] != '"'
    ensures ReadQuoted(EscapeQuotes(text) + "\"" + rest) == Some((text, rest))
  {
    if |text| == 0 {
      ReadClosing(rest);
      assert EscapeQuotes(text) + "\"" + rest == "\"" + rest;
    } else {
      EscapedThenClosed(text[1..], rest);
      var e := EscapeQuotes(text[1..]);
      var tail := e + "\"" + rest;
      var head := if text[0] == '"' then "\"\"" else [text[0]];
      assert EscapeQuotes(text) == head + e;
      Regroup(head, e, "\"", rest);
      if text[0] == '"' {
        ReadAfterDoubled(tail, text[1..], rest);
        assert "\"" + text[1..] == text;
      } else {
        ReadAfterPlain(text[0], tail, text[1..], rest);
        assert [text[0]] + text[1..] == text;
      }
    }
  }

  /** Regrouping a concatenation of four sequences. */
  lemma Regroup<T>(a: seq<T>, b: seq<T>, c: seq<T>, d: seq<T>)
    ensures (a + b) + c + d == a + (b + c + d)
  {
  }

  /** The closing quote ends the field when no quote follows it. */
  lemma ReadClosing(rest: string)
    requires |rest| == 0 || rest[0] != '"'
    ensures ReadQuoted("\"" + rest) == Some(([], rest))
  {
    assert ("\"" + rest)[1..] == rest;
  }

  /** A doubled quote reads as one quote and the reader carries on. */
  lemma ReadAfterDoubled(tail: string, text: string, rest: string)
    requires ReadQuoted(tail) == Some((text, rest))
    ensures ReadQuoted("\"\"" + tail) == Some(("\"" + text, rest))
  {
    assert ("\"\"" + tail)[2..] == tail;
  }

  /** Any other character is copied and the reader carries on. */
  lemma ReadAfterPlain(c: char, tail: string, text: string, rest: string)
    requires c != '"' && ReadQuoted(tail) == Some((text, rest))
    ensures ReadQuoted([c] + tail) == Some(([c] + text, rest))
  {
    assert ([c] + tail)[1..] == tail;
  }

  // ---- the state label ----

  /** The `statusLabel` of a row: completion wins over the date, and a past
      task that is not completed is missed whatever its status. */
  function StateLabel(status: TaskStatus, isPast: bool): (r: string)
  {
    if status == Completed then "DONE"
    else if isPast then "NOT DONE (MISSED)"
    else if status == InProgress then "DOING IT RIGHT NOW"
    else "PENDING"
  }

  /** The label named after each look a row can have on screen. */
  function LookLabel(look: TodoItem.Look): string {
    match look
    case PastDone => "DONE"
    case Done => "DONE"
    case Missed => "NOT DONE (MISSED)"
    case Doing => "DOING IT RIGHT NOW"
    case Waiting => "PENDING"
  }

  /** The exported label names the look the row has on screen; only the done
      looks of past and current rows share a label, so the label tells
      completed, missed, in-progress and waiting tasks apart. */
  lemma StateLabelMatchesLook(status: TaskStatus, isPast: bool, status': TaskStatus, isPast': bool)
    ensures StateLabel(status, isPast) == LookLabel(TodoItem.ItemLook(isPast, status))
    ensures StateLabel(status, isPast) == "DONE" <==> status == Completed
    ensures StateLabel(status, isPast) == StateLabel(status', isPast') <==>
      (status == Completed && status' == Completed) ||
      (status != Completed && status' != Completed && isPast && isPast') ||
      (status != Completed && status' != Completed && !isPast && !isPast' && status == status')
  {
  }

  // ---- rows ----

  /** The five fields of a row. */
  datatype Fields = Fields(date: string, text: string, priority: string, status: string, stateLabel: string)

  /** One task's line. */
  function Row(t: Todo, today: string): (r: string)
    ensures |r| > |t.dateString| && r[..|t.dateString|] == t.dateString && r[|t.dateString|] == ','
  {
    JoinHead([t.dateString, QuoteField(t.text), PriorityName(t.priority), StatusName(t.status),
              StateLabel(t.status, DateUtils.IsDatePast(t.dateString, today))], ',');
    Join([t.dateString, QuoteField(t.text), PriorityName(t.priority), StatusName(t.status),
          StateLabel(t.status, DateUtils.IsDatePast(t.dateString, today))], ',')
  }

  /** The three plain fields after the text: priority, status and label. */
  function ParseTail(tail: string): (r: Option<(string, string, string)>)
  {
    match Cut(tail, ',')
    case None => None
    case Some((priority, rest)) =>
      match Cut(rest, ',')
      case None => None
      case Some((status, stateLabel)) =>
        if ',' in stateLabel then None else Some((priority, status, stateLabel))
  }

  /** Reading a line back: an unquoted date up to the first comma, a quoted
      text, then priority, status and label separated by commas. */
  function ParseRow(line: string): (r: Option<Fields>)
  {
    match Cut(line, ',')
    case None => None
    case Some((date, rest)) =>
      if |rest| == 0 || rest[0] != '"' then None
      else
        match ReadQuoted(rest[1..])
        case None => None
        case Some((text, tail)) =>
          if |tail| == 0 || tail[0] != ',' then None
          else
            match ParseTail(tail[1..])
            case None => None
            case Some(f) => Some(Fields(date, text, f.0, f.1, f.2))
  }

  /** None of the fixed names and labels holds a comma or a line break. */
  lemma NamesArePlain(t: Todo, isPast: bool, c: char)
    requires c == ',' || c == '\n'
    ensures c !in PriorityName(t.priority)
    ensures c !in StatusName(t.status)
    ensures c !in StateLabel(t.status, isPast)
  {
  }

  lemma TailRoundTrip(p: string, s: string, l: string)
    requires ',' !in p && ',' !in s && ',' !in l
    ensures ParseTail(p + [','] + (s + [','] + l)) == Some((p, s, l))
  {
    CutAfter(p, s + [','] + l, ',');
    CutAfter(s, l, ',');
  }

  /** Five fields joined by commas read back as those fields when only the
      quoted text may hold commas. */
  lemma FieldsRoundTrip(date: string, text: string, p: string, s: string, l: string)
    requires ',' !in date && ',' !in p && ',' !in s && ',' !in l
    ensures ParseRow(Join([date, QuoteField(text), p, s, l], ',')) == Some(Fields(date, text, p, s, l))
  {
    var q := QuoteField(text);
    var tail2 := p + [','] + (s + [','] + l);
    var tail1 := [','] + tail2;
    assert Join([s, l], ',') == s + [','] + l;
    assert Join([p, s, l], ',') == tail2;
    assert Join([q, p, s, l], ',') == q + tail1;
    assert Join([date, q, p, s, l], ',') == date + [','] + (q + tail1);
    CutAfter(date, q + tail1, ',');
    assert (q + tail1)[1..] == q[1..] + tail1;
    QuoteRoundTrip(text, tail1);
    assert tail1[1..] == tail2;
    TailRoundTrip(p, s, l);
  }

  /** A row reads back as the task's date, text, priority, status and label,
      whatever the text holds (commas and quotes included), as long as the
      date has no comma. */
  lemma RowRoundTrip(t: Todo, today: string)
    requires ',' !in t.dateString
    ensures var f := ParseRow(Row(t, today));
      && f.Some?
      && f.value.date == t.dateString
      && f.value.text == t.text
      && ParsePriority(f.value.priority) == Some(t.priority)
      && ParseStatus(f.value.status) == Some(t.status)
      && f.value.stateLabel == StateLabel(t.status, DateUtils.IsDatePast(t.dateString, today))
  {
    var p, s := PriorityName(t.priority), StatusName(t.status);
    var l := StateLabel(t.status, DateUtils.IsDatePast(t.dateString, today));
    NamesArePlain(t, DateUtils.IsDatePast(t.dateString, today), ',');
    FieldsRoundTrip(t.dateString, t.text, p, s, l);
    PriorityNamesExact(t.priority, p);
    StatusNamesExact(t.status, s);
  }

  // ---- the whole export ----

  const HeaderFields: seq<string> := ["Date", "Task", "Priority", "Status", "State Label"]

  const Header: string := Join(HeaderFields, ',')

  /** The header line has the five column names, in order. */
  lemma HeaderColumns()
    ensures Split(Header, ',') == HeaderFields
    ensures |Header| == 37
  {
    SplitJoin(HeaderFields, ',');
  }

  /** The sort comparator `(a, b) => b.dateString.localeCompare(a.dateString)`. */
  predicate LaterTask(a: Todo, b: Todo) {
    DateUtils.LaterFirst(a.dateString, b.dateString)
  }

  lemma LaterTaskIsPreorder()
    ensures TotalPreorder(LaterTask)
  {
    DateUtils.LaterFirstIsPreorder();
    forall a: Todo, b: Todo
      ensures LaterTask(a, b) || LaterTask(b, a)
    {
      assert DateUtils.LaterFirst(a.dateString, b.dateString) || DateUtils.LaterFirst(b.dateString, a.dateString);
    }
    forall a: Todo, b: Todo, c: Todo | LaterTask(a, b) && LaterTask(b, c)
      ensures LaterTask(a, c)
    {
      assert DateUtils.LaterFirst(a.dateString, b.dateString) && DateUtils.LaterFirst(b.dateString, c.dateString);
    }
  }

  /** `[...todos].sort(...)`: a sorted copy, latest date first; the input list
      itself is a value and stays as it was. */
  function ExportOrder(todos: seq<Todo>): (r: seq<Todo>)
    ensures multiset(r) == multiset(todos) && |r| == |todos|
    ensures forall i, j | 0 <= i < j < |r| :: !Strings.LexLess(r[i].dateString, r[j].dateString)
  {
    LaterTaskIsPreorder();
    SortBy(todos, LaterTask)
  }

  function Rows(todos: seq<Todo>, today: string): (r: seq<string>)
    ensures |r| == |todos|
    ensures forall i | 0 <= i < |todos| :: r[i] == Row(todos[i], today)
  {
    seq(|todos|, i requires 0 <= i < |todos| => Row(todos[i], today))
  }

  /** `exportToCSV`'s text: the header and the rows, one per line. */
  function ExportCsv(todos: seq<Todo>, today: string): (r: string)
    ensures |r| >= |Header| && r[..|Header|] == Header
    ensures |todos| == 0 <==> r == Header
    ensures |todos| > 0 ==> r[|Header|] == '\n'
  {
    var parts := [Header] + Rows(ExportOrder(todos), today);
    if |parts| >= 2 then JoinHead(parts, '\n'); Join(parts, '\n')
    else Join(parts, '\n')
  }

  /** A join of two or more pieces starts with the first piece and a
      separator. */
  lemma JoinHead(parts: seq<string>, sep: char)
    requires |parts| >= 2
    ensures |Join(parts, sep)| > |parts[0]|
    ensures Join(parts, sep)[..|parts[0]|] == parts[0] && Join(parts, sep)[|parts[0]|] == sep
  {
    var rest := Join(parts[1..], sep);
    assert Join(parts, sep) == parts[0] + [sep] + rest;
  }

  /** A row has a line break only where the task's date or text has one. */
  lemma RowIsOneLine(t: Todo, today: string)
    requires '\n' !in t.dateString && '\n' !in t.text
    ensures '\n' !in Row(t, today)
  {
    var isPast := DateUtils.IsDatePast(t.dateString, today);
    NamesArePlain(t, isPast, '\n');
    NoBreakInEscape(t.text);
    var parts := [t.dateString, QuoteField(t.text), PriorityName(t.priority), StatusName(t.status),
                  StateLabel(t.status, isPast)];
    JoinKeepsOut(parts, ',', '\n');
  }

  lemma {:induction false} NoBreakInEscape(s: string)
    requires '\n' !in s
    ensures '\n' !in EscapeQuotes(s)
  {
    if |s| > 0 {
      NoBreakInEscape(s[1..]);
    }
  }

  lemma {:induction false} JoinKeepsOut(parts: seq<string>, sep: char, c: char)
    requires c != sep
    requires forall i | 0 <= i < |parts| :: c !in parts[i]
    ensures c !in Join(parts, sep)
  {
    if |parts| > 1 {
      JoinKeepsOut(parts[1..], sep, c);
    }
  }

  /** The header is one line. */
  lemma HeaderIsOneLine()
    ensures '\n' !in Header
  {
    HeaderColumns();
    JoinKeepsOut(HeaderFields, ',', '\n');
  }

  /** Tasks without line breaks in dates and texts give one-line rows. */
  lemma RowsAreLines(todos: seq<Todo>, today: string)
    requires forall i | 0 <= i < |todos| :: '\n' !in todos[i].dateString && '\n' !in todos[i].text
    ensures forall i | 0 <= i < |todos| :: '\n' !in Rows(todos, today)[i]
  {
    forall i | 0 <= i < |todos|
      ensures '\n' !in Rows(todos, today)[i]
    {
      RowIsOneLine(todos[i], today);
    }
  }

  /** A head line and further lines, none with a line break, split apart. */
  lemma LinesSplit(head: string, lines: seq<string>)
    requires '\n' !in head
    requires forall i | 0 <= i < |lines| :: '\n' !in lines[i]
    ensures Split(Join([head] + lines, '\n'), '\n') == [head] + lines
  {
    var parts := [head] + lines;
    forall i | 0 <= i < |parts|
      ensures '\n' !in parts[i]
    {
      if i > 0 {
        assert parts[i] == lines[i - 1];
      }
    }
    SplitJoin(parts, '\n');
  }

  /** Without line breaks in dates and texts, splitting the export at line
      breaks gives back the header and the rows. */
  lemma ExportSplitsIntoRows(todos: seq<Todo>, today: string)
    requires forall t | t in todos :: '\n' !in t.dateString && '\n' !in t.text
    ensures Split(ExportCsv(todos, today), '\n') == [Header] + Rows(ExportOrder(todos), today)
  {
    var sorted := ExportOrder(todos);
    forall i | 0 <= i < |sorted|
      ensures '\n' !in sorted[i].dateString && '\n' !in sorted[i].text
    {
      assert sorted[i] in multiset(todos);
    }
    RowsAreLines(sorted, today);
    HeaderIsOneLine();
    LinesSplit(Header, Rows(sorted, today));
  }

  /** When no date or text holds a line break, the export has exactly one
      line more than there are tasks: the header, then the tasks latest date
      first, each line reading back as its task. */
  lemma ExportLines(todos: seq<Todo>, today: string)
    requires forall t | t in todos :: '\n' !in t.dateString && '\n' !in t.text && ',' !in t.dateString
    ensures var lines := Split(ExportCsv(todos, today), '\n');
      && |lines| == |todos| + 1
      && lines[0] == Header
      && forall i | 1 <= i < |lines| ::
           var f := ParseRow(lines[i]);
           var t := ExportOrder(todos)[i - 1];
           f.Some? && f.value.date == t.dateString && f.value.text == t.text
           && ParseStatus(f.value.status) == Some(t.status)
           && ParsePriority(f.value.priority) == Some(t.priority)
           && f.value.stateLabel == StateLabel(t.status, DateUtils.IsDatePast(t.dateString, today))
  {
    var sorted := ExportOrder(todos);
    var rows := Rows(sorted, today);
    var lines := Split(ExportCsv(todos, today), '\n');
    ExportSplitsIntoRows(todos, today);
    assert lines == [Header] + rows;
    forall i | 1 <= i < |lines|
      ensures var f := ParseRow(lines[i]);
        f.Some? && f.value.date == sorted[i - 1].dateString && f.value.text == sorted[i - 1].text
        && ParseStatus(f.value.status) == Some(sorted[i - 1].status)
        && ParsePriority(f.value.priority) == Some(sorted[i - 1].priority)
        && f.value.stateLabel == StateLabel(sorted[i - 1].status, DateUtils.IsDatePast(sorted[i - 1].dateString, today))
    {
      assert lines[i] == Row(sorted[i - 1], today);
      assert sorted[i - 1] in multiset(todos);
      RowRoundTrip(sorted[i - 1], today);
    }
  }
}
