/** The spreadsheet export of an action plan (`exportToCSV` in
    components/NoteDisplay.tsx). Text fields are quoted in the manner of
    rule 7 of section 2 of RFC 4180: the field is wrapped in double quotes
    and every double quote inside it is doubled. Lines are joined with a
    bare line feed, not the CRLF that rule 1 of that section asks for, and
    the text is prefixed with a byte-order mark.

    The second half of the module is a reader for exactly this format; the
    round-trip theorem `CsvRoundTrip` says the export loses nothing. */
module CsvExport {
  import opened Types
  import opened Text

  /** U+FEFF, the byte-order mark placed in front of the text. */
  const Bom: char := '\U{FEFF}'

  const Headers: seq<string> := ["Status", "Task", "Assignee", "Priority"]

  /** `s.replace(/"/g, '""')`. */
  function Escape(s: string): (r: string)
    ensures |r| >= |s|
  {
    if |s| == 0 then [] else EscapeChar(s[0]) + Escape(s[1..])
  }

  /** Text without a double quote is left as it is. */
  lemma {:induction false} EscapeQuoteFree(s: string)
    requires '"' !in s
    ensures Escape(s) == s
  {
    if |s| > 0 {
      assert s[0] != '"' && '"' !in s[1..];
      EscapeQuoteFree(s[1..]);
      assert [s[0]] + s[1..] == s;
    }
  }

  /** One character of `Escape`: a quote becomes two. */
  function EscapeChar(c: char): (r: string)
    ensures c == '"' ==> r == ['"', '"']
    ensures c != '"' ==> r == [c]
  {
    if c == '"' then "\"\"" else [c]
  }

  /** A text field: the escaped text between double quotes. */
  function Quote(s: string): (r: string)
    ensures |r| >= 2 && r[0] == '"' && r[|r| - 1] == '"'
    ensures Unquote(r) == Some(s)
  {
    var r := "\"" + Escape(s) + "\"";
    ReadEscaped(s, []);
    assert r[1..] == Escape(s) + "\"" + [];
    r
  }

  /** The status column is never quoted. */
  function Status(t: Task): (r: string)
    ensures r == "Completed" <==> IsDone(t)
    ensures r == "Active" <==> !IsDone(t)
  {
    if IsDone(t) then "Completed" else "Active"
  }

  /** One row of `rows`: status, task text, assignee (absent reads as ""),
      priority. */
  function RowFields(t: Task): seq<string> {
    [Status(t), Quote(t.task), Quote(AssigneeText(t)), Quote(t.priority)]
  }

  /** `row.join(',')`: the status, then the three quoted fields, each after
      a comma. */
  function Row(t: Task): (r: string)
    ensures r == Status(t) + ("," + (Quote(t.task) + ("," + (Quote(AssigneeText(t)) + ("," + Quote(t.priority))))))
  {
    JoinFour(Status(t), Quote(t.task), Quote(AssigneeText(t)), Quote(t.priority));
    Join(RowFields(t), ",")
  }

  /** Four fields joined with commas. */
  lemma JoinFour(a: string, b: string, c: string, d: string)
    ensures Join([a, b, c, d], ",") == a + ("," + (b + ("," + (c + ("," + d)))))
  {
    JoinCons(a, [b, c, d], ",");
    JoinCons(b, [c, d], ",");
    JoinCons(c, [d], ",");
    assert [a, b, c, d] == [a] + [b, c, d];
    assert [b, c, d] == [b] + [c, d] && [c, d] == [c] + [d];
  }

  /** `summary.actionPlan.map(...)` followed by `row.join(',')`. */
  function Rows(plan: seq<Task>): (r: seq<string>)
    ensures |r| == |plan|
  {
    if |plan| == 0 then [] else [Row(plan[0])] + Rows(plan[1..])
  }

  /** The exported text: the byte-order mark, the header line, then one line
      per task in plan order, all joined with "\n". */
  function Csv(plan: seq<Task>): (r: string)
    ensures [Bom] + HeaderLine <= r
    ensures r == [Bom] + HeaderLine + Trailer(Rows(plan), "\n")
  {
    HeaderLineIsJoin();
    MarkedLayout(HeaderLine, Rows(plan));
    [Bom] + Join([Join(Headers, ",")] + Rows(plan), "\n")
  }

  /** The mark, then a first line and the line-feed-prefixed rest. */
  lemma MarkedLayout(first: string, lines: seq<string>)
    ensures var r := [Bom] + Join([first] + lines, "\n");
      && [Bom] + first <= r
      && r == [Bom] + first + Trailer(lines, "\n")
  {
    JoinCons(first, lines, "\n");
  }

  /** A quote inside a field is doubled and the field is wrapped in quotes:
      `say "go"` becomes `"say ""go"""`, for any quote-free `say` and `go`. */
  lemma QuoteExample(say: string, go: string)
    requires '"' !in say && '"' !in go
    ensures Quote(say + (['"'] + (go + ['"']))) == ['"'] + (say + (['"', '"'] + (go + ['"', '"']))) + ['"']
  {
    var q := ['"'];
    EscapeConcat(say, q + (go + q));
    EscapeConcat(q, go + q);
    EscapeConcat(go, q);
    EscapeQuoteChar();
    EscapeQuoteFree(say);
    EscapeQuoteFree(go);
  }

  lemma EscapeQuoteChar()
    ensures Escape(['"']) == ['"', '"']
  {
    assert ['"'][1..] == [];
  }

  lemma {:induction false} EscapeConcat(a: string, b: string)
    ensures Escape(a + b) == Escape(a) + Escape(b)
  {
    if |a| > 0 {
      assert (a + b)[1..] == a[1..] + b;
      EscapeConcat(a[1..], b);
    } else {
      assert a + b == b;
    }
  }

  // ---------------------------------------------------------------------
  // Reading the format back
  // ---------------------------------------------------------------------

  /** A row as a spreadsheet reads it. */
  datatype RowView = RowView(completed: bool, task: string, assignee: string, priority: string)

  /** What a task's row is meant to carry. */
  function View(t: Task): RowView {
    RowView(IsDone(t), t.task, AssigneeText(t), t.priority)
  }

  function Views(plan: seq<Task>): (r: seq<RowView>)
    ensures |r| == |plan|
  {
    if |plan| == 0 then [] else [View(plan[0])] + Views(plan[1..])
  }

  /** Consume one expected character. */
  function Expect(c: char, s: string): (r: Option<string>)
    ensures r.Some? ==> |r.value| < |s|
  {
    if |s| > 0 && s[0] == c then Some(s[1..]) else None
  }

  /** The body of a quoted field, read after its opening quote: a doubled
      quote stands for one quote, a single quote closes the field. Returns
      the text and what follows the closing quote. */
  function ReadQuoted(s: string): (r: Option<(string, string)>)
    ensures r.Some? ==> |r.value.1| < |s|
    decreases |s|
  {
    if |s| == 0 then None
    else if s[0] == '"' then
      if |s| >= 2 && s[1] == '"' then
        var inner :- ReadQuoted(s[2..]);
        Some(("\"" + inner.0, inner.1))
      else Some(([], s[1..]))
    else
      var inner :- ReadQuoted(s[1..]);
      Some(([s[0]] + inner.0, inner.1))
  }

  /** A whole quoted field at the start of `s`. */
  function ReadField(s: string): (r: Option<(string, string)>)
    ensures r.Some? ==> |r.value.1| < |s|
  {
    var body :- Expect('"', s);
    ReadQuoted(body)
  }

  /** One quoted field standing alone: strip the outer quotes and collapse
      the doubled ones. */
  function Unquote(field: string): Option<string> {
    var read :- ReadField(field);
    if read.1 == [] then Some(read.0) else None
  }

  function ReadStatus(s: string): (r: Option<(bool, string)>)
    ensures r.Some? ==> |r.value.1| < |s|
  {
    if "Completed" <= s then Some((true, s[9..]))
    else if "Active" <= s then Some((false, s[6..]))
    else None
  }

  /** One row at the start of `s`, and what follows it. */
  function ReadRow(s: string): (r: Option<(RowView, string)>)
    ensures r.Some? ==> |r.value.1| < |s|
  {
    var status :- ReadStatus(s);
    var s1 :- Expect(',', status.1);
    var task :- ReadField(s1);
    var s2 :- Expect(',', task.1);
    var assignee :- ReadField(s2);
    var s3 :- Expect(',', assignee.1);
    var priority :- ReadField(s3);
    Some((RowView(status.0, task.0, assignee.0, priority.0), priority.1))
  }

  /** The rows after the header: each preceded by a line feed. */
  function ReadRows(s: string): Option<seq<RowView>>
    decreases |s|
  {
    if |s| == 0 then Some([])
    else
      var afterBreak :- Expect('\n', s);
      var row :- ReadRow(afterBreak);
      var more :- ReadRows(row.1);
      Some([row.0] + more)
  }

  const HeaderLine := "Status,Task,Assignee,Priority"

  /** The whole export: mark, header line, rows. */
  function ReadCsv(s: string): Option<seq<RowView>> {
    var prefix := [Bom] + HeaderLine;
    if prefix <= s then ReadRows(s[|prefix|..]) else None
  }

  // ---------------------------------------------------------------------
  // Round trip
  // ---------------------------------------------------------------------

  /** The reader recovers an escaped text exactly, provided the closing quote
      is not followed by another quote. */
  lemma ReadEscaped(x: string, rest: string)
    requires rest == [] || rest[0] != '"'
    ensures ReadQuoted(Escape(x) + "\"" + rest) == Some((x, rest))
  {
    assert Escape(x) + "\"" + rest == Escape(x) + ("\"" + rest);
    ReadEscapedBefore(x, "\"" + rest, rest);
  }

  /** The induction behind `ReadEscaped`, over the escaped text followed by
      the closing quote and what comes after it. */
  lemma {:induction false} ReadEscapedBefore(x: string, closing: string, rest: string)
    requires closing == "\"" + rest
    requires rest == [] || rest[0] != '"'
    ensures ReadQuoted(Escape(x) + closing) == Some((x, rest))
  {
    if |x| == 0 {
      assert Escape(x) + closing == closing;
      ReadClosingQuote(rest);
    } else {
      var tail := Escape(x[1..]) + closing;
      assert ReadQuoted(tail) == Some((x[1..], rest)) by {
        ReadEscapedBefore(x[1..], closing, rest);
      }
      assert Escape(x) + closing == EscapeChar(x[0]) + tail by {
        EscapeShift(x, closing);
      }
      assert ReadQuoted(EscapeChar(x[0]) + tail) == Some(([x[0]] + x[1..], rest)) by {
        ReadEscapedStep(x[0], x[1..], tail, rest);
      }
      assert [x[0]] + x[1..] == x;
    }
  }

  /** The inductive step of `ReadEscaped`, stated over an arbitrary
      readable remainder. */
  lemma ReadEscapedStep(c: char, x: string, tail: string, rest: string)
    requires ReadQuoted(tail) == Some((x, rest))
    ensures ReadQuoted(EscapeChar(c) + tail) == Some(([c] + x, rest))
  {
    ReadEscapedChar(c, tail);
  }

  /** A quote not followed by another closes the field. */
  lemma ReadClosingQuote(rest: string)
    requires rest == [] || rest[0] != '"'
    ensures ReadQuoted("\"" + rest) == Some(([], rest))
  {
    assert ("\"" + rest)[1..] == rest;
  }

  /** The first character's escape, then the escape of the rest. */
  lemma EscapeShift(x: string, after: string)
    requires |x| > 0
    ensures Escape(x) + after == EscapeChar(x[0]) + (Escape(x[1..]) + after)
  {
  }

  /** One escaped character in front of a readable remainder is read back
      as that character. */
  lemma ReadEscapedChar(c: char, tail: string)
    requires ReadQuoted(tail).Some?
    ensures ReadQuoted(EscapeChar(c) + tail) == Some(([c] + ReadQuoted(tail).value.0, ReadQuoted(tail).value.1))
  {
    var s := EscapeChar(c) + tail;
    if c == '"' {
      assert s[2..] == tail;
    } else {
      assert s[1..] == tail;
    }
  }

  /** Stripping the outer quotes of a field and collapsing `""` gives back
      the original text. */
  lemma FieldRoundTrip(x: string, rest: string)
    requires rest == [] || rest[0] != '"'
    ensures ReadField(Quote(x) + rest) == Some((x, rest))
    ensures Unquote(Quote(x)) == Some(x)
  {
    ReadEscaped(x, rest);
    assert (Quote(x) + rest)[1..] == Escape(x) + "\"" + rest;
    ReadEscaped(x, []);
    assert Quote(x)[1..] == Escape(x) + "\"" + [];
  }

  /** A row followed by a line break or by nothing reads back as its view. */
  lemma RowRoundTrip(t: Task, more: string)
    requires more == [] || more[0] == '\n'
    ensures ReadRow(Row(t) + more) == Some((View(t), more))
  {
    var q1, q2, q3 := Quote(t.task), Quote(AssigneeText(t)), Quote(t.priority);
    var tail3 := q3 + more;
    var tail2 := q2 + ("," + tail3);
    var tail1 := q1 + ("," + tail2);
    RowThenMore(Status(t), q1, q2, q3, more);
    ReadStatusOf(t, "," + tail1);
    ExpectComma(tail1);
    FieldRoundTrip(t.task, "," + tail2);
    ExpectComma(tail2);
    FieldRoundTrip(AssigneeText(t), "," + tail3);
    ExpectComma(tail3);
    FieldRoundTrip(t.priority, more);
  }

  /** What follows a row stays attached to its last field. */
  lemma RowThenMore(a: string, b: string, c: string, d: string, more: string)
    ensures (a + ("," + (b + ("," + (c + ("," + d)))))) + more
         == a + ("," + (b + ("," + (c + ("," + (d + more))))))
  {
    var inner := c + ("," + d);
    assert inner + more == c + ("," + (d + more));
    var mid := b + ("," + inner);
    assert mid + more == b + ("," + (inner + more));
    assert (a + ("," + mid)) + more == a + ("," + (mid + more));
  }

  /** The separator in front of a field is consumed and nothing else. */
  lemma ExpectComma(tail: string)
    ensures Expect(',', "," + tail) == Some(tail)
  {
    assert ("," + tail)[1..] == tail;
  }

  /** The status word is read back as the completion flag. */
  lemma ReadStatusOf(t: Task, tail: string)
    requires |tail| > 0 && tail[0] == ','
    ensures ReadStatus(Status(t) + tail) == Some((IsDone(t), tail))
  {
    var s := Status(t) + tail;
    if IsDone(t) {
      assert "Completed" <= s && s[9..] == tail;
    } else {
      assert !("Completed" <= s) by { assert s[0] == 'A'; }
      assert "Active" <= s && s[6..] == tail;
    }
  }

  /** `Join` with a leading element, written as the element followed by the
      separator-prefixed rest. */
  function Trailer(lines: seq<string>, sep: string): string {
    if |lines| == 0 then "" else sep + Join(lines, sep)
  }

  lemma JoinCons(h: string, lines: seq<string>, sep: string)
    ensures Join([h] + lines, sep) == h + Trailer(lines, sep)
  {
    assert ([h] + lines)[1..] == lines;
  }

  lemma {:induction false} RowsRoundTrip(plan: seq<Task>)
    ensures ReadRows(Trailer(Rows(plan), "\n")) == Some(Views(plan))
  {
    if |plan| > 0 {
      var t := plan[0];
      var rest := Trailer(Rows(plan[1..]), "\n");
      RowsRoundTrip(plan[1..]);
      JoinCons(Row(t), Rows(plan[1..]), "\n");
      assert Trailer(Rows(plan), "\n") == "\n" + (Row(t) + rest);
      RowRoundTrip(t, rest);
    }
  }

  lemma HeaderLineIsJoin()
    ensures Join(Headers, ",") == HeaderLine
  {
    assert Headers[1..] == ["Task", "Assignee", "Priority"];
    assert Headers[1..][1..] == ["Assignee", "Priority"];
    assert Headers[1..][1..][1..] == ["Priority"];
  }

  /** Reading the export back yields one row per task, in plan order, with
      the task's completion status and its three text fields unchanged. */
  lemma CsvRoundTrip(plan: seq<Task>)
    ensures [Bom] + HeaderLine <= Csv(plan)
    ensures ReadCsv(Csv(plan)) == Some(Views(plan))
  {
    var body := Trailer(Rows(plan), "\n");
    HeaderLineIsJoin();
    JoinCons(HeaderLine, Rows(plan), "\n");
    assert Join([Join(Headers, ",")] + Rows(plan), "\n") == HeaderLine + body;
    assert Csv(plan) == ([Bom] + HeaderLine) + body;
    ReadAfterHeader([Bom] + HeaderLine, body);
    RowsRoundTrip(plan);
  }

  /** What follows the mark and the header line is read as rows. */
  lemma ReadAfterHeader(prefix: string, body: string)
    requires prefix == [Bom] + HeaderLine
    ensures prefix <= prefix + body
    ensures ReadCsv(prefix + body) == ReadRows(body)
  {
    assert (prefix + body)[..|prefix|] == prefix;
    assert (prefix + body)[|prefix|..] == body;
  }

  /** Each view carries the task's status, text, assignee and priority. */
  lemma {:induction false} ViewsAgree(plan: seq<Task>)
    ensures forall i :: 0 <= i < |plan| ==>
      && Views(plan)[i].completed == IsDone(plan[i])
      && Views(plan)[i].task == plan[i].task
      && Views(plan)[i].assignee == AssigneeText(plan[i])
      && Views(plan)[i].priority == plan[i].priority
  {
    if |plan| > 0 {
      ViewsAgree(plan[1..]);
      forall i | 1 <= i < |plan| ensures Views(plan)[i] == Views(plan[1..])[i - 1] && plan[i] == plan[1..][i - 1] {
      }
    }
  }
}
