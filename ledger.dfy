/** The run log: a header line, then one line per downloaded archive with the
    catalog service name, the start and end times, the elapsed seconds and
    the result URL. */
module Ledger {
  import opened Decimal

  /** A clock reading: microseconds since some epoch, and its formatted text
      (`strftime("%m-%d-%Y %H:%M:%S %p")`, not modelled). */
  datatype Instant = Instant(micros: int, shown: string)

  const MicrosPerSecond: int := 1000000
  const SecondsPerDay: int := 86400

  /** `(end - start).seconds` of a Python timedelta: the whole seconds of the
      difference, with whole days dropped. It is never negative and below one
      day; it is the elapsed time in whole seconds only when the difference
      lies between zero and one day. */
  function ElapsedSeconds(start: Instant, end: Instant): (s: nat)
    ensures s < SecondsPerDay
    ensures 0 <= end.micros - start.micros < SecondsPerDay * MicrosPerSecond ==>
      s * MicrosPerSecond <= end.micros - start.micros < (s + 1) * MicrosPerSecond
  {
    ((end.micros - start.micros) / MicrosPerSecond) % SecondsPerDay
  }

  /** A download that completed: the catalog name, the entry's start time,
      the end time and the token-bearing result URL. */
  datatype ArchiveRecord = ArchiveRecord(serviceName: string, start: Instant, end: Instant, url: string)

  /** The header's column names. */
  const Columns: seq<string> := ["ServiceName", "StartTime", "EndTime", "SecondsElapsed", "ReplicaURL"]

  /** The first line of the log: the column names, separated by ", ". */
  const Header: string := Row(Columns) + "\n"

  function LogName(stamp: string): string
  {
    "log_" + stamp + ".txt"
  }

  /** The log line of a download: its five fields separated by ", ", then a line break. */
  function LogLine(r: ArchiveRecord): (line: string)
    ensures |line| > 0 && line[|line| - 1] == '\n'
  {
    r.serviceName + ", " + r.start.shown + ", " + r.end.shown + ", "
      + Dec(ElapsedSeconds(r.start, r.end)) + ", " + r.url + "\n"
  }

  /** Fields written one after the other, separated by ", ". */
  function Row(fs: seq<string>): string
    decreases |fs|
  {
    if |fs| <= 1 then (if fs == [] then "" else fs[0])
    else fs[0] + ", " + Row(fs[1..])
  }

  /** A text read back as fields separated by ", ", in order. */
  function Fields(s: string): (parts: seq<string>)
    ensures |parts| >= 1
    decreases |s|
  {
    if s == [] then [[]]
    else if |s| >= 2 && s[0] == ',' && s[1] == ' ' then [[]] + Fields(s[2..])
    else
      var rest := Fields(s[1..]);
      [[s[0]] + rest[0]] + rest[1..]
  }

  lemma {:induction false} FieldsOfPlain(a: string)
    requires ',' !in a
    ensures Fields(a) == [a]
    decreases |a|
  {
    if a != [] {
      FieldsOfPlain(a[1..]);
      assert [a[0]] + a[1..] == a;
    }
  }

  lemma {:induction false} FieldsCons(a: string, b: string)
    requires ',' !in a
    ensures Fields(a + ", " + b) == [a] + Fields(b)
    decreases |a|
  {
    var s := a + ", " + b;
    if a == [] {
      assert s[2..] == b;
    } else {
      assert s[0] == a[0];
      assert s[1..] == a[1..] + ", " + b;
      FieldsCons(a[1..], b);
      assert [a[0]] + a[1..] == a;
    }
  }

  /** Fields holding no comma are read back from their row as written. */
  lemma {:induction false} FieldsOfRow(fs: seq<string>)
    requires |fs| >= 1 && forall i :: 0 <= i < |fs| ==> ',' !in fs[i]
    ensures Fields(Row(fs)) == fs
    decreases |fs|
  {
    if |fs| == 1 {
      FieldsOfPlain(fs[0]);
    } else {
      FieldsOfRow(fs[1..]);
      FieldsCons(fs[0], Row(fs[1..]));
      assert [fs[0]] + fs[1..] == fs;
    }
  }

  /** The fields of a record hold no comma. */
  predicate CommaFree(r: ArchiveRecord)
  {
    ',' !in r.serviceName && ',' !in r.start.shown && ',' !in r.end.shown && ',' !in r.url
  }

  /** The five values a log line records, in the order of the header's columns. */
  function Values(r: ArchiveRecord): seq<string>
  {
    [r.serviceName, r.start.shown, r.end.shown, Dec(ElapsedSeconds(r.start, r.end)), r.url]
  }

  /** A log line is one row of the record's five values, and read back as
      fields it gives those values again, when none holds a comma. */
  lemma LogLineFields(r: ArchiveRecord)
    ensures LogLine(r) == Row(Values(r)) + "\n"
    ensures CommaFree(r) ==> Fields(Row(Values(r))) == Values(r)
  {
    var vs := Values(r);
    assert Row(vs) == r.serviceName + ", " + Row(vs[1..]);
    assert Row(vs[1..]) == r.start.shown + ", " + Row(vs[2..]);
    assert Row(vs[2..]) == r.end.shown + ", " + Row(vs[3..]);
    assert Row(vs[3..]) == vs[3] + ", " + Row(vs[4..]);
    if CommaFree(r) {
      assert ',' !in vs[3] by {
        assert forall i :: 0 <= i < |vs[3]| ==> IsDigit(vs[3][i]);
      }
      FieldsOfRow(vs);
    }
  }

  /** A row avoids every character its fields avoid, other than the separator's. */
  lemma {:induction false} RowAvoids(fs: seq<string>, c: char)
    requires c != ',' && c != ' ' && forall i :: 0 <= i < |fs| ==> c !in fs[i]
    ensures c !in Row(fs)
    decreases |fs|
  {
    if |fs| > 1 {
      RowAvoids(fs[1..], c);
    }
  }

  lemma OneNewline(s: string)
    requires '\n' !in s
    ensures Newlines(s + "\n") == 1
  {
    assert multiset(s + "\n") == multiset(s) + multiset{'\n'};
  }

  /** The header is one line, and read back as fields it gives the five column
      names, which name the values of every log line in the same order. */
  lemma HeaderColumns()
    ensures Newlines(Header) == 1
    ensures Fields(Row(Columns)) == Columns
    ensures forall r :: |Values(r)| == |Columns|
  {
    assert forall i :: 0 <= i < |Columns| ==> ',' !in Columns[i] && '\n' !in Columns[i] by {
      assert ',' !in Columns[0] && '\n' !in Columns[0];
      assert ',' !in Columns[1] && '\n' !in Columns[1];
      assert ',' !in Columns[2] && '\n' !in Columns[2];
      assert ',' !in Columns[3] && '\n' !in Columns[3];
      assert ',' !in Columns[4] && '\n' !in Columns[4];
    }
    FieldsOfRow(Columns);
    RowAvoids(Columns, '\n');
    OneNewline(Row(Columns));
  }

  /** The lines of the records, in order. */
  function LogText(records: seq<ArchiveRecord>): string
    decreases |records|
  {
    if records == [] then ""
    else LogText(records[..|records| - 1]) + LogLine(records[|records| - 1])
  }

  lemma LogTextSnoc(records: seq<ArchiveRecord>, r: ArchiveRecord)
    ensures LogText(records + [r]) == LogText(records) + LogLine(r)
  {
    assert (records + [r])[..|records|] == records;
  }

  /** The number of line breaks in a text. */
  function Newlines(s: string): nat
  {
    multiset(s)['\n']
  }

  lemma DecHasNoNewline(n: nat)
    ensures '\n' !in Dec(n)
  {
    assert forall i :: 0 <= i < |Dec(n)| ==> IsDigit(Dec(n)[i]);
  }

  /** The fields of a record hold no line break. */
  predicate SingleLine(r: ArchiveRecord)
  {
    '\n' !in r.serviceName && '\n' !in r.start.shown && '\n' !in r.end.shown && '\n' !in r.url
  }

  /** A record whose fields hold no line break is written as exactly one line. */
  lemma {:induction false} OneLinePerRecord(r: ArchiveRecord)
    requires SingleLine(r)
    ensures Newlines(LogLine(r)) == 1
  {
    var sep := ", ";
    var secs := Dec(ElapsedSeconds(r.start, r.end));
    DecHasNoNewline(ElapsedSeconds(r.start, r.end));
    var body := r.serviceName + sep + r.start.shown + sep + r.end.shown + sep + secs + sep + r.url;
    assert LogLine(r) == body + "\n";
    assert '\n' !in body;
    assert multiset(body + "\n") == multiset(body) + multiset{'\n'};
  }

  /** The header followed by the lines of records without line breaks in
      their fields is one line more than there are records. */
  lemma HeaderThenLines(records: seq<ArchiveRecord>)
    requires forall i :: 0 <= i < |records| ==> SingleLine(records[i])
    ensures Newlines(Header + LogText(records)) == |records| + 1
  {
    LedgerLines(records);
    HeaderColumns();
    assert multiset(Header + LogText(records)) == multiset(Header) + multiset(LogText(records));
  }

  /** Below the header the log holds one line per record and nothing else. */
  lemma {:induction false} LedgerLines(records: seq<ArchiveRecord>)
    requires forall i :: 0 <= i < |records| ==> SingleLine(records[i])
    ensures Newlines(LogText(records)) == |records|
    decreases |records|
  {
    if records != [] {
      var init := records[..|records| - 1];
      var last := LogLine(records[|records| - 1]);
      LedgerLines(init);
      OneLinePerRecord(records[|records| - 1]);
      assert LogText(records) == LogText(init) + last;
      assert multiset(LogText(records)) == multiset(LogText(init)) + multiset(last);
    }
  }
}
