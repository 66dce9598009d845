/** The audit log as pure data (ota_core/audit): monthly file names, what the files hold of
    everything emitted, filters, and the order in which a scan must yield events. */
module AuditFiles {
  import opened Outcomes
  import opened Text
  import opened Calendar
  import opened Grouping
  import Sorting

  datatype Event = Event(
    id: string,
    at: Instant,
    eventType: string,
    severity: string,
    routineRunId: Option<string>,
    traceId: string)

  /** A line of a file: a written event, or text that is no event. */
  datatype Line = Record(event: Event) | Junk(text: string)

  // ---------- File names ----------

  datatype Month = Month(year: nat, month: nat)

  predicate ValidMonth(m: Month) {
    1 <= m.year <= 9999 && 1 <= m.month <= 12
  }

  function Key(m: Month): nat {
    12 * m.year + m.month
  }

  const SUFFIX := ".jsonl"

  function FileName(m: Month): string {
    Pad(m.year, 4) + "-" + Pad(m.month, 2) + SUFFIX
  }

  predicate AllDigits(s: string) {
    forall i :: 0 <= i < |s| ==> IsDigit(s[i])
  }

  /** The match of the file-name pattern, whose end anchor also accepts a final newline. */
  function ReadName(name: string): Option<Month> {
    var n := if |name| == 14 && name[13] == '\n' then name[..13] else name;
    if |n| == 13 && AllDigits(n[..4]) && n[4] == '-' && AllDigits(n[5..7]) && n[7..] == SUFFIX
    then Some(Month(Undigits(n[..4]), Undigits(n[5..7])))
    else None
  }

  lemma NameRoundTrip(m: Month)
    requires ValidMonth(m)
    ensures ReadName(FileName(m)) == Some(m)
  {
    var n := FileName(m);
    assert Pow10(2) == 100 && Pow10(4) == 10_000 by {
      assert Pow10(3) == 1000;
    }
    PadRoundTrip(m.year, 4);
    PadRoundTrip(m.month, 2);
    assert n[..4] == Pad(m.year, 4) && n[5..7] == Pad(m.month, 2) && n[7..] == SUFFIX;
  }

  /** The year in four digits, a dash, the month in two, and ".jsonl". */
  lemma NameShape(m: Month)
    ensures FileName(m) == Pad(m.year, 4) + "-" + Pad(m.month, 2) + ".jsonl"
    ensures |FileName(m)| == 13
  {
  }

  /** Names of that shape are read as their month, also with a newline behind. */
  lemma ShapedNameReads(year: string, month: string, end: string)
    requires |year| == 4 && AllDigits(year) && |month| == 2 && AllDigits(month) && (end == "" || end == "\n")
    ensures ReadName(year + ("-" + (month + (".jsonl" + end)))) == Some(Month(Undigits(year), Undigits(month)))
  {
    var name := year + ("-" + (month + (".jsonl" + end)));
    var n := year + ("-" + (month + ".jsonl"));
    assert name == n + end && |n| == 13;
    if end == "" {
      assert name == n;
    } else {
      assert |name| == 14 && name[13] == '\n' && name[..13] == n;
    }
    assert n[..4] == year && n[5..7] == month && n[7..] == ".jsonl" && n[4] == '-';
  }

  /** And no other names. */
  lemma ReadNameIsShaped(name: string)
    requires ReadName(name).Some?
    ensures 13 <= |name| <= 14 && (|name| == 14 ==> name[13] == '\n')
    ensures AllDigits(name[..4]) && name[4] == '-' && AllDigits(name[5..7]) && name[7..13] == ".jsonl"
    ensures ReadName(name) == Some(Month(Undigits(name[..4]), Undigits(name[5..7])))
  {
    var n := if |name| == 14 && name[13] == '\n' then name[..13] else name;
    assert n == name[..13];
    assert n[..4] == name[..4] && n[5..7] == name[5..7] && n[7..] == name[7..13];
  }

  function MonthAt(t: Instant): Month {
    Month(DateAt(t).year, DateAt(t).month)
  }

  lemma MonthAtValid(t: Instant)
    ensures ValidMonth(MonthAt(t)) && Key(MonthAt(t)) == MonthIndex(DateAt(t))
  {
    YearInRange(t);
  }

  function KeyOf(e: Event): nat {
    Key(MonthAt(e.at))
  }

  // ---------- What the files hold ----------

  /** The lines written for one month, in emission order. */
  ghost function Lines(log: seq<Event>, key: nat): seq<Line> {
    if log == [] then []
    else Lines(log[..|log| - 1], key)
         + if KeyOf(log[|log| - 1]) == key then [Record(log[|log| - 1])] else []
  }

  function Contents(files: map<string, seq<Line>>, m: Month): seq<Line> {
    if FileName(m) in files then files[FileName(m)] else []
  }

  /** A name that reads as a month is the name of that month. */
  predicate WellNamed(name: string) {
    var m := ReadName(name);
    m.Some? ==> ValidMonth(m.value) && name == FileName(m.value)
  }

  /** The directory holds exactly what was emitted, by month, besides unrelated files. */
  ghost predicate Stored(files: map<string, seq<Line>>, log: seq<Event>) {
    && (forall name :: name in files ==> WellNamed(name))
    && forall m :: ValidMonth(m) ==> Contents(files, m) == Lines(log, Key(m))
  }

  lemma LinesStep(log: seq<Event>, e: Event, key: nat)
    ensures Lines(log + [e], key) == Lines(log, key) + if KeyOf(e) == key then [Record(e)] else []
  {
    assert (log + [e])[..|log|] == log;
  }

  function Appended(files: map<string, seq<Line>>, e: Event): map<string, seq<Line>> {
    files[FileName(MonthAt(e.at)) := Contents(files, MonthAt(e.at)) + [Record(e)]]
  }

  lemma NamesDiffer(m: Month, n: Month)
    requires ValidMonth(m) && ValidMonth(n)
    ensures FileName(m) == FileName(n) <==> Key(m) == Key(n)
    ensures WellNamed(FileName(m))
  {
    NameRoundTrip(m);
    NameRoundTrip(n);
  }

  lemma ContentsStep(files: map<string, seq<Line>>, e: Event, m: Month)
    requires ValidMonth(m)
    ensures Contents(Appended(files, e), m) == Contents(files, m) + if KeyOf(e) == Key(m) then [Record(e)] else []
  {
    MonthAtValid(e.at);
    NamesDiffer(m, MonthAt(e.at));
    if Key(m) == KeyOf(e) {
      assert m == MonthAt(e.at);
    }
  }

  /** Appending to the month's file keeps the directory in step with the log. */
  lemma AppendStored(files: map<string, seq<Line>>, log: seq<Event>, e: Event)
    requires Stored(files, log)
    ensures Stored(Appended(files, e), log + [e])
  {
    var files' := Appended(files, e);
    MonthAtValid(e.at);
    NamesDiffer(MonthAt(e.at), MonthAt(e.at));
    forall m | ValidMonth(m) ensures Contents(files', m) == Lines(log + [e], Key(m)) {
      LinesStep(log, e, Key(m));
      ContentsStep(files, e, m);
    }
  }

  /** No month's contents differ. */
  ghost predicate SameContents(files: map<string, seq<Line>>, files': map<string, seq<Line>>) {
    forall m :: Contents(files', m) == Contents(files, m)
  }

  /** One line more, in the file of the event's month. */
  ghost predicate AddsLine(files: map<string, seq<Line>>, files': map<string, seq<Line>>, e: Event) {
    forall m :: ValidMonth(m) ==>
                  Contents(files', m) == Contents(files, m) + if m == MonthAt(e.at) then [Record(e)] else []
  }

  lemma SameKey(m: Month, n: Month)
    requires ValidMonth(m) && ValidMonth(n)
    ensures Key(m) == Key(n) <==> m == n
  {
  }

  /** Creating an empty file changes no contents. */
  lemma EmptyFile(files: map<string, seq<Line>>, name: string)
    requires name !in files
    ensures SameContents(files, files[name := []])
  {
  }

  lemma AppendedAdds(files: map<string, seq<Line>>, e: Event)
    ensures AddsLine(files, Appended(files, e), e)
  {
    MonthAtValid(e.at);
    forall m | ValidMonth(m)
      ensures Contents(Appended(files, e), m) == Contents(files, m) + if m == MonthAt(e.at) then [Record(e)] else []
    {
      ContentsStep(files, e, m);
      SameKey(m, MonthAt(e.at));
    }
  }

  lemma AddsAfterRotation(a: map<string, seq<Line>>, b: map<string, seq<Line>>, c: map<string, seq<Line>>, e: Event)
    requires SameContents(a, b) && AddsLine(b, c, e)
    ensures AddsLine(a, c, e)
  {
  }

  // ---------- Filters ----------

  /** A bound with its own UTC offset in minutes: `local` is what its fields show. */
  datatype Bound = Bound(local: Instant, offset: int)

  function BoundTime(b: Bound): int {
    b.local - b.offset * MICROS_PER_MINUTE
  }

  datatype Filter = Filter(
    start: Option<Bound>,
    end: Option<Bound>,
    eventTypes: set<string>,
    routineRunId: Option<string>,
    traceId: Option<string>,
    severityAtLeast: Option<string>,
    text: Event -> bool)              // the case-insensitive text search

  function SeverityRank(severity: string): nat {
    if severity == "info" then 1
    else if severity == "warn" then 2
    else if severity == "error" then 3
    else if severity == "critical" then 4
    else 0
  }

  predicate Matches(f: Filter, e: Event) {
    && (f.start.Some? ==> BoundTime(f.start.value) <= e.at)
    && (f.end.Some? ==> e.at <= BoundTime(f.end.value))
    && (f.eventTypes != {} ==> e.eventType in f.eventTypes)
    && (f.routineRunId.Some? ==> e.routineRunId == f.routineRunId)
    && (f.traceId.Some? ==> Some(e.traceId) == f.traceId)
    && (f.severityAtLeast.Some? ==> SeverityRank(f.severityAtLeast.value) <= SeverityRank(e.severity))
    && f.text(e)
  }

  /** The month shown by a bound's own fields, which is what pruning compares. */
  function LocalKey(b: Bound): nat {
    Key(MonthAt(b.local))
  }

  predicate Kept(f: Filter, key: nat) {
    && (f.start.Some? ==> LocalKey(f.start.value) <= key)
    && (f.end.Some? ==> key <= LocalKey(f.end.value))
  }

  function Matching(f: Filter): (hit: Event -> bool)
    ensures forall e :: hit(e) <==> Matches(f, e)
  {
    e => Matches(f, e)
  }

  /** What survives both the pruning of files and the filter. */
  function Selected(f: Filter): (hit: Event -> bool)
    ensures forall e :: hit(e) <==> Kept(f, KeyOf(e)) && Matches(f, e)
  {
    e => Kept(f, KeyOf(e)) && Matches(f, e)
  }

  // ---------- The order of a scan ----------

  /** The month key of events, as a value. */
  function EventKey(): (keyOf: Event -> nat)
    ensures forall e :: keyOf(e) == KeyOf(e)
  {
    e => KeyOf(e)
  }

  const END_KEY: nat := 12 * 10000 + 1

  /** What a reader must yield: the accepted events by month, then in emission order. */
  ghost function Expected(log: seq<Event>, hit: Event -> bool): seq<Event> {
    Grouped(log, EventKey(), hit, END_KEY)
  }

  /** The events of a file that a scan yields; lines that are no events are skipped. */
  function Yielded(lines: seq<Line>, hit: Event -> bool): seq<Event> {
    if lines == [] then []
    else
      var line := lines[|lines| - 1];
      Yielded(lines[..|lines| - 1], hit) + if line.Record? && hit(line.event) then [line.event] else []
  }

  lemma {:induction false} FileYieldsMonth(log: seq<Event>, hit: Event -> bool, key: nat)
    ensures Yielded(Lines(log, key), hit) == Pick(log, EventKey(), hit, key)
  {
    if log != [] {
      var init, e := log[..|log| - 1], log[|log| - 1];
      FileYieldsMonth(init, hit, key);
      if KeyOf(e) == key {
        assert Lines(log, key)[..|Lines(log, key)| - 1] == Lines(init, key);
      } else {
        assert Lines(log, key) == Lines(init, key);
      }
    }
  }

  // ---------- Listing and pruning ----------

  /** A monthly file found by the reader. */
  datatype Entry = Entry(month: Month, name: string)

  /** A directory listing: every name once, in any order. */
  ghost predicate Lists(listing: seq<string>, names: set<string>) {
    && (forall name :: name in listing <==> name in names)
    && Sorting.NoRepeats(listing)
  }

  ghost predicate Distinct(s: seq<Entry>) {
    forall i, j :: 0 <= i < j < |s| ==> Key(s[i].month) != Key(s[j].month)
  }

  ghost predicate Ascending(s: seq<Entry>) {
    forall i, j :: 0 <= i < j < |s| ==> Key(s[i].month) < Key(s[j].month)
  }

  function EarlierFirst(): (Entry, Entry) -> bool {
    (x: Entry, y: Entry) => Key(x.month) <= Key(y.month)
  }

  ghost function Rank(): Entry -> int {
    (x: Entry) => Key(x.month)
  }

  /** `sorted(files, key=month)`. */
  function Sorted(s: seq<Entry>): (r: seq<Entry>)
    ensures forall y :: y in r <==> y in s
  {
    Sorting.Sort(EarlierFirst(), s)
  }

  lemma SortedAscending(s: seq<Entry>)
    requires Distinct(s)
    ensures Ascending(Sorted(s))
  {
    var r := Sorted(s);
    Sorting.SortOrdered(EarlierFirst(), Rank(), s);
    Sorting.SortNoRepeats(EarlierFirst(), s);
    forall i, j | 0 <= i < j < |r| ensures Key(r[i].month) < Key(r[j].month) {
      assert r[i] in s && r[j] in s && r[i] != r[j];
      assert Rank()(r[i]) <= Rank()(r[j]);
    }
  }

  /** The first `n` entries are those with keys below `seen`. */
  ghost predicate SeenSoFar(entries: seq<Entry>, n: nat, seen: nat) {
    forall j :: 0 <= j < |entries| ==> (j < n <==> Key(entries[j].month) < seen)
  }

  lemma SeenStep(entries: seq<Entry>, i: nat, seen: nat)
    requires Ascending(entries) && i < |entries| && SeenSoFar(entries, i, seen) && ValidMonth(entries[i].month)
    ensures SeenSoFar(entries, i + 1, Key(entries[i].month) + 1) && Key(entries[i].month) + 1 <= END_KEY
  {
  }

  /** Tuple comparison of (year, month). */
  predicate Earlier(m: Month, n: Month) {
    m.year < n.year || (m.year == n.year && m.month < n.month)
  }

  lemma KeyOrder(m: Month, n: Month)
    requires 1 <= m.month <= 12 && 1 <= n.month <= 12
    ensures Earlier(m, n) <==> Key(m) < Key(n)
  {
  }

  lemma NoFileNoPick(files: map<string, seq<Line>>, log: seq<Event>, hit: Event -> bool, key: nat)
    requires Stored(files, log)
    requires forall m :: ValidMonth(m) && Key(m) == key ==> FileName(m) !in files
    ensures Pick(log, EventKey(), hit, key) == []
  {
    if e :| e in log && KeyOf(e) == key {
      MonthAtValid(e.at);
      FileYieldsMonth(log, hit, key);
      assert Contents(files, MonthAt(e.at)) == Lines(log, key);
    } else {
      NothingPicked(log, EventKey(), hit, key);
    }
  }

  /** The months between two consecutive files hold nothing. */
  lemma NoFilesBetween(files: map<string, seq<Line>>, log: seq<Event>, hit: Event -> bool,
                       entries: seq<Entry>, i: nat, seen: nat)
    requires Stored(files, log) && i < |entries|
    requires forall x :: x in entries <==> x.name in files && ReadName(x.name) == Some(x.month)
    requires Ascending(entries) && SeenSoFar(entries, i, seen)
    ensures seen <= Key(entries[i].month)
    ensures Grouped(log, EventKey(), hit, Key(entries[i].month)) == Grouped(log, EventKey(), hit, seen)
  {
    var key := Key(entries[i].month);
    forall k: nat | seen <= k < key ensures Pick(log, EventKey(), hit, k) == [] {
      forall m | ValidMonth(m) && Key(m) == k ensures FileName(m) !in files {
        NameRoundTrip(m);
        assert Entry(m, FileName(m)) !in entries;
      }
      NoFileNoPick(files, log, hit, k);
    }
    EmptyGroups(Picks(log, EventKey(), hit), seen, key);
  }

  lemma NoFilesAfter(files: map<string, seq<Line>>, log: seq<Event>, hit: Event -> bool, entries: seq<Entry>, seen: nat)
    requires Stored(files, log) && seen <= END_KEY
    requires forall x :: x in entries <==> x.name in files && ReadName(x.name) == Some(x.month)
    requires SeenSoFar(entries, |entries|, seen)
    ensures Grouped(log, EventKey(), hit, END_KEY) == Grouped(log, EventKey(), hit, seen)
  {
    forall k: nat | seen <= k < END_KEY ensures Pick(log, EventKey(), hit, k) == [] {
      forall m | ValidMonth(m) && Key(m) == k ensures FileName(m) !in files {
        NameRoundTrip(m);
        assert Entry(m, FileName(m)) !in entries;
      }
      NoFileNoPick(files, log, hit, k);
    }
    EmptyGroups(Picks(log, EventKey(), hit), seen, END_KEY);
  }

  lemma PrunedMonth(log: seq<Event>, f: Filter, key: nat)
    requires !Kept(f, key)
    ensures Pick(log, EventKey(), Selected(f), key) == []
  {
    NothingPicked(log, EventKey(), Selected(f), key);
  }

  lemma KeptMonth(files: map<string, seq<Line>>, log: seq<Event>, f: Filter, m: Month)
    requires Stored(files, log) && ValidMonth(m) && Kept(f, Key(m)) && FileName(m) in files
    ensures Pick(log, EventKey(), Selected(f), Key(m)) == Yielded(files[FileName(m)], Matching(f))
  {
    SamePick(log, EventKey(), Selected(f), Matching(f), Key(m));
    FileYieldsMonth(log, Matching(f), Key(m));
    assert Contents(files, m) == Lines(log, Key(m));
  }

  /** The monthly files of a directory, oldest first. */
  ghost predicate AllMonthly(entries: seq<Entry>, files: map<string, seq<Line>>) {
    Ascending(entries) && forall x :: x in entries <==> x.name in files && ReadName(x.name) == Some(x.month)
  }

  /** After the first `n` monthly files all months below `seen` have been yielded. */
  ghost predicate Scanned(log: seq<Event>, f: Filter, entries: seq<Entry>, n: nat, seen: nat, found: seq<Event>) {
    seen <= END_KEY && SeenSoFar(entries, n, seen) && found == Grouped(log, EventKey(), Selected(f), seen)
  }

  lemma ScannedNext(files: map<string, seq<Line>>, log: seq<Event>, f: Filter, entries: seq<Entry>, i: nat, seen: nat,
                    found: seq<Event>)
    requires Stored(files, log) && AllMonthly(entries, files) && i < |entries| && ValidMonth(entries[i].month)
    requires Scanned(log, f, entries, i, seen, found)
    ensures var key := Key(entries[i].month);
            Scanned(log, f, entries, i + 1, key + 1, found + Pick(log, EventKey(), Selected(f), key))
  {
    NoFilesBetween(files, log, Selected(f), entries, i, seen);
    NextGroup(log, EventKey(), Selected(f), Key(entries[i].month));
    SeenStep(entries, i, seen);
  }

  lemma ScannedAll(files: map<string, seq<Line>>, log: seq<Event>, f: Filter, entries: seq<Entry>, seen: nat,
                   found: seq<Event>)
    requires Stored(files, log) && AllMonthly(entries, files)
    requires Scanned(log, f, entries, |entries|, seen, found)
    ensures found == Expected(log, Selected(f))
  {
    NoFilesAfter(files, log, Selected(f), entries, seen);
  }

  lemma NothingScanned(log: seq<Event>, f: Filter, entries: seq<Entry>)
    ensures Scanned(log, f, entries, 0, 0, [])
  {
  }

  lemma EntryNamed(entries: seq<Entry>, files: map<string, seq<Line>>, log: seq<Event>, i: nat)
    requires Stored(files, log) && AllMonthly(entries, files) && i < |entries|
    ensures entries[i].name in files && ReadName(entries[i].name) == Some(entries[i].month)
    ensures ValidMonth(entries[i].month)
  {
    assert entries[i] in entries && WellNamed(entries[i].name);
  }
}
