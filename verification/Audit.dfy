/** The audit log's writer with monthly rotation (ota_core/audit/sink.py) and its reader
    with month pruning (ota_core/audit/reader.py). */
module Audit {
  import opened Outcomes
  import opened Calendar
  import opened AuditFiles
  import opened Grouping
  import opened AuditQueries
  import AuditOrder

  class Directory {
    var files: map<string, seq<Line>>
    ghost var log: seq<Event>           // everything emitted into the directory

    ghost predicate Valid()
      reads this
    {
      Stored(files, log)
    }

    /** A directory without monthly files. */
    constructor (unrelated: map<string, seq<Line>>)
      requires forall name :: name in unrelated ==> ReadName(name).None?
      ensures Valid() && files == unrelated && log == []
    {
      files := unrelated;
      log := [];
      forall m | ValidMonth(m) ensures Contents(unrelated, m) == Lines([], Key(m)) {
        NameRoundTrip(m);
      }
    }
  }

  class Sink {
    const directory: Directory
    var file: Option<string>            // the open file
    var currentMonth: Option<Month>

    ghost predicate Valid()
      reads this, directory
    {
      file.Some? ==>
        && currentMonth.Some? && ValidMonth(currentMonth.value)
        && file == Some(FileName(currentMonth.value)) && file.value in directory.files
    }

    constructor (directory: Directory)
      ensures this.directory == directory && Valid() && file == None && currentMonth == None
    {
      this.directory := directory;
      file := None;
      currentMonth := None;
    }

    method RotateIfNeeded(at: Instant)
      requires Valid() && directory.Valid()
      modifies this, directory`files
      ensures Valid() && directory.Valid()
      ensures currentMonth == Some(MonthAt(at)) && file == Some(FileName(MonthAt(at)))
      ensures SameContents(old(directory.files), directory.files)
      ensures old(directory.files).Keys <= directory.files.Keys
    {
      var key := MonthAt(at);
      MonthAtValid(at);
      NamesDiffer(key, key);
      if file.Some? && currentMonth == Some(key) {
        return;
      }
      file := None;
      var path := FileName(key);
      if path !in directory.files {
        EmptyFile(directory.files, path);
        directory.files := directory.files[path := []];
      }
      file := Some(path);
      currentMonth := Some(key);
    }

    /** `emit`, with the event already built. */
    method Emit(e: Event)
      requires Valid() && directory.Valid()
      modifies this, directory
      ensures Valid() && directory.Valid()
      ensures directory.log == old(directory.log) + [e]
      ensures AddsLine(old(directory.files), directory.files, e)
      ensures currentMonth == Some(MonthAt(e.at)) && file.Some?
      ensures old(directory.files).Keys <= directory.files.Keys
    {
      RotateIfNeeded(e.at);
      ghost var rotated := directory.files;
      AppendStored(rotated, directory.log, e);
      AppendedAdds(rotated, e);
      AddsAfterRotation(old(directory.files), rotated, Appended(rotated, e), e);
      directory.files := directory.files[file.value := directory.files[file.value] + [Record(e)]];
      directory.log := directory.log + [e];
    }

    method Close()
      requires Valid()
      modifies this
      ensures Valid() && file == None
      ensures currentMonth == if old(file).Some? then None else old(currentMonth)
    {
      if file.Some? {
        file := None;
        currentMonth := None;
      }
    }
  }

  class Reader {
    const directory: Directory

    constructor (directory: Directory)
      ensures this.directory == directory
    {
      this.directory := directory;
    }

    /** The monthly files, oldest first, whatever order the directory lists them in. */
    method MonthlyFiles(listing: seq<string>) returns (files: seq<Entry>)
      requires directory.Valid() && Lists(listing, directory.files.Keys)
      ensures AllMonthly(files, directory.files)
    {
      files := [];
      for i := 0 to |listing|
        invariant Distinct(files)
        invariant forall x :: x in files <==> x.name in listing[..i] && ReadName(x.name) == Some(x.month)
      {
        var month := ReadName(listing[i]);
        assert listing[..i + 1] == listing[..i] + [listing[i]];
        assert WellNamed(listing[i]);
        if month.Some? {
          var x := Entry(month.value, listing[i]);
          forall y | y in files ensures Key(y.month) != Key(x.month) {
            assert WellNamed(y.name);
            NamesDiffer(y.month, x.month);
          }
          files := files + [x];
        }
      }
      assert listing[..|listing|] == listing;
      SortedAscending(files);
      files := Sorted(files);
    }

    /** `_scan_file`. */
    method ScanFile(name: string, f: Filter) returns (found: seq<Event>)
      requires name in directory.files
      ensures found == Yielded(directory.files[name], Matching(f))
    {
      found := [];
      var lines := directory.files[name];
      for i := 0 to |lines|
        invariant found == Yielded(lines[..i], Matching(f))
      {
        assert lines[..i + 1][..i] == lines[..i];
        var line := lines[i];
        if line.Record? {
          if Matches(f, line.event) {
            found := found + [line.event];
          }
        }
      }
      assert lines[..|lines|] == lines;
    }

    /** The pruning of one file by the months the bounds show, and its scan. */
    method ScanMonth(x: Entry, f: Filter) returns (found: seq<Event>)
      requires directory.Valid() && x.name in directory.files && ReadName(x.name) == Some(x.month)
      ensures found == Pick(directory.log, EventKey(), Selected(f), Key(x.month))
    {
      assert WellNamed(x.name);
      if f.start.Some? {
        MonthAtValid(f.start.value.local);
        KeyOrder(x.month, MonthAt(f.start.value.local));
        if Earlier(x.month, MonthAt(f.start.value.local)) {
          PrunedMonth(directory.log, f, Key(x.month));
          return [];
        }
      }
      if f.end.Some? {
        MonthAtValid(f.end.value.local);
        KeyOrder(MonthAt(f.end.value.local), x.month);
        if Earlier(MonthAt(f.end.value.local), x.month) {
          PrunedMonth(directory.log, f, Key(x.month));
          return [];
        }
      }
      KeptMonth(directory.files, directory.log, f, x.month);
      found := ScanFile(x.name, f);
    }

    /** `scan`: the monthly files in order, whatever the listing order. */
    method Scan(f: Filter, listing: seq<string>) returns (found: seq<Event>)
      requires directory.Valid() && Lists(listing, directory.files.Keys)
      ensures found == Expected(directory.log, Selected(f))
    {
      found := [];
      var files := MonthlyFiles(listing);
      ghost var seen: nat := 0;
      NothingScanned(directory.log, f, files);
      for i := 0 to |files|
        invariant Scanned(directory.log, f, files, i, seen, found)
      {
        EntryNamed(files, directory.files, directory.log, i);
        ScannedNext(directory.files, directory.log, f, files, i, seen, found);
        var more := ScanMonth(files[i], f);
        found := found + more;
        seen := Key(files[i].month) + 1;
      }
      ScannedAll(directory.files, directory.log, f, files, seen, found);
    }

    /** `by_trace`: exactly the emitted events of the trace. */
    method ByTrace(trace: string, listing: seq<string>) returns (found: seq<Event>)
      requires directory.Valid() && Lists(listing, directory.files.Keys)
      ensures found == Expected(directory.log, OfTrace(trace))
    {
      TraceYields(directory.log, trace);
      found := Scan(TraceFilter(trace), listing);
    }

    /** `by_routine_run`: exactly the emitted events of the run. */
    method ByRoutineRun(run: string, listing: seq<string>) returns (found: seq<Event>)
      requires directory.Valid() && Lists(listing, directory.files.Keys)
      ensures found == Expected(directory.log, OfRun(run))
    {
      RunYields(directory.log, run);
      found := Scan(RunFilter(run), listing);
    }

    /** `count`. */
    method Count(f: Filter, listing: seq<string>) returns (n: nat)
      requires directory.Valid() && Lists(listing, directory.files.Keys)
      ensures n == |Accepted(directory.log, Selected(f))|
    {
      var found := Scan(f, listing);
      AuditOrder.ScanIsStableSort(directory.log, Selected(f));
      n := |found|;
    }
  }
}
