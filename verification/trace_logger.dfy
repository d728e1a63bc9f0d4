/**
 * The trace logger's pure parts: the file name a trace is saved under, the
 * directory it goes to, and which saved traces `get_traces` returns, in which
 * order. The two directories' contents are an in-memory listing of entries.
 */
module TraceLogging {
  import opened Common

  /** The logger's two sub-directories, `success` and `error`. */
  datatype Dir = SuccessDir | ErrorDir

  /**
   * A saved trace. `timestamp` is the instant of the isoformat string, and
   * `error` the text of the exception, if any.
   */
  datatype Trace = Trace(
    timestamp: int,
    title: string,
    keywords: seq<string>,
    prompt: string,
    response: Metadata,
    metadata: Metadata,
    error: Option<string>)

  /**
   * One file of a directory listing: its directory, its name, and the trace
   * it holds, or None when loading it fails (not JSON, no parsable timestamp).
   */
  datatype Entry = Entry(dir: Dir, filename: string, content: Option<Trace>)

  /** `str.lower` on ASCII: upper-case letters become lower-case, nothing else changes. */
  function Lower(c: char): (l: char)
    ensures 'A' <= c <= 'Z' ==> l as int == c as int + 32
    ensures !('A' <= c <= 'Z') ==> l == c
  {
    if 'A' <= c <= 'Z' then (c as int + 32) as char else c
  }

  /** `str.isalnum` on ASCII: a letter or a digit. */
  predicate IsAlnum(c: char)
  {
    'a' <= c <= 'z' || 'A' <= c <= 'Z' || '0' <= c <= '9'
  }

  /** A character a sanitised title may hold: a lower-case letter, a digit or `_`. */
  predicate IsSafeChar(c: char)
  {
    'a' <= c <= 'z' || '0' <= c <= '9' || c == '_'
  }

  /** The character `c` becomes in a sanitised title. */
  function SafeChar(c: char): (s: char)
    ensures IsSafeChar(s)
    ensures IsAlnum(c) <==> s != '_'
    ensures IsAlnum(c) ==> s == Lower(c)
  {
    var l := Lower(c);
    if IsAlnum(l) then l else '_'
  }

  /**
   * `"".join(c if c.isalnum() else "_" for c in title.lower())`: the title,
   * lower-cased, with every character that is not a letter or digit replaced
   * by `_`.
   */
  function SafeTitle(title: string): (safe: string)
    ensures |safe| == |title|
    ensures forall i | 0 <= i < |title| :: IsSafeChar(safe[i])
    ensures forall i | 0 <= i < |title| :: IsAlnum(title[i]) ==> safe[i] == Lower(title[i])
    ensures forall i | 0 <= i < |title| :: !IsAlnum(title[i]) ==> safe[i] == '_'
  {
    seq(|title|, i requires 0 <= i < |title| => SafeChar(title[i]))
  }

  /** A sanitised title is left unchanged by sanitising it again. */
  lemma SafeTitleIdempotent(title: string)
    ensures SafeTitle(SafeTitle(title)) == SafeTitle(title)
  {
    var safe := SafeTitle(title);
    forall i | 0 <= i < |safe| ensures SafeTitle(safe)[i] == safe[i] {
      assert IsSafeChar(safe[i]);
    }
  }

  /** Sanitising leaves a title unchanged exactly when it holds only lower-case letters, digits and `_`. */
  lemma SafeTitleFixpoints(title: string)
    ensures SafeTitle(title) == title <==> forall c <- title :: IsSafeChar(c)
  {
    if forall c <- title :: IsSafeChar(c) {
      forall i | 0 <= i < |title| ensures SafeTitle(title)[i] == title[i] {
        assert title[i] in title;
      }
    } else {
      var c :| c in title && !IsSafeChar(c);
      var i :| 0 <= i < |title| && title[i] == c;
      assert SafeTitle(title)[i] != title[i];
    }
  }

  /** `filename.endswith(".json")`. */
  predicate IsJsonName(filename: string)
  {
    |filename| >= 5 && filename[|filename| - 5..] == ".json"
  }

  /**
   * `f"{safe_title}_{timestamp}.json"`, where `stamp` is the clock reading as
   * `strftime("%Y%m%d_%H%M%S")` formats it.
   */
  function Filename(title: string, stamp: string): (filename: string)
    ensures IsJsonName(filename)
    ensures |filename| == |title| + |stamp| + 6
    ensures filename[..|title| + 1] == SafeTitle(title) + "_"
    ensures filename[|title| + 1..|title| + 1 + |stamp|] == stamp
  {
    var filename := SafeTitle(title) + "_" + stamp + ".json";
    assert filename[|filename| - 5..] == ".json";
    filename
  }

  /**
   * The file `log_trace` writes: in the error directory exactly when an
   * error is given, named after the title and the clock reading `stamp`,
   * holding the trace stamped with the instant `now`.
   */
  function LogTrace(
    now: int, stamp: string, title: string, keywords: seq<string>, prompt: string, response: Metadata,
    metadata: Option<Metadata>, error: Option<string>)
    : (entry: Entry)
    ensures entry.dir == ErrorDir <==> error.Some?
    ensures entry.filename == Filename(title, stamp)
    ensures entry.content.Some?
    ensures entry.content.value.error == error
    ensures entry.content.value.timestamp == now
    ensures entry.content.value.title == title && entry.content.value.keywords == keywords
    ensures entry.content.value.prompt == prompt && entry.content.value.response == response
    ensures entry.content.value.metadata == OrEmpty(metadata)
  {
    var trace := Trace(now, title, keywords, prompt, response, OrEmpty(metadata), error);
    Entry(if error.Some? then ErrorDir else SuccessDir, Filename(title, stamp), Some(trace))
  }

  /** The directories `get_traces` reads, in order. */
  function Dirs(successOnly: bool): (dirs: seq<Dir>)
    ensures SuccessDir in dirs
    ensures ErrorDir in dirs <==> !successOnly
  {
    if successOnly then [SuccessDir] else [SuccessDir, ErrorDir]
  }

  /** The date filters: not before `start` and not after `end`, each when given. */
  predicate InWindow(timestamp: int, start: Option<int>, end: Option<int>)
  {
    (start.Some? ==> start.value <= timestamp) && (end.Some? ==> timestamp <= end.value)
  }

  /** The entry is a loadable `.json` file of `dir` whose trace passes the date filters. */
  predicate Selects(entry: Entry, dir: Dir, start: Option<int>, end: Option<int>)
  {
    && entry.dir == dir
    && IsJsonName(entry.filename)
    && entry.content.Some?
    && InWindow(entry.content.value.timestamp, start, end)
  }

  /** The traces one directory contributes, in listing order. */
  function Loaded(entries: seq<Entry>, dir: Dir, start: Option<int>, end: Option<int>): (traces: seq<Trace>)
    ensures |traces| <= |entries|
  {
    if entries == [] then []
    else
      var e := entries[|entries| - 1];
      Loaded(entries[..|entries| - 1], dir, start, end) + if Selects(e, dir, start, end) then [e.content.value] else []
  }

  /** The traces the directories contribute, directory after directory, before sorting. */
  function Collected(entries: seq<Entry>, dirs: seq<Dir>, start: Option<int>, end: Option<int>): (traces: seq<Trace>)
    ensures |traces| <= |dirs| * |entries|
  {
    if dirs == [] then []
    else
      var n := |dirs| - 1;
      assert n * |entries| + |entries| == |dirs| * |entries|;
      Collected(entries, dirs[..n], start, end) + Loaded(entries, dirs[n], start, end)
  }

  /** Some entry of `dir` holds `t` and is selected. */
  predicate SavedIn(entries: seq<Entry>, dir: Dir, start: Option<int>, end: Option<int>, t: Trace)
  {
    exists e <- entries :: Selects(e, dir, start, end) && e.content.value == t
  }

  /** Extending a listing by one entry adds that entry's trace when it is selected. */
  lemma LoadedStep(entries: seq<Entry>, i: nat, dir: Dir, start: Option<int>, end: Option<int>)
    requires i < |entries|
    ensures Loaded(entries[..i + 1], dir, start, end)
         == Loaded(entries[..i], dir, start, end)
            + if Selects(entries[i], dir, start, end) then [entries[i].content.value] else []
  {
    assert entries[..i + 1][..i] == entries[..i];
  }

  /** A listing extended by one entry saves `t` when the listing did or the new entry selects it. */
  lemma SavedInSnoc(init: seq<Entry>, e: Entry, dir: Dir, start: Option<int>, end: Option<int>, t: Trace)
    ensures SavedIn(init + [e], dir, start, end, t)
        <==> SavedIn(init, dir, start, end, t) || (Selects(e, dir, start, end) && e.content.value == t)
  {
    if SavedIn(init + [e], dir, start, end, t) {
      var x :| x in init + [e] && Selects(x, dir, start, end) && x.content.value == t;
      if x != e {
        assert x in init;
      }
    }
    if SavedIn(init, dir, start, end, t) {
      var x :| x in init && Selects(x, dir, start, end) && x.content.value == t;
      assert x in init + [e];
    }
  }

  /** A trace is loaded from a directory exactly when some entry of it selects that trace. */
  lemma {:induction false} LoadedMembers(entries: seq<Entry>, dir: Dir, start: Option<int>, end: Option<int>, t: Trace)
    ensures t in Loaded(entries, dir, start, end) <==> SavedIn(entries, dir, start, end, t)
  {
    if entries != [] {
      var init, e := entries[..|entries| - 1], entries[|entries| - 1];
      LoadedMembers(init, dir, start, end, t);
      assert entries == init + [e];
      SavedInSnoc(init, e, dir, start, end, t);
    }
  }

  /** A trace is collected exactly when an entry of one of the directories selects it. */
  lemma {:induction false} CollectedMembers(
    entries: seq<Entry>, dirs: seq<Dir>, start: Option<int>, end: Option<int>, t: Trace)
    ensures t in Collected(entries, dirs, start, end) <==> exists d <- dirs :: SavedIn(entries, d, start, end, t)
  {
    if dirs != [] {
      var init, d := dirs[..|dirs| - 1], dirs[|dirs| - 1];
      CollectedMembers(entries, init, start, end, t);
      LoadedMembers(entries, d, start, end, t);
      assert dirs == init + [d];
      if exists x <- dirs :: SavedIn(entries, x, start, end, t) {
        var x :| x in dirs && SavedIn(entries, x, start, end, t);
        if x != d {
          assert x in init;
        }
      }
    }
  }

  /** Every collected trace passes the date filters. */
  lemma CollectedInWindow(entries: seq<Entry>, dirs: seq<Dir>, start: Option<int>, end: Option<int>)
    ensures forall t <- Collected(entries, dirs, start, end) :: InWindow(t.timestamp, start, end)
  {
    forall t <- Collected(entries, dirs, start, end) ensures InWindow(t.timestamp, start, end) {
      CollectedMembers(entries, dirs, start, end, t);
    }
  }

  /** Newest first: `sorted(..., key=timestamp, reverse=True)`. */
  predicate SortedDesc(traces: seq<Trace>)
  {
    forall i, j | 0 <= i < j < |traces| :: traces[i].timestamp >= traces[j].timestamp
  }

  /** The first trace of a newest-first list is at least as new as every trace of it. */
  lemma HeadIsNewest(sorted: seq<Trace>)
    requires SortedDesc(sorted) && sorted != []
    ensures forall x <- sorted :: x.timestamp <= sorted[0].timestamp
  {
    forall x <- sorted ensures x.timestamp <= sorted[0].timestamp {
      var j :| 0 <= j < |sorted| && sorted[j] == x;
    }
  }

  /** A trace at least as new as every trace of a newest-first list can go in front of it. */
  lemma PrependNewest(h: Trace, rest: seq<Trace>)
    requires SortedDesc(rest)
    requires forall x <- rest :: x.timestamp <= h.timestamp
    ensures SortedDesc([h] + rest)
  {
    forall i, j | 0 <= i < j < |[h] + rest| ensures ([h] + rest)[i].timestamp >= ([h] + rest)[j].timestamp {
      if i == 0 {
        assert rest[j - 1] in rest;
      }
    }
  }

  /** Keeping the head of a newest-first list in front of `rest`, the list with `t` inserted after it. */
  lemma InsertAfterHead(t: Trace, sorted: seq<Trace>, rest: seq<Trace>)
    requires SortedDesc(sorted) && sorted != [] && sorted[0].timestamp >= t.timestamp
    requires SortedDesc(rest)
    requires multiset(rest) == multiset(sorted[1..]) + multiset{t}
    requires forall x <- rest :: x == t || x in sorted[1..]
    ensures SortedDesc([sorted[0]] + rest)
    ensures multiset([sorted[0]] + rest) == multiset(sorted) + multiset{t}
    ensures forall x <- [sorted[0]] + rest :: x == t || x in sorted
  {
    assert sorted == [sorted[0]] + sorted[1..];
    HeadIsNewest(sorted);
    assert forall x <- sorted[1..] :: x in sorted;
    PrependNewest(sorted[0], rest);
  }

  /** Places `t` after every trace at least as new, keeping the sort stable. */
  function Insert(t: Trace, sorted: seq<Trace>): (r: seq<Trace>)
    requires SortedDesc(sorted)
    ensures SortedDesc(r)
    ensures multiset(r) == multiset(sorted) + multiset{t}
    ensures |r| == |sorted| + 1
    ensures forall x <- r :: x == t || x in sorted
  {
    if sorted == [] then [t]
    else if sorted[0].timestamp >= t.timestamp then
      var rest := Insert(t, sorted[1..]);
      InsertAfterHead(t, sorted, rest);
      [sorted[0]] + rest
    else
      HeadIsNewest(sorted);
      PrependNewest(t, sorted);
      [t] + sorted
  }

  /** `sorted(traces, key=lambda x: x["timestamp"], reverse=True)`, as an insertion sort. */
  function SortDesc(traces: seq<Trace>): (r: seq<Trace>)
    ensures SortedDesc(r)
    ensures multiset(r) == multiset(traces)
  {
    if traces == [] then []
    else
      assert traces == traces[..|traces| - 1] + [traces[|traces| - 1]];
      Insert(traces[|traces| - 1], SortDesc(traces[..|traces| - 1]))
  }

  /** The inner loop of `get_traces`: the selected traces of one directory's listing, in order. */
  method LoadDirectory(entries: seq<Entry>, directory: Dir, start: Option<int>, end: Option<int>)
    returns (traces: seq<Trace>)
    ensures traces == Loaded(entries, directory, start, end)
  {
    traces := [];
    for i := 0 to |entries|
      invariant traces == Loaded(entries[..i], directory, start, end)
    {
      LoadedStep(entries, i, directory, start, end);
      var entry := entries[i];
      if entry.dir != directory || !IsJsonName(entry.filename) || entry.content.None? {
        continue;
      }
      var trace := entry.content.value;
      if start.Some? && trace.timestamp < start.value {
        continue;
      }
      if end.Some? && trace.timestamp > end.value {
        continue;
      }
      traces := traces + [trace];
    }
    assert entries[..|entries|] == entries;
  }

  /**
   * `get_traces`: the loadable `.json` traces of the success directory, and
   * of the error directory too unless `successOnly`, that pass the date
   * filters, newest first.
   */
  method GetTraces(
    entries: seq<Entry>, successOnly: bool := true, start: Option<int> := None, end: Option<int> := None)
    returns (traces: seq<Trace>)
    ensures SortedDesc(traces)
    ensures multiset(traces) == multiset(Collected(entries, Dirs(successOnly), start, end))
  {
    var collected := [];
    var dirs := [SuccessDir];
    if !successOnly {
      dirs := dirs + [ErrorDir];
    }
    assert dirs == Dirs(successOnly);
    for d := 0 to |dirs|
      invariant collected == Collected(entries, dirs[..d], start, end)
    {
      var directory := dirs[d];
      assert dirs[..d + 1] == dirs[..d] + [directory];
      var loaded := LoadDirectory(entries, directory, start, end);
      collected := collected + loaded;
    }
    assert dirs[..|dirs|] == dirs;
    traces := SortDesc(collected);
  }

  /**
   * A trace that `log_trace` saved is among those `get_traces` returns when
   * its file is listed, its instant passes the date filters, and it is not
   * an error trace or error traces are requested.
   */
  lemma LoggedTraceRetrieved(
    entries: seq<Entry>, successOnly: bool, start: Option<int>, end: Option<int>,
    now: int, stamp: string, title: string, keywords: seq<string>, prompt: string, response: Metadata,
    metadata: Option<Metadata>, error: Option<string>)
    requires LogTrace(now, stamp, title, keywords, prompt, response, metadata, error) in entries
    requires InWindow(now, start, end)
    requires successOnly ==> error.None?
    ensures LogTrace(now, stamp, title, keywords, prompt, response, metadata, error).content.value
      in Collected(entries, Dirs(successOnly), start, end)
  {
    var e := LogTrace(now, stamp, title, keywords, prompt, response, metadata, error);
    assert Selects(e, e.dir, start, end);
    CollectedMembers(entries, Dirs(successOnly), start, end, e.content.value);
  }

  /** With `successOnly`, every returned trace was saved in the success directory, so it has no error. */
  lemma SuccessOnlyHasNoErrors(entries: seq<Entry>, start: Option<int>, end: Option<int>)
    requires forall e <- entries :: e.content.Some? ==> (e.dir == ErrorDir <==> e.content.value.error.Some?)
    ensures forall t <- Collected(entries, Dirs(true), start, end) :: t.error.None?
  {
    forall t <- Collected(entries, Dirs(true), start, end) ensures t.error.None? {
      CollectedMembers(entries, Dirs(true), start, end, t);
    }
  }

  /**
   * One successful and one failed generation saved: both are returned when
   * error traces are requested, only the successful one otherwise, and none
   * with a start date after both.
   */
  lemma GetTracesExample(ok: Entry, failed: Entry, later: int)
    requires ok == LogTrace(10, "20240101_000010", "Test Article", ["k"], "Test prompt", map[], None, None)
    requires failed == LogTrace(20, "20240101_000020", "Test Article", ["k"], "Test prompt", map[], None, Some("Test error"))
    requires later > 20
    ensures |Collected([ok, failed], Dirs(false), None, None)| == 2
    ensures Collected([ok, failed], Dirs(true), None, None) == [ok.content.value]
    ensures ok.content.value.error.None?
    ensures Collected([ok, failed], Dirs(true), Some(later), None) == []
  {
    var entries := [ok, failed];
    assert entries[..1] == [ok] && [ok][..0] == [];
    assert Dirs(false)[..1] == [SuccessDir] && [SuccessDir][..0] == [];
    assert Selects(ok, SuccessDir, None, None) && !Selects(failed, SuccessDir, None, None);
    assert Selects(failed, ErrorDir, None, None) && !Selects(ok, ErrorDir, None, None);
    assert Loaded(entries, SuccessDir, None, None) == [ok.content.value];
    assert Loaded(entries, ErrorDir, None, None) == [failed.content.value];
    assert !Selects(ok, SuccessDir, Some(later), None) && !Selects(failed, SuccessDir, Some(later), None);
    assert Loaded(entries, SuccessDir, Some(later), None) == [];
    assert Collected(entries, [SuccessDir], None, None) == [ok.content.value];
    assert Collected(entries, Dirs(false), None, None) == [ok.content.value, failed.content.value];
    assert Collected(entries, Dirs(true), None, None) == [ok.content.value];
    assert Collected(entries, Dirs(true), Some(later), None) == [];
  }
}
