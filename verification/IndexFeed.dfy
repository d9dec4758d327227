/**
 * Building the full index: the distinct files of a compilation database are opened in batches, each batch closed
 * before the next is opened, so that the language server never holds more than one batch.
 */
module IndexFeed {
  import opened Wrappers
  import opened Sets

  // ---- the compilation database ---------------------------------------------------------

  /** Where an entry naming `file` first stands. */
  function FirstAt(entries: seq<Option<string>>, file: string): (k: nat)
    requires Some(file) in entries
    ensures k < |entries| && entries[k] == Some(file) && forall i :: 0 <= i < k ==> entries[i] != Some(file)
  {
    if entries[0] == Some(file) then 0 else 1 + FirstAt(entries[1..], file)
  }

  predicate NoDuplicates<T(==)>(s: seq<T>) {
    forall i, j :: 0 <= i < j < |s| ==> s[i] != s[j]
  }

  /** The distinct files, in the order in which they are first named. */
  ghost predicate Distinct(entries: seq<Option<string>>, out: seq<string>) {
    NoDuplicates(out)
    && (forall f :: f in out <==> Some(f) in entries)
    && (forall i, j :: 0 <= i < j < |out| ==> FirstAt(entries, out[i]) < FirstAt(entries, out[j]))
  }

  datatype ShimError = Io | Json | Protocol

  /** Entries without a file name are passed over. */
  method ReadCompileCommands(database: Result<seq<Option<string>>, ShimError>) returns (r: Result<seq<string>, ShimError>)
    ensures database.Err? ==> r == Err(database.error)
    ensures database.Ok? ==> r.Ok? && Distinct(database.value, r.value)
  {
    if database.Err? {
      return Err(database.error);
    }
    hide Distinct;
    var entries := database.value;
    NoEntries();
    assert entries[..0] == [];
    var seen: set<string> := {};
    var out: seq<string> := [];
    var n := 0;
    while n < |entries|
      invariant 0 <= n <= |entries|
      invariant forall f :: f in seen <==> f in out
      invariant Distinct(entries[..n], out)
    {
      var before := out;
      if entries[n].Some? && entries[n].value !in seen {
        seen := seen + {entries[n].value};
        out := out + [entries[n].value];
      }
      assert out == if entries[n].Some? && entries[n].value !in before then before + [entries[n].value] else before;
      NextEntry(entries[..n], before, entries[n]);
      assert entries[..n + 1] == entries[..n] + [entries[n]];
      n := n + 1;
    }
    assert entries[..n] == entries;
    return Ok(out);
  }

  lemma NoEntries()
    ensures Distinct([], [])
  {
  }

  lemma NextEntry(entries: seq<Option<string>>, out: seq<string>, entry: Option<string>)
    requires Distinct(entries, out)
    ensures Distinct(entries + [entry],
                     if entry.Some? && entry.value !in out then out + [entry.value] else out)
  {
    hide FirstAt;
    var all := entries + [entry];
    var grown := if entry.Some? && entry.value !in out then out + [entry.value] else out;
    assert forall f :: Some(f) in all <==> Some(f) in entries || entry == Some(f);
    forall i, j | 0 <= i < j < |grown|
      ensures Some(grown[i]) in all && Some(grown[j]) in all && FirstAt(all, grown[i]) < FirstAt(all, grown[j])
    {
      assert grown[i] == out[i] && out[i] in out;
      FirstStays(entries, entry, out[i]);
      if j < |out| {
        assert grown[j] == out[j] && out[j] in out;
        FirstStays(entries, entry, out[j]);
      } else {
        assert grown[j] == entry.value && entry == Some(entry.value);
      }
    }
  }

  lemma FirstStays(entries: seq<Option<string>>, entry: Option<string>, file: string)
    requires Some(file) in entries
    ensures FirstAt(entries + [entry], file) == FirstAt(entries, file)
  {
    var k, m := FirstAt(entries, file), FirstAt(entries + [entry], file);
    assert (entries + [entry])[k] == Some(file);
    assert m < |entries| ==> (entries + [entry])[m] == entries[m];
  }

  /** That order leaves no choice. */
  lemma {:induction false} DistinctIsUnique(entries: seq<Option<string>>, a: seq<string>, b: seq<string>)
    requires Distinct(entries, a) && Distinct(entries, b)
    ensures a == b
  {
    forall i | 0 <= i < |a| && i < |b|
      ensures a[i] == b[i]
    {
      SameAt(entries, a, b, i);
    }
    NotLonger(a, b);
    NotLonger(b, a);
  }

  lemma NotLonger(a: seq<string>, b: seq<string>)
    requires NoDuplicates(a) && (forall f :: f in a ==> f in b)
    requires forall i :: 0 <= i < |a| && i < |b| ==> a[i] == b[i]
    ensures |a| <= |b|
  {
    if a != [] {
      var i := |a| - 1;
      assert a[i] in b;
      var k :| 0 <= k < |b| && b[k] == a[i];
    }
  }

  lemma {:induction false} SameAt(entries: seq<Option<string>>, a: seq<string>, b: seq<string>, i: nat)
    requires Distinct(entries, a) && Distinct(entries, b) && i < |a| && i < |b|
    ensures a[i] == b[i]
    decreases i
  {
    forall k | 0 <= k < i
      ensures a[k] == b[k]
    {
      SameAt(entries, a, b, k);
    }
    assert a[i] in a && a[i] in b && b[i] in b && b[i] in a;
    var j :| 0 <= j < |b| && b[j] == a[i];
    var m :| 0 <= m < |a| && a[m] == b[i];
    assert j >= i && m >= i;
  }

  // ---- what goes over the wire ----------------------------------------------------------

  const BATCH := 32

  datatype Event = Open(uri: string, text: string) | Close(uri: string)

  /** A notification handed to the server's input, and whether the write went through. */
  datatype Attempt = Attempt(event: Event, ok: bool)

  /** The contents of a file, None when it cannot be read. */
  type Files = string -> Option<string>

  function Uri(path: string): string {
    "file://" + path
  }

  function Readable(fs: Files, paths: seq<string>): (r: seq<string>)
    ensures |r| <= |paths|
  {
    if paths == [] then [] else IfReadable(fs, paths[0]) + Readable(fs, paths[1..])
  }

  function IfReadable(fs: Files, path: string): seq<string> {
    if fs(path).Some? then [path] else []
  }

  function Opens(fs: Files, readable: seq<string>): (events: seq<Event>)
    ensures |events| == |readable|
  {
    seq(|readable|, i requires 0 <= i < |readable| => Open(Uri(readable[i]), Contents(fs, readable[i])))
  }

  function Contents(fs: Files, path: string): string {
    match fs(path) case Some(text) => text case None => ""
  }

  function Closes(readable: seq<string>): (events: seq<Event>)
    ensures |events| == |readable|
  {
    seq(|readable|, i requires 0 <= i < |readable| => Close(Uri(readable[i])))
  }

  function BatchEvents(fs: Files, batch: seq<string>): seq<Event> {
    Opens(fs, Readable(fs, batch)) + Closes(Readable(fs, batch))
  }

  /** Every batch opened, then closed. */
  function FeedEvents(fs: Files, files: seq<string>): seq<Event> {
    if |files| <= BATCH then BatchEvents(fs, files)
    else BatchEvents(fs, files[..BATCH]) + FeedEvents(fs, files[BATCH..])
  }

  /** How the n-th write since the start of the server turns out. */
  type Pipe = nat -> bool

  function Attempts(events: seq<Event>, pipe: Pipe, start: nat): (log: seq<Attempt>)
    ensures |log| == |events|
  {
    seq(|events|, i requires 0 <= i < |events| => Attempt(events[i], pipe(start + i)))
  }

  predicate OpensSucceed(events: seq<Event>, pipe: Pipe, start: nat) {
    forall i :: 0 <= i < |events| && events[i].Open? ==> pipe(start + i)
  }

  predicate FirstRefused(events: seq<Event>, pipe: Pipe, start: nat, n: nat) {
    n < |events| && events[n].Open? && !pipe(start + n)
    && forall i :: 0 <= i < n && events[i].Open? ==> pipe(start + i)
  }

  datatype Report = Report(tusOpened: nat, skippedIoErrors: nat)

  function Min(a: nat, b: nat): nat {
    if a < b then a else b
  }

  /** The first n, or all if there are no more. */
  function FirstOf(files: seq<string>, n: nat): (first: seq<string>)
    ensures first <= files && (|first| == n || (|first| < n && first == files))
  {
    files[..Min(n, |files|)]
  }

  /** All events written, or broken off at the first open that did not go through. */
  predicate Pushed(events: seq<Event>, pipe: Pipe, before: seq<Attempt>, after: seq<Attempt>, ok: bool) {
    var start, n := |before|, |after| - |before|;
    if ok then OpensSucceed(events, pipe, start) && after == before + Attempts(events, pipe, start)
    else 0 < n <= |events| && FirstRefused(events, pipe, start, n - 1)
         && after == before + Attempts(events[..n], pipe, start)
  }

  predicate Fed(fs: Files, files: seq<string>, pipe: Pipe, before: seq<Attempt>, after: seq<Attempt>,
                r: Result<Report, ShimError>) {
    Pushed(FeedEvents(fs, files), pipe, before, after, r.Ok?)
    && r == if r.Ok? then Ok(Report(|Readable(fs, files)|, |files| - |Readable(fs, files)|)) else Err(Io)
  }

  class Clangd {
    var hasInput: bool
    var log: seq<Attempt>

    constructor (hasInput: bool)
      ensures this.hasInput == hasInput && log == []
    {
      this.hasInput := hasInput;
      log := [];
    }

    method Send(event: Event, pipe: Pipe) returns (ok: bool)
      modifies this`log
      ensures log == old(log) + [Attempt(event, ok)] && ok == pipe(|old(log)|)
    {
      ok := pipe(|log|);
      log := log + [Attempt(event, ok)];
    }

    /** Close what is open; refusals are ignored. */
    method Drain(open: seq<string>, pipe: Pipe)
      modifies this`log
      ensures Pushed(Closes(open), pipe, old(log), log, true)
    {
      var i := 0;
      while i < |open|
        invariant 0 <= i <= |open|
        invariant log == old(log) + Attempts(Closes(open[..i]), pipe, |old(log)|)
      {
        var _ := Send(Close(Uri(open[i])), pipe);
        i := i + 1;
      }
      assert open[..i] == open;
    }

    /** Open what can be read; the first refusal ends it. */
    method OpenBatch(batch: seq<string>, fs: Files, pipe: Pipe) returns (ok: bool, open: seq<string>, skipped: nat)
      modifies this`log
      ensures Pushed(Opens(fs, Readable(fs, batch)), pipe, old(log), log, ok)
      ensures ok ==> open == Readable(fs, batch) && skipped == |batch| - |open|
    {
      hide Pushed, Opens, Readable;
      open := [];
      skipped := 0;
      ReadableNone(fs);
      NothingPushed(pipe, log);
      assert batch[..0] == [];
      var i := 0;
      while i < |batch|
        invariant 0 <= i <= |batch|
        invariant open == Readable(fs, batch[..i]) && skipped == i - |open|
        invariant Pushed(Opens(fs, open), pipe, old(log), log, true)
      {
        ReadableNext(fs, batch, i);
        var path := batch[i];
        i := i + 1;
        var text := fs(path);
        if text.None? {
          skipped := skipped + 1;
          continue;
        }
        ghost var before := log;
        ok := Send(Open(Uri(path), text.value), pipe);
        PushOne(Open(Uri(path), text.value), pipe, before, log, ok);
        PushThen(Opens(fs, open), [Open(Uri(path), text.value)], pipe, old(log), before, log, ok);
        OpensNext(fs, open, path);
        open := open + [path];
        if !ok {
          ghost var rest := OpensPrefix(fs, batch, i);
          PushCut(Opens(fs, open), rest, pipe, old(log), log);
          return;
        }
      }
      assert batch[..i] == batch;
      ok := true;
    }

    /** Close one batch, open the next. */
    method TurnOver(open: seq<string>, batch: seq<string>, fs: Files, pipe: Pipe)
      returns (ok: bool, opens: seq<string>, skipped: nat)
      modifies this`log
      ensures Pushed(Closes(open) + Opens(fs, Readable(fs, batch)), pipe, old(log), log, ok)
      ensures ok ==> opens == Readable(fs, batch) && skipped == |batch| - |opens|
    {
      hide Pushed, Opens, Readable, Closes;
      Drain(open, pipe);
      ghost var between := log;
      ok, opens, skipped := OpenBatch(batch, fs, pipe);
      PushThen(Closes(open), Opens(fs, Readable(fs, batch)), pipe, old(log), between, log, ok);
    }

    method BuildFullIndex(database: Result<seq<Option<string>>, ShimError>, maxTus: nat, fs: Files, pipe: Pipe)
      returns (r: Result<Report, ShimError>)
      modifies this`log
      ensures database.Err? ==> r == Err(database.error) && log == old(log)
      ensures database.Ok? && !hasInput ==> r == Err(Protocol) && log == old(log)
      ensures database.Ok? && hasInput ==>
                exists files :: Distinct(database.value, files)
                                && Fed(fs, FirstOf(files, maxTus), pipe, old(log), log, r)
    {
      hide Distinct, FeedEvents, Readable, Opens, Closes, Pushed, Attempts;
      var entries := ReadCompileCommands(database);
      if entries.Err? {
        return Err(entries.error);
      }
      if !hasInput {
        return Err(Protocol);
      }
      var cap := Min(maxTus, |entries.value|);
      var files := entries.value[..cap];
      ghost var events := [];
      var open: seq<string> := [];
      var tusOpened, skippedIoErrors := 0, 0;
      var p := 0;
      NothingFed(fs);
      NothingPushed(pipe, log);
      assert files[..0] == [];
      while p < cap
        invariant 0 <= p <= cap && (p % BATCH == 0 || p == cap)
        invariant Pushed(events, pipe, old(log), log, true)
        invariant events + Closes(open) == FeedEvents(fs, files[..p])
        invariant tusOpened == |Readable(fs, files[..p])| && tusOpened + skippedIoErrors == p
      {
        var chunk := files[p..Min(p + BATCH, cap)];
        ghost var before := log;
        var ok, opens, skipped := TurnOver(open, chunk, fs, pipe);
        ghost var batch := Opens(fs, Readable(fs, chunk));
        PushThen(events, Closes(open) + batch, pipe, old(log), before, log, ok);
        Regroup(events, Closes(open), batch, []);
        FeedNext(fs, files, p, |chunk|);
        if !ok {
          ghost var rest := FeedPrefix(fs, files, p, |chunk|);
          PushCut(events + Closes(open) + batch, rest, pipe, old(log), log);
          return Err(Io);
        }
        events := events + Closes(open);
        Regroup(events, batch, Closes(opens), []);
        events := events + batch;
        open := opens;
        tusOpened := tusOpened + |opens|;
        skippedIoErrors := skippedIoErrors + skipped;
        p := p + |chunk|;
      }
      assert files[..p] == files;
      ghost var before := log;
      Drain(open, pipe);
      PushThen(events, Closes(open), pipe, old(log), before, log, true);
      return Ok(Report(tusOpened, skippedIoErrors));
    }
  }

  // ---- following the feeding ------------------------------------------------------------

  lemma NothingFed(fs: Files)
    ensures FeedEvents(fs, []) == [] && Closes([]) == [] && Readable(fs, []) == []
  {
  }

  lemma NothingPushed(pipe: Pipe, log: seq<Attempt>)
    ensures Pushed([], pipe, log, log, true)
  {
  }

  lemma PushOne(event: Event, pipe: Pipe, before: seq<Attempt>, after: seq<Attempt>, ok: bool)
    requires event.Open? && after == before + [Attempt(event, ok)] && ok == pipe(|before|)
    ensures Pushed([event], pipe, before, after, ok)
  {
    assert [event][..1] == [event];
  }

  /** One piece after another. */
  lemma PushThen(a: seq<Event>, b: seq<Event>, pipe: Pipe, before: seq<Attempt>, between: seq<Attempt>,
                 after: seq<Attempt>, ok: bool)
    requires Pushed(a, pipe, before, between, true) && Pushed(b, pipe, between, after, ok)
    ensures Pushed(a + b, pipe, before, after, ok)
  {
    var n := if ok then |b| else |after| - |between|;
    var start := |before|;
    AttemptsAppend(a, b[..n], pipe, start);
    assert before + Attempts(a, pipe, start) + Attempts(b[..n], pipe, start + |a|)
        == before + (Attempts(a, pipe, start) + Attempts(b[..n], pipe, start + |a|));
    assert a + b[..n] == (a + b)[..|a| + n];
    if ok {
      assert b[..n] == b;
      forall i | 0 <= i < |a + b| && (a + b)[i].Open?
        ensures pipe(start + i)
      {
        if i >= |a| {
          assert b[i - |a|] == (a + b)[i] && pipe(start + |a| + (i - |a|));
        }
      }
    } else {
      RefusedLater(a, b, pipe, start, n - 1);
    }
  }

  lemma RefusedLater(a: seq<Event>, b: seq<Event>, pipe: Pipe, start: nat, n: nat)
    requires OpensSucceed(a, pipe, start) && FirstRefused(b, pipe, start + |a|, n)
    ensures FirstRefused(a + b, pipe, start, |a| + n)
  {
    forall i | 0 <= i < |a| + n && (a + b)[i].Open?
      ensures pipe(start + i)
    {
      if i >= |a| {
        assert b[i - |a|] == (a + b)[i] && pipe(start + |a| + (i - |a|));
      }
    }
  }

  /** Broken off within a part is broken off within the whole. */
  lemma PushCut(part: seq<Event>, rest: seq<Event>, pipe: Pipe, before: seq<Attempt>, after: seq<Attempt>)
    requires Pushed(part, pipe, before, after, false)
    ensures Pushed(part + rest, pipe, before, after, false)
  {
    var whole := part + rest;
    var n := |after| - |before|;
    assert whole[..n] == part[..n];
    assert forall i :: 0 <= i < n ==> whole[i] == part[i];
  }

  lemma AttemptsAppend(a: seq<Event>, b: seq<Event>, pipe: Pipe, start: nat)
    ensures Attempts(a, pipe, start) + Attempts(b, pipe, start + |a|) == Attempts(a + b, pipe, start)
  {
  }

  lemma ReadableNone(fs: Files)
    ensures Readable(fs, []) == [] && Opens(fs, []) == []
  {
  }

  lemma {:induction false} ReadableAppend(fs: Files, a: seq<string>, b: seq<string>)
    ensures Readable(fs, a + b) == Readable(fs, a) + Readable(fs, b)
  {
    hide Readable, IfReadable;
    if a == [] {
      assert a + b == b;
      ReadableNone(fs);
    } else {
      ReadableAppend(fs, a[1..], b);
      assert (a + b)[1..] == a[1..] + b;
      ReadableFirst(fs, a);
      ReadableFirst(fs, a + b);
    }
  }

  lemma ReadableFirst(fs: Files, paths: seq<string>)
    requires paths != []
    ensures Readable(fs, paths) == IfReadable(fs, paths[0]) + Readable(fs, paths[1..])
  {
  }

  lemma ReadableNext(fs: Files, paths: seq<string>, i: nat)
    requires i < |paths|
    ensures Readable(fs, paths[..i + 1])
         == Readable(fs, paths[..i]) + IfReadable(fs, paths[i])
  {
    ReadableAppend(fs, paths[..i], [paths[i]]);
    assert paths[..i + 1] == paths[..i] + [paths[i]];
    assert [paths[i]][1..] == [];
  }

  lemma OpensNext(fs: Files, readable: seq<string>, path: string)
    requires fs(path).Some?
    ensures Opens(fs, readable + [path]) == Opens(fs, readable) + [Open(Uri(path), fs(path).value)]
  {
  }

  lemma OpensPrefix(fs: Files, batch: seq<string>, i: nat) returns (rest: seq<Event>)
    requires i <= |batch|
    ensures Opens(fs, Readable(fs, batch)) == Opens(fs, Readable(fs, batch[..i])) + rest
  {
    hide Readable, Opens;
    rest := Opens(fs, Readable(fs, batch[i..]));
    OpensAppend(fs, Readable(fs, batch[..i]), Readable(fs, batch[i..]));
    ReadableAppend(fs, batch[..i], batch[i..]);
    assert batch == batch[..i] + batch[i..];
  }

  lemma {:induction false} FeedAppend(fs: Files, a: seq<string>, b: seq<string>)
    requires |a| % BATCH == 0
    ensures FeedEvents(fs, a + b) == FeedEvents(fs, a) + FeedEvents(fs, b)
    decreases |a|
  {
    hide BatchEvents;
    var all := a + b;
    if a == [] {
      assert all == b;
      BatchOfNone(fs);
    } else if b == [] {
      assert all == a;
      BatchOfNone(fs);
    } else {
      assert all[..BATCH] == a[..BATCH] && all[BATCH..] == a[BATCH..] + b;
      FeedAppend(fs, a[BATCH..], b);
      if |a| == BATCH {
        assert a[..BATCH] == a && a[BATCH..] == [];
        BatchOfNone(fs);
      }
      FeedFront(fs, all);
      FeedFront(fs, a);
    }
  }

  lemma FeedFront(fs: Files, files: seq<string>)
    requires |files| >= BATCH
    ensures FeedEvents(fs, files) == BatchEvents(fs, files[..BATCH]) + FeedEvents(fs, files[BATCH..])
  {
    if |files| == BATCH {
      assert files[..BATCH] == files && files[BATCH..] == [];
      BatchOfNone(fs);
    }
  }

  lemma BatchOfNone(fs: Files)
    ensures BatchEvents(fs, []) == [] && FeedEvents(fs, []) == []
  {
  }

  /** One more batch from position `p`. */
  lemma FeedNext(fs: Files, files: seq<string>, p: nat, n: nat)
    requires p % BATCH == 0 && n <= BATCH && p + n <= |files|
    ensures FeedEvents(fs, files[..p + n]) == FeedEvents(fs, files[..p])
                                              + (Opens(fs, Readable(fs, files[p..p + n])) + Closes(Readable(fs, files[p..p + n])))
    ensures |Readable(fs, files[..p + n])| == |Readable(fs, files[..p])| + |Readable(fs, files[p..p + n])|
  {
    hide Readable, Opens, Closes;
    assert files[..p + n] == files[..p] + files[p..p + n];
    FeedAppend(fs, files[..p], files[p..p + n]);
    ReadableAppend(fs, files[..p], files[p..p + n]);
  }

  lemma FeedPrefix(fs: Files, files: seq<string>, p: nat, n: nat) returns (rest: seq<Event>)
    requires p % BATCH == 0 && n <= BATCH && p + n <= |files|
    requires n == BATCH || p + n == |files|
    ensures FeedEvents(fs, files) == FeedEvents(fs, files[..p]) + Opens(fs, Readable(fs, files[p..p + n])) + rest
  {
    hide Readable, Opens, Closes, FeedEvents;
    FeedNext(fs, files, p, n);
    var batch := Readable(fs, files[p..p + n]);
    var tail := FeedRest(fs, files, p + n);
    rest := Closes(batch) + tail;
    Regroup(FeedEvents(fs, files[..p]), Opens(fs, batch), Closes(batch), tail);
  }

  lemma Regroup(a: seq<Event>, b: seq<Event>, c: seq<Event>, d: seq<Event>)
    ensures a + (b + c) + d == a + b + (c + d)
    ensures a + (b + c) == a + b + c
  {
  }

  lemma FeedRest(fs: Files, files: seq<string>, m: nat) returns (tail: seq<Event>)
    requires m <= |files| && (m % BATCH == 0 || m == |files|)
    ensures FeedEvents(fs, files) == FeedEvents(fs, files[..m]) + tail
  {
    hide FeedEvents;
    if m == |files| {
      assert files[..m] == files;
      tail := [];
    } else {
      tail := FeedEvents(fs, files[m..]);
      FeedAppend(fs, files[..m], files[m..]);
      assert files[..m] + files[m..] == files;
    }
  }

  // ---- what the server sees -------------------------------------------------------------

  /** The documents open after some notifications, `open` being open before them. */
  function OpenAfter(open: set<string>, events: seq<Event>): set<string> {
    if events == [] then open
    else
      var before := OpenAfter(open, events[..|events| - 1]);
      match events[|events| - 1]
      case Open(uri, _) => before + {uri}
      case Close(uri) => before - {uri}
  }

  /** Nothing is opened while open, nothing closed while closed, and no more than `limit` are open at once. */
  predicate Orderly(open: set<string>, events: seq<Event>, limit: nat) {
    forall k :: 0 <= k <= |events| ==>
      |OpenAfter(open, events[..k])| <= limit
      && (k < |events| ==> (events[k].Open? <==> events[k].uri !in OpenAfter(open, events[..k])))
  }

  function Uris(paths: seq<string>): set<string> {
    set f | f in paths :: Uri(f)
  }

  lemma {:induction false} OpenAfterAppend(open: set<string>, a: seq<Event>, b: seq<Event>)
    ensures OpenAfter(open, a + b) == OpenAfter(OpenAfter(open, a), b)
    decreases |b|
  {
    if b == [] {
      assert a + b == a;
    } else {
      OpenAfterAppend(open, a, b[..|b| - 1]);
      assert (a + b)[..|a + b| - 1] == a + b[..|b| - 1];
    }
  }

  lemma {:induction false} UrisBound(paths: seq<string>)
    ensures |Uris(paths)| <= |paths|
  {
    if paths != [] {
      var init, last := paths[..|paths| - 1], paths[|paths| - 1];
      UrisBound(init);
      assert paths == init + [last];
      assert Uris(paths) == Uris(init) + {Uri(last)};
    }
  }

  lemma UriInjective(f: string, g: string)
    requires Uri(f) == Uri(g)
    ensures f == g
  {
    assert Uri(f)[7..] == f && Uri(g)[7..] == g;
  }

  lemma UriStands(f: string, paths: seq<string>)
    ensures Uri(f) in Uris(paths) <==> f in paths
  {
    if Uri(f) in Uris(paths) {
      var g :| g in paths && Uri(g) == Uri(f);
      UriInjective(f, g);
    }
  }

  lemma {:induction false} OpensState(fs: Files, readable: seq<string>, k: nat)
    requires k <= |readable|
    ensures OpenAfter({}, Opens(fs, readable)[..k]) == Uris(readable[..k])
  {
    if k > 0 {
      OpensState(fs, readable, k - 1);
      assert Opens(fs, readable)[..k][..k - 1] == Opens(fs, readable)[..k - 1];
      assert readable[..k] == readable[..k - 1] + [readable[k - 1]];
    }
  }

  lemma {:induction false} ClosesState(readable: seq<string>, k: nat)
    requires NoDuplicates(readable) && k <= |readable|
    ensures OpenAfter(Uris(readable), Closes(readable)[..k]) == Uris(readable[k..])
  {
    if k == 0 {
      assert readable[0..] == readable;
    } else {
      ClosesState(readable, k - 1);
      assert Closes(readable)[..k][..k - 1] == Closes(readable)[..k - 1];
      var gone := readable[k - 1];
      assert readable[k - 1..] == [gone] + readable[k..];
      assert Uris(readable[k - 1..]) == {Uri(gone)} + Uris(readable[k..]);
      UriStands(gone, readable[k..]);
    }
  }

  lemma OpensOrderly(fs: Files, readable: seq<string>)
    requires NoDuplicates(readable) && |readable| <= BATCH
    ensures Orderly({}, Opens(fs, readable), BATCH)
  {
    hide OpenAfter;
    var events := Opens(fs, readable);
    forall k | 0 <= k <= |events|
      ensures |OpenAfter({}, events[..k])| <= BATCH
      ensures k < |events| ==> events[k].uri !in OpenAfter({}, events[..k])
    {
      OpensState(fs, readable, k);
      UrisBound(readable[..k]);
      if k < |events| {
        UriStands(readable[k], readable[..k]);
      }
    }
  }

  lemma ClosesOrderly(readable: seq<string>)
    requires NoDuplicates(readable) && |readable| <= BATCH
    ensures Orderly(Uris(readable), Closes(readable), BATCH)
  {
    hide OpenAfter;
    var events := Closes(readable);
    forall k | 0 <= k <= |events|
      ensures |OpenAfter(Uris(readable), events[..k])| <= BATCH
      ensures k < |events| ==> events[k].uri in OpenAfter(Uris(readable), events[..k])
    {
      ClosesState(readable, k);
      UrisBound(readable[k..]);
      if k < |events| {
        UriStands(readable[k], readable[k..]);
      }
    }
  }

  lemma OrderlyAppend(open: set<string>, a: seq<Event>, b: seq<Event>, limit: nat)
    requires Orderly(open, a, limit) && Orderly(OpenAfter(open, a), b, limit)
    ensures Orderly(open, a + b, limit)
  {
    hide OpenAfter;
    var all := a + b;
    forall k | 0 <= k <= |all|
      ensures |OpenAfter(open, all[..k])| <= limit
      ensures k < |all| ==> (all[k].Open? <==> all[k].uri !in OpenAfter(open, all[..k]))
    {
      if k < |a| {
        assert all[..k] == a[..k];
      } else {
        assert all[..k] == a + b[..k - |a|];
        OpenAfterAppend(open, a, b[..k - |a|]);
      }
    }
  }

  lemma {:induction false} ReadableMembers(fs: Files, paths: seq<string>)
    ensures forall f :: f in Readable(fs, paths) <==> f in paths && fs(f).Some?
  {
    if paths != [] {
      ReadableMembers(fs, paths[1..]);
      assert paths == [paths[0]] + paths[1..];
    }
  }

  lemma {:induction false} ReadableDistinct(fs: Files, paths: seq<string>)
    requires NoDuplicates(paths)
    ensures NoDuplicates(Readable(fs, paths))
  {
    if paths != [] {
      ReadableDistinct(fs, paths[1..]);
      ReadableMembers(fs, paths[1..]);
    }
  }

  lemma BatchOrderly(fs: Files, batch: seq<string>)
    requires NoDuplicates(batch) && |batch| <= BATCH
    ensures Orderly({}, BatchEvents(fs, batch), BATCH) && OpenAfter({}, BatchEvents(fs, batch)) == {}
  {
    hide OpenAfter, Orderly, Readable;
    var readable := Readable(fs, batch);
    ReadableDistinct(fs, batch);
    OpensState(fs, readable, |readable|);
    ClosesState(readable, |readable|);
    assert Opens(fs, readable)[..|readable|] == Opens(fs, readable) && readable[..|readable|] == readable;
    assert Closes(readable)[..|readable|] == Closes(readable) && readable[|readable|..] == [];
    OpensOrderly(fs, readable);
    ClosesOrderly(readable);
    OpenAfterAppend({}, Opens(fs, readable), Closes(readable));
    OrderlyAppend({}, Opens(fs, readable), Closes(readable), BATCH);
  }

  /**
   * However many files there are, no more than one batch is open at once, no file is opened while open or closed
   * while closed, and in the end none is left open.
   */
  lemma {:induction false} FeedIsOrderly(fs: Files, files: seq<string>)
    requires NoDuplicates(files)
    ensures Orderly({}, FeedEvents(fs, files), 32) && OpenAfter({}, FeedEvents(fs, files)) == {}
    decreases |files|
  {
    hide OpenAfter, Orderly, BatchEvents;
    if |files| <= BATCH {
      BatchOrderly(fs, files);
    } else {
      var batch, rest := files[..BATCH], files[BATCH..];
      BatchOrderly(fs, batch);
      FeedIsOrderly(fs, rest);
      OpenAfterAppend({}, BatchEvents(fs, batch), FeedEvents(fs, rest));
      OrderlyAppend({}, BatchEvents(fs, batch), FeedEvents(fs, rest), BATCH);
    }
  }

  /** The opens among some events, or the closes. */
  function Only(events: seq<Event>, opens: bool): seq<Event> {
    if events == [] then []
    else IfKind(events[0], opens) + Only(events[1..], opens)
  }

  function IfKind(event: Event, open: bool): seq<Event> {
    if event.Open? == open then [event] else []
  }

  lemma {:induction false} OnlyAppend(a: seq<Event>, b: seq<Event>, opens: bool)
    ensures Only(a + b, opens) == Only(a, opens) + Only(b, opens)
  {
    hide Only, IfKind;
    if a == [] {
      assert a + b == b;
      assert Only(a, opens) == [] by { OnlyNone(opens); }
    } else {
      OnlyAppend(a[1..], b, opens);
      assert (a + b)[1..] == a[1..] + b;
      OnlyFirst(a, opens);
      OnlyFirst(a + b, opens);
    }
  }

  lemma OnlyNone(opens: bool)
    ensures Only([], opens) == []
  {
  }

  lemma OnlyFirst(events: seq<Event>, opens: bool)
    requires events != []
    ensures Only(events, opens) == IfKind(events[0], opens) + Only(events[1..], opens)
  {
  }

  lemma {:induction false} OnlyUniform(events: seq<Event>, opens: bool, wanted: bool)
    requires forall i :: 0 <= i < |events| ==> events[i].Open? == opens
    ensures Only(events, wanted) == if opens == wanted then events else []
  {
    if events != [] {
      OnlyUniform(events[1..], opens, wanted);
      assert events == [events[0]] + events[1..];
    }
  }

  lemma BatchOnly(fs: Files, batch: seq<string>)
    ensures Only(BatchEvents(fs, batch), true) == Opens(fs, Readable(fs, batch))
    ensures Only(BatchEvents(fs, batch), false) == Closes(Readable(fs, batch))
  {
    hide Only, Readable;
    var readable := Readable(fs, batch);
    forall wanted: bool
      ensures Only(BatchEvents(fs, batch), wanted) == Only(Opens(fs, readable), wanted) + Only(Closes(readable), wanted)
      ensures Only(Opens(fs, readable), wanted) == if wanted then Opens(fs, readable) else []
      ensures Only(Closes(readable), wanted) == if wanted then [] else Closes(readable)
    {
      OnlyAppend(Opens(fs, readable), Closes(readable), wanted);
      OnlyUniform(Opens(fs, readable), true, wanted);
      OnlyUniform(Closes(readable), false, wanted);
    }
  }

  /**
   * Each readable file is opened exactly once, with its contents, and closed exactly once, in the order of the list;
   * no other document is touched.
   */
  lemma {:induction false} FeedOpensAndClosesEachOnce(fs: Files, files: seq<string>)
    requires NoDuplicates(files)
    ensures Only(FeedEvents(fs, files), true) == Opens(fs, Readable(fs, files))
    ensures Only(FeedEvents(fs, files), false) == Closes(Readable(fs, files))
    ensures NoDuplicates(Readable(fs, files))
    ensures forall f :: f in Readable(fs, files) <==> f in files && fs(f).Some?
    decreases |files|
  {
    hide Only, Readable, BatchEvents, Opens, Closes, NoDuplicates;
    ReadableDistinct(fs, files);
    ReadableMembers(fs, files);
    if |files| <= BATCH {
      BatchOnly(fs, files);
    } else {
      var batch, rest := files[..BATCH], files[BATCH..];
      BatchOnly(fs, batch);
      assert NoDuplicates(rest) by { DropKeepsDistinct(files, BATCH); }
      FeedOpensAndClosesEachOnce(fs, rest);
      OnlyAppend(BatchEvents(fs, batch), FeedEvents(fs, rest), true);
      OnlyAppend(BatchEvents(fs, batch), FeedEvents(fs, rest), false);
      assert files == batch + rest;
      ReadableAppend(fs, batch, rest);
      OpensAppend(fs, Readable(fs, batch), Readable(fs, rest));
    }
  }

  lemma DropKeepsDistinct(files: seq<string>, n: nat)
    requires NoDuplicates(files) && n <= |files|
    ensures NoDuplicates(files[n..])
  {
  }

  lemma OpensAppend(fs: Files, a: seq<string>, b: seq<string>)
    ensures Opens(fs, a + b) == Opens(fs, a) + Opens(fs, b) && Closes(a + b) == Closes(a) + Closes(b)
  {
  }

  // ---- refused closes -------------------------------------------------------------------

  /** What the server holds: a write that did not go through changes nothing there. */
  function Held(log: seq<Attempt>): set<string> {
    if log == [] then {}
    else
      var before, last := Held(log[..|log| - 1]), log[|log| - 1];
      if !last.ok then before
      else match last.event case Open(uri, _) => before + {uri} case Close(uri) => before - {uri}
  }

  /** The closes that did not go through. */
  function RefusedCloses(log: seq<Attempt>): set<string> {
    set i | 0 <= i < |log| && log[i].event.Close? && !log[i].ok :: log[i].event.uri
  }

  lemma {:induction false} HeldBetween(events: seq<Event>, pipe: Pipe, start: nat)
    requires OpensSucceed(events, pipe, start)
    ensures var log := Attempts(events, pipe, start);
            OpenAfter({}, events) <= Held(log) <= OpenAfter({}, events) + RefusedCloses(log)
  {
    if events != [] {
      var init := events[..|events| - 1];
      HeldBetween(init, pipe, start);
      var log, before := Attempts(events, pipe, start), Attempts(init, pipe, start);
      assert log[..|log| - 1] == before;
      var last := log[|log| - 1];
      assert last == Attempt(events[|events| - 1], pipe(start + |init|));
      hide RefusedCloses;
      assert log == before + [last];
      RefusedClosesGrow(before, last);
    }
  }

  lemma RefusedClosesGrow(before: seq<Attempt>, last: Attempt)
    ensures RefusedCloses(before) <= RefusedCloses(before + [last])
    ensures last.event.Close? && !last.ok ==> last.event.uri in RefusedCloses(before + [last])
  {
    var log := before + [last];
    assert log[|before|] == last;
    forall u | u in RefusedCloses(before)
      ensures u in RefusedCloses(log)
    {
      var i :| 0 <= i < |before| && before[i].event.Close? && !before[i].ok && before[i].event.uri == u;
      assert log[i] == before[i];
    }
  }

  /**
   * Closes are sent without looking at the outcome, so the server may hold more than a batch: at every moment of a
   * completed feed, at most the batch and the documents whose close was refused; at the end, only those.
   */
  lemma FeedLoad(fs: Files, files: seq<string>, pipe: Pipe, start: nat, k: nat)
    requires NoDuplicates(files) && k <= |FeedEvents(fs, files)| && OpensSucceed(FeedEvents(fs, files), pipe, start)
    ensures var log := Attempts(FeedEvents(fs, files)[..k], pipe, start);
            |Held(log)| <= 32 + |RefusedCloses(log)|
            && (k == |FeedEvents(fs, files)| ==> Held(log) <= RefusedCloses(log))
  {
    hide Held, RefusedCloses, OpenAfter, FeedEvents;
    var events := FeedEvents(fs, files);
    FeedIsOrderly(fs, files);
    HeldBetween(events[..k], pipe, start);
    var open, log := OpenAfter({}, events[..k]), Attempts(events[..k], pipe, start);
    assert |open| <= BATCH;
    UnionSize(Held(log), open, RefusedCloses(log));
    if k == |events| {
      assert events[..k] == events;
    }
  }

  /** The bound is reached: if no close goes through, everything stays open. */
  lemma {:induction false} UnclosedFeedHoldsEverything(fs: Files, files: seq<string>, pipe: Pipe, start: nat)
    requires NoDuplicates(files) && OpensSucceed(FeedEvents(fs, files), pipe, start)
    requires forall i :: 0 <= i < |FeedEvents(fs, files)| && FeedEvents(fs, files)[i].Close? ==> !pipe(start + i)
    ensures Held(Attempts(FeedEvents(fs, files), pipe, start)) == Uris(Readable(fs, files))
  {
    hide FeedEvents, Readable, Opens, Only;
    var events := FeedEvents(fs, files);
    HeldIsOpened(events, pipe, start);
    FeedOpensAndClosesEachOnce(fs, files);
    OpenedUris(fs, Readable(fs, files));
  }

  function OpenedBy(events: seq<Event>): set<string> {
    set e | e in events && e.Open? :: e.uri
  }

  lemma {:induction false} HeldIsOpened(events: seq<Event>, pipe: Pipe, start: nat)
    requires OpensSucceed(events, pipe, start)
    requires forall i :: 0 <= i < |events| && events[i].Close? ==> !pipe(start + i)
    ensures Held(Attempts(events, pipe, start)) == OpenedBy(Only(events, true))
  {
    hide Only;
    OnlyNone(true);
    if events == [] {
      assert Only(events, true) == [];
    } else {
      var init, last := events[..|events| - 1], events[|events| - 1];
      HeldIsOpened(init, pipe, start);
      assert Attempts(events, pipe, start)[..|init|] == Attempts(init, pipe, start);
      OnlyLast(events, true);
      if last.Open? {
        assert OpenedBy(Only(events, true)) == OpenedBy(Only(init, true)) + {last.uri};
      } else {
        assert Only(events, true) == Only(init, true);
      }
    }
  }

  lemma OnlyLast(events: seq<Event>, opening: bool)
    requires events != []
    ensures Only(events, opening) == Only(events[..|events| - 1], opening) + IfKind(events[|events| - 1], opening)
  {
    hide Only;
    var init, last := events[..|events| - 1], events[|events| - 1];
    assert events == init + [last];
    OnlyAppend(init, [last], opening);
    OnlyFirst([last], opening);
    OnlyNone(opening);
    assert [last][1..] == [];
  }

  lemma OpenedUris(fs: Files, readable: seq<string>)
    ensures OpenedBy(Opens(fs, readable)) == Uris(readable)
  {
    forall f | f in readable
      ensures Uri(f) in OpenedBy(Opens(fs, readable))
    {
      var i :| 0 <= i < |readable| && readable[i] == f;
      assert Opens(fs, readable)[i] in Opens(fs, readable);
    }
  }

  // ---- a successful build ---------------------------------------------------------------

  /** The documents of a log's writes of one kind, in order. */
  function Tried(log: seq<Attempt>): seq<Event> {
    seq(|log|, i requires 0 <= i < |log| => log[i].event)
  }

  /**
   * What a successful build of the index wrote. Of the first files of the database, as many as the limit allows and
   * each named once in the order of first mention: every readable one was opened once, with its contents, and closed
   * once, both in order, and every open went through; the report counts them and the rest. At every moment at most one
   * batch was open as far as the closes went through, and no more than the refused closes on top of it otherwise.
   */
  lemma SuccessfulBuild(entries: seq<Option<string>>, files: seq<string>, maxTus: nat, fs: Files, pipe: Pipe,
                        before: seq<Attempt>, after: seq<Attempt>, r: Result<Report, ShimError>)
    requires Distinct(entries, files) && r.Ok?
    requires Fed(fs, FirstOf(files, maxTus), pipe, before, after, r)
    ensures before <= after
    ensures var todo, wrote := FirstOf(files, maxTus), after[|before|..];
            var readable := Readable(fs, todo);
            && todo <= files && (|todo| == maxTus || (|todo| < maxTus && todo == files))
            && NoDuplicates(readable) && (forall f :: f in readable <==> f in todo && fs(f).Some?)
            && Only(Tried(wrote), true) == Opens(fs, readable) && Only(Tried(wrote), false) == Closes(readable)
            && (forall i :: 0 <= i < |wrote| && wrote[i].event.Open? ==> wrote[i].ok)
            && r.value.tusOpened == |readable| && r.value.tusOpened + r.value.skippedIoErrors == |todo|
            && Orderly({}, Tried(wrote), 32) && OpenAfter({}, Tried(wrote)) == {}
            && (forall k :: 0 <= k <= |wrote| ==> |Held(wrote[..k])| <= 32 + |RefusedCloses(wrote[..k])|)
            && Held(wrote) <= RefusedCloses(wrote)
  {
    hide Distinct, Readable, FeedEvents, Opens, Closes, Only, Orderly, OpenAfter, Held, RefusedCloses, NoDuplicates;
    var todo, wrote := FirstOf(files, maxTus), after[|before|..];
    var events := FeedEvents(fs, todo);
    assert NoDuplicates(todo) by { TakeKeepsDistinct(entries, files, Min(maxTus, |files|)); }
    assert wrote == Attempts(events, pipe, |before|);
    assert Tried(wrote) == events;
    FeedOpensAndClosesEachOnce(fs, todo);
    FeedIsOrderly(fs, todo);
    forall k | 0 <= k <= |wrote|
      ensures |Held(wrote[..k])| <= 32 + |RefusedCloses(wrote[..k])|
      ensures k == |wrote| ==> Held(wrote[..k]) <= RefusedCloses(wrote[..k])
    {
      FeedLoad(fs, todo, pipe, |before|, k);
      assert wrote[..k] == Attempts(events[..k], pipe, |before|);
    }
    assert wrote[..|wrote|] == wrote;
  }

  lemma TakeKeepsDistinct(entries: seq<Option<string>>, files: seq<string>, n: nat)
    requires Distinct(entries, files) && n <= |files|
    ensures NoDuplicates(files[..n])
  {
  }
}
