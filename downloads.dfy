/** `Dataset.download` (proteome_exchange/dataset.py): build the list of
    files to fetch, then either fetch them one after the other or put them on
    a queue that a pool of workers drains, retrying a download once when it
    raises `URLError`.

    How each call of `DatasetFile.download` ends is a parameter, `fetch`,
    given the work item and whether the call is the retry; module Transfer
    models what happens inside one call. */
module Downloads {
  import opened Wrappers
  import Text
  import Records
  import Transfer

  /** A queued pair `(data_file, os.path.join(destination, data_file.name))`. */
  datatype WorkItem = WorkItem(file: Records.DatasetFile, path: string)

  /** `os.path.join(a, b)` on POSIX: an absolute `b` replaces `a`; otherwise
      `b` is appended to `a` with one `/` between them unless `a` is empty or
      already ends with `/`. */
  function PathJoin(a: string, b: string): (r: string)
    ensures Text.StartsWith(b, "/") ==> r == b
    ensures !Text.StartsWith(b, "/") ==>
              |a| + |b| <= |r| <= |a| + |b| + 1 && r[..|a|] == a && r[|r| - |b|..] == b
    ensures !Text.StartsWith(b, "/") ==>
              (|r| == |a| + |b| + 1 <==> a != [] && a[|a| - 1] != '/')
    ensures !Text.StartsWith(b, "/") && |r| == |a| + |b| + 1 ==> r[|a|] == '/'
  {
    if Text.StartsWith(b, "/") then b
    else if a == [] || a[|a| - 1] == '/' then a + b
    else a + "/" + b
  }

  /** The directory files go to: `destination`, or `'.'` when it is `None`. */
  function Destination(destination: Option<string>): (r: string)
    ensures destination.None? ==> r == "."
    ensures destination.Some? ==> r == destination.value
  {
    destination.GetOr(".")
  }

  /** With the default directory a relative file name lands in `./`. */
  lemma DefaultDestinationPath(name: string)
    requires !Text.StartsWith(name, "/")
    ensures PathJoin(Destination(None), name) == "./" + name
  {
  }

  /** `filter is not None and filter(data_file)`: the filter names the files
      to skip, not the files to keep. */
  predicate Skipped(filter: Option<Records.DatasetFile -> bool>, f: Records.DatasetFile) {
    filter.Some? && filter.value(f)
  }

  /** The work item of a file under the directory `root`. */
  function Queued(root: string, f: Records.DatasetFile): WorkItem {
    WorkItem(f, PathJoin(root, f.name))
  }

  /** The files the dataset fetches, in the order it fetches or queues them. */
  function WorkList(files: seq<Records.DatasetFile>, root: string,
                    filter: Option<Records.DatasetFile -> bool>): (r: seq<WorkItem>)
    ensures |r| <= |files|
  {
    if files == [] then []
    else
      var f := files[|files| - 1];
      var init := WorkList(files[..|files| - 1], root, filter);
      if Skipped(filter, f) then init else init + [Queued(root, f)]
  }

  /** Each item is a file the filter does not skip, with its path under `root`. */
  predicate AllQueued(items: seq<WorkItem>, root: string, filter: Option<Records.DatasetFile -> bool>) {
    forall i :: 0 <= i < |items| ==> !Skipped(filter, items[i].file) && items[i] == Queued(root, items[i].file)
  }

  /** Every queued item is a file the filter does not skip, with its path
      under `root`. */
  lemma {:induction false} WorkListItems(files: seq<Records.DatasetFile>, root: string,
                                         filter: Option<Records.DatasetFile -> bool>)
    ensures AllQueued(WorkList(files, root, filter), root, filter)
  {
    if files != [] {
      WorkListItems(files[..|files| - 1], root, filter);
    }
  }

  /** The work list of two runs of files is the two work lists one after the
      other: the input order is kept. */
  lemma {:induction false} WorkListAppend(a: seq<Records.DatasetFile>, b: seq<Records.DatasetFile>,
                                          root: string, filter: Option<Records.DatasetFile -> bool>)
    ensures WorkList(a + b, root, filter) == WorkList(a, root, filter) + WorkList(b, root, filter)
  {
    if b == [] {
      assert a + b == a;
    } else {
      WorkListAppend(a, b[..|b| - 1], root, filter);
      assert (a + b)[..|a + b| - 1] == a + b[..|b| - 1];
    }
  }

  lemma MultisetOfLast<T>(s: seq<T>)
    requires s != []
    ensures multiset(s) == multiset(s[..|s| - 1]) + multiset{s[|s| - 1]}
  {
    assert s == s[..|s| - 1] + [s[|s| - 1]];
  }

  /** Every file not skipped is queued as often as it occurs in the dataset,
      and a skipped file never is. */
  lemma {:induction false} WorkListCount(files: seq<Records.DatasetFile>, root: string,
                                         filter: Option<Records.DatasetFile -> bool>, f: Records.DatasetFile)
    ensures multiset(WorkList(files, root, filter))[Queued(root, f)] ==
            if Skipped(filter, f) then 0 else multiset(files)[f]
  {
    if files != [] {
      var init := files[..|files| - 1];
      var g := files[|files| - 1];
      WorkListCount(init, root, filter, f);
      MultisetOfLast(files);
      if !Skipped(filter, g) {
        assert multiset(WorkList(files, root, filter)) == multiset(WorkList(init, root, filter)) + multiset{Queued(root, g)};
        assert Queued(root, g) == Queued(root, f) <==> g == f;
      }
    }
  }

  /** Without a filter every file is queued, in order. */
  lemma {:induction false} WorkListUnfiltered(files: seq<Records.DatasetFile>, root: string)
    ensures |WorkList(files, root, None)| == |files|
    ensures forall i :: 0 <= i < |files| ==> WorkList(files, root, None)[i] == Queued(root, files[i])
  {
    if files != [] {
      var init := files[..|files| - 1];
      WorkListUnfiltered(init, root);
      assert WorkList(files, root, None) == WorkList(init, root, None) + [Queued(root, files[|files| - 1])];
      forall i | 0 <= i < |files| ensures WorkList(files, root, None)[i] == Queued(root, files[i]) {
        if i < |init| {
          assert files[i] == init[i];
        }
      }
    }
  }

  /** A file the filter matches is left out and one it does not match is
      kept. */
  lemma FilterPolarity(a: Records.DatasetFile, b: Records.DatasetFile, root: string,
                       filter: Option<Records.DatasetFile -> bool>)
    requires Skipped(filter, a) && !Skipped(filter, b)
    ensures WorkList([a, b], root, filter) == [Queued(root, b)]
  {
    assert [a, b][..1] == [a];
  }

  /** The number of workers the queue path starts: `threads`, where `None`
      counts as 0 and a count of at most 0 is replaced by the number of files
      of the dataset, skipped ones included. */
  function WorkerCount(threads: Option<int>, fileCount: nat): (r: nat)
    ensures (threads.None? || threads.value <= 0) ==> r == fileCount
    ensures threads.Some? && threads.value > 0 ==> r == threads.value
  {
    var t := threads.GetOr(0);
    if t <= 0 then fileCount else t
  }

  /** One call of `data_file.download(destination)`: the item, whether it is
      the retry, and how the call ended. */
  datatype Attempt = Attempt(item: WorkItem, retry: bool, outcome: Transfer.Outcome)

  /** How each call of `DatasetFile.download` ends, given the item and
      whether the call is the retry. */
  type Fetcher = (WorkItem, bool) -> Transfer.Outcome

  /** The handling of one dequeued item in `_work`: a download, and a second
      one only when the first raised `URLError`. */
  function Attend(item: WorkItem, fetch: Fetcher): (r: seq<Attempt>)
    ensures 1 <= |r| <= 2
    ensures r[0] == Attempt(item, false, fetch(item, false))
    ensures |r| == 2 <==> fetch(item, false) == Transfer.Failed(Transfer.UrlError)
    ensures |r| == 2 ==> r[1] == Attempt(item, true, fetch(item, true))
  {
    var first := fetch(item, false);
    if first == Transfer.Failed(Transfer.UrlError) then
      [Attempt(item, false, first), Attempt(item, true, fetch(item, true))]
    else
      [Attempt(item, false, first)]
  }

  /** The exception of the last attempt escapes `_work` and ends the worker. */
  predicate Escapes(item: WorkItem, fetch: Fetcher) {
    var a := Attend(item, fetch);
    a[|a| - 1].outcome.Failed?
  }

  /** A worker ends on an item exactly when the first download raised
      something other than `URLError`, or raised `URLError` and the retry
      raised too. */
  lemma EscapesSpec(item: WorkItem, fetch: Fetcher)
    ensures Escapes(item, fetch) <==>
            fetch(item, false) == Transfer.Failed(Transfer.OtherError) ||
            (fetch(item, false) == Transfer.Failed(Transfer.UrlError) && fetch(item, true).Failed?)
  {
    var a := Attend(item, fetch);
    if fetch(item, false) == Transfer.Failed(Transfer.UrlError) {
      assert a[|a| - 1] == Attempt(item, true, fetch(item, true));
    } else {
      assert a[|a| - 1] == Attempt(item, false, fetch(item, false));
      assert fetch(item, false).Failed? ==> fetch(item, false).error == Transfer.OtherError;
    }
  }

  /** The attempts made for the items, item after item. */
  function AttendAll(items: seq<WorkItem>, fetch: Fetcher): seq<Attempt> {
    if items == [] then [] else Attend(items[0], fetch) + AttendAll(items[1..], fetch)
  }

  /** How many of the items end the worker that takes them. */
  function FatalCount(items: seq<WorkItem>, fetch: Fetcher): nat {
    if items == [] then 0
    else (if Escapes(items[0], fetch) then 1 else 0) + FatalCount(items[1..], fetch)
  }

  /** The items, in order, whose first download the attempts record. */
  function FirstAttempts(attempts: seq<Attempt>): seq<WorkItem> {
    if attempts == [] then []
    else (if attempts[0].retry then [] else [attempts[0].item]) + FirstAttempts(attempts[1..])
  }

  lemma {:induction false} FirstAttemptsAppend(a: seq<Attempt>, b: seq<Attempt>)
    ensures FirstAttempts(a + b) == FirstAttempts(a) + FirstAttempts(b)
  {
    if a != [] {
      FirstAttemptsAppend(a[1..], b);
      assert (a + b)[0] == a[0];
      assert (a + b)[1..] == a[1..] + b;
    } else {
      assert a + b == b;
    }
  }

  /** Every item gets exactly one first download, in queue order. */
  lemma {:induction false} AttendAllFirsts(items: seq<WorkItem>, fetch: Fetcher)
    ensures FirstAttempts(AttendAll(items, fetch)) == items
  {
    if items != [] {
      AttendAllFirsts(items[1..], fetch);
      var a := Attend(items[0], fetch);
      FirstAttemptsAppend(a, AttendAll(items[1..], fetch));
      if |a| == 2 {
        assert a[1..][1..] == [];
      }
      assert FirstAttempts(a) == [items[0]];
    }
  }

  /** Every retry comes straight after the first download of the same item,
      and that download raised `URLError`. */
  predicate RetriesFollowUrlErrors(a: seq<Attempt>) {
    forall i :: 0 <= i < |a| && a[i].retry ==>
      0 < i && a[i - 1] == Attempt(a[i].item, false, Transfer.Failed(Transfer.UrlError))
  }

  /** A retry happens only right after a first download of the same item that
      raised `URLError`; so no item is downloaded more than twice. */
  lemma {:induction false} AttendAllRetries(items: seq<WorkItem>, fetch: Fetcher)
    ensures RetriesFollowUrlErrors(AttendAll(items, fetch))
  {
    if items != [] {
      AttendAllRetries(items[1..], fetch);
      var head := Attend(items[0], fetch);
      var rest := AttendAll(items[1..], fetch);
      var a := head + rest;
      forall i | 0 <= i < |a| && a[i].retry
        ensures 0 < i && a[i - 1] == Attempt(a[i].item, false, Transfer.Failed(Transfer.UrlError))
      {
        if i < |head| {
          assert a[i] == head[i];
          assert !head[0].retry;
          assert i == 1 && a[0] == head[0];
          assert 0 < i;
          assert a[i - 1] == Attempt(a[i].item, false, Transfer.Failed(Transfer.UrlError));
        } else {
          var j := i - |head|;
          assert a[i] == rest[j] && rest[j].retry;
          assert 0 < j && rest[j - 1] == Attempt(rest[j].item, false, Transfer.Failed(Transfer.UrlError));
          assert a[i - 1] == rest[j - 1];
        }
      }
    }
  }

  /** The queue path, one worker step at a time: while a worker is alive and
      the queue is not empty, the next item is taken and attended to, and the
      worker that took it ends if an exception escapes. The result is the
      attempts made and the number of items taken. */
  function Drain(queue: seq<WorkItem>, live: nat, fetch: Fetcher): (r: (seq<Attempt>, nat))
    ensures r.1 <= |queue|
  {
    if queue == [] || live == 0 then ([], 0)
    else
      var rest := Drain(queue[1..], if Escapes(queue[0], fetch) then live - 1 else live, fetch);
      (Attend(queue[0], fetch) + rest.0, 1 + rest.1)
  }

  /** The drain takes a prefix of the queue, attends to each item of it once,
      takes the next item whenever a worker is still alive, and stops short
      of the end only when every worker has ended. */
  lemma {:induction false} DrainSpec(queue: seq<WorkItem>, live: nat, fetch: Fetcher)
    ensures var r := Drain(queue, live, fetch);
            r.0 == AttendAll(queue[..r.1], fetch) &&
            (forall k :: 0 <= k < r.1 ==> FatalCount(queue[..k], fetch) < live) &&
            (r.1 < |queue| ==> FatalCount(queue[..r.1], fetch) >= live)
  {
    if queue != [] && live != 0 {
      var x := queue[0];
      var ys := queue[1..];
      var live' := if Escapes(x, fetch) then live - 1 else live;
      DrainSpec(ys, live', fetch);
      var r := Drain(queue, live, fetch);
      var rest := Drain(ys, live', fetch);
      assert queue[..r.1][0] == x;
      assert queue[..r.1][1..] == ys[..rest.1];
      forall k | 0 <= k < r.1
        ensures FatalCount(queue[..k], fetch) < live
      {
        if k > 0 {
          assert queue[..k][0] == x;
          assert queue[..k][1..] == ys[..k - 1];
        }
      }
    }
  }

  /** With at least as many workers as queued items, every item is taken. */
  lemma {:induction false} DrainComplete(queue: seq<WorkItem>, live: nat, fetch: Fetcher)
    requires |queue| <= live
    ensures Drain(queue, live, fetch).1 == |queue|
  {
    if queue != [] {
      DrainComplete(queue[1..], if Escapes(queue[0], fetch) then live - 1 else live, fetch);
    }
  }

  /** When every download fails for good, each worker takes one item and
      ends, so only as many items as there are workers are taken. */
  lemma {:induction false} DrainAllEscaping(queue: seq<WorkItem>, live: nat, fetch: Fetcher)
    requires forall i :: 0 <= i < |queue| ==> Escapes(queue[i], fetch)
    ensures Drain(queue, live, fetch).1 == if live < |queue| then live else |queue|
  {
    if queue != [] && live != 0 {
      assert Escapes(queue[0], fetch);
      DrainAllEscaping(queue[1..], live - 1, fetch);
    }
  }

  /** The sequential path over the work list: one download per item, in
      order, with no retry, up to the first one that raises. The result is
      the attempts made and the exception that propagates, if any. */
  function Sequential(items: seq<WorkItem>, fetch: Fetcher): (r: (seq<Attempt>, Option<Transfer.FetchError>))
    ensures |r.0| <= |items|
    ensures r.1.None? ==> |r.0| == |items|
  {
    if items == [] then ([], None)
    else
      var p := Sequential(items[..|items| - 1], fetch);
      if p.1.Some? then p
      else
        var item := items[|items| - 1];
        var o := fetch(item, false);
        (p.0 + [Attempt(item, false, o)], if o.Failed? then Some(o.error) else None)
  }

  /** The sequential path downloads the items in order, once each, and stops
      at the first download that raises, propagating its exception; it
      reaches the end only when every download succeeded. */
  lemma {:induction false} SequentialSpec(items: seq<WorkItem>, fetch: Fetcher)
    ensures var r := Sequential(items, fetch);
            |r.0| <= |items| &&
            (forall i :: 0 <= i < |r.0| ==> r.0[i] == Attempt(items[i], false, fetch(items[i], false))) &&
            (forall i :: 0 <= i < |r.0| - 1 ==> r.0[i].outcome == Transfer.Done) &&
            (r.1.None? ==> |r.0| == |items| && forall i :: 0 <= i < |r.0| ==> r.0[i].outcome == Transfer.Done) &&
            (r.1.Some? ==> 0 < |r.0| && r.0[|r.0| - 1].outcome == Transfer.Failed(r.1.value))
  {
    if items != [] {
      SequentialSpec(items[..|items| - 1], fetch);
    }
  }

  /** Once a download has raised, later items change nothing. */
  lemma {:induction false} SequentialStable(items: seq<WorkItem>, more: seq<WorkItem>, fetch: Fetcher)
    requires Sequential(items, fetch).1.Some?
    ensures Sequential(items + more, fetch) == Sequential(items, fetch)
  {
    if more == [] {
      assert items + more == items;
    } else {
      SequentialStable(items, more[..|more| - 1], fetch);
      assert (items + more)[..|items + more| - 1] == items + more[..|more| - 1];
    }
  }

  /** What a call of `download` does: the attempts it makes (on the queue
      path, in queue order), the exception it raises, the number of workers
      it starts and the items left on the queue when it returns. */
  datatype Run = Run(attempts: seq<Attempt>, raised: Option<Transfer.FetchError>, workers: nat, left: seq<WorkItem>)

  /** The run of `download(destination, filter, threads)` on `files`. */
  function DownloadRun(files: seq<Records.DatasetFile>, destination: Option<string>,
                       filter: Option<Records.DatasetFile -> bool>, threads: Option<int>, fetch: Fetcher): (r: Run)
    ensures r.raised.Some? ==> threads == Some(1)
    ensures threads == Some(1) ==> r.workers == 0 && r.left == []
    ensures threads != Some(1) ==> r.workers == WorkerCount(threads, |files|)
  {
    var items := WorkList(files, Destination(destination), filter);
    if threads == Some(1) then
      var s := Sequential(items, fetch);
      Run(s.0, s.1, 0, [])
    else
      var w := WorkerCount(threads, |files|);
      var d := Drain(items, w, fetch);
      Run(d.0, None, w, items[d.1..])
  }

  /** An empty dataset downloads nothing and raises nothing; unless a
      positive thread count is given it starts no worker either. */
  lemma DownloadEmpty(destination: Option<string>, filter: Option<Records.DatasetFile -> bool>,
                      threads: Option<int>, fetch: Fetcher)
    ensures var r := DownloadRun([], destination, filter, threads, fetch);
            r.attempts == [] && r.raised.None? && r.left == [] &&
            ((threads.None? || threads.value <= 0) ==> r.workers == 0)
  {
  }

  /** With `threads == 1` the non-skipped files are downloaded once each, in
      input order, with no retry; the first exception propagates and no later
      file is tried. */
  lemma SequentialPath(files: seq<Records.DatasetFile>, destination: Option<string>,
                       filter: Option<Records.DatasetFile -> bool>, fetch: Fetcher)
    ensures var r := DownloadRun(files, destination, filter, Some(1), fetch);
            var items := WorkList(files, Destination(destination), filter);
            r.workers == 0 && r.left == [] && |r.attempts| <= |items| &&
            (forall i :: 0 <= i < |r.attempts| ==> r.attempts[i] == Attempt(items[i], false, fetch(items[i], false))) &&
            (forall i :: 0 <= i < |r.attempts| - 1 ==> r.attempts[i].outcome == Transfer.Done) &&
            (r.raised.None? ==> |r.attempts| == |items| &&
                                forall i :: 0 <= i < |r.attempts| ==> r.attempts[i].outcome == Transfer.Done) &&
            (r.raised.Some? ==> 0 < |r.attempts| && r.attempts[|r.attempts| - 1].outcome == Transfer.Failed(r.raised.value))
  {
    SequentialSpec(WorkList(files, Destination(destination), filter), fetch);
  }

  /** On the queue path nothing propagates to the caller; every queued item
      is either taken once and has its first download, in queue order, or is
      still on the queue; a retry directly follows a first download that
      raised `URLError`; and items stay behind only when every worker has
      ended. */
  lemma QueuePath(files: seq<Records.DatasetFile>, destination: Option<string>,
                  filter: Option<Records.DatasetFile -> bool>, threads: Option<int>, fetch: Fetcher)
    requires threads != Some(1)
    ensures var r := DownloadRun(files, destination, filter, threads, fetch);
            var items := WorkList(files, Destination(destination), filter);
            r.raised.None? && r.workers == WorkerCount(threads, |files|) &&
            FirstAttempts(r.attempts) + r.left == items &&
            RetriesFollowUrlErrors(r.attempts) &&
            (r.left != [] ==> FatalCount(items[..|items| - |r.left|], fetch) >= r.workers)
  {
    var items := WorkList(files, Destination(destination), filter);
    var w := WorkerCount(threads, |files|);
    var d := Drain(items, w, fetch);
    DrainSpec(items, w, fetch);
    AttendAllFirsts(items[..d.1], fetch);
    AttendAllRetries(items[..d.1], fetch);
    assert items[..d.1] + items[d.1..] == items;
  }

  /** With the default thread count there are at least as many workers as
      queued files, so every queued file is taken and attended to. */
  lemma DefaultThreadsDrainAll(files: seq<Records.DatasetFile>, destination: Option<string>,
                               filter: Option<Records.DatasetFile -> bool>, threads: Option<int>, fetch: Fetcher)
    requires threads.None? || threads.value <= 0
    ensures var r := DownloadRun(files, destination, filter, threads, fetch);
            r.left == [] && r.attempts == AttendAll(WorkList(files, Destination(destination), filter), fetch)
  {
    var items := WorkList(files, Destination(destination), filter);
    DrainComplete(items, |files|, fetch);
    DrainSpec(items, |files|, fetch);
    assert items[..|items|] == items;
  }

  /** With `threads == k` for some k of at least 2 and more than k queued
      files whose downloads all fail for good, each worker ends on its first
      item: only k files are tried, the rest stay on the queue, and the call
      still returns normally. */
  lemma StrandedWhenDownloadsFail(files: seq<Records.DatasetFile>, destination: Option<string>,
                                  filter: Option<Records.DatasetFile -> bool>, k: int, fetch: Fetcher)
    requires k >= 2
    requires k < |WorkList(files, Destination(destination), filter)|
    requires forall item :: fetch(item, false) == Transfer.Failed(Transfer.OtherError)
    ensures var r := DownloadRun(files, destination, filter, Some(k), fetch);
            r.raised.None? && r.left == WorkList(files, Destination(destination), filter)[k..] && r.left != []
  {
    var items := WorkList(files, Destination(destination), filter);
    DrainAllEscaping(items, k, fetch);
  }

  /** The shared `Queue` of work items: `put` and the non-blocking
      `get(False)`, without locking. */
  class WorkQueue {
    var items: seq<WorkItem>

    constructor ()
      ensures items == []
    {
      items := [];
    }

    /** `inqueue.put(item)`. */
    method Put(item: WorkItem)
      modifies this
      ensures items == old(items) + [item]
    {
      items := items + [item];
    }

    /** `inqueue.get(False, ...)`: the first item, or `Empty` (`None`) at once
        when there is none. */
    method GetNowait() returns (r: Option<WorkItem>)
      modifies this
      ensures old(items) == [] ==> r.None? && items == []
      ensures old(items) != [] ==> r == Some(old(items)[0]) && items == old(items)[1..]
    {
      if items == [] {
        r := None;
      } else {
        r := Some(items[0]);
        items := items[1..];
      }
    }
  }

  /** One more file extends the work list by its item unless it is skipped. */
  lemma WorkListStep(files: seq<Records.DatasetFile>, i: nat, root: string,
                     filter: Option<Records.DatasetFile -> bool>)
    requires i < |files|
    ensures WorkList(files[..i + 1], root, filter) ==
            WorkList(files[..i], root, filter) + (if Skipped(filter, files[i]) then [] else [Queued(root, files[i])])
  {
    assert files[..i + 1][..i] == files[..i];
  }

  /** One more item after a run without exception is downloaded next. */
  lemma SequentialStep(items: seq<WorkItem>, item: WorkItem, fetch: Fetcher)
    requires Sequential(items, fetch).1.None?
    ensures Sequential(items + [item], fetch) ==
            (Sequential(items, fetch).0 + [Attempt(item, false, fetch(item, false))],
             if fetch(item, false).Failed? then Some(fetch(item, false).error) else None)
  {
    assert (items + [item])[..|items|] == items;
  }

  /** The work list of the files is that of the files before `i` followed by
      that of the rest. */
  lemma WorkListSplit(files: seq<Records.DatasetFile>, i: nat, root: string,
                      filter: Option<Records.DatasetFile -> bool>)
    requires i <= |files|
    ensures WorkList(files, root, filter) == WorkList(files[..i], root, filter) + WorkList(files[i..], root, filter)
  {
    assert files[..i] + files[i..] == files;
    WorkListAppend(files[..i], files[i..], root, filter);
  }

  /** Once a download on the sequential path has raised, the files after it
      change nothing. */
  lemma SequentialStops(files: seq<Records.DatasetFile>, i: nat, root: string,
                        filter: Option<Records.DatasetFile -> bool>, fetch: Fetcher)
    requires i <= |files|
    requires Sequential(WorkList(files[..i], root, filter), fetch).1.Some?
    ensures Sequential(WorkList(files, root, filter), fetch) == Sequential(WorkList(files[..i], root, filter), fetch)
  {
    WorkListSplit(files, i, root, filter);
    SequentialStable(WorkList(files[..i], root, filter), WorkList(files[i..], root, filter), fetch);
  }

  /** The `try` block of `_work` for one dequeued item: the download, and
      the retry when it raised `URLError`; `escaped` tells whether an
      exception leaves the block. */
  method AttendItem(item: WorkItem, fetch: Fetcher) returns (attempts: seq<Attempt>, escaped: bool)
    ensures attempts == Attend(item, fetch)
    ensures escaped == Escapes(item, fetch)
  {
    var outcome := fetch(item, false);
    attempts := [Attempt(item, false, outcome)];
    if outcome == Transfer.Failed(Transfer.UrlError) {
      outcome := fetch(item, true);
      attempts := attempts + [Attempt(item, true, outcome)];
    }
    escaped := outcome.Failed?;
  }

  /** Taking one item off a non-empty queue while a worker is alive. */
  lemma DrainStep(item: WorkItem, rest: seq<WorkItem>, live: nat, fetch: Fetcher)
    requires live > 0
    ensures Drain([item] + rest, live, fetch) ==
            (Attend(item, fetch) + Drain(rest, if Escapes(item, fetch) then live - 1 else live, fetch).0,
             1 + Drain(rest, if Escapes(item, fetch) then live - 1 else live, fetch).1)
  {
    assert ([item] + rest)[0] == item;
    assert ([item] + rest)[1..] == rest;
  }

  /** The `threads == 1` loop: each file the filter does not skip is
      downloaded to its path under `root`, in order; the first exception
      leaves the loop and propagates. */
  method DownloadInOrder(files: seq<Records.DatasetFile>, root: string,
                         filter: Option<Records.DatasetFile -> bool>, fetch: Fetcher)
    returns (attempts: seq<Attempt>, raised: Option<Transfer.FetchError>)
    ensures (attempts, raised) == Sequential(WorkList(files, root, filter), fetch)
  {
    attempts := [];
    for i := 0 to |files|
      invariant Sequential(WorkList(files[..i], root, filter), fetch) == (attempts, None)
    {
      var f := files[i];
      WorkListStep(files, i, root, filter);
      if !Skipped(filter, f) {
        var item := WorkItem(f, PathJoin(root, f.name));
        var outcome := fetch(item, false);
        SequentialStep(WorkList(files[..i], root, filter), item, fetch);
        attempts := attempts + [Attempt(item, false, outcome)];
        if outcome.Failed? {
          SequentialStops(files, i + 1, root, filter, fetch);
          return attempts, Some(outcome.error);
        }
      } else {
        assert WorkList(files[..i], root, filter) + [] == WorkList(files[..i], root, filter);
      }
    }
    assert files[..|files|] == files;
    raised := None;
  }

  /** The loop that fills the queue, before any worker starts. */
  method FillQueue(files: seq<Records.DatasetFile>, root: string,
                   filter: Option<Records.DatasetFile -> bool>) returns (q: WorkQueue)
    ensures fresh(q)
    ensures q.items == WorkList(files, root, filter)
  {
    q := new WorkQueue();
    for i := 0 to |files|
      invariant fresh(q)
      invariant q.items == WorkList(files[..i], root, filter)
    {
      var f := files[i];
      WorkListStep(files, i, root, filter);
      if !Skipped(filter, f) {
        q.Put(WorkItem(f, PathJoin(root, f.name)));
      }
    }
    assert files[..|files|] == files;
  }

  /** `workers` threads running `_work` on the filled queue until each has
      found it empty or has been ended by an escaping exception. The queue is
      full before any of them starts, so which items get taken does not
      depend on how they interleave: each step below is one worker's `get`
      and the downloads that follow it. */
  method Work(q: WorkQueue, workers: nat, fetch: Fetcher) returns (attempts: seq<Attempt>)
    modifies q
    ensures var d := Drain(old(q.items), workers, fetch);
            attempts == d.0 && q.items == old(q.items)[d.1..]
  {
    ghost var items := q.items;
    var live := workers;
    attempts := [];
    ghost var taken := 0;
    assert items[0..] == items;
    assert [] + Drain(items, live, fetch).0 == Drain(items, live, fetch).0;
    while live > 0
      invariant taken <= |items| && q.items == items[taken..]
      invariant Drain(items, workers, fetch) ==
                (attempts + Drain(q.items, live, fetch).0, taken + Drain(q.items, live, fetch).1)
      decreases |q.items| + live
    {
      ghost var queued := q.items;
      var next := q.GetNowait();
      if next.None? {
        // `Empty`: this worker leaves its loop.
        live := live - 1;
      } else {
        var item := next.value;
        assert queued == [item] + q.items;
        DrainStep(item, q.items, live, fetch);
        var more, escaped := AttendItem(item, fetch);
        assert attempts + (more + Drain(q.items, if escaped then live - 1 else live, fetch).0) ==
               (attempts + more) + Drain(q.items, if escaped then live - 1 else live, fetch).0;
        attempts := attempts + more;
        if escaped {
          // The exception escapes `_work`: this worker ends.
          live := live - 1;
        }
        assert items[taken..][1..] == items[taken + 1..];
        taken := taken + 1;
      }
    }
  }

  /** A dataset: its identifier and its files, in document order. */
  datatype Dataset = Dataset(id: string, files: seq<Records.DatasetFile>) {

    /** `download(destination, filter, threads)`. */
    method Download(destination: Option<string>, filter: Option<Records.DatasetFile -> bool>,
                    threads: Option<int>, fetch: Fetcher) returns (run: Run)
      ensures run == DownloadRun(files, destination, filter, threads, fetch)
    {
      var t := threads.GetOr(0);
      var root := destination.GetOr(".");
      if t == 1 {
        var attempts, raised := DownloadInOrder(files, root, filter, fetch);
        return Run(attempts, raised, 0, []);
      }
      var q := FillQueue(files, root, filter);
      if t <= 0 {
        t := |files|;
      }
      var attempts := Work(q, t, fetch);
      return Run(attempts, None, t, q.items);
    }
  }
}
