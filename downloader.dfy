/** `download`: one task per resolved link list, each with a destination
    directory, a filename and a destination path; and `copy_url`: the chunk
    loop that writes one response body into its file. */
module Downloader {
  import opened Wrappers
  import opened PyStr
  import opened Seqs
  import opened Resolver

  // ---------------------------------------------------------------------------
  // Planning
  // ---------------------------------------------------------------------------

  /** `os.path.join(dir, name)` on POSIX: an absolute `name` replaces `dir`;
      otherwise a "/" is put between them unless `dir` is empty or already
      ends in one. */
  function PathJoin(dir: string, name: string): (r: string)
    ensures |name| > 0 && name[0] == '/' ==> r == name
    ensures (|name| == 0 || name[0] != '/') ==>
              |r| >= |dir| + |name| && r[..|dir|] == dir && r[|r| - |name|..] == name
  {
    if |name| > 0 && name[0] == '/' then name
    else if |dir| == 0 || dir[|dir| - 1] == '/' then dir + name
    else dir + "/" + name
  }

  /** A submitted download: the link, the directory made for it, the name shown
      in the progress display and the file written. */
  datatype Task = Task(url: string, destDir: string, filename: string, destPath: string)

  /** The body of `for url in urls` for the `i`-th link list: its directory is
      the one at the position of the first equal list (`urls.index(url)`), its
      link is the list's first element and its filename the text after the
      last "/" of the link. */
  function TaskAt(urls: seq<seq<string>>, dirs: seq<string>, i: nat): Result<Task>
    requires i < |urls|
  {
    var j := FirstIndex(urls, urls[i]);
    if j >= |dirs| || |urls[i]| == 0 then Fail(IndexError)
    else
      var url := urls[i][0];
      var filename := LastPiece(url, '/');
      Ok(Task(url, dirs[j], filename, PathJoin(dirs[j], filename)))
  }

  /** A task exists exactly when the directory list reaches the first equal
      list's position and the list holds a link; the filename has no "/" and
      the destination path joins it to the directory. */
  lemma TaskAtMeaning(urls: seq<seq<string>>, dirs: seq<string>, i: nat)
    requires i < |urls|
    ensures var r := TaskAt(urls, dirs, i);
            (r.Ok? <==> FirstIndex(urls, urls[i]) < |dirs| && |urls[i]| > 0) &&
            (r.Fail? ==> r.error == IndexError)
    ensures var r := TaskAt(urls, dirs, i);
            r.Ok? ==>
              r.value.url == urls[i][0] && r.value.destDir == dirs[FirstIndex(urls, urls[i])] &&
              r.value.filename == LastPiece(r.value.url, '/') && '/' !in r.value.filename &&
              r.value.destPath == PathJoin(r.value.destDir, r.value.filename)
  {
    if |urls[i]| > 0 {
      LastPieceIsSuffix(urls[i][0], '/');
    }
  }

  /** A task whose link was made by `create_download_link` writes the file the
      resolver chose, in the directory of the first equal link list. */
  lemma TaskOfLink(urls: seq<seq<string>>, dirs: seq<string>, i: nat, server: string, cwd: string, file: string)
    requires i < |urls| && |urls[i]| > 0 && FirstIndex(urls, urls[i]) < |dirs|
    requires urls[i][0] == CreateDownloadLink(server, cwd, file)
    requires '/' !in file && |file| > 0
    ensures TaskAt(urls, dirs, i) ==
              Ok(Task(urls[i][0], dirs[FirstIndex(urls, urls[i])], file,
                      PathJoin(dirs[FirstIndex(urls, urls[i])], file)))
  {
    FilenameOfLink(server, cwd, file, "x");
  }

  /** The outcome of each link list's loop body, in order. */
  function Steps(urls: seq<seq<string>>, dirs: seq<string>): seq<Result<Task>>
  {
    seq(|urls|, i requires 0 <= i < |urls| => TaskAt(urls, dirs, i))
  }

  /** The values of the first `n` steps, up to the first failing step, and the
      exception of that step, if any. */
  function StopAtFailure<T>(steps: seq<Result<T>>, n: nat): (seq<T>, Option<Error>)
    requires n <= |steps|
  {
    if n == 0 then ([], None)
    else
      var (done, err) := StopAtFailure(steps, n - 1);
      if err.Some? then (done, err)
      else match steps[n - 1]
        case Fail(e) => (done, Some(e))
        case Ok(t) => (done + [t], None)
  }

  /** Once a step has failed, later steps change nothing. */
  lemma {:induction false} StopAtFailureSticks<T>(steps: seq<Result<T>>, n: nat)
    requires 0 < n <= |steps|
    requires StopAtFailure(steps, n).1.Some?
    ensures StopAtFailure(steps, |steps|) == StopAtFailure(steps, n)
    decreases |steps| - n
  {
    if n < |steps| {
      StopAtFailureSticks(steps, n + 1);
    }
  }

  /** Without a failure there is one value per step, in order; with one, the
      values are those of the steps before the failing step, whose exception
      it is. */
  lemma {:induction false} StopAtFailureMeaning<T>(steps: seq<Result<T>>, n: nat)
    requires n <= |steps|
    ensures |StopAtFailure(steps, n).0| <= n
    ensures forall i :: 0 <= i < |StopAtFailure(steps, n).0| ==> steps[i] == Ok(StopAtFailure(steps, n).0[i])
    ensures StopAtFailure(steps, n).1.None? ==> |StopAtFailure(steps, n).0| == n
    ensures StopAtFailure(steps, n).1.Some? ==>
              |StopAtFailure(steps, n).0| < n &&
              steps[|StopAtFailure(steps, n).0|] == Fail(StopAtFailure(steps, n).1.value)
  {
    if n > 0 {
      StopAtFailureMeaning(steps, n - 1);
      var done := StopAtFailure(steps, n - 1).0;
      if StopAtFailure(steps, n - 1).1.None? {
        match steps[n - 1]
        case Ok(t) =>
          assert StopAtFailure(steps, n) == (done + [t], None);
          assert forall i :: 0 <= i < |done| ==> (done + [t])[i] == done[i];
        case Fail(e) =>
          assert StopAtFailure(steps, n) == (done, Some(e));
      }
    }
  }

  /** The tasks submitted for the first `n` link lists, and the exception that
      ended the loop there, if any. Tasks submitted before it still run. */
  function PlanPrefix(urls: seq<seq<string>>, dirs: seq<string>, n: nat): (seq<Task>, Option<Error>)
    requires n <= |urls|
  {
    StopAtFailure(Steps(urls, dirs), n)
  }

  /** `download(urls, dest_dirs)` with the configured number of workers; a pool
      of no workers cannot be created. */
  function Plan(urls: seq<seq<string>>, dirs: seq<string>, maxWorkers: int): (seq<Task>, Option<Error>)
  {
    if maxWorkers <= 0 then ([], Some(ValueError)) else PlanPrefix(urls, dirs, |urls|)
  }

  /** The loop of `download`, submitting a task per link list. */
  method Download(urls: seq<seq<string>>, dirs: seq<string>, maxWorkers: int)
    returns (tasks: seq<Task>, err: Option<Error>)
    ensures (tasks, err) == Plan(urls, dirs, maxWorkers)
  {
    if maxWorkers <= 0 {
      return [], Some(ValueError);
    }
    tasks := [];
    for i := 0 to |urls|
      invariant PlanPrefix(urls, dirs, i) == (tasks, None)
    {
      var t := TaskAt(urls, dirs, i);
      assert Steps(urls, dirs)[i] == t;
      if t.Fail? {
        StopAtFailureSticks(Steps(urls, dirs), i + 1);
        return tasks, Some(t.error);
      }
      tasks := tasks + [t.value];
    }
    err := None;
  }

  /** Without an exception there is one task per link list, in order; with one,
      the tasks are those of the lists before the failing list, whose own task
      raised that exception. */
  lemma PlanPrefixMeaning(urls: seq<seq<string>>, dirs: seq<string>, n: nat)
    requires n <= |urls|
    ensures |PlanPrefix(urls, dirs, n).0| <= n
    ensures forall i :: 0 <= i < |PlanPrefix(urls, dirs, n).0| ==>
              TaskAt(urls, dirs, i) == Ok(PlanPrefix(urls, dirs, n).0[i])
    ensures PlanPrefix(urls, dirs, n).1.None? ==> |PlanPrefix(urls, dirs, n).0| == n
    ensures PlanPrefix(urls, dirs, n).1.Some? ==>
              |PlanPrefix(urls, dirs, n).0| < n &&
              TaskAt(urls, dirs, |PlanPrefix(urls, dirs, n).0|) == Fail(PlanPrefix(urls, dirs, n).1.value)
  {
    StopAtFailureMeaning(Steps(urls, dirs), n);
  }

  /** `download` as a whole: it raises exactly when there are no workers or
      some link list's task raises, and otherwise submits every task. */
  lemma PlanMeaning(urls: seq<seq<string>>, dirs: seq<string>, maxWorkers: int)
    ensures var (tasks, err) := Plan(urls, dirs, maxWorkers);
            |tasks| <= |urls| &&
            (forall i :: 0 <= i < |tasks| ==> TaskAt(urls, dirs, i) == Ok(tasks[i])) &&
            (err.None? <==> maxWorkers > 0 && forall i :: 0 <= i < |urls| ==> TaskAt(urls, dirs, i).Ok?) &&
            (err.None? ==> |tasks| == |urls|) &&
            (maxWorkers <= 0 ==> tasks == [] && err == Some(ValueError))
  {
    if maxWorkers > 0 {
      PlanPrefixMeaning(urls, dirs, |urls|);
    }
  }

  /** A link list equal to an earlier one gets the very same task: the same
      directory, file and path, so the image is fetched twice into one file. */
  lemma DuplicateSharesTask(urls: seq<seq<string>>, dirs: seq<string>, i: nat)
    requires i < |urls|
    ensures TaskAt(urls, dirs, i) == TaskAt(urls, dirs, FirstIndex(urls, urls[i]))
  {
    var j := FirstIndex(urls, urls[i]);
    assert FirstIndex(urls, urls[j]) == j;
  }

  /** A link list that occurs nowhere before goes to the directory at its own
      position; one without links raises. */
  lemma FirstOccurrenceOwnDir(urls: seq<seq<string>>, dirs: seq<string>, i: nat)
    requires i < |urls| && i < |dirs| && urls[i] !in urls[..i]
    ensures |urls[i]| > 0 ==> TaskAt(urls, dirs, i).Ok? && TaskAt(urls, dirs, i).value.destDir == dirs[i]
    ensures |urls[i]| == 0 ==> TaskAt(urls, dirs, i) == Fail(IndexError)
  {
    var j := FirstIndex(urls, urls[i]);
    assert urls[i] in urls[..j + 1];
    TaskAtMeaning(urls, dirs, i);
  }

  /** The filename of a resolved link is the file the resolver picked, and it
      is written inside the destination directory. */
  lemma FilenameOfLink(server: string, cwd: string, file: string, dir: string)
    requires '/' !in file && |file| > 0
    requires |dir| > 0 && dir[|dir| - 1] != '/'
    ensures LastPiece(CreateDownloadLink(server, cwd, file), '/') == file
    ensures PathJoin(dir, file) == dir + "/" + file
  {
    assert CreateDownloadLink(server, cwd, file) == "https://" + server + cwd + ['/'] + file;
    LastPieceAfter("https://" + server + cwd, '/', file);
  }

  // ---------------------------------------------------------------------------
  // The chunk loop
  // ---------------------------------------------------------------------------

  /** The size of each `response.read` request. */
  const ChunkSize: nat := 32768

  /** A body cut into reads of `ChunkSize` bytes, the last one shorter. */
  function ChunksOf(body: seq<bv8>): (r: seq<seq<bv8>>)
    ensures forall k :: 0 <= k < |r| ==> 0 < |r[k]| <= ChunkSize
    decreases |body|
  {
    if |body| == 0 then []
    else if |body| <= ChunkSize then [body]
    else [body[..ChunkSize]] + ChunksOf(body[ChunkSize..])
  }

  /** The reads put back together are the body. */
  lemma {:induction false} ChunksOfConcat(body: seq<bv8>)
    ensures Concat(ChunksOf(body)) == body
    decreases |body|
  {
    if |body| == 0 {
    } else if |body| <= ChunkSize {
      ConcatCons(body, []);
      assert body + [] == body;
    } else {
      ChunksOfConcat(body[ChunkSize..]);
      ConcatCons(body[..ChunkSize], ChunksOf(body[ChunkSize..]));
      assert body[..ChunkSize] + body[ChunkSize..] == body;
    }
  }

  /** The number of bytes in the first `k` reads of a body. */
  function PrefixBytes(body: seq<bv8>, k: nat): nat
  {
    if k * ChunkSize <= |body| then k * ChunkSize else |body|
  }

  /** One full read in front of `k - 1` more reads of the rest. */
  lemma PrefixBytesStep(body: seq<bv8>, k: nat)
    requires k > 0 && |body| > ChunkSize
    ensures PrefixBytes(body, k) == ChunkSize + PrefixBytes(body[ChunkSize..], k - 1)
  {
    assert k * ChunkSize == ChunkSize + (k - 1) * ChunkSize;
  }

  /** The first `k` reads of a long body: its first full read, then the first
      `k - 1` reads of the rest. */
  lemma ChunksOfTake(body: seq<bv8>, k: nat)
    requires |body| > ChunkSize && 0 < k <= |ChunksOf(body)|
    ensures ChunksOf(body)[..k] == [body[..ChunkSize]] + ChunksOf(body[ChunkSize..])[..k - 1]
  {
  }

  lemma JoinAtChunk(body: seq<bv8>, m: nat)
    requires ChunkSize + m <= |body|
    ensures body[..ChunkSize] + body[ChunkSize..][..m] == body[..ChunkSize + m]
  {
  }

  /** The first `k` reads hold the first `k * ChunkSize` bytes of the body. */
  lemma {:induction false} ChunksOfPrefix(body: seq<bv8>, k: nat)
    requires k <= |ChunksOf(body)|
    ensures Concat(ChunksOf(body)[..k]) == body[..PrefixBytes(body, k)]
    decreases |body|
  {
    var cs := ChunksOf(body);
    if k == 0 {
      assert cs[..0] == [];
    } else if |body| <= ChunkSize {
      assert cs[..k] == [body];
      ConcatCons(body, []);
      assert body + [] == body;
    } else {
      var rest := body[ChunkSize..];
      var m := PrefixBytes(rest, k - 1);
      ChunksOfPrefix(rest, k - 1);
      ChunksOfTake(body, k);
      ConcatCons(body[..ChunkSize], ChunksOf(rest)[..k - 1]);
      PrefixBytesStep(body, k);
      JoinAtChunk(body, m);
    }
  }

  /** How many reads the loop writes, looking from read `i` on: it ends at the
      first empty read (the end of the body) and right after the first read
      during which cancellation is seen (`cancel[k]` is the state of the
      event after read `k`). */
  function Processed(chunks: seq<seq<bv8>>, cancel: seq<bool>, i: nat): (n: nat)
    requires |cancel| == |chunks| && i <= |chunks|
    ensures i <= n <= |chunks|
    decreases |chunks| - i
  {
    if i == |chunks| || |chunks[i]| == 0 then i
    else if cancel[i] then i + 1
    else Processed(chunks, cancel, i + 1)
  }

  /** A progress bar: the number of bytes reported so far and whether it has
      been started. */
  class ProgressTask {
    const filename: string
    var completed: nat
    var started: bool

    constructor (filename: string)
      ensures this.filename == filename && completed == 0 && !started
    {
      this.filename := filename;
      completed := 0;
      started := false;
    }
  }

  /** A file opened for writing. */
  class DestFile {
    var data: seq<bv8>

    constructor ()
      ensures data == []
    {
      data := [];
    }
  }

  /** `copy_url`: open the file afresh, start the bar, then write each read and
      report its length until the body ends or cancellation is seen. */
  method CopyUrl(task: ProgressTask, chunks: seq<seq<bv8>>, cancel: seq<bool>) returns (dest: DestFile)
    requires |cancel| == |chunks|
    modifies task
    ensures fresh(dest)
    ensures dest.data == Concat(chunks[..Processed(chunks, cancel, 0)])
    ensures task.completed == old(task.completed) + |dest.data|
    ensures task.started
  {
    dest := new DestFile();
    task.started := true;
    var i := 0;
    assert chunks[..0] == [];
    while i < |chunks| && |chunks[i]| > 0
      invariant i <= |chunks| && Processed(chunks, cancel, i) == Processed(chunks, cancel, 0)
      invariant dest.data == Concat(chunks[..i])
      invariant task.completed == old(task.completed) + |dest.data|
      invariant task.started
      decreases |chunks| - i
    {
      dest.data := dest.data + chunks[i];
      task.completed := task.completed + |chunks[i]|;
      ConcatStep(chunks, i);
      i := i + 1;
      if cancel[i - 1] {
        return;
      }
    }
  }

  /** Without cancellation the whole body is written. */
  lemma {:induction false} NoCancelWritesAll(chunks: seq<seq<bv8>>, cancel: seq<bool>, i: nat)
    requires |cancel| == |chunks| && i <= |chunks|
    requires forall k :: 0 <= k < |chunks| ==> |chunks[k]| > 0 && !cancel[k]
    ensures Processed(chunks, cancel, i) == |chunks|
    decreases |chunks| - i
  {
    if i < |chunks| {
      NoCancelWritesAll(chunks, cancel, i + 1);
    }
  }

  /** Cancellation first seen after read `k` leaves exactly reads 0..k written. */
  lemma {:induction false} CancelAfterRead(chunks: seq<seq<bv8>>, cancel: seq<bool>, k: nat, i: nat)
    requires |cancel| == |chunks| && i <= k < |chunks|
    requires forall j :: 0 <= j <= k ==> |chunks[j]| > 0
    requires cancel[k] && forall j :: 0 <= j < k ==> !cancel[j]
    ensures Processed(chunks, cancel, i) == k + 1
    decreases k - i
  {
    if i < k {
      CancelAfterRead(chunks, cancel, k, i + 1);
    }
  }

  /** A body read in full-size chunks: without cancellation the file is the
      body, and cancellation seen first after read `k` leaves its first
      `(k + 1) * ChunkSize` bytes. */
  lemma CopyOfBody(body: seq<bv8>, cancel: seq<bool>, k: nat)
    requires |cancel| == |ChunksOf(body)|
    ensures (forall j :: 0 <= j < |cancel| ==> !cancel[j]) ==>
              Concat(ChunksOf(body)[..Processed(ChunksOf(body), cancel, 0)]) == body
    ensures k < |cancel| && cancel[k] && (forall j :: 0 <= j < k ==> !cancel[j]) ==>
              Concat(ChunksOf(body)[..Processed(ChunksOf(body), cancel, 0)])
                == body[..PrefixBytes(body, k + 1)]
  {
    var cs := ChunksOf(body);
    if forall j :: 0 <= j < |cancel| ==> !cancel[j] {
      NoCancelWritesAll(cs, cancel, 0);
      ChunksOfConcat(body);
      assert cs[..|cs|] == cs;
    }
    if k < |cancel| && cancel[k] && (forall j :: 0 <= j < k ==> !cancel[j]) {
      CancelAfterRead(cs, cancel, k, 0);
      ChunksOfPrefix(body, k + 1);
    }
  }
}
