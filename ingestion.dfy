/**
 * fetchUniqueTextSegmentsFromDirectory: list the folder, keep the eligible
 * files, run one extraction-and-splitting task per file and collect the
 * segments of the tasks that succeeded, in file order. The tasks are run
 * here one after another; the collecting loop is the source's own.
 */
module Ingestion {
  import opened Wrappers
  import opened Text
  import opened Domain
  import opened FileFormats

  /** What `Future.get` yields for one file task: its segments, or an exception. */
  datatype TaskOutcome = Done(segments: seq<Segment>) | Failed

  /** What one task adds to the corpus. */
  function Contribution(t: TaskOutcome): seq<Segment>
  {
    match t
    case Done(segs) => segs
    case Failed => []
  }

  /** The corpus the collecting loop builds from the first `|tasks|` outcomes. */
  function Successful(tasks: seq<TaskOutcome>): seq<Segment>
  {
    if tasks == [] then [] else Successful(tasks[..|tasks| - 1]) + Contribution(tasks[|tasks| - 1])
  }

  /** The loop over the futures: add every successful task's segments, log and skip the failed ones. */
  method CollectSegments(tasks: seq<TaskOutcome>) returns (all: seq<Segment>)
    ensures all == Successful(tasks)
  {
    all := [];
    for i := 0 to |tasks|
      invariant all == Successful(tasks[..i])
    {
      assert tasks[..i + 1][..i] == tasks[..i];
      match tasks[i] {
        case Done(segs) => all := all + segs;
        case Failed =>
      }
    }
    assert tasks[..|tasks|] == tasks;
  }

  /** Collecting two runs of tasks is collecting each and concatenating, in order. */
  lemma {:induction false} SuccessfulAppend(a: seq<TaskOutcome>, b: seq<TaskOutcome>)
    ensures Successful(a + b) == Successful(a) + Successful(b)
    decreases |b|
  {
    if b == [] {
      assert a + b == a;
    } else {
      var b', x := b[..|b| - 1], b[|b| - 1];
      assert b == b' + [x];
      assert a + b == (a + b') + [x];
      SuccessfulAppend(a, b');
      SuccessfulSnoc(a + b', x);
      SuccessfulSnoc(b', x);
      AppendAssociative(Successful(a), Successful(b'), Contribution(x));
    }
  }

  /** One more task adds its contribution at the end. */
  lemma SuccessfulSnoc(tasks: seq<TaskOutcome>, t: TaskOutcome)
    ensures Successful(tasks + [t]) == Successful(tasks) + Contribution(t)
  {
    var all := tasks + [t];
    assert all[..|all| - 1] == tasks;
  }

  /** A failed task contributes nothing and does not stop the tasks after it from being collected. */
  lemma FailureIsolated(before: seq<TaskOutcome>, after: seq<TaskOutcome>)
    ensures Successful(before + [Failed] + after) == Successful(before) + Successful(after)
  {
    var failed := before + [Failed];
    SuccessfulAppend(failed, after);
    assert failed[..|failed| - 1] == before;
    assert Successful(failed) == Successful(before);
  }

  /** A segment is in the corpus exactly when some successful task produced it. */
  lemma {:induction false} SuccessfulMembership(tasks: seq<TaskOutcome>, s: Segment)
    ensures s in Successful(tasks) <==>
              exists i :: 0 <= i < |tasks| && tasks[i].Done? && s in tasks[i].segments
  {
    if tasks != [] {
      var n := |tasks| - 1;
      SuccessfulMembership(tasks[..n], s);
      if s in Successful(tasks) && s !in Successful(tasks[..n]) {
        assert tasks[n].Done? && s in tasks[n].segments;
      }
      if exists i :: 0 <= i < |tasks| && tasks[i].Done? && s in tasks[i].segments {
        var i :| 0 <= i < |tasks| && tasks[i].Done? && s in tasks[i].segments;
        if i < n {
          assert tasks[..n][i] == tasks[i];
        }
      }
    }
  }

  /** The stream filter: regular files with a supported name, in listing order. */
  function EligibleFiles(entries: seq<DirEntry>): (files: seq<DirEntry>)
    ensures |files| <= |entries|
    ensures forall f :: f in files ==> f in entries && f.isRegularFile && IsSupportedFormat(f.fileName)
    ensures forall e :: e in entries && e.isRegularFile && IsSupportedFormat(e.fileName) ==> e in files
  {
    if entries == [] then []
    else
      var e := entries[0];
      (if e.isRegularFile && IsSupportedFormat(e.fileName) then [e] else []) + EligibleFiles(entries[1..])
  }

  /** Filtering keeps the listing order: it commutes with concatenation. */
  lemma {:induction false} EligibleFilesAppend(a: seq<DirEntry>, b: seq<DirEntry>)
    ensures EligibleFiles(a + b) == EligibleFiles(a) + EligibleFiles(b)
  {
    if a != [] {
      assert (a + b)[0] == a[0] && (a + b)[1..] == a[1..] + b;
      EligibleFilesAppend(a[1..], b);
    } else {
      assert a + b == b;
    }
  }

  /** One file task: extract the lines, join them with a space, tag with the file name and split. */
  function FileTask(env: Environment, f: DirEntry): TaskOutcome
  {
    var lines := ExtractContent(f.fileName, (k: ReaderKind) => env.read(f.path, k));
    match env.split(Document(Join(lines, " "), f.fileName))
    case Some(segs) => Done(segs)
    case None => Failed
  }

  function Tasks(env: Environment, files: seq<DirEntry>): (tasks: seq<TaskOutcome>)
    ensures |tasks| == |files|
    ensures forall i :: 0 <= i < |files| ==> tasks[i] == FileTask(env, files[i])
  {
    seq(|files|, i requires 0 <= i < |files| => FileTask(env, files[i]))
  }

  /**
   * The segments `fetchUniqueTextSegmentsFromDirectory(dir)` returns, or the
   * exception that escapes it: only an IOException is caught, so a folder
   * string `Paths.get` rejects and a listing that fails while it is read leave
   * the method.
   */
  function Corpus(env: Environment, dir: string): Result<seq<Segment>, Failure>
  {
    if !env.isValidPath(dir) then Err(InvalidPath)
    else
      match env.list(dir)
      case ListIoError => Ok([])
      case ListAborted => Err(ListingAborted)
      case Listed(entries) =>
        var files := EligibleFiles(entries);
        if files == [] then Ok([]) else Ok(Successful(Tasks(env, files)))
  }

  method FetchSegments(env: Environment, dir: string) returns (r: Result<seq<Segment>, Failure>)
    ensures r == Corpus(env, dir)
    ensures r.Err? <==> !env.isValidPath(dir) || env.list(dir).ListAborted?
    ensures r.Err? ==> r.error == InvalidPath || r.error == ListingAborted
    ensures env.isValidPath(dir) && env.list(dir).ListIoError? ==> r == Ok([])
  {
    if !env.isValidPath(dir) {
      return Err(InvalidPath);
    }
    match env.list(dir) {
      case ListIoError =>
        return Ok([]);
      case ListAborted =>
        return Err(ListingAborted);
      case Listed(entries) =>
        var files := EligibleFiles(entries);
        if |files| == 0 {
          return Ok([]);
        }
        var futures := Tasks(env, files);
        var segments := CollectSegments(futures);
        return Ok(segments);
    }
  }

  /** A listing with no eligible file, or one that throws an IOException, gives the empty corpus. */
  lemma EmptyCorpus(env: Environment, dir: string)
    requires env.isValidPath(dir)
    requires env.list(dir).ListIoError? || (env.list(dir).Listed? && EligibleFiles(env.list(dir).entries) == [])
    ensures Corpus(env, dir) == Ok([])
  {
  }

  /**
   * A segment is in the corpus exactly when an eligible file of the listing
   * had a successful task that produced it; failed files contribute nothing.
   */
  lemma CorpusMembership(env: Environment, dir: string, s: Segment)
    requires env.isValidPath(dir) && env.list(dir).Listed?
    ensures Corpus(env, dir).Ok?
    ensures s in Corpus(env, dir).value <==>
              exists f :: f in EligibleFiles(env.list(dir).entries) && FileTask(env, f).Done? && s in FileTask(env, f).segments
  {
    var files := EligibleFiles(env.list(dir).entries);
    var tasks := Tasks(env, files);
    assert Corpus(env, dir).value == Successful(tasks);
    SuccessfulMembership(tasks, s);
    if s in Corpus(env, dir).value {
      CorpusMemberHasFile(env, files, s);
    }
    if exists f :: f in files && FileTask(env, f).Done? && s in FileTask(env, f).segments {
      var f :| f in files && FileTask(env, f).Done? && s in FileTask(env, f).segments;
      FileContributes(env, files, f, s);
    }
  }

  lemma CorpusMemberHasFile(env: Environment, files: seq<DirEntry>, s: Segment)
    requires s in Successful(Tasks(env, files))
    ensures exists f :: f in files && FileTask(env, f).Done? && s in FileTask(env, f).segments
  {
    var tasks := Tasks(env, files);
    SuccessfulMembership(tasks, s);
    var i :| 0 <= i < |tasks| && tasks[i].Done? && s in tasks[i].segments;
    assert files[i] in files && tasks[i] == FileTask(env, files[i]);
  }

  lemma FileContributes(env: Environment, files: seq<DirEntry>, f: DirEntry, s: Segment)
    requires f in files && FileTask(env, f).Done? && s in FileTask(env, f).segments
    ensures s in Successful(Tasks(env, files))
  {
    var tasks := Tasks(env, files);
    SuccessfulMembership(tasks, s);
    var i :| 0 <= i < |files| && files[i] == f;
    assert tasks[i] == FileTask(env, f);
  }


  /** The example of a corrupt PDF next to a readable text file: only the text file's segments remain. */
  lemma OneFailingFileOneGood(env: Environment, dir: string, bad: DirEntry, good: DirEntry, segs: seq<Segment>)
    requires env.isValidPath(dir) && env.list(dir) == Listed([bad, good])
    requires bad.isRegularFile && IsSupportedFormat(bad.fileName) && FileTask(env, bad) == Failed
    requires good.isRegularFile && IsSupportedFormat(good.fileName) && FileTask(env, good) == Done(segs)
    ensures Corpus(env, dir) == Ok(segs)
  {
    var files := EligibleFiles([bad, good]);
    assert [bad, good][1..] == [good];
    assert EligibleFiles([good]) == [good];
    assert files == [bad, good];
    var tasks := Tasks(env, files);
    assert tasks == [Failed, Done(segs)];
    assert tasks[..1] == [Failed] && [Failed][..0] == [];
    assert Successful([Failed]) == [];
    assert Successful(tasks) == segs;
  }
}
