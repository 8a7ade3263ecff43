/**
 * `file_organizer.py`: class `FileOrganizer`, which scans a target
 * directory, sorts its files into category directories, records every move
 * for undo, and hands undo over to its `UndoManager`.
 */
module Organizer {
  import opened Wrappers
  import opened Paths
  import opened FileSystem
  import opened Ledger
  import opened Undo
  import opened Categories
  import opened OrganizeSpec

  /** The messages of `move_file_safely`. */
  datatype MoveMessage = MovedTo(name: string) | ErrorMoving(name: string)

  /** An entry of a category's `files` list. */
  datatype FileResult = Moved(name: string, finalPath: Path) | Failed(name: string, error: MoveMessage)

  /** `category_results` */
  datatype CategoryResult = CategoryResult(moved: nat, failed: nat, files: seq<FileResult>)

  /** The `results` dict of `organize_files`. */
  datatype Results = Results(
    totalFiles: nat, movedFiles: nat, failedFiles: nat,
    categories: seq<(string, CategoryResult)>, errors: seq<MoveMessage>)

  /** The messages of `organize_files`. */
  datatype OrganizeMessage =
    | TargetNotSet
    | NoFilesToOrganize
    | SuccessfullyOrganized(files: nat, categories: nat)
    | OrganizedWithFailures(moved: nat, failed: nat)
    | ErrorDuringOrganization

  /** One call `progress_callback(file_count, total_files, name)`. */
  datatype Notice = Notice(processed: nat, total: nat, name: string)

  /** Why `scan_directory` raises. */
  datatype ScanError = ScanTargetNotSet | CannotList

  /** Why `set_target_directory` raises. */
  datatype TargetError = DoesNotExist | NotADirectory

  /** The entry recorded for one file: where it went, or the error. */
  function Describe(source: Path, outcome: Option<Path>): FileResult {
    match outcome
    case Some(d) => Moved(NameOf(source), d)
    case None => Failed(NameOf(source), ErrorMoving(NameOf(source)))
  }

  /** The entries of a category's `files` list, one per file. */
  function Descriptions(files: seq<Path>, outs: seq<Option<Path>>): (r: seq<FileResult>)
    requires |outs| == |files|
    ensures |r| == |files| && forall j :: 0 <= j < |files| ==> r[j] == Describe(files[j], outs[j])
  {
    seq(|files|, j requires 0 <= j < |files| => Describe(files[j], outs[j]))
  }

  /** What one category's inner loop reports for the outcomes `outs` of its files. */
  function CategoryReport(files: seq<Path>, outs: seq<Option<Path>>): CategoryResult
    requires |outs| == |files|
  {
    CategoryResult(CountMoved(outs), |outs| - CountMoved(outs), Descriptions(files, outs))
  }

  /** The `categories` entry of the results, bucket by bucket. */
  function Report(bs: seq<Bucket>, outcomes: seq<Option<Path>>): (r: seq<(string, CategoryResult)>)
    requires |outcomes| == TotalFiles(bs)
    ensures |r| == |bs|
    decreases |bs|
  {
    if bs == [] then []
    else
      var front, b := bs[..|bs| - 1], bs[|bs| - 1];
      var k := TotalFiles(front);
      Report(front, outcomes[..k]) + [(b.category, CategoryReport(b.files, outcomes[k..]))]
  }

  /** The `errors` list: one message per failed file, in order. */
  function FailureMessages(files: seq<Path>, outs: seq<Option<Path>>): seq<MoveMessage>
    requires |outs| == |files|
    decreases |files|
  {
    if files == [] then []
    else
      var n := |files| - 1;
      FailureMessages(files[..n], outs[..n]) + if outs[n].None? then [ErrorMoving(NameOf(files[n]))] else []
  }

  /** The progress notices for `jobs`, numbered from 0. */
  function Notices(jobs: seq<Job>, total: nat): (r: seq<Notice>)
    ensures |r| == |jobs| && forall k :: 0 <= k < |jobs| ==> r[k] == Notice(k, total, NameOf(jobs[k].source))
  {
    seq(|jobs|, k requires 0 <= k < |jobs| => Notice(k, total, NameOf(jobs[k].source)))
  }

  /** `[file.name for file in files]` */
  function Names(files: seq<Path>): (r: seq<string>)
    ensures |r| == |files| && forall i :: 0 <= i < |files| ==> r[i] == NameOf(files[i])
  {
    seq(|files|, i requires 0 <= i < |files| => NameOf(files[i]))
  }

  /** The report of one more bucket. */
  lemma ReportSnoc(bs: seq<Bucket>, i: nat, outcomes: seq<Option<Path>>, outs: seq<Option<Path>>)
    requires i < |bs| && |outcomes| == TotalFiles(bs[..i]) && |outs| == |bs[i].files|
    ensures TotalFiles(bs[..i + 1]) == |outcomes + outs|
    ensures Report(bs[..i + 1], outcomes + outs)
            == Report(bs[..i], outcomes) + [(bs[i].category, CategoryReport(bs[i].files, outs))]
  {
    assert bs[..i + 1][..i] == bs[..i];
    var all := outcomes + outs;
    assert all[..|outcomes|] == outcomes;
    assert all[|outcomes|..] == outs;
  }

  /** One more file of a category extends its run of jobs. */
  lemma FileJobsSnoc(done: seq<Job>, files: seq<Path>, dir: Path, j: nat)
    requires j < |files|
    ensures done + FileJobs(files[..j + 1], dir) == (done + FileJobs(files[..j], dir)) + [Job(files[j], dir)]
  {
  }

  /** A call of `move_file_safely` that does what the run's next step says
      extends the run by that step. */
  lemma MoveStep(fsM: FS, sofar: seq<Job>, job: Job, run: Run, fs': FS, ops': seq<Record>, o: Option<Path>)
    requires RunJobs(fsM, sofar) == run
    requires (fs', o) == SafeMove(run.fs, job.source, job.dir)
    requires ops' == run.batch + if o.Some? then [Record(job.source, o.value, MoveKind)] else []
    ensures RunJobs(fsM, sofar + [job]) == Run(fs', ops', run.outcomes + [o])
  {
    RunSnoc(fsM, sofar, job);
  }

  /** The sources of a category's jobs are its files. */
  lemma SourcesAppend(done: seq<Job>, files: seq<Path>, dir: Path)
    ensures Sources(done + FileJobs(files, dir)) == Sources(done) + files
  {
    var l, r := Sources(done + FileJobs(files, dir)), Sources(done) + files;
    forall k | 0 <= k < |l|
      ensures l[k] == r[k]
    {
      if k >= |done| {
        assert (done + FileJobs(files, dir))[k] == Job(files[k - |done|], dir);
      }
    }
  }

  /** The notices of a category continue the numbering of those before it. */
  lemma NoticesAppend(done: seq<Job>, files: seq<Path>, dir: Path, total: nat)
    ensures Notices(done + FileJobs(files, dir), total) == Notices(done, total) + Announced(files, |done|, total)
  {
    var l, r := Notices(done + FileJobs(files, dir), total), Notices(done, total) + Announced(files, |done|, total);
    forall k | 0 <= k < |l|
      ensures l[k] == r[k]
    {
      if k >= |done| {
        assert (done + FileJobs(files, dir))[k] == Job(files[k - |done|], dir);
      }
    }
  }

  /** The progress notices of `files`, numbered from `first`. */
  function Announced(files: seq<Path>, first: nat, total: nat): (r: seq<Notice>)
    ensures |r| == |files|
    ensures forall j :: 0 <= j < |files| ==> r[j] == Notice(first + j, total, NameOf(files[j]))
  {
    seq(|files|, j requires 0 <= j < |files| => Notice(first + j, total, NameOf(files[j])))
  }

  /** The notice of one more file. */
  lemma AnnouncedSnoc(files: seq<Path>, first: nat, total: nat, j: nat)
    requires j < |files|
    ensures Announced(files[..j + 1], first, total)
            == Announced(files[..j], first, total) + [Notice(first + j, total, NameOf(files[j]))]
  {
  }

  /** Appending one outcome to the category's outcomes appends it to the run's. */
  lemma SnocAppend<T>(a: seq<T>, b: seq<T>, x: T)
    ensures a + (b + [x]) == (a + b) + [x] && (b + [x])[..|b|] == b
  {
  }

  /** The descriptions of one more file. */
  lemma DescriptionsSnoc(files: seq<Path>, outs: seq<Option<Path>>, j: nat)
    requires j < |files| && |outs| == j + 1
    ensures Descriptions(files[..j + 1], outs) == Descriptions(files[..j], outs[..j]) + [Describe(files[j], outs[j])]
  {
  }

  /** The bookkeeping of one more file of a category: its report entry,
      its failure message if any, and its progress notice. */
  lemma TallySnoc(files: seq<Path>, outs: seq<Option<Path>>, j: nat, first: nat, total: nat)
    requires j < |files| && |outs| == j + 1
    ensures var r := CategoryReport(files[..j], outs[..j]);
            CategoryReport(files[..j + 1], outs)
            == CategoryResult(r.moved + (if outs[j].Some? then 1 else 0), r.failed + (if outs[j].None? then 1 else 0),
                              r.files + [Describe(files[j], outs[j])])
    ensures FailureMessages(files[..j + 1], outs)
            == FailureMessages(files[..j], outs[..j]) + if outs[j].None? then [ErrorMoving(NameOf(files[j]))] else []
    ensures Announced(files[..j + 1], first, total)
            == Announced(files[..j], first, total) + [Notice(first + j, total, NameOf(files[j]))]
  {
    CategoryReportSnoc(files, outs, j);
    FailureMessagesSnoc(files, outs, j);
    AnnouncedSnoc(files, first, total, j);
  }

  /** The report of a category after one more file. */
  lemma CategoryReportSnoc(files: seq<Path>, outs: seq<Option<Path>>, j: nat)
    requires j < |files| && |outs| == j + 1
    ensures var r := CategoryReport(files[..j], outs[..j]);
            CategoryReport(files[..j + 1], outs)
            == CategoryResult(r.moved + (if outs[j].Some? then 1 else 0), r.failed + (if outs[j].None? then 1 else 0),
                              r.files + [Describe(files[j], outs[j])])
  {
    DescriptionsSnoc(files, outs, j);
  }

  /** The failure messages after one more file. */
  lemma FailureMessagesSnoc(files: seq<Path>, outs: seq<Option<Path>>, j: nat)
    requires j < |files| && |outs| == j + 1
    ensures FailureMessages(files[..j + 1], outs)
            == FailureMessages(files[..j], outs[..j]) + if outs[j].None? then [ErrorMoving(NameOf(files[j]))] else []
  {
    assert files[..j + 1][..j] == files[..j];
  }

  /** One more call of `move_file_safely` in a category extends the run. */
  lemma RunStepAt(fsM: FS, done: seq<Job>, files: seq<Path>, dir: Path, j: nat, outcomes: seq<Option<Path>>,
                  outs: seq<Option<Path>>, run: Run, fs': FS, ops': seq<Record>, o: Option<Path>)
    requires j < |files|
    requires RunJobs(fsM, done + FileJobs(files[..j], dir)) == run && run.outcomes == outcomes + outs
    requires (fs', o) == SafeMove(run.fs, files[j], dir)
    requires ops' == run.batch + if o.Some? then [Record(files[j], o.value, MoveKind)] else []
    ensures RunJobs(fsM, done + FileJobs(files[..j + 1], dir)) == Run(fs', ops', outcomes + (outs + [o]))
  {
    FileJobsSnoc(done, files, dir, j);
    MoveStep(fsM, done + FileJobs(files[..j], dir), Job(files[j], dir), run, fs', ops', o);
    SnocAppend(outcomes, outs, o);
  }

  /** One failure message per file that did not move. */
  lemma {:induction false} FailureMessagesCount(files: seq<Path>, outs: seq<Option<Path>>)
    requires |outs| == |files|
    ensures |FailureMessages(files, outs)| == |outs| - CountMoved(outs)
    decreases |files|
  {
    if files != [] {
      var n := |files| - 1;
      FailureMessagesCount(files[..n], outs[..n]);
    }
  }

  /** Where the files of bucket `i` sit among all the outcomes. */
  function Offset(bs: seq<Bucket>, i: nat): nat
    requires i <= |bs|
  {
    TotalFiles(bs[..i])
  }

  /** The report of bucket `i` is made from that bucket's own stretch of
      the outcomes. */
  lemma {:induction false} ReportAt(bs: seq<Bucket>, outcomes: seq<Option<Path>>, i: nat)
    requires |outcomes| == TotalFiles(bs) && i < |bs|
    ensures Offset(bs, i) + |bs[i].files| <= |outcomes|
    ensures Report(bs, outcomes)[i]
            == (bs[i].category,
                CategoryReport(bs[i].files, outcomes[Offset(bs, i)..Offset(bs, i) + |bs[i].files|]))
    decreases |bs|
  {
    var front := bs[..|bs| - 1];
    var k := TotalFiles(front);
    if i == |bs| - 1 {
      assert bs[..i] == front;
      assert outcomes[k..] == outcomes[k..k + |bs[i].files|];
    } else {
      assert front[..i] == bs[..i];
      ReportAt(front, outcomes[..k], i);
      assert outcomes[..k][Offset(front, i)..Offset(front, i) + |bs[i].files|]
             == outcomes[Offset(bs, i)..Offset(bs, i) + |bs[i].files|];
    }
  }

  /** The job of file `j` of bucket `i`. */
  lemma {:induction false} JobsAt(target: Path, bs: seq<Bucket>, i: nat, j: nat)
    requires i < |bs| && j < |bs[i].files|
    ensures Offset(bs, i) + j < |Jobs(target, bs)|
    ensures Jobs(target, bs)[Offset(bs, i) + j] == Job(bs[i].files[j], Child(target, bs[i].category))
    decreases |bs|
  {
    var front := bs[..|bs| - 1];
    if i == |bs| - 1 {
      assert bs[..i] == front;
    } else {
      assert front[..i] == bs[..i];
      JobsAt(target, front, i, j);
    }
  }

  /** Every job moves a file into a directory directly under the target. */
  lemma {:induction false} JobsDirs(target: Path, bs: seq<Bucket>)
    ensures forall k :: 0 <= k < |Jobs(target, bs)| ==>
              Jobs(target, bs)[k].dir.Child? && Jobs(target, bs)[k].dir.parent == target
    decreases |bs|
  {
    if bs != [] {
      JobsDirs(target, bs[..|bs| - 1]);
    }
  }

  /** The failure messages of two stretches of files. */
  lemma {:induction false} FailureMessagesAppend(a: seq<Path>, oa: seq<Option<Path>>, b: seq<Path>, ob: seq<Option<Path>>)
    requires |oa| == |a| && |ob| == |b|
    ensures FailureMessages(a + b, oa + ob) == FailureMessages(a, oa) + FailureMessages(b, ob)
    decreases |b|
  {
    if b == [] {
      assert a + b == a && oa + ob == oa;
    } else {
      var n := |b| - 1;
      assert (a + b)[..|a| + n] == a + b[..n];
      assert (oa + ob)[..|a| + n] == oa + ob[..n];
      FailureMessagesAppend(a, oa, b[..n], ob[..n]);
    }
  }

  /** Everything one `organize_files` call with a target produces, and
      the batch of moves it commits. */
  datatype Organized = Organized(
    fs: FS, success: bool, message: OrganizeMessage, results: Option<Results>,
    notices: seq<Notice>, batch: seq<Record>)

  /**
   * `organize_files` with target `target`, classification `classify` and
   * listing `listing`: a target that cannot be listed is an error;
   * otherwise the scan's buckets are organized.
   */
  function Organize(fs: FS, target: Path, classify: Path -> string, listing: seq<Path>): Organized {
    if !IsDir(fs, target) then Organized(fs, false, ErrorDuringOrganization, None, [], [])
    else OrganizeBuckets(fs, target, Bucketize(fs, classify, listing))
  }

  /** No bucket is a success with nothing done; a category directory that
      cannot be made is an error; otherwise the files are moved. */
  function OrganizeBuckets(fs: FS, target: Path, bs: seq<Bucket>): Organized {
    if bs == [] then Organized(fs, true, NoFilesToOrganize, None, [], [])
    else
      var prepared := CreateDirs(fs, target, CategoryNames(bs));
      if prepared.1.Some? then Organized(prepared.0, false, ErrorDuringOrganization, None, [], [])
      else Finish(prepared.0, target, bs)
  }

  /** The scan's jobs run on disk `fsM`, where the category directories
      are in place, and are reported. */
  function Finish(fsM: FS, target: Path, bs: seq<Bucket>): Organized {
    var jobs := Jobs(target, bs);
    Finished(bs, jobs, RunJobs(fsM, jobs))
  }

  /** What `organize_files` returns once the moves `jobs` of buckets `bs`
      have been made with the outcome `run`. */
  function Finished(bs: seq<Bucket>, jobs: seq<Job>, run: Run): Organized
    requires |run.outcomes| == TotalFiles(bs) && |jobs| == |run.outcomes|
  {
    var total, moved := TotalFiles(bs), CountMoved(run.outcomes);
    Organized(
      run.fs, true,
      if moved == total then SuccessfullyOrganized(moved, |bs|) else OrganizedWithFailures(moved, total - moved),
      Some(Results(total, moved, total - moved, Report(bs, run.outcomes), FailureMessages(Sources(jobs), run.outcomes))),
      Notices(jobs, total), run.batch)
  }

  /** What `Finished` yields, given the running totals, the report, the
      errors and the notices of the moves: the counts add up and the
      message says "successfully" exactly when nothing failed. */
  lemma FinishFrom(bs: seq<Bucket>, jobs: seq<Job>, run: Run, moved: nat, failed: nat,
                   report: seq<(string, CategoryResult)>, errors: seq<MoveMessage>, notices: seq<Notice>)
    requires |run.outcomes| == TotalFiles(bs) && |jobs| == |run.outcomes|
    requires moved == CountMoved(run.outcomes) && failed == TotalFiles(bs) - moved
    requires report == Report(bs, run.outcomes)
    requires errors == FailureMessages(Sources(jobs), run.outcomes)
    requires notices == Notices(jobs, TotalFiles(bs))
    ensures moved + failed == TotalFiles(bs)
    ensures Finished(bs, jobs, run)
            == Organized(run.fs, true,
                         if failed == 0 then SuccessfullyOrganized(moved, |bs|) else OrganizedWithFailures(moved, failed),
                         Some(Results(TotalFiles(bs), moved, failed, report, errors)), notices, run.batch)
  {
  }

  /** The entry for file `j` of bucket `i` in the report. */
  lemma ReportEntry(bs: seq<Bucket>, outcomes: seq<Option<Path>>, i: nat, j: nat)
    requires |outcomes| == TotalFiles(bs) && i < |bs| && j < |bs[i].files|
    ensures Offset(bs, i) + j < |outcomes|
    ensures |Report(bs, outcomes)[i].1.files| == |bs[i].files|
    ensures Report(bs, outcomes)[i].1.files[j] == Describe(bs[i].files[j], outcomes[Offset(bs, i) + j])
  {
    ReportAt(bs, outcomes, i);
  }

  /** Which way `organize_files` goes: results come only from a run of
      the jobs after every category directory was made; every other way
      out moves no file: the disk keeps every entry it had and gains at
      most the category directories made before a failure. */
  lemma OrganizeSteps(fs: FS, target: Path, classify: Path -> string, listing: seq<Path>)
    ensures var o := Organize(fs, target, classify, listing);
            var bs := Bucketize(fs, classify, listing);
            var prepared := CreateDirs(fs, target, CategoryNames(bs));
            && (o.results.Some? <==> IsDir(fs, target) && bs != [] && prepared.1.None?)
            && (o.results.Some? ==> o == Finish(prepared.0, target, bs))
            && (o.results.None? ==> Grows(fs, o.fs) && o.batch == [] && o.notices == [])
            && (!o.success ==> o.results.None?)
  {
  }

  /**
   * The results of `organize_files` add up: every scanned file is counted
   * once as moved or failed, each failure has its message, the summary
   * message says "successfully" exactly when nothing failed, there is one
   * progress notice per file, and the categories are the scan's, in order,
   * each listing its own files by name.
   */
  lemma OrganizeReport(fs: FS, target: Path, classify: Path -> string, listing: seq<Path>)
    ensures var o := Organize(fs, target, classify, listing);
            var bs := Bucketize(fs, classify, listing);
            o.results.Some? ==>
              var r := o.results.value;
              && r.totalFiles == TotalFiles(bs)
              && r.movedFiles + r.failedFiles == r.totalFiles
              && |r.errors| == r.failedFiles
              && (o.message.SuccessfullyOrganized? <==> r.failedFiles == 0)
              && |o.notices| == r.totalFiles
              && |r.categories| == |bs|
              && (forall i :: 0 <= i < |bs| ==>
                    && r.categories[i].0 == bs[i].category
                    && r.categories[i].1.moved + r.categories[i].1.failed == |bs[i].files|
                    && |r.categories[i].1.files| == |bs[i].files|
                    && forall j :: 0 <= j < |bs[i].files| ==> r.categories[i].1.files[j].name == NameOf(bs[i].files[j]))
  {
    var bs := Bucketize(fs, classify, listing);
    OrganizeSteps(fs, target, classify, listing);
    if IsDir(fs, target) && bs != [] && CreateDirs(fs, target, CategoryNames(bs)).1.None? {
      FinishReport(CreateDirs(fs, target, CategoryNames(bs)).0, target, bs);
    }
  }

  /** `OrganizeReport` for the run itself. */
  lemma FinishReport(fsM: FS, target: Path, bs: seq<Bucket>)
    ensures var o := Finish(fsM, target, bs);
            var r := o.results.value;
            && |r.errors| == r.failedFiles
            && (forall i :: 0 <= i < |bs| ==>
                  && r.categories[i].0 == bs[i].category
                  && r.categories[i].1.moved + r.categories[i].1.failed == |bs[i].files|
                  && |r.categories[i].1.files| == |bs[i].files|
                  && forall j :: 0 <= j < |bs[i].files| ==> r.categories[i].1.files[j].name == NameOf(bs[i].files[j]))
  {
    var jobs := Jobs(target, bs);
    var outcomes := RunJobs(fsM, jobs).outcomes;
    FailureMessagesCount(Sources(jobs), outcomes);
    forall i | 0 <= i < |bs|
      ensures CategoryFaithful(Report(bs, outcomes)[i], bs[i])
    {
      ReportCategoryAt(bs, outcomes, i);
    }
  }

  /** A report entry names bucket `b`'s category, counts each of its files
      once as moved or failed, and lists them by name in order. */
  ghost predicate CategoryFaithful(c: (string, CategoryResult), b: Bucket) {
    && c.0 == b.category
    && c.1.moved + c.1.failed == |b.files|
    && |c.1.files| == |b.files|
    && forall j :: 0 <= j < |b.files| ==> c.1.files[j].name == NameOf(b.files[j])
  }

  /** The report entry of bucket `i` is faithful to the bucket. */
  lemma ReportCategoryAt(bs: seq<Bucket>, outcomes: seq<Option<Path>>, i: nat)
    requires |outcomes| == TotalFiles(bs) && i < |bs|
    ensures CategoryFaithful(Report(bs, outcomes)[i], bs[i])
  {
    ReportAt(bs, outcomes, i);
  }

  /**
   * On a listing of an existing target, a scanned file is reported as
   * moved exactly when the system lets it be moved: the category
   * directories exist by then, and no move of one file gets in the way of
   * another's.
   */
  lemma OrganizeMovesAllowed(fs: FS, target: Path, classify: Path -> string, listing: seq<Path>)
    requires IsDir(fs, target) && IsListing(fs, target, listing)
    ensures var o := Organize(fs, target, classify, listing);
            var bs := Bucketize(fs, classify, listing);
            o.results.Some? ==>
              && |o.results.value.categories| == |bs|
              && forall i :: 0 <= i < |bs| ==>
                   MovedAsAllowed(o.results.value.categories[i].1.files, bs[i].files, fs.denied)
  {
    var bs := Bucketize(fs, classify, listing);
    var prepared := CreateDirs(fs, target, CategoryNames(bs));
    OrganizeSteps(fs, target, classify, listing);
    if bs != [] && prepared.1.None? {
      ScanJobsIndependent(fs, prepared.0, classify, target, listing);
      RunMovesAllowed(prepared.0, target, bs);
    }
  }

  /** `OrganizeMovesAllowed` for a run of independent jobs. */
  lemma RunMovesAllowed(fsM: FS, target: Path, bs: seq<Bucket>)
    requires Independent(fsM, Jobs(target, bs))
    ensures var report := Finish(fsM, target, bs).results.value.categories;
            |report| == |bs| && forall i :: 0 <= i < |bs| ==> MovedAsAllowed(report[i].1.files, bs[i].files, fsM.denied)
  {
    RunOutcomes(fsM, Jobs(target, bs));
    forall i | 0 <= i < |bs| {
      CategoryMovedAt(fsM, target, bs, i);
    }
  }

  /** The entries of a category report one per file, moved exactly when
      the file was not protected. */
  ghost predicate MovedAsAllowed(entries: seq<FileResult>, files: seq<Path>, denied: set<Path>) {
    |entries| == |files| && forall j :: 0 <= j < |files| ==> (entries[j].Moved? <==> files[j] !in denied)
  }

  /** A run whose every file moved exactly when it was not protected. */
  ghost predicate FollowsDenied(fsM: FS, jobs: seq<Job>) {
    forall k :: 0 <= k < |jobs| ==> (RunJobs(fsM, jobs).outcomes[k].Some? <==> jobs[k].source !in fsM.denied)
  }

  /** For independent jobs, name conflicts never make a move fail. */
  lemma RunOutcomes(fsM: FS, jobs: seq<Job>)
    requires Independent(fsM, jobs)
    ensures FollowsDenied(fsM, jobs)
  {
    forall k | 0 <= k < |jobs| {
      OutcomeAt(fsM, jobs, k);
    }
  }

  /** One category of a run whose files moved exactly when allowed. */
  lemma CategoryMovedAt(fsM: FS, target: Path, bs: seq<Bucket>, i: nat)
    requires FollowsDenied(fsM, Jobs(target, bs)) && i < |bs|
    ensures MovedAsAllowed(Report(bs, RunJobs(fsM, Jobs(target, bs)).outcomes)[i].1.files, bs[i].files, fsM.denied)
  {
    ReportAt(bs, RunJobs(fsM, Jobs(target, bs)).outcomes, i);
    forall j | 0 <= j < |bs[i].files|
      ensures Report(bs, RunJobs(fsM, Jobs(target, bs)).outcomes)[i].1.files[j].Moved? <==> bs[i].files[j] !in fsM.denied
    {
      EntryMovedAt(fsM, target, bs, i, j);
    }
  }

  /** File `j` of bucket `i` is reported moved exactly when it was not protected. */
  lemma EntryMovedAt(fsM: FS, target: Path, bs: seq<Bucket>, i: nat, j: nat)
    requires FollowsDenied(fsM, Jobs(target, bs)) && i < |bs| && j < |bs[i].files|
    ensures |Report(bs, RunJobs(fsM, Jobs(target, bs)).outcomes)[i].1.files| == |bs[i].files|
    ensures Report(bs, RunJobs(fsM, Jobs(target, bs)).outcomes)[i].1.files[j].Moved? <==> bs[i].files[j] !in fsM.denied
  {
    var jobs := Jobs(target, bs);
    var outcomes := RunJobs(fsM, jobs).outcomes;
    ReportEntry(bs, outcomes, i, j);
    JobsAt(target, bs, i, j);
    var k := Offset(bs, i) + j;
    assert outcomes[k].Some? <==> jobs[k].source !in fsM.denied;
  }

  /** Every outcome a move: the count is all of them. */
  lemma {:induction false} CountMovedAll(outcomes: seq<Option<Path>>)
    requires forall k :: 0 <= k < |outcomes| ==> outcomes[k].Some?
    ensures CountMoved(outcomes) == |outcomes|
    decreases |outcomes|
  {
    if outcomes != [] {
      CountMovedAll(outcomes[..|outcomes| - 1]);
    }
  }

  /**
   * When none of the listed files is protected, organizing an existing
   * target moves every scanned file: no failures, no error messages, and
   * the "successfully organized" summary.
   */
  lemma OrganizeUnprotectedSucceeds(fs: FS, target: Path, classify: Path -> string, listing: seq<Path>)
    requires IsDir(fs, target) && IsListing(fs, target, listing)
    requires forall p :: p in listing ==> p !in fs.denied
    ensures var o := Organize(fs, target, classify, listing);
            o.results.Some? ==>
              && o.results.value.failedFiles == 0 && o.results.value.errors == []
              && o.message == SuccessfullyOrganized(o.results.value.totalFiles, |Bucketize(fs, classify, listing)|)
  {
    var bs := Bucketize(fs, classify, listing);
    var prepared := CreateDirs(fs, target, CategoryNames(bs));
    OrganizeSteps(fs, target, classify, listing);
    if bs != [] && prepared.1.None? {
      ScanJobsIndependent(fs, prepared.0, classify, target, listing);
      JobsUnprotected(fs, prepared.0, classify, target, listing);
      FinishUnprotected(prepared.0, target, bs);
    }
  }

  /** No job of the scan moves a protected file when no listed file is. */
  lemma JobsUnprotected(fs: FS, fsM: FS, classify: Path -> string, target: Path, listing: seq<Path>)
    requires NoDuplicates(listing) && fsM.denied == fs.denied
    requires forall p :: p in listing ==> p !in fs.denied
    ensures var jobs := Jobs(target, Bucketize(fs, classify, listing));
            forall k :: 0 <= k < |jobs| ==> jobs[k].source !in fsM.denied
  {
    BucketsConsistent(fs, classify, listing);
    JobsFrom(fs, classify, listing, target, Bucketize(fs, classify, listing));
  }

  /** `OrganizeUnprotectedSucceeds` for the run itself: independent jobs
      whose files are all unprotected all move, and the summary says so. */
  lemma FinishUnprotected(fsM: FS, target: Path, bs: seq<Bucket>)
    requires Independent(fsM, Jobs(target, bs))
    requires forall k :: 0 <= k < |Jobs(target, bs)| ==> Jobs(target, bs)[k].source !in fsM.denied
    ensures var o := Finish(fsM, target, bs);
            && o.results.value.failedFiles == 0 && o.results.value.errors == []
            && o.message == SuccessfullyOrganized(o.results.value.totalFiles, |bs|)
  {
    var jobs := Jobs(target, bs);
    var outcomes := RunJobs(fsM, jobs).outcomes;
    RunOutcomes(fsM, jobs);
    CountMovedAll(outcomes);
    FailureMessagesCount(Sources(jobs), outcomes);
  }

  /**
   * Undoing an organization of an existing target restores it: when no
   * path inside a category directory is protected, replaying the recorded
   * batch backwards succeeds for every record, and afterwards every entry
   * the disk held before is back as it was; what remains new are
   * directories (the category directories).
   */
  lemma OrganizeThenUndo(fs: FS, target: Path, classify: Path -> string, listing: seq<Path>)
    requires IsDir(fs, target) && IsListing(fs, target, listing)
    requires forall p :: p in fs.denied && p.Child? && p.parent.Child? ==> p.parent.parent != target
    ensures var o := Organize(fs, target, classify, listing);
            var r := ReplayReversed(o.fs, o.batch, 0, 0);
            && r.successes == |o.batch| && r.errors == 0
            && Grows(fs, r.fs)
  {
    var bs := Bucketize(fs, classify, listing);
    var prepared := CreateDirs(fs, target, CategoryNames(bs));
    OrganizeSteps(fs, target, classify, listing);
    if bs != [] && prepared.1.None? {
      ScanJobsIndependent(fs, prepared.0, classify, target, listing);
      RunThenUndo(prepared.0, target, bs);
    }
  }

  /** `OrganizeThenUndo` for the run itself: undoing the batch of a run
      whose sources sit in directories gives back the disk it started from. */
  lemma RunThenUndo(fsM: FS, target: Path, bs: seq<Bucket>)
    requires forall k :: 0 <= k < |Jobs(target, bs)| ==> IsDir(fsM, Parent(Jobs(target, bs)[k].source))
    requires forall p :: p in fsM.denied && p.Child? && p.parent.Child? ==> p.parent.parent != target
    ensures var run := RunJobs(fsM, Jobs(target, bs));
            ReplayReversed(run.fs, run.batch, 0, 0) == Replay(fsM, |run.batch|, 0)
  {
    var jobs := Jobs(target, bs);
    var run := RunJobs(fsM, jobs);
    RunRedo(fsM, jobs);
    assert Redo(fsM, run.batch) == Some(run.fs);
    RunDestinations(fsM, jobs);
    JobsDirs(target, bs);
    BatchUnprotected(fsM.denied, target, jobs, run.batch);
    UndoReversesBatch(fsM, run.batch, 0, 0);
  }

  /** Every recorded move lands inside a directory directly under the
      target, so none lands on a protected path when nothing inside those
      directories is. */
  lemma BatchUnprotected(denied: set<Path>, target: Path, jobs: seq<Job>, batch: seq<Record>)
    requires forall i :: 0 <= i < |batch| ==> InSomeDir(jobs, batch[i].destination)
    requires forall k :: 0 <= k < |jobs| ==> jobs[k].dir.Child? && jobs[k].dir.parent == target
    requires forall p :: p in denied && p.Child? && p.parent.Child? ==> p.parent.parent != target
    ensures forall i :: 0 <= i < |batch| ==> batch[i].destination !in denied
  {
    forall i | 0 <= i < |batch|
      ensures batch[i].destination !in denied
    {
      var d := batch[i].destination;
      var k :| 0 <= k < |jobs| && jobs[k].dir == Parent(d);
      assert d.Child? && d.parent == jobs[k].dir;
    }
  }

  /** One more entry of the listing, scanned with the organizer's tables. */
  lemma ScanStep(fs: FS, custom: Table, defaults: Table, listing: seq<Path>, i: nat)
    requires i < |listing|
    ensures var classify, item := Classifier(custom, defaults), listing[i];
            Bucketize(fs, classify, listing[..i + 1])
            == if IsFile(fs, item) && !StartsWithDot(NameOf(item))
               then Put(Bucketize(fs, classify, listing[..i]), GetFileCategory(custom, defaults, item), item)
               else Bucketize(fs, classify, listing[..i])
  {
    BucketizeSnoc(fs, Classifier(custom, defaults), listing, i);
  }

  /** `categorized_files[category].append(file_path)`, the key first
      created with an empty list when it is missing. */
  method AppendToCategory(categorized: seq<Bucket>, category: string, item: Path) returns (r: seq<Bucket>)
    ensures r == Put(categorized, category, item)
  {
    PutSteps(categorized, category, item);
    r := categorized;
    var k := IndexOf(r, category);
    if k < 0 {
      r := r + [Bucket(category, [])];
      k := |r| - 1;
    }
    r := r[k := Bucket(category, r[k].files + [item])];
  }

  /** The bookkeeping for file `j` of a category once its move has
      ended with `o`: its progress notice, its report entry, and its
      failure message when it did not move. */
  method TallyMove(files: seq<Path>, j: nat, fileCount: nat, total: nat, result: CategoryResult,
                   errors: seq<MoveMessage>, notices: seq<Notice>, ghost outs: seq<Option<Path>>,
                   o: Option<Path>, message: MoveMessage)
    returns (result': CategoryResult, errors': seq<MoveMessage>, notices': seq<Notice>, ghost outs': seq<Option<Path>>)
    requires j < |files| && |outs| == j
    requires message == if o.Some? then MovedTo(NameOf(o.value)) else ErrorMoving(NameOf(files[j]))
    requires result == CategoryReport(files[..j], outs)
    requires errors == FailureMessages(files[..j], outs)
    requires notices == Announced(files[..j], fileCount, total)
    ensures outs' == outs + [o]
    ensures result' == CategoryReport(files[..j + 1], outs')
    ensures errors' == FailureMessages(files[..j + 1], outs')
    ensures notices' == Announced(files[..j + 1], fileCount, total)
  {
    var filePath := files[j];
    notices' := notices + [Notice(fileCount + j, total, NameOf(filePath))];
    if o.Some? {
      errors' := errors;
      result' := CategoryResult(result.moved + 1, result.failed, result.files + [Moved(NameOf(filePath), o.value)]);
    } else {
      errors' := errors + [message];
      result' := CategoryResult(result.moved, result.failed + 1, result.files + [Failed(NameOf(filePath), message)]);
    }
    outs' := outs + [o];
    assert outs'[..j] == outs;
    TallySnoc(files, outs', j, fileCount, total);
  }

  /** The bookkeeping of `organize_files` once bucket `ci` has been moved
      with outcomes `outs`: the running totals, its entry in the report,
      its failure messages and its progress notices join those before. */
  method TallyBucket(target: Path, bs: seq<Bucket>, ci: nat, totalFiles: nat, moved: nat, failed: nat,
                     categoryResults: seq<(string, CategoryResult)>, errors: seq<MoveMessage>, notices: seq<Notice>,
                     fileCount: nat, categoryResult: CategoryResult, categoryErrors: seq<MoveMessage>,
                     categoryNotices: seq<Notice>, ghost done: seq<Job>, ghost outcomes: seq<Option<Path>>,
                     ghost outs: seq<Option<Path>>)
    returns (moved': nat, failed': nat, categoryResults': seq<(string, CategoryResult)>, errors': seq<MoveMessage>,
             notices': seq<Notice>, fileCount': nat, ghost done': seq<Job>, ghost outcomes': seq<Option<Path>>)
    requires ci < |bs|
    requires done == Jobs(target, bs[..ci]) && fileCount == |done| && |outcomes| == |done|
    requires moved == CountMoved(outcomes) && failed == |outcomes| - moved
    requires categoryResults == Report(bs[..ci], outcomes)
    requires errors == FailureMessages(Sources(done), outcomes)
    requires notices == Notices(done, totalFiles)
    requires |outs| == |bs[ci].files|
    requires categoryResult == CategoryReport(bs[ci].files, outs)
    requires categoryErrors == FailureMessages(bs[ci].files, outs)
    requires categoryNotices == Announced(bs[ci].files, fileCount, totalFiles)
    ensures done' == done + BucketJobs(target, bs[ci]) && outcomes' == outcomes + outs
    ensures done' == Jobs(target, bs[..ci + 1]) && fileCount' == |done'| && |outcomes'| == |done'|
    ensures moved' == CountMoved(outcomes') && failed' == |outcomes'| - moved'
    ensures categoryResults' == Report(bs[..ci + 1], outcomes')
    ensures errors' == FailureMessages(Sources(done'), outcomes')
    ensures notices' == Notices(done', totalFiles)
  {
    var bucket := bs[ci];
    var dir := Child(target, bucket.category);
    JobsSnoc(target, bs, ci);
    ReportSnoc(bs, ci, outcomes, outs);
    CountMovedAppend(outcomes, outs);
    SourcesAppend(done, bucket.files, dir);
    FailureMessagesAppend(Sources(done), outcomes, bucket.files, outs);
    NoticesAppend(done, bucket.files, dir, totalFiles);
    moved' := moved + categoryResult.moved;
    failed' := failed + categoryResult.failed;
    errors' := errors + categoryErrors;
    notices' := notices + categoryNotices;
    categoryResults' := categoryResults + [(bucket.category, categoryResult)];
    fileCount' := fileCount + |bucket.files|;
    done' := done + BucketJobs(target, bucket);
    outcomes' := outcomes + outs;
  }

  class FileOrganizer {
    var targetDirectory: Option<Path>
    /** `custom_categories`, in insertion order. */
    var customCategories: Table
    /** The class attribute `FILE_CATEGORIES`. */
    const fileCategories: Table
    const undoManager: UndoManager

    constructor(targetDirectory: Option<Path>, undoManager: UndoManager)
      ensures this.targetDirectory == targetDirectory && this.undoManager == undoManager
      ensures customCategories == [] && fileCategories == FileCategories
    {
      this.targetDirectory := targetDirectory;
      this.undoManager := undoManager;
      customCategories := [];
      fileCategories := FileCategories;
    }

    /** The classification this organizer applies. */
    function Classify(): (Path -> string)
      reads this
    {
      Classifier(customCategories, fileCategories)
    }

    /** `set_target_directory`: the target is replaced even when the
        checks that follow then reject it. */
    method SetTargetDirectory(fs: FS, directory: Path) returns (error: Option<TargetError>)
      modifies this
      ensures targetDirectory == Some(directory)
      ensures customCategories == old(customCategories)
      ensures error == (if !Exists(fs, directory) then Some(DoesNotExist)
                        else if !IsDir(fs, directory) then Some(NotADirectory)
                        else None)
    {
      targetDirectory := Some(directory);
      if !Exists(fs, directory) {
        return Some(DoesNotExist);
      }
      if !IsDir(fs, directory) {
        return Some(NotADirectory);
      }
      return None;
    }

    /** `add_custom_category`: the category's extensions, each with a
        leading dot, replace any it had; the other categories keep theirs. */
    method AddCustomCategory(categoryName: string, extensions: seq<string>)
      modifies this
      ensures customCategories == Assign(old(customCategories), categoryName, NormalizeExtensions(extensions))
      ensures DistinctKeys(old(customCategories)) ==>
                && DistinctKeys(customCategories)
                && Lookup(customCategories, categoryName) == Some(NormalizeExtensions(extensions))
                && forall other :: other != categoryName ==>
                     Lookup(customCategories, other) == Lookup(old(customCategories), other)
      ensures targetDirectory == old(targetDirectory)
    {
      var normalized := NormalizeExtensions(extensions);
      if DistinctKeys(customCategories) {
        forall other {
          AssignLookup(customCategories, categoryName, normalized, other);
        }
      }
      customCategories := Assign(customCategories, categoryName, normalized);
    }

    /**
     * `scan_directory` over `listing`, the entries `iterdir` yields in its
     * order: fails when no target is set or the target cannot be listed,
     * and otherwise yields the buckets of the eligible entries.
     */
    method ScanDirectory(fs: FS, listing: seq<Path>) returns (r: Result<seq<Bucket>, ScanError>)
      ensures targetDirectory.None? ==> r == Failure(ScanTargetNotSet)
      ensures targetDirectory.Some? && !IsDir(fs, targetDirectory.value) ==> r == Failure(CannotList)
      ensures targetDirectory.Some? && IsDir(fs, targetDirectory.value) ==>
                r == Success(Bucketize(fs, Classify(), listing))
    {
      if targetDirectory.None? {
        return Failure(ScanTargetNotSet);
      }
      if !IsDir(fs, targetDirectory.value) {
        return Failure(CannotList);
      }
      var categorized: seq<Bucket> := [];
      var i := 0;
      while i < |listing|
        invariant 0 <= i <= |listing|
        invariant categorized == Bucketize(fs, Classifier(customCategories, fileCategories), listing[..i])
      {
        var item := listing[i];
        ScanStep(fs, customCategories, fileCategories, listing, i);
        if IsFile(fs, item) && !StartsWithDot(NameOf(item)) {
          var category := GetFileCategory(customCategories, fileCategories, item);
          categorized := AppendToCategory(categorized, category, item);
        }
        i := i + 1;
      }
      assert listing[..i] == listing;
      return Success(categorized);
    }

    /**
     * `create_category_directories`: `target/category` for each category in
     * order, created unless it is a directory already; stops with the
     * first path that cannot be made, keeping those made before it.
     */
    method CreateCategoryDirectories(fs: FS, categories: seq<string>) returns (fs': FS, r: Result<seq<Path>, Path>)
      requires targetDirectory.Some?
      ensures (fs', if r.Failure? then Some(r.error) else None)
              == CreateDirs(fs, targetDirectory.value, categories)
      ensures r.Success? ==> r.value == CategoryPaths(targetDirectory.value, categories)
    {
      var target := targetDirectory.value;
      fs' := fs;
      var created: seq<Path> := [];
      var i := 0;
      while i < |categories|
        invariant 0 <= i <= |categories|
        invariant CreateDirs(fs, target, categories[..i]) == (fs', None)
        invariant created == CategoryPaths(target, categories[..i])
      {
        var categoryPath := Child(target, categories[i]);
        assert categories[..i + 1][..i] == categories[..i];
        if !CanMkDir(fs', categoryPath) {
          CreateDirsStops(fs, target, categories, i + 1);
          return fs', Failure(categoryPath);
        }
        fs' := MkDir(fs', categoryPath);
        CategoryPathsSnoc(target, categories, i);
        created := created + [categoryPath];
        i := i + 1;
      }
      assert categories[..i] == categories;
      return fs', Success(created);
    }

    /**
     * `move_file_safely`: performs the safe move of `source` into
     * `destinationDir` (which never replaces an entry, see `SafeMoveSpec`);
     * on success records exactly one undo entry for it, on failure records
     * nothing.
     */
    method MoveFileSafely(fs: FS, source: Path, destinationDir: Path)
      returns (fs': FS, success: bool, message: MoveMessage, finalPath: Option<Path>)
      modifies undoManager
      ensures (fs', finalPath) == SafeMove(fs, source, destinationDir)
      ensures success <==> finalPath.Some?
      ensures message == if success then MovedTo(NameOf(finalPath.value)) else ErrorMoving(NameOf(source))
      ensures undoManager.currentOperations
              == old(undoManager.currentOperations) + if success then [Record(source, finalPath.value, MoveKind)] else []
    {
      var destination := Child(destinationDir, NameOf(source));
      if Exists(fs, destination) {
        destination := GetUniqueFilename(fs, destination);
      }
      if CanMove(fs, source, destination) {
        fs' := Move(fs, source, destination);
        undoManager.AddOperation(source, destination, MoveKind);
        return fs', true, MovedTo(NameOf(destination)), Some(destination);
      }
      return fs, false, ErrorMoving(NameOf(source)), None;
    }

    /**
     * `_get_unique_filename`: `stem_N suffix` beside `filepath` for the
     * smallest N >= 1 that is free. The name keeps its suffix unless it
     * ends in a dot.
     */
    method GetUniqueFilename(fs: FS, filepath: Path) returns (r: Path)
      ensures r == LowestFree(fs, filepath, "_")
      ensures !Exists(fs, r) && Parent(r) == Parent(filepath)
      ensures Suffix(NameOf(r)) == Suffix(NameOf(filepath))
              <==> !(|NameOf(filepath)| >= 2 && NameOf(filepath)[|NameOf(filepath)| - 1] == '.')
    {
      var counter := 1;
      ghost var n := FirstFree(fs, filepath, "_", 1);
      while true
        invariant 1 <= counter <= n
        decreases n - counter
      {
        var newPath := Candidate(filepath, "_", counter);
        if !Exists(fs, newPath) {
          FoundLowestFree(fs, filepath, "_", counter);
          LowestFreeSuffix(fs, filepath, "_");
          return newPath;
        }
        BelowFirstFree(fs, filepath, "_", counter);
        counter := counter + 1;
      }
    }

    /**
     * The inner loop of `organize_files` for one category: each file gets
     * a progress notice numbered from `fileCount`, then is moved into
     * `dir`. The ghost arguments say which run of jobs from disk `fsM`
     * the calls so far belong to; the run extends by this category's jobs.
     */
    method MoveCategory(fs: FS, files: seq<Path>, dir: Path, fileCount: nat, total: nat,
                        ghost fsM: FS, ghost done: seq<Job>, ghost outcomes: seq<Option<Path>>)
      returns (fs': FS, result: CategoryResult, errors: seq<MoveMessage>, notices: seq<Notice>,
               ghost outs: seq<Option<Path>>)
      modifies undoManager
      requires RunJobs(fsM, done) == Run(fs, undoManager.currentOperations, outcomes)
      ensures |outs| == |files|
      ensures RunJobs(fsM, done + FileJobs(files, dir)) == Run(fs', undoManager.currentOperations, outcomes + outs)
      ensures result == CategoryReport(files, outs)
      ensures errors == FailureMessages(files, outs)
      ensures notices == Announced(files, fileCount, total)
    {
      fs' := fs;
      result := CategoryResult(0, 0, []);
      errors, notices, outs := [], [], [];
      var j := 0;
      assert done + FileJobs(files[..j], dir) == done && outcomes + outs == outcomes;
      while j < |files|
        invariant 0 <= j <= |files| && |outs| == j
        invariant RunJobs(fsM, done + FileJobs(files[..j], dir)) == Run(fs', undoManager.currentOperations, outcomes + outs)
        invariant result == CategoryReport(files[..j], outs)
        invariant errors == FailureMessages(files[..j], outs)
        invariant notices == Announced(files[..j], fileCount, total)
      {
        fs', result, errors, notices, outs
          := MoveCategoryStep(fs', files, dir, j, fileCount, total, result, errors, notices, fsM, done, outcomes, outs);
        j := j + 1;
      }
      assert files[..j] == files;
    }

    /** One turn of `MoveCategory`'s loop: file `j` is announced, moved,
        and tallied. */
    method MoveCategoryStep(fs: FS, files: seq<Path>, dir: Path, j: nat, fileCount: nat, total: nat,
                            result: CategoryResult, errors: seq<MoveMessage>, notices: seq<Notice>,
                            ghost fsM: FS, ghost done: seq<Job>, ghost outcomes: seq<Option<Path>>,
                            ghost outs: seq<Option<Path>>)
      returns (fs': FS, result': CategoryResult, errors': seq<MoveMessage>, notices': seq<Notice>,
               ghost outs': seq<Option<Path>>)
      modifies undoManager
      requires j < |files| && |outs| == j
      requires RunJobs(fsM, done + FileJobs(files[..j], dir)) == Run(fs, undoManager.currentOperations, outcomes + outs)
      requires result == CategoryReport(files[..j], outs)
      requires errors == FailureMessages(files[..j], outs)
      requires notices == Announced(files[..j], fileCount, total)
      ensures |outs'| == j + 1
      ensures RunJobs(fsM, done + FileJobs(files[..j + 1], dir)) == Run(fs', undoManager.currentOperations, outcomes + outs')
      ensures result' == CategoryReport(files[..j + 1], outs')
      ensures errors' == FailureMessages(files[..j + 1], outs')
      ensures notices' == Announced(files[..j + 1], fileCount, total)
    {
      ghost var run := Run(fs, undoManager.currentOperations, outcomes + outs);
      var success, message, finalPath;
      fs', success, message, finalPath := MoveFileSafely(fs, files[j], dir);
      RunStepAt(fsM, done, files, dir, j, outcomes, outs, run, fs', undoManager.currentOperations, finalPath);
      result', errors', notices', outs' := TallyMove(files, j, fileCount, total, result, errors, notices, outs, finalPath, message);
    }

    /** One turn of `MoveBuckets`'s loop: bucket `ci` is moved into its
        directory and tallied. */
    method MoveBucketsStep(fs: FS, target: Path, categorized: seq<Bucket>, categoryDirs: seq<Path>, ci: nat,
                           totalFiles: nat, movedFiles: nat, failedFiles: nat,
                           categoryResults: seq<(string, CategoryResult)>, errors: seq<MoveMessage>,
                           notices: seq<Notice>, fileCount: nat,
                           ghost fsM: FS, ghost done: seq<Job>, ghost outcomes: seq<Option<Path>>)
      returns (fs': FS, movedFiles': nat, failedFiles': nat, categoryResults': seq<(string, CategoryResult)>,
               errors': seq<MoveMessage>, notices': seq<Notice>, fileCount': nat,
               ghost done': seq<Job>, ghost outcomes': seq<Option<Path>>)
      modifies undoManager
      requires ci < |categorized| && categoryDirs == CategoryPaths(target, CategoryNames(categorized))
      requires done == Jobs(target, categorized[..ci]) && fileCount == |done| && |outcomes| == |done|
      requires RunJobs(fsM, done) == Run(fs, undoManager.currentOperations, outcomes)
      requires movedFiles == CountMoved(outcomes) && failedFiles == |outcomes| - movedFiles
      requires categoryResults == Report(categorized[..ci], outcomes)
      requires errors == FailureMessages(Sources(done), outcomes)
      requires notices == Notices(done, totalFiles)
      ensures done' == Jobs(target, categorized[..ci + 1]) && fileCount' == |done'| && |outcomes'| == |done'|
      ensures RunJobs(fsM, done') == Run(fs', undoManager.currentOperations, outcomes')
      ensures movedFiles' == CountMoved(outcomes') && failedFiles' == |outcomes'| - movedFiles'
      ensures categoryResults' == Report(categorized[..ci + 1], outcomes')
      ensures errors' == FailureMessages(Sources(done'), outcomes')
      ensures notices' == Notices(done', totalFiles)
    {
      var bucket := categorized[ci];
      var categoryResult, categoryErrors, categoryNotices;
      ghost var outs;
      fs', categoryResult, categoryErrors, categoryNotices, outs
        := MoveCategory(fs, bucket.files, categoryDirs[ci], fileCount, totalFiles, fsM, done, outcomes);
      assert FileJobs(bucket.files, categoryDirs[ci]) == BucketJobs(target, bucket);
      movedFiles', failedFiles', categoryResults', errors', notices', fileCount', done', outcomes'
        := TallyBucket(target, categorized, ci, totalFiles, movedFiles, failedFiles, categoryResults, errors, notices,
                       fileCount, categoryResult, categoryErrors, categoryNotices, done, outcomes, outs);
    }

    /**
     * The outer loop of `organize_files`: the buckets in order, each into
     * its directory `categoryDirs[i]`, with the running totals, the
     * per-category reports, the failure messages and the progress notices.
     * The moves made, and only those, are added to the pending batch.
     */
    method MoveBuckets(fs: FS, target: Path, categorized: seq<Bucket>, categoryDirs: seq<Path>)
      returns (fs': FS, movedFiles: nat, failedFiles: nat, categoryResults: seq<(string, CategoryResult)>,
               errors: seq<MoveMessage>, notices: seq<Notice>)
      modifies undoManager
      requires categoryDirs == CategoryPaths(target, CategoryNames(categorized))
      requires undoManager.currentOperations == []
      ensures var jobs := Jobs(target, categorized);
              var run := RunJobs(fs, jobs);
              && fs' == run.fs && undoManager.currentOperations == run.batch
              && movedFiles == CountMoved(run.outcomes)
              && failedFiles == TotalFiles(categorized) - movedFiles
              && categoryResults == Report(categorized, run.outcomes)
              && errors == FailureMessages(Sources(jobs), run.outcomes)
              && notices == Notices(jobs, TotalFiles(categorized))
    {
      fs' := fs;
      var totalFiles := TotalFiles(categorized);
      movedFiles, failedFiles := 0, 0;
      categoryResults, errors, notices := [], [], [];
      var fileCount := 0;
      ghost var done: seq<Job> := [];
      ghost var outcomes: seq<Option<Path>> := [];
      var ci := 0;
      while ci < |categorized|
        invariant 0 <= ci <= |categorized|
        invariant done == Jobs(target, categorized[..ci]) && fileCount == |done| && |outcomes| == |done|
        invariant RunJobs(fs, done) == Run(fs', undoManager.currentOperations, outcomes)
        invariant movedFiles == CountMoved(outcomes) && failedFiles == |outcomes| - movedFiles
        invariant categoryResults == Report(categorized[..ci], outcomes)
        invariant errors == FailureMessages(Sources(done), outcomes)
        invariant notices == Notices(done, totalFiles)
      {
        fs', movedFiles, failedFiles, categoryResults, errors, notices, fileCount, done, outcomes
          := MoveBucketsStep(fs', target, categorized, categoryDirs, ci, totalFiles, movedFiles, failedFiles,
                             categoryResults, errors, notices, fileCount, fs, done, outcomes);
        ci := ci + 1;
      }
      assert categorized[..ci] == categorized;
    }

    /**
     * The rest of `organize_files` once the category directories
     * `categoryDirs` exist on disk `fs`: the buckets' files are moved and
     * reported, the batch is committed, and the message is chosen by
     * whether any move failed.
     */
    method MoveAndCommit(fs: FS, target: Path, categorized: seq<Bucket>, categoryDirs: seq<Path>, now: string)
      returns (fs': FS, success: bool, message: OrganizeMessage, results: Option<Results>, notices: seq<Notice>)
      modifies undoManager, undoManager.logger
      requires categoryDirs == CategoryPaths(target, CategoryNames(categorized))
      requires undoManager.currentOperations == []
      ensures var f := Finish(fs, target, categorized);
              && fs' == f.fs && success == f.success && message == f.message
              && results == f.results && notices == f.notices
              && undoManager.currentOperations == []
              && undoManager.logger.undoFile
                 == (if f.batch != [] then Some(Parsed(UndoData(now, f.batch))) else old(undoManager.logger.undoFile))
    {
      var totalFiles := TotalFiles(categorized);
      var movedFiles, failedFiles, categoryResults, errors;
      fs', movedFiles, failedFiles, categoryResults, errors, notices := MoveBuckets(fs, target, categorized, categoryDirs);
      ghost var jobs := Jobs(target, categorized);
      ghost var run := RunJobs(fs, jobs);
      FinishFrom(categorized, jobs, run, movedFiles, failedFiles, categoryResults, errors, notices);
      undoManager.CommitOperations(now);
      results := Some(Results(totalFiles, movedFiles, failedFiles, categoryResults, errors));
      if failedFiles == 0 {
        message := SuccessfullyOrganized(movedFiles, |categorized|);
      } else {
        message := OrganizedWithFailures(movedFiles, failedFiles);
      }
      success := true;
    }

    /**
     * `organize_files` on the entries `listing` of the target, with the
     * time `now` of the commit: without a target nothing happens; a target
     * that cannot be listed, or a category directory that cannot be made,
     * ends the call with an error and no commit; no eligible file ends it
     * successfully with no commit. Otherwise every file of every bucket is
     * moved as the run of the scan's jobs says, the results report that
     * run, and the moves made become the undo slot (an empty batch keeps
     * the previous one).
     */
    method OrganizeFiles(fs: FS, listing: seq<Path>, now: string)
      returns (fs': FS, success: bool, message: OrganizeMessage, results: Option<Results>, notices: seq<Notice>)
      modifies undoManager, undoManager.logger
      ensures targetDirectory.None? ==>
                && fs' == fs && !success && message == TargetNotSet && results == None && notices == []
                && undoManager.currentOperations == old(undoManager.currentOperations)
                && undoManager.logger.undoFile == old(undoManager.logger.undoFile)
      ensures targetDirectory.Some? ==>
                var o := Organize(fs, targetDirectory.value, Classifier(customCategories, fileCategories), listing);
                && fs' == o.fs && success == o.success && message == o.message
                && results == o.results && notices == o.notices
                && undoManager.currentOperations == []
                && undoManager.logger.undoFile
                   == (if o.batch != [] then Some(Parsed(UndoData(now, o.batch))) else old(undoManager.logger.undoFile))
    {
      if targetDirectory.None? {
        return fs, false, TargetNotSet, None, [];
      }
      var target := targetDirectory.value;
      ghost var classify := Classifier(customCategories, fileCategories);
      ghost var o := Organize(fs, target, classify, listing);
      ghost var bs := Bucketize(fs, classify, listing);
      undoManager.ClearCurrentOperations();
      var scanned := ScanDirectory(fs, listing);
      if scanned.Failure? {
        return fs, false, ErrorDuringOrganization, None, [];
      }
      var categorized := scanned.value;
      assert categorized == bs;
      if categorized == [] {
        return fs, true, NoFilesToOrganize, None, [];
      }
      var categories := CategoryNames(categorized);
      var created;
      fs', created := CreateCategoryDirectories(fs, categories);
      if created.Failure? {
        return fs', false, ErrorDuringOrganization, None, [];
      }
      var categoryDirs := created.value;
      assert o == Finish(fs', target, bs);
      fs', success, message, results, notices := MoveAndCommit(fs', target, categorized, categoryDirs, now);
    }

    /** `can_undo`: the stored batch can be undone when it holds a move. */
    function CanUndo(): (b: bool)
      reads this, undoManager, undoManager.logger
      ensures b <==> LoadedOperations(undoManager.logger.undoFile) != []
    {
      undoManager.CanUndo()
    }

    /** `undo_last_organization`: undoes the stored batch, last move first. */
    method UndoLastOrganization(fs: FS) returns (fs': FS, ok: bool, message: UndoMessage)
      modifies undoManager.logger
      ensures var ops := LoadedOperations(old(undoManager.logger.undoFile));
              && (ops == [] ==>
                    fs' == fs && !ok && message == NoOperationsToUndo
                    && undoManager.logger.undoFile == old(undoManager.logger.undoFile))
              && (ops != [] ==>
                    var r := ReplayReversed(fs, ops, 0, 0);
                    && fs' == r.fs && undoManager.logger.undoFile == None
                    && (ok <==> r.successes > 0)
                    && message == (if r.errors == 0 then SuccessfullyUndone(r.successes)
                                   else if r.successes > 0 then PartiallyUndone(r.successes, r.errors)
                                   else UndoFailed(r.errors)))
      ensures !CanUndo()
    {
      fs', ok, message := undoManager.UndoLastOperation(fs);
    }

    /**
     * `get_preview`: the categories a scan finds, in order, each with the
     * names of its files; nothing when the target is unset or cannot be
     * listed.
     */
    method GetPreview(fs: FS, listing: seq<Path>) returns (preview: seq<(string, seq<string>)>)
      ensures targetDirectory.None? || !IsDir(fs, targetDirectory.value) ==> preview == []
      ensures targetDirectory.Some? && IsDir(fs, targetDirectory.value) ==>
                var bs := Bucketize(fs, Classify(), listing);
                && |preview| == |bs|
                && forall k :: 0 <= k < |bs| ==>
                     preview[k].0 == bs[k].category && preview[k].1 == Names(bs[k].files)
    {
      if targetDirectory.None? {
        return [];
      }
      var scanned := ScanDirectory(fs, listing);
      if scanned.Failure? {
        return [];
      }
      var categorized := scanned.value;
      preview := [];
      var i := 0;
      while i < |categorized|
        invariant 0 <= i <= |categorized|
        invariant |preview| == i
        invariant forall k :: 0 <= k < i ==>
                    preview[k].0 == categorized[k].category && preview[k].1 == Names(categorized[k].files)
      {
        preview := preview + [(categorized[i].category, Names(categorized[i].files))];
        i := i + 1;
      }
    }
  }
}
