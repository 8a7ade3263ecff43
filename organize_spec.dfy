/**
 * What `FileOrganizer` computes, as functions on values: the buckets that
 * `scan_directory` builds, the directories `create_category_directories`
 * makes, where `move_file_safely` puts a file, and the whole sequence of
 * moves `organize_files` performs. The methods of the class are proved
 * against these.
 */
module OrganizeSpec {
  import opened Wrappers
  import opened Paths
  import opened FileSystem
  import opened Ledger
  import opened Categories
  import opened Undo

  /** A directory entry the scan picks up: a regular file whose name does
      not start with a dot. */
  predicate Eligible(fs: FS, p: Path) {
    IsFile(fs, p) && !StartsWithDot(NameOf(p))
  }

  /** One entry of `categorized_files`: a category and its files in
      discovery order. */
  datatype Bucket = Bucket(category: string, files: seq<Path>)

  /** Where category `c` sits among the buckets, or -1. */
  function IndexOf(bs: seq<Bucket>, c: string): (i: int)
    ensures -1 <= i < |bs|
    ensures i >= 0 ==> bs[i].category == c
    ensures i < 0 ==> forall j :: 0 <= j < |bs| ==> bs[j].category != c
    decreases |bs|
  {
    if bs == [] then -1
    else if bs[|bs| - 1].category == c then |bs| - 1
    else IndexOf(bs[..|bs| - 1], c)
  }

  ghost predicate DistinctCategories(bs: seq<Bucket>) {
    forall i, j :: 0 <= i < j < |bs| ==> bs[i].category != bs[j].category
  }

  ghost predicate NoDuplicates<T>(s: seq<T>) {
    forall i, j :: 0 <= i < j < |s| ==> s[i] != s[j]
  }

  /** `categorized_files[c].append(p)`, the key created first when missing. */
  function Put(bs: seq<Bucket>, c: string, p: Path): seq<Bucket> {
    var i := IndexOf(bs, c);
    if i >= 0 then bs[i := Bucket(c, bs[i].files + [p])] else bs + [Bucket(c, [p])]
  }

  /** `Put` done in place: a missing key is first created with an empty
      list, then the item is appended to the key's list. */
  lemma PutSteps(bs: seq<Bucket>, c: string, p: Path)
    ensures var k := IndexOf(bs, c);
            var grown := if k < 0 then bs + [Bucket(c, [])] else bs;
            var at := if k < 0 then |bs| else k;
            grown[at := Bucket(c, grown[at].files + [p])] == Put(bs, c, p)
  {
    assert [] + [p] == [p];
  }

  /** The buckets of the scan over the directory listing `items`. */
  function Bucketize(fs: FS, classify: Path -> string, items: seq<Path>): seq<Bucket>
    decreases |items|
  {
    if items == [] then []
    else
      var bs := Bucketize(fs, classify, items[..|items| - 1]);
      var p := items[|items| - 1];
      if Eligible(fs, p) then Put(bs, classify(p), p) else bs
  }

  /** The scan of one more entry of the listing. */
  lemma BucketizeSnoc(fs: FS, classify: Path -> string, items: seq<Path>, i: nat)
    requires i < |items|
    ensures Bucketize(fs, classify, items[..i + 1])
            == if Eligible(fs, items[i]) then Put(Bucketize(fs, classify, items[..i]), classify(items[i]), items[i])
               else Bucketize(fs, classify, items[..i])
  {
    assert items[..i + 1][..i] == items[..i];
  }

  /** The eligible items of category `c`, in listing order. */
  function Select(fs: FS, classify: Path -> string, items: seq<Path>, c: string): (r: seq<Path>)
    ensures forall q :: q in r <==> q in items && Eligible(fs, q) && classify(q) == c
    decreases |items|
  {
    if items == [] then []
    else
      var front := Select(fs, classify, items[..|items| - 1], c);
      var p := items[|items| - 1];
      assert items == items[..|items| - 1] + [p];
      if Eligible(fs, p) && classify(p) == c then front + [p] else front
  }

  /** Selecting from a listing without repeats yields no repeats. */
  lemma {:induction false} SelectNoDuplicates(fs: FS, classify: Path -> string, items: seq<Path>, c: string)
    requires NoDuplicates(items)
    ensures NoDuplicates(Select(fs, classify, items, c))
    decreases |items|
  {
    if items != [] {
      var front, p := items[..|items| - 1], items[|items| - 1];
      SelectNoDuplicates(fs, classify, front, c);
      assert p !in front;
      assert p !in Select(fs, classify, front, c);
    }
  }

  /** What the scan guarantees of buckets `bs` built from `items`. */
  ghost predicate BucketsOf(fs: FS, classify: Path -> string, items: seq<Path>, bs: seq<Bucket>) {
    && DistinctCategories(bs)
    && (forall i :: 0 <= i < |bs| ==>
          bs[i].files == Select(fs, classify, items, bs[i].category) && bs[i].files != [])
    && (forall p :: p in items && Eligible(fs, p) ==> IndexOf(bs, classify(p)) >= 0)
  }

  /**
   * The scan puts every eligible item in exactly one bucket, the one of
   * its category: categories are distinct, each bucket holds precisely the
   * eligible items of its category in listing order, and no bucket is empty.
   */
  lemma {:induction false} BucketizeSpec(fs: FS, classify: Path -> string, items: seq<Path>)
    ensures BucketsOf(fs, classify, items, Bucketize(fs, classify, items))
    decreases |items|
  {
    if items != [] {
      var front, p := items[..|items| - 1], items[|items| - 1];
      BucketizeSpec(fs, classify, front);
      assert forall q :: q in items <==> q in front || q == p;
      if Eligible(fs, p) {
        BucketizeStep(fs, classify, items);
      } else {
        forall c: string ensures Select(fs, classify, items, c) == Select(fs, classify, front, c) {
        }
      }
    }
  }

  /** Selecting from a listing one item longer. */
  lemma SelectSnoc(fs: FS, classify: Path -> string, items: seq<Path>, c: string)
    requires items != []
    ensures var p := items[|items| - 1];
            Select(fs, classify, items, c)
            == if Eligible(fs, p) && classify(p) == c
               then Select(fs, classify, items[..|items| - 1], c) + [p]
               else Select(fs, classify, items[..|items| - 1], c)
  {
  }

  /** The step of `BucketizeSpec` for an eligible last item. */
  lemma BucketizeStep(fs: FS, classify: Path -> string, items: seq<Path>)
    requires items != []
    requires BucketsOf(fs, classify, items[..|items| - 1], Bucketize(fs, classify, items[..|items| - 1]))
    requires Eligible(fs, items[|items| - 1])
    ensures BucketsOf(fs, classify, items, Bucketize(fs, classify, items))
  {
    BucketizeStepFiles(fs, classify, items);
    BucketizeLast(fs, classify, items);
    PutCovers(fs, classify, items[..|items| - 1], items[|items| - 1], Bucketize(fs, classify, items[..|items| - 1]));
  }

  lemma BucketizeStepFiles(fs: FS, classify: Path -> string, items: seq<Path>)
    requires items != []
    requires BucketsOf(fs, classify, items[..|items| - 1], Bucketize(fs, classify, items[..|items| - 1]))
    requires Eligible(fs, items[|items| - 1])
    ensures var bs := Bucketize(fs, classify, items);
            && DistinctCategories(bs)
            && forall i :: 0 <= i < |bs| ==>
                 bs[i].files == Select(fs, classify, items, bs[i].category) && bs[i].files != []
  {
    var bs0 := Bucketize(fs, classify, items[..|items| - 1]);
    forall i | 0 <= i < |bs0| {
      OldBucketStep(fs, classify, items, i);
    }
    if IndexOf(bs0, classify(items[|items| - 1])) < 0 {
      NewBucketStep(fs, classify, items);
    }
  }

  /** A bucket the scan already had gains the new item exactly when it is
      of that bucket's category. */
  lemma OldBucketStep(fs: FS, classify: Path -> string, items: seq<Path>, i: nat)
    requires items != []
    requires BucketsOf(fs, classify, items[..|items| - 1], Bucketize(fs, classify, items[..|items| - 1]))
    requires Eligible(fs, items[|items| - 1])
    requires i < |Bucketize(fs, classify, items[..|items| - 1])|
    ensures var bs0, bs := Bucketize(fs, classify, items[..|items| - 1]), Bucketize(fs, classify, items);
            && i < |bs| && bs[i].category == bs0[i].category
            && bs[i].files == Select(fs, classify, items, bs[i].category) && bs[i].files != []
  {
    SelectSnoc(fs, classify, items, Bucketize(fs, classify, items[..|items| - 1])[i].category);
  }

  /** An item of a category not seen before opens a bucket of its own. */
  lemma NewBucketStep(fs: FS, classify: Path -> string, items: seq<Path>)
    requires items != []
    requires BucketsOf(fs, classify, items[..|items| - 1], Bucketize(fs, classify, items[..|items| - 1]))
    requires Eligible(fs, items[|items| - 1])
    requires IndexOf(Bucketize(fs, classify, items[..|items| - 1]), classify(items[|items| - 1])) < 0
    ensures var bs0, bs := Bucketize(fs, classify, items[..|items| - 1]), Bucketize(fs, classify, items);
            var p := items[|items| - 1];
            && bs == bs0 + [Bucket(classify(p), [p])]
            && [p] == Select(fs, classify, items, classify(p))
  {
    var front, p := items[..|items| - 1], items[|items| - 1];
    var c := classify(p);
    SelectSnoc(fs, classify, items, c);
    assert forall q :: q in front && Eligible(fs, q) ==> classify(q) != c;
    SelectNone(fs, classify, front, c);
  }

  /** The scan of a listing whose last entry is eligible puts that entry. */
  lemma BucketizeLast(fs: FS, classify: Path -> string, items: seq<Path>)
    requires items != [] && Eligible(fs, items[|items| - 1])
    ensures items == items[..|items| - 1] + [items[|items| - 1]]
    ensures Bucketize(fs, classify, items)
            == Put(Bucketize(fs, classify, items[..|items| - 1]), classify(items[|items| - 1]), items[|items| - 1])
  {
  }

  /** A put keeps every category covered and covers the new item's. */
  lemma PutCovers(fs: FS, classify: Path -> string, front: seq<Path>, p: Path, bs: seq<Bucket>)
    requires forall q :: q in front && Eligible(fs, q) ==> IndexOf(bs, classify(q)) >= 0
    ensures forall q :: q in front + [p] && Eligible(fs, q) ==> IndexOf(Put(bs, classify(p), p), classify(q)) >= 0
  {
    forall q | q in front + [p] && Eligible(fs, q)
      ensures IndexOf(Put(bs, classify(p), p), classify(q)) >= 0
    {
      PutIndex(bs, classify(p), p, classify(q));
    }
  }

  /** After a put, the category put and every category there before have
      a bucket. */
  lemma PutIndex(bs: seq<Bucket>, c: string, p: Path, d: string)
    requires IndexOf(bs, d) >= 0 || d == c
    ensures IndexOf(Put(bs, c, p), d) >= 0
  {
    if IndexOf(bs, d) >= 0 {
      assert Put(bs, c, p)[IndexOf(bs, d)].category == d;
    } else {
      assert Put(bs, c, p)[|bs|].category == d;
    }
  }

  /** Nothing is selected when no eligible item is of the category. */
  lemma {:induction false} SelectNone(fs: FS, classify: Path -> string, items: seq<Path>, c: string)
    requires forall q :: q in items && Eligible(fs, q) ==> classify(q) != c
    ensures Select(fs, classify, items, c) == []
    decreases |items|
  {
    if items != [] {
      var front := items[..|items| - 1];
      assert forall q :: q in front ==> q in items;
      SelectNone(fs, classify, front, c);
    }
  }

  /** `sum(len(files) for files in categorized_files.values())` */
  function TotalFiles(bs: seq<Bucket>): nat
    decreases |bs|
  {
    if bs == [] then 0 else TotalFiles(bs[..|bs| - 1]) + |bs[|bs| - 1].files|
  }

  /** The category names, in bucket order: `list(categorized_files.keys())`. */
  function CategoryNames(bs: seq<Bucket>): (r: seq<string>)
    ensures |r| == |bs| && forall i :: 0 <= i < |bs| ==> r[i] == bs[i].category
  {
    seq(|bs|, i requires 0 <= i < |bs| => bs[i].category)
  }

  /** `target / category` for each category, in order. */
  function CategoryPaths(target: Path, categories: seq<string>): (r: seq<Path>)
    ensures |r| == |categories| && forall i :: 0 <= i < |categories| ==> r[i] == Child(target, categories[i])
  {
    seq(|categories|, i requires 0 <= i < |categories| => Child(target, categories[i]))
  }

  lemma CategoryPathsSnoc(target: Path, categories: seq<string>, i: nat)
    requires i < |categories|
    ensures CategoryPaths(target, categories[..i + 1]) == CategoryPaths(target, categories[..i]) + [Child(target, categories[i])]
  {
    assert categories[..i + 1][..i] == categories[..i];
  }

  /**
   * `create_category_directories`: `mkdir(exist_ok=True)` of each
   * `target/category` in order, stopping at the first one that cannot be
   * made; returns the disk and that path, if any.
   */
  function CreateDirs(fs: FS, target: Path, categories: seq<string>): (r: (FS, Option<Path>))
    ensures Grows(fs, r.0)
    ensures r.1.None? ==> forall i :: 0 <= i < |categories| ==> IsDir(r.0, Child(target, categories[i]))
    ensures forall p :: (forall i :: 0 <= i < |categories| ==> p != Child(target, categories[i])) ==>
              At(r.0, p) == At(fs, p)
    decreases |categories|
  {
    if categories == [] then (fs, None)
    else
      var (fs1, failed) := CreateDirs(fs, target, categories[..|categories| - 1]);
      var p := Child(target, categories[|categories| - 1]);
      if failed.Some? then (fs1, failed)
      else if CanMkDir(fs1, p) then (MkDir(fs1, p), None)
      else (fs1, Some(p))
  }

  /**
   * Directory creation fails exactly when one of the category paths is
   * taken by something that is not a directory or is refused by the
   * system, and then the path it names is such a one.
   */
  lemma {:induction false} CreateDirsFails(fs: FS, target: Path, categories: seq<string>)
    requires IsDir(fs, target)
    ensures CreateDirs(fs, target, categories).1.None? <==>
              forall i :: 0 <= i < |categories| ==> CanMkDir(fs, Child(target, categories[i]))
    ensures var failed := CreateDirs(fs, target, categories).1;
            failed.Some? ==> Parent(failed.value) == target && !CanMkDir(fs, failed.value)
    decreases |categories|
  {
    if categories != [] {
      var front := categories[..|categories| - 1];
      CreateDirsFails(fs, target, front);
      var (fs1, failed) := CreateDirs(fs, target, front);
      var p := Child(target, categories[|categories| - 1]);
      if failed.None? {
        assert IsDir(fs1, target);
        if exists i :: 0 <= i < |front| && p == Child(target, front[i]) {
          var i :| 0 <= i < |front| && p == Child(target, front[i]);
          assert IsDir(fs1, p);
        } else {
          assert At(fs1, p) == At(fs, p);
        }
        assert CanMkDir(fs1, p) <==> CanMkDir(fs, p);
      }
    }
  }

  /** Once a directory cannot be made, the later categories change nothing. */
  lemma {:induction false} CreateDirsStops(fs: FS, target: Path, categories: seq<string>, m: nat)
    requires m <= |categories| && CreateDirs(fs, target, categories[..m]).1.Some?
    ensures CreateDirs(fs, target, categories) == CreateDirs(fs, target, categories[..m])
    decreases |categories|
  {
    if m < |categories| {
      var front := categories[..|categories| - 1];
      assert front[..m] == categories[..m];
      CreateDirsStops(fs, target, front, m);
    } else {
      assert categories[..m] == categories;
    }
  }

  /** Where `move_file_safely` sends `source` within `dir`: its own name when
      that is free there, otherwise `stem_N suffix` for the smallest free N. */
  function SafeDestination(fs: FS, source: Path, dir: Path): (d: Path)
    ensures !Exists(fs, d) && Parent(d) == dir
    ensures !Exists(fs, Child(dir, NameOf(source))) ==> d == Child(dir, NameOf(source))
  {
    var plain := Child(dir, NameOf(source));
    if !Exists(fs, plain) then plain else LowestFree(fs, plain, "_")
  }

  /**
   * `move_file_safely` on the disk: the file goes to its safe destination
   * when the system lets it, and the destination is returned; otherwise
   * the disk is left alone and None is returned.
   */
  function SafeMove(fs: FS, source: Path, dir: Path): (FS, Option<Path>) {
    var d := SafeDestination(fs, source, dir);
    if CanMove(fs, source, d) then (Move(fs, source, d), Some(d)) else (fs, None)
  }

  /**
   * A safe move fails exactly when the file is not a regular file, the
   * system refuses to let it go, or the directory is missing; it never
   * replaces an entry, lands in the directory asked for under the file's
   * own name when that is free, and changes nothing else.
   */
  lemma SafeMoveSpec(fs: FS, source: Path, dir: Path)
    ensures var r := SafeMove(fs, source, dir);
            && (r.1.Some? <==> IsFile(fs, source) && source !in fs.denied && IsDir(fs, dir))
            && (r.1.None? ==> r.0 == fs)
            && (r.1.Some? ==>
                  && !Exists(fs, r.1.value) && Parent(r.1.value) == dir
                  && !Exists(r.0, source) && IsFile(r.0, r.1.value)
                  && r.0.entries[r.1.value] == fs.entries[source]
                  && (forall p :: p != source && p != r.1.value ==> At(r.0, p) == At(fs, p))
                  && (!Exists(fs, Child(dir, NameOf(source))) ==> r.1.value == Child(dir, NameOf(source))))
  {
  }

  /** One call of `move_file_safely`: a file and its category directory. */
  datatype Job = Job(source: Path, dir: Path)

  /** Moving each of `files` into `dir`, in order. */
  function FileJobs(files: seq<Path>, dir: Path): (r: seq<Job>)
    ensures |r| == |files|
  {
    seq(|files|, i requires 0 <= i < |files| => Job(files[i], dir))
  }

  function BucketJobs(target: Path, b: Bucket): (r: seq<Job>)
    ensures |r| == |b.files|
  {
    FileJobs(b.files, Child(target, b.category))
  }

  /** The moves of `organize_files`, category by category, file by file. */
  function Jobs(target: Path, bs: seq<Bucket>): (r: seq<Job>)
    ensures |r| == TotalFiles(bs)
    decreases |bs|
  {
    if bs == [] then [] else Jobs(target, bs[..|bs| - 1]) + BucketJobs(target, bs[|bs| - 1])
  }

  /** The jobs of one more bucket. */
  lemma JobsSnoc(target: Path, bs: seq<Bucket>, i: nat)
    requires i < |bs|
    ensures Jobs(target, bs[..i + 1]) == Jobs(target, bs[..i]) + BucketJobs(target, bs[i])
    ensures TotalFiles(bs[..i + 1]) == TotalFiles(bs[..i]) + |bs[i].files|
  {
    assert bs[..i + 1][..i] == bs[..i];
  }

  /** How many of the outcomes are moves. */
  function CountMoved(outcomes: seq<Option<Path>>): (n: nat)
    ensures n <= |outcomes|
    decreases |outcomes|
  {
    if outcomes == [] then 0
    else CountMoved(outcomes[..|outcomes| - 1]) + if outcomes[|outcomes| - 1].Some? then 1 else 0
  }

  /** The disk after a sequence of moves, the undo records of those that
      happened, and per job where the file went or None for a failure. */
  datatype Run = Run(fs: FS, batch: seq<Record>, outcomes: seq<Option<Path>>)

  ghost predicate InSomeDir(jobs: seq<Job>, p: Path) {
    exists k :: 0 <= k < |jobs| && jobs[k].dir == Parent(p)
  }

  /** The jobs performed in order, each one moving its file to its safe
      destination when the system allows it and failing otherwise. */
  function RunJobs(fs: FS, jobs: seq<Job>): (r: Run)
    ensures |r.outcomes| == |jobs| && |r.batch| == CountMoved(r.outcomes)
    ensures r.fs.denied == fs.denied
    decreases |jobs|
  {
    if jobs == [] then Run(fs, [], [])
    else
      var before := RunJobs(fs, jobs[..|jobs| - 1]);
      var job := jobs[|jobs| - 1];
      var d := SafeDestination(before.fs, job.source, job.dir);
      if CanMove(before.fs, job.source, d) then
        Run(Move(before.fs, job.source, d),
            before.batch + [Record(job.source, d, MoveKind)],
            before.outcomes + [Some(d)])
      else
        Run(before.fs, before.batch, before.outcomes + [None])
  }

  /** Counting moves over two stretches of outcomes. */
  lemma {:induction false} CountMovedAppend(a: seq<Option<Path>>, b: seq<Option<Path>>)
    ensures CountMoved(a + b) == CountMoved(a) + CountMoved(b)
    decreases |b|
  {
    if b == [] {
      assert a + b == a;
    } else {
      assert (a + b)[..|a + b| - 1] == a + b[..|b| - 1];
      CountMovedAppend(a, b[..|b| - 1]);
    }
  }

  /** The run of one more job. */
  lemma RunSnoc(fs: FS, jobs: seq<Job>, job: Job)
    ensures var before := RunJobs(fs, jobs);
            var d := SafeDestination(before.fs, job.source, job.dir);
            RunJobs(fs, jobs + [job])
            == if CanMove(before.fs, job.source, d) then
                 Run(Move(before.fs, job.source, d),
                     before.batch + [Record(job.source, d, MoveKind)],
                     before.outcomes + [Some(d)])
               else Run(before.fs, before.batch, before.outcomes + [None])
  {
    assert (jobs + [job])[..|jobs|] == jobs;
  }

  /** A directory stays a directory while the jobs run. */
  lemma {:induction false} RunKeepsDirs(fs: FS, jobs: seq<Job>, p: Path)
    requires IsDir(fs, p)
    ensures IsDir(RunJobs(fs, jobs).fs, p)
    decreases |jobs|
  {
    if jobs != [] {
      RunKeepsDirs(fs, jobs[..|jobs| - 1], p);
    }
  }

  /** Every recorded move is a `"move"` into one of the jobs' directories. */
  lemma {:induction false} RunDestinations(fs: FS, jobs: seq<Job>)
    ensures forall i :: 0 <= i < |RunJobs(fs, jobs).batch| ==>
              RunJobs(fs, jobs).batch[i].kind == MoveKind
              && InSomeDir(jobs, RunJobs(fs, jobs).batch[i].destination)
    decreases |jobs|
  {
    if jobs != [] {
      var front, job := jobs[..|jobs| - 1], jobs[|jobs| - 1];
      RunDestinations(fs, front);
      var before := RunJobs(fs, front);
      var r := RunJobs(fs, jobs);
      var d := SafeDestination(before.fs, job.source, job.dir);
      assert r.batch == before.batch || r.batch == before.batch + [Record(job.source, d, MoveKind)];
      forall i | 0 <= i < |r.batch|
        ensures r.batch[i].kind == MoveKind && InSomeDir(jobs, r.batch[i].destination)
      {
        if i < |before.batch| {
          assert r.batch[i] == before.batch[i];
          assert InSomeDir(front, before.batch[i].destination);
          var k :| 0 <= k < |front| && front[k].dir == Parent(before.batch[i].destination);
          assert jobs[k] == front[k];
        } else {
          assert r.batch[i] == Record(job.source, d, MoveKind);
          assert jobs[|jobs| - 1].dir == Parent(d);
        }
      }
    }
  }

  /** The recorded batch, performed from the starting disk, leads to the
      disk the run ends with; this is what makes it undoable. */
  lemma {:induction false} RunRedo(fs: FS, jobs: seq<Job>)
    requires forall k :: 0 <= k < |jobs| ==> IsDir(fs, Parent(jobs[k].source))
    ensures Redo(fs, RunJobs(fs, jobs).batch) == Some(RunJobs(fs, jobs).fs)
    decreases |jobs|
  {
    if jobs != [] {
      var front, job := jobs[..|jobs| - 1], jobs[|jobs| - 1];
      RunRedo(fs, front);
      var before := RunJobs(fs, front);
      var d := SafeDestination(before.fs, job.source, job.dir);
      if CanMove(before.fs, job.source, d) {
        RunKeepsDirs(fs, front, Parent(job.source));
        RedoSnoc(fs, before.batch, Record(job.source, d, MoveKind));
      }
    }
  }

  /** An entry that is no job's source and not inside any job's directory
      is left as it was. */
  lemma {:induction false} RunKeeps(fs: FS, jobs: seq<Job>, p: Path)
    requires p in fs.entries
    requires forall k :: 0 <= k < |jobs| ==> jobs[k].source != p && jobs[k].dir != Parent(p)
    ensures At(RunJobs(fs, jobs).fs, p) == At(fs, p)
    decreases |jobs|
  {
    if jobs != [] {
      var front, job := jobs[..|jobs| - 1], jobs[|jobs| - 1];
      RunKeeps(fs, front, p);
      var before := RunJobs(fs, front);
      var d := SafeDestination(before.fs, job.source, job.dir);
      assert d != p;
    }
  }

  /** The outcomes of a prefix of the jobs are a prefix of the outcomes. */
  lemma {:induction false} RunPrefix(fs: FS, jobs: seq<Job>, m: nat)
    requires m <= |jobs|
    ensures RunJobs(fs, jobs[..m]).outcomes == RunJobs(fs, jobs).outcomes[..m]
    decreases |jobs|
  {
    if m < |jobs| {
      var front := jobs[..|jobs| - 1];
      assert front[..m] == jobs[..m];
      RunPrefix(fs, front, m);
    } else {
      assert jobs[..m] == jobs;
    }
  }

  /** Jobs that do not get in each other's way: distinct regular files as
      sources, existing target directories, and no target directory that
      holds a source. */
  ghost predicate Independent(fs: FS, jobs: seq<Job>) {
    && (forall i, j :: 0 <= i < j < |jobs| ==> jobs[i].source != jobs[j].source)
    && (forall k :: 0 <= k < |jobs| ==> IsFile(fs, jobs[k].source) && IsDir(fs, jobs[k].dir))
    && (forall k, l :: 0 <= k < |jobs| && 0 <= l < |jobs| ==> jobs[k].dir != Parent(jobs[l].source))
  }

  /** For independent jobs, a file fails to move exactly when the system
      refuses to let it go: name conflicts never cause a failure. */
  lemma OutcomeAt(fs: FS, jobs: seq<Job>, k: nat)
    requires Independent(fs, jobs) && k < |jobs|
    ensures RunJobs(fs, jobs).outcomes[k].Some? <==> jobs[k].source !in fs.denied
  {
    var job := jobs[k];
    var pre := jobs[..k];
    RunKeeps(fs, pre, job.source);
    RunKeepsDirs(fs, pre, job.dir);
    var before := RunJobs(fs, pre);
    assert IsFile(before.fs, job.source) && IsDir(before.fs, job.dir);
    assert jobs[..k + 1][..k] == pre;
    RunPrefix(fs, jobs, k + 1);
  }

  /** Every file of every bucket is an eligible item of the bucket's category. */
  ghost predicate Consistent(fs: FS, classify: Path -> string, items: seq<Path>, bs: seq<Bucket>) {
    forall i, q :: 0 <= i < |bs| && q in bs[i].files ==>
      q in items && Eligible(fs, q) && classify(q) == bs[i].category
  }

  /** The scan's buckets are consistent and repeat no file. */
  lemma BucketsConsistent(fs: FS, classify: Path -> string, items: seq<Path>)
    requires NoDuplicates(items)
    ensures var bs := Bucketize(fs, classify, items);
            && Consistent(fs, classify, items, bs)
            && forall i :: 0 <= i < |bs| ==> NoDuplicates(bs[i].files)
  {
    var bs := Bucketize(fs, classify, items);
    BucketizeSpec(fs, classify, items);
    forall i | 0 <= i < |bs|
      ensures NoDuplicates(bs[i].files)
    {
      SelectNoDuplicates(fs, classify, items, bs[i].category);
    }
  }

  /** Each job moves an eligible item into the directory of its category. */
  lemma {:induction false} JobsFrom(fs: FS, classify: Path -> string, items: seq<Path>, target: Path, bs: seq<Bucket>)
    requires Consistent(fs, classify, items, bs)
    ensures forall k :: 0 <= k < |Jobs(target, bs)| ==>
              && Jobs(target, bs)[k].source in items && Eligible(fs, Jobs(target, bs)[k].source)
              && Jobs(target, bs)[k].dir == Child(target, classify(Jobs(target, bs)[k].source))
    decreases |bs|
  {
    if bs != [] {
      var front, b := bs[..|bs| - 1], bs[|bs| - 1];
      JobsFrom(fs, classify, items, target, front);
      var j0 := Jobs(target, front);
      forall k | |j0| <= k < |Jobs(target, bs)|
        ensures && Jobs(target, bs)[k].source in items && Eligible(fs, Jobs(target, bs)[k].source)
                && Jobs(target, bs)[k].dir == Child(target, classify(Jobs(target, bs)[k].source))
      {
        assert Jobs(target, bs)[k] == Job(b.files[k - |j0|], Child(target, b.category));
        assert b.files[k - |j0|] in b.files;
      }
    }
  }

  /** No job goes to the directory of a category that has no bucket. */
  lemma {:induction false} JobsAvoid(target: Path, bs: seq<Bucket>, c: string)
    requires forall i :: 0 <= i < |bs| ==> bs[i].category != c
    ensures forall k :: 0 <= k < |Jobs(target, bs)| ==> Jobs(target, bs)[k].dir != Child(target, c)
    decreases |bs|
  {
    if bs != [] {
      JobsAvoid(target, bs[..|bs| - 1], c);
    }
  }

  /** Consistent buckets of distinct categories, each without repeats, give
      jobs with distinct sources. */
  lemma {:induction false} JobsDistinct(fs: FS, classify: Path -> string, items: seq<Path>, target: Path, bs: seq<Bucket>)
    requires Consistent(fs, classify, items, bs) && DistinctCategories(bs)
    requires forall i :: 0 <= i < |bs| ==> NoDuplicates(bs[i].files)
    ensures NoDuplicates(Sources(Jobs(target, bs)))
    decreases |bs|
  {
    if bs != [] {
      var front, b := bs[..|bs| - 1], bs[|bs| - 1];
      JobsDistinct(fs, classify, items, target, front);
      JobsFrom(fs, classify, items, target, front);
      JobsAvoid(target, front, b.category);
      var j0, jb, js := Jobs(target, front), BucketJobs(target, b), Jobs(target, bs);
      forall i, j | 0 <= i < j < |js|
        ensures Sources(js)[i] != Sources(js)[j]
      {
        if j < |j0| {
          assert Sources(j0)[i] != Sources(j0)[j];
        } else if |j0| <= i {
          assert b.files[i - |j0|] != b.files[j - |j0|];
        } else {
          assert b.files[j - |j0|] in b.files;
          assert js[i] == j0[i];
        }
      }
    }
  }

  /** The files the jobs move, in order. */
  function Sources(jobs: seq<Job>): (r: seq<Path>)
    ensures |r| == |jobs| && forall k :: 0 <= k < |jobs| ==> r[k] == jobs[k].source
  {
    seq(|jobs|, k requires 0 <= k < |jobs| => jobs[k].source)
  }

  /**
   * The jobs of a scan of directory `target`, run after the category
   * directories exist, are independent, and every source sits in a
   * directory.
   */
  lemma ScanJobsIndependent(fs: FS, fsM: FS, classify: Path -> string, target: Path, listing: seq<Path>)
    requires IsDir(fs, target) && IsListing(fs, target, listing) && Grows(fs, fsM)
    requires var bs := Bucketize(fs, classify, listing);
             forall i :: 0 <= i < |bs| ==> IsDir(fsM, Child(target, bs[i].category))
    ensures var jobs := Jobs(target, Bucketize(fs, classify, listing));
            && Independent(fsM, jobs)
            && forall k :: 0 <= k < |jobs| ==> IsDir(fsM, Parent(jobs[k].source))
  {
    var bs := Bucketize(fs, classify, listing);
    var jobs := Jobs(target, bs);
    BucketizeSpec(fs, classify, listing);
    BucketsConsistent(fs, classify, listing);
    JobsFrom(fs, classify, listing, target, bs);
    JobsDistinct(fs, classify, listing, target, bs);
    forall k | 0 <= k < |jobs|
      ensures IsFile(fsM, jobs[k].source) && IsDir(fsM, jobs[k].dir)
      ensures Parent(jobs[k].source) == target
    {
      var src := jobs[k].source;
      var i := IndexOf(bs, classify(src));
      assert bs[i].category == classify(src);
      var l :| 0 <= l < |listing| && listing[l] == src;
    }
    assert forall i, j :: 0 <= i < j < |jobs| ==> Sources(jobs)[i] != Sources(jobs)[j];
  }
}
