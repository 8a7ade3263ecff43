/**
 * The disk as the organizer and the undo executor see it. Every path holds
 * at most one entry, a regular file or a directory. The set `denied` holds
 * the paths the operating system refuses to move or create (permissions,
 * read-only media, a full disk): that is how a move or a mkdir fails.
 */
module FileSystem {
  import opened Wrappers
  import opened Paths

  newtype byte = b: int | 0 <= b < 256

  datatype Entry = File(data: seq<byte>) | Dir

  datatype FS = FS(entries: map<Path, Entry>, denied: set<Path>)

  /** `Path.exists()`: a file or a directory is there. */
  predicate Exists(fs: FS, p: Path) {
    p in fs.entries
  }

  /** `Path.is_file()` */
  predicate IsFile(fs: FS, p: Path) {
    p in fs.entries && fs.entries[p].File?
  }

  /** `Path.is_dir()` */
  predicate IsDir(fs: FS, p: Path) {
    p in fs.entries && fs.entries[p].Dir?
  }

  /** What is at `p`, if anything. */
  function At(fs: FS, p: Path): Option<Entry> {
    if p in fs.entries then Some(fs.entries[p]) else None
  }

  /** `fs'` has every entry of `fs`, unchanged, and otherwise only new
      directories; the refusals of the operating system are the same. */
  ghost predicate Grows(fs: FS, fs': FS) {
    && fs'.denied == fs.denied
    && (forall p :: p in fs.entries ==> p in fs'.entries && fs'.entries[p] == fs.entries[p])
    && (forall p :: p in fs'.entries && p !in fs.entries ==> fs'.entries[p] == Dir)
  }

  lemma GrowsTransitive(fs0: FS, fs1: FS, fs2: FS)
    requires Grows(fs0, fs1) && Grows(fs1, fs2)
    ensures Grows(fs0, fs2)
  {
  }

  /** Whether `shutil.move(src, dst)` succeeds for a free `dst`: the source
      is a regular file the system lets go of, and the target's directory
      exists. A directory as source is not relocated by this model. */
  predicate CanMove(fs: FS, src: Path, dst: Path) {
    IsFile(fs, src) && src !in fs.denied && IsDir(fs, Parent(dst))
  }

  /** A successful `shutil.move(src, dst)` to a free `dst`: the file's
      bytes are at `dst`, nothing is left at `src`, and no other path
      changes, so nothing is overwritten. */
  function Move(fs: FS, src: Path, dst: Path): (r: FS)
    requires !Exists(fs, dst) && CanMove(fs, src, dst)
    ensures !Exists(r, src) && IsFile(r, dst) && r.entries[dst] == fs.entries[src]
    ensures forall p :: p != src && p != dst ==> At(r, p) == At(fs, p)
    ensures r.denied == fs.denied
  {
    FS((fs.entries - {src})[dst := fs.entries[src]], fs.denied)
  }

  /** Moving a file to a free place and back again restores the disk. */
  lemma MoveBack(fs: FS, src: Path, dst: Path)
    requires !Exists(fs, dst) && CanMove(fs, src, dst)
    requires IsDir(fs, Parent(src)) && dst !in fs.denied
    ensures var moved := Move(fs, src, dst);
            !Exists(moved, src) && CanMove(moved, dst, src) && Move(moved, dst, src) == fs
  {
    var moved := Move(fs, src, dst);
    assert At(moved, Parent(src)) == At(fs, Parent(src));
    var back := Move(moved, dst, src);
    assert forall p :: At(back, p) == At(fs, p);
    assert back.entries == fs.entries;
  }

  /** Whether `p.mkdir(exist_ok=True)` succeeds: `p` already is a
      directory, or it is free, its parent is a directory, and the system
      allows creating it. */
  predicate CanMkDir(fs: FS, p: Path) {
    IsDir(fs, p) || (p.Child? && !Exists(fs, p) && IsDir(fs, Parent(p)) && p !in fs.denied)
  }

  /** `p.mkdir(exist_ok=True)` where it succeeds. */
  function MkDir(fs: FS, p: Path): (r: FS)
    requires CanMkDir(fs, p)
    ensures IsDir(r, p) && Grows(fs, r)
    ensures forall q :: q != p ==> At(r, q) == At(fs, q)
  {
    if IsDir(fs, p) then fs else FS(fs.entries[p := Dir], fs.denied)
  }

  /**
   * `p.mkdir(parents=True, exist_ok=True)`: creates the missing ancestors
   * of `p` and then `p`. It fails when a file is in the way, the root is
   * missing, or the system refuses a directory; the directories created
   * before the failure remain. Returns the disk and whether it succeeded.
   */
  function MakeDirs(fs: FS, p: Path): (r: (FS, bool))
    ensures r.1 ==> IsDir(r.0, p)
    ensures Grows(fs, r.0)
    ensures forall q :: Exists(r.0, q) && !Exists(fs, q) ==> AncestorOrSelf(q, p)
    ensures IsDir(fs, p) ==> r == (fs, true)
    ensures IsFile(fs, p) ==> !r.1
  {
    if IsDir(fs, p) then (fs, true)
    else if Exists(fs, p) || p.Root? then (fs, false)
    else
      var (fs1, ok) := MakeDirs(fs, p.parent);
      if ok && p !in fs1.denied && !Exists(fs1, p) then (FS(fs1.entries[p := Dir], fs1.denied), true)
      else (fs1, false)
  }

  /** The number of names on the way from the root to `p`. */
  function Depth(p: Path): nat {
    if p.Root? then 0 else Depth(p.parent) + 1
  }

  /** `q` is `p` or one of its ancestors. */
  predicate AncestorOrSelf(q: Path, p: Path) {
    q == p || (p.Child? && AncestorOrSelf(q, p.parent))
  }

  lemma {:induction false} AncestorIsShallower(q: Path, p: Path)
    requires AncestorOrSelf(q, p)
    ensures Depth(q) <= Depth(p)
  {
    if q != p {
      AncestorIsShallower(q, p.parent);
    }
  }

  /**
   * When `mkdir(parents=True, exist_ok=True)` succeeds: `p` is already a
   * directory, or it is free, the system lets it be created, and the same
   * holds of its parent. Walking up, the nearest existing ancestor must be
   * a directory, and no missing path in between may be refused; a file at
   * that ancestor, or a missing root, makes it fail.
   */
  predicate CanMakeDirs(fs: FS, p: Path) {
    IsDir(fs, p) || (p.Child? && !Exists(fs, p) && p !in fs.denied && CanMakeDirs(fs, p.parent))
  }

  lemma {:induction false} MakeDirsSucceeds(fs: FS, p: Path)
    ensures MakeDirs(fs, p).1 <==> CanMakeDirs(fs, p)
  {
    if !IsDir(fs, p) && !Exists(fs, p) && p.Child? {
      MakeDirsSucceeds(fs, p.parent);
      NotOwnAncestor(p);
    }
  }

  /** A path is not among its parent's ancestors. */
  lemma NotOwnAncestor(p: Path)
    requires p.Child?
    ensures !AncestorOrSelf(p, p.parent)
  {
    if AncestorOrSelf(p, p.parent) {
      AncestorIsShallower(p, p.parent);
    }
  }

  /** A missing directory whose parent is a directory is created, unless
      the system refuses it. */
  lemma MakeDirsOneLevel(fs: FS, p: Path)
    requires p.Child? && !Exists(fs, p) && IsDir(fs, p.parent)
    ensures MakeDirs(fs, p).1 <==> p !in fs.denied
  {
    MakeDirsSucceeds(fs, p);
  }

  /** `listing` is what `dir.iterdir()` yields: every entry directly inside
      `dir`, each once, in some order. */
  ghost predicate IsListing(fs: FS, dir: Path, listing: seq<Path>) {
    && (forall i, j :: 0 <= i < j < |listing| ==> listing[i] != listing[j])
    && (forall i :: 0 <= i < |listing| ==> Exists(fs, listing[i]) && listing[i].Child? && listing[i].parent == dir)
    && (forall p :: p in fs.entries && p.Child? && p.parent == dir ==> p in listing)
  }

  /** A bound on the length of every name on the disk; it is why the
      conflict-resolution loops stop. */
  ghost function NameBound(paths: set<Path>): (b: nat)
    ensures forall p :: p in paths ==> |NameOf(p)| < b
  {
    if paths == {} then 0
    else
      var p :| p in paths;
      var b := NameBound(paths - {p});
      if |NameOf(p)| < b then b else |NameOf(p)| + 1
  }

  /** A taken candidate has a counter below `10^NameBound`: from there on
      the candidate names are longer than any name on the disk. */
  lemma TakenCandidateIsSmall(fs: FS, p: Path, infix: string, k: nat)
    requires Exists(fs, Candidate(p, infix, k))
    ensures k < Pow10(NameBound(fs.entries.Keys))
  {
    var b := NameBound(fs.entries.Keys);
    assert |CandidateName(NameOf(p), infix, k)| < b;
    if k >= Pow10(b) {
      DecimalLength(k, b);
      assert false;
    }
  }

  /** The smallest counter `n >= k` whose candidate name is free. */
  function FirstFree(fs: FS, p: Path, infix: string, k: nat): (n: nat)
    ensures k <= n && !Exists(fs, Candidate(p, infix, n))
    ensures forall j :: k <= j < n ==> Exists(fs, Candidate(p, infix, j))
    decreases Pow10(NameBound(fs.entries.Keys)) - k
  {
    if !Exists(fs, Candidate(p, infix, k)) then k
    else
      TakenCandidateIsSmall(fs, p, infix, k);
      FirstFree(fs, p, infix, k + 1)
  }

  /** The free counter found by a search from `k` is the first free one. */
  lemma {:induction false} FirstFreeIsLeast(fs: FS, p: Path, infix: string, k: nat, n: nat)
    requires k <= n && !Exists(fs, Candidate(p, infix, n))
    requires forall j :: k <= j < n ==> Exists(fs, Candidate(p, infix, j))
    ensures FirstFree(fs, p, infix, k) == n
    decreases n - k
  {
    if k < n {
      FirstFreeIsLeast(fs, p, infix, k + 1, n);
    }
  }

  /** `parent / f"{stem}{infix}{n}{suffix}"` for the smallest `n >= 1` that
      is free: what both conflict-resolution loops return. */
  function LowestFree(fs: FS, p: Path, infix: string): (c: Path)
    ensures !Exists(fs, c) && Parent(c) == Parent(p)
    ensures exists n :: 1 <= n && c == Candidate(p, infix, n)
                        && forall j :: 1 <= j < n ==> Exists(fs, Candidate(p, infix, j))
  {
    Candidate(p, infix, FirstFree(fs, p, infix, 1))
  }

  /** A loop that counts up from 1 until the candidate is free stops at `LowestFree`. */
  lemma LowestFreeIs(fs: FS, p: Path, infix: string, n: nat)
    requires 1 <= n && !Exists(fs, Candidate(p, infix, n))
    requires forall j :: 1 <= j < n ==> Exists(fs, Candidate(p, infix, j))
    ensures LowestFree(fs, p, infix) == Candidate(p, infix, n)
  {
    FirstFreeIsLeast(fs, p, infix, 1, n);
  }

  /** A count-up that has not passed the first free counter and hits a
      free candidate has found `LowestFree`. */
  lemma FoundLowestFree(fs: FS, p: Path, infix: string, counter: nat)
    requires 1 <= counter <= FirstFree(fs, p, infix, 1)
    requires !Exists(fs, Candidate(p, infix, counter))
    ensures LowestFree(fs, p, infix) == Candidate(p, infix, counter)
  {
    var n := FirstFree(fs, p, infix, 1);
    assert counter < n ==> Exists(fs, Candidate(p, infix, counter));
    assert counter == n;
  }

  /** A count-up below the first free counter that hits a taken candidate
      is still below it after the step. */
  lemma BelowFirstFree(fs: FS, p: Path, infix: string, counter: nat)
    requires counter <= FirstFree(fs, p, infix, 1)
    requires Exists(fs, Candidate(p, infix, counter))
    ensures counter + 1 <= FirstFree(fs, p, infix, 1)
  {
  }

  /** A conflict name keeps the original suffix unless the name ends in a dot. */
  lemma LowestFreeSuffix(fs: FS, p: Path, infix: string)
    requires '.' !in infix
    ensures Suffix(NameOf(LowestFree(fs, p, infix))) == Suffix(NameOf(p))
            <==> !(|NameOf(p)| >= 2 && NameOf(p)[|NameOf(p)| - 1] == '.')
  {
    CandidateSuffix(NameOf(p), infix, FirstFree(fs, p, infix, 1));
  }
}
