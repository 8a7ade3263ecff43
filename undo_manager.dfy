/**
 * `undo_manager.py`: the in-memory batch of moves of the current run, its
 * commit to the ledger, and the undo executor that replays the committed
 * batch backwards.
 */
module Undo {
  import opened Wrappers
  import opened Paths
  import opened FileSystem
  import opened Ledger

  /** The infix of the undo executor's own conflict names, `stem_restored_N suffix`. */
  const RestoredInfix := "_restored_"

  /** Where the undo executor puts a file back: `p` itself when it is free,
      otherwise `stem_restored_N suffix` beside it for the smallest free N. */
  function RestoredName(fs: FS, p: Path): (r: Path)
    ensures !Exists(fs, r) && Parent(r) == Parent(p)
    ensures !Exists(fs, p) ==> r == p
  {
    if !Exists(fs, p) then p else LowestFree(fs, p, RestoredInfix)
  }

  /**
   * Undoing one record: when it is a move whose destination still exists,
   * recreate the source's directory, pick a free name there and move the
   * file back. Returns the disk afterwards and whether the file went back.
   * Nothing that was on the disk is overwritten or lost, except that a
   * restored file leaves its recorded destination.
   */
  function UndoRecord(fs: FS, rec: Record): (r: (FS, bool))
    ensures !(rec.kind == MoveKind && Exists(fs, rec.destination)) ==> r == (fs, false)
    ensures forall p :: p in fs.entries && p != rec.destination ==>
              p in r.0.entries && r.0.entries[p] == fs.entries[p]
    ensures !r.1 ==> Grows(fs, r.0)
    ensures r.1 ==>
              var back := RestoredName(MakeDirs(fs, Parent(rec.source)).0, rec.source);
              && !Exists(fs, back) && Parent(back) == Parent(rec.source)
              && !Exists(r.0, rec.destination) && IsFile(r.0, back)
              && r.0.entries[back] == fs.entries[rec.destination]
    ensures r.0.denied == fs.denied
  {
    if rec.kind == MoveKind && Exists(fs, rec.destination) then
      var (fs1, made) := MakeDirs(fs, Parent(rec.source));
      if !made then (fs1, false)
      else
        var back := RestoredName(fs1, rec.source);
        if CanMove(fs1, rec.destination, back) then (Move(fs1, rec.destination, back), true)
        else (fs1, false)
    else (fs, false)
  }

  datatype Replay = Replay(fs: FS, successes: nat, errors: nat)

  /** The undo loop: the records of `ops` undone from the last to the
      first, counting each as one success or one error. */
  function ReplayReversed(fs: FS, ops: seq<Record>, successes: nat, errors: nat): (r: Replay)
    ensures r.successes + r.errors == successes + errors + |ops|
    ensures successes <= r.successes && errors <= r.errors
    ensures r.fs.denied == fs.denied
    decreases |ops|
  {
    if ops == [] then Replay(fs, successes, errors)
    else
      var (fs1, ok) := UndoRecord(fs, ops[|ops| - 1]);
      ReplayReversed(fs1, ops[..|ops| - 1],
                     if ok then successes + 1 else successes,
                     if ok then errors else errors + 1)
  }

  /** Undo never overwrites: every entry that is not the destination of
      some record survives the whole replay unchanged. */
  lemma {:induction false} ReplayKeeps(fs: FS, ops: seq<Record>, successes: nat, errors: nat, p: Path)
    requires p in fs.entries
    requires forall i :: 0 <= i < |ops| ==> ops[i].destination != p
    ensures var r := ReplayReversed(fs, ops, successes, errors);
            p in r.fs.entries && r.fs.entries[p] == fs.entries[p]
    decreases |ops|
  {
    if ops != [] {
      var (fs1, ok) := UndoRecord(fs, ops[|ops| - 1]);
      ReplayKeeps(fs1, ops[..|ops| - 1], if ok then successes + 1 else successes,
                  if ok then errors else errors + 1, p);
    }
  }

  /** A record the organizer could have produced from disk `fs`: a move of
      a regular file out of an existing directory to a free place. */
  predicate Replayable(fs: FS, rec: Record) {
    && rec.kind == MoveKind
    && !Exists(fs, rec.destination)
    && CanMove(fs, rec.source, rec.destination)
    && IsDir(fs, Parent(rec.source))
  }

  /** The disk after performing the moves of `batch` in order from `fs`, or
      None when one of them is not possible there. */
  function Redo(fs: FS, batch: seq<Record>): (r: Option<FS>)
    ensures r.Some? ==> r.value.denied == fs.denied
    decreases |batch|
  {
    if batch == [] then Some(fs)
    else
      match Redo(fs, batch[..|batch| - 1])
      case None => None
      case Some(before) =>
        var rec := batch[|batch| - 1];
        if Replayable(before, rec) then Some(Move(before, rec.source, rec.destination)) else None
  }

  /** One more possible move extends a batch. */
  lemma RedoSnoc(fs: FS, batch: seq<Record>, rec: Record)
    requires Redo(fs, batch).Some? && Replayable(Redo(fs, batch).value, rec)
    ensures Redo(fs, batch + [rec]) == Some(Move(Redo(fs, batch).value, rec.source, rec.destination))
  {
    assert (batch + [rec])[..|batch|] == batch;
  }

  /** Two batches performed one after the other are their concatenation. */
  lemma {:induction false} RedoAppend(fs: FS, a: seq<Record>, b: seq<Record>)
    requires Redo(fs, a).Some? && Redo(Redo(fs, a).value, b).Some?
    ensures Redo(fs, a + b) == Redo(Redo(fs, a).value, b)
    decreases |b|
  {
    if b == [] {
      assert a + b == a;
    } else {
      var front := b[..|b| - 1];
      var mid := Redo(fs, a).value;
      assert Redo(mid, front).Some?;
      RedoAppend(fs, a, front);
      assert (a + b)[..|a + b| - 1] == a + front;
    }
  }

  /**
   * The round trip: undoing a batch that was performed from `fs` restores
   * `fs` exactly and counts every record as a success, provided the system
   * lets go of the moved files at their new places.
   */
  lemma {:induction false} UndoReversesBatch(fs: FS, batch: seq<Record>, successes: nat, errors: nat)
    requires Redo(fs, batch).Some?
    requires forall i :: 0 <= i < |batch| ==> batch[i].destination !in fs.denied
    ensures ReplayReversed(Redo(fs, batch).value, batch, successes, errors)
            == Replay(fs, successes + |batch|, errors)
    decreases |batch|
  {
    if batch != [] {
      var front, rec := batch[..|batch| - 1], batch[|batch| - 1];
      var before := Redo(fs, front).value;
      var after := Redo(fs, batch).value;
      MoveBack(before, rec.source, rec.destination);
      assert At(after, Parent(rec.source)) == At(before, Parent(rec.source));
      assert UndoRecord(after, rec) == (before, true);
      UndoReversesBatch(fs, front, successes + 1, errors);
    }
  }

  /** The messages of `undo_last_operation`. */
  datatype UndoMessage =
    | NoOperationsToUndo
    | SuccessfullyUndone(count: nat)
    | PartiallyUndone(successes: nat, failures: nat)
    | UndoFailed(errors: nat)

  class UndoManager {
    const logger: Logger
    /** The moves of the run in progress, in order. */
    var currentOperations: seq<Record>

    constructor(logger: Logger)
      ensures this.logger == logger && currentOperations == []
    {
      this.logger := logger;
      currentOperations := [];
    }

    /** `add_operation`: appends exactly one record. */
    method AddOperation(source: Path, destination: Path, kind: string)
      modifies this
      ensures currentOperations == old(currentOperations) + [Record(source, destination, kind)]
      ensures GetOperationsCount() == old(GetOperationsCount()) + 1
    {
      currentOperations := currentOperations + [Record(source, destination, kind)];
    }

    /** `commit_operations`: a non-empty batch replaces the ledger's slot
        and is emptied; an empty one leaves the previous slot in place. */
    method CommitOperations(now: string)
      modifies this, logger
      ensures currentOperations == []
      ensures old(currentOperations) != [] ==>
                logger.undoFile == Some(Parsed(UndoData(now, old(currentOperations)))) && CanUndo()
      ensures old(currentOperations) == [] ==> logger.undoFile == old(logger.undoFile)
    {
      if currentOperations != [] {
        logger.SaveUndoData(currentOperations, now);
        currentOperations := [];
      }
    }

    /** `can_undo`: the slot loads and its operations list is not empty. */
    function CanUndo(): (b: bool)
      reads this, logger
      ensures b <==> logger.undoFile.Some? && logger.undoFile.value.Parsed?
                     && logger.undoFile.value.data.operations != []
    {
      var data := logger.LoadUndoData();
      data.Some? && data.value.operations != []
    }

    /**
     * `undo_last_operation`: with nothing to undo, reports so and changes
     * nothing. Otherwise replays the batch from its last record to its
     * first, clears the slot whatever happened, and reports failure only
     * when no record could be undone.
     */
    method UndoLastOperation(fs: FS) returns (fs': FS, ok: bool, message: UndoMessage)
      modifies logger
      ensures LoadedOperations(old(logger.undoFile)) == [] ==>
                && fs' == fs && !ok && message == NoOperationsToUndo
                && logger.undoFile == old(logger.undoFile)
      ensures LoadedOperations(old(logger.undoFile)) != [] ==>
                var r := ReplayReversed(fs, LoadedOperations(old(logger.undoFile)), 0, 0);
                && fs' == r.fs && logger.undoFile == None
                && (ok <==> r.errors == 0 || r.successes > 0)
                && (ok <==> r.successes > 0)
                && message == (if r.errors == 0 then SuccessfullyUndone(r.successes)
                               else if r.successes > 0 then PartiallyUndone(r.successes, r.errors)
                               else UndoFailed(r.errors))
      ensures !CanUndo()
    {
      var data := logger.LoadUndoData();
      var operations := if data.Some? then data.value.operations else [];
      if operations == [] {
        return fs, false, NoOperationsToUndo;
      }
      var successCount, errorCount := 0, 0;
      fs' := fs;
      var i := |operations|;
      assert operations[..i] == operations;
      while i > 0
        invariant 0 <= i <= |operations|
        invariant ReplayReversed(fs', operations[..i], successCount, errorCount)
                  == ReplayReversed(fs, operations, 0, 0)
      {
        assert operations[..i][..i - 1] == operations[..i - 1];
        i := i - 1;
        var undone: bool;
        fs', undone := UndoOne(fs', operations[i]);
        if undone {
          successCount := successCount + 1;
        } else {
          errorCount := errorCount + 1;
        }
      }
      logger.ClearUndoData();
      ok := errorCount == 0 || successCount > 0;
      if errorCount == 0 {
        message := SuccessfullyUndone(successCount);
      } else if successCount > 0 {
        message := PartiallyUndone(successCount, errorCount);
      } else {
        message := UndoFailed(errorCount);
      }
    }

    /** One pass of the undo loop's body: a record that is not a move, or
        whose file is gone, or that cannot be moved back, counts as an error. */
    method UndoOne(fs: FS, op: Record) returns (fs': FS, undone: bool)
      ensures (fs', undone) == UndoRecord(fs, op)
    {
      fs', undone := fs, false;
      if op.kind == MoveKind && Exists(fs, op.destination) {
        var made := MakeDirs(fs, Parent(op.source));
        fs' := made.0;
        if made.1 {
          var source := op.source;
          if Exists(fs', source) {
            source := GetUniqueFilename(fs', source);
          }
          if CanMove(fs', op.destination, source) {
            fs', undone := Move(fs', op.destination, source), true;
          }
        }
      }
    }

    /** `_get_unique_filename` of the undo executor: `filepath` when it is
        free, otherwise `stem_restored_N suffix` for the smallest free N. */
    method GetUniqueFilename(fs: FS, filepath: Path) returns (r: Path)
      ensures r == RestoredName(fs, filepath)
      ensures !Exists(fs, r) && Parent(r) == Parent(filepath)
      ensures !Exists(fs, filepath) ==> r == filepath
    {
      if !Exists(fs, filepath) {
        return filepath;
      }
      var counter := 1;
      ghost var n := FirstFree(fs, filepath, RestoredInfix, 1);
      while true
        invariant 1 <= counter <= n
        decreases n - counter
      {
        var newPath := Candidate(filepath, RestoredInfix, counter);
        if !Exists(fs, newPath) {
          FoundLowestFree(fs, filepath, RestoredInfix, counter);
          return newPath;
        }
        BelowFirstFree(fs, filepath, RestoredInfix, counter);
        counter := counter + 1;
      }
    }

    /** `clear_current_operations`: drops the batch without committing it. */
    method ClearCurrentOperations()
      modifies this
      ensures currentOperations == [] && GetOperationsCount() == 0
    {
      currentOperations := [];
    }

    /** `get_operations_count` */
    function GetOperationsCount(): nat
      reads this
    {
      |currentOperations|
    }
  }
}
