/**
 * The undo slot of `logger.py`: one file, `undo_data.json`, holding the
 * most recently committed batch of moves, plus `get_recent_logs`, a read of
 * the text log.
 */
module Ledger {
  import opened Wrappers
  import opened Paths

  /** One entry of an undo batch: `{source, destination, type}`. */
  datatype Record = Record(source: Path, destination: Path, kind: string)

  /** The only kind of record the organizer writes, and the only one undo replays. */
  const MoveKind := "move"

  /** The document `{timestamp, operations}`; the timestamp is kept as given. */
  datatype UndoData = UndoData(timestamp: string, operations: seq<Record>)

  /** What the undo file holds when it exists: a document of the organizer's
      shape, or text that is not valid JSON (`JSONDecodeError`, such as a
      truncated file). */
  datatype Stored = Parsed(data: UndoData) | Corrupt

  /** `load_undo_data`: the stored document, or nothing (`{}`) when the
      file is missing or is not valid JSON. */
  function Load(file: Option<Stored>): (r: Option<UndoData>)
    ensures r.None? <==> file.None? || file.value.Corrupt?
    ensures r.Some? ==> file == Some(Parsed(r.value))
  {
    match file
    case None => None
    case Some(Corrupt) => None
    case Some(Parsed(data)) => Some(data)
  }

  /** The operations list of the slot, `[]` when it cannot be loaded. */
  function LoadedOperations(file: Option<Stored>): seq<Record> {
    match Load(file)
    case None => []
    case Some(data) => data.operations
  }

  class Logger {
    /** The undo file: absent, or present with some contents. */
    var undoFile: Option<Stored>

    /** A logger over a log directory that may still hold the undo file of
        an earlier run. */
    constructor(existing: Option<Stored>)
      ensures undoFile == existing
    {
      undoFile := existing;
    }

    /** `save_undo_data`: replaces the slot wholesale, merging nothing. */
    method SaveUndoData(operations: seq<Record>, now: string)
      modifies this
      ensures undoFile == Some(Parsed(UndoData(now, operations)))
      ensures LoadUndoData() == Some(UndoData(now, operations))
    {
      undoFile := Some(Parsed(UndoData(now, operations)));
    }

    function LoadUndoData(): Option<UndoData>
      reads this
    {
      Load(undoFile)
    }

    /** `clear_undo_data`: deletes the file if it is there. */
    method ClearUndoData()
      modifies this
      ensures undoFile == None && LoadUndoData() == None
    {
      if undoFile.Some? {
        undoFile := None;
      }
    }
  }

  /** The characters `str.strip()` removes: those for which `str.isspace()` holds. */
  predicate IsSpace(c: char) {
    var n := c as int;
    || 9 <= n <= 13 || 28 <= n <= 32 || n == 0x85 || n == 0xA0 || n == 0x1680
    || 0x2000 <= n <= 0x200A || n == 0x2028 || n == 0x2029 || n == 0x202F
    || n == 0x205F || n == 0x3000
  }

  function TrimLeft(s: string): (r: string)
    ensures |r| <= |s| && r == s[|s| - |r|..]
    ensures forall i :: 0 <= i < |s| - |r| ==> IsSpace(s[i])
    ensures r == [] || !IsSpace(r[0])
  {
    if s != [] && IsSpace(s[0]) then TrimLeft(s[1..]) else s
  }

  function TrimRight(s: string): (r: string)
    ensures |r| <= |s| && r == s[..|r|]
    ensures forall i :: |r| <= i < |s| ==> IsSpace(s[i])
    ensures r == [] || !IsSpace(r[|r| - 1])
  {
    if s != [] && IsSpace(s[|s| - 1]) then TrimRight(s[..|s| - 1]) else s
  }

  /** `r` is the stretch of `s` starting at `k`, and everything of `s`
      around it is whitespace. */
  ghost predicate TrimmedAt(s: string, r: string, k: nat) {
    && k + |r| <= |s| && r == s[k..k + |r|]
    && (forall i :: 0 <= i < k ==> IsSpace(s[i]))
    && (forall i :: k + |r| <= i < |s| ==> IsSpace(s[i]))
  }

  /** `str.strip()`: `s` without its leading and trailing whitespace. */
  function Strip(s: string): (r: string)
    ensures r == [] || (!IsSpace(r[0]) && !IsSpace(r[|r| - 1]))
    ensures exists k :: TrimmedAt(s, r, k)
  {
    var left := TrimLeft(s);
    var r := TrimRight(left);
    TrimmedFrom(s, left, r);
    r
  }

  /** A stretch cut from the end of `s` past leading whitespace, then cut
      short before trailing whitespace, is `s` trimmed at both ends. */
  lemma TrimmedFrom(s: string, left: string, r: string)
    requires |left| <= |s| && left == s[|s| - |left|..]
    requires forall i :: 0 <= i < |s| - |left| ==> IsSpace(s[i])
    requires |r| <= |left| && r == left[..|r|]
    requires forall i :: |r| <= i < |left| ==> IsSpace(left[i])
    ensures TrimmedAt(s, r, |s| - |left|)
  {
    var k := |s| - |left|;
    forall i | k + |r| <= i < |s|
      ensures IsSpace(s[i])
    {
      assert s[i] == left[i - k];
    }
  }

  /** Where Python's `lines[k:]` starts in a list of `n` lines. */
  function SliceStart(n: nat, k: int): (i: nat)
    ensures i <= n
  {
    if k < 0 then (if n + k < 0 then 0 else n + k)
    else if k < n then k else n
  }

  /**
   * `get_recent_logs(limit)` over the lines of the log file (None when the
   * file is missing): the stripped lines of `lines[-limit:]`. For a
   * positive limit that is the last `min(limit, n)` lines in file order;
   * a limit of 0 gives every line (`-0` is 0); a negative limit drops the
   * first `-limit` lines.
   */
  function RecentLogs(log: Option<seq<string>>, limit: int): (r: seq<string>)
    ensures log.None? ==> r == []
    ensures log.Some? && limit > 0 ==>
              |r| == (if limit < |log.value| then limit else |log.value|)
    ensures log.Some? && limit == 0 ==> |r| == |log.value|
    ensures log.Some? && limit < 0 ==>
              |r| == (if |log.value| + limit > 0 then |log.value| + limit else 0)
    ensures log.Some? ==> forall i :: 0 <= i < |r| ==> r[i] == Strip(log.value[|log.value| - |r| + i])
  {
    match log
    case None => []
    case Some(lines) =>
      var tail := lines[SliceStart(|lines|, -limit)..];
      seq(|tail|, i requires 0 <= i < |tail| => Strip(tail[i]))
  }
}
