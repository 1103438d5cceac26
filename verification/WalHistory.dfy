/**
 Histories of one log: opening, successful writes, compactions, closing, and crashes
 between or inside them. A crash keeps what was synced and any prefix of the rest.
 */
module WalHistory {
  import opened Wrappers
  import opened ByteStrings
  import opened Files
  import opened WalFormat
  import opened WalCompaction
  import opened WalStore

  datatype Action =
    | Open
    | Write(r: Record)                                      // Put or Delete returned
    | CrashInWrite(r: Record, left: Disk)                   // it did not get to return
    | Compact(text: Bytes)
    | CrashInCompact(text: Bytes, at: Disk, left: Disk)
    | Close
    | Crash(left: Disk)

  /**
   `data` is the open store's table. `acked` is the table of all writes that returned, plus
   those in-flight ones whose whole record survived; `torn` says a write was cut inside its
   record and no compaction has run since.
   */
  datatype System = System(disk: Disk, data: Option<Table>, acked: Table, torn: bool)

  predicate IsWrite(r: Record) {
    Fits(r) && (r.op == OP_PUT || (r.op == OP_DELETE && r.value == []))
  }

  ghost predicate Enabled(path: Path, s: System, a: Action) {
    match a
    case Open => s.data == None
    case Write(r) => CanWrite(path, s, r)
    case CrashInWrite(r, left) =>
      && CanWrite(path, s, r)
      && (CrashLeaves(Written(s.disk, path, r), left) || CrashLeaves(Appended(s.disk, path, r), left))
    case Compact(text) => IsOpen(path, s) && IsCompaction(s.data.value, text)
    case CrashInCompact(text, at, left) =>
      && IsOpen(path, s)
      && IsCompaction(s.data.value, text)
      && (OnlyTempDiffers(s.disk, at, path) || at == Compacted(s.disk, path, text))
      && CrashLeaves(at, left)
    case Close => IsOpen(path, s)
    case Crash(left) => CrashLeaves(s.disk, left)
  }

  predicate IsOpen(path: Path, s: System) {
    s.data.Some? && path in s.disk
  }

  /** A write is not made behind a torn record: compact first. */
  predicate CanWrite(path: Path, s: System, r: Record) {
    IsOpen(path, s) && IsWrite(r) && !s.torn
  }

  ghost function Next(path: Path, s: System, a: Action): System
    requires Enabled(path, s, a)
  {
    match a
    case Open =>
      var disk := Opened(s.disk, path);
      s.(disk := disk, data := Some(Replay(map[], disk[path].bytes)))
    case Write(r) =>
      System(Appended(s.disk, path, r), Some(Apply(s.data.value, r)), Apply(s.acked, r), s.torn)
    case CrashInWrite(r, left) =>
      var kept := |left[path].bytes| - |s.disk[path].bytes|;
      System(left, None, if kept == Size(r) then Apply(s.acked, r) else s.acked, 0 < kept < Size(r))
    case Compact(text) =>
      s.(disk := Compacted(s.disk, path, text), torn := false)
    case CrashInCompact(text, at, left) =>
      System(left, None, s.acked, s.torn && OnlyTempDiffers(s.disk, at, path))
    case Close => s.(disk := s.disk[path := Synced(s.disk[path])], data := None)
    case Crash(left) => s.(disk := left, data := None)
  }

  ghost predicate RunEnabled(path: Path, s: System, run: seq<Action>)
    decreases run
  {
    run != [] ==> Enabled(path, s, run[0]) && RunEnabled(path, Next(path, s, run[0]), run[1..])
  }

  ghost function Run(path: Path, s: System, run: seq<Action>): System
    requires RunEnabled(path, s, run)
    decreases run
  {
    if run == [] then s else Run(path, Next(path, s, run[0]), run[1..])
  }

  /** The log on disk replays to the acknowledged table, and is torn exactly when it is said to be. */
  predicate LogIs(f: File, acked: Table, torn: bool) {
    && Settled(f)
    && Replay(map[], f.bytes) == acked
    && (torn <==> Tail(f.bytes) != [])
  }

  ghost predicate Recoverable(path: Path, s: System) {
    && (if path in s.disk then LogIs(s.disk[path], s.acked, s.torn) else s.acked == map[] && !s.torn)
    && TableFits(s.acked)
    && (s.data.Some? ==> path in s.disk && s.data.value == s.acked)
  }

  /** Cutting the record in flight leaves the acknowledged table, or that and the record. */
  lemma CutAppend(was: Bytes, r: Record, left: Bytes)
    requires Fits(r) && Tail(was) == []
    requires |was| <= |left| && left <= was + Encode(r)
    ensures Replay(map[], left) ==
            if |left| == |was| + Size(r) then Apply(Replay(map[], was), r) else Replay(map[], was)
    ensures Tail(left) != [] <==> 0 < |left| - |was| < Size(r)
  {
    var e, n := Encode(r), |left| - |was|;
    assert left == was + e[..n];
    if n == Size(r) {
      assert e[..n] == e;
      AppendBehindWhole(was, r);
    } else {
      TornRecord(r, n);
      AppendBehindTail(map[], was, e[..n]);
      assert Tail(was) + e[..n] == e[..n];
    }
  }

  /** After a crash, a settled file is as it was. */
  lemma SettledSurvives(before: File, after: File)
    requires Settled(before) && LeftOf(before, after)
    ensures after == before
  {
    assert after.bytes == before.bytes[..|after.bytes|];
  }

  lemma ApplyFits(m: Table, r: Record)
    requires TableFits(m) && Fits(r)
    ensures TableFits(Apply(m, r))
  {
  }

  lemma WriteStep(path: Path, s: System, r: Record)
    requires Recoverable(path, s) && CanWrite(path, s, r)
    ensures Recoverable(path, Next(path, s, Write(r)))
  {
    AppendBehindWhole(s.disk[path].bytes, r);
    ApplyFits(s.acked, r);
  }

  lemma CrashInWriteStep(path: Path, s: System, r: Record, left: Disk)
    requires Recoverable(path, s) && Enabled(path, s, CrashInWrite(r, left))
    ensures Recoverable(path, Next(path, s, CrashInWrite(r, left)))
  {
    CutAppend(s.disk[path].bytes, r, left[path].bytes);
    ApplyFits(s.acked, r);
  }

  lemma CrashInCompactStep(path: Path, s: System, text: Bytes, at: Disk, left: Disk)
    requires Recoverable(path, s) && Enabled(path, s, CrashInCompact(text, at, left))
    ensures Recoverable(path, Next(path, s, CrashInCompact(text, at, left)))
  {
    CompactionPreservesMeaning(s.acked, text);
    assert path in at;
    SettledSurvives(at[path], left[path]);
  }

  lemma CompactStep(path: Path, s: System, text: Bytes)
    requires Recoverable(path, s) && Enabled(path, s, Compact(text))
    ensures Recoverable(path, Next(path, s, Compact(text)))
  {
    CompactionPreservesMeaning(s.acked, text);
  }

  lemma QuietStep(path: Path, s: System, a: Action)
    requires Recoverable(path, s) && Enabled(path, s, a) && (a.Open? || a.Close? || a.Crash?)
    ensures Recoverable(path, Next(path, s, a))
  {
    if a.Crash? && path in s.disk {
      SettledSurvives(s.disk[path], a.left[path]);
    }
  }

  /** Whatever happens, in any order, the log stays recoverable. */
  lemma {:induction false} EveryHistoryIsRecoverable(path: Path, s: System, run: seq<Action>)
    requires Recoverable(path, s) && RunEnabled(path, s, run)
    ensures Recoverable(path, Run(path, s, run))
    decreases run
  {
    if run != [] {
      var a := run[0];
      match a {
        case Write(r) => WriteStep(path, s, r);
        case CrashInWrite(r, left) => CrashInWriteStep(path, s, r, left);
        case Compact(text) => CompactStep(path, s, text);
        case CrashInCompact(text, at, left) => CrashInCompactStep(path, s, text, at, left);
        case _ => QuietStep(path, s, a);
      }
      EveryHistoryIsRecoverable(path, Next(path, s, a), run[1..]);
    }
  }

  /** A closed store over a log of whole records; anything may lie in the other files. */
  ghost function Start(path: Path, disk: Disk, rs: seq<Record>): System {
    System(disk, None, Fold(map[], rs), false)
  }

  /**
   From a log of whole records, after any history and a final crash or close, reopening
   yields the table of all acknowledged writes, in which each crash inside a write counted
   that write either wholly or not at all.
   */
  lemma ReopeningRecovers(path: Path, disk: Disk, rs: seq<Record>, run: seq<Action>)
    requires AllFit(rs) && path in disk && disk[path] == File(EncodeAll(rs), |EncodeAll(rs)|)
    requires RunEnabled(path, Start(path, disk, rs), run)
    requires Run(path, Start(path, disk, rs), run).data == None
    ensures var s := Run(path, Start(path, disk, rs), run);
            Next(path, s, Open).data == Some(s.acked)
  {
    assert EncodeAll(rs) == EncodeAll(rs) + [];
    ReplayWholeRecords(map[], rs, []);
    FoldFits(map[], rs);
    EveryHistoryIsRecoverable(path, Start(path, disk, rs), run);
  }

  /** Behind a torn record the discipline is needed: there is a write that returns and is then forgotten. */
  lemma WriteBehindTornRecordIsLost(path: Path, s: System)
    requires Recoverable(path, s) && s.data.Some? && s.torn
    ensures exists r | IsWrite(r) :: !Survives(path, s, r)
  {
    var log, r := s.disk[path].bytes, Probe(s.acked);
    Decompose(log);
    AppendBehindTail(map[], log, Encode(r));
    ProbeIsLost(s.acked, Tail(log));
    assert IsWrite(r) && Appended(s.disk, path, r)[path].bytes == log + Encode(r);
    assert !Survives(path, s, r);
  }

  /** What replaying finds after a write that returned is what the open store holds. */
  predicate Survives(path: Path, s: System, r: Record)
    requires IsOpen(path, s)
  {
    Replay(map[], Appended(s.disk, path, r)[path].bytes) == Apply(s.data.value, r)
  }

  /** Every write survives if and only if the log is not torn. */
  lemma WritesSurviveIffNotTorn(path: Path, s: System)
    requires Recoverable(path, s) && s.data.Some?
    ensures (forall r | IsWrite(r) :: Survives(path, s, r)) <==> !s.torn
  {
    if s.torn {
      WriteBehindTornRecordIsLost(path, s);
    } else {
      forall r | IsWrite(r) ensures Survives(path, s, r) {
        AppendBehindWhole(s.disk[path].bytes, r);
      }
    }
  }
}
