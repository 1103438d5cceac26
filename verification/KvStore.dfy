/** The simple store: every change rewrites the whole file. The log-backed store speeds it up. */
module KvStore {
  import opened Wrappers
  import opened ByteStrings
  import opened Files
  import opened WalFormat
  import opened WalCompaction
  import opened KvFormat

  class KVStore {
    const fs: FileSystem
    const filePath: Path
    var data: Table
    var offset: nat  // position of the open file

    ghost predicate Valid()
      reads this, fs
    {
      filePath in fs.disk
    }

    constructor (fs: FileSystem, filePath: Path)
      requires filePath in fs.disk
      ensures Valid() && this.fs == fs && this.filePath == filePath && data == map[]
    {
      this.fs := fs;
      this.filePath := filePath;
      data := map[];
      offset := 0;
    }

    /** Opens the store, or fails when the file does not hold whole entries. */
    static method NewKVStore(fs: FileSystem, filePath: Path) returns (store: KVStore?)
      modifies fs
      ensures fs.disk == if filePath in old(fs.disk) then old(fs.disk) else old(fs.disk)[filePath := File([], 0)]
      ensures store == null <==> Load(map[], fs.disk[filePath].bytes) == None
      ensures store != null ==> store.Valid() && store.fs == fs && store.filePath == filePath
      ensures store != null ==> Some(store.data) == Load(map[], fs.disk[filePath].bytes)
    {
      fs.OpenOrCreate(filePath);
      store := new KVStore(fs, filePath);
      var ok := store.LoadFromDisk();
      if !ok { store := null; }
    }

    method Get(key: Bytes) returns (value: Option<Bytes>)
      ensures value == if key in data then Some(data[key]) else None
    {
      value := if key in data then Some(data[key]) else None;
    }

    method Put(key: Bytes, value: Bytes)
      requires Valid()
      modifies this, fs
      ensures Valid() && data == old(data)[key := value]
      ensures IsSaved(data, fs.disk[filePath].bytes)
      ensures fs.disk == old(fs.disk)[filePath := fs.disk[filePath]]
    {
      data := data[key := value];
      SaveToDisk();
    }

    method Delete(key: Bytes)
      requires Valid()
      modifies this, fs
      ensures Valid() && data == old(data) - {key}
      ensures IsSaved(data, fs.disk[filePath].bytes)
      ensures fs.disk == old(fs.disk)[filePath := fs.disk[filePath]]
    {
      data := data - {key};
      SaveToDisk();
    }

    method Close()
      requires Valid()
      modifies this`offset, fs
      ensures Valid() && IsSaved(data, fs.disk[filePath].bytes) && Settled(fs.disk[filePath])
      ensures fs.disk == old(fs.disk)[filePath := fs.disk[filePath]]
    {
      SaveToDisk();
      fs.Sync(filePath);
    }

    method SaveToDisk()
      requires Valid()
      modifies this`offset, fs
      ensures Valid() && IsSaved(data, fs.disk[filePath].bytes)
      ensures fs.disk == old(fs.disk)[filePath := fs.disk[filePath]]
    {
      offset := 0;
      fs.Truncate(filePath);
      var keys := data.Keys;
      ghost var order: seq<Bytes> := [];
      while keys != {}
        invariant keys <= data.Keys && EnumeratesAllBut(keys, order, data)
        invariant Valid() && offset == |fs.disk[filePath].bytes|
        invariant fs.disk[filePath].bytes == EncodeEntries(Puts(data, order))
        invariant fs.disk == old(fs.disk)[filePath := fs.disk[filePath]]
      {
        var key :| key in keys;
        OneMoreEntry(data, keys, order, key);
        WriteEntry(key, data[key]);
        order := order + [key];
        keys := keys - {key};
      }
    }

    method WriteEntry(key: Bytes, value: Bytes)
      requires Valid() && offset == |fs.disk[filePath].bytes|
      modifies this`offset, fs
      ensures Valid() && offset == |fs.disk[filePath].bytes|
      ensures fs.disk[filePath].bytes == old(fs.disk[filePath].bytes) + EncodeEntry(PutRecord(key, value))
      ensures fs.disk == old(fs.disk)[filePath := fs.disk[filePath]]
    {
      ghost var text := fs.disk[filePath].bytes;
      WriteSized(key);
      WriteSized(value);
      ghost var k, v := PutUint32(Uint32(|key|)), PutUint32(Uint32(|value|));
      Concat5(text, k, key, v, value);
    }

    /** A length and then the bytes. */
    method WriteSized(chunk: Bytes)
      requires Valid() && offset == |fs.disk[filePath].bytes|
      modifies this`offset, fs
      ensures Valid() && offset == |fs.disk[filePath].bytes|
      ensures fs.disk[filePath].bytes == old(fs.disk[filePath].bytes) + (PutUint32(Uint32(|chunk|)) + chunk)
      ensures fs.disk == old(fs.disk)[filePath := fs.disk[filePath]]
    {
      WriteEnd(PutUint32(Uint32(|chunk|)));
      WriteEnd(chunk);
    }

    method WriteEnd(chunk: Bytes)
      requires Valid() && offset == |fs.disk[filePath].bytes|
      modifies this`offset, fs
      ensures Valid() && offset == |fs.disk[filePath].bytes|
      ensures fs.disk[filePath].bytes == old(fs.disk[filePath].bytes) + chunk
      ensures fs.disk == old(fs.disk)[filePath := fs.disk[filePath]]
    {
      fs.Write(filePath, offset, chunk);
      offset := offset + |chunk|;
    }

    /** Reads `n` bytes; fewer is a failed read that moves to the end of the file. */
    method ReadFull(n: nat) returns (chunk: Option<Bytes>)
      requires Valid() && offset <= |fs.disk[filePath].bytes|
      modifies this`offset
      ensures var s := fs.disk[filePath].bytes;
              if old(offset) + n <= |s|
              then offset == old(offset) + n && chunk == Some(s[old(offset)..offset])
              else offset == |s| && chunk == None
    {
      var s := fs.disk[filePath].bytes;
      if offset + n <= |s| {
        chunk := Some(s[offset..offset + n]);
        offset := offset + n;
      } else {
        chunk := None;
        offset := |s|;
      }
    }

    /** One round of the loading loop's reading. */
    method ReadOneEntry() returns (read: Read)
      requires Valid() && offset <= |fs.disk[filePath].bytes|
      modifies this`offset
      ensures read == ReadEntry(fs.disk[filePath].bytes[old(offset)..])
      ensures offset == if read.Found? then old(offset) + EntrySize(read.r) else |fs.disk[filePath].bytes|
    {
      ghost var s := fs.disk[filePath].bytes[offset..];
      var atEnd := offset == |fs.disk[filePath].bytes|;
      var keyLen := ReadFull(4);
      if keyLen == None { return if atEnd then End else Failed; }
      assert keyLen.value == s[..4];
      var k := GetUint32(keyLen.value);
      var key := ReadFull(k);
      if key == None { return Failed; }
      assert key.value == s[4..4 + k];
      var valLen := ReadFull(4);
      if valLen == None { return Failed; }
      assert valLen.value == s[4 + k..8 + k];
      var v := GetUint32(valLen.value);
      var value := ReadFull(v);
      if value == None { return Failed; }
      assert value.value == s[8 + k..8 + k + v];
      return Found(PutRecord(key.value, value.value));
    }

    method LoadFromDisk() returns (ok: bool)
      requires Valid()
      modifies this`data, this`offset
      ensures ok <==> Load(old(data), fs.disk[filePath].bytes).Some?
      ensures ok ==> Load(old(data), fs.disk[filePath].bytes) == Some(data)
    {
      ghost var s := fs.disk[filePath].bytes;
      offset := 0;
      assert s[0..] == s;
      while true
        invariant offset <= |s|
        invariant Load(old(data), s) == Load(data, s[offset..])
        decreases |s| - offset
      {
        ghost var rest := s[offset..];
        var read := ReadOneEntry();
        if read == End { return true; }
        if read == Failed { return false; }
        data := data[read.r.key := read.r.value];
        assert rest[EntrySize(read.r)..] == s[offset..];
      }
    }
  }

  lemma Concat5(t: Bytes, a: Bytes, b: Bytes, c: Bytes, d: Bytes)
    ensures t + (a + b) + (c + d) == t + (a + b + c + d)
  {
  }

  lemma OneMoreEntry(m: Table, rest: set<Bytes>, order: seq<Bytes>, k: Bytes)
    requires k in m && k in rest && EnumeratesAllBut(rest, order, m)
    ensures EnumeratesAllBut(rest - {k}, order + [k], m)
    ensures EncodeEntries(Puts(m, order + [k])) == EncodeEntries(Puts(m, order)) + EncodeEntry(PutRecord(k, m[k]))
  {
    var r := PutRecord(k, m[k]);
    assert (order + [k])[..|order|] == order;
    assert [r][1..] == [] && EncodeEntries([r]) == EncodeEntry(r) + [];
    EncodeEntriesConcat(Puts(m, order), [r]);
  }

  // ---------- The log store against the simple store ----------

  datatype Op = Put(key: Bytes, value: Bytes) | Delete(key: Bytes) | Reopen | Compact

  predicate OpFits(op: Op) {
    match op
    case Put(k, v) => |k| < UINT32_LIMIT && |v| < UINT32_LIMIT
    case Delete(k) => |k| < UINT32_LIMIT
    case _ => true
  }

  /** A store at rest: its table and its file. */
  datatype Store = Store(data: Table, file: Bytes)

  /** Compacting may write the entries in any order. */
  ghost predicate WalStep(s: Store, op: Op, t: Store) {
    match op
    case Put(k, v) => t == Store(s.data[k := v], s.file + Encode(PutRecord(k, v)))
    case Delete(k) => t == Store(s.data - {k}, s.file + Encode(DeleteRecord(k)))
    case Reopen => t == Store(Replay(map[], s.file), s.file)
    case Compact => t.data == s.data && IsCompaction(s.data, t.file)
  }

  /**
   The simple store may save in any order; closing saves once more, and reopening loads that
   file. It has nothing to compact.
   */
  ghost predicate KvStep(s: Store, op: Op, t: Store) {
    match op
    case Put(k, v) => t.data == s.data[k := v] && IsSaved(t.data, t.file)
    case Delete(k) => t.data == s.data - {k} && IsSaved(t.data, t.file)
    case Reopen => IsSaved(s.data, t.file) && Load(map[], t.file) == Some(t.data)
    case Compact => t == s
  }

  const NEW := Store(map[], [])

  /** The log store's states before, between and after the operations. */
  ghost predicate WalRun(ops: seq<Op>, states: seq<Store>) {
    && |states| == |ops| + 1
    && states[0] == NEW
    && forall i | 0 <= i < |ops| :: WalStep(states[i], ops[i], states[i + 1])
  }

  /** The simple store's. */
  ghost predicate KvRun(ops: seq<Op>, states: seq<Store>) {
    && |states| == |ops| + 1
    && states[0] == NEW
    && forall i | 0 <= i < |ops| :: KvStep(states[i], ops[i], states[i + 1])
  }

  /** The log is whole records that replay to the table. */
  predicate LogInStep(s: Store) { Tail(s.file) == [] && Replay(map[], s.file) == s.data && TableFits(s.data) }

  lemma WalStepInvariant(s: Store, op: Op, t: Store)
    requires LogInStep(s) && OpFits(op) && WalStep(s, op, t)
    ensures LogInStep(t)
  {
    match op {
      case Put(k, v) => AppendBehindWhole(s.file, PutRecord(k, v));
      case Delete(k) => AppendBehindWhole(s.file, DeleteRecord(k));
      case Reopen =>
      case Compact => CompactionPreservesMeaning(s.data, t.file);
    }
  }

  lemma {:induction false} WalRunInvariant(ops: seq<Op>, states: seq<Store>)
    requires forall op | op in ops :: OpFits(op)
    requires WalRun(ops, states)
    ensures LogInStep(states[|ops|])
  {
    if ops != [] {
      var n := |ops| - 1;
      WalRunInvariant(ops[..n], states[..n + 1]);
      assert OpFits(ops[n]);
      WalStepInvariant(states[n], ops[n], states[n + 1]);
    }
  }

  /**
   For every sequence of successful operations, in whatever order either store writes its
   entries, both answer every Get alike.
   */
  lemma {:induction false} LogStoreRefinesSimpleStore(ops: seq<Op>, wal: seq<Store>, kv: seq<Store>)
    requires forall op | op in ops :: OpFits(op)
    requires WalRun(ops, wal) && KvRun(ops, kv)
    ensures wal[|ops|].data == kv[|ops|].data
  {
    if ops != [] {
      var n := |ops| - 1;
      LogStoreRefinesSimpleStore(ops[..n], wal[..n + 1], kv[..n + 1]);
      WalRunInvariant(ops[..n], wal[..n + 1]);
      assert WalStep(wal[n], ops[n], wal[n + 1]) && KvStep(kv[n], ops[n], kv[n + 1]);
      if ops[n].Reopen? {
        SaveLoadRoundTrip(kv[n].data, kv[n + 1].file);
      }
    }
  }

  /** Reopening the simple store after such a run never fails. */
  lemma SimpleStoreReopens(ops: seq<Op>, wal: seq<Store>, kv: seq<Store>, file: Bytes)
    requires forall op | op in ops :: OpFits(op)
    requires WalRun(ops, wal) && KvRun(ops, kv) && IsSaved(kv[|ops|].data, file)
    ensures Load(map[], file) == Some(wal[|ops|].data)
  {
    LogStoreRefinesSimpleStore(ops, wal, kv);
    WalRunInvariant(ops, wal);
    SaveLoadRoundTrip(kv[|ops|].data, file);
  }
}
