/** The log-backed store: every change is appended to the log and synced; opening replays the log. */
module WalStore {
  import opened Wrappers
  import opened ByteStrings
  import opened Files
  import opened WalFormat
  import opened WalCompaction

  function TempPath(walPath: Path): (p: Path)
    ensures p != walPath
  {
    assert |walPath + ".tmp"| == |walPath| + 4;
    walPath + ".tmp"
  }

  function Opened(d: Disk, path: Path): Disk {
    if path in d then d else d[path := File([], 0)]
  }

  /** The log after a record was written but before it was synced. */
  function Written(d: Disk, path: Path, r: Record): Disk
    requires path in d
  {
    d[path := File(d[path].bytes + Encode(r), d[path].durable)]
  }

  function Appended(d: Disk, path: Path, r: Record): Disk
    requires path in d
  {
    d[path := Synced(Written(d, path, r)[path])]
  }

  function Compacted(d: Disk, path: Path, text: Bytes): Disk {
    (d - {TempPath(path)})[path := File(text, |text|)]
  }

  /** Nothing but the temporary file differs. */
  ghost predicate OnlyTempDiffers(before: Disk, after: Disk, path: Path) {
    forall p | p != TempPath(path) ::
      && (p in after <==> p in before)
      && (p in after ==> after[p] == before[p])
  }

  /** A run of disks in which nothing but the temporary file differs from `before`. */
  ghost predicate OnlyTempDiffersIn(before: Disk, run: seq<Disk>, path: Path) {
    forall d | d in run :: OnlyTempDiffers(before, d, path)
  }

  lemma Concat6(t: Bytes, a: Bytes, b: Bytes, c: Bytes, d: Bytes, e: Bytes)
    ensures t + a + b + c + d + e == t + (a + b + c + d + e)
  {
  }

  method CopyInto(buf: array<byte>, at: nat, chunk: Bytes)
    requires at + |chunk| <= buf.Length
    modifies buf
    ensures buf[..at] == old(buf[..at])
    ensures buf[at..at + |chunk|] == chunk
    ensures buf[at + |chunk|..] == old(buf[at + |chunk|..])
  {
    for i := 0 to |chunk|
      invariant forall j | 0 <= j < buf.Length :: buf[j] == if at <= j < at + i then chunk[j - at] else old(buf[j])
    {
      buf[at + i] := chunk[i];
    }
  }

  /** Fills one buffer with the five fields of a record. */
  method FillBuffer(op: byte, key: Bytes, value: Bytes) returns (record: Bytes)
    ensures record == Encode(Record(op, key, value))
  {
    var buf := new byte[9 + |key| + |value|](_ => 0);
    buf[0] := op;
    assert buf[..1] == [op];
    CopyInto(buf, 1, PutUint32(Uint32(|key|)));
    assert buf[..5] == [op] + PutUint32(Uint32(|key|));
    CopyInto(buf, 5, PutUint32(Uint32(|value|)));
    assert buf[..9] == [op] + PutUint32(Uint32(|key|)) + PutUint32(Uint32(|value|));
    CopyInto(buf, 9, key);
    assert buf[..9 + |key|] == [op] + PutUint32(Uint32(|key|)) + PutUint32(Uint32(|value|)) + key;
    CopyInto(buf, 9 + |key|, value);
    record := buf[..];
    assert record == buf[..9 + |key|] + buf[9 + |key|..9 + |key| + |value|];
  }

  class WALStore {
    const fs: FileSystem
    const walPath: Path
    var data: Table
    var offset: nat  // position of the open log file

    ghost predicate Valid()
      reads this, fs
    {
      walPath in fs.disk && offset == |fs.disk[walPath].bytes|
    }

    constructor (fs: FileSystem, walPath: Path)
      modifies fs
      ensures Valid() && this.fs == fs && this.walPath == walPath
      ensures fs.disk == Opened(old(fs.disk), walPath)
      ensures data == Replay(map[], fs.disk[walPath].bytes)
    {
      this.fs := fs;
      this.walPath := walPath;
      data := map[];
      offset := 0;
      new;
      fs.OpenOrCreate(walPath);
      ReplayWAL();
      offset := |fs.disk[walPath].bytes|;
    }

    method Get(key: Bytes) returns (value: Option<Bytes>)
      ensures value == if key in data then Some(data[key]) else None
    {
      value := if key in data then Some(data[key]) else None;
    }

    method Put(key: Bytes, value: Bytes)
      requires Valid()
      modifies this, fs
      ensures Valid()
      ensures data == old(data)[key := value]
      ensures fs.disk == Appended(old(fs.disk), walPath, PutRecord(key, value))
      ensures fs.past == old(fs.past) + [Written(old(fs.disk), walPath, PutRecord(key, value)), fs.disk]
    {
      data := data[key := value];
      AppendEntry(OP_PUT, key, value);
      fs.Sync(walPath);
    }

    method Delete(key: Bytes)
      requires Valid()
      modifies this, fs
      ensures Valid()
      ensures data == old(data) - {key}
      ensures fs.disk == Appended(old(fs.disk), walPath, DeleteRecord(key))
      ensures fs.past == old(fs.past) + [Written(old(fs.disk), walPath, DeleteRecord(key)), fs.disk]
    {
      data := data - {key};
      AppendEntry(OP_DELETE, key, []);
      fs.Sync(walPath);
    }

    method AppendEntry(op: byte, key: Bytes, value: Bytes)
      requires Valid()
      modifies this`offset, fs
      ensures Valid()
      ensures fs.disk == Written(old(fs.disk), walPath, Record(op, key, value))
      ensures fs.past == old(fs.past) + [fs.disk]
    {
      var buf := FillBuffer(op, key, value);
      fs.Write(walPath, offset, buf);
      offset := offset + |buf|;
    }

    /** Reads `n` bytes, or to the end of the file when there are fewer. */
    method ReadFull(n: nat) returns (chunk: Option<Bytes>)
      requires walPath in fs.disk && offset <= |fs.disk[walPath].bytes|
      modifies this`offset
      ensures var s := fs.disk[walPath].bytes;
              if old(offset) + n <= |s|
              then offset == old(offset) + n && chunk == Some(s[old(offset)..offset])
              else offset == |s| && chunk == None
    {
      var s := fs.disk[walPath].bytes;
      if offset + n <= |s| {
        chunk := Some(s[offset..offset + n]);
        offset := offset + n;
      } else {
        chunk := None;
        offset := |s|;
      }
    }

    /** One round of the replay loop's reading: a whole record, or None at the first read that fails. */
    method ReadRecord() returns (record: Option<Record>)
      requires walPath in fs.disk && offset <= |fs.disk[walPath].bytes|
      modifies this`offset
      ensures record == Decode(fs.disk[walPath].bytes[old(offset)..])
      ensures offset == if record.Some? then old(offset) + Size(record.value) else |fs.disk[walPath].bytes|
    {
      ghost var s := fs.disk[walPath].bytes[offset..];
      var op := ReadFull(1);
      if op == None { return None; }
      var keyLen := ReadFull(4);
      if keyLen == None { return None; }
      assert keyLen.value == s[1..5];
      var valLen := ReadFull(4);
      if valLen == None { return None; }
      assert valLen.value == s[5..9];
      var k, v := GetUint32(keyLen.value), GetUint32(valLen.value);
      var key := ReadFull(k);
      if key == None { return None; }
      assert key.value == s[9..9 + k];
      var value := Some([]);
      if v > 0 {
        value := ReadFull(v);
        if value == None { return None; }
      }
      assert value.value == s[9 + k..9 + k + v];
      return Some(Record(op.value[0], key.value, value.value));
    }

    method ReplayWAL()
      requires walPath in fs.disk
      modifies this`data, this`offset
      ensures data == Replay(old(data), fs.disk[walPath].bytes)
      ensures offset == |fs.disk[walPath].bytes|
    {
      ghost var s := fs.disk[walPath].bytes;
      offset := 0;
      assert s[0..] == s;
      while true
        invariant offset <= |s|
        invariant Replay(old(data), s) == Replay(data, s[offset..])
        decreases |s| - offset
      {
        ghost var rest := s[offset..];
        var record := ReadRecord();
        if record == None { break; }
        var r := record.value;
        if r.op == OP_PUT {
          data := data[r.key := r.value];
        } else if r.op == OP_DELETE {
          data := data - {r.key};
        }
        assert rest[Size(r)..] == s[offset..];
      }
    }

    /** Since the disk was `d0` and its past `past0`, nothing but the temporary file has changed. */
    ghost predicate OnlyTempSince(d0: Disk, past0: seq<Disk>)
      reads fs
    {
      && OnlyTempDiffers(d0, fs.disk, walPath)
      && past0 <= fs.past
      && OnlyTempDiffersIn(d0, fs.past[|past0|..], walPath)
    }

    /**
     Rewrites the log with one put per live entry: fill a temporary file, sync it, and
     rename it over the log. Until the rename only the temporary file differs.
     */
    method Compact()
      requires Valid()
      modifies this`offset, fs
      ensures Valid()
      ensures IsCompaction(data, fs.disk[walPath].bytes)
      ensures fs.disk == Compacted(old(fs.disk), walPath, fs.disk[walPath].bytes)
      ensures old(fs.past) < fs.past && fs.past[|fs.past| - 1] == fs.disk
      ensures OnlyTempDiffersIn(old(fs.disk), fs.past[|old(fs.past)|..|fs.past| - 1], walPath)
    {
      ghost var d0, past0 := fs.disk, fs.past;
      var tmpPath := TempPath(walPath);
      fs.Create(tmpPath);
      WriteLiveEntries(tmpPath, d0, past0);
      fs.Sync(tmpPath);
      FinishCompact(tmpPath, d0, past0);
    }

    method WriteLiveEntries(tmpPath: Path, ghost d0: Disk, ghost past0: seq<Disk>)
      requires tmpPath == TempPath(walPath) && tmpPath in fs.disk && fs.disk[tmpPath].bytes == []
      requires OnlyTempSince(d0, past0)
      modifies fs
      ensures tmpPath in fs.disk && IsCompaction(data, fs.disk[tmpPath].bytes)
      ensures OnlyTempSince(d0, past0)
    {
      var written := 0;
      var keys := data.Keys;
      ghost var order: seq<Bytes> := [];
      while keys != {}
        invariant keys <= data.Keys && EnumeratesAllBut(keys, order, data)
        invariant tmpPath in fs.disk && written == |fs.disk[tmpPath].bytes|
        invariant fs.disk[tmpPath].bytes == EncodeAll(Puts(data, order))
        invariant OnlyTempSince(d0, past0)
      {
        var key :| key in keys;
        OneMorePut(data, keys, order, key);
        written := WriteLiveEntry(tmpPath, written, key, data[key], d0, past0);
        order := order + [key];
        keys := keys - {key};
      }
    }

    /** Renames the finished temporary file over the log and opens it for appending. */
    method FinishCompact(tmpPath: Path, ghost d0: Disk, ghost past0: seq<Disk>)
      requires tmpPath == TempPath(walPath) && tmpPath in fs.disk && Settled(fs.disk[tmpPath])
      requires walPath in d0 && OnlyTempSince(d0, past0)
      modifies this`offset, fs
      ensures Valid() && fs.disk[walPath].bytes == old(fs.disk[tmpPath].bytes)
      ensures fs.disk == Compacted(d0, walPath, fs.disk[walPath].bytes)
      ensures past0 < fs.past && fs.past[|fs.past| - 1] == fs.disk
      ensures OnlyTempDiffersIn(d0, fs.past[|past0|..|fs.past| - 1], walPath)
    {
      ghost var past1 := fs.past;
      fs.Rename(tmpPath, walPath);
      offset := |fs.disk[walPath].bytes|;
      assert fs.past[|past0|..|fs.past| - 1] == past1[|past0|..];
    }

    /** The five writes that put one live entry into the temporary file. */
    method WriteLiveEntry(tmpPath: Path, written: nat, key: Bytes, value: Bytes, ghost d0: Disk, ghost past0: seq<Disk>)
      returns (end: nat)
      requires tmpPath == TempPath(walPath) && tmpPath in fs.disk && written == |fs.disk[tmpPath].bytes|
      requires OnlyTempSince(d0, past0)
      modifies fs
      ensures tmpPath in fs.disk && end == |fs.disk[tmpPath].bytes|
      ensures fs.disk[tmpPath].bytes == old(fs.disk[tmpPath].bytes) + Encode(PutRecord(key, value))
      ensures OnlyTempSince(d0, past0)
    {
      ghost var k, v := PutUint32(Uint32(|key|)), PutUint32(Uint32(|value|));
      ghost var text := fs.disk[tmpPath].bytes;
      end := AppendTemp(tmpPath, written, [OP_PUT], d0, past0);
      end := AppendTemp(tmpPath, end, PutUint32(Uint32(|key|)), d0, past0);
      end := AppendTemp(tmpPath, end, PutUint32(Uint32(|value|)), d0, past0);
      end := AppendTemp(tmpPath, end, key, d0, past0);
      end := AppendTemp(tmpPath, end, value, d0, past0);
      Concat6(text, [OP_PUT], k, v, key, value);
    }

    method AppendTemp(tmpPath: Path, written: nat, chunk: Bytes, ghost d0: Disk, ghost past0: seq<Disk>)
      returns (end: nat)
      requires tmpPath == TempPath(walPath) && tmpPath in fs.disk && written == |fs.disk[tmpPath].bytes|
      requires OnlyTempSince(d0, past0)
      modifies fs
      ensures tmpPath in fs.disk && end == |fs.disk[tmpPath].bytes|
      ensures fs.disk[tmpPath].bytes == old(fs.disk[tmpPath].bytes) + chunk
      ensures OnlyTempSince(d0, past0)
    {
      fs.Write(tmpPath, written, chunk);
      end := written + |chunk|;
    }

    method Close()
      requires Valid()
      modifies fs
      ensures fs.disk == old(fs.disk)[walPath := Synced(old(fs.disk)[walPath])]
    {
      fs.Sync(walPath);
    }
  }
}
