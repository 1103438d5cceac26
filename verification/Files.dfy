/**
 The files the stores live in. A file is its bytes and the number of them that
 are known to have reached the disk; a crash keeps those and any further prefix
 of what was written. Directory operations (create, rename) are atomic.
 */
module Files {
  import opened ByteStrings

  type Path = string

  datatype FileState = File(bytes: Bytes, durable: nat)

  type File = f: FileState | f.durable <= |f.bytes| witness File([], 0)

  type Disk = map<Path, File>

  predicate Settled(f: File) { f.durable == |f.bytes| }

  function Synced(f: File): File { f.(durable := |f.bytes|) }

  function WriteAt(f: File, offset: nat, chunk: Bytes): File
    requires offset <= |f.bytes|
  {
    var end := offset + |chunk|;
    File(f.bytes[..offset] + chunk + if end < |f.bytes| then f.bytes[end..] else [],
         if f.durable < offset then f.durable else offset)
  }

  lemma AppendIsWriteAtEnd(f: File, chunk: Bytes)
    ensures WriteAt(f, |f.bytes|, chunk) == File(f.bytes + chunk, f.durable)
  {
  }

  /** `after` is what a crash may leave of `before`. */
  predicate LeftOf(before: File, after: File) {
    && before.durable <= |after.bytes|
    && after.bytes <= before.bytes
    && Settled(after)
  }

  ghost predicate CrashLeaves(before: Disk, after: Disk) {
    && after.Keys == before.Keys
    && forall p | p in before :: LeftOf(before[p], after[p])
  }

  class FileSystem {
    var disk: Disk
    ghost var past: seq<Disk>  // the disk after each operation

    constructor (disk: Disk)
      ensures this.disk == disk && past == []
    {
      this.disk := disk;
      past := [];
    }

    /** Opens for writing and cuts the file to nothing, whether or not it was there. */
    method Create(path: Path)
      modifies this
      ensures disk == old(disk)[path := File([], 0)]
      ensures past == old(past) + [disk]
    {
      disk := disk[path := File([], 0)];
      past := past + [disk];
    }

    method OpenOrCreate(path: Path)
      modifies this
      ensures disk == if path in old(disk) then old(disk) else old(disk)[path := File([], 0)]
      ensures past == old(past) + [disk]
    {
      if path !in disk {
        disk := disk[path := File([], 0)];
      }
      past := past + [disk];
    }

    method Write(path: Path, offset: nat, chunk: Bytes)
      requires path in disk && offset <= |disk[path].bytes|
      modifies this
      ensures disk == old(disk)[path := WriteAt(old(disk)[path], offset, chunk)]
      ensures past == old(past) + [disk]
      ensures offset == |old(disk)[path].bytes| ==>
                disk[path] == File(old(disk)[path].bytes + chunk, old(disk)[path].durable)
    {
      AppendIsWriteAtEnd(disk[path], chunk);
      disk := disk[path := WriteAt(disk[path], offset, chunk)];
      past := past + [disk];
    }

    method Truncate(path: Path)
      requires path in disk
      modifies this
      ensures disk == old(disk)[path := File([], 0)]
      ensures past == old(past) + [disk]
    {
      disk := disk[path := File([], 0)];
      past := past + [disk];
    }

    method Sync(path: Path)
      requires path in disk
      modifies this
      ensures disk == old(disk)[path := Synced(old(disk)[path])]
      ensures past == old(past) + [disk]
    {
      disk := disk[path := Synced(disk[path])];
      past := past + [disk];
    }

    method Rename(from: Path, to: Path)
      requires from in disk && from != to
      modifies this
      ensures disk == old(disk)[to := old(disk)[from]] - {from}
      ensures past == old(past) + [disk]
    {
      disk := disk[to := disk[from]] - {from};
      past := past + [disk];
    }
  }
}
