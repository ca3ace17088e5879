/** Content-addressed blob storage: crates/blankres-server/src/storage.rs. */
module Storage {
  import opened Base

  /** A stored blob, as the database refers to it. */
  datatype Blob = Blob(sha256: string, size: nat)

  /** The two directories of the store: finished blobs by digest, and temporary files by uuid. */
  datatype Disk = Disk(blobs: map<string, Bytes>, incoming: map<nat, Bytes>)

  /** Every finished blob is named by its own digest. */
  ghost predicate ContentAddressed(digest: Bytes -> string, disk: Disk) {
    forall h :: h in disk.blobs ==> digest(disk.blobs[h]) == h
  }

  /** SHA-256 taken as collision free. */
  ghost predicate Injective(digest: Bytes -> string) {
    forall a, b :: digest(a) == digest(b) ==> a == b
  }

  /** What a finished write leaves behind: the first writer of a content decides, later ones drop theirs. */
  ghost function Finished(digest: Bytes -> string, disk: Disk, temp: nat, content: Bytes): Disk {
    var h := digest(content);
    Disk(if h in disk.blobs then disk.blobs else disk.blobs[h := content], disk.incoming - {temp})
  }

  /** Local filesystem storage. */
  class LocalStorage {
    const digest: Bytes -> string
    var blobs: map<string, Bytes>
    var incoming: map<nat, Bytes>

    ghost function Contents(): Disk
      reads this
    {
      Disk(blobs, incoming)
    }

    constructor (digest: Bytes -> string)
      ensures this.digest == digest && Contents() == Disk(map[], map[])
    {
      this.digest := digest;
      blobs, incoming := map[], map[];
    }

    /** Begin a streaming write under a temporary name that no file has yet. */
    method Begin(temp: nat) returns (writer: BlobWriter)
      requires temp !in incoming
      modifies this
      ensures fresh(writer) && writer.storage == this && writer.temp == temp
      ensures writer.hashed == [] && writer.written == 0 && writer.open
      ensures Contents() == old(Contents()).(incoming := old(incoming)[temp := []])
    {
      incoming := incoming[temp := []];
      writer := new BlobWriter(this, temp);
    }
  }

  /** A blob on its way to the store. What is hashed, counted and written stays the same sequence of bytes. */
  class BlobWriter {
    const storage: LocalStorage
    const temp: nat
    var hashed: Bytes
    var written: nat
    var open: bool

    /** The hasher, the byte count and the temporary file agree while the write is in progress. */
    ghost predicate Valid()
      reads this, storage
    {
      open && temp in storage.incoming && storage.incoming[temp] == hashed && written == |hashed|
    }

    constructor (storage: LocalStorage, temp: nat)
      ensures this.storage == storage && this.temp == temp
      ensures hashed == [] && written == 0 && open
    {
      this.storage, this.temp := storage, temp;
      hashed, written, open := [], 0, true;
    }

    /** Take one chunk in, or none of it when it does not fit. */
    method Write(chunk: Bytes, limit: nat) returns (ok: bool)
      requires Valid()
      modifies this, storage
      ensures Valid()
      ensures ok == (old(|hashed|) + |chunk| <= limit)
      ensures hashed == if ok then old(hashed) + chunk else old(hashed)
      ensures storage.Contents() == old(storage.Contents()).(incoming := old(storage.incoming)[temp := hashed])
    {
      if written + |chunk| > limit {
        assert storage.incoming == storage.incoming[temp := hashed];
        return false;
      }
      hashed := hashed + chunk;
      written := written + |chunk|;
      storage.incoming := storage.incoming[temp := storage.incoming[temp] + chunk];
      return true;
    }

    /** Store the bytes under their digest, unless the digest is there already. */
    method Finish() returns (blob: Blob)
      requires Valid()
      modifies this, storage
      ensures !open
      ensures blob == Blob(storage.digest(old(hashed)), |old(hashed)|)
      ensures storage.Contents() == Finished(storage.digest, old(storage.Contents()), temp, old(hashed))
    {
      open := false;
      var sha256 := storage.digest(hashed);
      if sha256 !in storage.blobs {
        storage.blobs := storage.blobs[sha256 := storage.incoming[temp]];
      }
      storage.incoming := storage.incoming - {temp};
      return Blob(sha256, written);
    }

    /** Give up: nothing of the write is left on disk. */
    method Abort()
      requires Valid()
      modifies this, storage
      ensures !open
      ensures storage.Contents() == old(storage.Contents()).(incoming := old(storage.incoming) - {temp})
    {
      open := false;
      storage.incoming := storage.incoming - {temp};
    }
  }
}
