/** Stage 2: the multipart loop of `post_report` in crates/blankres-server/src/routes.rs. */
module Upload {
  import opened Base
  import opened Storage

  /** SHA-256 and the JSON validity check, both left uninterpreted. */
  datatype Env = Env(digest: Bytes -> string, validJson: Bytes -> bool)

  /** One multipart field as it arrives: `complete` is false when its stream breaks off. */
  datatype Part = Part(name: string, chunks: seq<Bytes>, complete: bool)

  /** A request body; `wellFormed` is false when the multipart framing itself breaks after the parts. */
  datatype Body = Body(parts: seq<Part>, wellFormed: bool)

  datatype Refusal = TooLarge | Truncated | BadMetadata | NoMetadata | Malformed

  /** What the handler has accumulated between two parts. */
  datatype Progress = Progress(total: nat, metadata: Option<Bytes>, blobs: map<string, Blob>)

  const START := Progress(0, None, map[])

  const METADATA := "metadata"

  function Join(chunks: seq<Bytes>): Bytes {
    if chunks == [] then [] else Join(chunks[..|chunks| - 1]) + chunks[|chunks| - 1]
  }

  function Content(part: Part): Bytes {
    Join(part.chunks)
  }

  /** One part, seen only through its name, its bytes and whether it arrived whole. */
  function AfterPart(env: Env, limit: nat, p: Progress, name: string, content: Bytes, complete: bool): Result<Progress, Refusal> {
    var total := p.total + |content|;
    if total > limit then Err(TooLarge)
    else if !complete then Err(Truncated)
    else if name != METADATA then Ok(Progress(total, p.metadata, p.blobs[name := Blob(env.digest(content), |content|)]))
    else if env.validJson(content) then Ok(Progress(total, Some(content), p.blobs))
    else Err(BadMetadata)
  }

  function AfterParts(env: Env, limit: nat, parts: seq<Part>): Result<Progress, Refusal> {
    if parts == [] then Ok(START)
    else
      var last := parts[|parts| - 1];
      match AfterParts(env, limit, parts[..|parts| - 1])
      case Err(e) => Err(e)
      case Ok(p) => AfterPart(env, limit, p, last.name, Content(last), last.complete)
  }

  function Verdict(env: Env, limit: nat, body: Body): Result<Progress, Refusal> {
    match AfterParts(env, limit, body.parts)
    case Err(e) => Err(e)
    case Ok(p) =>
      if !body.wellFormed then Err(Malformed)
      else if p.metadata.None? then Err(NoMetadata)
      else Ok(p)
  }

  lemma {:induction false} JoinPrefix(chunks: seq<Bytes>, i: nat)
    requires i <= |chunks|
    ensures |Join(chunks[..i])| <= |Join(chunks)|
    decreases |chunks| - i
  {
    if i < |chunks| {
      JoinPrefix(chunks, i + 1);
      assert chunks[..i + 1][..i] == chunks[..i];
    } else {
      assert chunks[..i] == chunks;
    }
  }

  lemma JoinOne(chunk: Bytes)
    ensures Join([chunk]) == chunk
  {
    assert [chunk][..0] == [];
    assert [] + chunk == chunk;
  }

  /** A refusal among the first parts decides the whole body. */
  lemma {:induction false} RefusalSticks(env: Env, limit: nat, parts: seq<Part>, i: nat)
    requires i <= |parts| && AfterParts(env, limit, parts[..i]).Err?
    ensures AfterParts(env, limit, parts) == AfterParts(env, limit, parts[..i])
    decreases |parts|
  {
    if i == |parts| {
      assert parts[..i] == parts;
    } else {
      assert parts[..|parts| - 1][..i] == parts[..i];
      RefusalSticks(env, limit, parts[..|parts| - 1], i);
    }
  }

  /** The store only grows, and stays content addressed. */
  ghost predicate Extends(digest: Bytes -> string, before: Disk, after: Disk) {
    && (forall h :: h in before.blobs ==> h in after.blobs && after.blobs[h] == before.blobs[h])
    && (ContentAddressed(digest, before) ==> ContentAddressed(digest, after))
    && after.incoming == before.incoming
  }

  lemma ExtendsTransitive(digest: Bytes -> string, a: Disk, b: Disk, c: Disk)
    requires Extends(digest, a, b) && Extends(digest, b, c)
    ensures Extends(digest, a, c)
  {
  }

  ghost predicate RefsStored(blobs: map<string, Blob>, disk: Disk) {
    forall name :: name in blobs ==> blobs[name].sha256 in disk.blobs
  }

  /** The refusal one part meets while it streams, if any. */
  function StreamRefusal(before: nat, limit: nat, content: Bytes, complete: bool): Option<Refusal> {
    if before + |content| > limit then Some(TooLarge) else if !complete then Some(Truncated) else None
  }

  /** The chunk loop of one part: count, refuse above the limit, buffer metadata, write the rest. */
  method StreamPart(storage: LocalStorage, writer: BlobWriter, limit: nat, part: Part, before: nat)
      returns (total: nat, metadataBytes: Bytes, refusal: Option<Refusal>)
    requires before <= limit
    requires writer.Valid() && writer.storage == storage && writer.hashed == []
    modifies storage, writer
    ensures refusal == StreamRefusal(before, limit, Content(part), part.complete)
    ensures refusal.None? ==> total == before + |Content(part)| && writer.Valid()
    ensures refusal.None? && part.name == METADATA ==> metadataBytes == Content(part)
    ensures refusal.None? && part.name != METADATA ==> writer.hashed == Content(part)
    ensures storage.blobs == old(storage.blobs)
    ensures storage.incoming - {writer.temp} == old(storage.incoming) - {writer.temp}
    ensures refusal.Some? ==> writer.temp !in storage.incoming
  {
    total := before;
    metadataBytes := [];
    for j := 0 to |part.chunks|
      invariant total == before + |Join(part.chunks[..j])| <= limit
      invariant writer.Valid()
      invariant storage.blobs == old(storage.blobs)
      invariant storage.incoming - {writer.temp} == old(storage.incoming) - {writer.temp}
      invariant if part.name == METADATA
        then metadataBytes == Join(part.chunks[..j]) && writer.hashed == []
        else writer.hashed == Join(part.chunks[..j])
    {
      var chunk := part.chunks[j];
      assert part.chunks[..j + 1][..j] == part.chunks[..j];
      total := total + |chunk|;
      if total > limit {
        JoinPrefix(part.chunks, j + 1);
        writer.Abort();
        return total, metadataBytes, Some(TooLarge);
      }
      if part.name == METADATA {
        metadataBytes := metadataBytes + chunk;
        continue;
      }
      var ok := writer.Write(chunk, limit);
      if !ok {
        // The writer counts a part of what `total` counts, so its own limit never fires first.
        assert false;
      }
    }
    assert part.chunks[..|part.chunks|] == part.chunks;
    if !part.complete {
      writer.Abort();
      return total, metadataBytes, Some(Truncated);
    }
    return total, metadataBytes, None;
  }

  /** One round of the part loop: open a writer, stream, then keep the metadata or finish the blob. */
  method ReceivePart(env: Env, storage: LocalStorage, limit: nat, part: Part, temp: nat, p: Progress)
      returns (r: Result<Progress, Refusal>)
    requires storage.digest == env.digest && p.total <= limit
    requires temp !in storage.incoming && RefsStored(p.blobs, storage.Contents())
    modifies storage
    ensures r == AfterPart(env, limit, p, part.name, Content(part), part.complete)
    ensures Extends(env.digest, old(storage.Contents()), storage.Contents()) && storage.incoming == old(storage.incoming)
    ensures r.Ok? ==> r.value.total <= limit && RefsStored(r.value.blobs, storage.Contents())
  {
    var writer := storage.Begin(temp);
    var total, metadataBytes, refusal := StreamPart(storage, writer, limit, part, p.total);
    assert storage.incoming - {temp} == old(storage.incoming);
    if refusal.Some? {
      assert storage.incoming == storage.incoming - {temp};
      return Err(refusal.value);
    }
    if part.name == METADATA {
      writer.Abort();
      if !env.validJson(metadataBytes) {
        return Err(BadMetadata);
      }
      return Ok(Progress(total, Some(metadataBytes), p.blobs));
    }
    var blob := writer.Finish();
    return Ok(Progress(total, p.metadata, p.blobs[part.name := blob]));
  }

  /** Stream every part to disk. The answer is `Verdict`, a function of the parts' bytes alone: how
      they were cut into chunks does not matter. Every temporary file is gone afterwards, and no
      blob that was stored before changes. `temps` are the uuids drawn for the parts. */
  method PostReport(env: Env, storage: LocalStorage, limit: nat, body: Body, temps: seq<nat>)
      returns (r: Result<Progress, Refusal>)
    requires storage.digest == env.digest
    requires |temps| == |body.parts|
    requires forall i :: 0 <= i < |temps| ==> temps[i] !in storage.incoming
    modifies storage
    ensures r == Verdict(env, limit, body)
    ensures Extends(env.digest, old(storage.Contents()), storage.Contents())
    ensures r.Ok? ==> RefsStored(r.value.blobs, storage.Contents())
  {
    var progress := START;
    ghost var disk := storage.Contents();
    assert Extends(env.digest, disk, disk) && RefsStored(progress.blobs, disk);
    hide Extends, RefsStored, AfterPart;
    for i := 0 to |body.parts|
      invariant AfterParts(env, limit, body.parts[..i]) == Ok(progress)
      invariant progress.total <= limit
      invariant Extends(env.digest, disk, storage.Contents())
      invariant storage.incoming == old(storage.incoming)
      invariant RefsStored(progress.blobs, storage.Contents())
    {
      assert body.parts[..i + 1][..i] == body.parts[..i];
      ghost var before := storage.Contents();
      var next := ReceivePart(env, storage, limit, body.parts[i], temps[i], progress);
      ExtendsTransitive(env.digest, disk, before, storage.Contents());
      if next.Err? {
        RefusalSticks(env, limit, body.parts, i + 1);
        return Err(next.error);
      }
      progress := next.value;
    }
    assert body.parts[..|body.parts|] == body.parts;
    if !body.wellFormed {
      return Err(Malformed);
    }
    if progress.metadata.None? {
      return Err(NoMetadata);
    }
    return Ok(progress);
  }

  // ---------------------------------------------------------------- when a body is accepted

  function Size(parts: seq<Part>): nat {
    if parts == [] then 0 else Size(parts[..|parts| - 1]) + |Content(parts[|parts| - 1])|
  }

  /** Every part arrives whole, and every metadata part is valid JSON. */
  predicate Sound(env: Env, parts: seq<Part>) {
    forall i :: 0 <= i < |parts| ==>
      parts[i].complete && (parts[i].name == METADATA ==> env.validJson(Content(parts[i])))
  }

  /** The bytes of the last part of a given name. */
  function LastNamed(parts: seq<Part>, name: string): Option<Bytes> {
    if parts == [] then None
    else if parts[|parts| - 1].name == name then Some(Content(parts[|parts| - 1]))
    else LastNamed(parts[..|parts| - 1], name)
  }

  /** What the accumulated progress says about the parts: the total counts every byte, and of
      several parts of one name the last one is kept. */
  ghost predicate Describes(env: Env, parts: seq<Part>, p: Progress) {
    && p.total == Size(parts)
    && p.metadata == LastNamed(parts, METADATA)
    && (forall name :: name in p.blobs <==> name != METADATA && LastNamed(parts, name).Some?)
    && (forall name :: name in p.blobs ==>
          var content := LastNamed(parts, name).value;
          p.blobs[name] == Blob(env.digest(content), |content|))
  }

  lemma {:induction false} AfterPartsMeaning(env: Env, limit: nat, parts: seq<Part>)
    ensures AfterParts(env, limit, parts).Ok? <==> Size(parts) <= limit && Sound(env, parts)
    ensures AfterParts(env, limit, parts).Ok? ==> Describes(env, parts, AfterParts(env, limit, parts).value)
  {
    if parts != [] {
      var n := |parts| - 1;
      var init, last := parts[..n], parts[n];
      AfterPartsMeaning(env, limit, init);
      assert Sound(env, parts) <==> Sound(env, init) && last.complete && (last.name == METADATA ==> env.validJson(Content(last))) by {
        assert forall i :: 0 <= i < n ==> parts[i] == init[i];
      }
    }
  }

  /** `post_report` accepts exactly the well-formed bodies of sound parts with a metadata part whose
      metadata and attachments together fit the limit; what it stores is described by the parts. */
  lemma AcceptedIff(env: Env, limit: nat, body: Body)
    ensures Verdict(env, limit, body).Ok? <==>
      body.wellFormed && Sound(env, body.parts) && LastNamed(body.parts, METADATA).Some? && Size(body.parts) <= limit
    ensures Verdict(env, limit, body).Ok? ==> Describes(env, body.parts, Verdict(env, limit, body).value)
  {
    AfterPartsMeaning(env, limit, body.parts);
  }

  /** The parts so far are in order: whole, with valid metadata, and within the limit together. */
  predicate Fine(env: Env, limit: nat, parts: seq<Part>) {
    Sound(env, parts) && Size(parts) <= limit
  }

  /** The first part that is not, and what is wrong with it: its bytes do not fit, or it breaks off, or it is
      metadata that is no JSON, in that order. */
  predicate WrongAt(env: Env, limit: nat, parts: seq<Part>, n: nat, e: Refusal) {
    n < |parts| && Fine(env, limit, parts[..n]) &&
    var fits := Size(parts[..n + 1]) <= limit;
    match e
    case TooLarge => !fits
    case Truncated => fits && !parts[n].complete
    case BadMetadata => fits && parts[n].complete && parts[n].name == "metadata" && !env.validJson(Content(parts[n]))
    case _ => false
  }

  lemma {:induction false} PartsRefusedIff(env: Env, limit: nat, parts: seq<Part>, e: Refusal)
    ensures AfterParts(env, limit, parts) == Err(e) <==> exists n :: WrongAt(env, limit, parts, n, e)
  {
    if parts != [] {
      var k := |parts| - 1;
      var init, last := parts[..k], parts[k];
      PartsRefusedIff(env, limit, init, e);
      AfterPartsMeaning(env, limit, init);
      assert parts[..k + 1] == parts;
      forall n | 0 <= n < k
        ensures WrongAt(env, limit, parts, n, e) <==> WrongAt(env, limit, init, n, e)
      {
        assert parts[..n] == init[..n] && parts[..n + 1] == init[..n + 1];
      }
      assert WrongAt(env, limit, parts, k, e) <==> Fine(env, limit, init) && AfterParts(env, limit, parts) == Err(e);
      if Fine(env, limit, init) {
        NothingWrong(env, limit, init, e);
      }
      hide WrongAt, Fine, Describes;
    }
  }

  lemma NothingWrong(env: Env, limit: nat, parts: seq<Part>, e: Refusal)
    requires Fine(env, limit, parts)
    ensures forall n :: !WrongAt(env, limit, parts, n, e)
  {
    forall n: nat | n < |parts|
      ensures Size(parts[..n + 1]) <= limit && parts[n].complete
    {
      SizePrefix(parts, n + 1);
    }
  }

  lemma {:induction false} SizePrefix(parts: seq<Part>, n: nat)
    requires n <= |parts|
    ensures Size(parts[..n]) <= Size(parts)
    decreases |parts| - n
  {
    if n < |parts| {
      SizePrefix(parts, n + 1);
      assert parts[..n + 1][..n] == parts[..n];
    } else {
      assert parts[..n] == parts;
    }
  }

  /** Why a body is refused: for its first part that is not in order, or, when all are, because the body itself
      breaks off, or because no part was named metadata. */
  lemma RefusedIff(env: Env, limit: nat, body: Body, e: Refusal)
    ensures Verdict(env, limit, body) == Err(e) <==>
      match e
      case Malformed => Fine(env, limit, body.parts) && !body.wellFormed
      case NoMetadata =>
        Fine(env, limit, body.parts) && body.wellFormed && forall i :: 0 <= i < |body.parts| ==> body.parts[i].name != "metadata"
      case _ => exists n :: WrongAt(env, limit, body.parts, n, e)
  {
    PartsRefusedIff(env, limit, body.parts, e);
    AfterPartsMeaning(env, limit, body.parts);
    NamedIff(body.parts, METADATA);
    hide AfterParts, Fine, WrongAt, LastNamed;
    assert Fine(env, limit, body.parts) <==> Sound(env, body.parts) && Size(body.parts) <= limit by {
      FineIs(env, limit, body.parts);
    }
    if e.Malformed? || e.NoMetadata? {
      NeverWrong(env, limit, body.parts, e);
    }
  }

  lemma FineIs(env: Env, limit: nat, parts: seq<Part>)
    ensures Fine(env, limit, parts) <==> Sound(env, parts) && Size(parts) <= limit
  {
  }

  lemma NeverWrong(env: Env, limit: nat, parts: seq<Part>, e: Refusal)
    requires e.Malformed? || e.NoMetadata?
    ensures forall n :: !WrongAt(env, limit, parts, n, e)
  {
  }

  lemma {:induction false} NamedIff(parts: seq<Part>, name: string)
    ensures LastNamed(parts, name).None? <==> forall i :: 0 <= i < |parts| ==> parts[i].name != name
  {
    if parts != [] {
      var n := |parts| - 1;
      NamedIff(parts[..n], name);
      assert forall i :: 0 <= i < n ==> parts[..n][i] == parts[i];
    }
  }

  /** The same parts, cut into chunks differently. */
  ghost predicate SameParts(a: seq<Part>, b: seq<Part>) {
    && |a| == |b|
    && forall i :: 0 <= i < |a| ==>
         a[i].name == b[i].name && Content(a[i]) == Content(b[i]) && a[i].complete == b[i].complete
  }

  lemma {:induction false} ChunkingIrrelevant(env: Env, limit: nat, a: seq<Part>, b: seq<Part>, wellFormed: bool)
    requires SameParts(a, b)
    ensures AfterParts(env, limit, a) == AfterParts(env, limit, b)
    ensures Verdict(env, limit, Body(a, wellFormed)) == Verdict(env, limit, Body(b, wellFormed))
  {
    if a != [] {
      var n := |a| - 1;
      assert a[n].name == b[n].name;
      ChunkingIrrelevant(env, limit, a[..n], b[..n], wellFormed);
    }
  }

  // ---------------------------------------------------------------- the client's own check

  /** An attachment of a report: its name and the bytes it contributes. */
  datatype Attachment = Attachment(name: string, content: Bytes)

  function TransferSize(attachments: seq<Attachment>): nat {
    if attachments == [] then 0
    else TransferSize(attachments[..|attachments| - 1]) + |attachments[|attachments| - 1].content|
  }

  /** The size check of `Client::upload_report`, which leaves the metadata out. */
  predicate ClientAllows(attachments: seq<Attachment>, maxBytes: Option<nat>) {
    maxBytes.Some? ==> TransferSize(attachments) <= maxBytes.value
  }

  function ClientParts(metadata: Bytes, attachments: seq<Attachment>): seq<Part> {
    if attachments == [] then [Part(METADATA, [metadata], true)]
    else
      var last := attachments[|attachments| - 1];
      ClientParts(metadata, attachments[..|attachments| - 1]) + [Part(last.name, [last.content], true)]
  }

  lemma {:induction false} ClientPartsMeaning(env: Env, metadata: Bytes, attachments: seq<Attachment>)
    requires env.validJson(metadata)
    requires forall i :: 0 <= i < |attachments| ==> attachments[i].name != METADATA
    ensures var parts := ClientParts(metadata, attachments);
      && Sound(env, parts) && LastNamed(parts, METADATA) == Some(metadata)
      && Size(parts) == |metadata| + TransferSize(attachments)
  {
    var parts := ClientParts(metadata, attachments);
    if attachments == [] {
      assert parts[..0] == [] && Join([metadata][..0]) == [];
      assert Content(parts[0]) == metadata;
    } else {
      var n := |attachments| - 1;
      var init := ClientParts(metadata, attachments[..n]);
      ClientPartsMeaning(env, metadata, attachments[..n]);
      assert parts[..|parts| - 1] == init;
      assert Join([attachments[n].content][..0]) == [];
      assert Content(parts[|parts| - 1]) == attachments[n].content;
    }
  }

  /** A consented upload is accepted exactly when its metadata fits beside the attachments. */
  lemma {:induction false} ClientUploadAcceptedIff(env: Env, limit: nat, metadata: Bytes, attachments: seq<Attachment>)
    requires env.validJson(metadata)
    requires forall i :: 0 <= i < |attachments| ==> attachments[i].name != METADATA
    ensures Verdict(env, limit, Body(ClientParts(metadata, attachments), true)).Ok?
      <==> |metadata| + TransferSize(attachments) <= limit
  {
    ClientPartsMeaning(env, metadata, attachments);
    AcceptedIff(env, limit, Body(ClientParts(metadata, attachments), true));
  }

  /** So the client's check is not enough by itself: an attachment of exactly the allowed size passes
      it, and the server refuses the upload because of the metadata beside it. */
  lemma ClientCheckInsufficient(env: Env, metadata: Bytes, content: Bytes)
    requires env.validJson(metadata) && metadata != []
    ensures var attachments := [Attachment("core-dump", content)];
      && ClientAllows(attachments, Some(|content|))
      && Verdict(env, |content|, Body(ClientParts(metadata, attachments), true)) == Err(TooLarge)
  {
    var attachments := [Attachment("core-dump", content)];
    assert attachments[..0] == [];
    var parts := ClientParts(metadata, attachments);
    ClientUploadAcceptedIff(env, |content|, metadata, attachments);
    ClientPartsMeaning(env, metadata, attachments);
    SoundRefusal(env, |content|, parts);
  }

  /** Sound parts can only be refused for their size. */
  lemma {:induction false} SoundRefusal(env: Env, limit: nat, parts: seq<Part>)
    requires Sound(env, parts) && Size(parts) > limit
    ensures AfterParts(env, limit, parts) == Err(TooLarge)
  {
    var n := |parts| - 1;
    AfterPartsMeaning(env, limit, parts[..n]);
    if Size(parts[..n]) > limit {
      assert forall i :: 0 <= i < n ==> parts[..n][i] == parts[i];
      SoundRefusal(env, limit, parts[..n]);
    }
  }
}
