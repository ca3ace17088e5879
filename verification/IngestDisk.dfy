/** The blob store while uploads interleave: between a writer's look at the store and its rename,
    other writers may finish, also with the same content. */
module IngestDisk {
  import opened Base
  import opened Events
  import opened Storage
  import opened Database
  import opened Ingest
  import opened IngestLinks
  import Upload

  /** An open temporary file holds exactly the bytes its writer has hashed. */
  ghost predicate FileBacked(cfg: Config, disk: Disk, phase: UploadPhase) {
    match phase
    case Between => true
    case InPart(name, temp, hashed) =>
      temp in disk.incoming && (name != Upload.METADATA ==> disk.incoming[temp] == hashed)
    case Finishing(name, temp, hashed, stored) =>
      && name != Upload.METADATA
      && temp in disk.incoming && disk.incoming[temp] == hashed
      && (stored ==> cfg.env.digest(hashed) in disk.blobs)
  }

  ghost predicate FilesBacked(cfg: Config, s: Server) {
    && (forall u :: u in s.uploads ==> FileBacked(cfg, s.disk, s.uploads[u].phase))
    && (forall u, v :: u in s.uploads && v in s.uploads && u != v ==>
          TempOf(s.uploads[u].phase) !! TempOf(s.uploads[v].phase))
  }

  /** What an upload has accumulated is what the specification of `post_report` computes. */
  ghost predicate Refines(cfg: Config, job: UploadJob) {
    Upload.AfterParts(cfg.env, job.limit, job.received) == Ok(job.progress)
  }

  /** A report row is what `post_report` accepts from some request body. */
  ghost predicate Accepted(cfg: Config, row: ReportRow) {
    exists limit: nat, body: Upload.Body ::
      Upload.Verdict(cfg.env, limit, body) == Ok(Upload.Progress(row.totalBytes, Some(row.metadata), row.blobs))
  }

  ghost predicate AllRefine(cfg: Config, s: Server) {
    && (forall u :: u in s.uploads ==> Refines(cfg, s.uploads[u]))
    && (forall r :: r in s.tables.reports ==> Accepted(cfg, s.tables.reports[r]))
  }

  // ---------------------------------------------------------------- content addressing

  lemma ContentAddressedStep(cfg: Config, s: Server, a: Action)
    requires ContentAddressed(cfg.env.digest, s.disk) && FilesBacked(cfg, s) && Enabled(cfg, s, a)
    ensures ContentAddressed(cfg.env.digest, Apply(cfg, s, a).disk)
    ensures forall h :: h in s.disk.blobs ==> h in Apply(cfg, s, a).disk.blobs
  {
    if a.BlobCommit? {
      assert FileBacked(cfg, s.disk, s.uploads[a.req].phase);
    } else {
      BlobsUntouched(cfg, s, a);
    }
  }

  lemma BlobsUntouched(cfg: Config, s: Server, a: Action)
    requires Enabled(cfg, s, a) && !a.BlobCommit?
    ensures Apply(cfg, s, a).disk.blobs == s.disk.blobs
  {
  }

  /** Without digest collisions a stored blob never changes: the second of two racing writers
      renames equal bytes over equal bytes. */
  lemma BlobsStable(cfg: Config, s: Server, a: Action)
    requires ContentAddressed(cfg.env.digest, s.disk) && FilesBacked(cfg, s) && Enabled(cfg, s, a)
    requires Injective(cfg.env.digest)
    ensures forall h :: h in s.disk.blobs ==>
      h in Apply(cfg, s, a).disk.blobs && Apply(cfg, s, a).disk.blobs[h] == s.disk.blobs[h]
  {
    var s' := Apply(cfg, s, a);
    ContentAddressedStep(cfg, s, a);
    hide Apply, Enabled, FilesBacked;
    forall h | h in s.disk.blobs
      ensures h in s'.disk.blobs && s'.disk.blobs[h] == s.disk.blobs[h]
    {
      assert cfg.env.digest(s'.disk.blobs[h]) == h == cfg.env.digest(s.disk.blobs[h]);
    }
  }

  /** Collisions or not, an upload looks for its blob as the part ends, and only one that did not find it there
      writes it. */
  lemma FirstWriterStays(cfg: Config, s: Server, a: Action)
    requires Enabled(cfg, s, a)
    ensures var s' := Apply(cfg, s, a);
      && (a.PartEnd? && a.req in s'.uploads && s'.uploads[a.req].phase.Finishing? ==>
            (s'.uploads[a.req].phase.stored <==> cfg.env.digest(s'.uploads[a.req].phase.hashed) in s.disk.blobs))
      && (s'.disk.blobs != s.disk.blobs ==>
            && a.BlobCommit? && !s.uploads[a.req].phase.stored
            && s'.disk.blobs == s.disk.blobs[cfg.env.digest(s.uploads[a.req].phase.hashed) := s.disk.incoming[s.uploads[a.req].phase.temp]])
  {
    if !a.BlobCommit? {
      BlobsUntouched(cfg, s, a);
      if !a.PartEnd? {
        hide Apply, Enabled;
      }
    }
  }

  // ---------------------------------------------------------------- temporary files

  /** Only the upload that takes the step has its phase or its temporary file changed; a temporary
      file that appears is new. */
  ghost predicate OneFileMoves(s: Server, s': Server, req: ReqId) {
    && (forall u :: u in s'.uploads && u != req ==> u in s.uploads && s'.uploads[u] == s.uploads[u])
    && (forall h :: h in s.disk.blobs ==> h in s'.disk.blobs)
    && (forall u :: u in s.uploads && u != req ==> forall t :: t in TempOf(s.uploads[u].phase) && t in s.disk.incoming ==>
          t in s'.disk.incoming && s'.disk.incoming[t] == s.disk.incoming[t])
    && (req in s'.uploads ==> forall t :: t in TempOf(s'.uploads[req].phase) ==>
          (t !in s.disk.incoming || (req in s.uploads && t in TempOf(s.uploads[req].phase))))
  }

  lemma OneFileStep(cfg: Config, s: Server, a: Action)
    requires FilesBacked(cfg, s) && Enabled(cfg, s, a)
    requires a.PartBegin? || a.PartChunk? || a.PartEnd? || a.BlobCommit? || a.UploadAbort?
    ensures OneFileMoves(s, Apply(cfg, s, a), a.req)
  {
    PartStep(cfg, s, a);
    FileStepShape(cfg, s, a);
    TempsOfOthers(cfg, s, a.req);
    hide Apply, Enabled, FilesBacked, TempOf;
  }

  lemma TempsOfOthers(cfg: Config, s: Server, req: ReqId)
    requires FilesBacked(cfg, s) && req in s.uploads
    ensures forall u, t :: u in s.uploads && u != req && t in TempOf(s.uploads[u].phase) ==> t !in TempOf(s.uploads[req].phase)
  {
    hide FileBacked, TempOf;
    forall u, t | u in s.uploads && u != req && t in TempOf(s.uploads[u].phase)
      ensures t !in TempOf(s.uploads[req].phase)
    {
      assert TempOf(s.uploads[u].phase) !! TempOf(s.uploads[req].phase);
    }
  }

  /** The store only grows, and of the temporary files only that of the upload is touched. */
  ghost predicate FileStep(s: Server, s': Server, req: ReqId)
    requires req in s.uploads
  {
    && (forall h :: h in s.disk.blobs ==> h in s'.disk.blobs)
    && (forall t :: t in s.disk.incoming && t !in TempOf(s.uploads[req].phase) ==>
          t in s'.disk.incoming && s'.disk.incoming[t] == s.disk.incoming[t])
    && (req in s'.uploads ==> forall t :: t in TempOf(s'.uploads[req].phase) ==>
          t !in s.disk.incoming || t in TempOf(s.uploads[req].phase))
  }

  lemma BeginFile(cfg: Config, s: Server, a: Action)
    requires Enabled(cfg, s, a) && a.PartBegin?
    ensures FileStep(s, Apply(cfg, s, a), a.req)
  {
  }

  lemma ChunkFile(cfg: Config, s: Server, a: Action)
    requires Enabled(cfg, s, a) && a.PartChunk?
    ensures FileStep(s, Apply(cfg, s, a), a.req)
  {
  }

  lemma EndFile(cfg: Config, s: Server, a: Action)
    requires Enabled(cfg, s, a) && a.PartEnd?
    ensures FileStep(s, Apply(cfg, s, a), a.req)
  {
  }

  lemma CommitFile(cfg: Config, s: Server, a: Action)
    requires Enabled(cfg, s, a) && a.BlobCommit?
    ensures FileStep(s, Apply(cfg, s, a), a.req)
  {
  }

  lemma AbortFile(cfg: Config, s: Server, a: Action)
    requires Enabled(cfg, s, a) && a.UploadAbort?
    ensures FileStep(s, Apply(cfg, s, a), a.req)
  {
  }

  lemma FileStepShape(cfg: Config, s: Server, a: Action)
    requires Enabled(cfg, s, a) && IsPart(a)
    ensures a.req in s.uploads && FileStep(s, Apply(cfg, s, a), a.req)
  {
    PartStep(cfg, s, a);
    hide Apply, Enabled, FileStep, OneUpload;
    if a.PartBegin? {
      BeginFile(cfg, s, a);
    } else if a.PartChunk? {
      ChunkFile(cfg, s, a);
    } else if a.PartEnd? {
      EndFile(cfg, s, a);
    } else if a.BlobCommit? {
      CommitFile(cfg, s, a);
    } else {
      AbortFile(cfg, s, a);
    }
  }

  lemma OwnFileStep(cfg: Config, s: Server, a: Action)
    requires Enabled(cfg, s, a)
    requires a.PartBegin? || a.PartChunk? || a.PartEnd? || a.BlobCommit? || a.UploadAbort?
    requires FileBacked(cfg, s.disk, s.uploads[a.req].phase)
    ensures var s' := Apply(cfg, s, a); a.req in s'.uploads ==> FileBacked(cfg, s'.disk, s'.uploads[a.req].phase)
  {
  }

  lemma FilesMove(cfg: Config, s: Server, s': Server, req: ReqId)
    requires FilesBacked(cfg, s) && OneFileMoves(s, s', req)
    requires req in s'.uploads ==> FileBacked(cfg, s'.disk, s'.uploads[req].phase)
    ensures FilesBacked(cfg, s')
  {
    forall u | u in s'.uploads
      ensures FileBacked(cfg, s'.disk, s'.uploads[u].phase)
    {
      if u != req {
        assert FileBacked(cfg, s.disk, s.uploads[u].phase);
        assert !s.uploads[u].phase.Between? ==> s.uploads[u].phase.temp in TempOf(s.uploads[u].phase);
      }
    }
    forall u, v | u in s'.uploads && v in s'.uploads && u != v
      ensures TempOf(s'.uploads[u].phase) !! TempOf(s'.uploads[v].phase)
    {
      if v != req {
        TempsApart(cfg, s, s', req, u, v);
      } else {
        TempsApart(cfg, s, s', req, v, u);
      }
    }
  }

  lemma TempsApart(cfg: Config, s: Server, s': Server, req: ReqId, u: ReqId, v: ReqId)
    requires FilesBacked(cfg, s) && OneFileMoves(s, s', req)
    requires u in s'.uploads && v in s'.uploads && u != v && v != req
    ensures TempOf(s'.uploads[u].phase) !! TempOf(s'.uploads[v].phase)
  {
    assert FileBacked(cfg, s.disk, s.uploads[v].phase);
    forall t | t in TempOf(s'.uploads[v].phase)
      ensures t !in TempOf(s'.uploads[u].phase)
    {
      assert t in TempOf(s.uploads[v].phase) && t in s.disk.incoming;
      if u in s.uploads {
        assert TempOf(s.uploads[u].phase) !! TempOf(s.uploads[v].phase);
      }
    }
  }

  lemma FilesBackedStep(cfg: Config, s: Server, a: Action)
    requires FilesBacked(cfg, s) && Enabled(cfg, s, a)
    ensures FilesBacked(cfg, Apply(cfg, s, a))
  {
    if a.PartBegin? || a.PartChunk? || a.PartEnd? || a.BlobCommit? || a.UploadAbort? {
      assert FileBacked(cfg, s.disk, s.uploads[a.req].phase);
      OneFileStep(cfg, s, a);
      OwnFileStep(cfg, s, a);
      FilesMove(cfg, s, Apply(cfg, s, a), a.req);
    } else {
      FilesUntouched(cfg, s, a);
    }
  }

  lemma FilesUntouched(cfg: Config, s: Server, a: Action)
    requires FilesBacked(cfg, s) && Enabled(cfg, s, a)
    requires !(a.PartBegin? || a.PartChunk? || a.PartEnd? || a.BlobCommit? || a.UploadAbort?)
    ensures FilesBacked(cfg, Apply(cfg, s, a))
  {
    OtherStep(cfg, s, a);
    hide Apply, Enabled, FileBacked;
    var s' := Apply(cfg, s, a);
    assert forall u :: u in s'.uploads ==> s'.uploads[u].phase == Between || (u in s.uploads && s'.uploads[u] == s.uploads[u]);
    BetweenBacked(cfg, s.disk);
  }

  lemma BetweenBacked(cfg: Config, disk: Disk)
    ensures FileBacked(cfg, disk, Between)
  {
  }

  // ---------------------------------------------------------------- refinement of post_report

  lemma RefineStep(cfg: Config, s: Server, a: Action)
    requires AllRefine(cfg, s) && UploadsLinked(cfg, s) && FilesBacked(cfg, s) && Enabled(cfg, s, a)
    ensures AllRefine(cfg, Apply(cfg, s, a))
  {
    var s' := Apply(cfg, s, a);
    if a.PartEnd? || a.BlobCommit? {
      assert Refines(cfg, s.uploads[a.req]) && FileBacked(cfg, s.disk, s.uploads[a.req].phase);
      UploadsWithin(cfg, s);
      FinishedPartRefines(cfg, s, a);
    }
    ReportsShape(cfg, s, a);
    ProgressShape(cfg, s, a);
    if a.ReportRecord? {
      RecordedAccepted(cfg, s, a);
    }
    hide Apply, Enabled, Accepted, UploadsLinked, FilesBacked;
  }

  /** The round of the specification's fold for one part that arrived whole. */
  lemma OneRound(cfg: Config, job: UploadJob, name: string, hashed: Bytes)
    requires Refines(cfg, job)
    ensures var part := Upload.Part(name, [hashed], true);
      Upload.AfterParts(cfg.env, job.limit, job.received + [part])
        == Upload.AfterPart(cfg.env, job.limit, job.progress, name, hashed, true)
  {
    var part := Upload.Part(name, [hashed], true);
    Upload.JoinOne(hashed);
    hide Upload.AfterPart;
    assert (job.received + [part])[..|job.received|] == job.received;
  }

  lemma BlobRound(env: Upload.Env, limit: nat, p: Upload.Progress, name: string, hashed: Bytes)
    requires name != Upload.METADATA && p.total + |hashed| <= limit
    ensures Upload.AfterPart(env, limit, p, name, hashed, true)
      == Ok(Upload.Progress(p.total + |hashed|, p.metadata, p.blobs[name := Blob(env.digest(hashed), |hashed|)]))
  {
  }

  lemma MetadataRound(env: Upload.Env, limit: nat, p: Upload.Progress, hashed: Bytes)
    requires env.validJson(hashed) && p.total + |hashed| <= limit
    ensures Upload.AfterPart(env, limit, p, Upload.METADATA, hashed, true)
      == Ok(Upload.Progress(p.total + |hashed|, Some(hashed), p.blobs))
  {
  }

  lemma EndRefines(cfg: Config, s: Server, a: Action)
    requires Enabled(cfg, s, a) && a.PartEnd?
    requires Refines(cfg, s.uploads[a.req]) && Taken(s.uploads[a.req]) <= s.uploads[a.req].limit
    ensures a.req in Apply(cfg, s, a).uploads ==> Refines(cfg, Apply(cfg, s, a).uploads[a.req])
  {
    var job := s.uploads[a.req];
    OneRound(cfg, job, job.phase.name, job.phase.hashed);
    EndEffect(cfg, s, a);
    hide Apply, Enabled, Upload.AfterParts, Upload.AfterPart;
    if a.req in Apply(cfg, s, a).uploads && job.phase.name == Upload.METADATA {
      MetadataRound(cfg.env, job.limit, job.progress, job.phase.hashed);
    }
  }

  lemma EndEffect(cfg: Config, s: Server, a: Action)
    requires Enabled(cfg, s, a) && a.PartEnd?
    ensures a.req in s.uploads && s.uploads[a.req].phase.InPart?
    ensures a.req in Apply(cfg, s, a).uploads ==>
      var job, job' := s.uploads[a.req], Apply(cfg, s, a).uploads[a.req];
      var InPart(name, _, hashed) := job.phase;
      && job'.limit == job.limit
      && if name != Upload.METADATA then job'.progress == job.progress && job'.received == job.received
         else
           && cfg.env.validJson(hashed)
           && job'.progress == Upload.Progress(job.progress.total + |hashed|, Some(hashed), job.progress.blobs)
           && job'.received == job.received + [Upload.Part(name, [hashed], true)]
  {
  }

  lemma CommitRefines(cfg: Config, s: Server, a: Action)
    requires Enabled(cfg, s, a) && a.BlobCommit?
    requires Refines(cfg, s.uploads[a.req]) && Taken(s.uploads[a.req]) <= s.uploads[a.req].limit
    requires FileBacked(cfg, s.disk, s.uploads[a.req].phase)
    ensures a.req in Apply(cfg, s, a).uploads ==> Refines(cfg, Apply(cfg, s, a).uploads[a.req])
  {
    var job := s.uploads[a.req];
    OneRound(cfg, job, job.phase.name, job.phase.hashed);
    CommitEffect(cfg, s, a);
    hide Apply, Enabled, Upload.AfterParts, Upload.AfterPart;
    BlobRound(cfg.env, job.limit, job.progress, job.phase.name, job.phase.hashed);
  }

  lemma CommitEffect(cfg: Config, s: Server, a: Action)
    requires Enabled(cfg, s, a) && a.BlobCommit?
    ensures a.req in s.uploads && s.uploads[a.req].phase.Finishing?
    ensures a.req in Apply(cfg, s, a).uploads ==>
      var job, job' := s.uploads[a.req], Apply(cfg, s, a).uploads[a.req];
      var Finishing(name, _, hashed, _) := job.phase;
      && job'.limit == job.limit
      && job'.progress == Upload.Progress(job.progress.total + |hashed|, job.progress.metadata,
                                          job.progress.blobs[name := Blob(cfg.env.digest(hashed), |hashed|)])
      && job'.received == job.received + [Upload.Part(name, [hashed], true)]
  {
  }

  /** A finished part is one more round of the specification's fold. */
  lemma FinishedPartRefines(cfg: Config, s: Server, a: Action)
    requires Enabled(cfg, s, a) && (a.PartEnd? || a.BlobCommit?)
    requires Refines(cfg, s.uploads[a.req]) && Taken(s.uploads[a.req]) <= s.uploads[a.req].limit
    requires FileBacked(cfg, s.disk, s.uploads[a.req].phase)
    ensures a.req in Apply(cfg, s, a).uploads ==> Refines(cfg, Apply(cfg, s, a).uploads[a.req])
  {
    if a.PartEnd? {
      EndRefines(cfg, s, a);
    } else {
      CommitRefines(cfg, s, a);
    }
    hide Apply, Refines, FileBacked;
  }

  /** Other steps leave the progress of every upload as it was. */
  lemma ProgressShape(cfg: Config, s: Server, a: Action)
    requires Enabled(cfg, s, a)
    ensures forall u :: u in Apply(cfg, s, a).uploads && !((a.PartEnd? || a.BlobCommit?) && u == a.req) ==>
      var job' := Apply(cfg, s, a).uploads[u];
      if u in s.uploads && !(a.TokenRedeem? && u == a.req)
      then job'.progress == s.uploads[u].progress && job'.received == s.uploads[u].received && job'.limit == s.uploads[u].limit
      else job'.progress == Upload.START && job'.received == []
  {
    if IsPart(a) {
      PartStep(cfg, s, a);
      if a.PartBegin? || a.PartChunk? || a.UploadAbort? {
        PhaseOnly(cfg, s, a);
      }
    } else {
      OtherStep(cfg, s, a);
    }
    hide Apply, Enabled;
  }

  lemma ReportsShape(cfg: Config, s: Server, a: Action)
    requires Enabled(cfg, s, a)
    ensures var s' := Apply(cfg, s, a);
      && (forall r :: r in s.tables.reports ==> r in s'.tables.reports && s'.tables.reports[r] == s.tables.reports[r])
      && (forall r :: r in s'.tables.reports && r !in s.tables.reports ==>
            a.ReportRecord? && a.req in s.uploads && s'.tables.reports[r].blobs == s.uploads[a.req].progress.blobs)
  {
    TableStep(cfg, s, a);
    hide Apply, Enabled;
  }

  lemma RecordedAccepted(cfg: Config, s: Server, a: Action)
    requires AllRefine(cfg, s) && Enabled(cfg, s, a) && a.ReportRecord?
    ensures forall r :: r in Apply(cfg, s, a).tables.reports ==> Accepted(cfg, Apply(cfg, s, a).tables.reports[r])
  {
    var job := s.uploads[a.req];
    assert Refines(cfg, job);
    assert Upload.Verdict(cfg.env, job.limit, Upload.Body(job.received, true)) == Ok(job.progress);
    assert Accepted(cfg, RowFor(job));
  }

  // ---------------------------------------------------------------- references

  /** Every reference resolves to a stored blob of the stated size. */
  ghost predicate Resolves(disk: Disk, blobs: map<string, Blob>) {
    forall name :: name in blobs ==>
      blobs[name].sha256 in disk.blobs && |disk.blobs[blobs[name].sha256]| == blobs[name].size
  }

  ghost predicate AllResolve(s: Server) {
    && (forall u :: u in s.uploads ==> Resolves(s.disk, s.uploads[u].progress.blobs))
    && (forall r :: r in s.tables.reports ==> Resolves(s.disk, s.tables.reports[r].blobs))
  }

  lemma ResolvesKept(disk: Disk, disk': Disk, blobs: map<string, Blob>)
    requires Resolves(disk, blobs)
    requires forall h :: h in disk.blobs ==> h in disk'.blobs && disk'.blobs[h] == disk.blobs[h]
    ensures Resolves(disk', blobs)
  {
  }

  lemma NothingResolves(disk: Disk)
    ensures Resolves(disk, map[])
  {
  }

  lemma AllResolveStep(cfg: Config, s: Server, a: Action)
    requires AllResolve(s) && ContentAddressed(cfg.env.digest, s.disk) && FilesBacked(cfg, s) && Enabled(cfg, s, a)
    requires Injective(cfg.env.digest)
    ensures AllResolve(Apply(cfg, s, a))
  {
    BlobsStable(cfg, s, a);
    ReportsShape(cfg, s, a);
    ReferencesShape(cfg, s, a);
    if a.BlobCommit? {
      CommitResolves(cfg, s, a);
    }
    hide Apply, Enabled, FilesBacked, Injective, ContentAddressed, Resolves;
    var s' := Apply(cfg, s, a);
    NothingResolves(s'.disk);
    forall u | u in s'.uploads
      ensures Resolves(s'.disk, s'.uploads[u].progress.blobs)
    {
      if u in s.uploads {
        ResolvesKept(s.disk, s'.disk, s.uploads[u].progress.blobs);
      }
    }
    forall r | r in s'.tables.reports
      ensures Resolves(s'.disk, s'.tables.reports[r].blobs)
    {
      if r in s.tables.reports {
        ResolvesKept(s.disk, s'.disk, s.tables.reports[r].blobs);
      } else {
        ResolvesKept(s.disk, s'.disk, s.uploads[a.req].progress.blobs);
      }
    }
  }

  lemma ReferencesShape(cfg: Config, s: Server, a: Action)
    requires Enabled(cfg, s, a)
    ensures forall u :: u in Apply(cfg, s, a).uploads && !(a.BlobCommit? && u == a.req) ==>
      Apply(cfg, s, a).uploads[u].progress.blobs == if u in s.uploads then s.uploads[u].progress.blobs else map[]
  {
    if a.PartEnd? {
      PartStep(cfg, s, a);
      EndKeepsBlobs(cfg, s, a);
    } else {
      ProgressShape(cfg, s, a);
    }
    hide Apply, Enabled;
  }

  lemma EndKeepsBlobs(cfg: Config, s: Server, a: Action)
    requires Enabled(cfg, s, a) && a.PartEnd?
    ensures var s' := Apply(cfg, s, a);
      a.req in s'.uploads ==> s'.uploads[a.req].progress.blobs == s.uploads[a.req].progress.blobs
  {
  }

  lemma CommitResolves(cfg: Config, s: Server, a: Action)
    requires AllResolve(s) && FilesBacked(cfg, s) && Enabled(cfg, s, a) && a.BlobCommit?
    requires ContentAddressed(cfg.env.digest, s.disk) && Injective(cfg.env.digest)
    ensures var s' := Apply(cfg, s, a); Resolves(s'.disk, s'.uploads[a.req].progress.blobs)
  {
    BlobsStable(cfg, s, a);
    var s' := Apply(cfg, s, a);
    var job := s.uploads[a.req];
    assert FileBacked(cfg, s.disk, job.phase);
    ResolvesKept(s.disk, s'.disk, job.progress.blobs);
    var h := cfg.env.digest(job.phase.hashed);
    assert h in s'.disk.blobs && s'.disk.blobs[h] == job.phase.hashed;
    assert s'.uploads[a.req].progress.blobs == job.progress.blobs[job.phase.name := Blob(h, |job.phase.hashed|)];
  }
}
