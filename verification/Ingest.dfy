/** The server as a machine of small steps: every transaction of db.rs, every chunk and every file
    operation of the two handlers in routes.rs is one step, and the steps of different requests
    interleave freely. A request may stop at any moment (client gone, I/O fault, database fault),
    the clock only moves forward, and an operator may suppress a signature. */
module Ingest {
  import opened Base
  import opened Counting
  import opened Events
  import opened Storage
  import opened Database
  import Upload

  type ReqId = nat

  datatype Config = Config(quota: int, maxPayload: nat, env: Upload.Env)

  /** Where `post_events` stands with the event it is working on. */
  datatype EventsPhase = Recording | Issuing(id: Uuid)

  /** A running `post_events`: it works on `batch[|directives|]`. */
  datatype EventsJob = EventsJob(batch: seq<CrashEvent>, phase: EventsPhase, directives: seq<Directive>)

  /** A finished `post_events`, whose reply may or may not reach the client. */
  datatype Reply = Reply(batch: seq<CrashEvent>, directives: seq<Directive>)

  /** Where `post_report` stands: between two parts, inside one (a temporary file is open), or in
      `finish`, after it looked whether the blob is already stored. */
  datatype UploadPhase =
    | Between
    | InPart(name: string, temp: nat, hashed: Bytes)
    | Finishing(name: string, temp: nat, hashed: Bytes, stored: bool)

  /** A running `post_report`, after its token was redeemed. `received` lists the parts it has
      finished with. */
  datatype UploadJob = UploadJob(
    token: string, eventId: Uuid, signature: string, limit: nat,
    progress: Upload.Progress, phase: UploadPhase, received: seq<Upload.Part>)

  datatype Server = Server(
    now: int,
    tables: Tables,
    disk: Disk,
    jobs: map<ReqId, EventsJob>,
    replies: map<ReqId, Reply>,
    uploads: map<ReqId, UploadJob>)

  datatype Action =
    | Tick(to: int)
    | Suppress(signature: string, flag: bool)
    | EventsArrive(req: ReqId, batch: seq<CrashEvent>)
    | EventRecord(req: ReqId, id: Uuid)
    | TokenIssue(req: ReqId, token: string, expiresAt: int)
    | EventsReply(req: ReqId)
    | EventsAbort(req: ReqId)
    | TokenRedeem(req: ReqId, token: string)
    | PartBegin(req: ReqId, name: string, temp: nat)
    | PartChunk(req: ReqId, chunk: Bytes)
    | PartEnd(req: ReqId)
    | BlobCommit(req: ReqId)
    | ReportRecord(req: ReqId, id: Uuid)
    | UploadAbort(req: ReqId, cleaned: bool)

  ghost function Init(now: int): Server {
    Server(now, EMPTY, Disk(map[], map[]), map[], map[], map[])
  }

  /** The event a `post_events` works on. */
  ghost predicate Working(s: Server, req: ReqId) {
    req in s.jobs && |s.jobs[req].directives| < |s.jobs[req].batch|
  }

  ghost function Current(s: Server, req: ReqId): CrashEvent
    requires Working(s, req)
  {
    s.jobs[req].batch[|s.jobs[req].directives|]
  }

  /** The cap of an upload: a little above the announced core, never above the server's maximum. */
  function MaxBytes(cfg: Config, event: CrashEvent): nat {
    Min(match event.coreSize
        case Some(size) => SaturatingAddU64(size, 1024 * 1024)
        case None => cfg.maxPayload, cfg.maxPayload)
  }

  /** Which steps can happen (an open temporary file is never missing: see `IngestDisk`). A temporary
      name, a token and a row id are fresh when drawn (a clash is a unique violation, which ends the
      request: that is an abort). */
  ghost predicate Enabled(cfg: Config, s: Server, a: Action) {
    match a
    case Tick(to) => s.now <= to
    case Suppress(signature, _) => signature in s.tables.signatures
    case EventsArrive(req, _) => req !in s.jobs && req !in s.replies
    case EventRecord(req, id) => Working(s, req) && s.jobs[req].phase.Recording? && id !in s.tables.events
    case TokenIssue(req, token, _) =>
      Working(s, req) && s.jobs[req].phase.Issuing?
      && CanIssue(s.tables, token, s.jobs[req].phase.id, Current(s, req).signature)
    case EventsReply(req) => req in s.jobs && !Working(s, req) && req !in s.replies
    case EventsAbort(req) => req in s.jobs
    case TokenRedeem(req, token) => req !in s.uploads && Redeemable(s.tables, token, s.now)
    case PartBegin(req, _, temp) => req in s.uploads && s.uploads[req].phase.Between? && temp !in s.disk.incoming
    case PartChunk(req, _) => req in s.uploads && s.uploads[req].phase.InPart? && s.uploads[req].phase.temp in s.disk.incoming
    case PartEnd(req) => req in s.uploads && s.uploads[req].phase.InPart?
    case BlobCommit(req) => req in s.uploads && s.uploads[req].phase.Finishing? && s.uploads[req].phase.temp in s.disk.incoming
    case ReportRecord(req, id) =>
      req in s.uploads && s.uploads[req].phase.Between? && s.uploads[req].progress.metadata.Some?
      && CanReport(s.tables, id, RowFor(s.uploads[req]))
    case UploadAbort(req, _) => req in s.uploads
  }

  ghost function RowFor(job: UploadJob): ReportRow
    requires job.progress.metadata.Some?
  {
    ReportRow(job.eventId, job.signature, job.progress.total, job.progress.metadata.value, job.progress.blobs)
  }

  ghost function Apply(cfg: Config, s: Server, a: Action): Server
    requires Enabled(cfg, s, a)
  {
    match a
    case Tick(to) => s.(now := to)
    case Suppress(signature, flag) =>
      var row := s.tables.signatures[signature];
      s.(tables := s.tables.(signatures := s.tables.signatures[signature := row.(suppressed := flag)]))
    case EventsArrive(req, batch) => s.(jobs := s.jobs[req := EventsJob(batch, Recording, [])])
    case EventRecord(req, id) => RecordEvent(cfg, s, req, id)
    case TokenIssue(req, token, expiresAt) => IssueToken(cfg, s, req, token, expiresAt)
    case EventsReply(req) =>
      s.(jobs := s.jobs - {req}, replies := s.replies[req := Reply(s.jobs[req].batch, s.jobs[req].directives)])
    case EventsAbort(req) => s.(jobs := s.jobs - {req})
    case TokenRedeem(req, token) => RedeemToken(cfg, s, req, token)
    case PartBegin(req, name, temp) =>
      SetPhase(s, req, InPart(name, temp, [])).(disk := s.disk.(incoming := s.disk.incoming[temp := []]))
    case PartChunk(req, chunk) => Chunk(s, req, chunk)
    case PartEnd(req) => EndPart(cfg, s, req)
    case BlobCommit(req) => Commit(cfg, s, req)
    case ReportRecord(req, id) =>
      s.(tables := WithReport(s.tables, id, RowFor(s.uploads[req])), uploads := s.uploads - {req})
    case UploadAbort(req, cleaned) => if cleaned then Drop(s, req) else Abandon(s, req)
  }

  ghost function RecordEvent(cfg: Config, s: Server, req: ReqId, id: Uuid): Server
    requires Working(s, req)
  {
    var event := Current(s, req);
    var job := s.jobs[req];
    var job' := if NeedPayload(s.tables, event, cfg.quota) then job.(phase := Issuing(id))
                else job.(directives := job.directives + [NotNeeded(id)]);
    s.(tables := WithEvent(s.tables, event, cfg.quota, id), jobs := s.jobs[req := job'])
  }

  ghost function IssueToken(cfg: Config, s: Server, req: ReqId, token: string, expiresAt: int): Server
    requires Working(s, req) && s.jobs[req].phase.Issuing?
  {
    var event := Current(s, req);
    var job := s.jobs[req];
    var id := job.phase.id;
    var cap := MaxBytes(cfg, event);
    var directive := Directive(Some(id), true, Some(token), Some(cap), Some(expiresAt));
    s.(tables := WithToken(s.tables, token, TokenRow(id, event.signature, AsI64(cap), expiresAt, None)),
       jobs := s.jobs[req := EventsJob(job.batch, Recording, job.directives + [directive])])
  }

  /** The limit of an upload, read back from the signed column of its token. */
  ghost function Limit(cfg: Config, row: TokenRow): nat {
    Min(AsU64(row.maxBytes), cfg.maxPayload)
  }

  ghost function RedeemToken(cfg: Config, s: Server, req: ReqId, token: string): Server
    requires token in s.tables.tokens
  {
    var row := s.tables.tokens[token];
    var job := UploadJob(token, row.eventId, row.signature, Limit(cfg, row), Upload.START, Between, []);
    s.(tables := Redeemed(s.tables, token, s.now), uploads := s.uploads[req := job])
  }

  ghost function SetPhase(s: Server, req: ReqId, phase: UploadPhase): Server
    requires req in s.uploads
  {
    s.(uploads := s.uploads[req := s.uploads[req].(phase := phase)])
  }

  ghost function TempOf(phase: UploadPhase): set<nat> {
    if phase.Between? then {} else {phase.temp}
  }

  /** The handler is gone without a word, because its client hung up or a file operation failed as it
      finished a blob: the temporary file stays behind. */
  ghost function Abandon(s: Server, req: ReqId): Server {
    s.(uploads := s.uploads - {req})
  }

  /** The handler refuses the upload; its temporary file, if any, is removed. */
  ghost function Drop(s: Server, req: ReqId): Server
    requires req in s.uploads
  {
    s.(uploads := s.uploads - {req},
       disk := s.disk.(incoming := s.disk.incoming - TempOf(s.uploads[req].phase)))
  }

  ghost function Chunk(s: Server, req: ReqId, chunk: Bytes): Server
    requires req in s.uploads && s.uploads[req].phase.InPart? && s.uploads[req].phase.temp in s.disk.incoming
  {
    var job := s.uploads[req];
    var InPart(name, temp, hashed) := job.phase;
    if job.progress.total + |hashed| + |chunk| > job.limit then Drop(s, req)
    else
      var s' := SetPhase(s, req, InPart(name, temp, hashed + chunk));
      // Metadata is buffered in memory; everything else also goes to the temporary file.
      if name == Upload.METADATA then s'
      else s'.(disk := s.disk.(incoming := s.disk.incoming[temp := s.disk.incoming[temp] + chunk]))
  }

  ghost function EndPart(cfg: Config, s: Server, req: ReqId): Server
    requires req in s.uploads && s.uploads[req].phase.InPart?
  {
    var job := s.uploads[req];
    var InPart(name, temp, hashed) := job.phase;
    if name != Upload.METADATA then
      SetPhase(s, req, Finishing(name, temp, hashed, cfg.env.digest(hashed) in s.disk.blobs))
    else if !cfg.env.validJson(hashed) then Drop(s, req)
    else
      var progress := Upload.Progress(job.progress.total + |hashed|, Some(hashed), job.progress.blobs);
      s.(uploads := s.uploads[req := job.(progress := progress, phase := Between, received := job.received + [Upload.Part(name, [hashed], true)])],
         disk := s.disk.(incoming := s.disk.incoming - {temp}))
  }

  /** The second half of `finish`: drop the duplicate, or rename over whatever is there by now. */
  ghost function Commit(cfg: Config, s: Server, req: ReqId): Server
    requires req in s.uploads && s.uploads[req].phase.Finishing? && s.uploads[req].phase.temp in s.disk.incoming
  {
    var job := s.uploads[req];
    var Finishing(name, temp, hashed, stored) := job.phase;
    var h := cfg.env.digest(hashed);
    var blobs' := if stored then s.disk.blobs else s.disk.blobs[h := s.disk.incoming[temp]];
    var progress := Upload.Progress(job.progress.total + |hashed|, job.progress.metadata,
                                    job.progress.blobs[name := Blob(h, |hashed|)]);
    s.(disk := Disk(blobs', s.disk.incoming - {temp}),
       uploads := s.uploads[req := job.(progress := progress, phase := Between, received := job.received + [Upload.Part(name, [hashed], true)])])
  }

  // ---------------------------------------------------------------- runs

  /** A run: the states it passes through, one action between each two. */
  ghost predicate Run(cfg: Config, states: seq<Server>, actions: seq<Action>) {
    && |states| == |actions| + 1
    && (exists now :: states[0] == Init(now))
    && forall i :: 0 <= i < |actions| ==> Enabled(cfg, states[i], actions[i]) && states[i + 1] == Apply(cfg, states[i], actions[i])
  }

  ghost predicate Reachable(cfg: Config, s: Server) {
    exists states, actions :: Run(cfg, states, actions) && states[|actions|] == s
  }

  /** The server can get from one state to another by steps of the machine. */
  ghost predicate Path(cfg: Config, states: seq<Server>, actions: seq<Action>) {
    && |states| == |actions| + 1
    && forall i :: 0 <= i < |actions| ==> Enabled(cfg, states[i], actions[i]) && states[i + 1] == Apply(cfg, states[i], actions[i])
  }

  ghost predicate Leads(cfg: Config, s: Server, t: Server) {
    exists states, actions :: Path(cfg, states, actions) && states[0] == s && states[|actions|] == t
  }

  lemma LeadsNowhere(cfg: Config, s: Server)
    ensures Leads(cfg, s, s)
  {
    assert Path(cfg, [s], []);
  }

  lemma LeadsFurther(cfg: Config, s: Server, t: Server, a: Action)
    requires Leads(cfg, s, t) && Enabled(cfg, t, a)
    ensures Leads(cfg, s, Apply(cfg, t, a))
  {
    hide Apply, Enabled;
    var states, actions :| Path(cfg, states, actions) && states[0] == s && states[|actions|] == t;
    var longer, more := states + [Apply(cfg, t, a)], actions + [a];
    forall i | 0 <= i < |more|
      ensures Enabled(cfg, longer[i], more[i]) && longer[i + 1] == Apply(cfg, longer[i], more[i])
    {
      assert longer[i] == states[i] && (i < |actions| ==> more[i] == actions[i] && longer[i + 1] == states[i + 1]);
    }
    assert Path(cfg, longer, more) && longer[0] == s && longer[|more|] == Apply(cfg, t, a);
  }

  // ---------------------------------------------------------------- what a step touches

  /** A step inside an upload. */
  predicate IsPart(a: Action) {
    a.PartBegin? || a.PartChunk? || a.PartEnd? || a.BlobCommit? || a.UploadAbort?
  }

  /** The tables change by a transaction or not at all. */
  lemma TableStep(cfg: Config, s: Server, a: Action)
    requires Enabled(cfg, s, a)
    ensures var t, t' := s.tables, Apply(cfg, s, a).tables;
      match a
      case EventRecord(req, id) => id !in t.events && t' == WithEvent(t, Current(s, req), cfg.quota, id)
      case TokenIssue(_, token, _) => token !in t.tokens && token in t'.tokens && t' == WithToken(t, token, t'.tokens[token])
      case TokenRedeem(_, token) => Redeemable(t, token, s.now) && t' == Redeemed(t, token, s.now)
      case ReportRecord(req, id) =>
        && req in s.uploads && s.uploads[req].progress.metadata.Some?
        && CanReport(t, id, RowFor(s.uploads[req])) && t' == WithReport(t, id, RowFor(s.uploads[req]))
      case Suppress(_, _) => t' == t.(signatures := t'.signatures)
      case _ => t' == t
  {
    hide NeedPayload, WithEvent, Redeemable, Limit, MaxBytes;
    if IsPart(a) {
      PartStep(cfg, s, a);
      hide Apply, Enabled;
    }
  }

  /** At most the uploads of the request that takes the step change. */
  predicate OneUpload(s: Server, s': Server, req: ReqId) {
    s'.uploads == s.uploads - {req} || (req in s'.uploads && s'.uploads == s.uploads[req := s'.uploads[req]])
  }

  lemma PartStep(cfg: Config, s: Server, a: Action)
    requires Enabled(cfg, s, a) && IsPart(a)
    ensures var s' := Apply(cfg, s, a);
      && a.req in s.uploads && OneUpload(s, s', a.req)
      && s'.tables == s.tables && s'.jobs == s.jobs && s'.replies == s.replies && s'.now == s.now
  {
  }

  /** Only a finished part adds to what an upload has received. */
  lemma PhaseOnly(cfg: Config, s: Server, a: Action)
    requires Enabled(cfg, s, a) && (a.PartBegin? || a.PartChunk? || a.UploadAbort?)
    ensures var s' := Apply(cfg, s, a);
      a.req in s'.uploads ==> s'.uploads[a.req] == s.uploads[a.req].(phase := s'.uploads[a.req].phase)
  {
  }

  /** An upload that has received nothing yet. */
  predicate Begun(s: Server, req: ReqId) {
    && req in s.uploads
    && s.uploads[req].phase == Between && s.uploads[req].progress == Upload.START && s.uploads[req].received == []
  }

  /** Outside the parts an upload begins, ends, or stays as it was, and the disk is left alone. */
  lemma OtherStep(cfg: Config, s: Server, a: Action)
    requires Enabled(cfg, s, a) && !IsPart(a)
    ensures var s' := Apply(cfg, s, a);
      && s'.disk == s.disk
      && (a.TokenRedeem? ==> a.req !in s.uploads && OneUpload(s, s', a.req) && Begun(s', a.req))
      && (a.ReportRecord? ==> a.req in s.uploads && s'.uploads == s.uploads - {a.req})
      && (!a.TokenRedeem? && !a.ReportRecord? ==> s'.uploads == s.uploads)
  {
    hide NeedPayload, WithEvent, Redeemable, Limit, MaxBytes, WithReport, Redeemed;
  }

  /** A token is good for as many bytes, and for as long, as the directive that carries it announces. */
  lemma IssuedLimit(cfg: Config, s: Server, a: Action)
    requires Enabled(cfg, s, a) && a.TokenIssue? && cfg.maxPayload < U64_LIMIT
    ensures var s' := Apply(cfg, s, a);
      && a.token in s'.tables.tokens && a.req in s'.jobs && |s'.jobs[a.req].directives| == |s.jobs[a.req].directives| + 1
      && s'.jobs[a.req].directives[|s.jobs[a.req].directives|].maxBytes == Some(Limit(cfg, s'.tables.tokens[a.token]))
      && s'.jobs[a.req].directives[|s.jobs[a.req].directives|].expiresAt == Some(s'.tables.tokens[a.token].expiresAt)
  {
  }
}
