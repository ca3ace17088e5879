/** What every reachable state of the server says about its tables: a payload is stored only against
    a token issued for that very event, each token is spent at most once, and the counters of a
    signature are the numbers of its rows. */
module IngestLinks {
  import opened Base
  import opened Counting
  import opened Events
  import opened Database
  import opened Ingest
  import Upload

  // ---------------------------------------------------------------- tokens, uploads and reports

  /** A token was issued for an event of the same signature whose payload was wanted. */
  ghost predicate TokenBacked(t: Tables, token: TokenRow) {
    && token.eventId in t.events
    && t.events[token.eventId].payloadWanted
    && t.events[token.eventId].event.signature == token.signature
  }

  ghost predicate TokensLinked(t: Tables) {
    && (forall k :: k in t.tokens ==> TokenBacked(t, t.tokens[k]))
    && (forall k, l :: k in t.tokens && l in t.tokens && t.tokens[k].eventId == t.tokens[l].eventId ==> k == l)
    && (forall id :: id in t.events && t.events[id].payloadWanted ==> t.events[id].event.coreAvailable)
  }

  /** A decision that waits for its token: its event is its own, and has no token yet. */
  ghost predicate Decided(s: Server, req: ReqId) {
    Working(s, req) && s.jobs[req].phase.Issuing?
  }

  ghost predicate DecisionsLinked(s: Server) {
    && (forall req :: Decided(s, req) ==>
          && s.jobs[req].phase.id in s.tables.events
          && s.tables.events[s.jobs[req].phase.id] == EventRow(Current(s, req), true)
          && forall k :: k in s.tables.tokens ==> s.tables.tokens[k].eventId != s.jobs[req].phase.id)
    && (forall q, r :: Decided(s, q) && Decided(s, r) && s.jobs[q].phase.id == s.jobs[r].phase.id ==> q == r)
  }

  /** The bytes an upload has taken in so far, including the part it is in. */
  ghost function Taken(job: UploadJob): nat {
    job.progress.total + if job.phase.Between? then 0 else |job.phase.hashed|
  }

  /** An upload spends a redeemed token, for that token's event, within that token's limit. */
  ghost predicate UploadBacked(cfg: Config, t: Tables, job: UploadJob) {
    && job.token in t.tokens
    && t.tokens[job.token].redeemedAt.Some?
    && t.tokens[job.token].eventId == job.eventId && t.tokens[job.token].signature == job.signature
    && job.limit == Limit(cfg, t.tokens[job.token])
    && Taken(job) <= job.limit
  }

  ghost predicate UploadsLinked(cfg: Config, s: Server) {
    && (forall u :: u in s.uploads ==> UploadBacked(cfg, s.tables, s.uploads[u]))
    && (forall u, v :: u in s.uploads && v in s.uploads && s.uploads[u].token == s.uploads[v].token ==> u == v)
  }

  /** `k` is the token a report was uploaded with. */
  ghost predicate Spent(cfg: Config, t: Tables, report: ReportRow, k: string) {
    && k in t.tokens
    && t.tokens[k].redeemedAt.Some?
    && t.tokens[k].eventId == report.eventId && t.tokens[k].signature == report.signature
    && report.totalBytes <= Limit(cfg, t.tokens[k])
  }

  ghost predicate ReportsLinked(cfg: Config, s: Server) {
    && (forall r :: r in s.tables.reports ==> exists k :: Spent(cfg, s.tables, s.tables.reports[r], k))
    && (forall q, r | q in s.tables.reports && r in s.tables.reports ::
          s.tables.reports[q].eventId == s.tables.reports[r].eventId ==> q == r)
    && (forall r, u :: r in s.tables.reports && u in s.uploads ==> s.tables.reports[r].eventId != s.uploads[u].eventId)
  }

  ghost predicate Linked(cfg: Config, s: Server) {
    TokensLinked(s.tables) && DecisionsLinked(s) && UploadsLinked(cfg, s) && ReportsLinked(cfg, s)
  }

  lemma EventTokens(t: Tables, event: CrashEvent, quota: int, id: Uuid)
    requires TokensLinked(t) && id !in t.events
    ensures TokensLinked(WithEvent(t, event, quota, id))
  {
    assert forall k :: k in t.tokens ==> t.tokens[k].eventId in t.events;
  }

  lemma EventDecisions(cfg: Config, s: Server, a: Action)
    requires DecisionsLinked(s) && TokensLinked(s.tables) && Enabled(cfg, s, a) && a.EventRecord?
    ensures DecisionsLinked(Apply(cfg, s, a))
  {
    var s' := Apply(cfg, s, a);
    assert s'.tables.tokens == s.tables.tokens;
    assert forall k :: k in s.tables.tokens ==> s.tables.tokens[k].eventId in s.tables.events;
  }

  lemma EventRest(cfg: Config, s: Server, a: Action)
    requires Enabled(cfg, s, a) && a.EventRecord?
    ensures var s' := Apply(cfg, s, a);
      s'.tables.tokens == s.tables.tokens && s'.tables.reports == s.tables.reports && s'.uploads == s.uploads
  {
    hide NeedPayload;
  }

  lemma EventStepLinked(cfg: Config, s: Server, a: Action)
    requires Linked(cfg, s) && Enabled(cfg, s, a) && a.EventRecord?
    ensures Linked(cfg, Apply(cfg, s, a))
  {
    TableStep(cfg, s, a);
    EventTokens(s.tables, Current(s, a.req), cfg.quota, a.id);
    EventDecisions(cfg, s, a);
    EventRest(cfg, s, a);
    hide Apply, Enabled, TokensLinked, DecisionsLinked, WithEvent;
    ReportsKept(cfg, s, Apply(cfg, s, a));
    hide ReportsLinked;
  }

  lemma JobStepLinked(cfg: Config, s: Server, a: Action)
    requires Linked(cfg, s) && Enabled(cfg, s, a)
    requires a.EventsArrive? || a.EventsReply? || a.EventsAbort? || a.Tick? || a.Suppress?
    ensures Linked(cfg, Apply(cfg, s, a))
  {
    var s' := Apply(cfg, s, a);
    assert s'.tables.tokens == s.tables.tokens && s'.tables.reports == s.tables.reports && s'.tables.events == s.tables.events;
    assert s'.uploads == s.uploads;
    forall req | Decided(s', req)
      ensures Decided(s, req) && s'.jobs[req] == s.jobs[req]
    {
    }
    ReportsKept(cfg, s, s');
  }

  /** Tokens stay, keep what they are for, and are redeemed at most once. */
  ghost predicate TokensPreserved(t: Tables, t': Tables) {
    forall k :: k in t.tokens ==> TokenPreserved(t, t', k)
  }

  ghost predicate TokenPreserved(t: Tables, t': Tables, k: string)
    requires k in t.tokens
  {
    && k in t'.tokens
    && t'.tokens[k] == t.tokens[k].(redeemedAt := t'.tokens[k].redeemedAt)
    && (t.tokens[k].redeemedAt.Some? ==> t'.tokens[k] == t.tokens[k])
  }

  lemma DecisionsKept(s: Server, s': Server)
    requires DecisionsLinked(s) && s'.jobs == s.jobs && s'.tables.events == s.tables.events
    requires forall k :: k in s'.tables.tokens ==> k in s.tables.tokens && s'.tables.tokens[k].eventId == s.tables.tokens[k].eventId
    ensures DecisionsLinked(s')
  {
    forall req | Decided(s', req)
      ensures Decided(s, req) && Current(s', req) == Current(s, req)
    {
    }
  }

  /** The links of the reports survive when tokens are only added or redeemed. */
  lemma ReportsKept(cfg: Config, s: Server, s': Server)
    requires ReportsLinked(cfg, s) && s'.tables.reports == s.tables.reports
    requires TokensPreserved(s.tables, s'.tables)
    requires forall r, u :: r in s'.tables.reports && u in s'.uploads ==> s'.tables.reports[r].eventId != s'.uploads[u].eventId
    ensures ReportsLinked(cfg, s')
  {
    forall r | r in s'.tables.reports
      ensures exists k :: Spent(cfg, s'.tables, s'.tables.reports[r], k)
    {
      var k :| Spent(cfg, s.tables, s.tables.reports[r], k);
      assert Spent(cfg, s'.tables, s'.tables.reports[r], k);
    }
  }

  lemma IssueStepLinked(cfg: Config, s: Server, a: Action)
    requires Linked(cfg, s) && Enabled(cfg, s, a) && a.TokenIssue?
    ensures Linked(cfg, Apply(cfg, s, a))
  {
    var s' := Apply(cfg, s, a);
    assert Decided(s, a.req);
    forall req | Decided(s', req)
      ensures Decided(s, req) && s'.jobs[req] == s.jobs[req] && req != a.req
    {
    }
    ReportsKept(cfg, s, s');
  }

  lemma RedeemStepLinked(cfg: Config, s: Server, a: Action)
    requires Linked(cfg, s) && Enabled(cfg, s, a) && a.TokenRedeem?
    ensures Linked(cfg, Apply(cfg, s, a))
  {
    DecisionsKept(s, Apply(cfg, s, a));
    RedeemedUploads(cfg, s, a);
    RedeemedReports(cfg, s, a);
    RedeemedTokens(s.tables, a.token, s.now);
    hide Apply, TokensLinked, DecisionsLinked, UploadsLinked, ReportsLinked;
  }

  lemma RedeemedTokens(t: Tables, token: string, now: int)
    requires TokensLinked(t) && token in t.tokens
    ensures TokensLinked(Redeemed(t, token, now))
  {
  }

  lemma RedeemedReports(cfg: Config, s: Server, a: Action)
    requires UploadsLinked(cfg, s) && ReportsLinked(cfg, s) && TokensLinked(s.tables)
    requires Enabled(cfg, s, a) && a.TokenRedeem?
    ensures ReportsLinked(cfg, Apply(cfg, s, a))
  {
    forall r | r in s.tables.reports
      ensures s.tables.reports[r].eventId != s.tables.tokens[a.token].eventId
    {
      var k :| Spent(cfg, s.tables, s.tables.reports[r], k);
    }
    ReportsKept(cfg, s, Apply(cfg, s, a));
  }

  lemma RedeemedUploads(cfg: Config, s: Server, a: Action)
    requires UploadsLinked(cfg, s) && Enabled(cfg, s, a) && a.TokenRedeem?
    ensures UploadsLinked(cfg, Apply(cfg, s, a))
  {
    var s' := Apply(cfg, s, a);
    assert forall u :: u in s.uploads ==> s.uploads[u].token != a.token;
    assert UploadBacked(cfg, s'.tables, s'.uploads[a.req]);
  }

  /** A step inside an upload keeps what backs it, and never takes in more than the limit. */
  lemma PartStepLinked(cfg: Config, s: Server, a: Action)
    requires Linked(cfg, s) && Enabled(cfg, s, a)
    requires a.PartBegin? || a.PartChunk? || a.PartEnd? || a.BlobCommit? || a.UploadAbort?
    ensures Linked(cfg, Apply(cfg, s, a))
  {
    UploadsWithin(cfg, s);
    hide UploadBacked, UploadsLinked, TokensLinked, DecisionsLinked, ReportsLinked, Apply;
    assert a.req in s.uploads;
    PartStepShape(cfg, s, a);
    PartMoves(cfg, s, Apply(cfg, s, a), a.req);
  }

  lemma UploadsWithin(cfg: Config, s: Server)
    requires UploadsLinked(cfg, s)
    ensures forall u :: u in s.uploads ==> Taken(s.uploads[u]) <= s.uploads[u].limit
  {
    assert forall u :: u in s.uploads ==> UploadBacked(cfg, s.tables, s.uploads[u]);
  }

  lemma PartMoves(cfg: Config, s: Server, s': Server, req: ReqId)
    requires Linked(cfg, s) && OneUploadMoves(s, s', req)
    ensures Linked(cfg, s')
  {
    DecisionsKept(s, s');
    UploadsKept(cfg, s, s', req);
    ReportsKept(cfg, s, s');
  }

  /** The tables are untouched, and at most the upload `req` moves on, still the same upload. */
  ghost predicate OneUploadMoves(s: Server, s': Server, req: ReqId) {
    && s'.tables == s.tables && s'.jobs == s.jobs
    && (forall u :: u in s'.uploads ==> u in s.uploads && (u != req ==> s'.uploads[u] == s.uploads[u]))
    && (req in s'.uploads ==>
          var job, job' := s.uploads[req], s'.uploads[req];
          && job'.token == job.token && job'.eventId == job.eventId && job'.signature == job.signature
          && job'.limit == job.limit && Taken(job') <= job'.limit)
  }

  lemma UploadsKept(cfg: Config, s: Server, s': Server, req: ReqId)
    requires UploadsLinked(cfg, s) && OneUploadMoves(s, s', req)
    ensures UploadsLinked(cfg, s')
  {
    forall u | u in s'.uploads
      ensures UploadBacked(cfg, s'.tables, s'.uploads[u])
    {
      assert UploadBacked(cfg, s.tables, s.uploads[u]);
    }
    forall u, v | u in s'.uploads && v in s'.uploads && s'.uploads[u].token == s'.uploads[v].token
      ensures u == v
    {
      assert s.uploads[u].token == s.uploads[v].token;
    }
  }

  lemma PartStepShape(cfg: Config, s: Server, a: Action)
    requires Enabled(cfg, s, a)
    requires a.PartBegin? || a.PartChunk? || a.PartEnd? || a.BlobCommit? || a.UploadAbort?
    requires a.req in s.uploads && Taken(s.uploads[a.req]) <= s.uploads[a.req].limit
    ensures OneUploadMoves(s, Apply(cfg, s, a), a.req)
  {
    if a.PartEnd? || a.BlobCommit? {
      PartEndShape(cfg, s, a);
    }
  }

  lemma PartEndShape(cfg: Config, s: Server, a: Action)
    requires Enabled(cfg, s, a) && (a.PartEnd? || a.BlobCommit?)
    requires a.req in s.uploads && Taken(s.uploads[a.req]) <= s.uploads[a.req].limit
    ensures OneUploadMoves(s, Apply(cfg, s, a), a.req)
  {
    PartStep(cfg, s, a);
    if a.PartEnd? {
      EndKeepsUpload(cfg, s, a);
    } else {
      CommitKeepsUpload(cfg, s, a);
    }
    hide Apply, Enabled;
  }

  /** Still the same upload, within its limit. */
  ghost predicate SameUpload(s: Server, s': Server, req: ReqId)
    requires req in s.uploads
  {
    req in s'.uploads ==>
      var job, job' := s.uploads[req], s'.uploads[req];
      && job'.token == job.token && job'.eventId == job.eventId && job'.signature == job.signature
      && job'.limit == job.limit && Taken(job') <= job'.limit
  }

  lemma EndKeepsUpload(cfg: Config, s: Server, a: Action)
    requires Enabled(cfg, s, a) && a.PartEnd? && Taken(s.uploads[a.req]) <= s.uploads[a.req].limit
    ensures SameUpload(s, Apply(cfg, s, a), a.req)
  {
  }

  lemma CommitKeepsUpload(cfg: Config, s: Server, a: Action)
    requires Enabled(cfg, s, a) && a.BlobCommit? && Taken(s.uploads[a.req]) <= s.uploads[a.req].limit
    ensures SameUpload(s, Apply(cfg, s, a), a.req)
  {
  }

  /** The recorded report is linked to the token of its upload, and no other report has its event. */
  lemma ReportStepReports(cfg: Config, s: Server, a: Action)
    requires UploadsLinked(cfg, s) && TokensLinked(s.tables) && ReportsLinked(cfg, s)
    requires Enabled(cfg, s, a) && a.ReportRecord?
    ensures ReportsLinked(cfg, Apply(cfg, s, a))
  {
    var s' := Apply(cfg, s, a);
    TableStep(cfg, s, a);
    OtherStep(cfg, s, a);
    var job := s.uploads[a.req];
    assert UploadBacked(cfg, s.tables, job);
    hide Apply, Enabled, CanReport, Limit;
    assert s'.tables.tokens == s.tables.tokens;
    assert s'.tables.reports == s.tables.reports[a.id := RowFor(job)];
    assert Spent(cfg, s'.tables, RowFor(job), job.token);
    OthersApart(cfg, s, a.req);
    hide UploadsLinked, TokensLinked, UploadBacked, WithReport;
    forall r | r in s'.tables.reports
      ensures exists k :: Spent(cfg, s'.tables, s'.tables.reports[r], k)
    {
      if r != a.id {
        var k :| Spent(cfg, s.tables, s.tables.reports[r], k);
        assert Spent(cfg, s'.tables, s'.tables.reports[r], k);
      }
    }
    hide Spent;
  }

  /** No two uploads work for one event. */
  lemma OthersApart(cfg: Config, s: Server, req: ReqId)
    requires UploadsLinked(cfg, s) && TokensLinked(s.tables) && req in s.uploads
    ensures forall u :: u in s.uploads && u != req ==> s.uploads[u].eventId != s.uploads[req].eventId
  {
    forall u | u in s.uploads && u != req
      ensures s.uploads[u].eventId != s.uploads[req].eventId
    {
      assert UploadBacked(cfg, s.tables, s.uploads[u]) && UploadBacked(cfg, s.tables, s.uploads[req]);
      assert s.uploads[u].token != s.uploads[req].token;
    }
  }

  lemma ReportStepRest(cfg: Config, s: Server, a: Action)
    requires UploadsLinked(cfg, s) && TokensLinked(s.tables) && DecisionsLinked(s)
    requires Enabled(cfg, s, a) && a.ReportRecord?
    ensures TokensLinked(Apply(cfg, s, a).tables) && UploadsLinked(cfg, Apply(cfg, s, a)) && DecisionsLinked(Apply(cfg, s, a))
  {
    DecisionsKept(s, Apply(cfg, s, a));
    hide DecisionsLinked;
  }

  lemma ReportStepLinked(cfg: Config, s: Server, a: Action)
    requires Linked(cfg, s) && Enabled(cfg, s, a) && a.ReportRecord?
    ensures Linked(cfg, Apply(cfg, s, a))
  {
    ReportStepReports(cfg, s, a);
    ReportStepRest(cfg, s, a);
    hide Apply, TokensLinked, DecisionsLinked, UploadsLinked, ReportsLinked;
  }

  lemma LinkedStep(cfg: Config, s: Server, a: Action)
    requires Linked(cfg, s) && Enabled(cfg, s, a)
    ensures Linked(cfg, Apply(cfg, s, a))
  {
    hide Apply, Linked;
    match a {
      case EventRecord(_, _) => EventStepLinked(cfg, s, a);
      case TokenIssue(_, _, _) => IssueStepLinked(cfg, s, a);
      case TokenRedeem(_, _) => RedeemStepLinked(cfg, s, a);
      case ReportRecord(_, _) => ReportStepLinked(cfg, s, a);
      case Tick(_) => JobStepLinked(cfg, s, a);
      case Suppress(_, _) => JobStepLinked(cfg, s, a);
      case EventsArrive(_, _) => JobStepLinked(cfg, s, a);
      case EventsReply(_) => JobStepLinked(cfg, s, a);
      case EventsAbort(_) => JobStepLinked(cfg, s, a);
      case PartBegin(_, _, _) => PartStepLinked(cfg, s, a);
      case PartChunk(_, _) => PartStepLinked(cfg, s, a);
      case PartEnd(_) => PartStepLinked(cfg, s, a);
      case BlobCommit(_) => PartStepLinked(cfg, s, a);
      case UploadAbort(_, _) => PartStepLinked(cfg, s, a);
    }
  }

  // ---------------------------------------------------------------- counters

  ghost function EventOf(signature: string): EventRow -> bool {
    (row: EventRow) => row.event.signature == signature
  }

  ghost function ReportOf(signature: string): ReportRow -> bool {
    (row: ReportRow) => row.signature == signature
  }

  /** The counters of a signature are the numbers of its event and report rows. */
  ghost predicate CountersExact(t: Tables) {
    forall signature :: CounterExact(t, signature)
  }

  ghost predicate CounterExact(t: Tables, signature: string) {
    && RowOf(t, signature).events == Count(t.events, EventOf(signature))
    && RowOf(t, signature).payloads == Count(t.reports, ReportOf(signature))
  }

  lemma CountersStep(cfg: Config, s: Server, a: Action)
    requires CountersExact(s.tables) && Enabled(cfg, s, a)
    ensures CountersExact(Apply(cfg, s, a).tables)
  {
    var s' := Apply(cfg, s, a);
    forall signature
      ensures CounterExact(s'.tables, signature)
    {
      assert CounterExact(s.tables, signature);
      if a.EventRecord? {
        CountPut(s.tables.events, a.id, s'.tables.events[a.id], EventOf(signature));
      } else if a.ReportRecord? {
        CountPut(s.tables.reports, a.id, s'.tables.reports[a.id], ReportOf(signature));
      } else if a.Suppress? {
        assert s'.tables.events == s.tables.events && s'.tables.reports == s.tables.reports;
      } else {
        CountersUntouched(cfg, s, a);
      }
    }
  }

  lemma CountersUntouched(cfg: Config, s: Server, a: Action)
    requires Enabled(cfg, s, a) && !a.EventRecord? && !a.ReportRecord? && !a.Suppress?
    ensures var t, t' := s.tables, Apply(cfg, s, a).tables;
      t'.events == t.events && t'.reports == t.reports && t'.signatures == t.signatures
  {
  }

  // ---------------------------------------------------------------- replies

  /** A directive answers an event: it names a recorded row of exactly that event, says what was
      decided for it, and carries a token of that row whenever it asks for the payload. */
  ghost predicate Answers(t: Tables, event: CrashEvent, d: Directive) {
    && d.id.Some? && d.id.value in t.events
    && t.events[d.id.value] == EventRow(event, d.needPayload)
    && (d.needPayload <==> d.uploadToken.Some?)
    && (d.needPayload ==>
          && d.uploadToken.value in t.tokens
          && t.tokens[d.uploadToken.value].eventId == d.id.value
          && t.tokens[d.uploadToken.value].signature == event.signature)
  }

  ghost predicate AllAnswered(t: Tables, batch: seq<CrashEvent>, directives: seq<Directive>) {
    |directives| <= |batch| && forall i :: 0 <= i < |directives| ==> Answers(t, batch[i], directives[i])
  }

  /** Requests at work have answered a prefix of their batch; a reply answers all of it, in order. */
  ghost predicate Faithful(s: Server) {
    && (forall req :: req in s.jobs ==> AllAnswered(s.tables, s.jobs[req].batch, s.jobs[req].directives))
    && (forall req :: req in s.replies ==>
          |s.replies[req].directives| == |s.replies[req].batch|
          && AllAnswered(s.tables, s.replies[req].batch, s.replies[req].directives))
  }

  /** Rows of events and tokens are never lost, and never come to mean something else. */
  ghost predicate Preserves(t: Tables, t': Tables) {
    && (forall id :: id in t.events ==> id in t'.events && t'.events[id] == t.events[id])
    && TokensPreserved(t, t')
    && (forall r :: r in t.reports ==> r in t'.reports && t'.reports[r] == t.reports[r])
  }

  lemma PreservesStep(cfg: Config, s: Server, a: Action)
    requires Enabled(cfg, s, a)
    ensures Preserves(s.tables, Apply(cfg, s, a).tables)
  {
    TableStep(cfg, s, a);
    hide Apply, Enabled, NeedPayload, Redeemable, CanReport;
  }

  lemma AnswersKept(t: Tables, t': Tables, batch: seq<CrashEvent>, directives: seq<Directive>)
    requires Preserves(t, t') && AllAnswered(t, batch, directives)
    ensures AllAnswered(t', batch, directives)
  {
  }

  lemma FaithfulStep(cfg: Config, s: Server, a: Action)
    requires DecisionsLinked(s) && Faithful(s) && Enabled(cfg, s, a)
    ensures Faithful(Apply(cfg, s, a))
  {
    PreservesStep(cfg, s, a);
    RepliesShape(cfg, s, a);
    hide Apply, Enabled, DecisionsLinked, Preserves, Answers;
    var s' := Apply(cfg, s, a);
    forall req | req in s'.replies
      ensures |s'.replies[req].directives| == |s'.replies[req].batch|
      ensures AllAnswered(s'.tables, s'.replies[req].batch, s'.replies[req].directives)
    {
      if req in s.replies {
        AnswersKept(s.tables, s'.tables, s.replies[req].batch, s.replies[req].directives);
      } else {
        AnswersKept(s.tables, s'.tables, s.jobs[req].batch, s.jobs[req].directives);
      }
    }
    forall req | req in s'.jobs
      ensures AllAnswered(s'.tables, s'.jobs[req].batch, s'.jobs[req].directives)
    {
      if req in s.jobs {
        AnswersKept(s.tables, s'.tables, s.jobs[req].batch, s.jobs[req].directives);
        AnsweredNext(cfg, s, a, req);
      }
    }
  }

  lemma RepliesShape(cfg: Config, s: Server, a: Action)
    requires Enabled(cfg, s, a)
    ensures var s' := Apply(cfg, s, a);
      && (forall req :: req in s'.replies && req in s.replies ==> s'.replies[req] == s.replies[req])
      && (forall req :: req in s'.replies && req !in s.replies ==>
            req in s.jobs && |s.jobs[req].directives| >= |s.jobs[req].batch|
            && s'.replies[req] == Reply(s.jobs[req].batch, s.jobs[req].directives))
      && (forall req :: req in s'.jobs && req !in s.jobs ==> s'.jobs[req].directives == [])
  {
  }

  /** The directive a step appends answers the event the request works on. */
  lemma AnsweredNext(cfg: Config, s: Server, a: Action, req: ReqId)
    requires DecisionsLinked(s) && Enabled(cfg, s, a)
    requires req in s.jobs && req in Apply(cfg, s, a).jobs
    ensures var job, job', t' := s.jobs[req], Apply(cfg, s, a).jobs[req], Apply(cfg, s, a).tables;
      && job'.batch == job.batch
      && (job'.directives == job.directives
          || (Working(s, req) && exists d :: job'.directives == job.directives + [d] && Answers(t', Current(s, req), d)))
  {
    if a.TokenIssue? && a.req == req {
      assert Decided(s, req);
    }
  }
}
