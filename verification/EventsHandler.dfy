/** `post_events` of crates/blankres-server/src/routes.rs: the batch loop, one directive per event. */
module EventsHandler {
  import opened Base
  import opened Events
  import opened Database
  import opened Ingest
  import opened IngestLinks

  /** The random draws for one event: its row id and, if one is needed, its token. */
  datatype Draw = Draw(id: Uuid, token: string)

  /** The request stands before event number `i`. */
  ghost predicate At(t: Server, req: ReqId, batch: seq<CrashEvent>, i: nat, directives: seq<Directive>) {
    req in t.jobs && t.jobs[req] == EventsJob(batch, Recording, directives) && |directives| == i && req !in t.replies
  }

  /** Whatever is asked for can be sent until then. */
  ghost predicate AllExpire(directives: seq<Directive>, expiresAt: int) {
    forall i :: 0 <= i < |directives| && directives[i].needPayload ==> directives[i].expiresAt == Some(expiresAt)
  }

  lemma OneMoreExpires(directives: seq<Directive>, d: Directive, expiresAt: int)
    requires AllExpire(directives, expiresAt) && (d.needPayload ==> d.expiresAt == Some(expiresAt))
    ensures AllExpire(directives + [d], expiresAt)
  {
  }

  /** One round of the loop: record, and issue when wanted; a database error aborts the request. */
  method PostEvent(cfg: Config, db: Database, event: CrashEvent, draw: Draw, appNow: int, ttl: int,
                   ghost s: Server, ghost at: Server, ghost req: ReqId, ghost batch: seq<CrashEvent>, ghost directives: seq<Directive>)
      returns (r: Result<Directive, DbError>, ghost t: Server)
    requires cfg.maxPayload < U64_LIMIT && Leads(cfg, s, at) && at.tables == db.Contents()
    requires |directives| < |batch| && batch[|directives|] == event && At(at, req, batch, |directives|, directives)
    modifies db
    ensures Leads(cfg, s, t) && t.tables == db.Contents()
    ensures r.Ok? ==> At(t, req, batch, |directives| + 1, directives + [r.value])
    ensures r.Ok? && r.value.needPayload ==> r.value.expiresAt == Some(appNow + ttl)
    ensures r.Err? ==> req !in t.replies && req !in t.jobs
  {
    hide Leads, Apply, Enabled, WithEvent, WithToken, NeedPayload, RowOf, MaxBytes;
    t := at;
    var outcome := db.RecordEvent(event, cfg.quota, draw.id);
    if outcome.Err? {
      Aborts(cfg, t, req);
      LeadsFurther(cfg, s, t, EventsAbort(req));
      t := Apply(cfg, t, EventsAbort(req));
      return Err(outcome.error), t;
    }
    Records(cfg, t, req, batch, |directives|, directives, draw.id);
    LeadsFurther(cfg, s, t, EventRecord(req, draw.id));
    t := Apply(cfg, t, EventRecord(req, draw.id));
    if !outcome.value.needPayload {
      return Ok(NotNeeded(outcome.value.eventId)), t;
    }
    var maxBytes := MaxBytes(cfg, event);
    CapFits(cfg, event);
    var issued := db.IssueUploadToken(draw.token, outcome.value.eventId, event.signature, maxBytes, appNow, ttl);
    if issued.Err? {
      Aborts(cfg, t, req);
      LeadsFurther(cfg, s, t, EventsAbort(req));
      t := Apply(cfg, t, EventsAbort(req));
      return Err(issued.error), t;
    }
    Issues(cfg, t, req, batch, |directives|, directives, outcome.value.eventId, draw.token, issued.value);
    LeadsFurther(cfg, s, t, TokenIssue(req, draw.token, issued.value));
    t := Apply(cfg, t, TokenIssue(req, draw.token, issued.value));
    return Ok(Directive(Some(outcome.value.eventId), true, Some(draw.token), Some(maxBytes), Some(issued.value))), t;
  }

  /** Left alone, the handler performs a run of the machine: record, and issue when wanted, event by
      event, then reply with one directive per event; a database error aborts it, and keeps what was
      committed. */
  method PostEvents(cfg: Config, db: Database, batch: seq<CrashEvent>, draws: seq<Draw>, appNow: int, ttl: int,
                    ghost s: Server, ghost req: ReqId)
      returns (r: Result<seq<Directive>, DbError>, ghost t: Server)
    requires |draws| == |batch| && cfg.maxPayload < U64_LIMIT
    requires s.tables == db.Contents() && req !in s.jobs && req !in s.replies
    modifies db
    ensures Leads(cfg, s, t) && t.tables == db.Contents()
    ensures r.Ok? ==> req in t.replies && t.replies[req] == Reply(batch, r.value) && |r.value| == |batch|
    ensures r.Ok? ==> AllExpire(r.value, appNow + ttl)
    ensures r.Err? ==> req !in t.replies && req !in t.jobs
  {
    var directives: seq<Directive> := [];
    LeadsNowhere(cfg, s);
    Arrives(cfg, s, req, batch);
    LeadsFurther(cfg, s, s, EventsArrive(req, batch));
    t := Apply(cfg, s, EventsArrive(req, batch));
    assert AllExpire(directives, appNow + ttl);
    hide Leads, Apply, Enabled, AllExpire;
    for i := 0 to |batch|
      invariant Leads(cfg, s, t) && t.tables == db.Contents()
      invariant At(t, req, batch, i, directives)
      invariant AllExpire(directives, appNow + ttl)
    {
      var answer;
      answer, t := PostEvent(cfg, db, batch[i], draws[i], appNow, ttl, s, t, req, batch, directives);
      if answer.Err? {
        return Err(answer.error), t;
      }
      OneMoreExpires(directives, answer.value, appNow + ttl);
      directives := directives + [answer.value];
    }
    Replies(cfg, t, req, batch, directives);
    LeadsFurther(cfg, s, t, EventsReply(req));
    t := Apply(cfg, t, EventsReply(req));
    return Ok(directives), t;
  }

  lemma CapFits(cfg: Config, event: CrashEvent)
    requires cfg.maxPayload < U64_LIMIT
    ensures MaxBytes(cfg, event) < U64_LIMIT
  {
  }

  lemma Arrives(cfg: Config, s: Server, req: ReqId, batch: seq<CrashEvent>)
    requires req !in s.jobs && req !in s.replies
    ensures Enabled(cfg, s, EventsArrive(req, batch))
    ensures var t := Apply(cfg, s, EventsArrive(req, batch)); t.tables == s.tables && At(t, req, batch, 0, [])
  {
  }

  lemma Aborts(cfg: Config, t: Server, req: ReqId)
    requires req in t.jobs && req !in t.replies
    ensures Enabled(cfg, t, EventsAbort(req))
    ensures var t' := Apply(cfg, t, EventsAbort(req)); t'.tables == t.tables && req !in t'.jobs && req !in t'.replies
  {
  }

  lemma Records(cfg: Config, t: Server, req: ReqId, batch: seq<CrashEvent>, i: nat, directives: seq<Directive>, id: Uuid)
    requires At(t, req, batch, i, directives) && i < |batch| && id !in t.tables.events
    ensures Enabled(cfg, t, EventRecord(req, id))
    ensures var t' := Apply(cfg, t, EventRecord(req, id));
      && t'.tables == WithEvent(t.tables, batch[i], cfg.quota, id)
      && req in t'.jobs && req !in t'.replies
      && (!NeedPayload(t.tables, batch[i], cfg.quota) ==> At(t', req, batch, i + 1, directives + [NotNeeded(id)]))
      && (NeedPayload(t.tables, batch[i], cfg.quota) ==> t'.jobs[req] == EventsJob(batch, Issuing(id), directives))
  {
    hide WithEvent, NeedPayload;
  }

  lemma Issues(cfg: Config, t: Server, req: ReqId, batch: seq<CrashEvent>, i: nat, directives: seq<Directive>,
               id: Uuid, token: string, expiresAt: int)
    requires req in t.jobs && t.jobs[req] == EventsJob(batch, Issuing(id), directives) && |directives| == i < |batch|
    requires req !in t.replies && CanIssue(t.tables, token, id, batch[i].signature)
    ensures Enabled(cfg, t, TokenIssue(req, token, expiresAt))
    ensures var t' := Apply(cfg, t, TokenIssue(req, token, expiresAt));
      && t'.tables == WithToken(t.tables, token, TokenRow(id, batch[i].signature, AsI64(MaxBytes(cfg, batch[i])), expiresAt, None))
      && At(t', req, batch, i + 1,
            directives + [Directive(Some(id), true, Some(token), Some(MaxBytes(cfg, batch[i])), Some(expiresAt))])
  {
    hide MaxBytes;
  }

  lemma Replies(cfg: Config, t: Server, req: ReqId, batch: seq<CrashEvent>, directives: seq<Directive>)
    requires At(t, req, batch, |batch|, directives)
    ensures Enabled(cfg, t, EventsReply(req))
    ensures var t' := Apply(cfg, t, EventsReply(req));
      t'.tables == t.tables && req in t'.replies && t'.replies[req] == Reply(batch, directives)
  {
  }
}
