/** Whether a payload can still be delivered. A token is redeemed before the first byte of the body is read
    (crates/blankres-server/src/routes.rs), so an upload that fails has spent it. */
module IngestRetry {
  import opened Base
  import opened Counting
  import opened Events
  import opened Database
  import opened Ingest
  import opened IngestLinks
  import Upload

  ghost predicate Reported(s: Server, eventId: Uuid) {
    exists r :: r in s.tables.reports && s.tables.reports[r].eventId == eventId
  }

  /** No upload is at work with the token, and its event has no report. */
  ghost predicate Idle(s: Server, k: string) {
    && k in s.tables.tokens
    && (forall u :: u in s.uploads ==> s.uploads[u].token != k)
    && !Reported(s, s.tables.tokens[k].eventId)
  }

  /** And the token is redeemed already, or past its expiry. */
  ghost predicate Dead(s: Server, k: string) {
    Idle(s, k) && !Redeemable(s.tables, k, s.now)
  }

  /** The step ends an upload without recording a report. */
  ghost predicate Fails(cfg: Config, s: Server, a: Action)
    requires Enabled(cfg, s, a)
  {
    IsPart(a) && a.req in s.uploads && a.req !in Apply(cfg, s, a).uploads
  }

  /** An upload that fails, whether it is refused, cut off or meets a fault, leaves a dead token. */
  lemma FailureKills(cfg: Config, s: Server, a: Action)
    requires Linked(cfg, s) && Enabled(cfg, s, a) && Fails(cfg, s, a)
    ensures Dead(Apply(cfg, s, a), s.uploads[a.req].token)
  {
    PartStep(cfg, s, a);
    HeldToken(cfg, s, a.req);
    OthersHoldOthers(cfg, s, a.req);
    hide Linked, Apply, Enabled;
  }

  /** The token of an upload is spent, and its event has no report yet. */
  lemma HeldToken(cfg: Config, s: Server, req: ReqId)
    requires Linked(cfg, s) && req in s.uploads
    ensures var k := s.uploads[req].token;
      k in s.tables.tokens && !Redeemable(s.tables, k, s.now) && !Reported(s, s.tables.tokens[k].eventId)
  {
    assert UploadBacked(cfg, s.tables, s.uploads[req]);
  }

  lemma OthersHoldOthers(cfg: Config, s: Server, req: ReqId)
    requires Linked(cfg, s) && req in s.uploads
    ensures forall u :: u in s.uploads && u != req ==> s.uploads[u].token != s.uploads[req].token
  {
    hide UploadBacked, TokensLinked, DecisionsLinked, ReportsLinked;
  }

  lemma DeadPart(cfg: Config, s: Server, a: Action, k: string)
    requires Linked(cfg, s) && Enabled(cfg, s, a) && IsPart(a) && Dead(s, k)
    ensures Dead(Apply(cfg, s, a), k)
  {
    PartStep(cfg, s, a);
    UploadsWithin(cfg, s);
    PartStepShape(cfg, s, a);
    hide Linked, Apply, Enabled, Dead, OneUploadMoves;
    DeadMoves(s, Apply(cfg, s, a), a.req, k);
  }

  lemma DeadMoves(s: Server, s': Server, req: ReqId, k: string)
    requires OneUploadMoves(s, s', req) && s'.now == s.now && Dead(s, k)
    ensures Dead(s', k)
  {
    hide Redeemable, Taken;
  }

  lemma DeadReport(cfg: Config, s: Server, a: Action, k: string)
    requires Linked(cfg, s) && Enabled(cfg, s, a) && a.ReportRecord? && Dead(s, k)
    ensures Dead(Apply(cfg, s, a), k)
  {
    TableStep(cfg, s, a);
    OtherStep(cfg, s, a);
    TickShape(cfg, s, a);
    assert UploadBacked(cfg, s.tables, s.uploads[a.req]);
    hide Apply, Enabled, DecisionsLinked, ReportsLinked, UploadsLinked;
    assert s.uploads[a.req].eventId != s.tables.tokens[k].eventId;
  }

  lemma DeadRedeem(cfg: Config, s: Server, a: Action, k: string)
    requires Enabled(cfg, s, a) && a.TokenRedeem? && Dead(s, k)
    ensures Dead(Apply(cfg, s, a), k)
  {
  }

  lemma TickShape(cfg: Config, s: Server, a: Action)
    requires Enabled(cfg, s, a)
    ensures s.now <= Apply(cfg, s, a).now
  {
    hide NeedPayload, WithEvent, Redeemable, Limit, MaxBytes;
  }

  lemma DeadOther(cfg: Config, s: Server, a: Action, k: string)
    requires Enabled(cfg, s, a) && !IsPart(a) && !a.ReportRecord? && !a.TokenRedeem? && Dead(s, k)
    ensures Dead(Apply(cfg, s, a), k)
  {
    TableStep(cfg, s, a);
    OtherStep(cfg, s, a);
    TickShape(cfg, s, a);
    hide Apply, Enabled, NeedPayload;
  }

  /** A dead token stays dead at every step of the server. */
  lemma DeadStep(cfg: Config, s: Server, a: Action, k: string)
    requires Linked(cfg, s) && Enabled(cfg, s, a) && Dead(s, k)
    ensures Dead(Apply(cfg, s, a), k)
  {
    hide Linked, Apply, Enabled, Dead;
    if IsPart(a) {
      DeadPart(cfg, s, a, k);
    } else if a.ReportRecord? {
      DeadReport(cfg, s, a, k);
    } else if a.TokenRedeem? {
      DeadRedeem(cfg, s, a, k);
    } else {
      DeadOther(cfg, s, a, k);
    }
  }

  lemma {:induction false} DeadAlong(cfg: Config, states: seq<Server>, actions: seq<Action>, n: nat, k: string)
    requires Path(cfg, states, actions) && n < |states| && Linked(cfg, states[0]) && Dead(states[0], k)
    ensures Linked(cfg, states[n]) && Dead(states[n], k)
  {
    hide Linked, Apply, Enabled, Dead;
    if n > 0 {
      DeadAlong(cfg, states, actions, n - 1, k);
      DeadStep(cfg, states[n - 1], actions[n - 1], k);
      LinkedStep(cfg, states[n - 1], actions[n - 1]);
    }
  }

  /** No continuation ever records a report for the event of a dead token. */
  lemma DeadForever(cfg: Config, s: Server, t: Server, k: string)
    requires Linked(cfg, s) && Dead(s, k) && Leads(cfg, s, t)
    ensures Dead(t, k) && t.tables.tokens[k].eventId == s.tables.tokens[k].eventId && !Reported(t, s.tables.tokens[k].eventId)
  {
    var states, actions :| Path(cfg, states, actions) && states[0] == s && states[|actions|] == t;
    DeadAlong(cfg, states, actions, |actions|, k);
    EventOfToken(cfg, states, actions, |actions|, k);
    hide Linked, Apply, Enabled, Redeemable;
  }

  lemma {:induction false} EventOfToken(cfg: Config, states: seq<Server>, actions: seq<Action>, n: nat, k: string)
    requires Path(cfg, states, actions) && n < |states| && k in states[0].tables.tokens
    ensures k in states[n].tables.tokens && states[n].tables.tokens[k].eventId == states[0].tables.tokens[k].eventId
  {
    hide Apply, Enabled;
    if n > 0 {
      EventOfToken(cfg, states, actions, n - 1, k);
      PreservesStep(cfg, states[n - 1], actions[n - 1]);
      assert TokenPreserved(states[n - 1].tables, states[n].tables, k);
    }
  }

  // ---------------------------------------------------------------- while the token is live

  /** The upload of a body that holds the metadata alone, from its first step to its last. */
  lemma UploadMetadata(cfg: Config, s: Server, k: string, metadata: Bytes, signature: string) returns (t: Server)
    requires Redeemable(s.tables, k, s.now) && cfg.env.validJson(metadata) && |metadata| <= Limit(cfg, s.tables.tokens[k])
    requires s.tables.tokens[k].eventId in s.tables.events
    requires s.tables.tokens[k].signature == signature && signature in s.tables.signatures
    ensures Leads(cfg, s, t) && Reported(t, s.tables.tokens[k].eventId)
  {
    var row := s.tables.tokens[k];
    var req := FreshNat(s.uploads.Keys);
    var temp := FreshNat(s.disk.incoming.Keys);
    var id := FreshNat(s.tables.reports.Keys);
    LeadsNowhere(cfg, s);
    var s1 := Redeems(cfg, s, s, req, k);
    var s2 := Receives(cfg, s, s1, req, temp, metadata);
    t := Records(cfg, s, s2, req, id);
  }

  lemma Redeems(cfg: Config, s0: Server, s: Server, req: ReqId, k: string) returns (t: Server)
    requires Leads(cfg, s0, s) && Redeemable(s.tables, k, s.now) && req !in s.uploads
    ensures Leads(cfg, s0, t)
    ensures var row := s.tables.tokens[k];
      t == s.(tables := Redeemed(s.tables, k, s.now),
              uploads := s.uploads[req := UploadJob(k, row.eventId, row.signature, Limit(cfg, row), Upload.START, Between, [])])
  {
    LeadsFurther(cfg, s0, s, TokenRedeem(req, k));
    t := Apply(cfg, s, TokenRedeem(req, k));
  }

  lemma Receives(cfg: Config, s0: Server, s: Server, req: ReqId, temp: nat, metadata: Bytes) returns (t: Server)
    requires Leads(cfg, s0, s) && req in s.uploads && temp !in s.disk.incoming
    requires s.uploads[req].phase == Between && s.uploads[req].progress == Upload.START && s.uploads[req].received == []
    requires cfg.env.validJson(metadata) && |metadata| <= s.uploads[req].limit
    ensures Leads(cfg, s0, t) && t.tables == s.tables && req in t.uploads
    ensures var job, job' := s.uploads[req], t.uploads[req];
      && job'.eventId == job.eventId && job'.signature == job.signature && job'.phase == Between
      && job'.progress == Upload.Progress(|metadata|, Some(metadata), map[])
  {
    var begin, chunk, end := PartBegin(req, Upload.METADATA, temp), PartChunk(req, metadata), PartEnd(req);
    assert Enabled(cfg, s, begin);
    var s1 := Apply(cfg, s, begin);
    LeadsFurther(cfg, s0, s, begin);
    assert Enabled(cfg, s1, chunk);
    var s2 := Apply(cfg, s1, chunk);
    LeadsFurther(cfg, s0, s1, chunk);
    assert s2.uploads[req].phase == InPart(Upload.METADATA, temp, metadata) by {
      assert [] + metadata == metadata;
    }
    assert Enabled(cfg, s2, end);
    LeadsFurther(cfg, s0, s2, end);
    t := Apply(cfg, s2, end);
  }

  lemma Records(cfg: Config, s0: Server, s: Server, req: ReqId, id: nat) returns (t: Server)
    requires Leads(cfg, s0, s) && req in s.uploads && s.uploads[req].phase == Between && s.uploads[req].progress.metadata.Some?
    requires id !in s.tables.reports
    requires s.uploads[req].eventId in s.tables.events && s.uploads[req].signature in s.tables.signatures
    ensures Leads(cfg, s0, t) && Reported(t, s.uploads[req].eventId)
  {
    var a := ReportRecord(req, id);
    assert Enabled(cfg, s, a);
    LeadsFurther(cfg, s0, s, a);
    t := Apply(cfg, s, a);
    assert id in t.tables.reports && t.tables.reports[id].eventId == s.uploads[req].eventId;
  }

  /** A signature with an event has a row. */
  lemma SignatureKnown(t: Tables, id: Uuid)
    requires CountersExact(t) && id in t.events
    ensures t.events[id].event.signature in t.signatures
  {
    var signature := t.events[id].event.signature;
    assert CounterExact(t, signature);
    assert id in Matching(t.events, EventOf(signature));
  }

  /** The exact condition under which the payload of an idle token can still be delivered: the token has
      not been redeemed and has not expired. What failed before cannot be tried again. */
  lemma DeliverableIff(cfg: Config, s: Server, k: string, metadata: Bytes)
    requires Linked(cfg, s) && CountersExact(s.tables) && Idle(s, k)
    requires cfg.env.validJson(metadata) && |metadata| <= Limit(cfg, s.tables.tokens[k])
    ensures (exists t :: Leads(cfg, s, t) && Reported(t, s.tables.tokens[k].eventId)) <==> Redeemable(s.tables, k, s.now)
  {
    if Redeemable(s.tables, k, s.now) {
      assert TokenBacked(s.tables, s.tables.tokens[k]);
      SignatureKnown(s.tables, s.tables.tokens[k].eventId);
      var t := UploadMetadata(cfg, s, k, metadata, s.tables.tokens[k].signature);
    } else if t :| Leads(cfg, s, t) && Reported(t, s.tables.tokens[k].eventId) {
      DeadForever(cfg, s, t, k);
      assert false;
    }
  }
}
