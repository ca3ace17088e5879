/** The quota bound is tight: with `k` uploads outstanding at once, a run reaches quota - 1 + k
    payloads, so the row lock alone does not keep the quota from being overshot. */
module IngestTight {
  import opened Base
  import opened Counting
  import opened Events
  import opened Database
  import opened Ingest
  import opened IngestQuota
  import Upload

  ghost predicate ReachedWithin(cfg: Config, signature: string, k: nat, s: Server) {
    exists states, actions ::
      Run(cfg, states, actions) && states[|actions|] == s && OutstandingWithin(states, signature, k)
  }

  lemma Extend(cfg: Config, signature: string, k: nat, s: Server, a: Action)
    requires ReachedWithin(cfg, signature, k, s)
    requires Enabled(cfg, s, a) && Outstanding(Apply(cfg, s, a), signature) <= k
    ensures ReachedWithin(cfg, signature, k, Apply(cfg, s, a))
  {
    hide Apply, Enabled, Outstanding;
    var states, actions :| Run(cfg, states, actions) && states[|actions|] == s && OutstandingWithin(states, signature, k);
    var states', actions' := states + [Apply(cfg, s, a)], actions + [a];
    var now :| states[0] == Init(now);
    assert states'[0] == Init(now);
    assert Run(cfg, states', actions');
    assert states'[|actions'|] == Apply(cfg, s, a);
  }

  /** A step that asks for nothing and leaves the payloads alone adds nothing outstanding. */
  lemma Step(cfg: Config, signature: string, k: nat, s: Server, a: Action)
    requires ReachedWithin(cfg, signature, k, s)
    requires Enabled(cfg, s, a) && !Asks(cfg, s, a, signature) && Outstanding(s, signature) <= k
    ensures var s' := Apply(cfg, s, a);
      ReachedWithin(cfg, signature, k, s')
      && Outstanding(s', signature) + Payloads(s', signature) <= Outstanding(s, signature) + Payloads(s, signature)
  {
    PotentialStep(cfg, s, a, signature);
    PayloadsGrow(cfg, s, a, signature);
    hide Apply, Enabled, Outstanding;
    Extend(cfg, signature, k, s, a);
  }

  lemma FreshToken(s: set<string>) returns (t: string)
    ensures t !in s
  {
    var lengths := set x | x in s :: |x|;
    var n := FreshNat(lengths);
    t := seq(n, _ => 'f');
    assert t in s ==> |t| in lengths;
  }

  /** Tokens ready to be redeemed, with nothing else going on. */
  ghost predicate Ready(cfg: Config, signature: string, s: Server, tokens: set<string>) {
    && s.jobs == map[] && s.uploads == map[] && s.replies == map[]
    && !RowOf(s.tables, signature).suppressed
    && (forall t :: t in tokens ==>
          && t in s.tables.tokens
          && LiveFor(signature, s.now)(s.tables.tokens[t])
          && AsU64(s.tables.tokens[t].maxBytes) == cfg.maxPayload
          && s.tables.tokens[t].eventId in s.tables.events
          && signature in s.tables.signatures)
    && Outstanding(s, signature) <= |tokens|
  }

  function Crash(signature: string): CrashEvent {
    CrashEvent(None, signature, 0, "", 1, true, None)
  }

  /** One more machine reports the crash and is told that its payload is wanted. */
  lemma Ask(cfg: Config, signature: string, k: nat, s: Server, id: Uuid) returns (s': Server)
    requires ReachedWithin(cfg, signature, k, s) && Outstanding(s, signature) < k
    requires s.jobs == map[] && s.replies == map[] && id !in s.tables.events
    requires !RowOf(s.tables, signature).suppressed && Payloads(s, signature) < cfg.quota
    ensures ReachedWithin(cfg, signature, k, s')
    ensures s' == s.(tables := WithEvent(s.tables, Crash(signature), cfg.quota, id),
                     jobs := map[0 := EventsJob([Crash(signature)], Issuing(id), [])])
    ensures Potential(s', signature) <= Potential(s, signature) + 1
  {
    hide ReachedWithin, Outstanding;
    var arrive := EventsArrive(0, [Crash(signature)]);
    Step(cfg, signature, k, s, arrive);
    var s1 := Apply(cfg, s, arrive);
    var record := EventRecord(0, id);
    assert Asks(cfg, s1, record, signature);
    PotentialStep(cfg, s1, record, signature);
    AskingKeepsPayloads(cfg, s1, record, signature);
    Extend(cfg, signature, k, s1, record);
    s' := Apply(cfg, s1, record);
  }

  /** Its token is issued, and the reply ends the request. */
  lemma Issue(cfg: Config, signature: string, k: nat, s: Server, id: Uuid, token: string) returns (s': Server)
    requires ReachedWithin(cfg, signature, k, s) && Outstanding(s, signature) <= k
    requires s.jobs == map[0 := EventsJob([Crash(signature)], Issuing(id), [])]
    requires CanIssue(s.tables, token, id, signature)
    ensures ReachedWithin(cfg, signature, k, s')
    ensures s' == s.(tables := WithToken(s.tables, token, TokenRow(id, signature, AsI64(cfg.maxPayload), s.now + 1, None)),
                     jobs := map[])
    ensures Potential(s', signature) <= Potential(s, signature)
  {
    hide ReachedWithin, Outstanding;
    var issue := TokenIssue(0, token, s.now + 1);
    Step(cfg, signature, k, s, issue);
    var s1 := Apply(cfg, s, issue);
    Step(cfg, signature, k, s1, EventsAbort(0));
    s' := Apply(cfg, s1, EventsAbort(0));
    assert s'.jobs == map[];
  }

  /** The state after one more event and its token, apart from what is outstanding. */
  lemma StillReady(cfg: Config, signature: string, s: Server, tokens: set<string>, id: Uuid, token: string, s': Server)
    requires Ready(cfg, signature, s, tokens) && cfg.maxPayload < U64_LIMIT
    requires id !in s.tables.events && token !in s.tables.tokens
    requires var t := WithEvent(s.tables, Crash(signature), cfg.quota, id);
      s' == s.(tables := WithToken(t, token, TokenRow(id, signature, AsI64(cfg.maxPayload), s.now + 1, None)), jobs := map[])
    ensures Payloads(s', signature) == Payloads(s, signature)
    ensures Outstanding(s', signature) <= |tokens| + 1 ==> token !in tokens && Ready(cfg, signature, s', tokens + {token})
  {
    hide Outstanding;
    assert token !in tokens;
    assert |tokens + {token}| == |tokens| + 1;
  }

  lemma GiveToken(cfg: Config, signature: string, k: nat, s: Server, tokens: set<string>)
      returns (s': Server, token: string)
    requires cfg.maxPayload < U64_LIMIT
    requires ReachedWithin(cfg, signature, k, s) && Ready(cfg, signature, s, tokens)
    requires |tokens| < k && Payloads(s, signature) < cfg.quota
    ensures ReachedWithin(cfg, signature, k, s') && token !in tokens && Ready(cfg, signature, s', tokens + {token})
    ensures Payloads(s', signature) == Payloads(s, signature)
  {
    hide ReachedWithin, Outstanding, Limit, WithToken;
    var id := FreshNat(s.tables.events.Keys);
    token := FreshToken(s.tables.tokens.Keys);
    var s1 := Ask(cfg, signature, k, s, id);
    s' := Issue(cfg, signature, k, s1, id, token);
    StillReady(cfg, signature, s, tokens, id, token, s');
  }

  /** One token is redeemed, and the metadata part opens. */
  lemma Open(cfg: Config, signature: string, k: nat, s: Server, token: string, temp: nat) returns (s': Server)
    requires ReachedWithin(cfg, signature, k, s) && Outstanding(s, signature) <= k
    requires s.uploads == map[] && Redeemable(s.tables, token, s.now) && temp !in s.disk.incoming
    ensures ReachedWithin(cfg, signature, k, s')
    ensures var row := s.tables.tokens[token];
      s' == s.(tables := Redeemed(s.tables, token, s.now),
               disk := s.disk.(incoming := s.disk.incoming[temp := []]),
               uploads := map[0 := UploadJob(token, row.eventId, row.signature, Limit(cfg, row), Upload.START,
                                             InPart(Upload.METADATA, temp, []), [])])
    ensures Potential(s', signature) <= Potential(s, signature)
  {
    hide ReachedWithin, Outstanding;
    Step(cfg, signature, k, s, TokenRedeem(0, token));
    var s1 := Apply(cfg, s, TokenRedeem(0, token));
    var begin := PartBegin(0, Upload.METADATA, temp);
    Step(cfg, signature, k, s1, begin);
    s' := Apply(cfg, s1, begin);
  }

  /** The metadata arrives in one chunk, and the report is recorded. */
  lemma Complete(cfg: Config, signature: string, k: nat, s: Server, temp: nat, metadata: Bytes, id: Uuid) returns (s': Server)
    requires ReachedWithin(cfg, signature, k, s) && Outstanding(s, signature) <= k
    requires s.uploads.Keys == {0} && s.uploads[0].phase == InPart(Upload.METADATA, temp, []) && temp in s.disk.incoming
    requires s.uploads[0].progress == Upload.START && |metadata| <= s.uploads[0].limit && cfg.env.validJson(metadata)
    requires s.uploads[0].eventId in s.tables.events && s.uploads[0].signature in s.tables.signatures
    requires id !in s.tables.reports && s.uploads[0].signature == signature
    ensures ReachedWithin(cfg, signature, k, s') && s'.uploads == map[]
    ensures s'.jobs == s.jobs && s'.replies == s.replies && s'.now == s.now
    ensures s'.tables.tokens == s.tables.tokens && s'.tables.events == s.tables.events
    ensures signature in s'.tables.signatures && s.tables.signatures[signature].suppressed == s'.tables.signatures[signature].suppressed
    ensures Potential(s', signature) <= Potential(s, signature) && Payloads(s', signature) == Payloads(s, signature) + 1
  {
    hide ReachedWithin, Outstanding;
    Step(cfg, signature, k, s, PartChunk(0, metadata));
    var s1 := Apply(cfg, s, PartChunk(0, metadata));
    assert s1.uploads[0].phase == InPart(Upload.METADATA, temp, metadata) by {
      assert [] + metadata == metadata;
    }
    Step(cfg, signature, k, s1, PartEnd(0));
    var s2 := Apply(cfg, s1, PartEnd(0));
    Step(cfg, signature, k, s2, ReportRecord(0, id));
    s' := Apply(cfg, s2, ReportRecord(0, id));
    assert s'.uploads == map[];
  }

  lemma UseToken(cfg: Config, signature: string, k: nat, s: Server, tokens: set<string>, token: string, metadata: Bytes)
      returns (s': Server)
    requires cfg.env.validJson(metadata) && |metadata| <= cfg.maxPayload
    requires ReachedWithin(cfg, signature, k, s) && Ready(cfg, signature, s, tokens)
    requires |tokens| <= k && token in tokens
    ensures ReachedWithin(cfg, signature, k, s') && Ready(cfg, signature, s', tokens - {token})
    ensures Payloads(s', signature) == Payloads(s, signature) + 1
  {
    hide ReachedWithin, Outstanding;
    var temp := FreshNat(s.disk.incoming.Keys);
    var id := FreshNat(s.tables.reports.Keys);
    var s1 := Open(cfg, signature, k, s, token, temp);
    s' := Complete(cfg, signature, k, s1, temp, metadata, id);
    assert |tokens - {token}| == |tokens| - 1;
  }

  /** `n` machines one after the other: each is asked, and each upload completes before the next. */
  lemma {:induction false} Sequential(cfg: Config, signature: string, k: nat, n: nat, metadata: Bytes) returns (s: Server)
    requires cfg.env.validJson(metadata) && |metadata| <= cfg.maxPayload < U64_LIMIT
    requires k >= 1 && n <= cfg.quota
    ensures ReachedWithin(cfg, signature, k, s) && Ready(cfg, signature, s, {}) && Payloads(s, signature) == n
  {
    if n == 0 {
      s := Init(0);
      CountZero(s.jobs, DecidedFor(signature));
      CountZero(s.tables.tokens, LiveFor(signature, 0));
      CountZero(s.uploads, UploadFor(signature));
      assert Run(cfg, [s], []);
      assert [s][0] == s && OutstandingWithin([s], signature, k);
    } else {
      var s0 := Sequential(cfg, signature, k, n - 1, metadata);
      var s1, token := GiveToken(cfg, signature, k, s0, {});
      s := UseToken(cfg, signature, k, s1, {} + {token}, token, metadata);
      assert {} + {token} - {token} == {};
    }
  }

  lemma {:induction false} GiveMany(cfg: Config, signature: string, k: nat, n: nat, s: Server) returns (s': Server, tokens: set<string>)
    requires cfg.maxPayload < U64_LIMIT && n <= k
    requires ReachedWithin(cfg, signature, k, s) && Ready(cfg, signature, s, {}) && Payloads(s, signature) < cfg.quota
    ensures ReachedWithin(cfg, signature, k, s') && Ready(cfg, signature, s', tokens) && |tokens| == n
    ensures Payloads(s', signature) == Payloads(s, signature)
  {
    hide ReachedWithin, Ready, Payloads;
    if n == 0 {
      s', tokens := s, {};
    } else {
      var s1, tokens1 := GiveMany(cfg, signature, k, n - 1, s);
      var token;
      s', token := GiveToken(cfg, signature, k, s1, tokens1);
      tokens := tokens1 + {token};
    }
  }

  lemma {:induction false} UseAll(cfg: Config, signature: string, k: nat, s: Server, tokens: set<string>, metadata: Bytes) returns (s': Server)
    requires cfg.env.validJson(metadata) && |metadata| <= cfg.maxPayload
    requires ReachedWithin(cfg, signature, k, s) && Ready(cfg, signature, s, tokens) && |tokens| <= k
    ensures ReachedWithin(cfg, signature, k, s')
    ensures Payloads(s', signature) == Payloads(s, signature) + |tokens|
    decreases tokens
  {
    if tokens == {} {
      s' := s;
    } else {
      var token :| token in tokens;
      var s1 := UseToken(cfg, signature, k, s, tokens, token, metadata);
      s' := UseAll(cfg, signature, k, s1, tokens - {token}, metadata);
    }
  }

  /** For every quota and every number of outstanding uploads, the bound is reached. For k >= 2 that
      is more payloads than the quota. */
  lemma BoundIsReached(cfg: Config, signature: string, k: nat, metadata: Bytes)
    requires cfg.env.validJson(metadata) && |metadata| <= cfg.maxPayload < U64_LIMIT
    requires k >= 1
    ensures exists s :: ReachedWithin(cfg, signature, k, s) && Payloads(s, signature) == Bound(cfg.quota, k)
  {
    if cfg.quota >= 1 {
      var s := Sequential(cfg, signature, k, cfg.quota - 1, metadata);
      var s1, tokens := GiveMany(cfg, signature, k, k, s);
      var s2 := UseAll(cfg, signature, k, s1, tokens, metadata);
    } else {
      var s := Init(0);
      CountZero(s.jobs, DecidedFor(signature));
      CountZero(s.tables.tokens, LiveFor(signature, 0));
      CountZero(s.uploads, UploadFor(signature));
      assert Run(cfg, [s], []);
      assert [s][0] == s && OutstandingWithin([s], signature, k);
      assert ReachedWithin(cfg, signature, k, s);
    }
  }

  /** What the row lock was meant to give, a quota never exceeded, holds exactly when uploads are
      sequential. */
  lemma QuotaKeptIff(cfg: Config, signature: string, k: nat, metadata: Bytes)
    requires cfg.quota >= 1 && k >= 1
    requires cfg.env.validJson(metadata) && |metadata| <= cfg.maxPayload < U64_LIMIT
    ensures (forall s :: ReachedWithin(cfg, signature, k, s) ==> Payloads(s, signature) <= cfg.quota) <==> k == 1
  {
    BoundIsReached(cfg, signature, k, metadata);
    if k == 1 {
      forall s | ReachedWithin(cfg, signature, k, s)
        ensures Payloads(s, signature) <= cfg.quota
      {
        var states, actions :| Run(cfg, states, actions) && states[|actions|] == s && OutstandingWithin(states, signature, k);
        QuotaBound(cfg, states, actions, signature, k);
        hide Run, OutstandingWithin;
      }
    } else {
      var s :| ReachedWithin(cfg, signature, k, s) && Payloads(s, signature) == Bound(cfg.quota, k);
    }
  }
}
