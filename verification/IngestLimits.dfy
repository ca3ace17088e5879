/** What a token is good for: an upload, once, until it expires, of the size its directive announces, which
    goes through the signed column of the token and back (crates/blankres-server/src/routes.rs, db.rs). */
module IngestLimits {
  import opened Base
  import opened Events
  import opened Database
  import opened Ingest
  import opened IngestLinks
  import IngestSafety
  import Upload

  /** The directive announces what its token is good for. */
  ghost predicate Announced(cfg: Config, t: Tables, d: Directive) {
    d.uploadToken.Some? ==>
      && d.uploadToken.value in t.tokens
      && d.maxBytes == Some(Limit(cfg, t.tokens[d.uploadToken.value]))
      && d.expiresAt == Some(t.tokens[d.uploadToken.value].expiresAt)
  }

  ghost predicate AllAnnounced(cfg: Config, t: Tables, directives: seq<Directive>) {
    forall i :: 0 <= i < |directives| ==> Announced(cfg, t, directives[i])
  }

  /** In the requests at work and in every reply that was sent. */
  ghost predicate Honest(cfg: Config, s: Server) {
    && (forall req :: req in s.jobs ==> AllAnnounced(cfg, s.tables, s.jobs[req].directives))
    && (forall req :: req in s.replies ==> AllAnnounced(cfg, s.tables, s.replies[req].directives))
  }

  lemma AnnouncedKept(cfg: Config, t: Tables, t': Tables, directives: seq<Directive>)
    requires Preserves(t, t') && AllAnnounced(cfg, t, directives)
    ensures AllAnnounced(cfg, t', directives)
  {
    forall i | 0 <= i < |directives|
      ensures Announced(cfg, t', directives[i])
    {
      assert Announced(cfg, t, directives[i]);
      var d := directives[i];
      assert d.uploadToken.Some? ==> TokenPreserved(t, t', d.uploadToken.value);
    }
  }

  /** A step adds one directive to a request at the most, and it is announced truly. */
  lemma AnnouncedNext(cfg: Config, s: Server, a: Action, req: ReqId)
    requires Enabled(cfg, s, a) && cfg.maxPayload < U64_LIMIT
    requires req in s.jobs && req in Apply(cfg, s, a).jobs
    ensures var ds, ds', t' := s.jobs[req].directives, Apply(cfg, s, a).jobs[req].directives, Apply(cfg, s, a).tables;
      ds' == ds || (|ds'| == |ds| + 1 && ds <= ds' && Announced(cfg, t', ds'[|ds|]))
  {
    if a.TokenIssue? {
      IssuedLimit(cfg, s, a);
      hide Limit, MaxBytes;
    }
  }

  lemma HonestStep(cfg: Config, s: Server, a: Action)
    requires Enabled(cfg, s, a) && cfg.maxPayload < U64_LIMIT && Honest(cfg, s)
    ensures Honest(cfg, Apply(cfg, s, a))
  {
    PreservesStep(cfg, s, a);
    RepliesShape(cfg, s, a);
    hide Apply, Enabled, Preserves, Announced;
    var s' := Apply(cfg, s, a);
    forall req | req in s'.replies
      ensures AllAnnounced(cfg, s'.tables, s'.replies[req].directives)
    {
      AnnouncedKept(cfg, s.tables, s'.tables, if req in s.replies then s.replies[req].directives else s.jobs[req].directives);
    }
    forall req | req in s'.jobs
      ensures AllAnnounced(cfg, s'.tables, s'.jobs[req].directives)
    {
      if req in s.jobs {
        AnnouncedKept(cfg, s.tables, s'.tables, s.jobs[req].directives);
        AnnouncedNext(cfg, s, a, req);
      }
    }
  }

  lemma {:induction false} HonestRun(cfg: Config, states: seq<Server>, actions: seq<Action>, n: nat)
    requires Run(cfg, states, actions) && n < |states| && cfg.maxPayload < U64_LIMIT
    ensures Honest(cfg, states[n])
  {
    hide Apply, Enabled, AllAnnounced;
    if n > 0 {
      HonestRun(cfg, states, actions, n - 1);
      HonestStep(cfg, states[n - 1], actions[n - 1]);
    }
  }

  /** Whatever a client has been told, on every server that has sent it: an upload with the token of a
      directive is held to exactly the size the directive announced, and the report stays within it; the
      token expires when the directive says. */
  lemma AnnouncedLimitHolds(cfg: Config, states: seq<Server>, actions: seq<Action>, n: nat, req: ReqId, i: nat)
    requires Run(cfg, states, actions) && n < |states| && cfg.maxPayload < U64_LIMIT
    requires req in states[n].replies && i < |states[n].replies[req].directives|
    requires states[n].replies[req].directives[i].uploadToken.Some?
    ensures var s, d := states[n], states[n].replies[req].directives[i];
      && d.maxBytes.Some? && d.expiresAt.Some?
      && d.uploadToken.value in s.tables.tokens && s.tables.tokens[d.uploadToken.value].expiresAt == d.expiresAt.value
      && (forall u :: u in s.uploads && s.uploads[u].token == d.uploadToken.value ==> s.uploads[u].limit == d.maxBytes.value)
      && (forall r :: r in s.tables.reports && Some(s.tables.reports[r].eventId) == d.id ==>
            s.tables.reports[r].totalBytes <= d.maxBytes.value)
  {
    HonestRun(cfg, states, actions, n);
    IngestSafety.RunSafe(cfg, states, actions, n);
    var s, d := states[n], states[n].replies[req].directives[i];
    hide Run, Limit;
    assert Announced(cfg, s.tables, d);
    assert Answers(s.tables, s.replies[req].batch[i], d);
  }

  // ---------------------------------------------------------------- how large

  /** The size of a token: a mebibyte more than the core that its event announced, or the server's maximum
      if the event announced none, or less. */
  ghost predicate Sized(cfg: Config, t: Tables, k: string)
    requires k in t.tokens
  {
    t.tokens[k].eventId in t.events &&
    var size, limit := t.events[t.tokens[k].eventId].event.coreSize, Limit(cfg, t.tokens[k]);
    limit == if size.Some? && size.value + 1048576 < cfg.maxPayload then size.value + 1048576 else cfg.maxPayload
  }

  ghost predicate AllSized(cfg: Config, t: Tables) {
    forall k :: k in t.tokens ==> Sized(cfg, t, k)
  }

  lemma SizedKept(cfg: Config, t: Tables, t': Tables, k: string)
    requires Preserves(t, t') && k in t.tokens && Sized(cfg, t, k)
    ensures k in t'.tokens && Sized(cfg, t', k)
  {
    assert TokenPreserved(t, t', k);
  }

  lemma IssuedSized(cfg: Config, s: Server, a: Action)
    requires Enabled(cfg, s, a) && a.TokenIssue? && DecisionsLinked(s) && cfg.maxPayload < U64_LIMIT
    ensures var t' := Apply(cfg, s, a).tables; a.token in t'.tokens && Sized(cfg, t', a.token)
  {
    assert Decided(s, a.req);
  }

  lemma AllSizedStep(cfg: Config, s: Server, a: Action)
    requires Enabled(cfg, s, a) && DecisionsLinked(s) && cfg.maxPayload < U64_LIMIT && AllSized(cfg, s.tables)
    ensures AllSized(cfg, Apply(cfg, s, a).tables)
  {
    var t, t' := s.tables, Apply(cfg, s, a).tables;
    PreservesStep(cfg, s, a);
    NewTokens(cfg, s, a);
    hide Apply, Enabled, Preserves, Sized, DecisionsLinked;
    forall k | k in t'.tokens
      ensures Sized(cfg, t', k)
    {
      if k in t.tokens {
        SizedKept(cfg, t, t', k);
      } else {
        IssuedSized(cfg, s, a);
      }
    }
  }

  lemma NewTokens(cfg: Config, s: Server, a: Action)
    requires Enabled(cfg, s, a)
    ensures forall k :: k in Apply(cfg, s, a).tables.tokens && k !in s.tables.tokens ==> a.TokenIssue? && k == a.token
  {
    TableStep(cfg, s, a);
    hide Apply, Enabled, NeedPayload, CanReport;
  }

  lemma {:induction false} AllSizedRun(cfg: Config, states: seq<Server>, actions: seq<Action>, n: nat)
    requires Run(cfg, states, actions) && n < |states| && cfg.maxPayload < U64_LIMIT
    ensures AllSized(cfg, states[n].tables)
  {
    hide Apply, Enabled, Sized, IngestSafety.Safe;
    if n > 0 {
      AllSizedRun(cfg, states, actions, n - 1);
      IngestSafety.RunSafe(cfg, states, actions, n - 1);
      SafeDecisions(cfg, states[n - 1]);
      AllSizedStep(cfg, states[n - 1], actions[n - 1]);
    }
  }

  lemma SafeDecisions(cfg: Config, s: Server)
    requires IngestSafety.Safe(cfg, s)
    ensures DecisionsLinked(s)
  {
  }

  lemma {:induction false} TransferFirst(first: Upload.Attachment, others: seq<Upload.Attachment>)
    ensures Upload.TransferSize([first] + others) == |first.content| + Upload.TransferSize(others)
  {
    var all := [first] + others;
    if others == [] {
      assert all[..0] == [];
    } else {
      var n := |others| - 1;
      TransferFirst(first, others[..n]);
      assert all[..|all| - 1] == [first] + others[..n];
    }
  }

  /** A core of the announced size always fits: what the client sends is accepted exactly when metadata and the
      other attachments take no more than a mebibyte, and all of it no more than the server's maximum. */
  lemma AnnouncedCoreFits(cfg: Config, states: seq<Server>, actions: seq<Action>, n: nat, k: string,
                          metadata: Bytes, core: Bytes, others: seq<Upload.Attachment>)
    requires Run(cfg, states, actions) && n < |states| && cfg.maxPayload < U64_LIMIT
    requires k in states[n].tables.tokens && states[n].tables.tokens[k].eventId in states[n].tables.events
    requires states[n].tables.events[states[n].tables.tokens[k].eventId].event.coreSize == Some(|core|)
    requires cfg.env.validJson(metadata) && forall i :: 0 <= i < |others| ==> others[i].name != "metadata"
    ensures var besides := |metadata| + Upload.TransferSize(others);
      var parts := Upload.ClientParts(metadata, [Upload.Attachment("core-dump", core)] + others);
      Upload.Verdict(cfg.env, Limit(cfg, states[n].tables.tokens[k]), Upload.Body(parts, true)).Ok?
      <==> besides <= 1048576 && |core| + besides <= cfg.maxPayload
  {
    AllSizedRun(cfg, states, actions, n);
    var attachments := [Upload.Attachment("core-dump", core)] + others;
    TransferFirst(Upload.Attachment("core-dump", core), others);
    Upload.ClientUploadAcceptedIff(cfg.env, Limit(cfg, states[n].tables.tokens[k]), metadata, attachments);
    assert Sized(cfg, states[n].tables, k);
    hide Run, Upload.Verdict, Upload.ClientParts, Upload.TransferSize, Limit;
  }

  // ---------------------------------------------------------------- how long

  /** The token was redeemed between `i` and `j`. */
  ghost predicate SpentBetween(actions: seq<Action>, i: nat, j: nat, token: string)
    requires i <= j <= |actions|
  {
    exists k :: i <= k < j && actions[k].TokenRedeem? && actions[k].token == token
  }

  lemma {:induction false} TokenSince(cfg: Config, states: seq<Server>, actions: seq<Action>, i: nat, j: nat, token: string, expiresAt: int)
    requires Run(cfg, states, actions) && i < j < |states|
    requires actions[i].TokenIssue? && actions[i].token == token && actions[i].expiresAt == expiresAt
    ensures token in states[j].tables.tokens
    ensures states[j].tables.tokens[token].expiresAt == expiresAt
    ensures states[j].tables.tokens[token].redeemedAt.Some? <==> SpentBetween(actions, i + 1, j, token)
    decreases j
  {
    assert Enabled(cfg, states[j - 1], actions[j - 1]);
    if j == i + 1 {
      hide MaxBytes;
    } else {
      TokenSince(cfg, states, actions, i, j - 1, token, expiresAt);
      var s, a := states[j - 1], actions[j - 1];
      TokenStep(cfg, s, a, token);
      hide Apply, Enabled;
      if a.TokenRedeem? && a.token == token {
        assert SpentBetween(actions, i + 1, j, token);
      }
      if SpentBetween(actions, i + 1, j - 1, token) {
        var k :| i + 1 <= k < j - 1 && actions[k].TokenRedeem? && actions[k].token == token;
        assert SpentBetween(actions, i + 1, j, token);
      }
    }
  }

  lemma TokenStep(cfg: Config, s: Server, a: Action, token: string)
    requires Enabled(cfg, s, a) && token in s.tables.tokens
    ensures var t, t' := s.tables, Apply(cfg, s, a).tables;
      && token in t'.tokens && t'.tokens[token].expiresAt == t.tokens[token].expiresAt
      && (t'.tokens[token].redeemedAt.Some? <==> t.tokens[token].redeemedAt.Some? || (a.TokenRedeem? && a.token == token))
  {
    TableStep(cfg, s, a);
    hide Apply, Enabled, NeedPayload, CanReport;
  }

  /** In every run, an upload can begin with a token exactly when the token has not been redeemed since it was
      issued and its time has not come. */
  lemma RedeemableIff(cfg: Config, states: seq<Server>, actions: seq<Action>, i: nat, j: nat, req: ReqId)
    requires Run(cfg, states, actions) && i < j < |states| && actions[i].TokenIssue?
    ensures Enabled(cfg, states[j], TokenRedeem(req, actions[i].token))
      <==> req !in states[j].uploads && states[j].now < actions[i].expiresAt && !SpentBetween(actions, i + 1, j, actions[i].token)
  {
    TokenSince(cfg, states, actions, i, j, actions[i].token, actions[i].expiresAt);
    hide Run, SpentBetween;
  }
}
