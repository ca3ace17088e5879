/** The quota of payloads per signature, over every interleaving. The decision of `record_event`
    looks at stored payloads only, so the bound is an argument about everything outstanding. */
module IngestQuota {
  import opened Base
  import opened Counting
  import opened Events
  import opened Database
  import opened Ingest

  ghost function LiveFor(signature: string, now: int): TokenRow -> bool {
    (row: TokenRow) => row.signature == signature && row.redeemedAt.None? && row.expiresAt > now
  }

  ghost function UploadFor(signature: string): UploadJob -> bool {
    (job: UploadJob) => job.signature == signature
  }

  /** A wanted payload whose token is not issued yet. */
  ghost function DecidedFor(signature: string): EventsJob -> bool {
    (job: EventsJob) => job.phase.Issuing? && |job.directives| < |job.batch| && job.batch[|job.directives|].signature == signature
  }

  ghost function Payloads(s: Server, signature: string): nat {
    RowOf(s.tables, signature).payloads
  }

  /** Decisions waiting for their token, tokens that can still be redeemed, uploads in flight. */
  ghost function Outstanding(s: Server, signature: string): nat {
    Count(s.jobs, DecidedFor(signature))
    + Count(s.tables.tokens, LiveFor(signature, s.now))
    + Count(s.uploads, UploadFor(signature))
  }

  ghost function Potential(s: Server, signature: string): nat {
    Payloads(s, signature) + Outstanding(s, signature)
  }

  /** The one kind of step that asks for another payload of `signature`. */
  ghost predicate Asks(cfg: Config, s: Server, a: Action, signature: string) {
    && a.EventRecord? && Working(s, a.req)
    && Current(s, a.req).signature == signature && NeedPayload(s.tables, Current(s, a.req), cfg.quota)
  }

  lemma JobsPotential(s: Server, req: ReqId, job: EventsJob, signature: string)
    ensures Count(s.jobs[req := job], DecidedFor(signature))
      == Count(s.jobs, DecidedFor(signature)) - One(req in s.jobs && DecidedFor(signature)(s.jobs[req])) + One(DecidedFor(signature)(job))
  {
    CountPut(s.jobs, req, job, DecidedFor(signature));
  }

  lemma UploadsKept(s: Server, req: ReqId, job: UploadJob, signature: string)
    requires req in s.uploads && job.signature == s.uploads[req].signature
    ensures Count(s.uploads[req := job], UploadFor(signature)) == Count(s.uploads, UploadFor(signature))
  {
    CountPut(s.uploads, req, job, UploadFor(signature));
  }

  lemma PotentialEvents(cfg: Config, s: Server, a: Action, signature: string)
    requires Enabled(cfg, s, a) && (a.EventsArrive? || a.EventRecord? || a.EventsReply? || a.EventsAbort?)
    ensures Asks(cfg, s, a, signature) ==> Potential(Apply(cfg, s, a), signature) == Potential(s, signature) + 1
    ensures !Asks(cfg, s, a, signature) ==> Potential(Apply(cfg, s, a), signature) <= Potential(s, signature)
  {
    var s' := Apply(cfg, s, a);
    if a.EventsReply? || a.EventsAbort? {
      CountRemove(s.jobs, a.req, DecidedFor(signature));
    } else {
      JobsPotential(s, a.req, s'.jobs[a.req], signature);
      assert s'.jobs == s.jobs[a.req := s'.jobs[a.req]];
    }
  }

  lemma PotentialTokens(cfg: Config, s: Server, a: Action, signature: string)
    requires Enabled(cfg, s, a) && (a.TokenIssue? || a.TokenRedeem? || a.Tick?)
    ensures Potential(Apply(cfg, s, a), signature) <= Potential(s, signature)
  {
    var s' := Apply(cfg, s, a);
    if a.Tick? {
      CountWeaken(s.tables.tokens, LiveFor(signature, s'.now), LiveFor(signature, s.now));
    } else {
      CountPut(s.tables.tokens, a.token, s'.tables.tokens[a.token], LiveFor(signature, s.now));
      if a.TokenIssue? {
        JobsPotential(s, a.req, s'.jobs[a.req], signature);
      } else {
        CountPut(s.uploads, a.req, s'.uploads[a.req], UploadFor(signature));
      }
    }
  }

  /** A step of an upload touches one upload, keeps its signature, and counts its payload if it ends well. */
  lemma UploadStepShape(cfg: Config, s: Server, a: Action, signature: string)
    requires Enabled(cfg, s, a) && (a.PartBegin? || a.PartChunk? || a.PartEnd? || a.BlobCommit? || a.ReportRecord? || a.UploadAbort?)
    ensures var s' := Apply(cfg, s, a);
      && s'.jobs == s.jobs && s'.tables.tokens == s.tables.tokens && s'.now == s.now
      && a.req in s.uploads
      && (a.req in s'.uploads ==>
            s'.uploads == s.uploads[a.req := s'.uploads[a.req]] && s'.uploads[a.req].signature == s.uploads[a.req].signature)
      && (a.req !in s'.uploads ==> s'.uploads == s.uploads - {a.req})
      && Payloads(s', signature) == Payloads(s, signature) + One(a.ReportRecord? && s.uploads[a.req].signature == signature)
      && (a.ReportRecord? ==> a.req !in s'.uploads)
  {
    if a.ReportRecord? {
      TableStep(cfg, s, a);
      OtherStep(cfg, s, a);
    } else {
      PartStep(cfg, s, a);
      PartSignature(cfg, s, a);
      hide Apply, Enabled;
    }
  }

  lemma PartSignature(cfg: Config, s: Server, a: Action)
    requires Enabled(cfg, s, a) && IsPart(a)
    ensures var s' := Apply(cfg, s, a);
      a.req in s'.uploads ==> s'.uploads[a.req].signature == s.uploads[a.req].signature
  {
  }

  lemma PotentialUploads(cfg: Config, s: Server, a: Action, signature: string)
    requires Enabled(cfg, s, a) && (a.PartBegin? || a.PartChunk? || a.PartEnd? || a.BlobCommit? || a.ReportRecord? || a.UploadAbort?)
    ensures Potential(Apply(cfg, s, a), signature) <= Potential(s, signature)
  {
    UploadStepShape(cfg, s, a, signature);
    hide Apply, Enabled;
    var s' := Apply(cfg, s, a);
    if a.req in s'.uploads {
      UploadsKept(s, a.req, s'.uploads[a.req], signature);
    } else {
      CountRemove(s.uploads, a.req, UploadFor(signature));
    }
  }

  /** The potential rises only at a decision that saw fewer payloads than the quota, and then by one. */
  lemma PotentialStep(cfg: Config, s: Server, a: Action, signature: string)
    requires Enabled(cfg, s, a)
    ensures Asks(cfg, s, a, signature) ==>
      Payloads(s, signature) < cfg.quota && Potential(Apply(cfg, s, a), signature) == Potential(s, signature) + 1
    ensures !Asks(cfg, s, a, signature) ==> Potential(Apply(cfg, s, a), signature) <= Potential(s, signature)
  {
    if a.EventsArrive? || a.EventRecord? || a.EventsReply? || a.EventsAbort? {
      PotentialEvents(cfg, s, a, signature);
    } else if a.TokenIssue? || a.TokenRedeem? || a.Tick? {
      PotentialTokens(cfg, s, a, signature);
    } else if !a.Suppress? {
      PotentialUploads(cfg, s, a, signature);
    }
  }

  /** Stored payloads are never taken away. */
  lemma PayloadsGrow(cfg: Config, s: Server, a: Action, signature: string)
    requires Enabled(cfg, s, a)
    ensures Payloads(Apply(cfg, s, a), signature) >= Payloads(s, signature)
  {
  }

  /** Once a signature has its quota of payloads, its potential never rises again. */
  lemma {:induction false} PotentialFrozen(cfg: Config, states: seq<Server>, actions: seq<Action>, signature: string, i: nat, j: nat)
    requires Run(cfg, states, actions) && i <= j < |states|
    requires Payloads(states[i], signature) >= cfg.quota
    ensures Payloads(states[j], signature) >= cfg.quota
    ensures Potential(states[j], signature) <= Potential(states[i], signature)
    decreases j
  {
    hide Apply, Enabled;
    if i < j {
      PotentialFrozen(cfg, states, actions, signature, i, j - 1);
      PotentialStep(cfg, states[j - 1], actions[j - 1], signature);
      PayloadsGrow(cfg, states[j - 1], actions[j - 1], signature);
    }
  }

  /** The bound a quota really gives when at most `k` uploads are ever outstanding. */
  function Bound(quota: int, k: nat): nat
    requires k >= 1
  {
    if quota >= 1 then quota - 1 + k else 0
  }

  ghost predicate OutstandingWithin(states: seq<Server>, signature: string, k: nat) {
    forall i :: 0 <= i < |states| ==> Outstanding(states[i], signature) <= k
  }

  lemma {:induction false} PotentialBound(cfg: Config, states: seq<Server>, actions: seq<Action>, signature: string, k: nat, n: nat)
    requires Run(cfg, states, actions) && n < |states|
    requires k >= 1 && OutstandingWithin(states, signature, k)
    ensures Potential(states[n], signature) <= Bound(cfg.quota, k)
  {
    if n == 0 {
      var now :| states[0] == Init(now);
      CountZero(states[0].jobs, DecidedFor(signature));
      CountZero(states[0].tables.tokens, LiveFor(signature, now));
      CountZero(states[0].uploads, UploadFor(signature));
    } else {
      PotentialBound(cfg, states, actions, signature, k, n - 1);
      PotentialStep(cfg, states[n - 1], actions[n - 1], signature);
      if Asks(cfg, states[n - 1], actions[n - 1], signature) {
        AskingKeepsPayloads(cfg, states[n - 1], actions[n - 1], signature);
        assert states[n] == Apply(cfg, states[n - 1], actions[n - 1]);
      }
    }
  }

  lemma AskingKeepsPayloads(cfg: Config, s: Server, a: Action, signature: string)
    requires Enabled(cfg, s, a) && Asks(cfg, s, a, signature)
    ensures Payloads(Apply(cfg, s, a), signature) == Payloads(s, signature)
  {
  }

  /** In every state of every run with at most `k` outstanding, payloads stay within the bound; with
      a non-positive quota there are none. */
  lemma QuotaBound(cfg: Config, states: seq<Server>, actions: seq<Action>, signature: string, k: nat)
    requires Run(cfg, states, actions)
    requires k >= 1 && OutstandingWithin(states, signature, k)
    ensures forall n :: 0 <= n < |states| ==> Payloads(states[n], signature) <= Bound(cfg.quota, k)
  {
    forall n | 0 <= n < |states|
      ensures Payloads(states[n], signature) <= Bound(cfg.quota, k)
    {
      PotentialBound(cfg, states, actions, signature, k, n);
    }
  }
}
