/** The decision to ask for a payload, in terms of the rows of the tables, and what an operator's
    suppression of a signature does to it (crates/blankres-server/src/db.rs, routes.rs). */
module IngestDecision {
  import opened Base
  import opened Counting
  import opened Events
  import opened Database
  import opened Ingest
  import opened IngestLinks
  import IngestSafety

  /** The signature has a row, and an operator has suppressed it. */
  ghost predicate Suppressed(t: Tables, signature: string) {
    signature in t.signatures && t.signatures[signature].suppressed
  }

  /** How many reports of the signature are stored. */
  ghost function Stored(t: Tables, signature: string): nat {
    |set r | r in t.reports && t.reports[r].signature == signature|
  }

  /** A payload is worth asking for: the client has a core, nobody has suppressed the signature, and
      fewer reports of it are stored than the quota allows. */
  ghost predicate Wanted(t: Tables, event: CrashEvent, quota: int) {
    event.coreAvailable && !Suppressed(t, event.signature) && Stored(t, event.signature) < quota
  }

  lemma WantedIff(t: Tables, event: CrashEvent, quota: int)
    requires CountersExact(t)
    ensures NeedPayload(t, event, quota) <==> Wanted(t, event, quota)
  {
    assert CounterExact(t, event.signature);
    assert Matching(t.reports, ReportOf(event.signature)) == set r | r in t.reports && t.reports[r].signature == event.signature;
  }

  /** In every run, a recorded event is marked, and answered, by that decision: either a token is about to be
      issued for its row, or the directive says that nothing is needed. */
  lemma DecisionIff(cfg: Config, states: seq<Server>, actions: seq<Action>, i: nat)
    requires Run(cfg, states, actions) && i < |actions| && actions[i].EventRecord? && Working(states[i], actions[i].req)
    ensures var s, s', req, id := states[i], states[i + 1], actions[i].req, actions[i].id;
      var wanted := Wanted(s.tables, Current(s, req), cfg.quota);
      && id !in s.tables.events && s'.tables.events == s.tables.events[id := EventRow(Current(s, req), wanted)]
      && req in s'.jobs
      && s'.jobs[req] == if wanted then s.jobs[req].(phase := Issuing(id))
                         else s.jobs[req].(directives := s.jobs[req].directives + [Directive(Some(id), false, None, None, None)])
  {
    IngestSafety.RunSafe(cfg, states, actions, i);
    assert Enabled(cfg, states[i], actions[i]);
    WantedIff(states[i].tables, Current(states[i], actions[i].req), cfg.quota);
    hide NeedPayload, Wanted, Linked, CountersExact, Faithful;
  }

  // ---------------------------------------------------------------- while a signature is suppressed

  lemma SuppressedStep(cfg: Config, s: Server, a: Action, signature: string)
    requires Enabled(cfg, s, a) && Suppressed(s.tables, signature) && a != Action.Suppress(signature, false)
    ensures Suppressed(Apply(cfg, s, a).tables, signature)
  {
    if a.Suppress? {
    } else {
      TableStep(cfg, s, a);
      hide Apply, Enabled, NeedPayload, Redeemable, CanReport;
    }
  }

  /** Nobody lifts the suppression from `i` up to `j`. */
  ghost predicate Calm(actions: seq<Action>, i: nat, j: nat, signature: string)
    requires i <= j <= |actions|
  {
    forall k | i <= k < j :: actions[k] != Action.Suppress(signature, false)
  }

  lemma {:induction false} StaysSuppressed(cfg: Config, states: seq<Server>, actions: seq<Action>, i: nat, j: nat, signature: string)
    requires Run(cfg, states, actions) && i <= j < |states| && Calm(actions, i, j, signature)
    requires Suppressed(states[i].tables, signature)
    ensures Suppressed(states[j].tables, signature)
    decreases j
  {
    hide Apply, Enabled, Suppressed;
    if i < j {
      StaysSuppressed(cfg, states, actions, i, j - 1, signature);
      SuppressedStep(cfg, states[j - 1], actions[j - 1], signature);
    }
  }

  /** The request waits for a token for an event of the signature. */
  ghost predicate Waits(s: Server, req: ReqId, signature: string) {
    Decided(s, req) && Current(s, req).signature == signature
  }

  /** No step takes the decision to ask for a suppressed signature. */
  lemma WaitsBefore(cfg: Config, s: Server, a: Action, req: ReqId, signature: string)
    requires Enabled(cfg, s, a) && Suppressed(s.tables, signature) && Waits(Apply(cfg, s, a), req, signature)
    ensures Waits(s, req, signature) && Apply(cfg, s, a).jobs[req] == s.jobs[req]
  {
    if IsPart(a) {
      PartStep(cfg, s, a);
      hide Apply, Enabled;
    } else {
      hide WithReport, Redeemed, Limit, MaxBytes;
    }
  }

  lemma {:induction false} WaitsSince(cfg: Config, states: seq<Server>, actions: seq<Action>, i: nat, j: nat, req: ReqId, signature: string)
    requires Run(cfg, states, actions) && i <= j < |states| && Calm(actions, i, j, signature)
    requires Suppressed(states[i].tables, signature) && Waits(states[j], req, signature)
    ensures Waits(states[i], req, signature) && states[i].jobs[req] == states[j].jobs[req]
    decreases j
  {
    hide Apply, Enabled, Suppressed, Waits;
    if i < j {
      StaysSuppressed(cfg, states, actions, i, j - 1, signature);
      WaitsBefore(cfg, states[j - 1], actions[j - 1], req, signature);
      WaitsSince(cfg, states, actions, i, j - 1, req, signature);
    }
  }

  /** Once an operator has suppressed a signature, and until the suppression is lifted, no event of it is
      marked as wanted, and no token is issued for it but to requests that had their decision already. */
  lemma NothingAskedWhileSuppressed(cfg: Config, states: seq<Server>, actions: seq<Action>, i: nat, j: nat, signature: string)
    requires Run(cfg, states, actions) && i < j < |actions|
    requires actions[i] == Action.Suppress(signature, true) && Calm(actions, i + 1, j, signature)
    ensures actions[j].EventRecord? && Working(states[j], actions[j].req) && Current(states[j], actions[j].req).signature == signature
      ==> actions[j].id in states[j + 1].tables.events && !states[j + 1].tables.events[actions[j].id].payloadWanted
    ensures actions[j].TokenIssue? && Working(states[j], actions[j].req) && Current(states[j], actions[j].req).signature == signature
      ==> Waits(states[i], actions[j].req, signature) && states[i].jobs[actions[j].req] == states[j].jobs[actions[j].req]
  {
    var a, req := actions[j], if actions[j].EventRecord? || actions[j].TokenIssue? then actions[j].req else 0;
    Suppressing(cfg, states, actions, i, signature);
    StaysSuppressed(cfg, states, actions, i + 1, j, signature);
    if a.EventRecord? && Working(states[j], req) && Current(states[j], req).signature == signature {
      DecisionIff(cfg, states, actions, j);
      hide Apply, Enabled;
    }
    if a.TokenIssue? && Working(states[j], req) && Current(states[j], req).signature == signature {
      assert Enabled(cfg, states[j], a);
      hide Apply, Suppressed;
      WaitsSince(cfg, states, actions, i + 1, j, req, signature);
    }
  }

  lemma Suppressing(cfg: Config, states: seq<Server>, actions: seq<Action>, i: nat, signature: string)
    requires Run(cfg, states, actions) && i < |actions| && actions[i] == Action.Suppress(signature, true)
    ensures Suppressed(states[i + 1].tables, signature) && states[i + 1].jobs == states[i].jobs
  {
    assert Enabled(cfg, states[i], actions[i]);
  }
}
