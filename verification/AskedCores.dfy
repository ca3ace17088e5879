/** From a crash to the question put to the user: what the server decides about a crash that the daemon took
    up, and what the daemon makes of the answer, on the machines of both together. */
module AskedCores {
  import opened Base
  import opened Events
  import opened Client
  import opened Delivery
  import opened IngestLinks
  import Database
  import Ingest
  import IngestDecision
  import IngestLimits
  import IngestSafety
  import ClientRuns
  import Spool
  import CrashReports
  import DeliveredCores

  /** The server records the event under this id. */
  ghost predicate Records(s: System, a: Action, event: CrashEvent, id: Uuid) {
    && a.ServerStep? && a.step.EventRecord? && a.step.id == id
    && Ingest.Working(s.server, a.step.req) && Ingest.Current(s.server, a.step.req) == event
  }

  lemma RecordedWanted(cfg: Delivery.Config, s: System, a: Action, event: CrashEvent, id: Uuid)
    requires Enabled(cfg, s, a) && Records(s, a, event, id) && CountersExact(s.server.tables)
    ensures var t' := Apply(cfg, s, a).server.tables;
      id in t'.events
      && t'.events[id] == Database.EventRow(event, IngestDecision.Wanted(s.server.tables, event, cfg.server.quota))
  {
    IngestDecision.WantedIff(s.server.tables, event, cfg.server.quota);
    hide Database.NeedPayload, IngestDecision.Wanted, CountersExact;
  }

  /** Event rows stay as they are. */
  lemma {:induction false} RowStays(cfg: Delivery.Config, states: seq<System>, actions: seq<Action>, i: nat, j: nat, id: Uuid)
    requires Run(cfg, states, actions) && i <= j < |states| && id in states[i].server.tables.events
    ensures id in states[j].server.tables.events
    ensures states[j].server.tables.events[id] == states[i].server.tables.events[id]
    decreases j
  {
    hide Apply, Enabled, Start;
    if i < j {
      RowStays(cfg, states, actions, i, j - 1, id);
      RowKept(cfg, states[j - 1], actions[j - 1], id);
    }
  }

  lemma RowKept(cfg: Delivery.Config, s: System, a: Action, id: Uuid)
    requires Enabled(cfg, s, a) && id in s.server.tables.events
    ensures var t' := Apply(cfg, s, a).server.tables; id in t'.events && t'.events[id] == s.server.tables.events[id]
  {
    if a.ServerStep? {
      PreservesStep(cfg.server, s.server, a.step);
    }
    hide ClientRuns.Apply, ClientRuns.Enabled, Guarded, Ingest.Apply, Ingest.Enabled;
  }

  /** A directive that was sent with a token says when the token expires. */
  lemma ExpirySaid(cfg: Delivery.Config, states: seq<System>, actions: seq<Action>, n: nat, event: CrashEvent, d: Directive)
    requires Run(cfg, states, actions) && n < |states| && cfg.server.maxPayload < U64_LIMIT
    requires Replied(states[n].server, [event], [d]) && d.uploadToken.Some?
    ensures d.expiresAt.Some?
  {
    ServerReachable(cfg, states, actions, n);
    var s := states[n].server;
    var ss, sa :| Ingest.Run(cfg.server, ss, sa) && ss[|sa|] == s;
    IngestLimits.HonestRun(cfg.server, ss, sa, |sa|);
    hide Run, Ingest.Run;
    var req :| req in s.replies && s.replies[req] == Ingest.Reply([event], [d]);
    assert IngestLimits.AllAnnounced(cfg.server, s.tables, [d]);
    assert IngestLimits.Announced(cfg.server, s.tables, [d][0]);
  }

  /** The question that the daemon took up at step `i` ends, with an answer or without one. */
  ghost predicate EndsQuestion(states: seq<System>, actions: seq<Action>, i: nat, n: nat, reply: Option<Directive>)
    requires i < |states| - 1 && |states| == |actions| + 1 && n < |actions|
  {
    && actions[n].LocalStep? && actions[n].act.Answered? && actions[n].act.answer.reply == reply
    && states[n].local.asking == states[i + 1].local.asking && states[n].local.asking.Some?
  }

  /** The server's answer about a crash is what its rows said when it recorded the event: it asks for the
      payload exactly when the journal named a core whose size could be read, the signature was not
      suppressed, and fewer reports of it were stored than the quota allows. What it asks for can be sent
      until the token expires. */
  lemma AskedForIff(cfg: Delivery.Config, states: seq<System>, actions: seq<Action>, i: nat, k: nat, n: nat, d: Directive)
    requires Run(cfg, states, actions) && i < n < |actions| && k < n && cfg.server.maxPayload < U64_LIMIT
    requires actions[i].LocalStep? && actions[i].act.Crash? && states[i + 1].local.asking.Some?
    requires EndsQuestion(states, actions, i, n, Some(d)) && d.id.Some?
    requires Records(states[k], actions[k], states[i + 1].local.asking.value.event, d.id.value)
    ensures var r, moment, t := actions[i].act.record, actions[i].act.moment, states[k].server.tables;
      d.needPayload <==>
        && r.core.Some? && moment.size.Some?
        && !IngestDecision.Suppressed(t, r.signature) && IngestDecision.Stored(t, r.signature) < cfg.server.quota
    ensures d.needPayload ==> d.expiresAt.Some? && forall now :: d.IsActionable(now) <==> now < d.expiresAt.value
    ensures !d.needPayload ==> forall now :: !d.IsActionable(now)
  {
    var asking := states[i + 1].local.asking.value;
    var event := asking.event;
    CrashEventIs(cfg, states, actions, i);
    DecidedRow(cfg, states, actions, k, n, event, d.id.value);
    AnswerIs(cfg, states, actions, n, d);
    if d.uploadToken.Some? {
      ExpirySaid(cfg, states, actions, n, event, d);
    }
    hide Run, Records, IngestDecision.Suppressed, IngestDecision.Stored, Replied;
  }

  lemma CrashEventIs(cfg: Delivery.Config, states: seq<System>, actions: seq<Action>, i: nat)
    requires Run(cfg, states, actions) && i < |actions|
    requires actions[i].LocalStep? && actions[i].act.Crash? && states[i + 1].local.asking.Some?
    ensures var r, moment, asking := actions[i].act.record, actions[i].act.moment, states[i + 1].local.asking.value;
      && asking.record == r && asking.core == (if moment.attached then r.core else None)
      && asking.event.signature == r.signature && (asking.event.coreAvailable <==> r.core.Some? && moment.size.Some?)
  {
    var s, a := states[i], actions[i];
    assert Enabled(cfg, s, a);
    CrashSteps(cfg, s, a);
    CrashReports.EventSays(cfg.client, s.local, a.act.record, a.act.moment);
    hide Apply, Enabled, Gated, Start;
    assert states[i + 1] == Apply(cfg, s, a);
  }

  lemma CrashSteps(cfg: Delivery.Config, s: System, a: Action)
    requires Enabled(cfg, s, a) && a.LocalStep? && a.act.Crash?
    ensures s.local.asking.None? && Apply(cfg, s, a).local == Gated(cfg.client, s.local, a.act.record, a.act.moment)
  {
    hide Gated;
  }

  lemma DecidedRow(cfg: Delivery.Config, states: seq<System>, actions: seq<Action>, k: nat, n: nat, event: CrashEvent, id: Uuid)
    requires Run(cfg, states, actions) && k < n < |states| && Records(states[k], actions[k], event, id)
    ensures var t' := states[n].server.tables;
      id in t'.events
      && t'.events[id] == Database.EventRow(event, IngestDecision.Wanted(states[k].server.tables, event, cfg.server.quota))
  {
    assert Enabled(cfg, states[k], actions[k]) && states[k + 1] == Apply(cfg, states[k], actions[k]);
    DeliveredCores.RunServerSafe(cfg, states, actions, k);
    SafeCounters(cfg, states[k]);
    RecordedWanted(cfg, states[k], actions[k], event, id);
    RowStays(cfg, states, actions, k + 1, n, id);
    hide Run, Apply, Enabled, Records, IngestDecision.Wanted;
  }

  lemma SafeCounters(cfg: Delivery.Config, s: System)
    requires IngestSafety.Safe(cfg.server, s.server)
    ensures CountersExact(s.server.tables)
  {
  }

  lemma AnswerIs(cfg: Delivery.Config, states: seq<System>, actions: seq<Action>, n: nat, d: Directive)
    requires Run(cfg, states, actions) && n < |actions| && states[n].local.asking.Some?
    requires actions[n].LocalStep? && actions[n].act.Answered? && actions[n].act.answer.reply == Some(d)
    ensures var event := states[n].local.asking.value.event;
      Replied(states[n].server, [event], [d]) && Answers(states[n].server.tables, event, d)
  {
    assert Enabled(cfg, states[n], actions[n]);
    RunSound(cfg, states, actions, n);
    Sounds(cfg, states[n]);
    hide Run, Apply, ClientRuns.Enabled, Replied, Sound;
    RepliedAnswers(states[n].server, states[n].local.asking.value.event, d);
  }

  lemma Sounds(cfg: Delivery.Config, s: System)
    requires Sound(cfg, s)
    ensures Faithful(s.server)
  {
  }

  // ---------------------------------------------------------------- what the daemon makes of it

  /** A report of the crash lies in its user's part of the store, refers to its core if that could be attached,
      and waits for consent, with the directive it can be sent by or still without one. */
  ghost predicate Offered(l: Local, asking: Asking, moment: Moment, reply: Option<Directive>) {
    exists path: Path :: OfferedAt(l, asking, moment, reply, path)
  }

  ghost predicate OfferedAt(l: Local, asking: Asking, moment: Moment, reply: Option<Directive>, path: Path) {
    && path in l.pending && path.0 == (if asking.record.uid.Some? then asking.record.uid.value else 0)
    && l.pending[path].event == asking.event && l.pending[path].uid == asking.record.uid
    && l.pending[path].core == (if moment.attached then asking.record.core else None)
    && (if reply.Some? then l.pending[path].directive == reply.value && !l.pending[path].awaiting
        else l.pending[path].awaiting && l.pending[path].directive.needPayload && l.pending[path].directive.uploadToken.None?)
  }

  /** The answer asks for the payload, and in time; or there is none. */
  predicate Open(reply: Option<Directive>, now: int) {
    reply.Some? ==>
      reply.value.needPayload && reply.value.uploadToken.Some? && (reply.value.expiresAt.Some? ==> now < reply.value.expiresAt.value)
  }

  /** How the question ends: unless the server has said no, or too late, the core stays in place and a report
      refers to it; otherwise there is no report, and the core goes if the configuration says so. */
  ghost predicate Settles(cfg: Client.Config, l: Local, l': Local, asking: Asking, moment: Moment, answer: Answer) {
    if Open(answer.reply, answer.now)
    then l'.cores == l.cores && (answer.written ==> Offered(l', asking, moment, answer.reply))
    else
      && l'.pending == l.pending
      && l'.cores == if cfg.deleteDeclinedCores && answer.removed && asking.record.core.Some?
                     then l.cores - {asking.record.core.value} else l.cores
  }

  lemma AnswerLeads(cfg: Delivery.Config, states: seq<System>, actions: seq<Action>, i: nat, n: nat, reply: Option<Directive>)
    requires Run(cfg, states, actions) && i < n < |actions|
    requires actions[i].LocalStep? && actions[i].act.Crash? && states[i + 1].local.asking.Some?
    requires EndsQuestion(states, actions, i, n, reply)
    ensures states[n].local.asking.value.record == actions[i].act.record
    ensures Settles(cfg.client, states[n].local, states[n + 1].local, states[n].local.asking.value, actions[i].act.moment, actions[n].act.answer)
  {
    CrashEventIs(cfg, states, actions, i);
    AnswerSteps(cfg, states, actions, n);
    AnswerEnds(cfg.client, states[n].local, actions[n].act.answer, actions[i].act.moment);
    hide Run, Concluded, Settles;
  }

  lemma AnswerSteps(cfg: Delivery.Config, states: seq<System>, actions: seq<Action>, n: nat)
    requires Run(cfg, states, actions) && n < |actions| && actions[n].LocalStep? && actions[n].act.Answered?
    ensures states[n].local.asking.Some? && states[n + 1].local == Concluded(cfg.client, states[n].local, actions[n].act.answer)
  {
    assert Enabled(cfg, states[n], actions[n]) && states[n + 1] == Apply(cfg, states[n], actions[n]);
    hide Concluded, Replied, Start;
  }

  lemma AnswerEnds(cfg: Client.Config, l: Local, answer: Answer, moment: Moment)
    requires l.asking.Some?
    requires l.asking.value.core == if moment.attached then l.asking.value.record.core else None
    ensures Settles(cfg, l, Concluded(cfg, l, answer), l.asking.value, moment, answer)
  {
    var asking := l.asking.value;
    if Open(answer.reply, answer.now) {
      KeptOpen(cfg, l, answer);
      if answer.written {
        var p := ReportOf(asking, answer.reply);
        assert OfferedAt(Concluded(cfg, l, answer), asking, moment, answer.reply, PathOf(p)) by {
          hide Concluded, FileName;
        }
      }
    }
    hide FileName, Spool.Written, Offered;
  }

  function ReportOf(asking: Asking, reply: Option<Directive>): PendingUpload {
    match reply
    case Some(d) => PendingUpload(asking.event, asking.record.uid, asking.core, d, false)
    case None => PendingUpload(asking.event, asking.record.uid, asking.core, UNCONFIRMED, true)
  }

  lemma KeptOpen(cfg: Client.Config, l: Local, answer: Answer)
    requires l.asking.Some? && Open(answer.reply, answer.now)
    ensures var l', p := Concluded(cfg, l, answer), ReportOf(l.asking.value, answer.reply);
      l'.cores == l.cores && (answer.written ==> l'.pending == l.pending[PathOf(p) := p])
  {
    hide PathOf, Spool.Written;
  }
}
