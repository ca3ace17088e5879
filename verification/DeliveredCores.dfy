/** What becomes of a payload: a core dump that a successful send deletes is on the server, byte for byte,
    and a report whose upload failed can never be delivered with the token it holds. */
module DeliveredCores {
  import opened Base
  import opened Events
  import opened Storage
  import opened Client
  import opened Delivery
  import opened IngestLinks
  import Database
  import Ingest
  import IngestDisk
  import IngestRetry
  import IngestSafety
  import ClientRuns
  import Upload

  // ---------------------------------------------------------------- what the server made of an upload

  /** In what the client sends, the core dump is the last part of its name. */
  lemma {:induction false} CoreIsSent(metadata: Bytes, core: Bytes, others: seq<Upload.Attachment>)
    requires Besides(others)
    ensures var attachments := [Upload.Attachment(CORE_DUMP, core)] + others;
      Upload.LastNamed(Upload.ClientParts(metadata, attachments), CORE_DUMP) == Some(core)
  {
    var attachments := [Upload.Attachment(CORE_DUMP, core)] + others;
    var n := |attachments| - 1;
    var parts := Upload.ClientParts(metadata, attachments);
    assert parts[..|parts| - 1] == Upload.ClientParts(metadata, attachments[..n]);
    Upload.JoinOne(attachments[n].content);
    if others != [] {
      assert attachments[..n] == [Upload.Attachment(CORE_DUMP, core)] + others[..|others| - 1];
      CoreIsSent(metadata, core, others[..|others| - 1]);
    }
  }

  /** A report that was accepted from these attachments refers to the core by its digest. */
  lemma CoreIsReferred(cfg: Delivery.Config, row: Database.ReportRow, limit: nat, core: Bytes, others: seq<Upload.Attachment>)
    requires Besides(others) && Received(cfg, row, limit, [Upload.Attachment(CORE_DUMP, core)] + others)
    ensures CORE_DUMP in row.blobs && row.blobs[CORE_DUMP] == Blob(cfg.server.env.digest(core), |core|)
  {
    var body := Upload.Body(Upload.ClientParts(row.metadata, [Upload.Attachment(CORE_DUMP, core)] + others), true);
    Upload.AcceptedIff(cfg.server.env, limit, body);
    CoreIsSent(row.metadata, core, others);
    hide Upload.Verdict, Upload.ClientParts, Upload.LastNamed;
    assert CORE_DUMP != Upload.METADATA;
  }

  // ---------------------------------------------------------------- stored for good

  /** The server holds a report of exactly this event, with exactly these bytes as its core dump. */
  ghost predicate CoreStored(s: Ingest.Server, event: CrashEvent, core: Bytes) {
    exists r :: r in s.tables.reports && StoredIn(s, s.tables.reports[r], event, core)
  }

  ghost predicate StoredIn(s: Ingest.Server, row: Database.ReportRow, event: CrashEvent, core: Bytes) {
    && row.eventId in s.tables.events && s.tables.events[row.eventId].event == event
    && CORE_DUMP in row.blobs && row.blobs[CORE_DUMP].sha256 in s.disk.blobs
    && s.disk.blobs[row.blobs[CORE_DUMP].sha256] == core
  }

  /** The event behind the token of a send is the event of the report that is sent. */
  lemma TokenOfSend(cfg: Delivery.Config, s: System, e: PendingEntry, t: Transfer)
    requires Sound(cfg, s) && Served(cfg, s, e, t) && SendResult(e, t) == Ok(())
    ensures var k := DirectiveFor(e, t).value.uploadToken.value;
      && k in s.server.tables.tokens && s.server.tables.tokens[k].eventId in s.server.tables.events
      && s.server.tables.events[s.server.tables.tokens[k].eventId].event == e.pending.event
  {
    var d := DirectiveFor(e, t).value;
    if e.pending.awaiting {
      RepliedAnswers(s.server, e.pending.event, d);
    } else {
      assert Backed(s.server.tables, e.pending);
    }
    hide Linked, Faithful, Replied, Delivered, InStep, DrainAccurate, AllBacked;
  }

  /** A send that succeeds has put the core on the server. */
  lemma SendStores(cfg: Delivery.Config, s: System, e: PendingEntry, t: Transfer)
    requires Sound(cfg, s) && IngestSafety.Safe(cfg.server, s.server) && Injective(cfg.server.env.digest)
    requires Served(cfg, s, e, t) && SendResult(e, t) == Ok(()) && e.pending.core.Some?
    ensures e.pending.core.value in s.local.cores
    ensures CoreStored(s.server, e.pending.event, s.local.cores[e.pending.core.value])
  {
    TokenOfSend(cfg, s, e, t);
    var token := DirectiveFor(e, t).value.uploadToken.value;
    var core := s.local.cores[e.pending.core.value];
    hide Sound, Served, SendResult, DirectiveFor, IngestDisk.Accepted, Linked, Faithful, CountersExact;
    var r, others: seq<Upload.Attachment> :|
      && r in s.server.tables.reports
      && s.server.tables.reports[r].eventId == s.server.tables.tokens[token].eventId
      && Besides(others)
      && Received(cfg, s.server.tables.reports[r], Ingest.Limit(cfg.server, s.server.tables.tokens[token]),
                  CorePart(s.local, e) + others);
    var row := s.server.tables.reports[r];
    CoreIsReferred(cfg, row, Ingest.Limit(cfg.server, s.server.tables.tokens[token]), core, others);
    hide Received, Besides;
    BlobIsCore(cfg, s.server, row, core);
    assert StoredIn(s.server, row, e.pending.event, core);
  }

  lemma BlobIsCore(cfg: Delivery.Config, s: Ingest.Server, row: Database.ReportRow, core: Bytes)
    requires IngestDisk.AllResolve(s) && ContentAddressed(cfg.server.env.digest, s.disk) && Injective(cfg.server.env.digest)
    requires row in s.tables.reports.Values
    requires CORE_DUMP in row.blobs && row.blobs[CORE_DUMP] == Blob(cfg.server.env.digest(core), |core|)
    ensures row.blobs[CORE_DUMP].sha256 in s.disk.blobs && s.disk.blobs[row.blobs[CORE_DUMP].sha256] == core
  {
    var r :| r in s.tables.reports && s.tables.reports[r] == row;
    assert IngestDisk.Resolves(s.disk, s.tables.reports[r].blobs);
  }

  lemma StoredStays(cfg: Delivery.Config, s: System, a: Action, event: CrashEvent, core: Bytes)
    requires Enabled(cfg, s, a) && IngestSafety.Safe(cfg.server, s.server) && Injective(cfg.server.env.digest)
    requires CoreStored(s.server, event, core)
    ensures CoreStored(Apply(cfg, s, a).server, event, core)
  {
    if a.ServerStep? {
      PreservesStep(cfg.server, s.server, a.step);
      IngestDisk.BlobsStable(cfg.server, s.server, a.step);
      hide Ingest.Apply, Ingest.Enabled, IngestSafety.Safe, Injective, Preserves, CoreStored;
      StoredKept(s.server, Ingest.Apply(cfg.server, s.server, a.step), event, core);
    } else {
      hide ClientRuns.Apply, ClientRuns.Enabled, Guarded, Ingest.Apply, Ingest.Enabled, CoreStored;
    }
  }

  lemma StoredKept(s: Ingest.Server, s': Ingest.Server, event: CrashEvent, core: Bytes)
    requires Preserves(s.tables, s'.tables) && CoreStored(s, event, core)
    requires forall h :: h in s.disk.blobs ==> h in s'.disk.blobs && s'.disk.blobs[h] == s.disk.blobs[h]
    ensures CoreStored(s', event, core)
  {
    hide TokensPreserved;
    var r :| r in s.tables.reports && StoredIn(s, s.tables.reports[r], event, core);
    assert StoredIn(s', s'.tables.reports[r], event, core);
  }

  lemma {:induction false} StoredInRun(cfg: Delivery.Config, states: seq<System>, actions: seq<Action>, i: nat, j: nat,
                                       event: CrashEvent, core: Bytes)
    requires Run(cfg, states, actions) && i <= j < |states| && Injective(cfg.server.env.digest)
    requires CoreStored(states[i].server, event, core)
    ensures CoreStored(states[j].server, event, core)
    decreases j
  {
    hide Apply, IngestSafety.Safe, Start, CoreStored, Injective, Enabled;
    if i < j {
      StoredInRun(cfg, states, actions, i, j - 1, event, core);
      RunServerSafe(cfg, states, actions, j - 1);
      StoredStays(cfg, states[j - 1], actions[j - 1], event, core);
    }
  }

  /** In no run is a core lost to a send: when a send that succeeds deletes one, the server holds a report
      of that very event with its bytes as core dump, then and at every later moment. */
  lemma CoreOutlivesSend(cfg: Delivery.Config, states: seq<System>, actions: seq<Action>, i: nat, j: nat)
    requires Run(cfg, states, actions) && i <= j < |states| && i < |actions| && Injective(cfg.server.env.digest)
    requires actions[i].LocalStep? && actions[i].act.SessionSend?
    requires SendResult(actions[i].act.entry, actions[i].act.transfer) == Ok(()) && actions[i].act.entry.pending.core.Some?
    ensures var e := actions[i].act.entry;
      e.pending.core.value in states[i].local.cores
      && CoreStored(states[j].server, e.pending.event, states[i].local.cores[e.pending.core.value])
  {
    var e, t := actions[i].act.entry, actions[i].act.transfer;
    hide Run, Sound, IngestSafety.Safe, Served, SendResult, CoreStored, Injective;
    SendServed(cfg, states, actions, i);
    RunSound(cfg, states, actions, i);
    RunServerSafe(cfg, states, actions, i);
    SendStores(cfg, states[i], e, t);
    StoredInRun(cfg, states, actions, i, j, e.pending.event, states[i].local.cores[e.pending.core.value]);
  }

  lemma SendServed(cfg: Delivery.Config, states: seq<System>, actions: seq<Action>, i: nat)
    requires Run(cfg, states, actions) && i < |actions| && actions[i].LocalStep? && actions[i].act.SessionSend?
    ensures Served(cfg, states[i], actions[i].act.entry, actions[i].act.transfer)
  {
    assert Enabled(cfg, states[i], actions[i]);
    hide Apply, Start, Served, ClientRuns.Enabled;
  }

  lemma RunServerSafe(cfg: Delivery.Config, states: seq<System>, actions: seq<Action>, n: nat)
    requires Run(cfg, states, actions) && n < |states|
    ensures IngestSafety.Safe(cfg.server, states[n].server)
  {
    ServerReachable(cfg, states, actions, n);
    IngestSafety.ReachableSafe(cfg.server, states[n].server);
    hide Run, Ingest.Reachable, IngestSafety.Safe;
  }

  // ---------------------------------------------------------------- a report that can no longer be delivered

  lemma DeadStays(cfg: Delivery.Config, s: System, a: Action, k: string)
    requires Enabled(cfg, s, a) && Linked(cfg.server, s.server) && IngestRetry.Dead(s.server, k)
    ensures IngestRetry.Dead(Apply(cfg, s, a).server, k)
  {
    if a.ServerStep? {
      IngestRetry.DeadStep(cfg.server, s.server, a.step, k);
    }
    hide ClientRuns.Apply, Ingest.Apply, Linked, IngestRetry.Dead;
  }

  lemma {:induction false} DeadInRun(cfg: Delivery.Config, states: seq<System>, actions: seq<Action>, i: nat, j: nat, k: string)
    requires Run(cfg, states, actions) && i <= j < |states| && IngestRetry.Dead(states[i].server, k)
    ensures IngestRetry.Dead(states[j].server, k)
    decreases j
  {
    hide Apply, Enabled, Sound, Start, IngestRetry.Dead, Linked;
    if i < j {
      DeadInRun(cfg, states, actions, i, j - 1, k);
      RunSound(cfg, states, actions, j - 1);
      SoundLinked(cfg, states[j - 1]);
      DeadStays(cfg, states[j - 1], actions[j - 1], k);
    }
  }

  lemma SoundLinked(cfg: Delivery.Config, s: System)
    requires Sound(cfg, s)
    ensures Linked(cfg.server, s.server)
  {
  }

  /** Once an upload with the token of a report has failed, the report stays in the store as if it could be
      sent again, but no send of it ever succeeds. */
  lemma FailedUploadIsFinal(cfg: Delivery.Config, states: seq<System>, actions: seq<Action>, i: nat, j: nat)
    requires Run(cfg, states, actions) && i < j < |actions|
    requires actions[i].ServerStep? && Ingest.Enabled(cfg.server, states[i].server, actions[i].step)
    requires IngestRetry.Fails(cfg.server, states[i].server, actions[i].step)
    requires actions[j].LocalStep? && actions[j].act.SessionSend? && !actions[j].act.entry.pending.awaiting
    requires actions[j].act.entry.pending.directive.uploadToken == Some(states[i].server.uploads[actions[i].step.req].token)
    ensures SendResult(actions[j].act.entry, actions[j].act.transfer) != Ok(())
  {
    var k := states[i].server.uploads[actions[i].step.req].token;
    Killed(cfg, states, actions, i);
    hide Ingest.Apply, Ingest.Enabled, IngestRetry.Fails, IngestRetry.Dead, Served, SendResult;
    hide Apply, Sound, Linked, Start, Enabled;
    DeadInRun(cfg, states, actions, i + 1, j, k);
    SendServed(cfg, states, actions, j);
    DeadNotServed(cfg, states[j], actions[j].act.entry, actions[j].act.transfer, k);
  }

  lemma Killed(cfg: Delivery.Config, states: seq<System>, actions: seq<Action>, i: nat)
    requires Run(cfg, states, actions) && i < |actions| && actions[i].ServerStep?
    requires Ingest.Enabled(cfg.server, states[i].server, actions[i].step)
    requires IngestRetry.Fails(cfg.server, states[i].server, actions[i].step)
    ensures IngestRetry.Dead(states[i + 1].server, states[i].server.uploads[actions[i].step.req].token)
  {
    RunSound(cfg, states, actions, i);
    SoundLinked(cfg, states[i]);
    IngestRetry.FailureKills(cfg.server, states[i].server, actions[i].step);
    hide Sound, Linked, Start, Ingest.Apply, Ingest.Enabled, IngestRetry.Dead;
    assert states[i + 1] == Apply(cfg, states[i], actions[i]);
  }

  /** The server records nothing for a token that is dead. */
  lemma DeadNotServed(cfg: Delivery.Config, s: System, e: PendingEntry, t: Transfer, k: string)
    requires IngestRetry.Dead(s.server, k) && Served(cfg, s, e, t)
    requires !e.pending.awaiting && e.pending.directive.uploadToken == Some(k)
    ensures SendResult(e, t) != Ok(())
  {
    hide Received, Besides, Replied;
  }
}
