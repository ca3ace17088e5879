/** At-least-once delivery: the daemon reading its journal, the spool and the server, put together. The
    daemon remembers a journal position and saves it only after a crash is handled
    (crates/blankres-daemon/src/main.rs); it may be killed at any moment, and replies may be late or lost.
    The apt hook rewrites the daemon's state file as well (crates/blankres-hooks/src/main.rs). */
module Delivery {
  import opened Base
  import opened Events
  import opened Client
  import Ingest
  import opened IngestLinks
  import Upload
  import ClientRuns
  import Database
  import DaemonState
  import Spool

  datatype Config = Config(server: Ingest.Config, client: Client.Config, journal: seq<Record>)

  /** `present` entries are in the journal so far, `next` is the daemon's position in memory, `saved` the
      one in the state file, `hook` the one an apt hook has read and is about to write back, and `loaded`
      are the pending reports that front ends have read. */
  datatype System = System(
    server: Ingest.Server, local: Local, present: nat, next: nat, saved: Option<nat>, hook: Option<Option<nat>>,
    loaded: set<PendingEntry>)

  datatype Action =
    | ServerStep(step: Ingest.Action)
    | LocalStep(act: ClientRuns.Action, stateSaved: bool)
    | JournalWritten
    | HookLoad
    | HookSave
    | ReportLoaded(path: Path)

  function BatchOf(list: seq<(string, CrashEvent)>): seq<CrashEvent> {
    seq(|list|, i requires 0 <= i < |list| => list[i].1)
  }

  /** The server has sent this reply to this batch. */
  ghost predicate Replied(s: Ingest.Server, batch: seq<CrashEvent>, directives: seq<Directive>) {
    exists req :: req in s.replies && s.replies[req] == Ingest.Reply(batch, directives)
  }

  const CORE_DUMP := "core-dump"

  /** What an upload sends of the core: the bytes of the file, streamed as they are. */
  function CorePart(l: Local, e: PendingEntry): seq<Upload.Attachment> {
    match e.pending.core
    case Some(core) => if core in l.cores then [Upload.Attachment(CORE_DUMP, l.cores[core])] else []
    case None => []
  }

  /** The server holds a report that it accepted from what the client sends for this entry with this token. */
  ghost predicate Delivered(cfg: Config, s: System, e: PendingEntry, token: string) {
    && token in s.server.tables.tokens
    && (e.pending.core.Some? ==> e.pending.core.value in s.local.cores)
    && exists r, others: seq<Upload.Attachment> ::
         && r in s.server.tables.reports
         && s.server.tables.reports[r].eventId == s.server.tables.tokens[token].eventId
         && Besides(others)
         && Received(cfg, s.server.tables.reports[r], Ingest.Limit(cfg.server, s.server.tables.tokens[token]),
                     CorePart(s.local, e) + others)
  }

  /** The attachments besides the core: texts collected into the report. */
  ghost predicate Besides(others: seq<Upload.Attachment>) {
    forall i :: 0 <= i < |others| ==> others[i].name != CORE_DUMP && others[i].name != Upload.METADATA
  }

  /** The row is what `post_report` makes of these attachments beside the row's metadata. */
  ghost predicate Received(cfg: Config, row: Database.ReportRow, limit: nat, attachments: seq<Upload.Attachment>) {
    Upload.Verdict(cfg.server.env, limit, Upload.Body(Upload.ClientParts(row.metadata, attachments), true))
      == Ok(Upload.Progress(row.totalBytes, Some(row.metadata), row.blobs))
  }

  /** A front end acts on a report it has loaded. An answer it gets is one the server gave for that event,
      and an upload succeeds only once the server has recorded it. */
  ghost predicate Served(cfg: Config, s: System, e: PendingEntry, t: Transfer) {
    && e in s.loaded
    && (e.pending.awaiting && t.reply.Some? ==> Replied(s.server, [e.pending.event], [t.reply.value]))
    && (SendResult(e, t) == Ok(()) ==> Delivered(cfg, s, e, DirectiveFor(e, t).value.uploadToken.value))
  }

  /** A crash is the next journal entry; an answer is one the server gave, whenever it gave it; spool
      files are removed only after a reply to their batch. */
  ghost predicate Guarded(cfg: Config, s: System, a: ClientRuns.Action) {
    match a
    case Crash(record, _) => s.next < s.present <= |cfg.journal| && record == cfg.journal[s.next]
    case Answered(answer) =>
      s.local.asking.Some? && (answer.reply.Some? ==> Replied(s.server, [s.local.asking.value.event], [answer.reply.value]))
    case OopsSpooled(event, _) => event.entry.None?
    case Restart(_, cut) =>
      cut.Some? && cut.value.event.entry.Some? ==> s.local.asking.Some? && cut.value.event == s.local.asking.value.event
    case SessionSend(entry, transfer) => Served(cfg, s, entry, transfer)
    case SessionDiscard(entry) => entry in s.loaded
    case DeclineBegin(_, uid, entry) => entry in s.loaded && uid == entry.path.0
    case DrainEnd(removed) =>
      s.local.draining.Some? && (removed > 0 ==> exists directives :: Replied(s.server, BatchOf(s.local.draining.value), directives))
    case _ => true
  }

  ghost predicate Enabled(cfg: Config, s: System, a: Action) {
    match a
    case ServerStep(step) => Ingest.Enabled(cfg.server, s.server, step)
    case LocalStep(act, _) => ClientRuns.Enabled(cfg.client, s.local, act) && Guarded(cfg, s, act)
    case JournalWritten => s.present < |cfg.journal|
    case HookLoad => s.hook.None?
    case HookSave => s.hook.Some?
    case ReportLoaded(path) => path in s.local.pending
  }

  /** The step that ends the handling of a journal entry. */
  ghost predicate Advances(cfg: Config, s: System, a: ClientRuns.Action)
    requires ClientRuns.Enabled(cfg.client, s.local, a)
  {
    a.Answered? || (a.Crash? && ClientRuns.Apply(cfg.client, s.local, a).asking.None?)
  }

  /** A daemon that finds no position in its state file starts at the present, not at the beginning. */
  ghost function Apply(cfg: Config, s: System, a: Action): System
    requires Enabled(cfg, s, a)
  {
    match a
    case ServerStep(step) => s.(server := Ingest.Apply(cfg.server, s.server, step))
    case LocalStep(act, stateSaved) =>
      var s' := s.(local := ClientRuns.Apply(cfg.client, s.local, act));
      if act.Restart? then s'.(next := match s.saved case Some(p) => p case None => s.present)
      else if Advances(cfg, s, act) then s'.(next := s.next + 1, saved := if stateSaved then Some(s.next + 1) else s.saved)
      else s'
    case JournalWritten => s.(present := s.present + 1)
    case HookLoad => s.(hook := Some(s.saved))
    case HookSave => s.(hook := None, saved := s.hook.value)
    case ReportLoaded(path) => s.(loaded := s.loaded + {PendingEntry(path, s.local.pending[path])})
  }

  // ---------------------------------------------------------------- where a crash is

  /** The event is the one for that record. */
  predicate Reports(event: CrashEvent, r: Record) {
    && event.entry == Some(r.entry)
    && event.signature == r.signature && event.timestamp == r.timestamp && event.executable == Executable(r)
  }

  ghost predicate Recorded(s: System, r: Record) {
    exists id :: id in s.server.tables.events && Reports(s.server.tables.events[id].event, r)
  }

  ghost predicate HoldsEntry(files: Spool.Files, name: string, r: Record) {
    name in files && files[name].Readable? && Reports(files[name].event, r)
  }

  ghost predicate Spooled(s: System, r: Record) {
    exists name :: HoldsEntry(s.local.spool, name, r)
  }

  ghost predicate Kept(s: System, r: Record) {
    Recorded(s, r) || Spooled(s, r)
  }

  /** A push drops the crash's file: the cap takes it as one of the oldest, or a file of the same name
      is overwritten, with another event or with nothing that can be read. */
  ghost predicate PushDrops(files: Spool.Files, event: CrashEvent, write: Overwrite, r: Record) {
    exists name :: HoldsEntry(files, name, r)
      && (name !in Spool.Trimmed(files)
          || (name == Spool.FileName(event) && !write.Untouched? && !(write.Done? && Reports(event, r))))
  }

  /** The push that a step makes, if any. */
  function PushOf(l: Local, a: ClientRuns.Action): Option<ClientRuns.Cut> {
    match a
    case Answered(answer) =>
      if l.asking.Some? && answer.reply.None? then Some(ClientRuns.Cut(l.asking.value.event, answer.spooled)) else None
    case OopsSpooled(event, spooled) => Some(ClientRuns.Cut(event, spooled))
    case Restart(_, cut) => cut
    case _ => None
  }

  /** The ways of losing a crash. */
  ghost predicate Lost(s: System, a: Action, r: Record) {
    a.LocalStep? &&
    var push := PushOf(s.local, a.act);
    || (push.Some? && PushDrops(s.local.spool, push.value.event, push.value.write, r))
    || (a.act.Answered? && push.Some? && Reports(push.value.event, r) && !push.value.write.Done?)
    || (a.act.SpoolDecay? && HoldsEntry(s.local.spool, a.act.name, r))
  }

  /** The gate turned the crash away. */
  ghost predicate Suppressed(cfg: Config, s: System, a: Action, r: Record) {
    a.LocalStep? && a.act.Crash? && a.act.record == r && Suppresses(cfg.client, s.local, r, a.act.moment.at)
  }

  /** A restart without a saved position passes over what the daemon had not finished. */
  ghost predicate Skipped(s: System, a: Action, e: nat) {
    a.LocalStep? && a.act.Restart? && s.saved.None? && s.next <= e < s.present
  }

  /** The step after which the crash at journal position `e` may be nowhere. */
  ghost predicate Explained(cfg: Config, s: System, a: Action, e: nat) {
    e < |cfg.journal|
    && (Suppressed(cfg, s, a, cfg.journal[e]) || Skipped(s, a, e) || Lost(s, a, cfg.journal[e]))
  }

  /** In plain words: a crash is lost only to a full spool, to a push under the name of its file, to its
      own write failing, or to its file becoming unreadable. */
  lemma LossCauses(s: System, a: Action, r: Record)
    requires Lost(s, a, r)
    ensures var push := PushOf(s.local, a.act);
      || |s.local.spool| >= Spool.MAX_SPOOLED
      || (push.Some? && !push.value.write.Untouched? && HoldsEntry(s.local.spool, Spool.FileName(push.value.event), r))
      || (push.Some? && !push.value.write.Done? && a.act.Answered? && Reports(push.value.event, r))
      || (a.act.SpoolDecay? && HoldsEntry(s.local.spool, a.act.name, r))
  {
    Spool.TrimmedKeeps(s.local.spool);
  }

  // ---------------------------------------------------------------- what every step keeps

  ghost predicate NumberedJournal(cfg: Config) {
    forall i :: 0 <= i < |cfg.journal| ==> cfg.journal[i].entry == i
  }

  ghost predicate InStep(cfg: Config, s: System) {
    && s.next <= s.present <= |cfg.journal|
    && (s.saved.Some? ==> s.saved.value <= s.next)
    && (s.hook.Some? && s.hook.value.Some? ==> s.saved.Some? && s.hook.value.value <= s.saved.value)
    && (s.local.asking.Some? ==>
          s.next < s.present && s.local.asking.value.record == cfg.journal[s.next]
          && Reports(s.local.asking.value.event, cfg.journal[s.next]) && s.local.draining.None?)
  }

  /** Files under way to the server are still what was read from them, or have decayed. */
  ghost predicate DrainAccurate(l: Local) {
    l.draining.Some? ==> forall i :: 0 <= i < |l.draining.value| ==>
      var p := l.draining.value[i];
      p.0 in l.spool ==> l.spool[p.0] == Spool.Readable(p.1) || l.spool[p.0].Corrupt?
  }

  /** A report that does not await its directive has the one that the server gave for its event. */
  ghost predicate Backed(t: Database.Tables, p: PendingUpload) {
    p.awaiting || Answers(t, p.event, p.directive)
  }

  ghost predicate AllBacked(s: System) {
    && (forall path :: path in s.local.pending ==> Backed(s.server.tables, s.local.pending[path]))
    && (forall e :: e in s.loaded ==> Backed(s.server.tables, e.pending))
  }

  ghost predicate Sound(cfg: Config, s: System) {
    && NumberedJournal(cfg) && InStep(cfg, s) && DrainAccurate(s.local) && AllBacked(s)
    && Linked(cfg.server, s.server) && Faithful(s.server)
  }

  lemma LocalShape(cfg: Client.Config, l: Local, a: ClientRuns.Action)
    requires ClientRuns.Enabled(cfg, l, a)
    ensures var l' := ClientRuns.Apply(cfg, l, a);
      && (a.Crash? && l'.asking.Some? ==>
            l'.asking.value.record == a.record && Reports(l'.asking.value.event, a.record))
      && (a.Answered? || a.Restart? ==> l'.asking.None?)
      && (!a.Crash? && !a.Answered? && !a.Restart? ==> l'.asking == l.asking)
      && (!a.DrainBegin? ==> l'.draining == l.draining || l'.draining.None?)
      && (a.DrainBegin? ==> l'.draining == Some(a.list))
  {
    hide Spool.Written, Spool.Readables, SendResult;
    if a.Crash? {
      ClientRuns.GatedLeaves(cfg, l, a.record, a.moment);
      GateAsks(cfg, l, a.record, a.moment);
      hide Gated;
    } else if a.Answered? {
      ClientRuns.ConcludedLeaves(cfg, l, a.answer);
      hide Concluded;
    } else {
      hide Gated, Concluded;
    }
  }

  lemma GateAsks(cfg: Client.Config, l: Local, r: Record, t: Moment)
    requires l.asking.None?
    ensures var l' := Gated(cfg, l, r, t);
      l'.asking.Some? ==> l'.asking.value.record == r && Reports(l'.asking.value.event, r)
  {
    var noted := DaemonState.Noted(DaemonState.Charged(l.memory, Executable(r), t.at), r.signature);
    EventReports(r, DaemonState.SignatureOf(noted, r.signature).count, t.size);
    hide Suppresses, DaemonState.Charged, DaemonState.Noted, DaemonState.SignatureOf, Client.EventOf, Reports, Executable;
  }

  lemma EventReports(r: Record, count: nat, size: Option<nat>)
    ensures Reports(Client.EventOf(r, count, size), r)
  {
  }

  lemma InStepStep(cfg: Config, s: System, a: Action)
    requires NumberedJournal(cfg) && InStep(cfg, s) && Enabled(cfg, s, a)
    ensures InStep(cfg, Apply(cfg, s, a))
  {
    if a.LocalStep? {
      LocalShape(cfg.client, s.local, a.act);
    }
    hide ClientRuns.Apply, Ingest.Apply, Ingest.Enabled, Replied;
  }

  /** What a step does to the spool. */
  lemma SpoolShape(cfg: Client.Config, l: Local, a: ClientRuns.Action)
    requires ClientRuns.Enabled(cfg, l, a)
    ensures var l' := ClientRuns.Apply(cfg, l, a);
      SpoolMoves(l, l', a)
  {
    hide Spool.Written, Spool.Readables, ClientRuns.Removed, SendResult;
    if a.Crash? {
      ClientRuns.GatedLeaves(cfg, l, a.record, a.moment);
      hide Gated;
    } else if a.Answered? {
      AnsweredSpool(cfg, l, a.answer);
      hide Concluded;
    } else {
      hide Gated, Concluded;
    }
  }

  lemma AnsweredSpool(cfg: Client.Config, l: Local, a: Answer)
    requires l.asking.Some?
    ensures Concluded(cfg, l, a).spool
      == if a.reply.None? then Spool.Written(l.spool, l.asking.value.event, a.spooled) else l.spool
  {
    hide FileName, Spool.Written;
  }

  ghost predicate SpoolMoves(l: Local, l': Local, a: ClientRuns.Action) {
    match a
    case DrainBegin(_) => l'.spool == Spool.Readables(l.spool)
    case DrainEnd(removed) =>
      && l.draining.Some? && removed <= |l.draining.value|
      && l'.spool == ClientRuns.Removed(l.spool, l.draining.value, removed)
    case SpoolDecay(name) => l'.spool == l.spool[name := Spool.Corrupt]
    case _ => l'.spool == Pushed(l.spool, PushOf(l, a))
  }

  ghost function Pushed(files: Spool.Files, push: Option<ClientRuns.Cut>): Spool.Files {
    match push
    case Some(p) => Spool.Written(files, p.event, p.write)
    case None => files
  }

  lemma DrainAccurateStep(cfg: Client.Config, l: Local, a: ClientRuns.Action)
    requires DrainAccurate(l) && ClientRuns.Enabled(cfg, l, a)
    requires a.Answered? ==> l.draining.None?
    ensures DrainAccurate(ClientRuns.Apply(cfg, l, a))
  {
    LocalShape(cfg, l, a);
    SpoolShape(cfg, l, a);
    hide ClientRuns.Apply;
  }

  lemma SoundStep(cfg: Config, s: System, a: Action)
    requires Sound(cfg, s) && Enabled(cfg, s, a)
    ensures Sound(cfg, Apply(cfg, s, a))
  {
    InStepStep(cfg, s, a);
    AllBackedStep(cfg, s, a);
    if a.ServerStep? {
      LinkedStep(cfg.server, s.server, a.step);
      FaithfulStep(cfg.server, s.server, a.step);
    } else if a.LocalStep? {
      DrainAccurateStep(cfg.client, s.local, a.act);
    }
    hide ClientRuns.Apply, Ingest.Apply, Linked, Faithful, InStep, DrainAccurate, AllBacked;
  }

  lemma BackedKept(t: Database.Tables, t': Database.Tables, p: PendingUpload)
    requires Backed(t, p) && Preserves(t, t')
    ensures Backed(t', p)
  {
    if !p.awaiting {
      AnswersKept(t, t', [p.event], [p.directive]);
      assert AllAnswered(t, [p.event], [p.directive]);
      assert Answers(t', [p.event][0], [p.directive][0]);
    }
  }

  /** A reply that the server gave to one event answers it. */
  lemma RepliedAnswers(s: Ingest.Server, event: CrashEvent, d: Directive)
    requires Faithful(s) && Replied(s, [event], [d])
    ensures Answers(s.tables, event, d)
  {
    var req :| req in s.replies && s.replies[req] == Ingest.Reply([event], [d]);
    assert AllAnswered(s.tables, [event], [d]);
    assert Answers(s.tables, [event][0], [d][0]);
  }

  /** The pending reports change by one report that an answer leaves, or only shrink. */
  lemma PendingShape(cfg: Client.Config, l: Local, a: ClientRuns.Action)
    requires ClientRuns.Enabled(cfg, l, a)
    ensures var l' := ClientRuns.Apply(cfg, l, a);
      forall path :: path in l'.pending ==>
        || (path in l.pending && l'.pending[path] == l.pending[path])
        || (a.Answered? && l.asking.Some?
            && (a.answer.reply.Some? ==> l'.pending[path].event == l.asking.value.event && l'.pending[path].directive == a.answer.reply.value)
            && (a.answer.reply.None? ==> l'.pending[path].awaiting))
  {
    if a.Answered? {
      AnsweredPending(cfg, l, a.answer);
      hide Concluded;
    } else if a.SessionSend? || a.SessionDiscard? || a.DeclineEnd? {
      hide SendResult, FileName;
    } else {
      ClientRuns.PendingUntouched(cfg, l, a);
      hide ClientRuns.Apply, ClientRuns.Enabled;
    }
  }

  lemma AnsweredPending(cfg: Client.Config, l: Local, a: Answer)
    requires l.asking.Some?
    ensures var l' := Concluded(cfg, l, a);
      forall path :: path in l'.pending ==>
        || (path in l.pending && l'.pending[path] == l.pending[path])
        || ((a.reply.Some? ==> l'.pending[path].event == l.asking.value.event && l'.pending[path].directive == a.reply.value)
            && (a.reply.None? ==> l'.pending[path].awaiting))
  {
    hide PathOf, Spool.Written, WithoutCore;
    WithoutCorePending(l.(asking := None), l.asking.value.record.core);
  }

  lemma WithoutCorePending(l: Local, core: Option<string>)
    ensures WithoutCore(l, core).pending == l.pending
  {
  }

  lemma AllBackedStep(cfg: Config, s: System, a: Action)
    requires AllBacked(s) && Faithful(s.server) && Enabled(cfg, s, a)
    ensures AllBacked(Apply(cfg, s, a))
  {
    if a.ServerStep? {
      ServerBacked(cfg, s, a);
    } else if a.LocalStep? {
      LocalBacked(cfg, s, a);
    } else {
      hide Backed;
    }
  }

  lemma ServerBacked(cfg: Config, s: System, a: Action)
    requires AllBacked(s) && Enabled(cfg, s, a) && a.ServerStep?
    ensures AllBacked(Apply(cfg, s, a))
  {
    PreservesStep(cfg.server, s.server, a.step);
    hide Ingest.Apply, Ingest.Enabled, Preserves, Backed;
    var t, t' := s.server.tables, Ingest.Apply(cfg.server, s.server, a.step).tables;
    forall path | path in s.local.pending
      ensures Backed(t', s.local.pending[path])
    {
      BackedKept(t, t', s.local.pending[path]);
    }
    forall e | e in s.loaded
      ensures Backed(t', e.pending)
    {
      BackedKept(t, t', e.pending);
    }
  }

  lemma LocalBacked(cfg: Config, s: System, a: Action)
    requires AllBacked(s) && Faithful(s.server) && Enabled(cfg, s, a) && a.LocalStep?
    ensures AllBacked(Apply(cfg, s, a))
  {
    PendingShape(cfg.client, s.local, a.act);
    if a.act.Answered? && a.act.answer.reply.Some? {
      RepliedAnswers(s.server, s.local.asking.value.event, a.act.answer.reply.value);
    }
    hide ClientRuns.Apply, ClientRuns.Enabled, Answers, Replied, Faithful;
  }

  // ---------------------------------------------------------------- a crash stays somewhere

  lemma RecordedStays(cfg: Config, s: System, a: Action, r: Record)
    requires Enabled(cfg, s, a) && Recorded(s, r)
    ensures Recorded(Apply(cfg, s, a), r)
  {
    var id :| id in s.server.tables.events && Reports(s.server.tables.events[id].event, r);
    if a.ServerStep? {
      PreservesStep(cfg.server, s.server, a.step);
    }
    hide ClientRuns.Apply, Ingest.Apply;
    assert id in Apply(cfg, s, a).server.tables.events;
  }

  /** A reply means that every event of its batch is recorded. */
  lemma RepliedRecorded(s: System, batch: seq<CrashEvent>, directives: seq<Directive>, i: nat, r: Record)
    requires Faithful(s.server) && Replied(s.server, batch, directives)
    requires i < |batch| && Reports(batch[i], r)
    ensures Recorded(s, r) && |directives| == |batch|
  {
    var req :| req in s.server.replies && s.server.replies[req] == Ingest.Reply(batch, directives);
    assert AllAnswered(s.server.tables, batch, directives) && |directives| == |batch|;
    assert Answers(s.server.tables, batch[i], directives[i]);
  }

  lemma PushKeeps(files: Spool.Files, event: CrashEvent, write: Overwrite, name: string, r: Record)
    requires HoldsEntry(files, name, r) && !PushDrops(files, event, write, r)
    ensures HoldsEntry(Spool.Written(files, event, write), name, r)
  {
    Spool.TrimmedKeeps(files);
    hide Spool.Trimmed, Spool.FileName;
    assert name in Spool.Trimmed(files);
  }

  /** Taking drained files away loses nothing that the server has not recorded. */
  lemma DrainKeeps(s: System, removed: nat, name: string, r: Record)
    requires Faithful(s.server) && DrainAccurate(s.local) && s.local.draining.Some?
    requires removed <= |s.local.draining.value| && HoldsEntry(s.local.spool, name, r)
    requires removed > 0 ==> exists directives :: Replied(s.server, BatchOf(s.local.draining.value), directives)
    ensures HoldsEntry(ClientRuns.Removed(s.local.spool, s.local.draining.value, removed), name, r) || Recorded(s, r)
  {
    var list := s.local.draining.value;
    if i :| 0 <= i < removed && list[i].0 == name {
      var directives :| Replied(s.server, BatchOf(list), directives);
      assert s.local.spool[name] == Spool.Readable(list[i].1);
      assert BatchOf(list)[i] == list[i].1;
      RepliedRecorded(s, BatchOf(list), directives, i, r);
    }
  }

  /** A crash that is recorded or spooled stays so, or this step loses it. */
  lemma KeptStep(cfg: Config, s: System, a: Action, r: Record)
    requires Sound(cfg, s) && Enabled(cfg, s, a) && Kept(s, r)
    ensures Kept(Apply(cfg, s, a), r) || Lost(s, a, r)
  {
    if Recorded(s, r) {
      RecordedStays(cfg, s, a, r);
    } else if a.LocalStep? {
      var name :| HoldsEntry(s.local.spool, name, r);
      SpoolShape(cfg.client, s.local, a.act);
      var s' := Apply(cfg, s, a);
      SpoolStep(s, s', a, name, r);
    } else {
      hide Ingest.Apply;
      assert Apply(cfg, s, a).local == s.local;
    }
  }

  /** `KeptStep` for the steps of the daemon, given what they do to the spool. */
  lemma SpoolStep(s: System, s': System, a: Action, name: string, r: Record)
    requires Faithful(s.server) && DrainAccurate(s.local) && s'.server == s.server && a.LocalStep?
    requires HoldsEntry(s.local.spool, name, r) && SpoolMoves(s.local, s'.local, a.act)
    requires a.act.DrainEnd? && a.act.removed > 0 ==>
      s.local.draining.Some? && exists directives :: Replied(s.server, BatchOf(s.local.draining.value), directives)
    ensures Kept(s', r) || Lost(s, a, r)
  {
    hide Spool.Written, PushDrops, Faithful, DrainAccurate, Replied, ClientRuns.Removed, Spool.FileName;
    if a.act.DrainEnd? {
      DrainKeeps(s, a.act.removed, name, r);
    } else if a.act.DrainBegin? || a.act.SpoolDecay? {
      assert HoldsEntry(s'.local.spool, name, r) || Lost(s, a, r);
    } else {
      PushStep(s.local.spool, s'.local.spool, PushOf(s.local, a.act), name, r);
    }
  }

  lemma PushStep(files: Spool.Files, files': Spool.Files, push: Option<ClientRuns.Cut>, name: string, r: Record)
    requires HoldsEntry(files, name, r)
    requires files' == Pushed(files, push)
    ensures HoldsEntry(files', name, r) || (push.Some? && PushDrops(files, push.value.event, push.value.write, r))
  {
    hide Spool.Written, PushDrops;
    if push.Some? && !PushDrops(files, push.value.event, push.value.write, r) {
      PushKeeps(files, push.value.event, push.value.write, name, r);
    }
  }

  /** An entry that a step moves past is suppressed, recorded, spooled, skipped, or lost by that very step. */
  lemma AdvanceStep(cfg: Config, s: System, a: Action, e: nat)
    requires Sound(cfg, s) && Enabled(cfg, s, a) && s.next <= e < Apply(cfg, s, a).next
    ensures e < |cfg.journal| && (Kept(Apply(cfg, s, a), cfg.journal[e]) || Explained(cfg, s, a, e))
  {
    var s' := Apply(cfg, s, a);
    assert a.LocalStep?;
    if a.act.Restart? {
      assert s.saved.None?;
    } else {
      assert Advances(cfg, s, a.act) && e == s.next;
      if a.act.Answered? {
        SpoolShape(cfg.client, s.local, a.act);
        Handed(cfg, s, s', a);
      } else {
        GateShape(cfg.client, s.local, a.act);
      }
    }
  }

  lemma GateShape(cfg: Client.Config, l: Local, a: ClientRuns.Action)
    requires ClientRuns.Enabled(cfg, l, a) && a.Crash?
    ensures ClientRuns.Apply(cfg, l, a).asking.None? <==> Suppresses(cfg, l, a.record, a.moment.at)
  {
    hide Suppresses;
  }

  /** A question that ends hands its event to the server or to the spool. */
  lemma Handed(cfg: Config, s: System, s': System, a: Action)
    requires Sound(cfg, s) && Enabled(cfg, s, a) && a.LocalStep? && a.act.Answered?
    requires s'.server == s.server && SpoolMoves(s.local, s'.local, a.act)
    ensures s.next < |cfg.journal| && (Kept(s', cfg.journal[s.next]) || Lost(s, a, cfg.journal[s.next]))
  {
    var event, answer := s.local.asking.value.event, a.act.answer;
    assert Reports(event, cfg.journal[s.next]);
    hide Faithful, Linked, DrainAccurate, Spool.Trimmed, Replied, PushDrops, AllBacked;
    if answer.reply.Some? {
      RepliedRecorded(s, [event], [answer.reply.value], 0, cfg.journal[s.next]);
    } else if answer.spooled.Done? {
      assert HoldsEntry(s'.local.spool, Spool.FileName(event), cfg.journal[s.next]);
    }
  }

  // ---------------------------------------------------------------- runs

  ghost predicate Start(s: System) {
    (exists now :: s.server == Ingest.Init(now)) && s.local.asking.None? && s.local.draining.None?
    && s.present == 0 && s.next == 0 && s.saved.None? && s.hook.None? && s.local.pending == map[] && s.loaded == {}
  }

  /** A run from any state. */
  ghost predicate Steps(cfg: Config, states: seq<System>, actions: seq<Action>) {
    && |states| == |actions| + 1
    && forall i :: 0 <= i < |actions| ==> Enabled(cfg, states[i], actions[i]) && states[i + 1] == Apply(cfg, states[i], actions[i])
  }

  /** A run from the installation of the daemon. */
  ghost predicate Run(cfg: Config, states: seq<System>, actions: seq<Action>) {
    NumberedJournal(cfg) && Steps(cfg, states, actions) && Start(states[0])
  }

  lemma StartSound(cfg: Config, s: System)
    requires NumberedJournal(cfg) && Start(s)
    ensures Sound(cfg, s)
  {
  }

  lemma {:induction false} RunSound(cfg: Config, states: seq<System>, actions: seq<Action>, n: nat)
    requires Run(cfg, states, actions) && n < |states|
    ensures Sound(cfg, states[n])
  {
    hide Apply, Enabled, Sound, Start;
    if n == 0 {
      StartSound(cfg, states[0]);
    } else {
      RunSound(cfg, states, actions, n - 1);
      SoundStep(cfg, states[n - 1], actions[n - 1]);
    }
  }

  /** Where the crash at journal position `e` is at moment `n`: recorded or spooled, or gone because of one
      step, and nowhere since. */
  ghost predicate Fate(cfg: Config, states: seq<System>, actions: seq<Action>, n: nat, e: nat)
    requires Run(cfg, states, actions) && n < |states| && e < |cfg.journal|
  {
    || Kept(states[n], cfg.journal[e])
    || exists k: nat :: k < n && Gone(cfg, states, actions, k, n, e)
  }

  ghost predicate Gone(cfg: Config, states: seq<System>, actions: seq<Action>, k: nat, n: nat, e: nat)
    requires |states| == |actions| + 1 && k < n < |states| && e < |cfg.journal|
  {
    Explained(cfg, states[k], actions[k], e) && forall i | k < i <= n :: !Kept(states[i], cfg.journal[e])
  }

  /** From one moment to the next. */
  lemma FateStep(cfg: Config, states: seq<System>, actions: seq<Action>, n: nat, e: nat)
    requires Run(cfg, states, actions) && n + 1 < |states| && e < |cfg.journal| && Fate(cfg, states, actions, n, e)
    ensures Fate(cfg, states, actions, n + 1, e)
  {
    hide Apply, Enabled, Kept, Explained, Sound, Start;
    RunSound(cfg, states, actions, n);
    if Kept(states[n], cfg.journal[e]) {
      KeptStays(cfg, states[n], actions[n], e);
      if !Kept(states[n + 1], cfg.journal[e]) {
        assert Gone(cfg, states, actions, n, n + 1, e);
      }
    } else {
      var k: nat :| k < n && Gone(cfg, states, actions, k, n, e);
      if !Kept(states[n + 1], cfg.journal[e]) {
        assert Gone(cfg, states, actions, k, n + 1, e);
      }
    }
  }

  /** Every journal entry the daemon has moved past by now. */
  lemma {:induction false} PassedIsKept(cfg: Config, states: seq<System>, actions: seq<Action>, n: nat, e: nat)
    requires Run(cfg, states, actions) && n < |states| && e < states[n].next
    ensures e < |cfg.journal| && Fate(cfg, states, actions, n, e)
  {
    hide Apply, Enabled, Kept, Explained, Sound, Start;
    StartNext(states[0]);
    if n > 0 {
      RunSound(cfg, states, actions, n - 1);
      var s, a := states[n - 1], actions[n - 1];
      if e < s.next {
        PassedIsKept(cfg, states, actions, n - 1, e);
        FateStep(cfg, states, actions, n - 1, e);
      } else {
        AdvanceStep(cfg, s, a, e);
        if !Kept(states[n], cfg.journal[e]) {
          assert Gone(cfg, states, actions, n - 1, n, e);
        }
      }
    }
  }

  /** One step after a crash was kept. */
  lemma KeptStays(cfg: Config, s: System, a: Action, e: nat)
    requires Sound(cfg, s) && Enabled(cfg, s, a) && e < |cfg.journal|
    ensures Kept(s, cfg.journal[e]) ==> Kept(Apply(cfg, s, a), cfg.journal[e]) || Explained(cfg, s, a, e)
  {
    hide Apply, Enabled, Kept, Sound;
    if Kept(s, cfg.journal[e]) {
      KeptStep(cfg, s, a, cfg.journal[e]);
      LostExplained(cfg, s, a, e);
    }
  }

  /** Once the daemon has moved past a journal entry, then at every later moment it is recorded on the
      server or lies in the spool, even when a restart has taken the daemon back before it; or it is gone
      because of one step, in which the gate suppressed it, a restart without a saved position skipped
      it, or it was lost, and it has been nowhere since. */
  lemma {:induction false} AtLeastOnce(cfg: Config, states: seq<System>, actions: seq<Action>, m: nat, n: nat, e: nat)
    requires Run(cfg, states, actions) && m <= n < |states| && e < states[m].next
    ensures e < |cfg.journal| && Fate(cfg, states, actions, n, e)
    decreases n
  {
    hide Run, Fate, Steps, Apply, Enabled, Start;
    if m == n {
      PassedIsKept(cfg, states, actions, n, e);
    } else {
      AtLeastOnce(cfg, states, actions, m, n - 1, e);
      FateStep(cfg, states, actions, n - 1, e);
    }
  }

  lemma LostExplained(cfg: Config, s: System, a: Action, e: nat)
    requires e < |cfg.journal|
    ensures Lost(s, a, cfg.journal[e]) ==> Explained(cfg, s, a, e)
  {
  }

  lemma StartNext(s: System)
    requires Start(s)
    ensures s.next == 0
  {
  }

  // ---------------------------------------------------------------- what a restart passes over

  /** A position is in the state file, and no hook is about to write back a file without one. */
  ghost predicate Anchored(s: System) {
    s.saved.Some? && s.hook != Some(None)
  }

  /** The journal is at its end and no position, in the file or on its way there, lies before it. */
  ghost predicate Exhausted(cfg: Config, s: System) {
    && s.next == s.present == |cfg.journal| && s.local.asking.None?
    && (s.saved.Some? ==> s.saved.value == s.next)
    && (s.hook.Some? && s.hook.value.Some? ==> s.hook.value.value == s.next)
  }

  lemma AnchoredStep(cfg: Config, s: System, a: Action, e: nat)
    requires Enabled(cfg, s, a) && Anchored(s)
    ensures Anchored(Apply(cfg, s, a)) && !Skipped(s, a, e)
  {
    hide ClientRuns.Apply, Ingest.Apply;
  }

  lemma ExhaustedStep(cfg: Config, s: System, a: Action, e: nat)
    requires Enabled(cfg, s, a) && Exhausted(cfg, s)
    ensures Exhausted(cfg, Apply(cfg, s, a)) && !Skipped(s, a, e)
  {
    if a.LocalStep? {
      LocalShape(cfg.client, s.local, a.act);
    }
    hide ClientRuns.Apply, Ingest.Apply, Ingest.Enabled, Replied;
  }

  lemma {:induction false} NeverSkipped(cfg: Config, states: seq<System>, actions: seq<Action>, j: nat, e: nat)
    requires Steps(cfg, states, actions) && j < |actions|
    requires Anchored(states[0]) || Exhausted(cfg, states[0])
    ensures Anchored(states[j]) || Exhausted(cfg, states[j])
    ensures !Skipped(states[j], actions[j], e)
  {
    hide Apply, Enabled, Anchored, Exhausted, Skipped;
    if j > 0 {
      NeverSkipped(cfg, states, actions, j - 1, e);
      var s, a := states[j - 1], actions[j - 1];
      if Anchored(s) {
        AnchoredStep(cfg, s, a, e);
      } else {
        ExhaustedStep(cfg, s, a, e);
      }
    }
    if Anchored(states[j]) {
      AnchoredStep(cfg, states[j], actions[j], e);
    } else {
      ExhaustedStep(cfg, states[j], actions[j], e);
    }
  }

  /** A restart with the given memory. */
  function Again(memory: DaemonState.Memory): Action {
    LocalStep(ClientRuns.Restart(memory, None), false)
  }

  /** A restarted daemon is at the position of the file, or at the present without one. */
  lemma Restarts(cfg: Config, s: System, memory: DaemonState.Memory)
    ensures Enabled(cfg, s, Again(memory))
    ensures Apply(cfg, s, Again(memory)) == s.(
      local := s.local.(memory := memory, asking := None, draining := None),
      next := match s.saved case Some(p) => p case None => s.present)
  {
  }

  lemma PathMore(cfg: Config, states: seq<System>, actions: seq<Action>, a: Action)
    requires Steps(cfg, states, actions) && Enabled(cfg, states[|actions|], a)
    ensures Steps(cfg, states + [Apply(cfg, states[|actions|], a)], actions + [a])
  {
    hide Apply, Enabled;
    var longer, more := states + [Apply(cfg, states[|actions|], a)], actions + [a];
    forall i | 0 <= i < |more|
      ensures Enabled(cfg, longer[i], more[i]) && longer[i + 1] == Apply(cfg, longer[i], more[i])
    {
      assert longer[i] == states[i] && (i < |actions| ==> more[i] == actions[i] && longer[i + 1] == states[i + 1]);
    }
  }

  /** Without a saved position the next restart skips, once there is something in the journal to skip. */
  lemma SkipWithout(cfg: Config, states: seq<System>, actions: seq<Action>)
      returns (states': seq<System>, actions': seq<Action>)
    requires Steps(cfg, states, actions)
    requires var s := states[|actions|]; s.saved.None? && s.next <= s.present <= |cfg.journal| && s.next < |cfg.journal|
    ensures Steps(cfg, states', actions') && states <= states' && actions < actions'
    ensures Skipped(states'[|actions'| - 1], actions'[|actions'| - 1], states[|actions|].next)
    ensures actions'[|actions'| - 1] == Again(states[|actions|].local.memory)
  {
    hide Steps, ClientRuns.Apply, Ingest.Apply;
    states', actions' := states, actions;
    assert |states| == |actions| + 1 by { PathLength(cfg, states, actions); }
    var s := states[|actions|];
    if s.next == s.present {
      PathMore(cfg, states, actions, JournalWritten);
      s := s.(present := s.present + 1);
      states', actions' := states + [s], actions + [JournalWritten];
      assert states'[|actions'|] == s;
    }
    var restart := Again(s.local.memory);
    Restarts(cfg, s, s.local.memory);
    PathMore(cfg, states', actions', restart);
    states', actions' := states' + [Apply(cfg, s, restart)], actions' + [restart];
    assert states'[|actions'| - 1] == s;
  }

  lemma PathLength(cfg: Config, states: seq<System>, actions: seq<Action>)
    requires Steps(cfg, states, actions)
    ensures |states| == |actions| + 1
  {
  }

  /** The hook route: a restart to the saved position, the hook's file without one, a restart that skips. */
  lemma SkipByHook(cfg: Config, s: System) returns (states: seq<System>, actions: seq<Action>)
    requires InStep(cfg, s) && s.saved.Some? && s.saved.value < |cfg.journal| && s.hook == Some(None)
    ensures Steps(cfg, states, actions) && states[0] == s && actions != []
    ensures Skipped(states[|actions| - 1], actions[|actions| - 1], s.saved.value)
    ensures actions[0] == actions[|actions| - 1] == Again(s.local.memory)
  {
    var restart := Again(s.local.memory);
    Restarts(cfg, s, s.local.memory);
    var s1 := Apply(cfg, s, restart);
    var s2 := Apply(cfg, s1, HookSave);
    assert Enabled(cfg, s1, HookSave) && s2 == s1.(hook := None, saved := None);
    hide Apply, Enabled;
    states, actions := [s, s1, s2], [restart, HookSave];
    assert Steps(cfg, states, actions);
    states, actions := SkipWithout(cfg, states, actions);
  }

  /** Whether a restart can ever pass over a crash from here on. */
  ghost predicate NeverSkips(cfg: Config, s: System) {
    forall states: seq<System>, actions: seq<Action>, j: nat, e: nat |
      Steps(cfg, states, actions) && states[0] == s && j < |actions| ::
      !Skipped(states[j], actions[j], e)
  }

  /** No continuation skips a crash exactly when a position is in the state file and no hook is about to
      write back a file without one, or the journal has ended behind everything saved. */
  lemma NeverSkipsIff(cfg: Config, s: System)
    requires Sound(cfg, s)
    ensures NeverSkips(cfg, s) <==> Anchored(s) || Exhausted(cfg, s)
  {
    hide Linked, Faithful, DrainAccurate, ClientRuns.Apply, Ingest.Apply, Apply, Enabled, Skipped;
    if Anchored(s) || Exhausted(cfg, s) {
      forall states: seq<System>, actions: seq<Action>, j: nat, e: nat |
        Steps(cfg, states, actions) && states[0] == s && j < |actions|
        ensures !Skipped(states[j], actions[j], e)
      {
        NeverSkipped(cfg, states, actions, j, e);
      }
    } else {
      var states, actions;
      if s.saved.None? {
        assert Steps(cfg, [s], []);
        states, actions := SkipWithout(cfg, [s], []);
      } else {
        states, actions := SkipByHook(cfg, s);
      }
      assert |states| == |actions| + 1;
    }
  }

  const NOTHING := Local(DaemonState.FORGETFUL, None, None, map[], map[], map[], map[], map[])

  /** The first crash after the installation, asked about at once. */
  lemma FirstQuestion(cfg: Config, s: System, moment: Moment)
    requires NumberedJournal(cfg) && s.next == 0 && s.present > 0 && s.present <= |cfg.journal| && cfg.client.limit > 0
    requires s.local == NOTHING
    ensures var a := LocalStep(ClientRuns.Crash(cfg.journal[0], moment), true);
      && Enabled(cfg, s, a)
      && Apply(cfg, s, a) == s.(local := Apply(cfg, s, a).local)
      && Apply(cfg, s, a).local.asking.Some? && Apply(cfg, s, a).local.spool == map[]
  {
    var r := cfg.journal[0];
    assert !Suppresses(cfg.client, NOTHING, r, moment.at);
  }

  /** A run from the installation that loses its first crash: the daemon is killed while it asks about it,
      finds a state file from before the crash, and begins behind it. The crash is nowhere. */
  lemma FirstCrashSkipped(cfg: Config, moment: Moment) returns (states: seq<System>, actions: seq<Action>)
    requires NumberedJournal(cfg) && cfg.journal != [] && cfg.client.limit > 0
    ensures Run(cfg, states, actions)
    ensures actions == [JournalWritten, LocalStep(ClientRuns.Crash(cfg.journal[0], moment), true), Again(DaemonState.FORGETFUL)]
    ensures Skipped(states[2], actions[2], 0) && states[3].next == 1 && !Kept(states[3], cfg.journal[0])
  {
    var s0 := System(Ingest.Init(0), NOTHING, 0, 0, None, None, {});
    var s1 := s0.(present := 1);
    var ask := LocalStep(ClientRuns.Crash(cfg.journal[0], moment), true);
    FirstQuestion(cfg, s1, moment);
    hide ClientRuns.Apply, ClientRuns.Enabled;
    var s2 := Apply(cfg, s1, ask);
    Restarts(cfg, s2, DaemonState.FORGETFUL);
    var s3 := Apply(cfg, s2, Again(DaemonState.FORGETFUL));
    states, actions := [s0, s1, s2, s3], [JournalWritten, ask, Again(DaemonState.FORGETFUL)];
    assert Enabled(cfg, s0, JournalWritten) && s1 == Apply(cfg, s0, JournalWritten);
    assert Start(s0);
    hide Apply, Enabled;
    assert Steps(cfg, states, actions);
  }

  /** And one in which a position was saved: a hook that read the state file before the first save writes
      it back afterwards, and the next restart skips the second crash. */
  lemma HookUndoesSave(cfg: Config, moment: Moment, answer: Answer) returns (states: seq<System>, actions: seq<Action>)
    requires NumberedJournal(cfg) && |cfg.journal| >= 2 && cfg.client.limit > 0
    requires answer.reply.None?
    ensures Run(cfg, states, actions) && |actions| > 4
    ensures states[4].saved == Some(1) && states[4].hook == Some(None)
    ensures Skipped(states[|actions| - 1], actions[|actions| - 1], 1)
  {
    hide Apply, Enabled, Start, Skipped;
    var before, done := SavedOnce(cfg, moment, answer);
    var s4 := before[4];
    Restores(cfg, s4);
    PathMore(cfg, before, done, HookSave);
    var longer := before + [Apply(cfg, s4, HookSave)];
    assert longer[|done + [HookSave]|] == Apply(cfg, s4, HookSave);
    states, actions := SkipWithout(cfg, longer, done + [HookSave]);
    assert states[4] == longer[4] == s4 && states[0] == longer[0] == before[0];
  }

  lemma Restores(cfg: Config, s: System)
    requires s.hook == Some(None)
    ensures Enabled(cfg, s, HookSave) && Apply(cfg, s, HookSave) == s.(hook := None, saved := None)
  {
  }

  /** A first crash handled, and its position saved, while a hook has read the file without one. */
  lemma SavedOnce(cfg: Config, moment: Moment, answer: Answer) returns (states: seq<System>, actions: seq<Action>)
    requires NumberedJournal(cfg) && cfg.journal != [] && cfg.client.limit > 0 && answer.reply.None?
    ensures Steps(cfg, states, actions) && |actions| == 4 && Start(states[0])
    ensures states[4].saved == Some(1) && states[4].hook == Some(None) && states[4].next == states[4].present == 1
  {
    var s0 := System(Ingest.Init(0), NOTHING, 0, 0, None, None, {});
    var s1 := s0.(present := 1);
    var s2 := s1.(hook := Some(None));
    var ask := LocalStep(ClientRuns.Crash(cfg.journal[0], moment), true);
    FirstQuestion(cfg, s2, moment);
    var end := LocalStep(ClientRuns.Answered(answer), true);
    assert Start(s0);
    hide ClientRuns.Apply, ClientRuns.Enabled, Start, Guarded, Advances;
    var s3 := Apply(cfg, s2, ask);
    Ends(cfg, s3, answer);
    assert Enabled(cfg, s0, JournalWritten) && s1 == Apply(cfg, s0, JournalWritten);
    assert Enabled(cfg, s1, HookLoad) && s2 == Apply(cfg, s1, HookLoad);
    hide Apply, Enabled;
    states, actions := [s0, s1, s2, s3, Apply(cfg, s3, end)], [JournalWritten, HookLoad, ask, end];
    assert Steps(cfg, states, actions);
  }

  lemma Ends(cfg: Config, s: System, answer: Answer)
    requires s.local.asking.Some? && answer.reply.None?
    ensures var a := LocalStep(ClientRuns.Answered(answer), true);
      && Enabled(cfg, s, a)
      && Apply(cfg, s, a) == s.(local := Apply(cfg, s, a).local, next := s.next + 1, saved := Some(s.next + 1))
  {
  }

  lemma OneMore(cfg: Ingest.Config, ss: seq<Ingest.Server>, sa: seq<Ingest.Action>, a: Ingest.Action)
    requires Ingest.Run(cfg, ss, sa) && Ingest.Enabled(cfg, ss[|sa|], a)
    ensures Ingest.Run(cfg, ss + [Ingest.Apply(cfg, ss[|sa|], a)], sa + [a])
  {
    hide Ingest.Apply, Ingest.Enabled, Ingest.Init;
    var longer, more := ss + [Ingest.Apply(cfg, ss[|sa|], a)], sa + [a];
    assert longer[0] == ss[0];
    forall i | 0 <= i < |more|
      ensures Ingest.Enabled(cfg, longer[i], more[i]) && longer[i + 1] == Ingest.Apply(cfg, longer[i], more[i])
    {
      assert longer[i] == ss[i] && (i < |sa| ==> more[i] == sa[i] && longer[i + 1] == ss[i + 1]);
    }
  }

  /** The server in such a run is a server in a run of its own: every theorem about it applies. */
  lemma {:induction false} ServerReachable(cfg: Config, states: seq<System>, actions: seq<Action>, n: nat)
    requires Run(cfg, states, actions) && n < |states|
    ensures Ingest.Reachable(cfg.server, states[n].server)
  {
    hide Ingest.Apply, Ingest.Enabled, ClientRuns.Apply, ClientRuns.Enabled, Ingest.Init;
    if n == 0 {
      assert Ingest.Run(cfg.server, [states[0].server], []);
    } else {
      ServerReachable(cfg, states, actions, n - 1);
      hide Ingest.Run;
      var ss, sa :| Ingest.Run(cfg.server, ss, sa) && ss[|sa|] == states[n - 1].server;
      var a := actions[n - 1];
      if a.ServerStep? {
        OneMore(cfg.server, ss, sa, a.step);
        assert (ss + [states[n].server])[|sa + [a.step]|] == states[n].server;
      }
    }
  }
}
