/** What holds over whole runs of the machine that crashes, with the daemon, the user's front ends, a
    spool drain, restarts and faults interleaving freely. */
module ClientRuns {
  import opened Base
  import opened Events
  import opened DaemonState
  import opened Client
  import Spool

  /** A push that the end of the daemon cut short, or that was its last act. */
  datatype Cut = Cut(event: CrashEvent, write: Overwrite)

  datatype Action =
    | CoreWritten(core: string, bytes: Bytes)
    | Crash(record: Record, moment: Moment)
    | Answered(answer: Answer)
    | OopsSpooled(event: CrashEvent, spooled: Overwrite)
    | DrainBegin(list: seq<(string, CrashEvent)>)
    | DrainEnd(removed: nat)
    | Restart(memory: Memory, cut: Option<Cut>)
    | SpoolDecay(name: string)
    | SessionSend(entry: PendingEntry, transfer: Transfer)
    | SessionDiscard(entry: PendingEntry)
    | DeclineBegin(session: nat, uid: nat, entry: PendingEntry)
    | DeclineEnd(session: nat, saved: bool)
    | SessionGone(session: nat)

  /** Which steps can happen. The daemon does one thing at a time: it drains the spool, or has a
      question with the server, or is free. */
  ghost predicate Enabled(cfg: Config, l: Local, a: Action) {
    match a
    case Crash(_, _) => l.asking.None? && l.draining.None?
    case Answered(_) => l.asking.Some?
    case OopsSpooled(_, _) => l.asking.None? && l.draining.None?
    case DrainBegin(list) => l.asking.None? && l.draining.None? && Spool.Drained(list, l.spool)
    case DrainEnd(removed) => l.draining.Some? && removed <= |l.draining.value|
    case DeclineBegin(session, _, _) => session !in l.deciding
    case DeclineEnd(session, _) => session in l.deciding
    case SessionGone(session) => session in l.deciding
    case _ => true
  }

  /** The spool once the first `n` files of a drained list are removed. */
  ghost function Removed(files: Spool.Files, list: seq<(string, CrashEvent)>, n: nat): Spool.Files
    requires n <= |list|
  {
    files - (set i | 0 <= i < n :: list[i].0)
  }

  /** A restarted daemon knows what the state file held; a question or drain under way is forgotten. */
  ghost function Apply(cfg: Config, l: Local, a: Action): Local
    requires Enabled(cfg, l, a)
  {
    match a
    case CoreWritten(core, bytes) => l.(cores := l.cores[core := bytes])
    case Crash(record, moment) => Gated(cfg, l, record, moment)
    case Answered(answer) => Concluded(cfg, l, answer)
    case OopsSpooled(event, spooled) => l.(spool := Spool.Written(l.spool, event, spooled))
    case DrainBegin(list) => l.(draining := Some(list), spool := Spool.Readables(l.spool))
    case DrainEnd(removed) => l.(draining := None, spool := Removed(l.spool, l.draining.value, removed))
    case Restart(memory, cut) =>
      var files := match cut case Some(c) => Spool.Written(l.spool, c.event, c.write) case None => l.spool;
      l.(memory := memory, asking := None, draining := None, spool := files)
    case SpoolDecay(name) => l.(spool := l.spool[name := Spool.Corrupt])
    case SessionSend(entry, transfer) => Sent(l, entry, transfer)
    case SessionDiscard(entry) => Discarded(l, entry)
    case DeclineBegin(session, uid, entry) => DeclineBegun(l, session, uid, entry)
    case DeclineEnd(session, saved) => DeclineEnded(l, session, saved)
    case SessionGone(session) => l.(deciding := l.deciding - {session})
  }

  /** A run from any state. */
  ghost predicate Run(cfg: Config, states: seq<Local>, actions: seq<Action>) {
    && |states| == |actions| + 1
    && forall i :: 0 <= i < |actions| ==> Enabled(cfg, states[i], actions[i]) && states[i + 1] == Apply(cfg, states[i], actions[i])
  }

  // ---------------------------------------------------------------- cores

  /** The reasons for which a core dump may be deleted. */
  ghost predicate Gives(cfg: Config, l: Local, a: Action, core: string)
    requires Enabled(cfg, l, a)
  {
    match a
    case Answered(answer) =>
      && answer.reply.Some? && !answer.reply.value.IsActionable(answer.now)
      && cfg.deleteDeclinedCores && answer.removed && l.asking.value.record.core == Some(core)
    case SessionSend(entry, transfer) =>
      entry.pending.core == Some(core) && (SendResult(entry, transfer) == Ok(()) || SendResult(entry, transfer) == Err(NotWanted))
    case SessionDiscard(entry) => entry.pending.core == Some(core)
    case DeclineEnd(session, saved) => saved && l.deciding[session].entry.pending.core == Some(core)
    case _ => false
  }

  lemma CoreStepUser(cfg: Config, l: Local, a: Action, core: string)
    requires Enabled(cfg, l, a) && core in l.cores && (a.SessionSend? || a.SessionDiscard? || a.DeclineEnd?)
    ensures core !in Apply(cfg, l, a).cores <==> Gives(cfg, l, a, core)
  {
  }

  lemma CoreStepDaemon(cfg: Config, l: Local, a: Action, core: string)
    requires Enabled(cfg, l, a) && core in l.cores && !a.SessionSend? && !a.SessionDiscard? && !a.DeclineEnd?
    ensures core !in Apply(cfg, l, a).cores <==> Gives(cfg, l, a, core)
  {
    hide FileName, Spool.Written, Spool.Readables, Removed;
    if a.Crash? {
      GatedLeaves(cfg, l, a.record, a.moment);
      hide Gated;
    } else if a.Answered? {
      hide Gated, PathOf;
    } else {
      hide Gated, Concluded;
    }
  }

  /** A step deletes a core exactly when it has one of those reasons to. */
  lemma CoreStep(cfg: Config, l: Local, a: Action, core: string)
    requires Enabled(cfg, l, a) && core in l.cores
    ensures core !in Apply(cfg, l, a).cores <==> Gives(cfg, l, a, core)
  {
    hide Apply, Gives, Enabled;
    if a.SessionSend? || a.SessionDiscard? || a.DeclineEnd? {
      CoreStepUser(cfg, l, a, core);
    } else {
      CoreStepDaemon(cfg, l, a, core);
    }
  }

  /** A core that disappears was deleted by one of those reasons. */
  lemma {:induction false} CoreDeletedOnlyBy(cfg: Config, states: seq<Local>, actions: seq<Action>, i: nat, j: nat, core: string)
    requires Run(cfg, states, actions) && i <= j < |states|
    requires core in states[i].cores && core !in states[j].cores
    ensures exists k :: i <= k < j && core in states[k].cores && Gives(cfg, states[k], actions[k], core)
    decreases j
  {
    hide Apply, Gives;
    assert Enabled(cfg, states[j - 1], actions[j - 1]);
    if core in states[j - 1].cores {
      CoreStep(cfg, states[j - 1], actions[j - 1], core);
    } else {
      CoreDeletedOnlyBy(cfg, states, actions, i, j - 1, core);
    }
  }

  // ---------------------------------------------------------------- never for this problem

  /** The file names the signature, and so does every list about to replace the file. */
  ghost predicate Sticks(l: Local, uid: nat, signature: string) {
    && signature in DeclinedOf(l, uid)
    && forall s :: s in l.deciding && l.deciding[s].uid == uid ==> signature in l.deciding[s].list
  }

  lemma SticksStep(cfg: Config, l: Local, a: Action, uid: nat, signature: string)
    requires Enabled(cfg, l, a) && Sticks(l, uid, signature)
    ensures Sticks(Apply(cfg, l, a), uid, signature)
  {
    DecidingStep(cfg, l, a);
    hide Apply, Enabled;
  }

  lemma {:induction false} SticksForever(cfg: Config, states: seq<Local>, actions: seq<Action>, i: nat, j: nat, uid: nat, signature: string)
    requires Run(cfg, states, actions) && i <= j < |states| && Sticks(states[i], uid, signature)
    ensures Sticks(states[j], uid, signature)
    decreases j
  {
    hide Apply, Sticks;
    if i < j {
      SticksForever(cfg, states, actions, i, j - 1, uid, signature);
      SticksStep(cfg, states[j - 1], actions[j - 1], uid, signature);
    }
  }

  /** A crash that leaves nothing behind but its charge: no question to the server, no count, no spool
      file, no pending report, no core deleted. */
  ghost predicate Silent(l: Local, l': Local) {
    && l' == l.(memory := l'.memory)
    && l'.memory.signatures == l.memory.signatures
    && l'.asking.None?
  }

  /** A crash of that user and signature. */
  predicate Raises(a: Action, uid: nat, signature: string) {
    a.Crash? && UidOf(a.record.uid) == uid && a.record.signature == signature
  }

  lemma SticksSilences(cfg: Config, l: Local, a: Action, uid: nat, signature: string)
    requires Enabled(cfg, l, a) && Sticks(l, uid, signature)
    requires Raises(a, uid, signature)
    ensures Silent(l, Apply(cfg, l, a))
  {
  }

  /** The save that ends a decline makes it stick, unless another front end of the user is between its
      own load and save with a list that lacks the signature. */
  lemma DeclineSticks(cfg: Config, l: Local, a: Action)
    requires Enabled(cfg, l, a) && a.DeclineEnd? && a.saved
    requires var d := l.deciding[a.session];
      && Signature(d.entry) in d.list
      && forall s :: s in l.deciding && s != a.session && l.deciding[s].uid == d.uid ==> Signature(d.entry) in l.deciding[s].list
    ensures Sticks(Apply(cfg, l, a), l.deciding[a.session].uid, Signature(l.deciding[a.session].entry))
  {
  }

  /** Lists in the hands of front ends hold the signature they are about to decline. */
  ghost predicate ListsExtended(l: Local) {
    forall s :: s in l.deciding ==> Signature(l.deciding[s].entry) in l.deciding[s].list
  }

  lemma ListsExtendedStep(cfg: Config, l: Local, a: Action)
    requires Enabled(cfg, l, a) && ListsExtended(l)
    ensures ListsExtended(Apply(cfg, l, a))
  {
    DecidingStep(cfg, l, a);
    hide Apply, Enabled;
  }

  /** A list enters the hands of a front end extended by what it declines, and leaves them unchanged. */
  lemma DecidingStep(cfg: Config, l: Local, a: Action)
    requires Enabled(cfg, l, a)
    ensures var l' := Apply(cfg, l, a);
      match a
      case DeclineBegin(session, uid, entry) =>
        && session !in l.deciding
        && l'.deciding == l.deciding[session := Deciding(uid, entry, WithDeclined(DeclinedOf(l, uid), Signature(entry)))]
        && l'.declined == l.declined
      case DeclineEnd(session, saved) =>
        && session in l.deciding && l'.deciding == l.deciding - {session}
        && l'.declined == (if saved then l.declined[l.deciding[session].uid := l.deciding[session].list] else l.declined)
      case SessionGone(session) => l'.deciding == l.deciding - {session} && l'.declined == l.declined
      case _ => l'.deciding == l.deciding && l'.declined == l.declined
  {
    if !a.DeclineBegin? && !a.DeclineEnd? && !a.SessionGone? {
      DecidingUntouched(cfg, l, a);
      hide Apply, Enabled;
    }
  }

  lemma DecidingUntouched(cfg: Config, l: Local, a: Action)
    requires Enabled(cfg, l, a) && !a.DeclineBegin? && !a.DeclineEnd? && !a.SessionGone?
    ensures Apply(cfg, l, a).deciding == l.deciding && Apply(cfg, l, a).declined == l.declined
  {
    hide Gated, Concluded, SendResult, Spool.Drained, Spool.Written, Spool.Readables, Removed;
    if a.Crash? {
      GatedLeaves(cfg, l, a.record, a.moment);
    } else if a.Answered? {
      ConcludedLeaves(cfg, l, a.answer);
    }
  }

  /** The gate touches the daemon's memory and takes up a question, nothing else. */
  lemma GatedLeaves(cfg: Client.Config, l: Local, r: Record, t: Moment)
    ensures var l' := Gated(cfg, l, r, t); l' == l.(memory := l'.memory, asking := l'.asking)
  {
    hide Suppresses, EventOf, SignatureOf;
  }

  /** The end of a question touches neither the memory nor what users have decided. */
  lemma ConcludedLeaves(cfg: Client.Config, l: Local, a: Answer)
    requires l.asking.Some?
    ensures var l' := Concluded(cfg, l, a);
      l' == l.(asking := None, spool := l'.spool, pending := l'.pending, cores := l'.cores)
  {
    hide PathOf, Spool.Written;
  }

  predicate NoRepeats(list: seq<string>) {
    forall i, j :: 0 <= i < j < |list| ==> list[i] != list[j]
  }

  /** No list names a signature twice, neither those on file nor those in the hands of front ends. */
  ghost predicate ListsPlain(l: Local) {
    && (forall uid :: uid in l.declined ==> NoRepeats(l.declined[uid]))
    && (forall s :: s in l.deciding ==> NoRepeats(l.deciding[s].list))
  }

  lemma DeclinedOnce(list: seq<string>, signature: string)
    requires NoRepeats(list)
    ensures NoRepeats(WithDeclined(list, signature))
  {
  }

  lemma ListsPlainStep(cfg: Config, l: Local, a: Action)
    requires Enabled(cfg, l, a) && ListsPlain(l)
    ensures ListsPlain(Apply(cfg, l, a))
  {
    DecidingStep(cfg, l, a);
    if a.DeclineBegin? {
      assert NoRepeats(DeclinedOf(l, a.uid));
      DeclinedOnce(DeclinedOf(l, a.uid), Signature(a.entry));
    }
    hide Apply, Enabled, NoRepeats, WithDeclined;
  }

  lemma {:induction false} ListsExtendedRun(cfg: Config, states: seq<Local>, actions: seq<Action>, n: nat)
    requires Run(cfg, states, actions) && n < |states| && ListsExtended(states[0])
    ensures ListsExtended(states[n])
  {
    hide Apply, ListsExtended;
    if n > 0 {
      ListsExtendedRun(cfg, states, actions, n - 1);
      ListsExtendedStep(cfg, states[n - 1], actions[n - 1]);
    }
  }

  /** After a successful decline with no other front end of that user at work, every later crash of that
      user and signature is silent, through restarts, rate limits and whatever else happens. */
  lemma DeclinedForever(cfg: Config, states: seq<Local>, actions: seq<Action>, i: nat, j: nat)
    requires Run(cfg, states, actions) && i < j < |actions|
    requires ListsExtended(states[0])
    requires actions[i].DeclineEnd? && actions[i].saved && actions[i].session in states[i].deciding
    requires var d := states[i].deciding[actions[i].session];
      && Raises(actions[j], d.uid, Signature(d.entry))
      && forall s :: s in states[i].deciding && s != actions[i].session ==> states[i].deciding[s].uid != d.uid
    ensures Silent(states[j], states[j + 1])
  {
    var d := states[i].deciding[actions[i].session];
    ListsExtendedRun(cfg, states, actions, i);
    hide Apply, Sticks, Silent;
    DeclineSticks(cfg, states[i], actions[i]);
    SticksForever(cfg, states, actions, i + 1, j, d.uid, Signature(d.entry));
    SticksSilences(cfg, states[j], actions[j], d.uid, Signature(d.entry));
  }

  /** No run from here ever takes up such a crash. */
  ghost predicate NeverAsked(cfg: Config, l: Local, uid: nat, signature: string) {
    forall states: seq<Local>, actions: seq<Action>, j: nat |
      Run(cfg, states, actions) && states[0] == l && j < |actions| && Raises(actions[j], uid, signature) ::
      Silent(states[j], states[j + 1])
  }

  /** Some front end's save, or nothing at all, leaves a file without the signature. */
  lemma Unstuck(cfg: Config, l: Local, uid: nat, signature: string) returns (a: Action)
    requires !Sticks(l, uid, signature)
    ensures Enabled(cfg, l, a) && signature !in DeclinedOf(Apply(cfg, l, a), uid) && Apply(cfg, l, a).memory == l.memory
  {
    if signature !in DeclinedOf(l, uid) {
      a := CoreWritten("", []);
    } else {
      var s :| s in l.deciding && l.deciding[s].uid == uid && signature !in l.deciding[s].list;
      a := DeclineEnd(s, true);
    }
  }

  function CrashOf(uid: nat, signature: string, at: nat): Action {
    Crash(Record(0, Some(uid), None, signature, at, None), Moment(at, None, false))
  }

  /** The memory of a daemon that no longer holds a refusal of its own. Only the front ends record refusals,
      and they do so elsewhere: it is the memory as it was unless somebody has set the flag by hand. */
  function Willing(m: Memory, signature: string): Memory {
    if SignatureOf(m, signature).declined then FORGETFUL else m
  }

  lemma RaisedAgain(cfg: Config, l: Local, uid: nat, signature: string)
    requires cfg.limit > 0 && signature !in DeclinedOf(l, uid)
    ensures var m := Willing(l.memory, signature);
      var l' := Apply(cfg, l, Restart(m, None));
      var crash := CrashOf(uid, signature, HourAfter(WindowOf(m, "unknown")));
      Enabled(cfg, l', crash) && !Silent(l', Apply(cfg, l', crash))
  {
    var m := Willing(l.memory, signature);
    var at := HourAfter(WindowOf(m, "unknown"));
    var l' := Apply(cfg, l, Restart(m, None));
    assert l' == l.(memory := m, asking := None, draining := None);
    EmptyAfterAnHour(WindowOf(m, "unknown"), at);
    hide HourAfter, Retain, FileName;
    assert !Suppresses(cfg, l', CrashOf(uid, signature, at).record, at);
  }

  /** A run that breaks a decline: the other front end saves its list, the daemon restarts with its memory
      as it was, and an hour later the problem is raised again. */
  lemma LostDecline(cfg: Config, l: Local, uid: nat, signature: string) returns (states: seq<Local>, actions: seq<Action>)
    requires cfg.limit > 0 && !Sticks(l, uid, signature)
    ensures Run(cfg, states, actions) && states[0] == l && |actions| == 3
    ensures Raises(actions[2], uid, signature) && !Silent(states[2], states[3])
    ensures actions[1] == Restart(Willing(l.memory, signature), None)
  {
    var save := Unstuck(cfg, l, uid, signature);
    var m := Willing(l.memory, signature);
    var restart, crash := Restart(m, None), CrashOf(uid, signature, HourAfter(WindowOf(m, "unknown")));
    assert forall l :: Enabled(cfg, l, restart);
    var l1 := Apply(cfg, l, save);
    RaisedAgain(cfg, l1, uid, signature);
    hide Apply, Enabled, Silent, Sticks, HourAfter;
    var l2 := Apply(cfg, l1, restart);
    states, actions := [l, l1, l2, Apply(cfg, l2, crash)], [save, restart, crash];
    assert forall i :: 0 <= i < 3 ==> Enabled(cfg, states[i], actions[i]) && states[i + 1] == Apply(cfg, states[i], actions[i]);
  }

  /** The exact condition under which a decline holds for good. */
  lemma DeclineHoldsIff(cfg: Config, l: Local, uid: nat, signature: string)
    requires cfg.limit > 0
    ensures NeverAsked(cfg, l, uid, signature) <==> Sticks(l, uid, signature)
  {
    if Sticks(l, uid, signature) {
      forall states: seq<Local>, actions: seq<Action>, j: nat |
        Run(cfg, states, actions) && states[0] == l && j < |actions| && Raises(actions[j], uid, signature)
        ensures Silent(states[j], states[j + 1])
      {
        assert Enabled(cfg, states[j], actions[j]);
        SticksForever(cfg, states, actions, 0, j, uid, signature);
        SticksSilences(cfg, states[j], actions[j], uid, signature);
      }
    } else {
      var states, actions := LostDecline(cfg, l, uid, signature);
      assert Raises(actions[2], uid, signature);
    }
  }

  // ---------------------------------------------------------------- pending reports

  /** A report lies under its own name, and unless it still awaits a directive it holds one with a token. */
  ghost predicate PendingSound(l: Local) {
    forall path :: path in l.pending ==> PathOf(l.pending[path]) == path && Sendable(l.pending[path])
  }

  predicate Sendable(p: PendingUpload) {
    p.awaiting || (p.directive.needPayload && p.directive.uploadToken.Some?)
  }

  lemma PendingSoundUser(cfg: Config, l: Local, a: Action)
    requires Enabled(cfg, l, a) && PendingSound(l) && (a.SessionSend? || a.SessionDiscard? || a.DeclineEnd?)
    ensures PendingSound(Apply(cfg, l, a))
  {
    hide PathOf, SendResult;
  }

  lemma PendingSoundAnswered(cfg: Config, l: Local, a: Action)
    requires Enabled(cfg, l, a) && PendingSound(l) && a.Answered?
    ensures PendingSound(Apply(cfg, l, a))
  {
    PendingAnswered(cfg, l, a.answer);
    hide PathOf, Concluded;
  }

  /** The report an answer leaves, if any. */
  lemma PendingAnswered(cfg: Client.Config, l: Local, a: Answer)
    requires l.asking.Some?
    ensures var l' := Concluded(cfg, l, a);
      l'.pending == l.pending
      || exists p :: l'.pending == l.pending[PathOf(p) := p] && Sendable(p)
  {
    hide PathOf, Spool.Written;
    var Asking(record, event, core) := l.asking.value;
    if a.reply.Some? && a.reply.value.IsActionable(a.now) && a.written {
      var p := PendingUpload(event, record.uid, core, a.reply.value, false);
      assert Concluded(cfg, l, a).pending == l.pending[PathOf(p) := p];
    } else if a.reply.None? && a.written {
      var p := PendingUpload(event, record.uid, core, UNCONFIRMED, true);
      assert Concluded(cfg, l, a).pending == l.pending[PathOf(p) := p];
    }
  }

  lemma PendingUntouched(cfg: Config, l: Local, a: Action)
    requires Enabled(cfg, l, a) && !a.SessionSend? && !a.SessionDiscard? && !a.DeclineEnd? && !a.Answered?
    ensures Apply(cfg, l, a).pending == l.pending
  {
    hide PathOf, Suppresses, EventOf, Spool.Written, Spool.Readables, Removed;
  }

  lemma PendingSoundStep(cfg: Config, l: Local, a: Action)
    requires Enabled(cfg, l, a) && PendingSound(l)
    ensures PendingSound(Apply(cfg, l, a))
  {
    hide PathOf, Apply, Enabled;
    if a.SessionSend? || a.SessionDiscard? || a.DeclineEnd? {
      PendingSoundUser(cfg, l, a);
    } else if a.Answered? {
      PendingSoundAnswered(cfg, l, a);
    } else {
      PendingUntouched(cfg, l, a);
    }
  }

  /** So sending a report from the store never fails for want of a token, and every other failed send
      leaves everything in place. */
  lemma SendFailures(l: Local, path: Path, t: Transfer)
    requires PendingSound(l) && path in l.pending
    ensures var e := PendingEntry(path, l.pending[path]);
      && SendResult(e, t) != Err(NoUploadToken)
      && (SendResult(e, t).Err? && SendResult(e, t) != Err(NotWanted) ==> Sent(l, e, t) == l)
      && (SendResult(e, t) == Err(Expired) <==> !l.pending[path].awaiting && !l.pending[path].directive.IsActionable(t.now))
      && (SendResult(e, t) == Err(NotWanted) ==> l.pending[path].awaiting)
  {
    hide PathOf;
  }

  /** In every state of every run. */
  lemma {:induction false} PendingSoundRun(cfg: Config, states: seq<Local>, actions: seq<Action>, n: nat)
    requires Run(cfg, states, actions) && n < |states| && PendingSound(states[0])
    ensures PendingSound(states[n])
  {
    hide Apply, PendingSound;
    if n > 0 {
      PendingSoundRun(cfg, states, actions, n - 1);
      PendingSoundStep(cfg, states[n - 1], actions[n - 1]);
    }
  }

  /** So in no run does sending a report that lies in the store fail for want of a token. */
  lemma TokenNeverMissing(cfg: Config, states: seq<Local>, actions: seq<Action>, n: nat, path: Path, t: Transfer)
    requires Run(cfg, states, actions) && n < |states| && PendingSound(states[0]) && path in states[n].pending
    ensures SendResult(PendingEntry(path, states[n].pending[path]), t) != Err(NoUploadToken)
  {
    PendingSoundRun(cfg, states, actions, n);
    SendFailures(states[n], path, t);
    hide PendingSound, Apply, Enabled;
  }
}
