/** The machine that crashes. The daemon decides about one crash at a time (crates/blankres-daemon/src/reporter.rs);
    the user's front ends decide about pending reports (crates/blankres-session/src/lib.rs, store.rs).
    They share the crash directory and the core dumps. Every step is one function on what is on the
    machine, and one method of `Machine` that performs it. */
module Client {
  import opened Base
  import opened Events
  import opened DaemonState
  import opened Numerals
  import Spool

  datatype Config = Config(limit: nat, deleteDeclinedCores: bool)

  /** A coredump record of the journal. `signature` is the hash stage 1 computes from it, `core` the
      path the journal names. */
  datatype Record = Record(
    entry: nat, uid: Option<nat>, executable: Option<string>, signature: string, timestamp: nat, core: Option<string>)

  function Executable(r: Record): string {
    match r.executable case Some(exe) => exe case None => "unknown"
  }

  function UidOf(uid: Option<nat>): nat {
    match uid case Some(u) => u case None => 0
  }

  // ---------------------------------------------------------------- pending reports

  /** A stage-2 payload that waits for the user. `core` is the path of its core dump attachment. */
  datatype PendingUpload = PendingUpload(
    event: CrashEvent, uid: Option<nat>, core: Option<string>, directive: Directive, awaiting: bool)
  {
    predicate IsActionable(now: int) {
      awaiting || directive.IsActionable(now)
    }
  }

  function TrimSlashes(s: string): string {
    if s != [] && s[0] == '/' then TrimSlashes(s[1..]) else s
  }

  function Underscored(s: string): string {
    seq(|s|, i requires 0 <= i < |s| => if s[i] == '/' then '_' else s[i])
  }

  function FileName(p: PendingUpload): string {
    Underscored(TrimSlashes(p.event.executable)) + "." + Dec(UidOf(p.uid)) + "."
    + p.event.signature[..Min(12, |p.event.signature|)] + ".report"
  }

  /** A file of the crash directory: the user it belongs to and its name. */
  type Path = (nat, string)

  function PathOf(p: PendingUpload): Path {
    (UidOf(p.uid), FileName(p))
  }

  /** A pending report as a front end loaded it. */
  datatype PendingEntry = PendingEntry(path: Path, pending: PendingUpload)

  /** What takes the place of an answer when none came: a payload that is wanted, with nothing to send it by. */
  const UNCONFIRMED := Directive(None, true, None, None, None)

  // ---------------------------------------------------------------- what is on the machine

  /** A crash that passed the gate: the event is with the server, the payload is being prepared. */
  datatype Asking = Asking(record: Record, event: CrashEvent, core: Option<string>)

  /** A front end between loading the list of declined signatures and saving it. */
  datatype Deciding = Deciding(uid: nat, entry: PendingEntry, list: seq<string>)

  datatype Local = Local(
    memory: Memory,
    asking: Option<Asking>,
    draining: Option<seq<(string, CrashEvent)>>,
    spool: Spool.Files,
    pending: map<Path, PendingUpload>,
    cores: map<string, Bytes>,
    declined: map<nat, seq<string>>,
    deciding: map<nat, Deciding>)

  function DeclinedOf(l: Local, uid: nat): seq<string> {
    if uid in l.declined then l.declined[uid] else []
  }

  function WithDeclined(list: seq<string>, signature: string): seq<string> {
    if signature in list then list else list + [signature]
  }

  /** What the clock and the file system say while one crash is taken up. */
  datatype Moment = Moment(at: nat, size: Option<nat>, attached: bool)

  /** How the question to the server ended, and what the file system let the daemon do. */
  datatype Answer = Answer(reply: Option<Directive>, now: int, spooled: Overwrite, written: bool, removed: bool)

  predicate OverLimit(cfg: Config, m: Memory, r: Record, at: nat) {
    Seen(m, Executable(r), at) >= cfg.limit
  }

  predicate IsDeclined(l: Local, r: Record) {
    SignatureOf(l.memory, r.signature).declined || r.signature in DeclinedOf(l, UidOf(r.uid))
  }

  predicate Suppresses(cfg: Config, l: Local, r: Record, at: nat) {
    OverLimit(cfg, l.memory, r, at) || IsDeclined(l, r)
  }

  function EventOf(r: Record, count: nat, size: Option<nat>): CrashEvent {
    var stat := if r.core.Some? then size else None;
    CrashEvent(Some(r.entry), r.signature, r.timestamp, Executable(r), count, stat.Some?, stat)
  }

  /** The crash is charged; unless it is suppressed it is counted and the server is asked. */
  function Gated(cfg: Config, l: Local, r: Record, t: Moment): Local {
    var charged := Charged(l.memory, Executable(r), t.at);
    if Suppresses(cfg, l, r, t.at) then l.(memory := charged)
    else
      var noted := Noted(charged, r.signature);
      var event := EventOf(r, SignatureOf(noted, r.signature).count, t.size);
      l.(memory := noted, asking := Some(Asking(r, event, if t.attached then r.core else None)))
  }

  function WithPending(l: Local, p: PendingUpload, written: bool): Local {
    if written then l.(pending := l.pending[PathOf(p) := p]) else l
  }

  function WithoutCore(l: Local, core: Option<string>): Local {
    if core.Some? then l.(cores := l.cores - {core.value}) else l
  }

  /** The end of the question: drop the core, or keep the payload for the user. */
  ghost function Concluded(cfg: Config, l: Local, a: Answer): Local
    requires l.asking.Some?
  {
    var Asking(record, event, core) := l.asking.value;
    var done := l.(asking := None);
    match a.reply
    case Some(directive) =>
      if !directive.IsActionable(a.now) then
        if cfg.deleteDeclinedCores && a.removed then WithoutCore(done, record.core) else done
      else WithPending(done, PendingUpload(event, record.uid, core, directive, false), a.written)
    case None =>
      WithPending(done.(spool := Spool.Written(l.spool, event, a.spooled)), PendingUpload(event, record.uid, core, UNCONFIRMED, true), a.written)
  }

  function Discarded(l: Local, e: PendingEntry): Local {
    WithoutCore(l, e.pending.core).(pending := l.pending - {e.path})
  }

  /** How a send meets the server: the reply to the event (when it has to be asked for), then whether
      the upload succeeds. */
  datatype Transfer = Transfer(now: int, reply: Option<Directive>, later: int, uploaded: bool)

  datatype SendError = Expired | NotWanted | Unreachable | NoUploadToken | UploadFailed

  /** The directive a send goes by. */
  function DirectiveFor(e: PendingEntry, t: Transfer): Result<Directive, SendError> {
    if !e.pending.IsActionable(t.now) then Err(Expired)
    else if !e.pending.awaiting then Ok(e.pending.directive)
    else
      match t.reply
      case None => Err(Unreachable)
      case Some(d) => if d.IsActionable(t.later) then Ok(d) else Err(NotWanted)
  }

  function SendResult(e: PendingEntry, t: Transfer): Result<(), SendError> {
    match DirectiveFor(e, t)
    case Err(error) => Err(error)
    case Ok(d) =>
      if d.uploadToken.None? then Err(NoUploadToken)
      else if t.uploaded then Ok(()) else Err(UploadFailed)
  }

  function Sent(l: Local, e: PendingEntry, t: Transfer): Local {
    if SendResult(e, t) == Ok(()) || SendResult(e, t) == Err(NotWanted) then Discarded(l, e) else l
  }

  function Signature(e: PendingEntry): string {
    e.pending.event.signature
  }

  /** "Never for this problem", first half: the list is read and extended in memory. */
  function DeclineBegun(l: Local, session: nat, uid: nat, e: PendingEntry): Local {
    l.(deciding := l.deciding[session := Deciding(uid, e, WithDeclined(DeclinedOf(l, uid), Signature(e)))])
  }

  /** Second half: the list replaces the file, and only then the report is discarded. */
  function DeclineEnded(l: Local, session: nat, saved: bool): Local
    requires session in l.deciding
  {
    var d := l.deciding[session];
    var ended := l.(deciding := l.deciding - {session});
    if saved then Discarded(ended.(declined := ended.declined[d.uid := d.list]), d.entry) else ended
  }

  // ---------------------------------------------------------------- the steps in place

  datatype Outcome =
    | RateLimited(seen: nat)
    | Declined
    | ReportedCoreDropped(signature: string)
    | AwaitingConsent(signature: string, path: Path)
    | SpooledAwaitingConsent(signature: string, path: Path)
    | WriteError

  class Machine {
    const state: State
    const spool: Spool.Spool
    var asking: Option<Asking>
    var draining: Option<seq<(string, CrashEvent)>>
    var pending: map<Path, PendingUpload>
    var cores: map<string, Bytes>
    var declined: map<nat, seq<string>>
    var deciding: map<nat, Deciding>

    ghost function Contents(): Local
      reads this, state, spool
    {
      Local(state.Contents(), asking, draining, spool.files, pending, cores, declined, deciding)
    }

    constructor (state: State, spool: Spool.Spool)
      ensures this.state == state && this.spool == spool
      ensures Contents() == Local(state.Contents(), None, None, spool.files, map[], map[], map[], map[])
    {
      this.state, this.spool := state, spool;
      asking, draining, pending, cores, declined, deciding := None, None, map[], map[], map[], map[];
    }

    /** The first half of `handle_coredump`, up to the question to the server. */
    method Gate(cfg: Config, r: Record, t: Moment) returns (suppressed: Option<Outcome>)
      requires asking.None?
      modifies this, state
      ensures Contents() == Gated(cfg, old(Contents()), r, t)
      ensures suppressed.Some? <==> Suppresses(cfg, old(Contents()), r, t.at)
      ensures suppressed.None? <==> asking.Some?
      ensures suppressed.None? <==>
        && Seen(old(Contents()).memory, Executable(r), t.at) < cfg.limit
        && !(r.signature in old(state.signatures) && old(state.signatures)[r.signature].declined)
        && !(UidOf(r.uid) in old(declined) && r.signature in old(declined)[UidOf(r.uid)])
      ensures suppressed.None? ==> asking.value.record == r && asking.value.core == if t.attached then r.core else None
      ensures suppressed.None? ==> var e := asking.value.event;
        && (e.coreAvailable <==> r.core.Some? && t.size.Some?)
        && e.coreSize == (if r.core.Some? then t.size else None)
        && e.crashCount == 1 + (if r.signature in old(state.signatures) then old(state.signatures)[r.signature].count else 0)
      ensures suppressed.Some? ==>
        suppressed.value == if OverLimit(cfg, old(Contents()).memory, r, t.at)
          then RateLimited(Seen(old(Contents()).memory, Executable(r), t.at)) else Declined
    {
      hide Retain;
      var seen := state.ChargeRateLimit(Executable(r), t.at);
      if seen >= cfg.limit {
        return Some(RateLimited(seen));
      }
      var known := state.IsDeclined(r.signature);
      var uid := UidOf(r.uid);
      if known || (uid in declined && r.signature in declined[uid]) {
        return Some(Declined);
      }
      var count := state.NoteSignature(r.signature);
      asking := Some(Asking(r, EventOf(r, count, t.size), if t.attached then r.core else None));
      return None;
    }

    method DropCore(cfg: Config, core: Option<string>, removed: bool)
      modifies this`cores
      ensures cores == if cfg.deleteDeclinedCores && core.Some? && removed then old(cores) - {core.value} else old(cores)
    {
      if !cfg.deleteDeclinedCores {
        return;
      }
      if core.Some? && removed {
        cores := cores - {core.value};
      }
    }

    method WritePending(p: PendingUpload, written: bool) returns (path: Option<Path>)
      modifies this`pending
      ensures pending == if written then old(pending)[PathOf(p) := p] else old(pending)
      ensures path == if written then Some(PathOf(p)) else None
    {
      if !written {
        return None;
      }
      pending := pending[PathOf(p) := p];
      return Some(PathOf(p));
    }

    /** The second half of `handle_coredump`. */
    method Conclude(cfg: Config, a: Answer) returns (outcome: Outcome)
      requires asking.Some?
      modifies this, spool
      ensures Contents() == Concluded(cfg, old(Contents()), a)
      ensures outcome.ReportedCoreDropped? <==> a.reply.Some? && !a.reply.value.IsActionable(a.now)
      ensures outcome.AwaitingConsent? <==> a.reply.Some? && a.reply.value.IsActionable(a.now) && a.written
      ensures outcome.SpooledAwaitingConsent? <==> a.reply.None? && a.written
      ensures outcome.AwaitingConsent? || outcome.SpooledAwaitingConsent? ==> outcome.path in pending
      ensures !outcome.RateLimited? && !outcome.Declined?
    {
      hide PathOf;
      var Asking(record, event, core) := asking.value;
      asking := None;
      match a.reply {
        case Some(directive) =>
          if !directive.IsActionable(a.now) {
            DropCore(cfg, record.core, a.removed);
            return ReportedCoreDropped(record.signature);
          }
          var path := WritePending(PendingUpload(event, record.uid, core, directive, false), a.written);
          return if path.Some? then AwaitingConsent(record.signature, path.value) else WriteError;
        case None =>
          var _ := spool.Push(event, a.spooled);
          var path := WritePending(PendingUpload(event, record.uid, core, UNCONFIRMED, true), a.written);
          return if path.Some? then SpooledAwaitingConsent(record.signature, path.value) else WriteError;
      }
    }

    /** One crash, when nothing else happens meanwhile. */
    method HandleCoredump(cfg: Config, r: Record, t: Moment, a: Answer) returns (outcome: Outcome)
      requires asking.None?
      modifies this, state, spool
      ensures Contents() ==
        if Suppresses(cfg, old(Contents()), r, t.at) then Gated(cfg, old(Contents()), r, t)
        else Concluded(cfg, Gated(cfg, old(Contents()), r, t), a)
      ensures outcome.RateLimited? || outcome.Declined? <==> Suppresses(cfg, old(Contents()), r, t.at)
      ensures asking.None?
    {
      hide Suppresses;
      var suppressed := Gate(cfg, r, t);
      if suppressed.Some? {
        return suppressed.value;
      }
      outcome := Conclude(cfg, a);
    }

    /** The core first, then the report. */
    method Discard(e: PendingEntry)
      modifies this`cores, this`pending
      ensures Contents() == Discarded(old(Contents()), e)
    {
      if e.pending.core.Some? {
        cores := cores - {e.pending.core.value};
      }
      pending := pending - {e.path};
    }

    method Send(e: PendingEntry, t: Transfer) returns (r: Result<(), SendError>)
      modifies this`cores, this`pending
      ensures Contents() == Sent(old(Contents()), e, t)
      ensures r == SendResult(e, t)
      ensures r.Err? && r.error != NotWanted ==> Contents() == old(Contents())
      ensures r.Ok? || r == Err(NotWanted) ==> e.path !in pending && (e.pending.core.Some? ==> e.pending.core.value !in cores)
    {
      if !e.pending.IsActionable(t.now) {
        return Err(Expired);
      }
      var directive := e.pending.directive;
      if e.pending.awaiting {
        if t.reply.None? {
          return Err(Unreachable);
        }
        if !t.reply.value.IsActionable(t.later) {
          Discard(e);
          return Err(NotWanted);
        }
        directive := t.reply.value;
      }
      if directive.uploadToken.None? {
        return Err(NoUploadToken);
      }
      if !t.uploaded {
        return Err(UploadFailed);
      }
      Discard(e);
      return Ok(());
    }

    method BeginDecline(session: nat, uid: nat, e: PendingEntry)
      modifies this`deciding
      ensures Contents() == DeclineBegun(old(Contents()), session, uid, e)
    {
      var list := if uid in declined then declined[uid] else [];
      if Signature(e) !in list {
        list := list + [Signature(e)];
      }
      deciding := deciding[session := Deciding(uid, e, list)];
    }

    method EndDecline(session: nat, saved: bool) returns (ok: bool)
      requires session in deciding
      modifies this
      ensures Contents() == DeclineEnded(old(Contents()), session, saved)
      ensures ok == saved
    {
      var d := deciding[session];
      deciding := deciding - {session};
      if !saved {
        return false;
      }
      declined := declined[d.uid := d.list];
      Discard(d.entry);
      return true;
    }

    /** `decline_forever`, when no other front end is at work. */
    method DeclineForever(session: nat, uid: nat, e: PendingEntry, saved: bool) returns (ok: bool)
      modifies this
      ensures ok == saved
      ensures Contents() == DeclineEnded(DeclineBegun(old(Contents()), session, uid, e), session, saved)
      ensures ok ==> Signature(e) in DeclinedOf(Contents(), uid)
      ensures ok ==> forall s :: s in DeclinedOf(old(Contents()), uid) ==> s in DeclinedOf(Contents(), uid)
    {
      BeginDecline(session, uid, e);
      ok := EndDecline(session, saved);
    }
  }
}
