/** What is said about a crash: the event that goes to the server, how often the crash is said to have
    happened, how many crashes of a program get through in an hour, and the name a report lies under
    (crates/blankres-daemon/src/reporter.rs, crates/blankres-collect/src/stage1.rs, crates/blankres-report/src/report.rs). */
module CrashReports {
  import opened Base
  import opened Text
  import opened Numerals
  import opened Events
  import opened DaemonState
  import opened Client
  import opened ClientRuns

  // ---------------------------------------------------------------- the event

  /** The event about a crash that is taken up says what the journal, the clock and the file system said: a
      core is available exactly when the journal names one and its size could be read. */
  lemma EventSays(cfg: Client.Config, l: Local, r: Record, t: Moment)
    requires l.asking.None? && Gated(cfg, l, r, t).asking.Some?
    ensures var asking := Gated(cfg, l, r, t).asking.value;
      var e := asking.event;
      && asking.record == r && asking.core == (if t.attached then r.core else None)
      && e.entry == Some(r.entry) && e.signature == r.signature && e.timestamp == r.timestamp
      && e.executable == (if r.executable.Some? then r.executable.value else "unknown")
      && (e.coreAvailable <==> r.core.Some? && t.size.Some?)
      && (e.coreAvailable ==> e.coreSize == t.size) && (!e.coreAvailable ==> e.coreSize.None?)
  {
    var noted := Noted(Charged(l.memory, Executable(r), t.at), r.signature);
    EventOfSays(r, SignatureOf(noted, r.signature).count, t.size);
    hide Suppresses, SignatureOf, Charged, Noted, EventOf, Executable;
  }

  lemma EventOfSays(r: Record, count: nat, size: Option<nat>)
    ensures var e := EventOf(r, count, size);
      && e.entry == Some(r.entry) && e.signature == r.signature && e.timestamp == r.timestamp
      && e.executable == (if r.executable.Some? then r.executable.value else "unknown")
      && (e.coreAvailable <==> r.core.Some? && size.Some?)
      && (e.coreAvailable ==> e.coreSize == size) && (!e.coreAvailable ==> e.coreSize.None?)
  {
  }

  /** A crash is taken up exactly when the hour is not full and neither the daemon nor the user has refused
      its signature. */
  lemma TakenUpIff(cfg: Client.Config, l: Local, r: Record, t: Moment)
    requires l.asking.None?
    ensures Gated(cfg, l, r, t).asking.Some? <==>
      && Seen(l.memory, if r.executable.Some? then r.executable.value else "unknown", t.at) < cfg.limit
      && !(r.signature in l.memory.signatures && l.memory.signatures[r.signature].declined)
      && !Refused(l, if r.uid.Some? then r.uid.value else 0, r.signature)
  {
    GateOpens(cfg, l, r, t);
    hide Gated, Seen;
  }

  lemma GateOpens(cfg: Client.Config, l: Local, r: Record, t: Moment)
    requires l.asking.None?
    ensures Gated(cfg, l, r, t).asking.Some? <==> !Suppresses(cfg, l, r, t.at)
  {
    hide Suppresses, Charged, Noted, EventOf, SignatureOf;
  }

  predicate Refused(l: Local, uid: nat, signature: string) {
    uid in l.declined && signature in l.declined[uid]
  }

  // ---------------------------------------------------------------- how often

  /** The daemon takes up the crash. */
  ghost predicate TakesUp(states: seq<Local>, actions: seq<Action>, k: nat)
    requires |states| == |actions| + 1 && k < |actions|
  {
    actions[k].Crash? && states[k + 1].asking.Some?
  }

  /** How many crashes of the signature the daemon took up from `i` up to `j`. */
  ghost function TakenUp(states: seq<Local>, actions: seq<Action>, signature: string, i: nat, j: nat): nat
    requires |states| == |actions| + 1 && i <= j <= |actions|
    decreases j
  {
    if i == j then 0
    else
      TakenUp(states, actions, signature, i, j - 1)
      + if TakesUp(states, actions, j - 1) && actions[j - 1].record.signature == signature then 1 else 0
  }

  /** The daemon keeps running from `i` up to `j`. */
  ghost predicate NoRestart(actions: seq<Action>, i: nat, j: nat)
    requires i <= j <= |actions|
  {
    forall k | i <= k < j :: !actions[k].Restart?
  }

  /** The count of a signature as the memory has it. */
  ghost function CountIn(m: Memory, signature: string): nat {
    if signature in m.signatures then m.signatures[signature].count else 0
  }

  /** Only crashes and restarts change what the daemon remembers. */
  lemma MemoryStep(cfg: Client.Config, l: Local, a: Action)
    requires ClientRuns.Enabled(cfg, l, a) && !a.Restart?
    ensures var m, l' := l.memory, ClientRuns.Apply(cfg, l, a);
      if !a.Crash? then l'.memory == m
      else if l'.asking.Some? then l'.memory == Noted(Charged(m, Executable(a.record), a.moment.at), a.record.signature)
      else l'.memory == Charged(m, Executable(a.record), a.moment.at)
  {
    hide Suppresses, EventOf, Charged, Noted, SendResult, Spool.Written, Spool.Readables, Spool.Drained, ClientRuns.Removed;
    if a.Answered? {
      ConcludedLeaves(cfg, l, a.answer);
      hide Concluded;
    }
  }

  lemma CountStep(cfg: Client.Config, l: Local, a: Action, signature: string)
    requires ClientRuns.Enabled(cfg, l, a) && !a.Restart?
    ensures var l' := ClientRuns.Apply(cfg, l, a);
      CountIn(l'.memory, signature)
      == CountIn(l.memory, signature) + if a.Crash? && l'.asking.Some? && a.record.signature == signature then 1 else 0
  {
    MemoryStep(cfg, l, a);
    hide ClientRuns.Apply, ClientRuns.Enabled, Retain;
  }

  lemma {:induction false} CountSince(cfg: Client.Config, states: seq<Local>, actions: seq<Action>, signature: string, i: nat, j: nat)
    requires ClientRuns.Run(cfg, states, actions) && i <= j <= |actions| && NoRestart(actions, i, j)
    ensures CountIn(states[j].memory, signature) == CountIn(states[i].memory, signature) + TakenUp(states, actions, signature, i, j)
    decreases j
  {
    hide ClientRuns.Apply, ClientRuns.Enabled, CountIn;
    if i < j {
      CountSince(cfg, states, actions, signature, i, j - 1);
      CountStep(cfg, states[j - 1], actions[j - 1], signature);
    }
  }

  /** The count in an event is what the daemon knew when it loaded its memory, and one for every crash of the
      signature that it has taken up since, this one included. */
  lemma CrashCountIs(cfg: Client.Config, states: seq<Local>, actions: seq<Action>, i: nat, j: nat)
    requires ClientRuns.Run(cfg, states, actions) && i <= j < |actions| && NoRestart(actions, i, j) && TakesUp(states, actions, j)
    ensures var signature := actions[j].record.signature;
      states[j + 1].asking.value.event.crashCount
      == CountIn(states[i].memory, signature) + TakenUp(states, actions, signature, i, j + 1)
  {
    var signature := actions[j].record.signature;
    CountSince(cfg, states, actions, signature, i, j);
    assert ClientRuns.Enabled(cfg, states[j], actions[j]);
    CountInEvent(cfg, states[j], actions[j].record, actions[j].moment);
    hide ClientRuns.Apply, ClientRuns.Enabled, CountIn, Gated;
    assert states[j + 1] == ClientRuns.Apply(cfg, states[j], actions[j]);
    assert states[j + 1] == Gated(cfg, states[j], actions[j].record, actions[j].moment) by {
      Crashes(cfg, states[j], actions[j]);
    }
  }

  lemma Crashes(cfg: Client.Config, l: Local, a: Action)
    requires ClientRuns.Enabled(cfg, l, a) && a.Crash?
    ensures l.asking.None? && ClientRuns.Apply(cfg, l, a) == Gated(cfg, l, a.record, a.moment)
  {
    hide Gated;
  }

  lemma CountInEvent(cfg: Client.Config, l: Local, r: Record, t: Moment)
    requires l.asking.None? && Gated(cfg, l, r, t).asking.Some?
    ensures Gated(cfg, l, r, t).asking.value.event.crashCount == CountIn(l.memory, r.signature) + 1
  {
    hide Suppresses, Retain, EventOf;
    var noted := Noted(Charged(l.memory, Executable(r), t.at), r.signature);
    CountOfEvent(r, SignatureOf(noted, r.signature).count, t.size);
    hide Charged;
    assert Charged(l.memory, Executable(r), t.at).signatures == l.memory.signatures by {
      ChargedSignatures(l.memory, Executable(r), t.at);
    }
  }

  lemma ChargedSignatures(m: Memory, executable: string, at: nat)
    ensures Charged(m, executable, at).signatures == m.signatures
  {
  }

  lemma CountOfEvent(r: Record, count: nat, size: Option<nat>)
    ensures EventOf(r, count, size).crashCount == count
  {
  }

  // ---------------------------------------------------------------- how many in an hour

  /** What the rate limiter has been charged with. */
  ghost function ChargesOf(actions: seq<Action>): seq<Charge> {
    if actions == [] then []
    else
      var a := actions[|actions| - 1];
      ChargesOf(actions[..|actions| - 1]) + if a.Crash? then [Charge(Executable(a.record), a.moment.at)] else []
  }

  lemma ChargesGrow(actions: seq<Action>, n: nat)
    requires n < |actions|
    ensures ChargesOf(actions[..n + 1])
      == ChargesOf(actions[..n])
         + if actions[n].Crash? then [Charge(Executable(actions[n].record), actions[n].moment.at)] else []
  {
    assert actions[..n + 1][..n] == actions[..n];
  }

  lemma ChargedRecent(m: Memory, w: Memory, executable: string, at: nat)
    requires m.recent == w.recent
    ensures Charged(m, executable, at).recent == Charged(w, executable, at).recent
    ensures Seen(m, executable, at) == Seen(w, executable, at)
  {
  }

  lemma NotedRecent(m: Memory, signature: string)
    ensures Noted(m, signature).recent == m.recent
  {
  }

  /** Without a restart the limiter remembers the charges of the run. */
  lemma {:induction false} RecentIs(cfg: Client.Config, states: seq<Local>, actions: seq<Action>, n: nat)
    requires ClientRuns.Run(cfg, states, actions) && n <= |actions| && NoRestart(actions, 0, n) && states[0].memory.recent == map[]
    ensures states[n].memory.recent == ChargeAll(FORGETFUL, ChargesOf(actions[..n])).recent
  {
    hide ClientRuns.Apply, ClientRuns.Enabled, Charged, Noted;
    if n > 0 {
      RecentIs(cfg, states, actions, n - 1);
      ChargesGrow(actions, n - 1);
      var s, a := states[n - 1], actions[n - 1];
      MemoryStep(cfg, s, a);
      hide ChargesOf;
      if a.Crash? {
        var before := ChargesOf(actions[..n - 1]);
        var c := Charge(Executable(a.record), a.moment.at);
        ChargedRecent(s.memory, ChargeAll(FORGETFUL, before), c.executable, c.at);
        NotedRecent(Charged(s.memory, c.executable, c.at), a.record.signature);
        assert (before + [c])[..|before|] == before;
      } else {
        assert ChargesOf(actions[..n - 1]) + [] == ChargesOf(actions[..n - 1]);
      }
    } else {
      assert actions[..0] == [];
    }
  }

  /** How many crashes of a program the daemon took up in the hour that starts at `start`. */
  ghost function TakenUpIn(states: seq<Local>, actions: seq<Action>, executable: string, start: nat, n: nat): nat
    requires |states| == |actions| + 1 && n <= |actions|
  {
    if n == 0 then 0
    else
      TakenUpIn(states, actions, executable, start, n - 1)
      + if TakesUp(states, actions, n - 1) && Executable(actions[n - 1].record) == executable
           && start <= actions[n - 1].moment.at < start + 3600 then 1 else 0
  }

  lemma ThroughOfMore(history: seq<Charge>, c: Charge, executable: string, limit: nat, start: nat)
    ensures var longer := history + [c];
      Through(longer, executable, limit, start, |longer|)
      == Through(history, executable, limit, start, |history|)
         + if c.executable == executable && start <= c.at < start + 3600 && Seen(ChargeAll(FORGETFUL, history), c.executable, c.at) < limit
           then 1 else 0
  {
    ThroughOfFirst(history, [c], executable, limit, start, |history|);
    var longer := history + [c];
    assert longer[..|history|] == history;
    hide Seen, ChargeAll;
  }

  lemma {:induction false} ThroughOfFirst(history: seq<Charge>, more: seq<Charge>, executable: string, limit: nat, start: nat, n: nat)
    requires n <= |history|
    ensures Through(history + more, executable, limit, start, n) == Through(history, executable, limit, start, n)
  {
    hide Seen, ChargeAll;
    if n > 0 {
      ThroughOfFirst(history, more, executable, limit, start, n - 1);
      assert (history + more)[..n - 1] == history[..n - 1];
    }
  }

  /** What the daemon takes up has passed the limiter. */
  lemma {:induction false} TakenUpThrough(cfg: Client.Config, states: seq<Local>, actions: seq<Action>, executable: string, start: nat, n: nat)
    requires ClientRuns.Run(cfg, states, actions) && n <= |actions| && NoRestart(actions, 0, n) && states[0].memory.recent == map[]
    ensures var history := ChargesOf(actions[..n]);
      TakenUpIn(states, actions, executable, start, n) <= Through(history, executable, cfg.limit, start, |history|)
  {
    hide ClientRuns.Apply, ClientRuns.Enabled;
    if n > 0 {
      TakenUpThrough(cfg, states, actions, executable, start, n - 1);
      ChargesGrow(actions, n - 1);
      var s, a := states[n - 1], actions[n - 1];
      var before := ChargesOf(actions[..n - 1]);
      hide ChargesOf, Through;
      if a.Crash? {
        var c := Charge(Executable(a.record), a.moment.at);
        ThroughOfMore(before, c, executable, cfg.limit, start);
        RecentIs(cfg, states, actions, n - 1);
        ChargedRecent(s.memory, ChargeAll(FORGETFUL, before), c.executable, c.at);
        Crashes(cfg, s, a);
        TakenUpIff(cfg, s, a.record, a.moment);
        hide Seen, ChargeAll, Gated;
      } else {
        assert before + [] == before;
      }
    }
  }

  /** While the daemon runs, it asks about at most `limit` crashes of one program in any hour in which they are
      counted right, whatever else happens on the machine. */
  lemma AtMostLimitTakenUp(cfg: Client.Config, states: seq<Local>, actions: seq<Action>, executable: string, start: nat, n: nat)
    requires ClientRuns.Run(cfg, states, actions) && n <= |actions| && NoRestart(actions, 0, n) && states[0].memory.recent == map[]
    requires var history := ChargesOf(actions[..n]);
      forall i | 0 <= i < |history| && history[i].executable == executable && start <= history[i].at < start + 3600 ::
        Counted(history, i)
    ensures TakenUpIn(states, actions, executable, start, n) <= cfg.limit
  {
    TakenUpThrough(cfg, states, actions, executable, start, n);
    var history := ChargesOf(actions[..n]);
    hide ClientRuns.Run, ChargesOf, Counted, Through;
    AtMostLimit(history, executable, cfg.limit, start, |history|);
  }

  // ---------------------------------------------------------------- the name of a report

  /** Slashes in front, and then none. */
  lemma {:induction false} TrimSlashesShape(s: string) returns (slashes: string)
    ensures s == slashes + TrimSlashes(s) && (forall i :: 0 <= i < |slashes| ==> slashes[i] == '/')
    ensures TrimSlashes(s) == [] || TrimSlashes(s)[0] != '/'
  {
    if s != [] && s[0] == '/' {
      slashes := TrimSlashesShape(s[1..]);
      slashes := [s[0]] + slashes;
      assert s == [s[0]] + s[1..];
    } else {
      slashes := [];
    }
  }

  /** The same program, as far as a file name can tell: the same path after the slashes in front, but for
      slashes and underscores. */
  ghost predicate SameProgram(a: string, b: string) {
    exists s, t, x, y :: a == s + x && b == t + y && Slashes(s) && Slashes(t) && Flattened(x, y)
  }

  predicate Slashes(s: string) {
    forall i :: 0 <= i < |s| ==> s[i] == '/'
  }

  predicate Flattened(x: string, y: string) {
    && (x == [] || x[0] != '/') && (y == [] || y[0] != '/') && |x| == |y|
    && forall i :: 0 <= i < |x| ==> x[i] == y[i] || (x[i] in {'/', '_'} && y[i] in {'/', '_'})
  }

  lemma {:induction false} TrimSlashesIs(s: string, x: string)
    requires Slashes(s) && (x == [] || x[0] != '/')
    ensures TrimSlashes(s + x) == x
  {
    if s == [] {
      assert s + x == x;
    } else {
      TrimSlashesIs(s[1..], x);
      assert (s + x)[1..] == s[1..] + x;
    }
  }

  lemma SameProgramIff(a: string, b: string)
    ensures Underscored(TrimSlashes(a)) == Underscored(TrimSlashes(b)) <==> SameProgram(a, b)
  {
    var s := TrimSlashesShape(a);
    var t := TrimSlashesShape(b);
    var x, y := TrimSlashes(a), TrimSlashes(b);
    if Underscored(x) == Underscored(y) {
      forall i | 0 <= i < |x|
        ensures x[i] == y[i] || (x[i] in {'/', '_'} && y[i] in {'/', '_'})
      {
        assert Underscored(x)[i] == Underscored(y)[i];
      }
      assert Flattened(x, y) && Slashes(s) && Slashes(t);
    }
    if s', t', x', y' :| a == s' + x' && b == t' + y' && Slashes(s') && Slashes(t') && Flattened(x', y') {
      TrimSlashesIs(s', x');
      TrimSlashesIs(t', y');
      assert Underscored(x') == Underscored(y');
    }
  }

  /** The first twelve characters of a hash. */
  function Twelve(hash: string): string {
    if |hash| < 12 then hash else hash[..12]
  }

  lemma NameIs(p: PendingUpload)
    ensures FileName(p)
      == Underscored(TrimSlashes(p.event.executable))
         + (['.'] + (Dec(UidOf(p.uid)) + (['.'] + (Twelve(p.event.signature) + ".report"))))
  {
    hide Print;
  }

  lemma DecFree(n: nat)
    ensures Free(Dec(n), '.')
  {
    PrintRoundTrip(n, 10);
    assert DigitValue('.', 10).None?;
    var s := Dec(n);
    hide Print, DigitValue;
    assert forall i :: 0 <= i < |s| ==> DigitValue(s[i], 10).Some?;
  }

  /** A text before a dot and a text without one, read off both put together. */
  lemma LastDot(a: string, b: string, x: string, y: string)
    requires Free(b, '.') && Free(y, '.') && a + (['.'] + b) == x + (['.'] + y)
    ensures a == x && b == y
  {
    SplitLastAt(a, b, '.');
    SplitLastAt(x, y, '.');
    assert a + ['.'] + b == a + (['.'] + b) && x + ['.'] + y == x + (['.'] + y);
  }

  /** Two reports lie under one name exactly when they are of one user, of the same program, and of signatures
      that agree in their first twelve characters: different bugs of one program do not share a name. */
  lemma SameNameIff(p: PendingUpload, q: PendingUpload)
    requires Free(p.event.signature, '.') && Free(q.event.signature, '.')
    ensures PathOf(p) == PathOf(q) <==>
      && UidOf(p.uid) == UidOf(q.uid)
      && SameProgram(p.event.executable, q.event.executable)
      && Twelve(p.event.signature) == Twelve(q.event.signature)
  {
    NameIs(p);
    NameIs(q);
    SameProgramIff(p.event.executable, q.event.executable);
    DecFree(UidOf(p.uid));
    DecFree(UidOf(q.uid));
    hide FileName, Dec, Underscored, TrimSlashes, SameProgram;
    var x, y := Underscored(TrimSlashes(p.event.executable)), Underscored(TrimSlashes(q.event.executable));
    var m, n := Dec(UidOf(p.uid)), Dec(UidOf(q.uid));
    var s, t := Twelve(p.event.signature), Twelve(q.event.signature);
    if FileName(p) == FileName(q) {
      NameParts(x, m, s, y, n, t);
    }
  }

  lemma NameParts(x: string, m: string, s: string, y: string, n: string, t: string)
    requires Free(m, '.') && Free(n, '.') && Free(s, '.') && Free(t, '.')
    requires x + (['.'] + (m + (['.'] + (s + ".report")))) == y + (['.'] + (n + (['.'] + (t + ".report"))))
    ensures x == y && m == n && s == t
  {
    CutSuffix(x, m, s);
    CutSuffix(y, n, t);
    var a, b := x + (['.'] + (m + (['.'] + s))), y + (['.'] + (n + (['.'] + t)));
    assert a + ".report" == b + ".report";
    assert a == (a + ".report")[..|a|] && b == (b + ".report")[..|b|] && |a| == |b|;
    var c, d := x + (['.'] + m), y + (['.'] + n);
    assert a == c + (['.'] + s) && b == d + (['.'] + t);
    LastDot(c, s, d, t);
    LastDot(x, m, y, n);
  }

  lemma CutSuffix(x: string, m: string, s: string)
    ensures x + (['.'] + (m + (['.'] + (s + ".report")))) == (x + (['.'] + (m + (['.'] + s)))) + ".report"
  {
  }
}
