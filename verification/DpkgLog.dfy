/** Failed package operations: `parse_dpkg_log` and `newest_timestamp` in
    crates/blankres-hooks/src/lib.rs, and the cursor of crates/blankres-hooks/src/main.rs. */
module DpkgLog {
  import opened Base
  import opened Text
  import opened Ordering
  import Counting

  /** One failed package operation. */
  datatype Failure = Failure(loggedAt: string, package: string, state: string)

  const FAILURE_STATES := ["half-configured", "half-installed", "triggers-awaited-failed"]

  /** The failure a log line records, if any. */
  function FailureOf(line: string): Option<Failure> {
    var words := Words(line);
    if |words| < 5 || words[2] != "status" || words[3] !in FAILURE_STATES then None
    else Some(Failure(words[0] + " " + words[1], Before(words[4], ':'), words[3]))
  }

  /** Strictly newer than the cursor, as strings compare. */
  predicate Newer(f: Failure, after: Option<string>) {
    after.Some? ==> StrLt(after.value, f.loggedAt)
  }

  /** Every failure of the log newer than the cursor, in log order. */
  function Failures(lines: seq<string>, after: Option<string>): seq<Failure> {
    if lines == [] then []
    else
      Failures(lines[..|lines| - 1], after)
      + (match FailureOf(lines[|lines| - 1])
         case Some(f) => if Newer(f, after) then [f] else []
         case None => [])
  }

  predicate SameProblem(a: Failure, b: Failure) {
    a.package == b.package && a.state == b.state
  }

  /** Drop each failure that repeats the one kept before it. */
  function Deduped(failures: seq<Failure>): (r: seq<Failure>)
    ensures r == [] <==> failures == []
  {
    if failures == [] then []
    else
      var kept := Deduped(failures[..|failures| - 1]);
      var f := failures[|failures| - 1];
      if kept != [] && SameProblem(f, kept[|kept| - 1]) then kept else kept + [f]
  }

  function Parsed(log: string, after: Option<string>): seq<Failure> {
    Deduped(Failures(Lines(log), after))
  }

  method ParseDpkgLog(log: string, after: Option<string>) returns (failures: seq<Failure>)
    ensures failures == Parsed(log, after)
  {
    hide FailureOf, Newer, StrLt, Lines;
    var lines := Lines(log);
    failures := [];
    for i := 0 to |lines|
      invariant failures == Failures(lines[..i], after)
    {
      assert lines[..i + 1][..i] == lines[..i];
      var f := FailureOf(lines[i]);
      if f.None? || !Newer(f.value, after) {
        continue;
      }
      failures := failures + [f.value];
    }
    assert lines[..|lines|] == lines;
    var kept: seq<Failure> := [];
    for i := 0 to |failures|
      invariant kept == Deduped(failures[..i])
    {
      assert failures[..i + 1][..i] == failures[..i];
      if kept == [] || !SameProblem(failures[i], kept[|kept| - 1]) {
        kept := kept + [failures[i]];
      }
    }
    assert failures[..|failures|] == failures;
    failures := kept;
  }

  /** The greatest timestamp among the failures. */
  function Newest(failures: seq<Failure>): Option<string> {
    if failures == [] then None
    else
      var last := failures[|failures| - 1].loggedAt;
      match Newest(failures[..|failures| - 1])
      case None => Some(last)
      case Some(t) => Some(if StrLt(t, last) then last else t)
  }

  lemma {:induction false} NewestIsGreatest(failures: seq<Failure>)
    requires failures != []
    ensures Newest(failures).Some?
    ensures exists i :: 0 <= i < |failures| && failures[i].loggedAt == Newest(failures).value
    ensures forall i :: 0 <= i < |failures| ==> !StrLt(Newest(failures).value, failures[i].loggedAt)
  {
    StrTotal();
    hide StrLt;
    var n := |failures| - 1;
    if n > 0 {
      NewestIsGreatest(failures[..n]);
      var i :| 0 <= i < n && failures[..n][i].loggedAt == Newest(failures[..n]).value;
      assert failures[i].loggedAt == Newest(failures[..n]).value;
      assert forall j :: 0 <= j < n ==> failures[j] == failures[..n][j];
    }
  }

  // ---------------------------------------------------------------- what one run reports

  /** The failure comes from some line of the log. */
  ghost predicate Logged(lines: seq<string>, f: Failure) {
    exists i :: 0 <= i < |lines| && FailureOf(lines[i]) == Some(f)
  }

  lemma {:induction false} FailuresAre(lines: seq<string>, after: Option<string>)
    ensures forall f :: f in Failures(lines, after) <==> Logged(lines, f) && Newer(f, after)
  {
    hide FailureOf, Newer;
    if lines != [] {
      var n := |lines| - 1;
      FailuresAre(lines[..n], after);
      forall f
        ensures Logged(lines, f) <==> Logged(lines[..n], f) || FailureOf(lines[n]) == Some(f)
      {
        if Logged(lines[..n], f) {
          var i :| 0 <= i < n && FailureOf(lines[..n][i]) == Some(f);
          assert FailureOf(lines[i]) == Some(f);
        }
        if Logged(lines, f) {
          var i :| 0 <= i < |lines| && FailureOf(lines[i]) == Some(f);
          assert i == n || FailureOf(lines[..n][i]) == Some(f);
        }
      }
    }
  }

  /** Removing repeats invents nothing. */
  lemma {:induction false} DedupedFrom(failures: seq<Failure>)
    ensures forall f :: f in Deduped(failures) ==> f in failures
  {
    if failures != [] {
      DedupedFrom(failures[..|failures| - 1]);
    }
  }

  /** The last failure kept is of the same problem as the last one there was. */
  lemma {:induction false} DedupedLast(failures: seq<Failure>)
    requires failures != []
    ensures SameProblem(Deduped(failures)[|Deduped(failures)| - 1], failures[|failures| - 1])
  {
    if |failures| > 1 {
      DedupedLast(failures[..|failures| - 1]);
    }
  }

  /** Of one problem in a row, the first failure is kept. */
  lemma {:induction false} DedupedRow(failures: seq<Failure>)
    requires failures != [] && forall i :: 0 <= i < |failures| ==> SameProblem(failures[i], failures[0])
    ensures Deduped(failures) == [failures[0]]
  {
    var n := |failures| - 1;
    if n > 0 {
      DedupedRow(failures[..n]);
    } else {
      assert failures[..0] == [] && Deduped([]) == [];
    }
  }

  lemma DedupedMore(init: seq<Failure>, f: Failure)
    ensures init == [] ==> Deduped(init + [f]) == [f]
    ensures init != [] && !SameProblem(f, init[|init| - 1]) ==> Deduped(init + [f]) == Deduped(init) + [f]
    ensures init != [] && SameProblem(f, init[|init| - 1]) ==> Deduped(init + [f]) == Deduped(init)
  {
    assert (init + [f])[..|init|] == init;
    if init != [] {
      DedupedLast(init);
    } else {
      assert Deduped([]) == [] && [] + [f] == [f];
    }
  }

  /** Where the problem changes, what comes before and what comes after are kept as if each stood alone: only
      repeats in a row are dropped. */
  lemma {:induction false} DedupedApart(a: seq<Failure>, b: seq<Failure>)
    requires a != [] && b != [] && !SameProblem(a[|a| - 1], b[0])
    ensures Deduped(a + b) == Deduped(a) + Deduped(b)
  {
    hide Deduped;
    var n := |b| - 1;
    var init, last := b[..n], b[n];
    assert b == init + [last] && a + b == (a + init) + [last];
    DedupedMore(init, last);
    DedupedMore(a + init, last);
    if n == 0 {
      assert a + init == a;
    } else {
      DedupedApart(a, init);
      assert (a + init)[|a + init| - 1] == init[n - 1];
      assert Deduped(a) + (Deduped(init) + [last]) == (Deduped(a) + Deduped(init)) + [last];
    }
  }

  /** The states that are failures. */
  lemma FailureStatesAre(state: string)
    ensures state in FAILURE_STATES <==>
      state == "half-configured" || state == "half-installed" || state == "triggers-awaited-failed"
  {
    assert FAILURE_STATES[0] == "half-configured" && FAILURE_STATES[1] == "half-installed"
        && FAILURE_STATES[2] == "triggers-awaited-failed";
  }

  /** Every problem of the log is still reported by the run that would have reported it. */
  lemma {:induction false} DedupedCovers(failures: seq<Failure>, f: Failure)
    requires f in failures
    ensures exists k :: k in Deduped(failures) && SameProblem(f, k)
  {
    var n := |failures| - 1;
    var kept := Deduped(failures[..n]);
    assert failures == failures[..n] + [failures[n]];
    if f in failures[..n] {
      DedupedCovers(failures[..n], f);
      var k :| k in kept && SameProblem(f, k);
      assert k in Deduped(failures);
    } else {
      var k := if kept != [] && SameProblem(f, kept[|kept| - 1]) then kept[|kept| - 1] else f;
      assert k in Deduped(failures) && SameProblem(f, k);
    }
  }

  /** A run reports the problem of every failure newer than its cursor. */
  lemma EveryProblemReported(log: string, cursor: Option<string>, f: Failure)
    requires Logged(Lines(log), f) && Newer(f, cursor)
    ensures exists k :: k in Parsed(log, cursor) && SameProblem(f, k)
  {
    FailuresAre(Lines(log), cursor);
    DedupedCovers(Failures(Lines(log), cursor), f);
  }

  // ---------------------------------------------------------------- the cursor over runs

  /** The cursor after a run. It advances when something was reported and both the sending and the
      writing succeeded. The state file is overwritten in place, and one that was torn reads as none. */
  function NextCursor(log: string, cursor: Option<string>, sent: bool, write: Overwrite): Option<string> {
    var failures := Parsed(log, cursor);
    if failures == [] || !sent then cursor
    else
      match write
      case Done => Newest(failures)
      case Untouched => cursor
      case Torn => None
  }

  /** A run reports only newer failures of the log, and a successful one moves the cursor strictly
      forward, onto the newest timestamp it reported. */
  lemma RunProgress(log: string, cursor: Option<string>)
    requires Parsed(log, cursor) != []
    ensures var next := NextCursor(log, cursor, true, Done);
      && next.Some?
      && (cursor.Some? ==> StrLt(cursor.value, next.value))
      && (forall f :: f in Parsed(log, cursor) ==> Logged(Lines(log), f) && Newer(f, cursor) && !Newer(f, next))
      && (exists f :: f in Parsed(log, cursor) && f.loggedAt == next.value)
  {
    StrTotal();
    var failures := Parsed(log, cursor);
    FailuresAre(Lines(log), cursor);
    DedupedFrom(Failures(Lines(log), cursor));
    NewestIsGreatest(failures);
    hide StrLt, FailureOf, Lines, Failures;
    var i :| 0 <= i < |failures| && failures[i].loggedAt == Newest(failures).value;
    assert failures[i] in failures;
    assert Newer(failures[i], cursor);
  }

  /** A run of the hook: the log it found, whether its sending succeeded, and how its writing ended. */
  datatype HookRun = HookRun(log: string, sent: bool, write: Overwrite)

  function CursorAfter(runs: seq<HookRun>): Option<string> {
    if runs == [] then None
    else var r := runs[|runs| - 1]; NextCursor(r.log, CursorAfter(runs[..|runs| - 1]), r.sent, r.write)
  }

  /** What run `i` reports. */
  function Reported(runs: seq<HookRun>, i: nat): seq<Failure>
    requires i < |runs|
  {
    Parsed(runs[i].log, CursorAfter(runs[..i]))
  }

  /** At or past. */
  predicate AtLeast(a: Option<string>, b: Option<string>) {
    b.Some? ==> a.Some? && !StrLt(a.value, b.value)
  }

  /** The run had a cursor, something new to report, and its write was torn. */
  predicate LosesCursor(log: string, cursor: Option<string>, sent: bool, write: Overwrite) {
    cursor.Some? && Parsed(log, cursor) != [] && sent && write.Torn?
  }

  /** A run takes the cursor back exactly when it loses it. */
  lemma StepBackIff(log: string, cursor: Option<string>, sent: bool, write: Overwrite)
    ensures AtLeast(NextCursor(log, cursor, sent, write), cursor) <==> !LosesCursor(log, cursor, sent, write)
  {
    StrTotal();
    hide StrLt, Parsed, Newest;
    if Parsed(log, cursor) != [] && sent && write.Done? {
      RunProgress(log, cursor);
    }
  }

  /** No run from `i` up to `j` loses the cursor. */
  ghost predicate CursorHeld(runs: seq<HookRun>, i: nat, j: nat)
    requires i <= j <= |runs|
  {
    forall k | i <= k < j :: !LosesCursor(runs[k].log, CursorAfter(runs[..k]), runs[k].sent, runs[k].write)
  }

  lemma CursorStep(runs: seq<HookRun>, k: nat)
    requires k < |runs|
    ensures CursorAfter(runs[..k + 1]) == NextCursor(runs[k].log, CursorAfter(runs[..k]), runs[k].sent, runs[k].write)
  {
    assert runs[..k + 1][..k] == runs[..k];
  }

  lemma AtLeastTransitive(a: Option<string>, b: Option<string>, c: Option<string>)
    requires AtLeast(b, a) && AtLeast(c, b)
    ensures AtLeast(c, a)
  {
    StrTotal();
  }

  lemma AtLeastSelf(a: Option<string>)
    ensures AtLeast(a, a)
  {
    StrTotal();
  }

  /** While no run loses it, the cursor never goes back. */
  lemma {:induction false} CursorNeverBack(runs: seq<HookRun>, i: nat, j: nat)
    requires i <= j <= |runs| && CursorHeld(runs, i, j)
    ensures AtLeast(CursorAfter(runs[..j]), CursorAfter(runs[..i]))
    decreases j
  {
    hide AtLeast, NextCursor, LosesCursor, CursorAfter;
    if i < j {
      CursorNeverBack(runs, i, j - 1);
      var r := runs[j - 1];
      StepBackIff(r.log, CursorAfter(runs[..j - 1]), r.sent, r.write);
      CursorStep(runs, j - 1);
      AtLeastTransitive(CursorAfter(runs[..i]), CursorAfter(runs[..j - 1]), CursorAfter(runs[..j]));
    } else {
      AtLeastSelf(CursorAfter(runs[..i]));
    }
  }

  /** Whatever the log looks like from run to run, nothing a successful run reported is reported again
      while no later run loses the cursor: every later failure is strictly newer. */
  lemma NothingTwice(runs: seq<HookRun>, i: nat, j: nat, f: Failure, g: Failure)
    requires i < j < |runs| && runs[i].sent && runs[i].write.Done? && CursorHeld(runs, i + 1, j)
    requires f in Reported(runs, i) && g in Reported(runs, j)
    ensures StrLt(f.loggedAt, g.loggedAt) && f != g
  {
    StrTotal();
    RunProgress(runs[i].log, CursorAfter(runs[..i]));
    RunProgress(runs[j].log, CursorAfter(runs[..j]));
    CursorNeverBack(runs, i + 1, j);
    CursorStep(runs, i);
    hide StrLt, Parsed, CursorHeld, CursorAfter;
  }

  /** A run that loses the cursor makes the next one report from the whole log. */
  lemma StartsOver(runs: seq<HookRun>, k: nat)
    requires k + 1 < |runs| && LosesCursor(runs[k].log, CursorAfter(runs[..k]), runs[k].sent, runs[k].write)
    ensures Reported(runs, k + 1) == Parsed(runs[k + 1].log, None)
  {
    CursorStep(runs, k);
    hide Parsed;
  }

  lemma {:induction false} LinesFree(s: string, i: nat)
    requires i < |Lines(s)|
    ensures Free(Lines(s)[i], '\n')
    decreases |s|
  {
    SplitOnceNone(s, '\n');
    if SplitOnce(s, '\n').Some? && i > 0 {
      LinesFree(SplitOnce(s, '\n').value.1, i - 1);
    }
  }

  lemma LoneLine(line: string)
    requires line != [] && Free(line, '\n')
    ensures Lines(line) == [line]
  {
    SplitOnceNone(line, '\n');
  }

  /** The log that holds only the line of a failure. */
  lemma AloneInLog(line: string, f: Failure, cursor: Option<string>)
    requires FailureOf(line) == Some(f) && Free(line, '\n')
    ensures Parsed(line, cursor) == if Newer(f, cursor) then [f] else []
  {
    assert line != [];
    LoneLine(line);
    OneFailure(line, f, cursor);
    DedupedMore([], f);
    assert [] + [f] == [f] && Deduped([]) == [];
    hide FailureOf, Newer, Lines, Failures, Deduped;
  }

  /** At any time, a failure reported before can be reported once more exactly when it is newer than the
      cursor, and by `CursorNeverBack` that takes a run that lost it. */
  lemma RepeatableIff(runs: seq<HookRun>, i: nat, j: nat, f: Failure)
    requires i < |runs| && j <= |runs| && f in Reported(runs, i)
    ensures (exists log :: f in Parsed(log, CursorAfter(runs[..j]))) <==> Newer(f, CursorAfter(runs[..j]))
  {
    var cursor := CursorAfter(runs[..j]);
    RunProgress(runs[i].log, CursorAfter(runs[..i]));
    hide StrLt, FailureOf, Lines, Newer, Parsed, CursorAfter;
    var lines := Lines(runs[i].log);
    var n :| 0 <= n < |lines| && FailureOf(lines[n]) == Some(f);
    LinesFree(runs[i].log, n);
    AloneInLog(lines[n], f, cursor);
    if Newer(f, cursor) {
      assert f in Parsed(lines[n], cursor);
    }
    if log :| f in Parsed(log, cursor) {
      RunProgress(log, cursor);
    }
  }

  // ---------------------------------------------------------------- a fixed log

  /** The failure timestamps of a log that lie after the cursor. */
  ghost function Pending(log: string, cursor: Option<string>): set<string> {
    set f | f in Failures(Lines(log), cursor) :: f.loggedAt
  }

  /** The cursor after `n` successful runs on the same log. */
  function Again(log: string, cursor: Option<string>, n: nat): Option<string>
    decreases n
  {
    if n == 0 then cursor else Again(log, NextCursor(log, cursor, true, Done), n - 1)
  }

  /** A successful run that reports something leaves strictly fewer timestamps pending. */
  lemma PendingShrinks(log: string, cursor: Option<string>)
    requires Parsed(log, cursor) != []
    ensures Pending(log, NextCursor(log, cursor, true, Done)) < Pending(log, cursor)
  {
    StrTotal();
    RunProgress(log, cursor);
    var next := NextCursor(log, cursor, true, Done);
    FailuresAre(Lines(log), cursor);
    FailuresAre(Lines(log), next);
    hide StrLt, FailureOf, Lines, Parsed, Failures;
    var f :| f in Parsed(log, cursor) && f.loggedAt == next.value;
    assert f.loggedAt in Pending(log, cursor);
    assert forall g :: g in Failures(Lines(log), next) ==> g in Failures(Lines(log), cursor);
    assert f.loggedAt !in Pending(log, next);
  }

  /** On a fixed log the hook has nothing left to report after at most as many successful runs as
      there are distinct failure timestamps. */
  lemma {:induction false} ReachesQuiet(log: string, cursor: Option<string>, n: nat)
    requires |Pending(log, cursor)| <= n
    ensures Parsed(log, Again(log, cursor, n)) == []
    decreases n
  {
    hide Parsed, Pending, NextCursor;
    if Parsed(log, cursor) == [] {
      StaysQuiet(log, cursor, n);
    } else {
      PendingShrinks(log, cursor);
      var next := NextCursor(log, cursor, true, Done);
      Counting.SubsetCardinality(Pending(log, next), Pending(log, cursor));
      SmallerCardinality(Pending(log, next), Pending(log, cursor));
      ReachesQuiet(log, next, n - 1);
    }
  }

  lemma SmallerCardinality(a: set<string>, b: set<string>)
    requires a < b
    ensures |a| < |b|
  {
    var x :| x in b && x !in a;
    Counting.SubsetCardinality(a, b - {x});
  }

  lemma {:induction false} StaysQuiet(log: string, cursor: Option<string>, n: nat)
    requires Parsed(log, cursor) == []
    ensures Again(log, cursor, n) == cursor
  {
    if n > 0 {
      StaysQuiet(log, cursor, n - 1);
    }
  }

  // ---------------------------------------------------------------- what one run can leave behind

  /** A status line as dpkg writes it. */
  function LogLine(date: string, time: string, state: string, package: string): string {
    date + (" " + time + (" " + "status" + (" " + state + (" " + package))))
  }

  lemma LogLineReads(date: string, time: string, state: string, package: string)
    requires Solid(date) && Solid(time) && Solid(package) && Solid(state) && state in FAILURE_STATES
    ensures FailureOf(LogLine(date, time, state, package)) == Some(Failure(date + " " + time, Before(package, ':'), state))
  {
    LogLineWords(date, time, state, package, "");
    NoWords();
    hide Words, SplitOnce, LogLine;
    assert LogLine(date, time, state, package) + "" == LogLine(date, time, state, package);
  }

  lemma LogLineWords(date: string, time: string, state: string, package: string, rest: string)
    requires Solid(date) && Solid(time) && Solid(package) && Solid(state) && Breaks(rest)
    ensures Words(LogLine(date, time, state, package) + rest)
      == [date] + ([time] + (["status"] + ([state] + ([package] + Words(rest)))))
  {
    hide Words;
    assert Solid("status");
    var d := " " + package + rest;
    var c := " " + state + d;
    var b := " " + "status" + c;
    var a := " " + time + b;
    WordsAfter("", date, a);
    assert "" + date + a == date + a;
    WordsAfter(" ", time, b);
    WordsAfter(" ", "status", c);
    WordsAfter(" ", state, d);
    WordsAfter(" ", package, rest);
    assert LogLine(date, time, state, package) + rest == date + a;
  }

  /** Whatever dpkg writes after the package, as a rule its version, does not matter. */
  lemma VersionIgnored(date: string, time: string, state: string, package: string, version: string)
    requires Solid(date) && Solid(time) && Solid(package) && Solid(state) && Breaks(version)
    ensures FailureOf(LogLine(date, time, state, package) + version) == FailureOf(LogLine(date, time, state, package))
  {
    LogLineWords(date, time, state, package, version);
    LogLineWords(date, time, state, package, "");
    hide Words, SplitOnce, LogLine;
    assert LogLine(date, time, state, package) + "" == LogLine(date, time, state, package);
  }

  lemma NoWords()
    ensures Words("") == []
  {
  }

  lemma SolidFree(s: string)
    requires Solid(s)
    ensures Free(s, '\n') && s[|s| - 1] != '\r'
  {
  }

  lemma LogLineClean(date: string, time: string, state: string, package: string)
    requires Solid(date) && Solid(time) && Solid(package) && Solid(state)
    ensures CleanLine(LogLine(date, time, state, package))
  {
    SolidFree(date);
    SolidFree(time);
    SolidFree(package);
    SolidFree(state);
    hide Solid;
    assert Free(" ", '\n') && Free("status", '\n');
    var d := " " + package;
    var c := " " + state + d;
    var b := " " + "status" + c;
    var a := " " + time + b;
    FreeConcat(" " + state, d, '\n');
    FreeConcat(" " + "status", c, '\n');
    FreeConcat(" " + time, b, '\n');
    FreeConcat(date, a, '\n');
    var line := LogLine(date, time, state, package);
    assert line == date + a;
    assert line[|line| - 1] == package[|package| - 1];
  }

  /** The failures of a log of two lines. */
  lemma TwoFailures(x: string, y: string, a: Failure, b: Failure, after: Option<string>)
    requires FailureOf(x) == Some(a) && FailureOf(y) == Some(b)
    ensures Failures([x, y], after) == (if Newer(a, after) then [a] else []) + (if Newer(b, after) then [b] else [])
  {
    hide FailureOf, Newer;
    assert [x][..0] == [] && Failures([], after) == [];
    assert Failures([x], after) == if Newer(a, after) then [a] else [];
    assert [x, y][..1] == [x];
  }

  /** What the two runs make of such a log. */
  lemma TwoRuns(log: string, a: Failure, b: Failure)
    requires StrLt(a.loggedAt, b.loggedAt) && SameProblem(a, b)
    requires Failures(Lines(log), None) == [a, b] && Failures(Lines(log), Some(a.loggedAt)) == [b]
    ensures Parsed(log, None) == [a] && NextCursor(log, None, true, Done) == Some(a.loggedAt)
    ensures Parsed(log, Some(a.loggedAt)) == [b]
  {
    hide StrLt, Lines, Failures;
    assert [a, b][..1] == [a] && [a][..0] == [] && [b][..0] == [];
    assert Deduped([a]) == [a] && Deduped([b]) == [b];
    assert Deduped([a, b]) == [a];
    assert Newest([]) == None && Newest([a]) == Some(a.loggedAt);
  }

  /** One log, two runs, the same problem twice: a repeat with a later timestamp is dropped by the first
      run, does not move its cursor, and so is reported by the second. */
  lemma RepeatReportedNextRun(date: string, time: string, later: string, state: string, package: string)
    requires Solid(date) && Solid(time) && Solid(later) && Solid(package) && Solid(state) && state in FAILURE_STATES
    requires StrLt(date + " " + time, date + " " + later)
    ensures var log := Unlines([LogLine(date, time, state, package), LogLine(date, later, state, package)]);
      var a := Failure(date + " " + time, Before(package, ':'), state);
      var b := Failure(date + " " + later, Before(package, ':'), state);
      && Parsed(log, None) == [a]
      && NextCursor(log, None, true, Done) == Some(a.loggedAt)
      && Parsed(log, NextCursor(log, None, true, Done)) == [b]
  {
    var x, y := LogLine(date, time, state, package), LogLine(date, later, state, package);
    var a := Failure(date + " " + time, Before(package, ':'), state);
    var b := Failure(date + " " + later, Before(package, ':'), state);
    LogLineReads(date, time, state, package);
    LogLineReads(date, later, state, package);
    LogLineClean(date, time, state, package);
    LogLineClean(date, later, state, package);
    LinesUnlines([x, y]);
    hide LogLine, FailureOf, Lines, Unlines, CleanLine, Solid, Failures, Parsed, NextCursor, Before;
    TwoFailures(x, y, a, b, None);
    TwoFailures(x, y, a, b, Some(a.loggedAt));
    StrIrreflexive(a.loggedAt);
    assert [a] + [b] == [a, b] && [] + [b] == [b];
    hide StrLt;
    TwoRuns(Unlines([x, y]), a, b);
  }

  /** When a second run on the same log reports anything: exactly when some failure is newer than every
      one that the first run reported. */
  lemma ReportsAgainIff(log: string, cursor: Option<string>)
    requires Parsed(log, cursor) != []
    ensures Parsed(log, NextCursor(log, cursor, true, Done)) != [] <==> exists f ::
      f in Failures(Lines(log), cursor) && NewerThanAll(f, Parsed(log, cursor))
  {
    var next := NextCursor(log, cursor, true, Done);
    assert Parsed(log, next) != [] <==> Failures(Lines(log), next) != [];
    hide Lines, Failures, NewerThanAll, NextCursor, Parsed, Deduped;
    if Failures(Lines(log), next) != [] {
      StillPending(log, cursor, Failures(Lines(log), next)[0]);
    }
    if f :| f in Failures(Lines(log), cursor) && NewerThanAll(f, Parsed(log, cursor)) {
      StillPending(log, cursor, f);
    }
  }

  /** A failure is left for the next run exactly when it is newer than all this one reports. */
  lemma StillPending(log: string, cursor: Option<string>, f: Failure)
    requires Parsed(log, cursor) != []
    ensures f in Failures(Lines(log), NextCursor(log, cursor, true, Done))
      <==> f in Failures(Lines(log), cursor) && NewerThanAll(f, Parsed(log, cursor))
  {
    PastNewest(log, cursor, f);
    FailuresAre(Lines(log), cursor);
    FailuresAre(Lines(log), NextCursor(log, cursor, true, Done));
    hide StrLt, FailureOf, Lines, Failures, Logged, NewerThanAll, Newer, NextCursor, Parsed;
  }

  predicate NewerThanAll(f: Failure, reported: seq<Failure>) {
    forall g :: g in reported ==> StrLt(g.loggedAt, f.loggedAt)
  }

  /** Being newer than the next cursor is being newer than all that was reported, and then also than the
      cursor before. */
  lemma PastNewest(log: string, cursor: Option<string>, f: Failure)
    requires Parsed(log, cursor) != []
    ensures Newer(f, NextCursor(log, cursor, true, Done)) <==> NewerThanAll(f, Parsed(log, cursor))
    ensures Newer(f, NextCursor(log, cursor, true, Done)) ==> Newer(f, cursor)
  {
    RunProgress(log, cursor);
    StrTotal();
    hide StrLt, FailureOf, Lines, Failures, Logged, Parsed, NextCursor;
  }

  /** A failure that is not newer than the cursor, as one logged in the same second as the last one
      reported, is not reported by that run or by any later one, whatever the logs, while no run loses
      the cursor. */
  lemma SameSecondMissed(runs: seq<HookRun>, i: nat, j: nat, g: Failure)
    requires i <= j < |runs| && !Newer(g, CursorAfter(runs[..i])) && CursorHeld(runs, i, j)
    ensures g !in Reported(runs, j)
  {
    StrTotal();
    CursorNeverBack(runs, i, j);
    FailuresAre(Lines(runs[j].log), CursorAfter(runs[..j]));
    DedupedFrom(Failures(Lines(runs[j].log), CursorAfter(runs[..j])));
    hide StrLt, FailureOf, Lines, Failures, CursorHeld;
  }

  /** What three runs make of two logs of which the second has one more failure, of another problem. */
  lemma ThreeRuns(before: string, after: string, a: Failure, b: Failure)
    requires Parsed(before, None) == [a] && Parsed(after, Some(a.loggedAt)) == [b] && Parsed(after, None) == [a, b]
    ensures var runs := [HookRun(before, true, Done), HookRun(after, true, Torn), HookRun(after, true, Done)];
      && Reported(runs, 0) == [a] && Reported(runs, 1) == [b] && Reported(runs, 2) == [a, b]
      && LosesCursor(after, CursorAfter(runs[..1]), true, Torn)
  {
    var runs := [HookRun(before, true, Done), HookRun(after, true, Torn), HookRun(after, true, Done)];
    CursorStep(runs, 0);
    CursorStep(runs, 1);
    assert runs[..0] == [];
    assert [a][..0] == [] && Newest([]) == None && Newest([a]) == Some(a.loggedAt);
    hide Parsed, StrLt;
  }

  /** A torn write repeats reports: one failure is reported, then a second of another package while the
      write of the cursor is torn, and the next run reports both once more. */
  lemma TornWriteRepeats(date: string, time: string, later: string, state: string, package: string, other: string)
    requires Solid(date) && Solid(time) && Solid(later) && Solid(package) && Solid(other) && Solid(state)
    requires state in FAILURE_STATES && Before(package, ':') != Before(other, ':')
    requires StrLt(date + " " + time, date + " " + later)
    ensures var x, y := LogLine(date, time, state, package), LogLine(date, later, state, other);
      var a := Failure(date + " " + time, Before(package, ':'), state);
      var b := Failure(date + " " + later, Before(other, ':'), state);
      var runs := [HookRun(Unlines([x]), true, Done), HookRun(Unlines([x, y]), true, Torn), HookRun(Unlines([x, y]), true, Done)];
      Reported(runs, 0) == [a] && Reported(runs, 1) == [b] && Reported(runs, 2) == [a, b]
  {
    var x, y := LogLine(date, time, state, package), LogLine(date, later, state, other);
    var a := Failure(date + " " + time, Before(package, ':'), state);
    var b := Failure(date + " " + later, Before(other, ':'), state);
    LogLineReads(date, time, state, package);
    LogLineReads(date, later, state, other);
    LogLineClean(date, time, state, package);
    LogLineClean(date, later, state, other);
    hide LogLine, FailureOf, Lines, Unlines, CleanLine, Solid, Parsed, Before, StrLt, Reported, CursorAfter, LosesCursor;
    GrowingLog(x, y, a, b);
    ThreeRuns(Unlines([x]), Unlines([x, y]), a, b);
  }

  /** What is found in a log of one line, and after a second one was added. */
  lemma GrowingLog(x: string, y: string, a: Failure, b: Failure)
    requires FailureOf(x) == Some(a) && FailureOf(y) == Some(b) && CleanLine(x) && CleanLine(y)
    requires StrLt(a.loggedAt, b.loggedAt) && !SameProblem(a, b)
    ensures Parsed(Unlines([x]), None) == [a]
    ensures Parsed(Unlines([x, y]), Some(a.loggedAt)) == [b] && Parsed(Unlines([x, y]), None) == [a, b]
  {
    hide FailureOf, Lines, Unlines, CleanLine, Failures;
    LinesUnlines([x]);
    LinesUnlines([x, y]);
    OneFailure(x, a, None);
    TwoFailures(x, y, a, b, None);
    TwoFailures(x, y, a, b, Some(a.loggedAt));
    StrIrreflexive(a.loggedAt);
    hide StrLt;
    assert [a] + [b] == [a, b] && [] + [b] == [b] && [a, b][..1] == [a] && [a][..0] == [] && [b][..0] == [];
    assert Deduped([a]) == [a] && Deduped([b]) == [b] && Deduped([a, b]) == [a, b];
  }

  lemma OneFailure(x: string, a: Failure, after: Option<string>)
    requires FailureOf(x) == Some(a)
    ensures Failures([x], after) == if Newer(a, after) then [a] else []
  {
    hide FailureOf, Newer;
    assert [x][..0] == [] && Failures([], after) == [];
  }
}
