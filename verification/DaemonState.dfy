/** The daemon's persistent state, and the sliding-window rate limiter: crates/blankres-daemon/src/state.rs. */
module DaemonState {
  import opened Base

  const RATE_WINDOW_SECS := 3600

  datatype SignatureState = SignatureState(count: nat, declined: bool)

  /** The part of the state file that decisions depend on. */
  datatype Memory = Memory(signatures: map<string, SignatureState>, recent: map<string, seq<nat>>)

  const FORGETFUL := Memory(map[], map[])

  function SignatureOf(m: Memory, hash: string): SignatureState {
    if hash in m.signatures then m.signatures[hash] else SignatureState(0, false)
  }

  function WindowOf(m: Memory, executable: string): seq<nat> {
    if executable in m.recent then m.recent[executable] else []
  }

  /** Whether an event seen at `t` is inside the window that ends now. */
  predicate Inside(t: nat, now: nat) {
    SaturatingSub(now, t) < RATE_WINDOW_SECS
  }

  function Retain(window: seq<nat>, now: nat): seq<nat> {
    if window == [] then []
    else Retain(window[..|window| - 1], now) + (if Inside(window[|window| - 1], now) then [window[|window| - 1]] else [])
  }

  /** The `as u32` of a length. */
  function AsU32(n: nat): nat {
    n % U32_LIMIT
  }

  function Charged(m: Memory, executable: string, now: nat): Memory {
    m.(recent := m.recent[executable := Retain(WindowOf(m, executable), now) + [now]])
  }

  function Seen(m: Memory, executable: string, now: nat): nat {
    AsU32(|Retain(WindowOf(m, executable), now)|)
  }

  function Noted(m: Memory, hash: string): Memory {
    var s := SignatureOf(m, hash);
    m.(signatures := m.signatures[hash := s.(count := s.count + 1)])
  }

  class State {
    var signatures: map<string, SignatureState>
    var recent: map<string, seq<nat>>

    ghost function Contents(): Memory
      reads this
    {
      Memory(signatures, recent)
    }

    constructor (m: Memory)
      ensures Contents() == m
    {
      signatures, recent := m.signatures, m.recent;
    }

    /** One more crash of this signature; the answer includes it. */
    method NoteSignature(hash: string) returns (count: nat)
      modifies this
      ensures Contents() == Noted(old(Contents()), hash)
      ensures count == SignatureOf(old(Contents()), hash).count + 1
    {
      var entry := if hash in signatures then signatures[hash] else SignatureState(0, false);
      entry := entry.(count := entry.count + 1);
      signatures := signatures[hash := entry];
      return entry.count;
    }

    method IsDeclined(hash: string) returns (declined: bool)
      ensures declined == SignatureOf(Contents(), hash).declined
    {
      return hash in signatures && signatures[hash].declined;
    }

    method Decline(hash: string)
      modifies this
      ensures Contents() == old(Contents()).(signatures := old(signatures)[hash := SignatureOf(old(Contents()), hash).(declined := true)])
    {
      var entry := if hash in signatures then signatures[hash] else SignatureState(0, false);
      signatures := signatures[hash := entry.(declined := true)];
    }

    /** Every call counts from now on; the answer leaves this one out. */
    method ChargeRateLimit(executable: string, now: nat) returns (seen: nat)
      modifies this
      ensures Contents() == Charged(old(Contents()), executable, now)
      ensures seen == Seen(old(Contents()), executable, now)
    {
      var window := if executable in recent then recent[executable] else [];
      var kept: seq<nat> := [];
      for i := 0 to |window|
        invariant kept == Retain(window[..i], now)
      {
        assert window[..i + 1][..i] == window[..i];
        if Inside(window[i], now) {
          kept := kept + [window[i]];
        }
      }
      assert window[..|window|] == window;
      seen := AsU32(|kept|);
      recent := recent[executable := kept + [now]];
    }
  }

  // ---------------------------------------------------------------- the full history

  /** One crash as the limiter sees it. */
  datatype Charge = Charge(executable: string, at: nat)

  /** The clock does not go back. */
  predicate Chronological(history: seq<Charge>) {
    forall i, j :: 0 <= i < j < |history| ==> history[i].at <= history[j].at
  }

  function ChargeAll(m: Memory, history: seq<Charge>): Memory {
    if history == [] then m
    else var last := history[|history| - 1]; Charged(ChargeAll(m, history[..|history| - 1]), last.executable, last.at)
  }

  /** How many crashes of an executable the history holds inside the window that ends at `now`. */
  function Arrivals(history: seq<Charge>, executable: string, now: nat): nat {
    if history == [] then 0
    else
      var last := history[|history| - 1];
      Arrivals(history[..|history| - 1], executable, now)
      + if last.executable == executable && Inside(last.at, now) then 1 else 0
  }

  /** All times of an executable, before any pruning. */
  function Times(history: seq<Charge>, executable: string): seq<nat> {
    if history == [] then []
    else
      var last := history[|history| - 1];
      Times(history[..|history| - 1], executable) + if last.executable == executable then [last.at] else []
  }

  lemma {:induction false} RetainAppend(a: seq<nat>, b: seq<nat>, now: nat)
    ensures Retain(a + b, now) == Retain(a, now) + Retain(b, now)
  {
    if b == [] {
      assert a + b == a;
    } else {
      var last := |b| - 1;
      assert (a + b)[..|a| + last] == a + b[..last];
      RetainAppend(a, b[..last], now);
    }
  }

  /** Pruning at an earlier moment loses nothing that a later look needs. */
  lemma {:induction false} RetainTwice(window: seq<nat>, earlier: nat, now: nat)
    requires earlier <= now
    ensures Retain(Retain(window, earlier), now) == Retain(window, now)
  {
    if window != [] {
      var last := |window| - 1;
      RetainTwice(window[..last], earlier, now);
      var kept := if Inside(window[last], earlier) then [window[last]] else [];
      RetainAppend(Retain(window[..last], earlier), kept, now);
    }
  }

  lemma {:induction false} RetainTimes(history: seq<Charge>, executable: string, now: nat)
    ensures |Retain(Times(history, executable), now)| == Arrivals(history, executable, now)
  {
    if history != [] {
      var last := history[|history| - 1];
      RetainTimes(history[..|history| - 1], executable, now);
      RetainAppend(Times(history[..|history| - 1], executable), if last.executable == executable then [last.at] else [], now);
    }
  }

  /** The pruned list answers, at any later time, as the full list of times would. */
  lemma {:induction false} PrunedIsEnough(history: seq<Charge>, executable: string, now: nat)
    requires Chronological(history) && forall i :: 0 <= i < |history| ==> history[i].at <= now
    ensures Retain(WindowOf(ChargeAll(FORGETFUL, history), executable), now) == Retain(Times(history, executable), now)
  {
    if history != [] {
      var n := |history| - 1;
      var init, last := history[..n], history[n];
      if last.executable == executable {
        PrunedIsEnough(init, executable, last.at);
        var before := WindowOf(ChargeAll(FORGETFUL, init), executable);
        RetainAppend(Retain(before, last.at), [last.at], now);
        RetainTwice(before, last.at, now);
        RetainTwice(Times(init, executable), last.at, now);
        RetainAppend(Times(init, executable), [last.at], now);
      } else {
        PrunedIsEnough(init, executable, now);
        assert Times(history, executable) == Times(init, executable) + [] == Times(init, executable);
        assert WindowOf(ChargeAll(FORGETFUL, history), executable) == WindowOf(ChargeAll(FORGETFUL, init), executable);
      }
    }
  }

  /** With a clock that does not go back, a charge answers exactly the number of all earlier crashes
      of the executable in the last hour, up to the u32 it is returned as. */
  lemma SeenIsArrivals(history: seq<Charge>, executable: string, now: nat)
    requires Chronological(history) && forall i :: 0 <= i < |history| ==> history[i].at <= now
    ensures Seen(ChargeAll(FORGETFUL, history), executable, now) == AsU32(Arrivals(history, executable, now))
  {
    PrunedIsEnough(history, executable, now);
    RetainTimes(history, executable, now);
  }

  // ---------------------------------------------------------------- when the clock may go back

  lemma {:induction false} RetainHas(window: seq<nat>, now: nat, t: nat)
    ensures t in Retain(window, now) <==> t in window && Inside(t, now)
  {
    if window != [] {
      var last := |window| - 1;
      RetainHas(window[..last], now, t);
      assert window == window[..last] + [window[last]];
    }
  }

  /** A look at `a` keeps every time that counts at `now`. */
  ghost predicate KeepsAll(times: seq<nat>, a: nat, now: nat) {
    forall t | t in times :: Inside(t, now) ==> Inside(t, a)
  }

  lemma KeepsMore(init: seq<nat>, t: nat, a: nat, now: nat)
    ensures KeepsAll(init + [t], a, now) <==> KeepsAll(init, a, now) && (Inside(t, now) ==> Inside(t, a))
  {
    hide Inside;
    assert t in init + [t];
  }

  /** Looking at two moments keeps no more than looking at the later one, and as much exactly when the
      earlier look drops nothing that counts later. */
  lemma {:induction false} RetainBoth(window: seq<nat>, a: nat, now: nat)
    ensures |Retain(Retain(window, a), now)| <= |Retain(window, now)|
    ensures |Retain(Retain(window, a), now)| == |Retain(window, now)|
      ==> Retain(Retain(window, a), now) == Retain(window, now)
    ensures Retain(Retain(window, a), now) == Retain(window, now) <==> KeepsAll(window, a, now)
  {
    hide Inside, KeepsAll;
    if window == [] {
      KeepsAllOfNone(a, now);
    } else {
      var last := |window| - 1;
      var init, t := window[..last], window[last];
      RetainBoth(init, a, now);
      RetainAppend(Retain(init, a), if Inside(t, a) then [t] else [], now);
      RetainOne(t, now);
      KeepsMore(init, t, a, now);
      assert Retain([], now) == [];
      assert window == init + [t];
      var both, one := Retain(Retain(init, a), now), if Inside(t, now) then [t] else [];
      assert Retain(Retain(window, a), now) == both + if Inside(t, a) then one else [];
      assert Retain(window, now) == Retain(init, now) + one;
      hide Retain;
      if Inside(t, a) {
        SameTail(both, Retain(init, now), one);
      }
    }
  }

  lemma KeepsAllOfNone(a: nat, now: nat)
    ensures KeepsAll([], a, now)
  {
  }

  lemma RetainOne(t: nat, now: nat)
    ensures Retain([t], now) == if Inside(t, now) then [t] else []
  {
    assert [t][..0] == [];
  }

  /** What is left of a list of times when every charge has pruned it. */
  function Pruned(times: seq<nat>): seq<nat> {
    if times == [] then []
    else Retain(Pruned(times[..|times| - 1]), times[|times| - 1]) + [times[|times| - 1]]
  }

  lemma {:induction false} WindowIsPruned(history: seq<Charge>, executable: string)
    ensures WindowOf(ChargeAll(FORGETFUL, history), executable) == Pruned(Times(history, executable))
  {
    if history != [] {
      var init, last := history[..|history| - 1], history[|history| - 1];
      WindowIsPruned(init, executable);
      if last.executable == executable {
        assert Times(history, executable)[..|Times(init, executable)|] == Times(init, executable);
      } else {
        assert Times(history, executable) == Times(init, executable);
      }
    }
  }

  /** No charge looked at the list when a time that counts now lay outside its window. */
  ghost predicate NeverDropped(times: seq<nat>, now: nat) {
    forall i, j :: 0 <= i < j < |times| && Inside(times[i], now) ==> Inside(times[i], times[j])
  }

  lemma NeverDroppedMore(init: seq<nat>, last: nat, now: nat)
    ensures NeverDropped(init + [last], now)
      <==> NeverDropped(init, now) && KeepsAll(init, last, now)
  {
    var times := init + [last];
    hide Inside;
    if NeverDropped(times, now) {
      forall t | t in init && Inside(t, now)
        ensures Inside(t, last)
      {
        var i :| 0 <= i < |init| && init[i] == t;
        assert times[i] == t && times[|init|] == last;
      }
      forall i, j | 0 <= i < j < |init| && Inside(init[i], now)
        ensures Inside(init[i], init[j])
      {
        assert times[i] == init[i] && times[j] == init[j];
      }
    }
  }

  lemma SameTail(x: seq<nat>, y: seq<nat>, tail: seq<nat>)
    ensures |x + tail| - |y + tail| == |x| - |y|
    ensures x + tail == y + tail <==> x == y
  {
    assert x == (x + tail)[..|x|] && y == (y + tail)[..|y|];
  }

  lemma RetainPruned(init: seq<nat>, last: nat, now: nat)
    ensures Retain(Pruned(init + [last]), now) == Retain(Retain(Pruned(init), last), now) + Retain([last], now)
    ensures Retain(init + [last], now) == Retain(init, now) + Retain([last], now)
  {
    assert (init + [last])[..|init|] == init;
    RetainAppend(Retain(Pruned(init), last), [last], now);
    RetainAppend(init, [last], now);
  }

  lemma {:induction false} PrunedIff(times: seq<nat>, now: nat)
    ensures |Retain(Pruned(times), now)| <= |Retain(times, now)|
    ensures |Retain(Pruned(times), now)| == |Retain(times, now)| ==> Retain(Pruned(times), now) == Retain(times, now)
    ensures Retain(Pruned(times), now) == Retain(times, now) <==> NeverDropped(times, now)
  {
    if times == [] {
      assert Pruned(times) == times;
    } else {
      hide Retain, Pruned, Inside, NeverDropped, KeepsAll;
      var init, last := times[..|times| - 1], times[|times| - 1];
      assert times == init + [last];
      PrunedIff(init, now);
      RetainBoth(Pruned(init), last, now);
      RetainPruned(init, last, now);
      SameTail(Retain(Retain(Pruned(init), last), now), Retain(init, now), Retain([last], now));
      NeverDroppedMore(init, last, now);
      if Retain(Pruned(init), now) == Retain(init, now) {
        PrunedStep(Pruned(init), init, last, now);
      }
    }
  }

  /** While nothing was dropped before, the pruned list and the full one agree on what the next look drops. */
  lemma PrunedStep(pruned: seq<nat>, init: seq<nat>, last: nat, now: nat)
    requires Retain(pruned, now) == Retain(init, now)
    ensures KeepsAll(pruned, last, now) <==> KeepsAll(init, last, now)
  {
    forall t
      ensures t in pruned && Inside(t, now) <==> t in init && Inside(t, now)
    {
      RetainHas(pruned, now, t);
      RetainHas(init, now, t);
    }
  }
  /** No later charge of the executable was made at a time at which an earlier one, counting now, lay
      outside the window. */
  ghost predicate Remembered(history: seq<Charge>, executable: string, now: nat) {
    forall i, j | 0 <= i < j < |history| && history[i].executable == executable == history[j].executable ::
      Inside(history[i].at, now) ==> Inside(history[i].at, history[j].at)
  }

  lemma {:induction false} TimesHas(history: seq<Charge>, executable: string, t: nat)
    ensures t in Times(history, executable)
      <==> exists i :: 0 <= i < |history| && history[i].executable == executable && history[i].at == t
  {
    if history != [] {
      var last := |history| - 1;
      TimesHas(history[..last], executable, t);
      if i :| 0 <= i < |history| && history[i].executable == executable && history[i].at == t {
        assert i == last || history[..last][i] == history[i];
      }
    }
  }

  lemma RememberedMore(init: seq<Charge>, last: Charge, executable: string, now: nat)
    ensures Remembered(init + [last], executable, now)
      <==> Remembered(init, executable, now) && (last.executable == executable ==> KeepsAll(Times(init, executable), last.at, now))
  {
    hide Inside, Times;
    var history := init + [last];
    assert history[|init|] == last;
    assert forall i :: 0 <= i < |init| ==> history[i] == init[i];
    if last.executable == executable {
      if Remembered(history, executable, now) {
        forall t | t in Times(init, executable) && Inside(t, now)
          ensures Inside(t, last.at)
        {
          TimesHas(init, executable, t);
          var i :| 0 <= i < |init| && init[i].executable == executable && init[i].at == t;
          assert history[i] == init[i];
        }
      }
      forall i | 0 <= i < |init| && init[i].executable == executable
        ensures init[i].at in Times(init, executable)
      {
        TimesHas(init, executable, init[i].at);
      }
    }
  }

  lemma {:induction false} RememberedTimes(history: seq<Charge>, executable: string, now: nat)
    ensures Remembered(history, executable, now) <==> NeverDropped(Times(history, executable), now)
  {
    hide Inside, Remembered, NeverDropped, KeepsAll;
    if history == [] {
      NothingDropped(executable, now);
    } else {
      var init, last := history[..|history| - 1], history[|history| - 1];
      assert history == init + [last];
      RememberedTimes(init, executable, now);
      RememberedMore(init, last, executable, now);
      NeverDroppedMore(Times(init, executable), last.at, now);
      assert Times(init, executable) + [] == Times(init, executable);
    }
  }

  lemma NothingDropped(executable: string, now: nat)
    ensures Remembered([], executable, now) && NeverDropped([], now)
  {
  }

  lemma {:induction false} ArrivalsBounded(history: seq<Charge>, executable: string, now: nat)
    ensures Arrivals(history, executable, now) <= |history|
  {
    if history != [] {
      ArrivalsBounded(history[..|history| - 1], executable, now);
    }
  }

  /** Whatever the clock did, the pruned list has as many times in the last hour as the full history
      exactly when no charge dropped one that counts now, and the answer is their number exactly when it
      fits a u32 besides. */
  lemma CountsRightIff(history: seq<Charge>, executable: string, now: nat)
    ensures |Retain(WindowOf(ChargeAll(FORGETFUL, history), executable), now)| == Arrivals(history, executable, now)
      <==> Remembered(history, executable, now)
    ensures |Retain(WindowOf(ChargeAll(FORGETFUL, history), executable), now)| <= Arrivals(history, executable, now)
    ensures Seen(ChargeAll(FORGETFUL, history), executable, now) == Arrivals(history, executable, now)
      <==> Remembered(history, executable, now) && Arrivals(history, executable, now) < U32_LIMIT
  {
    WindowIsPruned(history, executable);
    RetainTimes(history, executable, now);
    PrunedIff(Times(history, executable), now);
    RememberedTimes(history, executable, now);
    hide Retain, Pruned, Times, Arrivals, Remembered, NeverDropped, ChargeAll, WindowOf;
  }

  /** So a clock that goes back makes the limiter forget: two crashes count at 100, it sees fewer. */
  lemma BackwardsClockForgets()
    ensures var history := [Charge("x", 0), Charge("x", 4000)];
      Seen(ChargeAll(FORGETFUL, history), "x", 100) < Arrivals(history, "x", 100) == 2
  {
    var history := [Charge("x", 0), Charge("x", 4000)];
    assert !Remembered(history, "x", 100) by {
      assert history[0].executable == history[1].executable == "x";
      assert Inside(history[0].at, 100) && !Inside(history[0].at, history[1].at);
    }
    CountsRightIff(history, "x", 100);
    assert history[..1] == [history[0]] && history[..1][..0] == [];
    assert Arrivals(history[..1], "x", 100) == 1;
  }

  /** And 2^32 crashes within one second are answered as none. */
  lemma CountWraps(executable: string, now: nat)
    ensures var history := seq(U32_LIMIT, _ => Charge(executable, now));
      Seen(ChargeAll(FORGETFUL, history), executable, now) == 0 && Arrivals(history, executable, now) == U32_LIMIT
  {
    var history := seq(U32_LIMIT, _ => Charge(executable, now));
    AllArrive(history, executable, now);
    CountsRightIff(history, executable, now);
    hide Arrivals, Retain, ChargeAll, WindowOf;
  }

  lemma {:induction false} AllArrive(history: seq<Charge>, executable: string, now: nat)
    requires forall i :: 0 <= i < |history| ==> history[i] == Charge(executable, now)
    ensures Arrivals(history, executable, now) == |history| && Remembered(history, executable, now)
  {
    if history != [] {
      AllArrive(history[..|history| - 1], executable, now);
    }
  }

  /** A moment at which no time of the list counts any more. */
  function HourAfter(window: seq<nat>): nat {
    if window == [] then 0
    else
      var before, last := HourAfter(window[..|window| - 1]), window[|window| - 1] + RATE_WINDOW_SECS;
      if before <= last then last else before
  }

  lemma {:induction false} EmptyAfterAnHour(window: seq<nat>, at: nat)
    requires at >= HourAfter(window)
    ensures Retain(window, at) == []
  {
    if window != [] {
      EmptyAfterAnHour(window[..|window| - 1], at);
    }
  }

  // ---------------------------------------------------------------- the gate

  /** Crash `i` of the history gets through: fewer than `limit` seen when it is charged. */
  predicate Passes(history: seq<Charge>, limit: nat, i: nat)
    requires i < |history|
  {
    Seen(ChargeAll(FORGETFUL, history[..i]), history[i].executable, history[i].at) < limit
  }

  /** Crash `i` is counted right: nothing that counts was dropped before, and the number fits. */
  ghost predicate Counted(history: seq<Charge>, i: nat)
    requires i < |history|
  {
    && Remembered(history[..i], history[i].executable, history[i].at)
    && Arrivals(history[..i], history[i].executable, history[i].at) < U32_LIMIT
  }

  /** With a clock that does not go back only the number of crashes in the hour matters. */
  lemma ChronologicalCounts(history: seq<Charge>, i: nat)
    requires Chronological(history) && i < |history|
    ensures Counted(history, i) <==> Arrivals(history[..i], history[i].executable, history[i].at) < U32_LIMIT
  {
    hide Arrivals;
  }

  /** For a crash that is counted right, the gate is shut exactly while at least `limit` crashes,
      suppressed ones included, lie in the past hour. */
  lemma GateIff(history: seq<Charge>, limit: nat, i: nat)
    requires i < |history| && Counted(history, i)
    ensures Passes(history, limit, i) <==> Arrivals(history[..i], history[i].executable, history[i].at) < limit
  {
    CountsRightIff(history[..i], history[i].executable, history[i].at);
    hide Arrivals, Remembered, Seen, ChargeAll;
  }

  /** How many of the first `n` crashes of an executable get through in the hour that starts at `start`. */
  function Through(history: seq<Charge>, executable: string, limit: nat, start: nat, n: nat): nat
    requires n <= |history|
  {
    if n == 0 then 0
    else
      Through(history, executable, limit, start, n - 1)
      + if history[n - 1].executable == executable && start <= history[n - 1].at < start + RATE_WINDOW_SECS && Passes(history, limit, n - 1)
        then 1 else 0
  }

  lemma {:induction false} ThroughArrived(history: seq<Charge>, executable: string, limit: nat, start: nat, n: nat, now: nat)
    requires n <= |history|
    requires start <= now < start + RATE_WINDOW_SECS
    ensures Through(history, executable, limit, start, n) <= Arrivals(history[..n], executable, now)
  {
    if n > 0 {
      ThroughArrived(history, executable, limit, start, n - 1, now);
      assert history[..n][..n - 1] == history[..n - 1];
    }
  }

  /** In any hour in which its crashes are counted right, at most `limit` of one executable get through. */
  lemma {:induction false} AtMostLimit(history: seq<Charge>, executable: string, limit: nat, start: nat, n: nat)
    requires n <= |history|
    requires forall i | 0 <= i < n && history[i].executable == executable && start <= history[i].at < start + RATE_WINDOW_SECS ::
      Counted(history, i)
    ensures Through(history, executable, limit, start, n) <= limit
  {
    hide Passes, Arrivals, Counted;
    if n > 0 {
      AtMostLimit(history, executable, limit, start, n - 1);
      var c := history[n - 1];
      if start <= c.at < start + RATE_WINDOW_SECS && c.executable == executable {
        ThroughArrived(history, executable, limit, start, n - 1, c.at);
        GateIff(history, limit, n - 1);
      }
    }
  }

  /** In particular with a clock that does not go back and fewer than 2^32 crashes in any past hour. */
  lemma AtMostLimitInOrder(history: seq<Charge>, executable: string, limit: nat, start: nat, n: nat)
    requires Chronological(history) && n <= |history|
    requires forall i | 0 <= i < n :: Arrivals(history[..i], history[i].executable, history[i].at) < U32_LIMIT
    ensures Through(history, executable, limit, start, n) <= limit
  {
    forall i | 0 <= i < n
      ensures Counted(history, i)
    {
      ChronologicalCounts(history, i);
    }
    AtMostLimit(history, executable, limit, start, n);
  }

  // ---------------------------------------------------------------- the numbers themselves

  /** What counts as the past hour, and everything that a clock gone back puts into the future. */
  lemma InsideIff(t: nat, now: nat)
    ensures Inside(t, now) <==> now < t + 3600
  {
  }

  /** The crashes of the program in the past hour. */
  ghost function InHour(history: seq<Charge>, executable: string, now: nat): set<nat> {
    set i: nat | i < |history| && history[i].executable == executable && now < history[i].at + 3600
  }

  lemma InHourGrows(history: seq<Charge>, executable: string, now: nat)
    requires history != []
    ensures var n := |history| - 1;
      InHour(history, executable, now)
      == InHour(history[..n], executable, now)
         + if history[n].executable == executable && now < history[n].at + 3600 then {n} else {}
  {
    var n := |history| - 1;
    assert forall i :: 0 <= i < n ==> history[..n][i] == history[i];
  }

  /** Arrivals are the crashes of the past hour. */
  lemma {:induction false} ArrivalsAre(history: seq<Charge>, executable: string, now: nat)
    ensures Arrivals(history, executable, now) == |InHour(history, executable, now)|
  {
    if history != [] {
      var n := |history| - 1;
      ArrivalsAre(history[..n], executable, now);
      InsideIff(history[n].at, now);
      InHourGrows(history, executable, now);
      assert n !in InHour(history[..n], executable, now);
      hide Inside, InHour;
    }
  }
}
