/** The invariants of the server carried over whole runs. */
module IngestSafety {
  import opened Base
  import opened Storage
  import opened Database
  import opened Ingest
  import opened IngestLinks
  import opened IngestDisk

  ghost predicate Safe(cfg: Config, s: Server) {
    && Linked(cfg, s)
    && CountersExact(s.tables)
    && Faithful(s)
    && ContentAddressed(cfg.env.digest, s.disk)
    && FilesBacked(cfg, s)
    && AllRefine(cfg, s)
    && (Injective(cfg.env.digest) ==> AllResolve(s))
  }

  lemma SafeInit(cfg: Config, now: int)
    ensures Safe(cfg, Init(now))
  {
    forall signature
      ensures CounterExact(EMPTY, signature)
    {
      assert Counting.Matching(EMPTY.events, EventOf(signature)) == {};
      assert Counting.Matching(EMPTY.reports, ReportOf(signature)) == {};
    }
  }

  lemma SafeStep(cfg: Config, s: Server, a: Action)
    requires Safe(cfg, s) && Enabled(cfg, s, a)
    ensures Safe(cfg, Apply(cfg, s, a))
  {
    hide Apply, Enabled, TokensLinked, ReportsLinked, CountersExact, Faithful, ContentAddressed, FilesBacked, AllRefine, AllResolve, Injective;
    LinkedStep(cfg, s, a);
    CountersStep(cfg, s, a);
    FaithfulStep(cfg, s, a);
    ContentAddressedStep(cfg, s, a);
    FilesBackedStep(cfg, s, a);
    RefineStep(cfg, s, a);
    if Injective(cfg.env.digest) {
      AllResolveStep(cfg, s, a);
    }
  }

  /** Every state of every run is safe. */
  lemma {:induction false} RunSafe(cfg: Config, states: seq<Server>, actions: seq<Action>, n: nat)
    requires Run(cfg, states, actions) && n < |states|
    ensures Safe(cfg, states[n])
  {
    hide Apply, Enabled, Safe;
    if n == 0 {
      var now :| states[0] == Init(now);
      SafeInit(cfg, now);
    } else {
      RunSafe(cfg, states, actions, n - 1);
      SafeStep(cfg, states[n - 1], actions[n - 1]);
    }
  }

  lemma ReachableSafe(cfg: Config, s: Server)
    requires Reachable(cfg, s)
    ensures Safe(cfg, s)
  {
    hide Apply, Enabled, Safe;
    var states, actions :| Run(cfg, states, actions) && states[|actions|] == s;
    RunSafe(cfg, states, actions, |actions|);
  }

  /** The token a report was uploaded with. */
  ghost function TokenOf(cfg: Config, s: Server, r: nat): (k: string)
    requires ReportsLinked(cfg, s) && r in s.tables.reports
    ensures Spent(cfg, s.tables, s.tables.reports[r], k)
  {
    var k :| Spent(cfg, s.tables, s.tables.reports[r], k);
    k
  }

  /** Reports map injectively to spent tokens; the event behind one had a core and was marked wanted. */
  lemma ReportsAreSolicited(cfg: Config, s: Server, q: nat, r: nat)
    requires Reachable(cfg, s) && q in s.tables.reports && r in s.tables.reports
    ensures ReportsLinked(cfg, s)
    ensures TokenOf(cfg, s, q) == TokenOf(cfg, s, r) ==> q == r
    ensures var report := s.tables.reports[r];
      && report.eventId in s.tables.events
      && var row := s.tables.events[report.eventId];
         row.payloadWanted && row.event.coreAvailable && row.event.signature == report.signature
    ensures s.tables.reports[r].totalBytes <= cfg.maxPayload
  {
    ReachableSafe(cfg, s);
    var k := TokenOf(cfg, s, r);
    assert TokenBacked(s.tables, s.tables.tokens[k]);
    if TokenOf(cfg, s, q) == k {
      assert s.tables.reports[q].eventId == s.tables.reports[r].eventId;
    }
  }

  /** Between two moments of a run rows survive, tokens stay spent, and (without collisions) blobs
      keep their bytes. */
  lemma {:induction false} HistoryKept(cfg: Config, states: seq<Server>, actions: seq<Action>, i: nat, j: nat)
    requires Run(cfg, states, actions) && i <= j < |states|
    ensures Preserves(states[i].tables, states[j].tables)
    ensures Injective(cfg.env.digest) ==> forall h :: h in states[i].disk.blobs ==>
      h in states[j].disk.blobs && states[j].disk.blobs[h] == states[i].disk.blobs[h]
    decreases j
  {
    hide Apply, Enabled, Injective;
    if i < j {
      HistoryKept(cfg, states, actions, i, j - 1);
      PreservesStep(cfg, states[j - 1], actions[j - 1]);
      PreservesTransitive(states[i].tables, states[j - 1].tables, states[j].tables);
      if Injective(cfg.env.digest) {
        RunSafe(cfg, states, actions, j - 1);
        BlobsStable(cfg, states[j - 1], actions[j - 1]);
      }
    } else {
      PreservesSelf(states[i].tables);
    }
  }

  lemma PreservesSelf(t: Tables)
    ensures Preserves(t, t)
  {
  }

  lemma PreservesTransitive(a: Tables, b: Tables, c: Tables)
    requires Preserves(a, b) && Preserves(b, c)
    ensures Preserves(a, c)
  {
    forall k | k in a.tokens
      ensures TokenPreserved(a, c, k)
    {
      assert TokenPreserved(a, b, k) && TokenPreserved(b, c, k);
    }
  }

  /** No token is redeemed twice in a run. */
  lemma RedeemedOnce(cfg: Config, states: seq<Server>, actions: seq<Action>, i: nat, j: nat)
    requires Run(cfg, states, actions) && i < |actions| && j < |actions|
    requires actions[i].TokenRedeem? && actions[j].TokenRedeem? && actions[i].token == actions[j].token
    ensures i == j
  {
    if i < j {
      RedeemedBefore(cfg, states, actions, i, j);
    } else if j < i {
      RedeemedBefore(cfg, states, actions, j, i);
    }
  }

  lemma RedeemedBefore(cfg: Config, states: seq<Server>, actions: seq<Action>, i: nat, j: nat)
    requires Run(cfg, states, actions) && i < j < |states|
    requires actions[i].TokenRedeem?
    ensures !Redeemable(states[j].tables, actions[i].token, states[j].now)
  {
    var token := actions[i].token;
    assert Enabled(cfg, states[i], actions[i]);
    assert token in states[i + 1].tables.tokens && states[i + 1].tables.tokens[token].redeemedAt.Some?;
    HistoryKept(cfg, states, actions, i + 1, j);
    assert TokenPreserved(states[i + 1].tables, states[j].tables, token);
  }
}
