/** The four tables and their transactions: crates/blankres-server/src/db.rs and
    migrations/0001_init.sql. Each transaction is one function on the tables, and one method of
    `Database` that performs its statements in order. */
module Database {
  import opened Base
  import opened Counting
  import opened Events
  import opened Storage

  datatype SignatureRow = SignatureRow(events: nat, payloads: nat, suppressed: bool)
  datatype EventRow = EventRow(event: CrashEvent, payloadWanted: bool)
  datatype TokenRow = TokenRow(eventId: Uuid, signature: string, maxBytes: int, expiresAt: int, redeemedAt: Option<int>)
  datatype ReportRow = ReportRow(eventId: Uuid, signature: string, totalBytes: nat, metadata: Bytes, blobs: map<string, Blob>)

  datatype Tables = Tables(
    signatures: map<string, SignatureRow>,
    events: map<Uuid, EventRow>,
    tokens: map<string, TokenRow>,
    reports: map<Uuid, ReportRow>)

  datatype DbError = UniqueViolation | ForeignKeyViolation

  datatype EventOutcome = EventOutcome(eventId: Uuid, needPayload: bool, signatureEvents: nat, signaturePayloads: nat)

  datatype RedeemedToken = RedeemedToken(eventId: Uuid, signature: string, maxBytes: int)

  const EMPTY := Tables(map[], map[], map[], map[])

  /** The signature row an event finds or creates. */
  function RowOf(t: Tables, signature: string): SignatureRow {
    if signature in t.signatures then t.signatures[signature] else SignatureRow(0, 0, false)
  }

  /** The payload decision of `record_event`, read before this event's own payload exists. */
  predicate NeedPayload(t: Tables, event: CrashEvent, quota: int) {
    var row := RowOf(t, event.signature);
    event.coreAvailable && !row.suppressed && row.payloads < quota
  }

  /** The tables after `record_event` commits. */
  function WithEvent(t: Tables, event: CrashEvent, quota: int, id: Uuid): Tables {
    var row := RowOf(t, event.signature);
    t.(signatures := t.signatures[event.signature := row.(events := row.events + 1)],
       events := t.events[id := EventRow(event, NeedPayload(t, event, quota))])
  }

  predicate CanIssue(t: Tables, token: string, id: Uuid, signature: string) {
    token !in t.tokens && id in t.events && signature in t.signatures
  }

  function WithToken(t: Tables, token: string, row: TokenRow): Tables {
    t.(tokens := t.tokens[token := row])
  }

  /** The guard of the redeeming UPDATE. */
  predicate Redeemable(t: Tables, token: string, now: int) {
    token in t.tokens && t.tokens[token].redeemedAt.None? && t.tokens[token].expiresAt > now
  }

  function Redeemed(t: Tables, token: string, now: int): Tables
    requires token in t.tokens
  {
    t.(tokens := t.tokens[token := t.tokens[token].(redeemedAt := Some(now))])
  }

  predicate CanReport(t: Tables, id: Uuid, row: ReportRow) {
    id !in t.reports && row.eventId in t.events && row.signature in t.signatures
  }

  /** The tables after `record_report` commits: one more row, one more payload. */
  function WithReport(t: Tables, id: Uuid, row: ReportRow): Tables
    requires row.signature in t.signatures
  {
    var s := t.signatures[row.signature];
    t.(reports := t.reports[id := row],
       signatures := t.signatures[row.signature := s.(payloads := s.payloads + 1)])
  }

  class Database {
    var signatures: map<string, SignatureRow>
    var events: map<Uuid, EventRow>
    var tokens: map<string, TokenRow>
    var reports: map<Uuid, ReportRow>

    ghost function Contents(): Tables
      reads this
    {
      Tables(signatures, events, tokens, reports)
    }

    constructor ()
      ensures Contents() == EMPTY
    {
      signatures, events, tokens, reports := map[], map[], map[], map[];
    }

    /** Upsert the signature, decide, insert the event; a failing insert rolls the upsert back. */
    method RecordEvent(event: CrashEvent, quota: int, id: Uuid) returns (r: Result<EventOutcome, DbError>)
      modifies this
      ensures r.Ok? <==> id !in old(events)
      ensures r.Ok? ==> Contents() == WithEvent(old(Contents()), event, quota, id)
      ensures r.Ok? ==>
        var before := RowOf(old(Contents()), event.signature);
        r.value == EventOutcome(id, NeedPayload(old(Contents()), event, quota), before.events + 1, before.payloads)
      ensures r.Ok? && event.signature in old(signatures) ==>
        var row := old(signatures)[event.signature];
        r.value.needPayload == (event.coreAvailable && !row.suppressed && row.payloads < quota)
      ensures r.Ok? && event.signature !in old(signatures) ==> r.value.needPayload == (event.coreAvailable && 0 < quota)
      ensures r.Err? ==> Contents() == old(Contents())
    {
      var begun := signatures;
      if event.signature in signatures {
        var row := signatures[event.signature];
        signatures := signatures[event.signature := row.(events := row.events + 1)];
      } else {
        signatures := signatures[event.signature := SignatureRow(1, 0, false)];
      }
      var returned := signatures[event.signature];
      var needPayload := event.coreAvailable && !returned.suppressed && returned.payloads < quota;
      if id in events {
        signatures := begun;
        return Err(UniqueViolation);
      }
      events := events[id := EventRow(event, needPayload)];
      return Ok(EventOutcome(id, needPayload, returned.events, returned.payloads));
    }

    /** One more capability, unless its name is taken or what it refers to is missing. */
    method IssueUploadToken(token: string, id: Uuid, signature: string, maxBytes: nat, appNow: int, ttl: int)
        returns (r: Result<int, DbError>)
      requires maxBytes < U64_LIMIT
      modifies this
      ensures r.Ok? <==> token !in old(tokens) && id in old(events) && signature in old(signatures)
      ensures r.Ok? ==> r.value == appNow + ttl
      ensures r.Ok? ==> Contents() == WithToken(old(Contents()), token, TokenRow(id, signature, AsI64(maxBytes), appNow + ttl, None))
      ensures r.Err? ==> Contents() == old(Contents())
    {
      var expiresAt := appNow + ttl;
      if token in tokens {
        return Err(UniqueViolation);
      }
      if id !in events || signature !in signatures {
        return Err(ForeignKeyViolation);
      }
      tokens := tokens[token := TokenRow(id, signature, AsI64(maxBytes), expiresAt, None)];
      return Ok(expiresAt);
    }

    /** Spend a live token. Whatever the answer, it cannot be spent afterwards. */
    method RedeemUploadToken(token: string, now: int) returns (r: Option<RedeemedToken>)
      modifies this
      ensures r.Some? <==> token in old(tokens) && old(tokens)[token].redeemedAt.None? && now < old(tokens)[token].expiresAt
      ensures r.Some? ==> Contents() == Redeemed(old(Contents()), token, now)
      ensures r.Some? ==> var row := old(tokens)[token]; r.value == RedeemedToken(row.eventId, row.signature, row.maxBytes)
      ensures r.None? ==> Contents() == old(Contents())
      ensures !Redeemable(Contents(), token, now)
    {
      if token in tokens {
        var row := tokens[token];
        if row.redeemedAt.None? && row.expiresAt > now {
          tokens := tokens[token := row.(redeemedAt := Some(now))];
          return Some(RedeemedToken(row.eventId, row.signature, row.maxBytes));
        }
      }
      return None;
    }

    /** The report row and the payload count of its signature change together or not at all. */
    method RecordReport(id: Uuid, row: ReportRow) returns (r: Result<(), DbError>)
      modifies this
      ensures r.Ok? <==> id !in old(reports) && row.eventId in old(events) && row.signature in old(signatures)
      ensures r.Ok? ==> Contents() == WithReport(old(Contents()), id, row)
      ensures r.Err? ==> Contents() == old(Contents())
    {
      if id in reports {
        return Err(UniqueViolation);
      }
      if row.eventId !in events || row.signature !in signatures {
        return Err(ForeignKeyViolation);
      }
      reports := reports[id := row];
      var s := signatures[row.signature];
      signatures := signatures[row.signature := s.(payloads := s.payloads + 1)];
      return Ok(());
    }
  }
}
