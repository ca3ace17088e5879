/** Stage 1 on the wire: crates/blankres-report/src/event.rs. */
module Events {
  import opened Base

  type Uuid = nat

  /** A stage-1 event. `entry` is the journal entry it reports (None for a kernel oops or a package
      failure); it identifies the crash across retries and is not a wire field. */
  datatype CrashEvent = CrashEvent(
    entry: Option<nat>,
    signature: string,
    timestamp: nat,
    executable: string,
    crashCount: nat,
    coreAvailable: bool,
    coreSize: Option<nat>)

  /** The server's answer to one event. */
  datatype Directive = Directive(
    id: Option<Uuid>,
    needPayload: bool,
    uploadToken: Option<string>,
    maxBytes: Option<nat>,
    expiresAt: Option<int>)
  {
    predicate IsActionable(now: int) {
      needPayload && uploadToken.Some? && (expiresAt.Some? ==> now < expiresAt.value)
    }
  }

  function NotNeeded(id: Uuid): Directive {
    Directive(Some(id), false, None, None, None)
  }
}
