/**
 * What the two background workers see of the browser: the outcome of opening
 * a tab, of waiting for it to load, and the text `String(error)` gives for
 * the errors they throw.
 */
module Browser {
  import opened Wrappers

  /** What `chrome.tabs.create` did: a tab (whose id may be missing), or a rejection. */
  datatype TabCreation = Created(id: Option<nat>) | CreateFailed(error: string)

  /** Whether the tab reported "complete" before the 30-second timeout. */
  datatype Load = Loaded | LoadTimedOut

  /** Thrown when the created tab has no id. */
  const NoTabIdMessage: string := "タブIDが取得できません"

  /** Thrown when a tab does not finish loading in time. */
  const PageLoadTimeoutMessage: string := "Page load timeout"

  /** `String(error)` for an Error carrying `message`. */
  function ErrorText(message: string): string {
    "Error: " + message
  }

  /** A tab id as a condition sees it: 0 and a missing id are falsy. */
  function TruthyId(id: Option<nat>): Option<nat> {
    if id.Some? && id.value != 0 then id else None
  }
}
