/**
 * The link record of lib/storage.ts (`LinkData`) and its click events.
 * Timestamps are milliseconds of a caller-supplied clock.
 */
module Links {
  import opened Wrappers

  /** JavaScript truthiness of an optional string: present and not empty. */
  predicate Given(s: Option<string>)
  {
    s.Some? && s.value != ""
  }

  /** One redirect visit: when it happened, and the client's ip and user agent if known. */
  datatype ClickEvent = ClickEvent(timestamp: nat, ip: Option<string>, userAgent: Option<string>)

  datatype LinkData = LinkData(
    id: nat,
    originalUrl: string,
    shortCode: string,
    alias: Option<string>,
    createdAt: nat,
    clicks: nat,
    clickHistory: seq<ClickEvent>)

  /** The counter agrees with the history. */
  predicate Consistent(r: LinkData)
  {
    r.clicks == |r.clickHistory|
  }

  /** The record after one more visit: the counter goes up and the event is appended. */
  function Clicked(r: LinkData, ev: ClickEvent): (r': LinkData)
    ensures r'.clicks == r.clicks + 1
    ensures r'.clickHistory == r.clickHistory + [ev]
    ensures Consistent(r) ==> Consistent(r')
    ensures r'.(clicks := r.clicks, clickHistory := r.clickHistory) == r
  {
    r.(clicks := r.clicks + 1, clickHistory := r.clickHistory + [ev])
  }
}
