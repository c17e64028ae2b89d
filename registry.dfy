/**
 * The link registry of lib/storage.ts as a value: the two maps of
 * `LinkStorage` and the iteration order of the JavaScript `Map` that holds
 * the records, with one function per operation. The class in storage.dfy
 * implements these functions in place.
 */
module Registry {
  import opened Wrappers
  import opened Links
  import opened ShortCode
  import opened Ordering

  /** The one error `createLink` throws. */
  datatype StoreError = AliasExists

  const AliasExistsMessage: string := "Alias already exists"

  function Message(e: StoreError): string
  {
    match e
    case AliasExists => AliasExistsMessage
  }

  /**
   * `links`: short code to record; `aliasMap`: alias to short code;
   * `order`: the keys of `links` in insertion order, the order in which
   * `Array.from(links.values())` lists them.
   */
  datatype Store = Store(links: map<string, LinkData>, aliasMap: map<string, string>, order: seq<string>)

  const Empty: Store := Store(map[], map[], [])

  predicate Distinct(s: seq<string>)
  {
    forall i, j :: 0 <= i < j < |s| ==> s[i] != s[j]
  }

  /**
   * Each record sits under its own short code, its counter matches its
   * history, and a record created without an alias has a generated code.
   */
  predicate RecordsKeyed(st: Store)
  {
    forall c :: c in st.links ==>
      && st.links[c].shortCode == c
      && Consistent(st.links[c])
      && (!Given(st.links[c].alias) ==> IsShortCode(c))
  }

  /**
   * An alias reserves the record stored under that very code, whose alias it
   * is; and a record created with an alias holds its reservation.
   */
  predicate AliasesReserved(st: Store)
  {
    && (forall a :: a in st.aliasMap ==> a != "" && st.aliasMap[a] == a && a in st.links && st.links[a].alias == Some(a))
    && (forall c :: c in st.links && Given(st.links[c].alias) ==> st.links[c].alias.value == c && c in st.aliasMap)
  }

  /** The insertion order lists every key exactly once. */
  predicate OrderListsKeys(st: Store)
  {
    && Distinct(st.order)
    && |st.order| == |st.links|
    && (forall i :: 0 <= i < |st.order| ==> st.order[i] in st.links)
    && (forall c :: c in st.links ==> c in st.order)
  }

  /** The invariants every operation keeps. */
  predicate Valid(st: Store)
  {
    RecordsKeyed(st) && AliasesReserved(st) && OrderListsKeys(st)
  }

  lemma EmptyIsValid()
    ensures Valid(Empty) && AllLinks(Empty) == []
  {
  }

  /** What `createLink` needs of the random source: an unused code when no alias is given. */
  predicate CanCreate(st: Store, alias: Option<string>, attempts: seq<seq<real>>)
  {
    RandomSource(attempts) && (Given(alias) || HasFree(st.links.Keys, attempts))
  }

  /**
   * `createLink(originalUrl, alias)` at time `now`. The short code is fixed
   * as `alias || generateShortCode()` first; the conflict check consults
   * `aliasMap` only, so an alias equal to a generated code that is in use
   * passes and replaces that record.
   */
  function Create(st: Store, originalUrl: string, alias: Option<string>, now: nat, attempts: seq<seq<real>>)
    : (out: (Store, Result<LinkData, StoreError>))
    requires CanCreate(st, alias, attempts)
    ensures out.1.Err? <==> Given(alias) && alias.value in st.aliasMap
    ensures out.1.Err? ==> out.0 == st && out.1.error == AliasExists
    ensures out.1.Ok? ==>
      var rec := out.1.value;
      && rec.id == now && rec.originalUrl == originalUrl && rec.alias == alias && rec.createdAt == now
      && rec.clicks == 0 && rec.clickHistory == []
      && (Given(alias) ==> rec.shortCode == alias.value)
      && (!Given(alias) ==> IsShortCode(rec.shortCode) && rec.shortCode !in st.links)
      && out.0.links == st.links[rec.shortCode := rec]
      && out.0.aliasMap == (if Given(alias) then st.aliasMap[alias.value := rec.shortCode] else st.aliasMap)
      && out.0.order == (if rec.shortCode in st.links then st.order else st.order + [rec.shortCode])
  {
    var shortCode := if Given(alias) then alias.value else FirstFree(st.links.Keys, attempts);
    if Given(alias) && alias.value in st.aliasMap then
      (st, Err(AliasExists))
    else
      var linkData := LinkData(now, originalUrl, shortCode, alias, now, 0, []);
      var aliasMap := if Given(alias) then st.aliasMap[alias.value := shortCode] else st.aliasMap;
      var order := if shortCode in st.links then st.order else st.order + [shortCode];
      (Store(st.links[shortCode := linkData], aliasMap, order), Ok(linkData))
  }

  /** `getLink(shortCode)`. */
  function Lookup(st: Store, code: string): (r: Option<LinkData>)
    ensures r.Some? <==> code in st.links
    ensures r.Some? ==> r.value == st.links[code]
    ensures Valid(st) && r.Some? ==> r.value.shortCode == code && Consistent(r.value)
  {
    if code in st.links then Some(st.links[code]) else None
  }

  /** The records in insertion order. */
  function Values(st: Store): (r: seq<LinkData>)
    requires forall i :: 0 <= i < |st.order| ==> st.order[i] in st.links
    ensures |r| == |st.order|
    ensures forall i :: 0 <= i < |r| ==> r[i] == st.links[st.order[i]]
  {
    seq(|st.order|, i requires 0 <= i < |st.order| => st.links[st.order[i]])
  }

  /** `getAllLinks()`: every stored record exactly once, newest first. */
  function AllLinks(st: Store): (r: seq<LinkData>)
    requires Valid(st)
    ensures NewestFirst(r)
    ensures |r| == |st.links|
    ensures forall c :: c in st.links ==> st.links[c] in r
    ensures forall x :: x in r ==> x.shortCode in st.links && st.links[x.shortCode] == x
    ensures multiset(r) == multiset(Values(st))
  {
    var r := SortNewestFirst(Values(st));
    AllLinksHoldsTheRecords(st, r);
    r
  }

  lemma AllLinksHoldsTheRecords(st: Store, r: seq<LinkData>)
    requires Valid(st) && multiset(r) == multiset(Values(st))
    ensures |r| == |st.links|
    ensures forall c :: c in st.links ==> st.links[c] in r
    ensures forall x :: x in r ==> x.shortCode in st.links && st.links[x.shortCode] == x
  {
    var vs := Values(st);
    assert |r| == |vs| by {
      calc {
        |r|;
        |multiset(r)|;
        |multiset(vs)|;
        |vs|;
      }
    }
    forall c | c in st.links ensures st.links[c] in r {
      var i :| 0 <= i < |st.order| && st.order[i] == c;
      assert vs[i] == st.links[c];
      assert st.links[c] in multiset(vs);
    }
    forall x | x in r ensures x.shortCode in st.links && st.links[x.shortCode] == x {
      assert x in multiset(vs);
      var i :| 0 <= i < |vs| && vs[i] == x;
    }
  }

  /** `trackClick(shortCode, ip, userAgent)` recording event `ev`. */
  function Track(st: Store, code: string, ev: ClickEvent): (st': Store)
    ensures code !in st.links ==> st' == st
    ensures st'.aliasMap == st.aliasMap && st'.order == st.order && st'.links.Keys == st.links.Keys
    ensures code in st.links ==> st'.links[code] == Clicked(st.links[code], ev)
    ensures forall c :: c in st.links && c != code ==> st'.links[c] == st.links[c]
  {
    if code in st.links then st.(links := st.links[code := Clicked(st.links[code], ev)]) else st
  }

  /** `s` without `x`, the order of the rest kept. */
  function Remove(s: seq<string>, x: string): (r: seq<string>)
    ensures forall y :: y in r <==> y in s && y != x
    ensures x !in s ==> r == s
    ensures Distinct(s) ==> Distinct(r)
    ensures Distinct(s) && x in s ==> |r| == |s| - 1
  {
    if s == [] then []
    else if s[0] == x then
      assert Distinct(s) ==> x !in s[1..];
      Remove(s[1..], x)
    else
      var rest := Remove(s[1..], x);
      assert Distinct(s) ==> s[0] !in s[1..] && s[0] !in rest;
      assert Distinct(s) ==> forall i, j :: 0 <= i < j < |rest| ==> rest[i] != rest[j];
      [s[0]] + rest
  }

  /** `deleteLink(shortCode)`: removes the record and releases its alias. */
  function Delete(st: Store, code: string): (out: (Store, bool))
    ensures out.1 <==> code in st.links
    ensures !out.1 ==> out.0 == st
    ensures out.0.links == st.links - {code}
    ensures out.1 && Given(st.links[code].alias) ==> out.0.aliasMap == st.aliasMap - {st.links[code].alias.value}
    ensures out.1 && !Given(st.links[code].alias) ==> out.0.aliasMap == st.aliasMap
    ensures out.1 ==> out.0.order == Remove(st.order, code)
  {
    if code in st.links then
      var link := st.links[code];
      var aliasMap := if Given(link.alias) then st.aliasMap - {link.alias.value} else st.aliasMap;
      (Store(st.links - {code}, aliasMap, Remove(st.order, code)), true)
    else
      (st, false)
  }
}
