/**
 * What the registry promises across calls: the invariants are kept by every
 * operation, and the multi-call behaviours a caller relies on hold for every input.
 */
module RegistryLaws {
  import opened Wrappers
  import opened Links
  import opened ShortCode
  import opened Ordering
  import opened Registry

  lemma CreatePreservesValid(st: Store, url: string, alias: Option<string>, now: nat, attempts: seq<seq<real>>)
    requires Valid(st) && CanCreate(st, alias, attempts)
    ensures Valid(Create(st, url, alias, now, attempts).0)
  {
    CreateKeepsRecords(st, url, alias, now, attempts);
    CreateKeepsAliases(st, url, alias, now, attempts);
    CreateKeepsOrder(st, url, alias, now, attempts);
  }

  lemma CreateKeepsRecords(st: Store, url: string, alias: Option<string>, now: nat, attempts: seq<seq<real>>)
    requires RecordsKeyed(st) && CanCreate(st, alias, attempts)
    ensures RecordsKeyed(Create(st, url, alias, now, attempts).0)
  {
  }

  lemma CreateKeepsAliases(st: Store, url: string, alias: Option<string>, now: nat, attempts: seq<seq<real>>)
    requires AliasesReserved(st) && RecordsKeyed(st) && CanCreate(st, alias, attempts)
    ensures AliasesReserved(Create(st, url, alias, now, attempts).0)
  {
  }

  lemma CreateKeepsOrder(st: Store, url: string, alias: Option<string>, now: nat, attempts: seq<seq<real>>)
    requires OrderListsKeys(st) && CanCreate(st, alias, attempts)
    ensures OrderListsKeys(Create(st, url, alias, now, attempts).0)
  {
    var (st', r) := Create(st, url, alias, now, attempts);
    if r.Ok? {
      var code := r.value.shortCode;
      if code !in st.links {
        assert |st'.links| == |st'.links.Keys| == |st.links.Keys| + 1;
        forall i, j | 0 <= i < j < |st'.order| ensures st'.order[i] != st'.order[j] {
          if j == |st.order| {
            assert st'.order[i] == st.order[i];
          }
        }
      } else {
        assert st'.links.Keys == st.links.Keys;
        assert |st'.links| == |st'.links.Keys| == |st.links.Keys|;
      }
    }
  }

  lemma TrackPreservesValid(st: Store, code: string, ev: ClickEvent)
    requires Valid(st)
    ensures Valid(Track(st, code, ev))
  {
    TrackKeepsRecords(st, code, ev);
    TrackKeepsOrder(st, code, ev);
  }

  lemma TrackKeepsRecords(st: Store, code: string, ev: ClickEvent)
    requires RecordsKeyed(st)
    ensures RecordsKeyed(Track(st, code, ev))
  {
  }

  lemma TrackKeepsOrder(st: Store, code: string, ev: ClickEvent)
    requires OrderListsKeys(st)
    ensures OrderListsKeys(Track(st, code, ev))
  {
    var st' := Track(st, code, ev);
    assert |st'.links| == |st'.links.Keys| == |st.links.Keys| == |st.links|;
  }

  /** Deleting keeps the invariants and frees exactly the deleted code as an alias. */
  lemma DeletePreservesValid(st: Store, code: string)
    requires Valid(st)
    ensures Valid(Delete(st, code).0)
    ensures Delete(st, code).0.aliasMap == st.aliasMap - {code}
  {
    var (st', removed) := Delete(st, code);
    if removed {
      DeleteKeepsAliases(st, st', code);
      DeleteKeepsOrder(st, st', code);
    } else {
      assert st.aliasMap - {code} == st.aliasMap;
    }
  }

  lemma DeleteKeepsAliases(st: Store, st': Store, code: string)
    requires AliasesReserved(st) && code in st.links
    requires st'.links == st.links - {code}
    requires st'.aliasMap == if Given(st.links[code].alias) then st.aliasMap - {st.links[code].alias.value} else st.aliasMap
    ensures AliasesReserved(st')
    ensures st'.aliasMap == st.aliasMap - {code}
  {
  }

  lemma DeleteKeepsOrder(st: Store, st': Store, code: string)
    requires OrderListsKeys(st) && code in st.links
    requires st'.links == st.links - {code}
    requires st'.order == Remove(st.order, code)
    ensures OrderListsKeys(st')
  {
    assert st'.links.Keys == st.links.Keys - {code};
    assert |st'.links| == |st'.links.Keys| == |st.links.Keys| - 1;
    forall i | 0 <= i < |st'.order| ensures st'.order[i] in st'.links {
      assert st'.order[i] in st'.order;
    }
  }

  /** After a successful create, `getLink` finds the new record and the alias points at it. */
  lemma CreateThenLookup(st: Store, url: string, alias: Option<string>, now: nat, attempts: seq<seq<real>>)
    requires Valid(st) && CanCreate(st, alias, attempts)
    requires !(Given(alias) && alias.value in st.aliasMap)
    ensures var (st', r) := Create(st, url, alias, now, attempts);
      && Valid(st')
      && Lookup(st', r.value.shortCode) == Some(r.value)
      && (Given(alias) ==> st'.aliasMap[alias.value] == r.value.shortCode)
      && r.value in AllLinks(st')
  {
    CreatePreservesValid(st, url, alias, now, attempts);
  }

  /** A second create with the same alias fails and leaves the store as the first left it. */
  lemma AliasTakenTwice(st: Store, url1: string, url2: string, alias: Option<string>, t1: nat, t2: nat,
                        attempts: seq<seq<real>>)
    requires Valid(st) && Given(alias) && RandomSource(attempts)
    requires Create(st, url1, alias, t1, attempts).1.Ok?
    ensures var st1 := Create(st, url1, alias, t1, attempts).0;
      Create(st1, url2, alias, t2, attempts) == (st1, Err(AliasExists))
  {
  }

  lemma DeleteThenLookup(st: Store, code: string)
    ensures Lookup(Delete(st, code).0, code) == None
  {
  }

  /** Deleting an aliased record releases the alias: creating with it again succeeds. */
  lemma DeleteReleasesAlias(st: Store, code: string, url: string, now: nat, attempts: seq<seq<real>>)
    requires Valid(st) && code in st.links && Given(st.links[code].alias) && RandomSource(attempts)
    ensures var st' := Delete(st, code).0;
      var alias := st.links[code].alias;
      Create(st', url, alias, now, attempts).1.Ok?
  {
    DeletePreservesValid(st, code);
  }

  /**
   * The conflict check consults `aliasMap` only: an alias equal to a
   * generated code in use passes it and the new record replaces the old one,
   * which disappears from the listing.
   */
  lemma AliasReplacesGeneratedRecord(st: Store, c: string, url: string, now: nat, attempts: seq<seq<real>>)
    requires Valid(st) && c in st.links && !Given(st.links[c].alias) && c != "" && RandomSource(attempts)
    ensures var (st', r) := Create(st, url, Some(c), now, attempts);
      && r.Ok? && r.value.shortCode == c
      && st'.links[c].originalUrl == url
      && |st'.links| == |st.links| && st'.order == st.order
      && Valid(st') && st.links[c] !in AllLinks(st')
  {
    var (st', r) := Create(st, url, Some(c), now, attempts);
    CreatePreservesValid(st, url, Some(c), now, attempts);
    assert st'.links.Keys == st.links.Keys;
  }

  /** A visit to `code`, as the redirect route reports it. */
  datatype Visit = Visit(code: string, event: ClickEvent)

  /** The store after the visits, in order. */
  function TrackAll(st: Store, visits: seq<Visit>): (st': Store)
    decreases |visits|
    ensures st'.links.Keys == st.links.Keys && st'.aliasMap == st.aliasMap && st'.order == st.order
  {
    if visits == [] then st else TrackAll(Track(st, visits[0].code, visits[0].event), visits[1..])
  }

  /** The events of the visits to `code`, in order. */
  function EventsFor(visits: seq<Visit>, code: string): (evs: seq<ClickEvent>)
    ensures evs == [] <==> forall i :: 0 <= i < |visits| ==> visits[i].code != code
  {
    if visits == [] then []
    else if visits[0].code == code then [visits[0].event] + EventsFor(visits[1..], code)
    else EventsFor(visits[1..], code)
  }

  /**
   * However the visits to different codes interleave, each record gains
   * exactly the events of its own visits, in order, and one click per visit.
   */
  lemma {:induction false} ClicksAreCounted(st: Store, visits: seq<Visit>, code: string)
    requires code in st.links
    decreases |visits|
    ensures var r := TrackAll(st, visits).links[code];
      && r.clickHistory == st.links[code].clickHistory + EventsFor(visits, code)
      && r.clicks == st.links[code].clicks + |EventsFor(visits, code)|
      && r.(clicks := st.links[code].clicks, clickHistory := st.links[code].clickHistory) == st.links[code]
  {
    if visits != [] {
      var st1 := Track(st, visits[0].code, visits[0].event);
      ClicksAreCounted(st1, visits[1..], code);
    }
  }

  lemma {:induction false} TrackAllPreservesValid(st: Store, visits: seq<Visit>)
    requires Valid(st)
    decreases |visits|
    ensures Valid(TrackAll(st, visits))
  {
    if visits != [] {
      TrackPreservesValid(st, visits[0].code, visits[0].event);
      TrackAllPreservesValid(Track(st, visits[0].code, visits[0].event), visits[1..]);
    }
  }

  /** A new record visited N times has N clicks and exactly those N events. */
  lemma NewRecordCountsItsVisits(st: Store, url: string, alias: Option<string>, now: nat,
                                 attempts: seq<seq<real>>, visits: seq<Visit>)
    requires Valid(st) && CanCreate(st, alias, attempts)
    requires !(Given(alias) && alias.value in st.aliasMap)
    ensures var (st1, r) := Create(st, url, alias, now, attempts);
      var rec := TrackAll(st1, visits).links[r.value.shortCode];
      && rec.clicks == |rec.clickHistory| == |EventsFor(visits, r.value.shortCode)|
      && rec.clickHistory == EventsFor(visits, r.value.shortCode)
  {
    var (st1, r) := Create(st, url, alias, now, attempts);
    ClicksAreCounted(st1, visits, r.value.shortCode);
  }

  /**
   * A record created later than every stored record comes first in the
   * listing, whether it was added or replaced a record (see
   * AliasReplacesGeneratedRecord).
   */
  lemma CreatedIsListedFirst(st: Store, url: string, alias: Option<string>, now: nat, attempts: seq<seq<real>>)
    requires Valid(st) && CanCreate(st, alias, attempts)
    requires !(Given(alias) && alias.value in st.aliasMap)
    requires forall c :: c in st.links ==> st.links[c].createdAt < now
    ensures var (st', r) := Create(st, url, alias, now, attempts);
      Valid(st') && |AllLinks(st')| > 0 && AllLinks(st')[0] == r.value
  {
    var (st', r) := Create(st, url, alias, now, attempts);
    CreatePreservesValid(st, url, alias, now, attempts);
    var all := AllLinks(st');
    forall y | y in all && y != r.value ensures y.createdAt < now {
      assert y.shortCode != r.value.shortCode;
    }
    NewestAloneIsFirst(all, r.value);
  }
}
