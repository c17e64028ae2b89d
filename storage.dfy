/**
 * `LinkStorage` of lib/storage.ts: the two maps as fields updated in place.
 * Each operation is proved to move the fields exactly as the matching
 * function of module Registry says, and to keep Registry.Valid.
 */
module Storage {
  import opened Wrappers
  import opened Links
  import opened ShortCode
  import opened Ordering
  import opened Registry
  import opened RegistryLaws

  class LinkStorage {
    var links: map<string, LinkData>
    var aliasMap: map<string, string>
    /** The iteration order of the JavaScript `Map` in `links`: its keys in insertion order. */
    var order: seq<string>

    function State(): Store
      reads this
    {
      Store(links, aliasMap, order)
    }

    ghost predicate Valid()
      reads this
    {
      Registry.Valid(State())
    }

    constructor ()
      ensures State() == Empty && Valid()
    {
      links := map[];
      aliasMap := map[];
      order := [];
      EmptyIsValid();
    }

    method CreateLink(originalUrl: string, alias: Option<string>, now: nat, attempts: seq<seq<real>>)
      returns (r: Result<LinkData, StoreError>)
      requires Valid() && CanCreate(State(), alias, attempts)
      modifies this
      ensures (State(), r) == Create(old(State()), originalUrl, alias, now, attempts)
      ensures Valid()
    {
      ghost var before := State();
      var shortCode: string;
      if Given(alias) {
        shortCode := alias.value;
      } else {
        shortCode := GenerateShortCode(attempts);
      }
      if Given(alias) && alias.value in aliasMap {
        return Err(AliasExists);
      }
      var linkData := LinkData(now, originalUrl, shortCode, alias, now, 0, []);
      if shortCode !in links {
        order := order + [shortCode];
      }
      links := links[shortCode := linkData];
      if Given(alias) {
        aliasMap := aliasMap[alias.value := shortCode];
      }
      r := Ok(linkData);
      CreatePreservesValid(before, originalUrl, alias, now, attempts);
    }

    function GetLink(shortCode: string): (r: Option<LinkData>)
      reads this
      ensures r == Lookup(State(), shortCode)
    {
      if shortCode in links then Some(links[shortCode]) else None
    }

    /** The records in `order`, sorted newest first: Registry.AllLinks of the fields. */
    function GetAllLinks(): (r: seq<LinkData>)
      reads this
      requires Valid()
      ensures r == AllLinks(State())
      ensures NewestFirst(r) && |r| == |links|
      ensures forall c :: c in links ==> links[c] in r
    {
      AllLinks(State())
    }

    method TrackClick(shortCode: string, ip: Option<string>, userAgent: Option<string>, now: nat)
      requires Valid()
      modifies this
      ensures State() == Track(old(State()), shortCode, ClickEvent(now, ip, userAgent))
      ensures Valid()
    {
      ghost var before := State();
      if shortCode in links {
        var link := links[shortCode];
        link := link.(clicks := link.clicks + 1);
        link := link.(clickHistory := link.clickHistory + [ClickEvent(now, ip, userAgent)]);
        links := links[shortCode := link];
      }
      TrackPreservesValid(before, shortCode, ClickEvent(now, ip, userAgent));
    }

    method DeleteLink(shortCode: string) returns (deleted: bool)
      requires Valid()
      modifies this
      ensures (State(), deleted) == Delete(old(State()), shortCode)
      ensures Valid()
    {
      ghost var before := State();
      DeletePreservesValid(before, shortCode);
      if shortCode in links {
        var link := links[shortCode];
        if Given(link.alias) {
          aliasMap := aliasMap - {link.alias.value};
        }
        links := links - {shortCode};
        order := Remove(order, shortCode);
        return true;
      }
      return false;
    }

    /** Draws attempts until one spells a code not in `links`. */
    method GenerateShortCode(attempts: seq<seq<real>>) returns (code: string)
      requires RandomSource(attempts) && HasFree(links.Keys, attempts)
      ensures code == FirstFree(links.Keys, attempts)
    {
      var k := 0;
      code := BuildCode(attempts[0]);
      while code in links
        invariant 0 <= k < |attempts|
        invariant code == CodeOf(attempts[k])
        invariant HasFree(links.Keys, attempts[k..])
        invariant FirstFree(links.Keys, attempts[k..]) == FirstFree(links.Keys, attempts)
        decreases |attempts| - k
      {
        assert attempts[k..][1..] == attempts[k + 1..];
        k := k + 1;
        code := BuildCode(attempts[k]);
      }
    }
  }
}
