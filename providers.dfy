/**
 * The provider repository's rules: the filters of `listProviders` and
 * `matchProviders` over the provider table, and the updates of a stored
 * provider's approval flag, offered categories and service zones.
 */
module Providers {
  import opened Base
  import Sorting

  /**
   * A provider row with its two many-to-many relations: ids of the service
   * categories it offers and zip codes of the zones it serves.
   */
  datatype Provider = Provider(
    id: string,
    companyName: string,
    city: Option<string>,
    state: Option<string>,
    zip: Option<string>,
    approved: bool,
    operatesAM: bool,
    operatesPM: bool,
    categories: set<int>,
    zones: set<string>,
    createdAt: int)

  /** The optional argument object of `listProviders`; `None` is a key left out. */
  datatype ListParams = ListParams(
    approved: Option<bool>,
    categoryId: Option<int>,
    zip: Option<string>,
    operatesAM: Option<bool>,
    operatesPM: Option<bool>,
    search: Option<string>,
    take: Option<nat>,
    skip: Option<nat>)

  const NoParams := ListParams(None, None, None, None, None, None, None, None)

  const ListTake := 50
  const MatchTake := 20

  /** Prisma's error for an update whose `where` matches no row. */
  const ProviderNotFound := Error("Record to update not found.", Some("P2025"))

  /** Prisma's error for a nested `connect` or `set` naming a row that does not exist. */
  const RelatedNotFound := Error("Related record not found.", Some("P2025"))

  /** ASCII case folding, as `mode: 'insensitive'` does for ASCII text. */
  function Lower(c: char): char
  {
    if 'A' <= c <= 'Z' then (c as int + 32) as char else c
  }

  function LowerAll(s: string): (r: string)
    ensures |r| == |s| && forall k :: 0 <= k < |s| ==> r[k] == Lower(s[k])
  {
    if s == [] then [] else [Lower(s[0])] + LowerAll(s[1..])
  }

  /** `needle` occurs in `hay` as a contiguous run. */
  predicate Contains(hay: string, needle: string)
  {
    (|needle| <= |hay| && hay[..|needle|] == needle) || (hay != [] && Contains(hay[1..], needle))
  }

  /** Every run inside a text is found. */
  lemma {:induction false} ContainsRun(prefix: string, needle: string, suffix: string)
    ensures Contains(prefix + needle + suffix, needle)
  {
    var hay := prefix + needle + suffix;
    if prefix == [] {
      assert hay[..|needle|] == needle;
    } else {
      assert hay[1..] == prefix[1..] + needle + suffix;
      ContainsRun(prefix[1..], needle, suffix);
    }
  }

  predicate ContainsInsensitive(field: Option<string>, needle: string)
  {
    field.Some? && Contains(LowerAll(field.value), LowerAll(needle))
  }

  /** The `OR` of the search clause: companyName, city, state or zip contains the text. */
  predicate SearchHits(p: Provider, search: string)
  {
    || ContainsInsensitive(Some(p.companyName), search)
    || ContainsInsensitive(p.city, search)
    || ContainsInsensitive(p.state, search)
    || ContainsInsensitive(p.zip, search)
  }

  /** A flag filter applies when its key is present at all (`!== undefined`). */
  predicate FlagHolds(filter: Option<bool>, value: bool)
  {
    filter.None? || filter.value == value
  }

  /** The value filters apply only when truthy: `0` and `""` count as left out. */
  predicate CategoryHolds(filter: Option<int>, p: Provider)
  {
    filter.None? || filter.value == 0 || filter.value in p.categories
  }

  predicate ZoneHolds(filter: Option<string>, p: Provider)
  {
    filter.None? || filter.value == "" || filter.value in p.zones
  }

  predicate SearchHolds(filter: Option<string>, p: Provider)
  {
    filter.None? || filter.value == "" || SearchHits(p, filter.value)
  }

  /** The `where` clause of `listProviders`. */
  predicate ListMatch(p: Provider, params: ListParams)
  {
    && FlagHolds(params.approved, p.approved)
    && FlagHolds(params.operatesAM, p.operatesAM)
    && FlagHolds(params.operatesPM, p.operatesPM)
    && CategoryHolds(params.categoryId, p)
    && ZoneHolds(params.zip, p)
    && SearchHolds(params.search, p)
  }

  function Filter(ps: seq<Provider>, keep: Provider -> bool): (r: seq<Provider>)
    ensures forall p :: p in r <==> p in ps && keep(p)
    ensures |r| <= |ps|
  {
    if ps == [] then []
    else
      assert forall p :: p in ps <==> p == ps[0] || p in ps[1..];
      if keep(ps[0]) then [ps[0]] + Filter(ps[1..], keep) else Filter(ps[1..], keep)
  }

  function NewestFirst(): (Provider, Provider) -> bool
  {
    (a: Provider, b: Provider) => a.createdAt >= b.createdAt
  }

  function OldestFirst(): (Provider, Provider) -> bool
  {
    (a: Provider, b: Provider) => a.createdAt <= b.createdAt
  }

  function Default(n: Option<nat>, d: nat): nat
  {
    if n.Some? then n.value else d
  }

  /** The providers the filters select, newest first: the order pages are cut from. */
  function NewestMatching(table: seq<Provider>, params: ListParams): (m: seq<Provider>)
    ensures multiset(m) == multiset(Filter(table, p => ListMatch(p, params)))
    ensures |m| == |Filter(table, p => ListMatch(p, params))|
    ensures forall i, j :: 0 <= i < j < |m| ==> m[i].createdAt >= m[j].createdAt
  {
    var matching := Filter(table, p => ListMatch(p, params));
    Sorting.SortBySorted(matching, NewestFirst());
    var m := Sorting.SortBy(matching, NewestFirst());
    assert forall i, j :: 0 <= i < j < |m| ==> NewestFirst()(m[i], m[j]);
    m
  }

  /**
   * `listProviders` with the default ordering: matching providers, newest
   * first, after skipping `skip` (default 0) and at most `take` (default 50).
   * The page is the `take` providers that follow the `skip` newest matches.
   */
  function ListProviders(table: seq<Provider>, params: ListParams): (r: seq<Provider>)
    ensures |r| <= Default(params.take, ListTake)
    ensures var m, skip, take := NewestMatching(table, params), Default(params.skip, 0), Default(params.take, ListTake);
            && |r| == (if skip >= |m| then 0 else if |m| - skip < take then |m| - skip else take)
            && forall k :: 0 <= k < |r| ==> r[k] == m[skip + k]
    ensures forall p :: p in r ==> p in table && ListMatch(p, params)
    ensures forall i, j :: 0 <= i < j < |r| ==> r[i].createdAt >= r[j].createdAt
    ensures Default(params.skip, 0) == 0 && |Filter(table, p => ListMatch(p, params))| <= Default(params.take, ListTake) ==>
              forall p :: p in table && ListMatch(p, params) ==> p in r
  {
    var matching := Filter(table, p => ListMatch(p, params));
    var sorted := NewestMatching(table, params);
    var page := Sorting.Drop(sorted, Default(params.skip, 0));
    var r := Sorting.Take(page, Default(params.take, ListTake));
    PageFacts(sorted, matching, Default(params.skip, 0), Default(params.take, ListTake));
    assert forall k :: 0 <= k < |r| ==> r[k] == page[k];
    r
  }

  /** What a page of a rearrangement holds: elements of the original, all of them for a full first page. */
  lemma {:induction false} PageFacts(sorted: seq<Provider>, matching: seq<Provider>, skip: nat, take: nat)
    requires multiset(sorted) == multiset(matching)
    ensures forall p :: p in Sorting.Take(Sorting.Drop(sorted, skip), take) ==> p in matching
    ensures skip == 0 && |matching| <= take ==> forall p :: p in matching ==> p in Sorting.Take(Sorting.Drop(sorted, skip), take)
  {
    var page := Sorting.Drop(sorted, skip);
    var r := Sorting.Take(page, take);
    forall p | p in r ensures p in matching {
      var i :| 0 <= i < |r| && r[i] == p;
      assert r[i] == page[i] == sorted[skip + i];
      assert p in multiset(sorted);
    }
    if skip == 0 && |matching| <= take {
      assert |sorted| == |multiset(matching)| == |matching|;
      forall p | p in matching ensures p in r {
        assert p in multiset(sorted);
        var k :| 0 <= k < |sorted| && sorted[k] == p;
        assert page[k] == sorted[k];
      }
    }
  }

  /** With no arguments no filter applies: every provider matches. */
  lemma NoParamsMatchAll(p: Provider)
    ensures ListMatch(p, NoParams)
  {
  }

  /** The listing depends on the filters only through which providers they select. */
  lemma {:induction false} ListingBySelection(table: seq<Provider>, p1: ListParams, p2: ListParams)
    requires forall p :: ListMatch(p, p1) == ListMatch(p, p2)
    requires p1.skip == p2.skip && p1.take == p2.take
    ensures ListProviders(table, p1) == ListProviders(table, p2)
  {
    FilterSame(table, p => ListMatch(p, p1), p => ListMatch(p, p2));
  }

  /** `categoryId: 0`, `zip: ""` and `search: ""` select what leaving them out selects. */
  lemma {:induction false} FalsyFiltersAreIgnored(table: seq<Provider>, params: ListParams)
    ensures ListProviders(table, params.(categoryId := Some(0))) == ListProviders(table, params.(categoryId := None))
    ensures ListProviders(table, params.(zip := Some(""))) == ListProviders(table, params.(zip := None))
    ensures ListProviders(table, params.(search := Some(""))) == ListProviders(table, params.(search := None))
  {
    ListingBySelection(table, params.(categoryId := Some(0)), params.(categoryId := None));
    ListingBySelection(table, params.(zip := Some("")), params.(zip := None));
    ListingBySelection(table, params.(search := Some("")), params.(search := None));
  }

  lemma {:induction false} FilterSame(ps: seq<Provider>, f: Provider -> bool, g: Provider -> bool)
    requires forall p :: f(p) == g(p)
    ensures Filter(ps, f) == Filter(ps, g)
  {
    if ps != [] {
      FilterSame(ps[1..], f, g);
    }
  }

  /** Search ignores ASCII case: an upper-cased search text hits what the lower-cased one hits. */
  lemma {:induction false} SearchIgnoresCase(p: Provider, search: string)
    ensures SearchHits(p, search) == SearchHits(p, LowerAll(search))
  {
    LowerIdempotent(search);
  }

  lemma {:induction false} LowerAllAppend(a: string, b: string)
    ensures LowerAll(a + b) == LowerAll(a) + LowerAll(b)
  {
    var l, r := LowerAll(a + b), LowerAll(a) + LowerAll(b);
    assert forall k :: 0 <= k < |a| ==> l[k] == Lower((a + b)[k]) == r[k];
    assert forall k :: |a| <= k < |a + b| ==> l[k] == Lower(b[k - |a|]) == r[k];
  }

  lemma {:induction false} LowerIdempotent(s: string)
    ensures LowerAll(LowerAll(s)) == LowerAll(s)
  {
    var l := LowerAll(s);
    assert forall k :: 0 <= k < |s| ==> LowerAll(l)[k] == Lower(Lower(s[k])) == Lower(s[k]);
  }

  /** A search text that occurs in the company name, in any case, selects that provider. */
  lemma {:induction false} CompanyNameIsSearched(p: Provider, prefix: string, search: string, suffix: string)
    requires p.companyName == prefix + search + suffix
    ensures SearchHits(p, search)
  {
    LowerAllAppend(prefix, search);
    LowerAllAppend(prefix + search, suffix);
    ContainsRun(LowerAll(prefix), LowerAll(search), LowerAll(suffix));
  }

  /** The `where` clause of `matchProviders`; any `ampm` other than "AM" asks for PM. */
  predicate MatchesRequest(p: Provider, categoryId: int, zip: string, ampm: string)
  {
    && p.approved
    && (if ampm == "AM" then p.operatesAM else p.operatesPM)
    && categoryId in p.categories
    && zip in p.zones
  }

  /** The providers that meet the request, oldest first. */
  function OldestMatching(table: seq<Provider>, categoryId: int, zip: string, ampm: string): (m: seq<Provider>)
    ensures multiset(m) == multiset(Filter(table, p => MatchesRequest(p, categoryId, zip, ampm)))
    ensures |m| == |Filter(table, p => MatchesRequest(p, categoryId, zip, ampm))|
    ensures forall i, j :: 0 <= i < j < |m| ==> m[i].createdAt <= m[j].createdAt
  {
    var matching := Filter(table, p => MatchesRequest(p, categoryId, zip, ampm));
    Sorting.SortBySorted(matching, OldestFirst());
    var m := Sorting.SortBy(matching, OldestFirst());
    assert forall i, j :: 0 <= i < j < |m| ==> OldestFirst()(m[i], m[j]);
    m
  }

  /**
   * `matchProviders`: approved providers in the AM or PM window that offer
   * the category and serve the zip, oldest first, at most `take` (default 20):
   * the `take` oldest such providers.
   */
  function MatchProviders(table: seq<Provider>, categoryId: int, zip: string, ampm: string, take: Option<nat>): (r: seq<Provider>)
    ensures var m := OldestMatching(table, categoryId, zip, ampm);
            && |r| == (if |m| < Default(take, MatchTake) then |m| else Default(take, MatchTake))
            && forall k :: 0 <= k < |r| ==> r[k] == m[k]
    ensures forall p :: p in r ==> p in table
    ensures forall p :: p in r ==> p.approved && categoryId in p.categories && zip in p.zones
    ensures forall p :: p in r ==> if ampm == "AM" then p.operatesAM else p.operatesPM
    ensures forall i, j :: 0 <= i < j < |r| ==> r[i].createdAt <= r[j].createdAt
    ensures |Filter(table, p => MatchesRequest(p, categoryId, zip, ampm))| <= Default(take, MatchTake) ==>
              forall p :: p in table && MatchesRequest(p, categoryId, zip, ampm) ==> p in r
  {
    var matching := Filter(table, p => MatchesRequest(p, categoryId, zip, ampm));
    var sorted := OldestMatching(table, categoryId, zip, ampm);
    var r := Sorting.Take(sorted, Default(take, MatchTake));
    PageFacts(sorted, matching, 0, Default(take, MatchTake));
    assert Sorting.Drop(sorted, 0) == sorted;
    r
  }

  /** `connect`: the relation gains the given ids. */
  function CategoriesAdded(p: Provider, ids: seq<int>): (q: Provider)
    ensures q.categories == p.categories + set i | i in ids
    ensures q.(categories := p.categories) == p
  {
    p.(categories := p.categories + set i | i in ids)
  }

  /** `set`: the relation becomes exactly the given ids. */
  function CategoriesSet(p: Provider, ids: seq<int>): (q: Provider)
    ensures forall i :: i in q.categories <==> i in ids
    ensures q.(categories := p.categories) == p
  {
    p.(categories := set i | i in ids)
  }

  /** `disconnect`: the relation loses the given ids. */
  function CategoriesRemoved(p: Provider, ids: seq<int>): (q: Provider)
    ensures forall i :: i in q.categories <==> i in p.categories && i !in ids
    ensures q.(categories := p.categories) == p
  {
    p.(categories := p.categories - set i | i in ids)
  }

  function ZonesAdded(p: Provider, zips: seq<string>): (q: Provider)
    ensures q.zones == p.zones + set z | z in zips
    ensures q.(zones := p.zones) == p
  {
    p.(zones := p.zones + set z | z in zips)
  }

  function ZonesSet(p: Provider, zips: seq<string>): (q: Provider)
    ensures forall z :: z in q.zones <==> z in zips
    ensures q.(zones := p.zones) == p
  {
    p.(zones := set z | z in zips)
  }

  function ZonesRemoved(p: Provider, zips: seq<string>): (q: Provider)
    ensures forall z :: z in q.zones <==> z in p.zones && z !in zips
    ensures q.(zones := p.zones) == p
  {
    p.(zones := p.zones - set z | z in zips)
  }

  /** Adding twice is adding once, and removing what was added leaves the rest as before. */
  lemma CategoryUpdatesCompose(p: Provider, ids: seq<int>)
    ensures CategoriesAdded(CategoriesAdded(p, ids), ids) == CategoriesAdded(p, ids)
    ensures CategoriesRemoved(CategoriesAdded(p, ids), ids) == CategoriesRemoved(p, ids)
    ensures CategoriesRemoved(CategoriesSet(p, ids), ids).categories == {}
    ensures CategoriesSet(CategoriesSet(p, ids), ids) == CategoriesSet(p, ids)
  {
  }

  lemma ZoneUpdatesCompose(p: Provider, zips: seq<string>)
    ensures ZonesAdded(ZonesAdded(p, zips), zips) == ZonesAdded(p, zips)
    ensures ZonesRemoved(ZonesAdded(p, zips), zips) == ZonesRemoved(p, zips)
    ensures ZonesRemoved(ZonesSet(p, zips), zips).zones == {}
    ensures ZonesSet(ZonesSet(p, zips), zips) == ZonesSet(p, zips)
  {
  }

  /**
   * The stored providers by id, with the category and zip-list tables the
   * relations point into.
   */
  class ProviderTable {
    var providers: map<string, Provider>
    var categoryIds: set<int>
    var zipCodes: set<string>

    ghost predicate Valid()
      reads this
    {
      forall id :: id in providers ==> providers[id].id == id
    }

    constructor (categoryIds: set<int>, zipCodes: set<string>)
      ensures Valid() && providers == map[]
      ensures this.categoryIds == categoryIds && this.zipCodes == zipCodes
    {
      providers := map[];
      this.categoryIds := categoryIds;
      this.zipCodes := zipCodes;
    }

    /** `approveProvider(id, approved = true)`: only the flag changes. */
    method ApproveProvider(id: string, approved: Option<bool>) returns (r: Result<Provider, Error>)
      requires Valid()
      modifies this
      ensures Valid() && unchanged(this`categoryIds) && unchanged(this`zipCodes)
      ensures id !in old(providers) ==> r == Failure(ProviderNotFound) && providers == old(providers)
      ensures id in old(providers) ==>
                var q := old(providers)[id].(approved := ApprovedFlag(approved));
                && r == Success(q) && providers == old(providers)[id := q]
    {
      if id !in providers {
        return Failure(ProviderNotFound);
      }
      var q := providers[id].(approved := ApprovedFlag(approved));
      providers := providers[id := q];
      return Success(q);
    }

    /** The common step of the six relation updates: store the updated provider under its id. */
    method Update(id: string, q: Provider) returns (r: Result<Provider, Error>)
      requires Valid() && id in providers && q.id == id
      modifies this`providers
      ensures Valid() && r == Success(q) && providers == old(providers)[id := q]
    {
      providers := providers[id := q];
      return Success(q);
    }

    method AddCategoriesToProvider(id: string, ids: seq<int>) returns (r: Result<Provider, Error>)
      requires Valid()
      modifies this`providers
      ensures Valid()
      ensures id !in old(providers) ==> r == Failure(ProviderNotFound) && providers == old(providers)
      ensures id in old(providers) && !(forall i :: i in ids ==> i in categoryIds) ==>
                r == Failure(RelatedNotFound) && providers == old(providers)
      ensures id in old(providers) && (forall i :: i in ids ==> i in categoryIds) ==>
                var q := CategoriesAdded(old(providers)[id], ids);
                r == Success(q) && providers == old(providers)[id := q]
    {
      if id !in providers {
        return Failure(ProviderNotFound);
      }
      if !(forall i :: i in ids ==> i in categoryIds) {
        return Failure(RelatedNotFound);
      }
      r := Update(id, CategoriesAdded(providers[id], ids));
    }

    method SetCategoriesToProvider(id: string, ids: seq<int>) returns (r: Result<Provider, Error>)
      requires Valid()
      modifies this`providers
      ensures Valid()
      ensures id !in old(providers) ==> r == Failure(ProviderNotFound) && providers == old(providers)
      ensures id in old(providers) && !(forall i :: i in ids ==> i in categoryIds) ==>
                r == Failure(RelatedNotFound) && providers == old(providers)
      ensures id in old(providers) && (forall i :: i in ids ==> i in categoryIds) ==>
                var q := CategoriesSet(old(providers)[id], ids);
                r == Success(q) && providers == old(providers)[id := q]
    {
      if id !in providers {
        return Failure(ProviderNotFound);
      }
      if !(forall i :: i in ids ==> i in categoryIds) {
        return Failure(RelatedNotFound);
      }
      r := Update(id, CategoriesSet(providers[id], ids));
    }

    /** `disconnect` of an id not in the relation is no error. */
    method RemoveCategoriesFromProvider(id: string, ids: seq<int>) returns (r: Result<Provider, Error>)
      requires Valid()
      modifies this`providers
      ensures Valid()
      ensures id !in old(providers) ==> r == Failure(ProviderNotFound) && providers == old(providers)
      ensures id in old(providers) ==>
                var q := CategoriesRemoved(old(providers)[id], ids);
                r == Success(q) && providers == old(providers)[id := q]
    {
      if id !in providers {
        return Failure(ProviderNotFound);
      }
      r := Update(id, CategoriesRemoved(providers[id], ids));
    }

    method AddServiceZonesToProvider(id: string, zips: seq<string>) returns (r: Result<Provider, Error>)
      requires Valid()
      modifies this`providers
      ensures Valid()
      ensures id !in old(providers) ==> r == Failure(ProviderNotFound) && providers == old(providers)
      ensures id in old(providers) && !(forall z :: z in zips ==> z in zipCodes) ==>
                r == Failure(RelatedNotFound) && providers == old(providers)
      ensures id in old(providers) && (forall z :: z in zips ==> z in zipCodes) ==>
                var q := ZonesAdded(old(providers)[id], zips);
                r == Success(q) && providers == old(providers)[id := q]
    {
      if id !in providers {
        return Failure(ProviderNotFound);
      }
      if !(forall z :: z in zips ==> z in zipCodes) {
        return Failure(RelatedNotFound);
      }
      r := Update(id, ZonesAdded(providers[id], zips));
    }

    method SetServiceZonesToProvider(id: string, zips: seq<string>) returns (r: Result<Provider, Error>)
      requires Valid()
      modifies this`providers
      ensures Valid()
      ensures id !in old(providers) ==> r == Failure(ProviderNotFound) && providers == old(providers)
      ensures id in old(providers) && !(forall z :: z in zips ==> z in zipCodes) ==>
                r == Failure(RelatedNotFound) && providers == old(providers)
      ensures id in old(providers) && (forall z :: z in zips ==> z in zipCodes) ==>
                var q := ZonesSet(old(providers)[id], zips);
                r == Success(q) && providers == old(providers)[id := q]
    {
      if id !in providers {
        return Failure(ProviderNotFound);
      }
      if !(forall z :: z in zips ==> z in zipCodes) {
        return Failure(RelatedNotFound);
      }
      r := Update(id, ZonesSet(providers[id], zips));
    }

    method RemoveServiceZonesFromProvider(id: string, zips: seq<string>) returns (r: Result<Provider, Error>)
      requires Valid()
      modifies this`providers
      ensures Valid()
      ensures id !in old(providers) ==> r == Failure(ProviderNotFound) && providers == old(providers)
      ensures id in old(providers) ==>
                var q := ZonesRemoved(old(providers)[id], zips);
                r == Success(q) && providers == old(providers)[id := q]
    {
      if id !in providers {
        return Failure(ProviderNotFound);
      }
      r := Update(id, ZonesRemoved(providers[id], zips));
    }
  }

  /** The `approved = true` default parameter. */
  function ApprovedFlag(approved: Option<bool>): bool
  {
    if approved.Some? then approved.value else true
  }
}
