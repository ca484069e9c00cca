/**
 * The name lookups of `MaterialServiceClient` for materials, colours and
 * surface finishings: a cache-aside map in front of the material service,
 * with entries that expire 24 hours after they are stored. The HTTP call
 * is an oracle from the request path to what the call produced.
 */
module MaterialCache {
  import opened Wrappers
  import opened Exceptions
  import opened Decimal

  /** 24 hours in .NET ticks of 100 ns. */
  const CacheDuration: int := 24 * 60 * 60 * 10_000_000

  /** The three kinds of name the client looks up. */
  datatype Kind = Material | Color | SurfaceFinishing {

    function KeyPrefix(): string {
      match this
      case Material => "material_"
      case Color => "color_"
      case SurfaceFinishing => "surface_"
    }

    function ResourcePath(): string {
      match this
      case Material => "/api/v1/materials/"
      case Color => "/api/v1/colors/"
      case SurfaceFinishing => "/api/v1/surface-finishings/"
    }
  }

  /** A cached name (possibly a null `Name`) and the instant it stops being served. */
  datatype Entry = Entry(name: Option<string>, expiresAt: int)

  type Cache = map<string, Entry>

  /** The body the material service returns: a DTO whose `Name` may be null. */
  datatype NameDto = NameDto(name: Option<string>)

  /**
   * What the HTTP call produced: a failure (an `HttpRequestException` for a
   * failed request or a non-success status, or any other exception), or the
   * deserialised body, `None` for a null body.
   */
  type Fetch = string -> Result<Option<NameDto>, Exception>

  function CacheKey(kind: Kind, id: int): string {
    kind.KeyPrefix() + IntToString(id)
  }

  function RequestPath(kind: Kind, id: int): string {
    kind.ResourcePath() + IntToString(id)
  }

  /** `TryGetValue`: an entry is served until its absolute expiry. */
  predicate IsFresh(cache: Cache, key: string, now: int) {
    key in cache && now < cache[key].expiresAt
  }

  /** The name returned, the cache after the call, and the requests sent to the material service. */
  datatype Lookup = Lookup(result: Result<Option<string>, Exception>, cache: Cache, requests: seq<string>)

  /**
   * `GetMaterialNameAsync`, `GetColorNameAsync` and
   * `GetSurfaceFinishingNameAsync`: a fresh entry is returned without a
   * request; otherwise the service is asked, a non-null body is cached for
   * 24 hours and its name returned, and a null body or an HTTP failure
   * yields no name and caches nothing. Any other exception escapes.
   */
  function GetName(cache: Cache, kind: Kind, id: int, now: int, fetch: Fetch): (r: Lookup)
    ensures IsFresh(cache, CacheKey(kind, id), now) ==>
              r == Lookup(Ok(cache[CacheKey(kind, id)].name), cache, [])
    ensures !IsFresh(cache, CacheKey(kind, id), now) ==> r.requests == [RequestPath(kind, id)]
    ensures r.cache != cache ==>
              && fetch(RequestPath(kind, id)).Ok? && fetch(RequestPath(kind, id)).value.Some?
              && r.result.Ok? && r.cache == cache[CacheKey(kind, id) := Entry(r.result.value, now + CacheDuration)]
    ensures !IsFresh(cache, CacheKey(kind, id), now) ==>
              match fetch(RequestPath(kind, id))
              case Err(HttpRequest(_)) => r.result == Ok(None) && r.cache == cache
              case Err(e) => r.result == Err(e) && r.cache == cache
              case Ok(None) => r.result == Ok(None) && r.cache == cache
              case Ok(Some(dto)) => r.result == Ok(dto.name)
                                    && r.cache == cache[CacheKey(kind, id) := Entry(dto.name, now + CacheDuration)]
  {
    var key := CacheKey(kind, id);
    if IsFresh(cache, key, now) then
      Lookup(Ok(cache[key].name), cache, [])
    else
      var path := RequestPath(kind, id);
      match fetch(path)
      case Err(HttpRequest(_)) => Lookup(Ok(None), cache, [path])
      case Err(e) => Lookup(Err(e), cache, [path])
      case Ok(None) => Lookup(Ok(None), cache, [path])
      case Ok(Some(dto)) => Lookup(Ok(dto.name), cache[key := Entry(dto.name, now + CacheDuration)], [path])
  }

  /** The keys of different kinds never collide, and within a kind distinct ids have distinct keys. */
  lemma KeysAreNamespaced(k1: Kind, id1: int, k2: Kind, id2: int)
    ensures CacheKey(k1, id1) == CacheKey(k2, id2) <==> k1 == k2 && id1 == id2
  {
    var a, b := CacheKey(k1, id1), CacheKey(k2, id2);
    if a == b {
      assert a[0] == b[0];
      if k1 == k2 {
        var p := k1.KeyPrefix();
        assert IntToString(id1) == a[|p|..] == b[|p|..] == IntToString(id2);
        IntToStringInjective(id1, id2);
      }
    }
  }

  /** A lookup touches only its own key: the entries of every other kind and id are kept. */
  lemma LookupKeepsOtherEntries(cache: Cache, kind: Kind, id: int, now: int, fetch: Fetch, other: Kind, otherId: int)
    requires other != kind || otherId != id
    ensures var after := GetName(cache, kind, id, now, fetch).cache;
            (CacheKey(other, otherId) in after <==> CacheKey(other, otherId) in cache)
            && (CacheKey(other, otherId) in cache ==> after[CacheKey(other, otherId)] == cache[CacheKey(other, otherId)])
  {
    KeysAreNamespaced(kind, id, other, otherId);
  }

  /**
   * A name stored at `now` is served from the cache, without a request and
   * whatever the service would now say, at every instant before 24 hours
   * have passed; from then on the next lookup asks the service again.
   */
  lemma StoredNameServedForADay(cache: Cache, kind: Kind, id: int, now: int, fetch: Fetch, later: int, refetch: Fetch)
    requires fetch(RequestPath(kind, id)).Ok? && fetch(RequestPath(kind, id)).value.Some?
    requires !IsFresh(cache, CacheKey(kind, id), now)
    ensures var first := GetName(cache, kind, id, now, fetch);
            var second := GetName(first.cache, kind, id, later, refetch);
            && first.result == Ok(fetch(RequestPath(kind, id)).value.value.name)
            && (later < now + CacheDuration ==> second == Lookup(first.result, first.cache, []))
            && (later >= now + CacheDuration ==> second.requests == [RequestPath(kind, id)])
  {
  }

  /** A failed lookup caches nothing, so the next lookup asks the service again. */
  lemma FailureIsNotCached(cache: Cache, kind: Kind, id: int, now: int, fetch: Fetch, later: int, refetch: Fetch)
    requires !IsFresh(cache, CacheKey(kind, id), now) && !IsFresh(cache, CacheKey(kind, id), later)
    requires fetch(RequestPath(kind, id)).Err? || fetch(RequestPath(kind, id)).value.None?
    ensures var first := GetName(cache, kind, id, now, fetch);
            first.cache == cache && GetName(first.cache, kind, id, later, refetch).requests == [RequestPath(kind, id)]
  {
  }

  /** An HTTP failure, such as a non-success status, yields no name rather than an exception. */
  lemma HttpFailureYieldsNoName(cache: Cache, kind: Kind, id: int, now: int, fetch: Fetch)
    requires !IsFresh(cache, CacheKey(kind, id), now) && fetch(RequestPath(kind, id)).Err?
    requires fetch(RequestPath(kind, id)).error.HttpRequest?
    ensures GetName(cache, kind, id, now, fetch) == Lookup(Ok(None), cache, [RequestPath(kind, id)])
  {
  }

  /** An example of `KeysAreNamespaced`: the three cache keys of id 7, one per kind. */
  lemma KeysOfSeven()
    ensures CacheKey(Material, 7) == "material_7" && CacheKey(Color, 7) == "color_7"
            && CacheKey(SurfaceFinishing, 7) == "surface_7"
  {
    assert IntToString(7) == "7";
  }
}
