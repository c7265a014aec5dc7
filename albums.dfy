/**
 * The album registry as a value: the state `ImmichClient._get_or_create_album`
 * and `load_existing_albums` update (the name-to-id cache, the set of names
 * already counted, the created and existing album lists and their counters),
 * and one resolution step as a function of it.
 */
module Albums {
  import opened Wrappers

  datatype Album = Album(name: string, id: string)

  datatype Registry = Registry(
    cache: map<string, string>,
    tracked: set<string>,
    created: seq<Album>,
    existing: seq<Album>,
    albumsCreated: nat,
    albumsExisting: nat)

  const EmptyRegistry := Registry(map[], {}, [], [], 0, 0)

  function NameSet(albums: seq<Album>): set<string> {
    set a | a in albums :: a.name
  }

  predicate DistinctAlbumNames(albums: seq<Album>) {
    forall j, k :: 0 <= j < k < |albums| ==> albums[j].name != albums[k].name
  }

  /**
   * What every resolution keeps: each counter is the length of its list, no name
   * is listed twice as created or twice as existing, every created name is cached,
   * and the names counted as existing are exactly the tracked ones, all cached.
   */
  predicate RegistryValid(r: Registry) {
    r.albumsCreated == |r.created| && r.albumsExisting == |r.existing| &&
    DistinctAlbumNames(r.created) && DistinctAlbumNames(r.existing) &&
    NameSet(r.created) <= r.cache.Keys &&
    NameSet(r.existing) == r.tracked && r.tracked <= r.cache.Keys
  }

  /**
   * `_get_or_create_album(title)` run alone, with `create` the outcome of the
   * remote creation (Some(id) for a 201 answer carrying an id, None for any
   * other answer or an exception). Returns the new registry and the album id,
   * "" when creation failed.
   */
  function Resolve(r: Registry, title: string, create: Option<string>): (Registry, string) {
    if title in r.cache then
      var id := r.cache[title];
      if title !in r.tracked then
        var existing := if title !in NameSet(r.existing) then r.existing + [Album(title, id)] else r.existing;
        (r.(tracked := r.tracked + {title}, albumsExisting := r.albumsExisting + 1, existing := existing), id)
      else (r, id)
    else
      match create
      case Some(id) =>
        (r.(cache := r.cache[title := id], albumsCreated := r.albumsCreated + 1, created := r.created + [Album(title, id)]), id)
      case None => (r, "")
  }

  lemma NameSetAppend(albums: seq<Album>, a: Album)
    ensures NameSet(albums + [a]) == NameSet(albums) + {a.name}
  {
    assert forall b :: b in albums + [a] <==> b in albums || b == a;
  }

  /** A resolution keeps the registry invariant. */
  lemma ResolveValid(r: Registry, title: string, create: Option<string>)
    requires RegistryValid(r)
    ensures RegistryValid(Resolve(r, title, create).0)
  {
    if title in r.cache {
      if title !in r.tracked {
        NameSetAppend(r.existing, Album(title, r.cache[title]));
        var e := r.existing;
        forall j | 0 <= j < |e| ensures e[j].name != title {
          assert e[j] in e;
        }
      }
    } else if create.Some? {
      NameSetAppend(r.created, Album(title, create.value));
      var c := r.created;
      forall j | 0 <= j < |c| ensures c[j].name != title {
        assert c[j] in c;
      }
    }
  }

  /**
   * What one resolution does: a cached title returns its cached id and creates
   * nothing; an uncached one is created exactly when `create` carries an id,
   * which is then cached, listed and returned; otherwise "" and no change.
   */
  lemma ResolveEffect(r: Registry, title: string, create: Option<string>)
    requires RegistryValid(r)
    ensures var (r', id) := Resolve(r, title, create);
      r.cache.Keys <= r'.cache.Keys &&
      (title in r.cache ==>
        id == r.cache[title] && r'.cache == r.cache && r'.created == r.created &&
        r'.albumsExisting == r.albumsExisting + (if title in r.tracked then 0 else 1) &&
        title in r'.tracked) &&
      (title !in r.cache && create.Some? ==>
        id == create.value && r'.cache == r.cache[title := id] &&
        r'.created == r.created + [Album(title, id)] && r'.albumsCreated == r.albumsCreated + 1 &&
        r'.existing == r.existing && r'.albumsExisting == r.albumsExisting) &&
      (title !in r.cache && create.None? ==> id == "" && r' == r)
  {
  }

  /** A sequence of resolutions, in order. */
  function ResolveAll(r: Registry, requests: seq<(string, Option<string>)>): Registry
    decreases |requests|
  {
    if requests == [] then r
    else
      var last := requests[|requests| - 1];
      Resolve(ResolveAll(r, requests[..|requests| - 1]), last.0, last.1).0
  }

  /** Resolving `a` and then `b` is resolving `a + b`. */
  lemma {:induction false} ResolveAllAppend(r: Registry, a: seq<(string, Option<string>)>, b: seq<(string, Option<string>)>)
    decreases |b|
    ensures ResolveAll(r, a + b) == ResolveAll(ResolveAll(r, a), b)
  {
    if b == [] {
      assert a + b == a;
    } else {
      var init := b[..|b| - 1];
      assert (a + b)[..|a + b| - 1] == a + init;
      assert (a + b)[|a + b| - 1] == b[|b| - 1];
      ResolveAllAppend(r, a, init);
    }
  }

  /**
   * Across any run of resolutions: the invariant holds, so no title is ever
   * created twice and `albums_created == len(created_albums)`; the cache only
   * grows; every album created during the run was requested and absent from the
   * cache when the run began.
   */
  lemma {:induction false} ResolveAllCreatesOnce(r: Registry, requests: seq<(string, Option<string>)>)
    requires RegistryValid(r)
    decreases |requests|
    ensures var r' := ResolveAll(r, requests);
      RegistryValid(r') && r.cache.Keys <= r'.cache.Keys &&
      |r.created| <= |r'.created| && r'.created[..|r.created|] == r.created &&
      forall k :: |r.created| <= k < |r'.created| ==>
        r'.created[k].name !in r.cache &&
        exists j :: 0 <= j < |requests| && requests[j].0 == r'.created[k].name
  {
    if requests != [] {
      var init := requests[..|requests| - 1];
      var (title, create) := requests[|requests| - 1];
      ResolveAllCreatesOnce(r, init);
      var r1 := ResolveAll(r, init);
      ResolveValid(r1, title, create);
      ResolveEffect(r1, title, create);
      var r' := Resolve(r1, title, create).0;
      assert r'.created[..|r1.created|] == r1.created;
      forall k | |r.created| <= k < |r'.created|
        ensures r'.created[k].name !in r.cache
        ensures exists j :: 0 <= j < |requests| && requests[j].0 == r'.created[k].name
      {
        if k < |r1.created| {
          assert r'.created[k] == r1.created[k];
          var j :| 0 <= j < |init| && init[j].0 == r1.created[k].name;
          assert requests[j].0 == r'.created[k].name;
        } else {
          assert r'.created[k] == Album(title, create.value);
          assert requests[|requests| - 1].0 == r'.created[k].name;
        }
      }
    }
  }

  /**
   * The three files of one new album, resolved in turn from an empty registry:
   * the album is created once and, on the next fast-path hit, also counted once
   * as existing.
   */
  lemma NewAlbumCountedAsExistingOnce(title: string, id: string)
    ensures var r := ResolveAll(EmptyRegistry, [(title, Some(id)), (title, Some(id)), (title, Some(id))]);
      r.created == [Album(title, id)] && r.albumsCreated == 1 &&
      r.existing == [Album(title, id)] && r.albumsExisting == 1
  {
    var req := (title, Some(id));
    var reqs := [req, req, req];
    var r1 := Resolve(EmptyRegistry, title, Some(id)).0;
    assert r1.cache == map[title := id] && r1.tracked == {} && r1.existing == [];
    assert NameSet(r1.existing) == {};
    var r2 := Resolve(r1, title, Some(id)).0;
    assert r2.tracked == {title} && r2.existing == [Album(title, id)];
    var r3 := Resolve(r2, title, Some(id)).0;
    assert r3 == r2;
    assert reqs[..2] == [req, req] && reqs[..2][..1] == [req] && reqs[..2][..1][..0] == [];
    assert ResolveAll(EmptyRegistry, reqs[..2][..1]) == r1;
    assert ResolveAll(EmptyRegistry, reqs[..2]) == r2;
  }

  /** An entry of `GET /api/albums`; a key that is absent is None. */
  datatype RemoteAlbum = RemoteAlbum(albumName: Option<string>, id: Option<string>)

  /**
   * The entries `load_existing_albums` gets to store: those before the first one
   * missing a key (that KeyError ends the loop; the exception is caught).
   */
  function LoadablePrefix(albums: seq<RemoteAlbum>): (r: seq<Album>)
    ensures |r| <= |albums|
    ensures forall k :: 0 <= k < |r| ==> albums[k] == RemoteAlbum(Some(r[k].name), Some(r[k].id))
    ensures |r| < |albums| ==> albums[|r|].albumName.None? || albums[|r|].id.None?
  {
    if albums == [] || albums[0].albumName.None? || albums[0].id.None? then []
    else [Album(albums[0].albumName.value, albums[0].id.value)] + LoadablePrefix(albums[1..])
  }

  /** The cache after storing `albums` in order, each `cache[name] = id`. */
  function SeedCache(cache: map<string, string>, albums: seq<Album>): map<string, string> {
    if albums == [] then cache
    else SeedCache(cache, albums[..|albums| - 1])[albums[|albums| - 1].name := albums[|albums| - 1].id]
  }

  /** Seeding adds exactly the listed names; for a name listed more than once the last id wins. */
  lemma {:induction false} SeedCacheLastWins(cache: map<string, string>, albums: seq<Album>, name: string)
    ensures name in SeedCache(cache, albums) <==> name in cache || name in NameSet(albums)
    ensures name !in NameSet(albums) && name in cache ==> SeedCache(cache, albums)[name] == cache[name]
    ensures forall k :: 0 <= k < |albums| && albums[k].name == name &&
                        (forall j :: k < j < |albums| ==> albums[j].name != name) ==>
                        SeedCache(cache, albums)[name] == albums[k].id
  {
    if albums != [] {
      var init := albums[..|albums| - 1];
      SeedCacheLastWins(cache, init, name);
      assert forall a :: a in albums <==> a in init || a == albums[|albums| - 1];
      forall k | 0 <= k < |albums| && albums[k].name == name &&
                 (forall j :: k < j < |albums| ==> albums[j].name != name)
        ensures SeedCache(cache, albums)[name] == albums[k].id
      {
        if k < |init| {
          assert init[k] == albums[k];
        }
      }
    }
  }

  /** Seeding the cache keeps the registry invariant: names only ever enter the cache. */
  lemma {:induction false} SeedCacheValid(r: Registry, albums: seq<Album>)
    requires RegistryValid(r)
    ensures RegistryValid(r.(cache := SeedCache(r.cache, albums)))
  {
    forall name | name in r.cache ensures name in SeedCache(r.cache, albums) {
      SeedCacheLastWins(r.cache, albums, name);
    }
  }
}
