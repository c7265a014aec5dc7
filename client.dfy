/**
 * `ImmichClient`: the upload of one asset with its follow-up metadata
 * reconciliation and album assignment, the album cache, and the statistics
 * the client reports back to the processor. The server's answers are
 * parameters; HTTP, retries and the file checksum are not modelled.
 */
module Client {
  import opened Wrappers
  import opened Text
  import opened Discovery
  import opened Sidecar
  import opened Reconcile
  import opened Albums

  /** The JSON body of a `POST /api/assets` answer; a key that is absent is None. */
  datatype UploadBody = UploadBody(id: Option<string>, status: Option<string>)

  /** What the upload request produced: an exception, or a status code and body. */
  datatype UploadReply = UploadRaised | UploadResponse(statusCode: int, body: UploadBody)

  /** The dictionary `upload_asset` returns. */
  datatype UploadResult = UploadResult(assetId: string, isDuplicate: bool, metadataUpdated: bool)

  /** What `GET /api/albums` produced. */
  datatype AlbumsReply = AlbumsRaised | AlbumsResponse(status: int, albums: seq<RemoteAlbum>)

  /**
   * The asset id and duplicate flag of an upload the server stored: status 200
   * or 201 with an `id` in the body (a body without one raises KeyError).
   * A duplicate is a 200 answer whose body says `"status": "duplicate"`.
   */
  function AcceptedAsset(reply: UploadReply): (r: Option<(string, bool)>)
    ensures r.Some? <==> reply.UploadResponse? && (reply.statusCode == 200 || reply.statusCode == 201) && reply.body.id.Some?
    ensures r.Some? ==> r.value.0 == reply.body.id.value
    ensures r.Some? ==> (r.value.1 <==> reply.statusCode == 200 && reply.body.status == Some("duplicate"))
  {
    match reply
    case UploadRaised => None
    case UploadResponse(code, body) =>
      if code != 200 && code != 201 then None
      else if body.id.None? then None
      else Some((body.id.value, code == 200 && body.status == Some("duplicate")))
  }

  /**
   * The id a dry run reports: `dry_run_` followed by the decimal hash of the
   * path text. `pathHash` stands for Python's per-process `hash` of strings.
   */
  function DryRunAssetId(pathHash: string -> int, path: FilePath): string {
    "dry_run_" + IntToDecimal(pathHash(PathText(path)))
  }

  /** Two dry-run ids agree exactly when the two paths hash alike. */
  lemma DryRunAssetIdIdentifiesHash(pathHash: string -> int, p: FilePath, q: FilePath)
    ensures DryRunAssetId(pathHash, p) == DryRunAssetId(pathHash, q) <==>
            pathHash(PathText(p)) == pathHash(PathText(q))
  {
    var a := IntToDecimal(pathHash(PathText(p)));
    var b := IntToDecimal(pathHash(PathText(q)));
    if DryRunAssetId(pathHash, p) == DryRunAssetId(pathHash, q) {
      assert ("dry_run_" + a)[8..] == a;
      assert ("dry_run_" + b)[8..] == b;
      IntToDecimalInjective(pathHash(PathText(p)), pathHash(PathText(q)));
    }
  }

  /**
   * The value `upload_asset` returns. A dry run reports a fresh, non-duplicate,
   * unreconciled asset; otherwise only a stored asset yields a result, flagged
   * as updated exactly when the reconciliation sent an update.
   */
  function UploadOutcome(dryRun: bool, pathHash: string -> int, path: FilePath, metadata: Metadata,
                         reply: UploadReply, fetch: FetchReply): (r: Option<UploadResult>)
    ensures dryRun ==> r == Some(UploadResult(DryRunAssetId(pathHash, path), false, false))
    ensures !dryRun ==> (r.Some? <==> AcceptedAsset(reply).Some?)
    ensures !dryRun && r.Some? ==>
      r.value.assetId == reply.body.id.value &&
      (r.value.isDuplicate <==> reply.statusCode == 200 && reply.body.status == Some("duplicate")) &&
      (r.value.metadataUpdated <==> Updated(CheckMetadata(r.value.assetId, metadata, fetch)))
    ensures r.Some? && r.value.metadataUpdated ==> !dryRun && fetch.FetchResponse? && fetch.status == 200
  {
    if dryRun then Some(UploadResult(DryRunAssetId(pathHash, path), false, false))
    else
      match AcceptedAsset(reply)
      case None => None
      case Some((id, duplicate)) => Some(UploadResult(id, duplicate, Updated(CheckMetadata(id, metadata, fetch))))
  }

  /** The upload reaches the album step: a stored asset and a non-empty album title. */
  predicate AssignsAlbum(dryRun: bool, reply: UploadReply, albumTitle: Option<string>) {
    !dryRun && AcceptedAsset(reply).Some? && albumTitle.Some? && albumTitle.value != ""
  }

  /**
   * The registry after `load_existing_albums` receives `reply`: on a 200 answer the
   * loadable albums are stored into the cache in order; nothing else ever changes.
   */
  function LoadedRegistry(r: Registry, reply: AlbumsReply): Registry {
    if reply.AlbumsResponse? && reply.status == 200
    then r.(cache := SeedCache(r.cache, LoadablePrefix(reply.albums)))
    else r
  }

  /** The processor's counters and album lists, all of which the client also updates. */
  class Stats {
    var totalFiles: nat
    var processedFiles: nat
    var failedFiles: nat
    var newUploads: nat
    var duplicatesFound: nat
    var albumsCreated: nat
    var albumsExisting: nat
    var metadataUpdates: nat
    var metadataAlreadyCorrect: nat
    var createdAlbums: seq<Album>
    var existingAlbums: seq<Album>

    constructor ()
      ensures totalFiles == 0 && processedFiles == 0 && failedFiles == 0
      ensures newUploads == 0 && duplicatesFound == 0
      ensures albumsCreated == 0 && albumsExisting == 0
      ensures metadataUpdates == 0 && metadataAlreadyCorrect == 0
      ensures createdAlbums == [] && existingAlbums == []
    {
      totalFiles, processedFiles, failedFiles := 0, 0, 0;
      newUploads, duplicatesFound := 0, 0;
      albumsCreated, albumsExisting := 0, 0;
      metadataUpdates, metadataAlreadyCorrect := 0, 0;
      createdAlbums, existingAlbums := [], [];
    }
  }

  class ImmichClient {
    const dryRun: bool
    const pathHash: string -> int
    const stats: Stats
    var albumCache: map<string, string>
    var albumStatsTracked: set<string>

    /** The album registry held by this client and its statistics. */
    function AlbumRegistry(): Registry
      reads this, stats
    {
      Registry(albumCache, albumStatsTracked, stats.createdAlbums, stats.existingAlbums,
               stats.albumsCreated, stats.albumsExisting)
    }

    ghost predicate Valid()
      reads this, stats
    {
      RegistryValid(AlbumRegistry())
    }

    constructor (dryRun: bool, pathHash: string -> int, stats: Stats)
      requires stats.albumsCreated == 0 && stats.albumsExisting == 0
      requires stats.createdAlbums == [] && stats.existingAlbums == []
      ensures this.dryRun == dryRun && this.pathHash == pathHash && this.stats == stats
      ensures AlbumRegistry() == EmptyRegistry
      ensures Valid()
    {
      this.dryRun := dryRun;
      this.pathHash := pathHash;
      this.stats := stats;
      albumCache := map[];
      albumStatsTracked := {};
    }

    /**
     * `_get_or_create_album`: a cached title returns its id (counting it once as
     * existing); otherwise `create` is the server's answer to the creation request.
     */
    method GetOrCreateAlbum(title: string, create: Option<string>) returns (albumId: string)
      requires Valid()
      modifies this`albumCache, this`albumStatsTracked
      modifies stats`albumsCreated, stats`albumsExisting, stats`createdAlbums, stats`existingAlbums
      ensures Valid()
      ensures (AlbumRegistry(), albumId) == Resolve(old(AlbumRegistry()), title, create)
    {
      ResolveValid(AlbumRegistry(), title, create);
      if title in albumCache {
        if title !in albumStatsTracked {
          albumStatsTracked := albumStatsTracked + {title};
          stats.albumsExisting := stats.albumsExisting + 1;
          if title !in NameSet(stats.existingAlbums) {
            stats.existingAlbums := stats.existingAlbums + [Album(title, albumCache[title])];
          }
        }
        return albumCache[title];
      }
      match create {
        case Some(id) =>
          albumCache := albumCache[title := id];
          stats.albumsCreated := stats.albumsCreated + 1;
          stats.createdAlbums := stats.createdAlbums + [Album(title, id)];
          return id;
        case None =>
          return "";
      }
    }

    /**
     * `load_existing_albums`: on a 200 answer, stores each album's id under its
     * name in order, stopping at the first entry missing a key.
     */
    method LoadExistingAlbums(reply: AlbumsReply)
      requires Valid()
      modifies this`albumCache
      ensures Valid()
      ensures AlbumRegistry() == LoadedRegistry(old(AlbumRegistry()), reply)
    {
      if reply.AlbumsRaised? || reply.status != 200 {
        return;
      }
      var albums := reply.albums;
      ghost var start := AlbumRegistry();
      ghost var loaded := LoadablePrefix(albums);
      var i := 0;
      while i < |albums|
        invariant 0 <= i <= |loaded|
        invariant albumCache == SeedCache(start.cache, loaded[..i])
        invariant AlbumRegistry() == start.(cache := albumCache)
      {
        var album := albums[i];
        if album.albumName.None? || album.id.None? {
          break;
        }
        assert loaded[i] == Album(album.albumName.value, album.id.value);
        assert loaded[..i + 1][..i] == loaded[..i];
        albumCache := albumCache[album.albumName.value := album.id.value];
        i := i + 1;
      }
      assert loaded[..i] == loaded;
      SeedCacheValid(start, loaded);
    }

    /**
     * `_add_to_album`: resolves the album and, when that yields an id, assigns the
     * asset to it; returns the album the assignment request names, if any.
     */
    method AddToAlbum(assetId: string, title: string, create: Option<string>) returns (assignedTo: Option<string>)
      requires Valid()
      modifies this`albumCache, this`albumStatsTracked
      modifies stats`albumsCreated, stats`albumsExisting, stats`createdAlbums, stats`existingAlbums
      ensures Valid()
      ensures var (r, id) := Resolve(old(AlbumRegistry()), title, create);
        AlbumRegistry() == r && assignedTo == if id == "" then None else Some(id)
    {
      var albumId := GetOrCreateAlbum(title, create);
      if albumId == "" {
        return None;
      }
      return Some(albumId);
    }

    /**
     * `upload_asset`: uploads, reconciles the metadata of the stored asset,
     * counts the reconciliation, and assigns the album when the title is non-empty.
     */
    method UploadAsset(path: FilePath, metadata: Metadata, albumTitle: Option<string>,
                       reply: UploadReply, fetch: FetchReply, create: Option<string>)
      returns (result: Option<UploadResult>)
      requires Valid()
      modifies this`albumCache, this`albumStatsTracked
      modifies stats`albumsCreated, stats`albumsExisting, stats`createdAlbums, stats`existingAlbums
      modifies stats`metadataUpdates, stats`metadataAlreadyCorrect
      ensures Valid()
      ensures result == UploadOutcome(dryRun, pathHash, path, metadata, reply, fetch)
      ensures stats.metadataUpdates ==
        old(stats.metadataUpdates) + if !dryRun && result.Some? && result.value.metadataUpdated then 1 else 0
      ensures stats.metadataAlreadyCorrect ==
        old(stats.metadataAlreadyCorrect) + if !dryRun && result.Some? && !result.value.metadataUpdated then 1 else 0
      ensures AlbumRegistry() == if AssignsAlbum(dryRun, reply, albumTitle)
                                 then Resolve(old(AlbumRegistry()), albumTitle.value, create).0
                                 else old(AlbumRegistry())
    {
      if dryRun {
        return Some(UploadResult(DryRunAssetId(pathHash, path), false, false));
      }
      var accepted := AcceptedAsset(reply);
      if accepted.None? {
        return None;
      }
      var (assetId, isDuplicate) := accepted.value;
      var metadataUpdated := Updated(CheckMetadata(assetId, metadata, fetch));
      if metadataUpdated {
        stats.metadataUpdates := stats.metadataUpdates + 1;
      } else {
        stats.metadataAlreadyCorrect := stats.metadataAlreadyCorrect + 1;
      }
      if albumTitle.Some? && albumTitle.value != "" {
        var _ := AddToAlbum(assetId, albumTitle.value, create);
      }
      return Some(UploadResult(assetId, isDuplicate, metadataUpdated));
    }
  }
}
