/**
 * The decision inside `ImmichClient._check_and_update_metadata`: from the
 * expected metadata and the server's current asset record to one update
 * request, or none, and the boolean the method returns.
 */
module Reconcile {
  import opened Wrappers
  import opened Sidecar

  /** The `exifInfo` sub-record; a key that is absent is None. */
  datatype ExifInfo = ExifInfo(dateTimeOriginal: Option<string>, latitude: Option<real>, longitude: Option<real>)

  /** The asset record of `GET /api/assets/{id}`; a missing `exifInfo` reads as the empty record. */
  datatype AssetInfo = AssetInfo(fileCreatedAt: Option<string>, exifInfo: Option<ExifInfo>)

  /** The fetch: it raised, or the server answered with a status and (on 200) the record. */
  datatype FetchReply = FetchRaised | FetchResponse(status: int, asset: AssetInfo)

  datatype GeoUpdate = GeoUpdate(latitude: Option<real>, longitude: Option<real>)

  /** The body of `PUT /api/assets`: the ids and the fields to set. */
  datatype UpdateRequest = UpdateRequest(ids: seq<string>, dateTimeOriginal: Option<string>, location: Option<GeoUpdate>)

  datatype Decision =
    | NotFetched               // fetch status other than 200
    | Raised                   // an exception was caught
    | AlreadyCorrect           // nothing to change, no request
    | Update(request: UpdateRequest)

  /** The value `_check_and_update_metadata` returns. */
  predicate Updated(d: Decision) {
    d.Update?
  }

  /** Geo values closer than this are taken as equal. */
  const Tolerance: real := 0.0001

  function Abs(x: real): real {
    if x < 0.0 then -x else x
  }

  function Exif(asset: AssetInfo): ExifInfo {
    asset.exifInfo.GetOr(ExifInfo(None, None, None))
  }

  /** The `dateTimeOriginal` to set, following the two checks of the source in order. */
  function DateStep(expected: Option<string>, asset: AssetInfo): Option<string> {
    if expected.None? || expected.value == "" then None
    else
      var e := expected.value;
      var afterExif := if Exif(asset).dateTimeOriginal != Some(e) then Some(e) else None;
      if asset.fileCreatedAt != Some(e) then
        if afterExif.None? then Some(e) else afterExif
      else afterExif
  }

  datatype GeoOutcome = NoGeoChange | GeoChange(update: GeoUpdate) | GeoRaised

  /**
   * The geo check of the source, in its evaluation order: a missing current value
   * short-circuits to an update; a missing expected value reached by `abs(...)` raises.
   */
  function GeoStep(expected: Option<GeoData>, asset: AssetInfo): GeoOutcome {
    if expected.None? then NoGeoChange
    else
      var g := expected.value;
      if !(NotZero(g.latitude) && NotZero(g.longitude)) then NoGeoChange
      else
        var cur := Exif(asset);
        var change := GeoChange(GeoUpdate(g.latitude, g.longitude));
        if cur.latitude.None? || cur.longitude.None? then change
        else if g.latitude.None? then GeoRaised
        else if Abs(cur.latitude.value - g.latitude.value) > Tolerance then change
        else if g.longitude.None? then GeoRaised
        else if Abs(cur.longitude.value - g.longitude.value) > Tolerance then change
        else NoGeoChange
  }

  /** `_check_and_update_metadata` up to the PUT it issues. */
  function CheckMetadata(assetId: string, expected: Metadata, fetch: FetchReply): (d: Decision)
    // every update names exactly the asset, and sets at least one field
    ensures d.Update? ==> d.request.ids == [assetId]
    ensures d.Update? ==> d.request.dateTimeOriginal.Some? || d.request.location.Some?
    // a failed fetch never leads to an update
    ensures fetch.FetchRaised? || fetch.status != 200 ==> !Updated(d)
    // no location update ever carries a zero coordinate
    ensures d.Update? && d.request.location.Some? ==>
      var u := d.request.location.value;
      NotZero(u.latitude) && NotZero(u.longitude)
  {
    match fetch
    case FetchRaised => Raised
    case FetchResponse(status, asset) =>
      if status != 200 then NotFetched
      else
        var dateTime := DateStep(expected.fileCreatedAt, asset);
        var geo := GeoStep(expected.geoData, asset);
        if geo.GeoRaised? then Raised
        else if dateTime.None? && geo.NoGeoChange? then AlreadyCorrect
        else Update(UpdateRequest([assetId], dateTime, if geo.GeoChange? then Some(geo.update) else None))
  }

  /** Whether the geo check needs an update, stated for an expected location with both coordinates. */
  predicate GeoDiffers(g: GeoData, cur: ExifInfo)
    requires g.latitude.Some? && g.longitude.Some?
  {
    cur.latitude.None? || cur.longitude.None? ||
    Abs(cur.latitude.value - g.latitude.value) > Tolerance ||
    Abs(cur.longitude.value - g.longitude.value) > Tolerance
  }

  /**
   * For a fetched record and an expected location with both coordinates present:
   * the date is set, to the expected value, iff an expected creation time exists and
   * differs from the EXIF original date or from the file creation time; the location
   * is set, to the expected pair, iff neither expected coordinate is zero and the
   * current one is missing or off by more than the tolerance; and the method returns
   * true iff one of them is set.
   */
  lemma CheckMetadataFields(assetId: string, expected: Metadata, asset: AssetInfo)
    requires expected.geoData.Some? ==> expected.geoData.value.latitude.Some? && expected.geoData.value.longitude.Some?
    ensures var d := CheckMetadata(assetId, expected, FetchResponse(200, asset));
      var e := expected.fileCreatedAt;
      var dateDue := e.Some? && e.value != "" &&
                     (Exif(asset).dateTimeOriginal != e || asset.fileCreatedAt != e);
      var geoDue := expected.geoData.Some? &&
                    var g := expected.geoData.value;
                    g.latitude.value != 0.0 && g.longitude.value != 0.0 && GeoDiffers(g, Exif(asset));
      !d.Raised? && !d.NotFetched? &&
      (Updated(d) <==> dateDue || geoDue) &&
      (d.Update? ==>
        (d.request.dateTimeOriginal.Some? <==> dateDue) &&
        (dateDue ==> d.request.dateTimeOriginal == e) &&
        (d.request.location.Some? <==> geoDue) &&
        (geoDue ==>
           d.request.location == Some(GeoUpdate(expected.geoData.value.latitude, expected.geoData.value.longitude))))
  {
  }

  /**
   * For a fetched record and an expected location missing a coordinate (a
   * `geoDataExif` without that key): the method raises, and so returns false and
   * sends no request, even for a date that is due, exactly when the coordinate
   * filter lets the location through, the current location is present, and the
   * `abs(...)` comparison reaches the missing value.
   */
  lemma CheckMetadataMissingCoordinate(assetId: string, expected: Metadata, asset: AssetInfo)
    requires expected.geoData.Some? && (expected.geoData.value.latitude.None? || expected.geoData.value.longitude.None?)
    ensures var d := CheckMetadata(assetId, expected, FetchResponse(200, asset));
      var g := expected.geoData.value;
      var cur := Exif(asset);
      (d.Raised? <==>
        NotZero(g.latitude) && NotZero(g.longitude) && cur.latitude.Some? && cur.longitude.Some? &&
        (g.latitude.None? || Abs(cur.latitude.value - g.latitude.value) <= Tolerance)) &&
      (d.Raised? ==> !Updated(d))
  {
  }

  /** When the record already matches (dates exactly, location within the tolerance) no request is made. */
  lemma MatchingRecordNeedsNoUpdate(assetId: string, e: string, g: GeoData, asset: AssetInfo)
    requires e != "" && g.latitude.Some? && g.longitude.Some?
    requires Exif(asset).dateTimeOriginal == Some(e) && asset.fileCreatedAt == Some(e)
    requires !GeoDiffers(g, Exif(asset))
    ensures CheckMetadata(assetId, Metadata(Some(e), Some(e), Some(g)), FetchResponse(200, asset)) == AlreadyCorrect
  {
  }
}
