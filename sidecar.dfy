/**
 * Sidecar extraction: the part of `GooglePhotosProcessor._load_metadata` that
 * runs after JSON decoding, and `_prepare_upload_metadata`.
 */
module Sidecar {
  import opened Wrappers
  import opened Text
  import opened Calendar

  /** The JSON value of `photoTakenTime.timestamp`: Takeout writes a string, a number is read alike. */
  datatype TimestampValue = Number(n: int) | Text(s: string)

  datatype PhotoTakenTime = PhotoTakenTime(timestamp: Option<TimestampValue>)

  /** `geoDataExif`; a key that is absent is None. */
  datatype GeoDataExif = GeoDataExif(latitude: Option<real>, longitude: Option<real>, altitude: Option<real>)

  /** The decoded sidecar object, reduced to the keys the extraction reads. */
  datatype SidecarJson = SidecarJson(photoTakenTime: Option<PhotoTakenTime>, geoDataExif: Option<GeoDataExif>)

  /** Reading the sidecar file: decoded, or opening/decoding raised. */
  datatype SidecarRead = Unreadable | Decoded(json: SidecarJson)

  /** The `geoData` entry of the metadata dict. */
  datatype GeoData = GeoData(latitude: Option<real>, longitude: Option<real>, altitude: real)

  /** The metadata dict: a key that is absent is None. */
  datatype Metadata = Metadata(fileCreatedAt: Option<string>, fileModifiedAt: Option<string>, geoData: Option<GeoData>)

  const EmptyMetadata := Metadata(None, None, None)

  /** Python truthiness of the timestamp value: `0` and `""` are false, `"0"` is true. */
  predicate Truthy(v: TimestampValue) {
    match v
    case Number(n) => n != 0
    case Text(s) => s != ""
  }

  /** Python's `int(v)`; None is the ValueError of a non-numeric string. */
  function ToInt(v: TimestampValue): Option<int> {
    match v
    case Number(n) => Some(n)
    case Text(s) => ParseInt(s)
  }

  /** `x != 0.0` in Python, where a missing key (None) is unequal to 0.0. */
  predicate NotZero(x: Option<real>) {
    x.None? || x.value != 0.0
  }

  /**
   * The creation time the sidecar yields: None when there is none, Some(None)
   * when computing it raised (the whole extraction then fails), Some(Some(s)) otherwise.
   */
  function TakenTime(json: SidecarJson): Option<Option<string>> {
    match json.photoTakenTime
    case None => None
    case Some(ptt) =>
      match ptt.timestamp
      case None => None
      case Some(v) =>
        if !Truthy(v) then None
        else
          match ToInt(v)
          case None => Some(None)
          case Some(seconds) => Some(FormatUtc(seconds))
  }

  /** `_load_metadata` after decoding; None is the caught exception (unreadable file, bad timestamp). */
  function LoadMetadata(read: SidecarRead): (r: Option<Metadata>)
    ensures read.Unreadable? ==> r.None?
    // both timestamps are the same string, of the fixed shape, naming the sidecar's second
    ensures r.Some? ==> r.value.fileCreatedAt == r.value.fileModifiedAt
    ensures r.Some? && r.value.fileCreatedAt.Some? ==>
      read.json.photoTakenTime.Some? && read.json.photoTakenTime.value.timestamp.Some? &&
      var v := read.json.photoTakenTime.value.timestamp.value;
      Truthy(v) && ToInt(v).Some? &&
      IsoShape(r.value.fileCreatedAt.value) && ParseIso(r.value.fileCreatedAt.value) == ToInt(v)
    // a location is kept only when neither coordinate is zero
    ensures r.Some? ==> (r.value.geoData.Some? <==>
      read.json.geoDataExif.Some? &&
      NotZero(read.json.geoDataExif.value.latitude) && NotZero(read.json.geoDataExif.value.longitude))
    ensures r.Some? && r.value.geoData.Some? ==>
      var g := read.json.geoDataExif.value;
      r.value.geoData.value == GeoData(g.latitude, g.longitude, g.altitude.GetOr(0.0))
  {
    match read
    case Unreadable => None
    case Decoded(json) =>
      var taken := TakenTime(json);
      if taken == Some(None) then None
      else
        var created := if taken.Some? then taken.value else None;
        var geo :=
          match json.geoDataExif
          case None => None
          case Some(g) =>
            if NotZero(g.latitude) && NotZero(g.longitude) then
              Some(GeoData(g.latitude, g.longitude, g.altitude.GetOr(0.0)))
            else None;
        Some(Metadata(created, created, geo))
  }

  /** The extraction fails for an unreadable sidecar or a timestamp `int()` or `gmtime` rejects. */
  lemma LoadMetadataFails(read: SidecarRead)
    ensures LoadMetadata(read).None? <==>
      read.Unreadable? ||
      (read.json.photoTakenTime.Some? && read.json.photoTakenTime.value.timestamp.Some? &&
       var v := read.json.photoTakenTime.value.timestamp.value;
       Truthy(v) && (ToInt(v).None? || !(MinFormattable <= ToInt(v).value <= MaxFormattable)))
  {
  }

  /** A truthy in-range timestamp becomes the creation time; a falsy or missing one leaves none. */
  lemma LoadMetadataTimestamp(read: SidecarRead)
    requires read.Decoded? && LoadMetadata(read).Some?
    ensures LoadMetadata(read).value.fileCreatedAt.Some? <==>
      read.json.photoTakenTime.Some? && read.json.photoTakenTime.value.timestamp.Some? &&
      Truthy(read.json.photoTakenTime.value.timestamp.value)
  {
  }

  /** `_prepare_upload_metadata`; None is the KeyError of a creation time without a modification time. */
  function PrepareUploadMetadata(m: Metadata): (r: Option<Metadata>)
    ensures r.None? <==> m.fileCreatedAt.Some? && m.fileModifiedAt.None?
    ensures r.Some? ==> r.value.fileCreatedAt == m.fileCreatedAt && r.value.geoData == m.geoData
    ensures r.Some? ==> r.value.fileModifiedAt == if m.fileCreatedAt.Some? then m.fileModifiedAt else None
  {
    var withTimes :=
      if m.fileCreatedAt.Some? then
        if m.fileModifiedAt.None? then None
        else Some(Metadata(m.fileCreatedAt, m.fileModifiedAt, None))
      else Some(EmptyMetadata);
    if withTimes.None? then None
    else Some(withTimes.value.(geoData := m.geoData))
  }

  /** On whatever the extraction produces, preparing the upload metadata changes nothing. */
  lemma PrepareLoaded(read: SidecarRead)
    requires LoadMetadata(read).Some?
    ensures PrepareUploadMetadata(LoadMetadata(read).value) == Some(LoadMetadata(read).value)
  {
  }
}
