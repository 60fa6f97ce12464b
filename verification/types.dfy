/** Shared vocabulary of the duplicate cleaner: optional values, results,
    identifiers and the asset metadata the gateway reports. */
module Types {

  /** A value that may be missing (a nil pointer, a failed fetch). */
  datatype Option<+T> = None | Some(value: T)

  /** The outcome of an operation that can fail with an error value. */
  datatype Result<+T, +E> = Success(value: T) | Failure(error: E)

  type AssetId = string
  type AlbumId = string

  /** Timestamps are instants on an integer clock. Go's zero `time.Time`,
      which is what an absent creation date decodes to, is the smallest one. */
  type Timestamp = nat
  const ZeroTime: Timestamp := 0

  /** EXIF metadata of an asset. The size is a signed 64-bit value in the
      source; only comparisons are made on it, so it is an unbounded int here. */
  datatype ExifInfo = ExifInfo(fileSizeInByte: int, imageWidth: int, imageHeight: int)

  /** What the gateway reports about one asset when asked for its details. */
  datatype AssetDetails = AssetDetails(
    originalFileName: string,
    exifInfo: Option<ExifInfo>,
    fileCreatedAt: Timestamp)

  /** Go's zero value of `AssetDetails`: empty name, no EXIF, zero time. */
  const NoDetails: AssetDetails := AssetDetails("", None, ZeroTime)

  /** A duplicate group as listed by the remote service. */
  datatype DuplicateGroup = DuplicateGroup(duplicateId: string, assets: seq<AssetId>)
}
