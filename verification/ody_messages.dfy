/** The messages of the odyexp viewer (crates/odyexp-viewer/src/app_context.rs,
    `ViewerMessage`; the loader names the same five variants `AppMessage`). */
module OdyMessages {
  /** A direction; the up axis a ply file declares. */
  datatype Vec3 = Vec3(x: real, y: real, z: real)

  /** A loaded set of splats, known by identity. */
  datatype SplatsRef = SplatsRef(id: nat)

  /** Why a loading stream stopped with an error. */
  datatype ErrorCause =
    | SourceUnreadable    // picking or downloading the source failed
    | SourceTooShort      // fewer than 128 bytes to peek at
    | DownloadPage        // the source is an HTML page, not data
    | UnsupportedFormat   // not a ply file
    | DecodeFailed        // the ply decoder reported an error

  /** One frame the ply decoder yields. */
  datatype PlyFrame = PlyFrame(upAxis: Vec3, splats: SplatsRef, frame: nat)

  datatype Message =
    | NewSource
    | StartLoading(filename: string)
    | Error(cause: ErrorCause)
    | ViewSplats(upAxis: Vec3, splats: SplatsRef, frame: nat)
    | DoneLoading
}
