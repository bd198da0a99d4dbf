/**
 * The platform services the selector calls but whose insides are not
 * modelled, as functions fixed for the run: the image decoder and PNG
 * encoder, the Exif reader, the content resolver and the file provider.
 */
module Platform {
  import opened Wrappers
  import opened Bitmaps
  import opened Files
  import opened StreamCopy
  import opened Orientation

  /** A content reference handed between processes. */
  datatype Uri = Uri(text: string)

  /**
   * What opening a file's Exif block gives: the reader threw an
   * IOException, or it parsed and the Orientation tag is present or not.
   */
  datatype ExifRead = ExifUnreadable | ExifTags(orientation: Option<int>)

  datatype Env = Env(
    /** `BitmapFactory.decodeFile` on a file holding these bytes (none when undecodable). */
    decode: seq<byte> -> Option<Grid>,
    /** `Bitmap.compress` to PNG at quality 100. */
    encodePng: Grid -> seq<byte>,
    /** `new ExifInterface(path)` on a file holding these bytes. */
    readExif: seq<byte> -> ExifRead,
    /** `openInputStream`: the successive reads the stream delivers before its end, or no stream. */
    openInput: Uri -> Option<seq<Chunk>>,
    /** The on-disk path the content resolver reports for a reference, when its query returns a cursor. */
    queryPath: Uri -> Option<Path>,
    /** `FileProvider.getUriForFile` with the configured authority. */
    uriFor: Path -> Uri)
  {
    /** An empty file does not decode to an image. */
    predicate Sound() {
      decode([]) == None
    }
  }

  /** `BitmapFactory.decodeFile(path)`: none for a missing file or undecodable contents. */
  function DecodeFile(env: Env, files: FileMap, p: Path): (r: Option<Grid>)
    ensures p !in files ==> r == None
    ensures env.Sound() && p in files && files[p] == [] ==> r == None
    ensures r.Some? ==> p in files && env.decode(files[p]) == r
  {
    if p in files then env.decode(files[p]) else None
  }

  /**
   * The Orientation value read from the file at `p`, NORMAL when the tag
   * is absent; none when the reader throws, as it does for a missing file.
   */
  function ReadOrientation(env: Env, files: FileMap, p: Path): (r: Option<int>)
    ensures p !in files ==> r == None
    ensures p in files && env.readExif(files[p]) == ExifTags(None) ==> r == Some(ORIENTATION_NORMAL)
    ensures r.Some? ==> p in files && env.readExif(files[p]).ExifTags?
    ensures p in files && env.readExif(files[p]).ExifTags? && env.readExif(files[p]).orientation.Some? ==>
      r == env.readExif(files[p]).orientation
  {
    if p !in files then None
    else match env.readExif(files[p])
      case ExifUnreadable => None
      case ExifTags(tag) => Some(tag.GetOr(ORIENTATION_NORMAL))
  }
}
