/**
 * The file system as the selector sees it: a map from absolute path to
 * file contents, the fixed locations of the avatar file and of the two
 * staging files, and file creation that never truncates.
 */
module Files {
  newtype byte = b: int | 0 <= b < 256

  type Path = string

  /** Which files exist, and what each holds. */
  type FileMap = map<Path, seq<byte>>

  /** The mutable file system shared by every object of the host process. */
  class FileSystem {
    var files: FileMap

    constructor (files: FileMap)
      ensures this.files == files
    {
      this.files := files;
    }
  }

  /** The two private directories the host activity owns. */
  datatype Dirs = Dirs(filesDir: Path, cacheDir: Path)

  const AVATAR_FILE: string := "user_image"
  const TEMP_PHOTO_DIRECTORY: string := "temporary_images"
  const TEMP_PICKED_PHOTO_FILE: string := "temporary_picked_holder.jpg"
  const TEMP_CROPPED_PHOTO_FILE: string := "temporary_cropped_holder.jpg"

  /** The path of the entry `name` inside directory `dir`. */
  function Child(dir: Path, name: string): Path {
    dir + "/" + name
  }

  /** The persisted avatar: `user_image` in the files directory. */
  function AvatarPath(d: Dirs): Path {
    Child(d.filesDir, AVATAR_FILE)
  }

  /** The scratch directory inside the cache directory. */
  function TempDirectory(d: Dirs): Path {
    Child(d.cacheDir, TEMP_PHOTO_DIRECTORY)
  }

  /** Where a picked image is staged before it is handed to the cropper. */
  function PickedPath(d: Dirs): Path {
    Child(TempDirectory(d), TEMP_PICKED_PHOTO_FILE)
  }

  /** Where the cropper is asked to write its result. */
  function CroppedPath(d: Dirs): Path {
    Child(TempDirectory(d), TEMP_CROPPED_PHOTO_FILE)
  }

  /** The three fixed files never coincide, whatever the two directories are. */
  lemma PathsDistinct(d: Dirs)
    ensures PickedPath(d) != CroppedPath(d)
    ensures AvatarPath(d) != PickedPath(d) && AvatarPath(d) != CroppedPath(d)
  {
    var a, p, c := AvatarPath(d), PickedPath(d), CroppedPath(d);
    assert |c| == |p| + 1;
    assert a[|a| - 1] == 'e';
    assert p[|p| - 1] == 'g' && c[|c| - 1] == 'g';
  }

  /**
   * The file at `p` after `createNewFile` when it does not exist yet: a
   * missing file is created empty and an existing one is left untouched.
   * No other path changes.
   */
  function EnsureFile(fs: FileMap, p: Path): (r: FileMap)
    ensures p in r
    ensures p in fs ==> r[p] == fs[p]
    ensures p !in fs ==> r[p] == []
    ensures r - {p} == fs - {p}
  {
    if p in fs then fs else fs[p := []]
  }

  /** Creating a file that is already there changes nothing. */
  lemma EnsureFileIdempotent(fs: FileMap, p: Path)
    ensures EnsureFile(EnsureFile(fs, p), p) == EnsureFile(fs, p)
    ensures p in fs ==> EnsureFile(fs, p) == fs
  {
  }
}
