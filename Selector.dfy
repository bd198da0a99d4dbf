/**
 * The selector object itself: the held image and the view's tag as
 * fields, the shared file system as a separate object, and one method per
 * entry point and per private helper, each proved to change the state
 * exactly as the corresponding function of module Session says.
 */
module Selector {
  import opened Wrappers
  import opened Bitmaps
  import opened Files
  import opened StreamCopy
  import opened Orientation
  import opened Platform
  import opened Session

  class GalleryImageSelector {
    var image: Option<Grid>
    var tag: Tag
    const fs: FileSystem
    const env: Env
    const dirs: Dirs

    /** The abstract state the methods are specified against. */
    function Current(): State
      reads this, fs
    {
      State(image, tag, fs.files)
    }

    /** The tag and the held image agree. */
    ghost predicate Valid()
      reads this
    {
      tag == CustomImage <==> image.Some?
    }

    /** Reads the saved avatar, if any, and shows it; the default picture otherwise. */
    constructor (fs: FileSystem, env: Env, dirs: Dirs)
      ensures this.fs == fs && this.env == env && this.dirs == dirs
      ensures Current() == Init(env, dirs, fs.files)
      ensures Valid()
    {
      this.fs := fs;
      this.env := env;
      this.dirs := dirs;
      var saved := GetBitmapFromFile(fs, env, AvatarPath(dirs));
      if saved.Some? {
        tag := CustomImage;
        image := saved;
      } else {
        tag := DefaultImage;
        image := None;
      }
    }

    /** The "Remove" choice of the dialog. */
    method Remove()
      modifies this, fs
      ensures Current() == Session.Remove(old(Current()), dirs)
      ensures Valid()
    {
      tag := DefaultImage;
      image := None;
      var avatar := AvatarPath(dirs);
      fs.files := fs.files - {avatar};
    }

    /** Persists the held image; does nothing when there is none. */
    method SaveImage()
      modifies fs
      ensures Current() == Session.SaveImage(old(Current()), env, dirs)
    {
      if image.Some? {
        SaveBitmapToFile(fs, env, AvatarPath(dirs), image.value);
      }
    }

    /**
     * A delivered activity result: a pick, a crop, or anything else.
     * `viewWidth` and `viewHeight` are the view's size at delivery.
     */
    method OnActivityResult(requestCode: int, resultCode: int, data: Option<Intent>, saveImage: bool,
                            viewWidth: int, viewHeight: int) returns (outcome: Outcome)
      requires Valid()
      modifies this, fs
      ensures Step(Current(), outcome) ==
        Session.OnActivityResult(old(Current()), env, dirs, requestCode, resultCode, data, saveImage,
                                 viewWidth, viewHeight)
      ensures Valid()
    {
      PathsDistinct(dirs);
      if PickAccepted(requestCode, resultCode, data) {
        var staging := GetTempPickedFile();
        CopyImageUriIntoFile(data.value.data.value, staging);
        var source := GetTempPickedUri();
        var output := GetTempCroppedUri();
        var clipOutput := GetTempCroppedUri();
        outcome := CropLaunched(CropRequest(source, output, 1, 1, viewWidth, viewHeight, true));
      } else if CropAccepted(requestCode, resultCode, data) {
        var selected: Option<Grid> := None;
        var tempFile := GetTempCroppedFile();
        // GetTempCroppedFile has just created the file if it was missing.
        assert tempFile in fs.files;
        selected := env.decode(fs.files[tempFile]);
        fs.files := fs.files - {tempFile};
        var crashed := false;
        if selected.None? && data.value.data.Some? {
          var found := env.queryPath(data.value.data.value);
          if found.Some? {
            var picturePath := found.value;
            selected := DecodeFile(env, fs.files, picturePath);
            match ModifyOrientation(env, fs.files, selected, picturePath)
            case Returned(b) => selected := b;
            case IOError =>
            case NullPointer => crashed := true;
          }
        }
        if crashed {
          outcome := Crashed;
        } else if selected.Some? {
          tag := CustomImage;
          image := selected;
          if saveImage {
            SaveBitmapToFile(fs, env, AvatarPath(dirs), selected.value);
          }
          outcome := ImageUpdated;
        } else {
          outcome := SelectionFailed;
        }
      } else {
        outcome := Ignored;
      }
    }

    /** `getBitmapFromFile`: the decoded file, or none when it does not exist. */
    static method GetBitmapFromFile(fs: FileSystem, env: Env, p: Path) returns (b: Option<Grid>)
      ensures b == DecodeFile(env, fs.files, p)
    {
      if p in fs.files {
        b := env.decode(fs.files[p]);
      } else {
        b := None;
      }
    }

    /** `saveBitmapToFile`: opens the file (truncating it) and writes the PNG encoding. */
    static method SaveBitmapToFile(fs: FileSystem, env: Env, p: Path, g: Grid)
      modifies fs
      ensures fs.files == Session.SaveBitmapToFile(env, old(fs.files), p, g)
    {
      fs.files := fs.files[p := []];
      var png := env.encodePng(g);
      assert [] + png == png;
      fs.files := fs.files[p := fs.files[p] + png];
    }

    /** `createNewFile` guarded by `exists`: a missing file is created empty. */
    static method CreateIfMissing(fs: FileSystem, p: Path)
      modifies fs
      ensures fs.files == EnsureFile(old(fs.files), p)
    {
      if p !in fs.files {
        fs.files := fs.files[p := []];
      }
    }

    /** The staging file for the picked image, created if missing. */
    method GetTempPickedFile() returns (p: Path)
      modifies fs
      ensures p == PickedPath(dirs)
      ensures fs.files == EnsureFile(old(fs.files), p)
    {
      p := PickedPath(dirs);
      CreateIfMissing(fs, p);
    }

    /** The staging file the cropper writes to, created if missing. */
    method GetTempCroppedFile() returns (p: Path)
      modifies fs
      ensures p == CroppedPath(dirs)
      ensures fs.files == EnsureFile(old(fs.files), p)
    {
      p := CroppedPath(dirs);
      CreateIfMissing(fs, p);
    }

    /** The shareable reference to the picked staging file. */
    method GetTempPickedUri() returns (u: Uri)
      modifies fs
      ensures u == env.uriFor(PickedPath(dirs))
      ensures fs.files == EnsureFile(old(fs.files), PickedPath(dirs))
    {
      var p := GetTempPickedFile();
      u := env.uriFor(p);
    }

    /** The shareable reference to the cropped staging file. */
    method GetTempCroppedUri() returns (u: Uri)
      modifies fs
      ensures u == env.uriFor(CroppedPath(dirs))
      ensures fs.files == EnsureFile(old(fs.files), CroppedPath(dirs))
    {
      var p := GetTempCroppedFile();
      u := env.uriFor(p);
    }

    /**
     * `copyImageUriIntoFile`: when the resolver gives a stream, truncate
     * `dest` and then, after every read, write the whole buffer.
     */
    method CopyImageUriIntoFile(source: Uri, dest: Path)
      modifies fs
      ensures fs.files == CopyIntoFile(old(fs.files), env.openInput(source), dest)
    {
      var stream := env.openInput(source);
      if stream.Some? {
        var chunks := stream.value;
        fs.files := fs.files[dest := []];
        var buf := new byte[BufferSize](_ => 0);
        var n := 0;
        while n < |chunks|
          invariant 0 <= n <= |chunks|
          invariant buf[..] == BufferAfter(chunks[..n])
          invariant fs.files == old(fs.files)[dest := Written(chunks[..n])]
        {
          ReadInto(buf, chunks[n]);
          assert chunks[..n + 1][..n] == chunks[..n];
          fs.files := fs.files[dest := fs.files[dest] + buf[..]];
          n := n + 1;
        }
        assert chunks[..n] == chunks;
      }
    }
  }
}
