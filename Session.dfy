/**
 * The selector's decision logic as functions on an abstract state: the
 * shown image, the tag the view carries, and the file system. Every entry
 * point of the selector (construction, the remove choice, a delivered
 * activity result, an explicit save) is one function from state to state.
 */
module Session {
  import opened Wrappers
  import opened Bitmaps
  import opened Files
  import opened StreamCopy
  import opened Orientation
  import opened Platform

  /** The tag on the image view: the default picture or a chosen one. */
  datatype Tag = DefaultImage | CustomImage

  datatype State = State(image: Option<Grid>, tag: Tag, files: FileMap)

  /** The view says "custom" exactly when an image is held. */
  predicate TagInvariant(s: State) {
    s.tag == CustomImage <==> s.image.Some?
  }

  /** Request codes of the two external activities, and the platform's result codes. */
  const PICK_IMAGE: int := 1
  const CROP_IMAGE: int := 2
  const RESULT_OK: int := -1
  const RESULT_CANCELED: int := 0

  /** A result intent; `data` is its content reference (`getData()`), possibly absent. */
  datatype Intent = Intent(data: Option<Uri>)

  /** The crop activity launched after a pick: input, output target, aspect, size, upscaling. */
  datatype CropRequest = CropRequest(
    source: Uri, output: Uri, aspectX: int, aspectY: int,
    outputX: int, outputY: int, scaleUpIfNeeded: bool)

  /**
   * What an activity result visibly did: nothing; launched the cropper;
   * showed a new image; reported a failed selection; or ended in a
   * NullPointerException thrown out of the handler.
   */
  datatype Outcome = Ignored | CropLaunched(request: CropRequest) | ImageUpdated | SelectionFailed | Crashed

  datatype Step = Step(state: State, outcome: Outcome)

  // ---------------------------------------------------------------------
  // Construction, removal, saving
  // ---------------------------------------------------------------------

  /**
   * The state right after construction: the saved avatar is shown when it
   * exists and decodes, the default picture otherwise. Nothing is written.
   */
  function Init(env: Env, d: Dirs, files: FileMap): (s: State)
    ensures s.files == files && TagInvariant(s)
    ensures s.image.Some? <==> AvatarPath(d) in files && env.decode(files[AvatarPath(d)]).Some?
    ensures s.image.Some? ==> s.image == env.decode(files[AvatarPath(d)])
  {
    var saved := DecodeFile(env, files, AvatarPath(d));
    if saved.Some? then State(saved, CustomImage, files) else State(None, DefaultImage, files)
  }

  /** The "Remove" choice: default picture, no image, avatar file deleted; no other file changes. */
  function Remove(s: State, d: Dirs): (r: State)
    ensures TagInvariant(r) && r.image == None && r.tag == DefaultImage
    ensures AvatarPath(d) !in r.files
    ensures r.files - {AvatarPath(d)} == s.files - {AvatarPath(d)}
  {
    State(None, DefaultImage, s.files - {AvatarPath(d)})
  }

  /** `saveBitmapToFile`: the file at `p` now holds the PNG encoding of `g`; nothing else changes. */
  function SaveBitmapToFile(env: Env, files: FileMap, p: Path, g: Grid): (r: FileMap)
    ensures p in r && r[p] == env.encodePng(g)
    ensures r - {p} == files - {p}
  {
    files[p := env.encodePng(g)]
  }

  /** `saveImage`: persists the held image, and does nothing when there is none. */
  function SaveImage(s: State, env: Env, d: Dirs): (r: State)
    ensures s.image.None? ==> r == s
    ensures r.image == s.image && r.tag == s.tag
    ensures s.image.Some? ==> r.files == SaveBitmapToFile(env, s.files, AvatarPath(d), s.image.value)
  {
    if s.image.Some? then s.(files := SaveBitmapToFile(env, s.files, AvatarPath(d), s.image.value)) else s
  }

  // ---------------------------------------------------------------------
  // The pick result
  // ---------------------------------------------------------------------

  /** The four conditions under which a delivered result is handled as a pick. */
  predicate PickAccepted(requestCode: int, resultCode: int, data: Option<Intent>) {
    requestCode == PICK_IMAGE && resultCode == RESULT_OK && data.Some? && data.value.data.Some?
  }

  /** The conditions under which a delivered result is handled as a crop. */
  predicate CropAccepted(requestCode: int, resultCode: int, data: Option<Intent>) {
    requestCode == CROP_IMAGE && resultCode == RESULT_OK && data.Some?
  }

  /**
   * An accepted pick: the picked reference is copied into the staging
   * file, the cropped-result file is made to exist, and the cropper is
   * launched on the staged file with the cropped file as its output, at
   * 1:1 and the view's size. The shown image and the tag do not change.
   */
  function PickStep(s: State, env: Env, d: Dirs, picked: Uri, viewWidth: int, viewHeight: int): (r: Step)
    ensures r.outcome == CropLaunched(CropRequest(env.uriFor(PickedPath(d)), env.uriFor(CroppedPath(d)),
                                                  1, 1, viewWidth, viewHeight, true))
    ensures r.state.image == s.image && r.state.tag == s.tag
    ensures PickedPath(d) in r.state.files
    ensures env.openInput(picked).Some? ==> r.state.files[PickedPath(d)] == Written(env.openInput(picked).value)
    ensures env.openInput(picked).None? ==>
      r.state.files[PickedPath(d)] == (if PickedPath(d) in s.files then s.files[PickedPath(d)] else [])
    ensures CroppedPath(d) in r.state.files
    ensures CroppedPath(d) in s.files ==> r.state.files[CroppedPath(d)] == s.files[CroppedPath(d)]
    ensures CroppedPath(d) !in s.files ==> r.state.files[CroppedPath(d)] == []
    ensures r.state.files - {PickedPath(d), CroppedPath(d)} == s.files - {PickedPath(d), CroppedPath(d)}
  {
    PathsDistinct(d);
    var staging := PickedPath(d);
    var target := CroppedPath(d);
    var created := EnsureFile(s.files, staging);
    var copied := CopyIntoFile(created, env.openInput(picked), staging);
    var ready := EnsureFile(EnsureFile(copied, staging), target);
    var request := CropRequest(env.uriFor(staging), env.uriFor(target), 1, 1, viewWidth, viewHeight, true);
    Step(s.(files := ready), CropLaunched(request))
  }

  // ---------------------------------------------------------------------
  // The crop result
  // ---------------------------------------------------------------------

  /** What `modifyOrientation` does: returns, throws an IOException, or dereferences a missing bitmap. */
  datatype Correction = Returned(bitmap: Option<Grid>) | IOError | NullPointer

  /**
   * `modifyOrientation(bitmap, path)`: reads the Orientation of the file at
   * `path` and applies its transform. The transforms dereference the
   * bitmap, so a missing bitmap with a transforming tag throws.
   */
  function ModifyOrientation(env: Env, files: FileMap, bitmap: Option<Grid>, path: Path): (r: Correction)
    ensures ReadOrientation(env, files, path).None? <==> r.IOError?
    ensures r.NullPointer? <==> bitmap.None? && ReadOrientation(env, files, path).Some?
                                && Transforms(ReadOrientation(env, files, path).value)
    ensures r.Returned? && bitmap.Some? ==> r.bitmap == Some(Orient(bitmap.value, ReadOrientation(env, files, path).value))
    ensures r.Returned? && bitmap.None? ==> r.bitmap == None
  {
    match ReadOrientation(env, files, path)
    case None => IOError
    case Some(o) =>
      if bitmap.Some? then Returned(Some(Orient(bitmap.value, o)))
      else if Transforms(o) then NullPointer
      else Returned(None)
  }

  /** The image a crop result resolved to, or the exception that ended the handler. */
  datatype Resolution = Resolved(image: Option<Grid>) | NullDereference

  /**
   * The fallback through the returned reference: ask the resolver for its
   * on-disk path, decode that file, and correct its orientation; when the
   * Exif reader throws, the decoded image is kept uncorrected.
   */
  function Fallback(env: Env, files: FileMap, ref: Uri): (r: Resolution)
    ensures env.queryPath(ref).None? ==> r == Resolved(None)
    ensures r.NullDereference? <==>
      && env.queryPath(ref).Some?
      && DecodeFile(env, files, env.queryPath(ref).value).None?
      && ReadOrientation(env, files, env.queryPath(ref).value).Some?
      && Transforms(ReadOrientation(env, files, env.queryPath(ref).value).value)
  {
    match env.queryPath(ref)
    case None => Resolved(None)
    case Some(picturePath) =>
      var decoded := DecodeFile(env, files, picturePath);
      match ModifyOrientation(env, files, decoded, picturePath)
      case IOError => Resolved(decoded)
      case Returned(b) => Resolved(b)
      case NullPointer => NullDereference
  }

  /** What the staged cropped file decodes to; the file is created empty first when missing. */
  function StagedImage(env: Env, d: Dirs, files: FileMap): Option<Grid> {
    env.decode(EnsureFile(files, CroppedPath(d))[CroppedPath(d)])
  }

  /**
   * An accepted crop result. The staged cropped file is decoded first and
   * then deleted, whatever the decoding gave; only when it gave nothing
   * and the result carries a reference is the fallback tried. A resolved
   * image is shown, and persisted when `save` holds; otherwise the image,
   * the tag and every file but the staged one are left as they were.
   */
  function CropStep(s: State, env: Env, d: Dirs, data: Intent, save: bool): (r: Step)
    ensures CroppedPath(d) !in r.state.files
    ensures r.outcome == ImageUpdated || r.outcome == SelectionFailed || r.outcome == Crashed
    ensures r.outcome != ImageUpdated ==> r.state == s.(files := s.files - {CroppedPath(d)})
    ensures r.outcome == ImageUpdated ==> r.state.image.Some? && r.state.tag == CustomImage
    ensures r.outcome == ImageUpdated && save ==>
      r.state.files == SaveBitmapToFile(env, s.files - {CroppedPath(d)}, AvatarPath(d), r.state.image.value)
    ensures r.outcome == ImageUpdated && !save ==> r.state.files == s.files - {CroppedPath(d)}
    ensures StagedImage(env, d, s.files).Some? ==> r.outcome == ImageUpdated && r.state.image == StagedImage(env, d, s.files)
    ensures StagedImage(env, d, s.files).None? && data.data.None? ==> r.outcome == SelectionFailed
    ensures r.outcome == Crashed <==>
      && StagedImage(env, d, s.files).None?
      && data.data.Some?
      && Fallback(env, s.files - {CroppedPath(d)}, data.data.value).NullDereference?
    ensures r.outcome == ImageUpdated && StagedImage(env, d, s.files).None? ==>
      && data.data.Some?
      && env.queryPath(data.data.value).Some?
      && DecodeFile(env, s.files - {CroppedPath(d)}, env.queryPath(data.data.value).value).Some?
  {
    PathsDistinct(d);
    var target := CroppedPath(d);
    var created := EnsureFile(s.files, target);
    var staged := env.decode(created[target]);
    var consumed := created - {target};
    var resolution :=
      if staged.None? && data.data.Some? then Fallback(env, consumed, data.data.value) else Resolved(staged);
    match resolution
    case NullDereference => Step(s.(files := consumed), Crashed)
    case Resolved(None) => Step(s.(files := consumed), SelectionFailed)
    case Resolved(Some(g)) =>
      var files := if save then SaveBitmapToFile(env, consumed, AvatarPath(d), g) else consumed;
      Step(State(Some(g), CustomImage, files), ImageUpdated)
  }

  // ---------------------------------------------------------------------
  // The dispatcher
  // ---------------------------------------------------------------------

  /**
   * `onActivityResult`: an accepted pick stages and launches the crop, an
   * accepted crop result is resolved, and every other result (a cancel,
   * another request code, a missing intent or reference) changes nothing.
   */
  function OnActivityResult(s: State, env: Env, d: Dirs, requestCode: int, resultCode: int,
                            data: Option<Intent>, save: bool, viewWidth: int, viewHeight: int): (r: Step)
    ensures r.outcome.CropLaunched? <==> PickAccepted(requestCode, resultCode, data)
    ensures !PickAccepted(requestCode, resultCode, data) && !CropAccepted(requestCode, resultCode, data)
      ==> r == Step(s, Ignored)
    ensures resultCode != RESULT_OK ==> r == Step(s, Ignored)
    ensures TagInvariant(s) ==> TagInvariant(r.state)
    ensures !PickAccepted(requestCode, resultCode, data) ==>
      (PickedPath(d) in r.state.files <==> PickedPath(d) in s.files)
      && (PickedPath(d) in s.files ==> r.state.files[PickedPath(d)] == s.files[PickedPath(d)])
  {
    PathsDistinct(d);
    if PickAccepted(requestCode, resultCode, data) then
      PickStep(s, env, d, data.value.data.value, viewWidth, viewHeight)
    else if CropAccepted(requestCode, resultCode, data) then
      CropStep(s, env, d, data.value, save)
    else
      Step(s, Ignored)
  }

  // ---------------------------------------------------------------------
  // Properties relating several steps
  // ---------------------------------------------------------------------

  /** Removing twice is removing once; removing from the default state with no avatar file changes nothing. */
  lemma RemoveIdempotent(s: State, d: Dirs)
    ensures Remove(Remove(s, d), d) == Remove(s, d)
    ensures TagInvariant(s) && s.tag == DefaultImage && AvatarPath(d) !in s.files ==> Remove(s, d) == s
  {
    if TagInvariant(s) && s.tag == DefaultImage && AvatarPath(d) !in s.files {
      assert s.files - {AvatarPath(d)} == s.files;
    }
  }

  /** A lossless encoding read back from the avatar file gives the saved image. */
  lemma LoadAfterSave(env: Env, d: Dirs, files: FileMap, g: Grid)
    requires env.decode(env.encodePng(g)) == Some(g)
    ensures DecodeFile(env, SaveBitmapToFile(env, files, AvatarPath(d), g), AvatarPath(d)) == Some(g)
    ensures Init(env, d, SaveBitmapToFile(env, files, AvatarPath(d), g)) ==
            State(Some(g), CustomImage, SaveBitmapToFile(env, files, AvatarPath(d), g))
  {
  }

  /** After `saveImage`, a selector constructed anew shows the image that was saved. */
  lemma SaveImageThenConstruct(s: State, env: Env, d: Dirs)
    requires s.image.Some? && env.decode(env.encodePng(s.image.value)) == Some(s.image.value)
    ensures Init(env, d, SaveImage(s, env, d).files).image == s.image
    ensures Init(env, d, SaveImage(s, env, d).files).tag == CustomImage
  {
    LoadAfterSave(env, d, s.files, s.image.value);
  }

  /**
   * With no staged output and a returned reference whose file decodes to
   * `g`, the shown image is `g` corrected by the file's Orientation, or
   * `g` itself when the Exif reader throws.
   */
  lemma CropFallbackCorrects(s: State, env: Env, d: Dirs, save: bool, ref: Uri, picturePath: Path, g: Grid)
    requires StagedImage(env, d, s.files).None?
    requires env.queryPath(ref) == Some(picturePath)
    requires DecodeFile(env, s.files - {CroppedPath(d)}, picturePath) == Some(g)
    ensures CropStep(s, env, d, Intent(Some(ref)), save).outcome == ImageUpdated
    ensures CropStep(s, env, d, Intent(Some(ref)), save).state.image ==
      match ReadOrientation(env, s.files - {CroppedPath(d)}, picturePath)
      case None => Some(g)
      case Some(o) => Some(Orient(g, o))
  {
  }

  /**
   * A cropper that returns a reference to an image whose Exif says "turn
   * by o" ends with the same shown image as one that writes the already
   * turned image into the staged output.
   */
  lemma FallbackMatchesStagedOutput(s: State, env: Env, d: Dirs, save: bool, ref: Uri, picturePath: Path,
                                    g: Grid, o: int, written: seq<byte>)
    requires StagedImage(env, d, s.files).None?
    requires env.queryPath(ref) == Some(picturePath)
    requires DecodeFile(env, s.files - {CroppedPath(d)}, picturePath) == Some(g)
    requires ReadOrientation(env, s.files - {CroppedPath(d)}, picturePath) == Some(o)
    requires env.decode(written) == Some(Orient(g, o))
    ensures CropStep(s, env, d, Intent(Some(ref)), save).state.image ==
            CropStep(s.(files := s.files[CroppedPath(d) := written]), env, d, Intent(Some(ref)), save).state.image
  {
    CropFallbackCorrects(s, env, d, save, ref, picturePath, g);
  }

  /**
   * End to end: an accepted pick, then a cropper that writes bytes
   * decoding to `g` into its designated output, then an accepted crop
   * result with saving on. The image is shown, the staged output is gone,
   * and the saved avatar decodes to `g` (PNG taken as lossless).
   */
  lemma PickThenCropPersists(s: State, env: Env, d: Dirs, picked: Uri, w: int, h: int,
                             output: seq<byte>, g: Grid, result: Intent)
    requires env.decode(output) == Some(g)
    requires env.decode(env.encodePng(g)) == Some(g)
    ensures var launched := OnActivityResult(s, env, d, PICK_IMAGE, RESULT_OK, Some(Intent(Some(picked))), true, w, h);
            var cropperDone := launched.state.(files := launched.state.files[CroppedPath(d) := output]);
            var finished := OnActivityResult(cropperDone, env, d, CROP_IMAGE, RESULT_OK, Some(result), true, w, h);
            && launched.outcome.CropLaunched?
            && launched.outcome.request.output == env.uriFor(CroppedPath(d))
            && finished.outcome == ImageUpdated
            && finished.state.image == Some(g) && finished.state.tag == CustomImage
            && CroppedPath(d) !in finished.state.files
            && Init(env, d, finished.state.files).image == Some(g)
  {
    var launched := OnActivityResult(s, env, d, PICK_IMAGE, RESULT_OK, Some(Intent(Some(picked))), true, w, h);
    var cropperDone := launched.state.(files := launched.state.files[CroppedPath(d) := output]);
    assert StagedImage(env, d, cropperDone.files) == Some(g);
    var finished := OnActivityResult(cropperDone, env, d, CROP_IMAGE, RESULT_OK, Some(result), true, w, h);
    LoadAfterSave(env, d, cropperDone.files - {CroppedPath(d)}, g);
  }

  /**
   * A cancelled crop changes nothing, so the staged copy of the picked
   * image stays on disk: 1024 bytes for every read of the picked stream.
   */
  lemma CancelledCropKeepsStagedCopy(s: State, env: Env, d: Dirs, picked: Uri, w: int, h: int,
                                     result: Option<Intent>, save: bool)
    requires env.openInput(picked).Some?
    ensures var launched := OnActivityResult(s, env, d, PICK_IMAGE, RESULT_OK, Some(Intent(Some(picked))), save, w, h);
            var cancelled := OnActivityResult(launched.state, env, d, CROP_IMAGE, RESULT_CANCELED, result, save, w, h);
            && cancelled.state == launched.state
            && PickedPath(d) in cancelled.state.files
            && |cancelled.state.files[PickedPath(d)]| == BufferSize * |env.openInput(picked).value|
  {
  }

  /**
   * A pick onto a missing cropped file creates it empty, so a cropper that
   * writes nothing leaves staged output that decodes to no image.
   */
  lemma FirstPickStagesNothing(s: State, env: Env, d: Dirs, picked: Uri, w: int, h: int)
    requires env.Sound() && CroppedPath(d) !in s.files
    ensures StagedImage(env, d, PickStep(s, env, d, picked, w, h).state.files).None?
  {
  }

  /**
   * The staged output is not cleared when a pick starts a run: decodable
   * bytes left in it, by a cropper whose result never arrived, was not OK
   * or carried no intent, take precedence over the reference the next
   * accepted crop result returns.
   */
  lemma LeftoverOutputWins(s: State, env: Env, d: Dirs, picked: Uri, w: int, h: int,
                           stale: Grid, result: Intent, save: bool)
    requires CroppedPath(d) in s.files && env.decode(s.files[CroppedPath(d)]) == Some(stale)
    ensures var launched := OnActivityResult(s, env, d, PICK_IMAGE, RESULT_OK, Some(Intent(Some(picked))), save, w, h);
            OnActivityResult(launched.state, env, d, CROP_IMAGE, RESULT_OK, Some(result), save, w, h).state.image
              == Some(stale)
  {
  }
}
