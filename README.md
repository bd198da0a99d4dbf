# GalleryImageSelector: a verified model of the image acquisition pipeline

`GalleryImageSelector` lets an Android app obtain one user-chosen avatar
image. The user picks an image in an external gallery. The selector copies
it into a staging file and hands that file to an external cropper. When
the crop result comes back, the selector loads the cropped image. It first
tries the staged output file. If that gives nothing, it falls back to the
reference the cropper returned and corrects that image's Exif
orientation. The image is then shown and, if asked, saved as the avatar
file `user_image`.

This project models that decision logic in Dafny and proves its
properties:

- **Bitmaps**: a bitmap is an abstract rectangular pixel grid (`Grid`).
- **Orientation**: maps the Exif Orientation tag (tag 0x0112, section
  4.6.4 A of Exif 2.3) to a right-angle rotation or a single-axis flip.
  It is proved equal to an independent reading of the standard's
  "0th row / 0th column" table (`Placement`, `ShowsUpright`).
- **Files**: the file system is a map from path to bytes. The module
  gives the fixed avatar and staging paths and the "create if missing,
  never truncate" staging helpers.
- **StreamCopy**: the buffered copy, modelled as written. Every read,
  however short, is followed by a write of the whole 1024-byte buffer.
- **Platform**: the decoder, PNG encoder, Exif reader, content resolver
  and file provider, as fixed functions of their inputs.
- **Session**: each entry point (construction, remove, an activity
  result, save) as a pure function from state to state. It also holds the
  lemmas about these functions.
- **Selector**: the `GalleryImageSelector` class, with the fields `image`
  and `tag`. Its methods change those fields and the shared `FileSystem`
  object, and each method is proved equal to its Session function.

Inputs the model takes as parameters:

- The view's width and height when a result arrives.
- The host's files and cache directories (`Dirs`).
- The `Env` platform functions.

## Behaviour of the code worth knowing

- Results are dispatched on the request code alone; nothing records
  whether a pick came first, so a crop result is handled even without one.
- The cropped staging file is always decoded and then deleted. This
  happens even when the file is empty, because `getTempCroppedFile`
  creates it first, so the `exists()` check always passes.
- The staging files are not cleared at the start of a run:
  - The picked file is truncated only when the resolver returns a stream.
  - The cropped file is created only if it is missing.
  - A crop result is ignored, and the cropped staging file left in place,
    when it never arrives, when it is not OK, or when it is OK with a null
    intent (line 234 needs `data != null`).
  - So output a cropper left in that file in any of these cases is used
    ahead of the reference returned by the next accepted crop result
    (`LeftoverOutputWins`).
  - A cancelled crop leaves the staged copy on disk
    (`CancelledCropKeepsStagedCopy`).
- The staged copy is not a copy of the source. It is 1024 bytes per read,
  and it equals the source exactly when every read filled the buffer
  (`CopyExactIff`).
- The fallback can end in an exception. This happens when the returned
  file does not decode but its Exif asks for a rotation or a flip:
  `rotate`/`flip` then dereference the null bitmap, and the
  NullPointerException escapes the handler (outcome `Crashed`).
- The remove branch runs in any state. The dialog offers it only when the
  tag is custom, and the dialog is UI (left out).
- TRANSPOSE (5) and TRANSVERSE (7) are not corrected at all
  (`TransposedLeftUncorrected`).

## Model

| member | source | states |
|---|---|---|
| Orientation.Rotate | app/src/main/java/com/gallery/imageselector/GalleryImageSelector.java:372-376 | turning by an odd number of quarter turns swaps width and height; by an even number keeps them |
| Orientation.Flip | app/src/main/java/com/gallery/imageselector/GalleryImageSelector.java:378-382 | mirroring keeps the dimensions |
| Orientation.Orient | app/src/main/java/com/gallery/imageselector/GalleryImageSelector.java:351-369 | ROTATE_90/270 swap the dimensions, every other value keeps them; a value outside ROTATE_90/180/270 and FLIP_HORIZONTAL/VERTICAL returns the image unchanged |
| Orientation.OrientShowsUpright | app/src/main/java/com/gallery/imageselector/GalleryImageSelector.java:347-370 | for every tag value except TRANSPOSE and TRANSVERSE the result is exactly the upright picture given by the Exif row/column placement table, pixel by pixel |
| Orientation.TransposedLeftUncorrected | app/src/main/java/com/gallery/imageselector/GalleryImageSelector.java:367-368 | TRANSPOSE and TRANSVERSE come back unchanged, which is not the upright picture of any non-square image |
| Orientation.QuarterTurnTwice | app/src/main/java/com/gallery/imageselector/GalleryImageSelector.java:372-376 | two 90-degree turns equal one 180-degree turn |
| Orientation.QuarterTurnsCancel | app/src/main/java/com/gallery/imageselector/GalleryImageSelector.java:372-376 | a 90-degree and a 270-degree turn undo each other, in both orders |
| Orientation.FlipInvolutive | app/src/main/java/com/gallery/imageselector/GalleryImageSelector.java:378-382 | every flip applied twice is the identity |
| Orientation.FlipBothIsHalfTurn | app/src/main/java/com/gallery/imageselector/GalleryImageSelector.java:378-382 | mirroring on both axes equals the 180-degree turn |
| Files.PathsDistinct | app/src/main/java/com/gallery/imageselector/GalleryImageSelector.java:108-110 | the avatar file and the two staging files are three different paths for any pair of directories |
| Files.EnsureFile | app/src/main/java/com/gallery/imageselector/GalleryImageSelector.java:396-403 | afterwards the file exists; an existing file keeps its contents, a missing one is empty; no other path changes |
| Files.EnsureFileIdempotent | app/src/main/java/com/gallery/imageselector/GalleryImageSelector.java:392-418 | calling a staging helper again changes nothing |
| StreamCopy.Zeros | app/src/main/java/com/gallery/imageselector/GalleryImageSelector.java:329 | a new buffer has the given length and holds only zeros |
| StreamCopy.Overlay | app/src/main/java/com/gallery/imageselector/GalleryImageSelector.java:330 | a read puts its bytes at the front of the buffer and leaves the rest as it was |
| StreamCopy.BufferAfter | app/src/main/java/com/gallery/imageselector/GalleryImageSelector.java:329-330 | the buffer is always 1024 bytes long |
| StreamCopy.Written | app/src/main/java/com/gallery/imageselector/GalleryImageSelector.java:330-332 | the loop writes exactly 1024 bytes per successful read, whatever the read count |
| StreamCopy.BlockIsBuffer | app/src/main/java/com/gallery/imageselector/GalleryImageSelector.java:329-332 | the k-th 1024-byte block of the file is the buffer as it stood right after the k-th read |
| StreamCopy.BlockStartsWithRead | app/src/main/java/com/gallery/imageselector/GalleryImageSelector.java:330-331 | each block starts with that read's bytes, and the rest of the block is left over from the previous read (zeros before the first) |
| StreamCopy.FlattenLength | app/src/main/java/com/gallery/imageselector/GalleryImageSelector.java:330 | a stream has at most 1024 bytes per read, and exactly that many only when every read was full |
| StreamCopy.FullReadsCopyExactly | app/src/main/java/com/gallery/imageselector/GalleryImageSelector.java:329-332 | when every read is full, the file equals the stream |
| StreamCopy.CopyExactIff | app/src/main/java/com/gallery/imageselector/GalleryImageSelector.java:326-332 | the file equals the stream if and only if every read filled the buffer; the file is never shorter than the stream |
| StreamCopy.ReadInto | app/src/main/java/com/gallery/imageselector/GalleryImageSelector.java:330 | the new buffer is the old one with the read's bytes written over its front |
| StreamCopy.CopyIntoFile | app/src/main/java/com/gallery/imageselector/GalleryImageSelector.java:325-333 | with no stream nothing changes; with a stream the destination holds exactly `Written` of the reads (1024 bytes per read, so its old bytes are gone), and no other file changes |
| Platform.DecodeFile | app/src/main/java/com/gallery/imageselector/GalleryImageSelector.java:241 | a missing file decodes to no image; under a sound decoder (`Env.Sound`: empty bytes decode to nothing) an empty file decodes to no image too; an image comes only from an existing file |
| Platform.ReadOrientation | app/src/main/java/com/gallery/imageselector/GalleryImageSelector.java:348-349 | a missing file makes the Exif reader fail; a missing tag reads as NORMAL; a present tag reads as its own value |
| Session.Init | app/src/main/java/com/gallery/imageselector/GalleryImageSelector.java:140-152 | the tag invariant holds; the custom image is shown exactly when the avatar file exists and decodes, and it is that decoded image; no file changes |
| Session.Remove | app/src/main/java/com/gallery/imageselector/GalleryImageSelector.java:181-187 | no image, default tag, the invariant holds, the avatar file is gone and no other file changes |
| Session.SaveBitmapToFile | app/src/main/java/com/gallery/imageselector/GalleryImageSelector.java:308-318 | the file holds exactly the PNG encoding of the image; no other file changes |
| Session.SaveImage | app/src/main/java/com/gallery/imageselector/GalleryImageSelector.java:284-288 | with no image nothing changes; otherwise the avatar file is written with the held image; image and tag never change |
| Session.PickStep | app/src/main/java/com/gallery/imageselector/GalleryImageSelector.java:211-232 | launches the crop with the staged picked file as input, the cropped file as output, 1:1, the view size and scale-up; the picked file holds the copy, or keeps its contents when no stream opens; the cropped file exists, keeps any contents, and is created empty when missing; image, tag and all other files are unchanged |
| Session.ModifyOrientation | app/src/main/java/com/gallery/imageselector/GalleryImageSelector.java:347-370 | throws an IOException exactly when the Exif reader fails; dereferences null exactly when there is no bitmap and the tag asks for a rotation or flip; otherwise returns the corrected bitmap |
| Session.Fallback | app/src/main/java/com/gallery/imageselector/GalleryImageSelector.java:245-262 | with no resolver path nothing is resolved; the handler crashes exactly when the resolver gives a path, the file there does not decode, and its Exif reads as a rotation or a flip |
| Session.CropStep | app/src/main/java/com/gallery/imageselector/GalleryImageSelector.java:234-277 | the staged output is always deleted; a decodable staged output wins; with no image and no reference the selection fails; an image that does not come from the staged output comes only from a reference whose resolver path exists and decodes; the handler crashes exactly when the staged output gives no image, a reference is returned and its fallback crashes; on failure or crash image, tag and the avatar file are unchanged; on success the image is shown with the custom tag and the avatar is written with exactly that image when saving is on, and only then |
| Session.OnActivityResult | app/src/main/java/com/gallery/imageselector/GalleryImageSelector.java:210-279 | the crop is launched exactly when request code is PICK_IMAGE, the result is OK, and the intent and its reference are present; any other non-crop result, and any result that is not OK, changes nothing; the tag invariant is preserved; without an accepted pick the picked staging file is untouched |
| Session.RemoveIdempotent | app/src/main/java/com/gallery/imageselector/GalleryImageSelector.java:181-187 | removing twice equals removing once; removing in the default state with no avatar file is a no-op |
| Session.LoadAfterSave | app/src/main/java/com/gallery/imageselector/GalleryImageSelector.java:296-318 | with a lossless PNG encoding, loading the saved avatar gives the saved image, and a new selector shows it |
| Session.SaveImageThenConstruct | app/src/main/java/com/gallery/imageselector/GalleryImageSelector.java:284-288 | after saveImage, a newly constructed selector shows the held image with the custom tag |
| Session.FirstPickStagesNothing | app/src/main/java/com/gallery/imageselector/GalleryImageSelector.java:406-414 | under a sound decoder, a pick onto a missing cropped file leaves staged output that decodes to no image, so a cropper that writes nothing sends the next crop result to the fallback |
| Session.CropFallbackCorrects | app/src/main/java/com/gallery/imageselector/GalleryImageSelector.java:245-261 | with no staged image, a reference whose file decodes succeeds with that image corrected by its Exif orientation, or left uncorrected if the Exif reader throws |
| Session.FallbackMatchesStagedOutput | app/src/main/java/com/gallery/imageselector/GalleryImageSelector.java:235-262 | the fallback with orientation correction shows the same image as a cropper that wrote the already-corrected image to the staged output |
| Session.PickThenCropPersists | app/src/main/java/com/gallery/imageselector/GalleryImageSelector.java:210-279 | an accepted pick and then a crop that writes its output with saving on: the output is shown, the staged file is gone, and the saved avatar loads back as the same image |
| Session.CancelledCropKeepsStagedCopy | app/src/main/java/com/gallery/imageselector/GalleryImageSelector.java:211-234 | a cancelled crop after a pick changes nothing, and the staged copy of 1024 bytes per read stays on disk |
| Session.LeftoverOutputWins | app/src/main/java/com/gallery/imageselector/GalleryImageSelector.java:236-243 | output left in the cropped staging file before a pick is what the next accepted crop result shows |
| Selector.GalleryImageSelector.constructor | app/src/main/java/com/gallery/imageselector/GalleryImageSelector.java:134-152 | the fields equal the initial state of Session.Init and satisfy the tag invariant |
| Selector.GalleryImageSelector.Remove | app/src/main/java/com/gallery/imageselector/GalleryImageSelector.java:180-188 | the new fields and file system are Session.Remove of the old ones |
| Selector.GalleryImageSelector.SaveImage | app/src/main/java/com/gallery/imageselector/GalleryImageSelector.java:284-288 | the new state is Session.SaveImage of the old |
| Selector.GalleryImageSelector.OnActivityResult | app/src/main/java/com/gallery/imageselector/GalleryImageSelector.java:210-279 | the new state and the outcome are Session.OnActivityResult of the old state; the tag invariant is kept |
| Selector.GalleryImageSelector.GetBitmapFromFile | app/src/main/java/com/gallery/imageselector/GalleryImageSelector.java:300-306 | returns the decoded file, and nothing when the file does not exist |
| Selector.GalleryImageSelector.SaveBitmapToFile | app/src/main/java/com/gallery/imageselector/GalleryImageSelector.java:308-318 | the file system becomes Session.SaveBitmapToFile of the old one |
| Selector.GalleryImageSelector.CreateIfMissing | app/src/main/java/com/gallery/imageselector/GalleryImageSelector.java:397-402 | the file system becomes EnsureFile of the old one |
| Selector.GalleryImageSelector.GetTempPickedFile | app/src/main/java/com/gallery/imageselector/GalleryImageSelector.java:392-404 | returns the fixed picked staging path and makes it exist without truncating it |
| Selector.GalleryImageSelector.GetTempCroppedFile | app/src/main/java/com/gallery/imageselector/GalleryImageSelector.java:406-418 | returns the fixed cropped staging path and makes it exist without truncating it |
| Selector.GalleryImageSelector.GetTempPickedUri | app/src/main/java/com/gallery/imageselector/GalleryImageSelector.java:384-386 | returns the provider reference of the picked staging file, which now exists |
| Selector.GalleryImageSelector.GetTempCroppedUri | app/src/main/java/com/gallery/imageselector/GalleryImageSelector.java:388-390 | returns the provider reference of the cropped staging file, which now exists |
| Selector.GalleryImageSelector.CopyImageUriIntoFile | app/src/main/java/com/gallery/imageselector/GalleryImageSelector.java:320-345 | the loop's file system is StreamCopy.CopyIntoFile of the old one: untouched without a stream, otherwise truncated and then one whole buffer per read |

## Left out

- The dialog, the click listener, `RoundedBitmapDrawable`, `Toast` and the `ImageView` drawables are UI. Only the tag is kept; the `SelectionFailed` outcome stands for the error toast.
- `circlularImage.getBitmap()` is taken to return the bitmap the drawable was made from.
- `getSavedImage` is `getBitmapFromFile` on the avatar path. It is covered by `GetBitmapFromFile` and `LoadAfterSave` and has no member of its own.
- Intent building, `startActivityForResult` and the choice between fragment and activity are left out. The launch is recorded as a `CropRequest` of source, output, aspect 1:1, size and scale-up. The "crop" and "noFaceDetection" extras, the URI permission flags and the ClipData copy of the output are not recorded. The ClipData's second `getTempCroppedUri` call is made.
- Launching the picker (the "Select from gallery" choice) is only an intent sent to another app, so it has no model.
- The content resolver, `openInputStream` and `FileProvider.getUriForFile` are platform calls, taken as the functions of `Env`:
  - The cursor query becomes a path or nothing. An empty cursor, a missing column or a null path string are not modelled.
  - An IOException from `openInputStream` is the same as no stream. An unchecked exception from it, such as a SecurityException, is not caught by the `catch (IOException e)` and leaves the handler; that path is not modelled.
  - An IOException during a read ends the loop. When both streams then close normally, the file holds what the reads before it wrote, which is the same as an end of stream, so a shorter list of reads covers it.
- `CopyImageUriIntoFile`: output-side I/O failures of the staging copy are not modelled. If opening the destination throws, the real file keeps its old contents and the crop is still launched. If a write fails mid-loop, the file holds a partial prefix that need not be a multiple of 1024 bytes. The model takes the open and every write to succeed.
- `CopyImageUriIntoFile`: the input stream is closed before the output stream in one `try`. If closing the input throws, the output stream is never closed or flushed, and the bytes still in its buffer (up to 8 KiB) never reach the staged file. This can happen after a normal end of stream as well as after a read failure. The model takes both closes to succeed, so the whole of `Written` reaches the file.
- `Env.uriFor`: an IllegalArgumentException from a misconfigured authority is not modelled.
- `mkdirs` and the existence of directories are not tracked. `createNewFile` is taken to succeed.
- I/O failures while opening or writing the avatar file, and inside `compress`, are not modelled; saves succeed.
- JPEG/PNG decoding and encoding are opaque functions. Losslessness of PNG is a hypothesis of the lemmas that need it (`LoadAfterSave`, `SaveImageThenConstruct`, `PickThenCropPersists`).
- `Matrix` floating-point math and bitmap filtering are not modelled. Transforms are exact permutations of pixels.
- `Orientation.Rotate`: only angles that are multiples of 90 degrees are modelled, the only ones this file passes. Other angles, which produce an enlarged rotated bounding box, are not.
- The `synchronized` locking of the avatar helpers (concurrency) and `printStackTrace` logging are left out.
