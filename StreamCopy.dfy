/**
 * The buffered copy from an input stream into a file. The loop chunks into
 * a 1024-byte buffer and then writes the WHOLE buffer, whatever the number
 * of bytes the read delivered: the bytes after a short read are whatever
 * the buffer still held from the read before (zeros before the first).
 */
module StreamCopy {
  import opened Wrappers
  import opened Files

  /** Size of the copy buffer. */
  const BufferSize: nat := 1024

  /**
   * The bytes one successful `read(buf)` delivered. A read into a
   * non-empty buffer blocks until it has at least one byte, and never
   * returns more than the buffer holds; the end of the stream is reported
   * separately (by -1).
   */
  type Chunk = c: seq<byte> | 1 <= |c| <= 1024 witness [0]

  /** A freshly allocated Java byte array. */
  function Zeros(n: nat): (z: seq<byte>)
    ensures |z| == n && forall k | 0 <= k < n :: z[k] == 0
  {
    seq(n, _ => 0)
  }

  /** The buffer after a read delivered `chunk` into it. */
  function Overlay(buf: seq<byte>, chunk: seq<byte>): (r: seq<byte>)
    requires |chunk| <= |buf|
    ensures |r| == |buf|
    ensures r[..|chunk|] == chunk && r[|chunk|..] == buf[|chunk|..]
  {
    chunk + buf[|chunk|..]
  }

  /** The buffer after the successive reads `chunks`. */
  function BufferAfter(chunks: seq<Chunk>): (buf: seq<byte>)
    ensures |buf| == BufferSize
  {
    if chunks == [] then Zeros(BufferSize)
    else Overlay(BufferAfter(chunks[..|chunks| - 1]), chunks[|chunks| - 1])
  }

  /** What the loop has written to the file after the successive reads `chunks`. */
  function Written(chunks: seq<Chunk>): (out: seq<byte>)
    ensures |out| == BufferSize * |chunks|
  {
    if chunks == [] then []
    else Written(chunks[..|chunks| - 1]) + BufferAfter(chunks)
  }

  /** The bytes the stream actually carried. */
  function Flatten(chunks: seq<Chunk>): seq<byte> {
    if chunks == [] then [] else Flatten(chunks[..|chunks| - 1]) + chunks[|chunks| - 1]
  }

  /** Every read's block in the output is the buffer right after that read. */
  lemma {:induction false} BlockIsBuffer(chunks: seq<Chunk>, k: nat)
    requires k < |chunks|
    ensures BufferSize * k + BufferSize <= |Written(chunks)|
    ensures Written(chunks)[BufferSize * k .. BufferSize * k + BufferSize] == BufferAfter(chunks[..k + 1])
  {
    var n := |chunks|;
    var front := chunks[..n - 1];
    var w := Written(front);
    var all := Written(chunks);
    var start := BufferSize * k;
    assert all == w + BufferAfter(chunks);
    assert |w| == BufferSize * (n - 1);
    if k < n - 1 {
      BlockIsBuffer(front, k);
      assert front[..k + 1] == chunks[..k + 1];
      assert start + BufferSize <= |w|;
      assert all[start .. start + BufferSize] == w[start .. start + BufferSize];
    } else {
      assert chunks[..k + 1] == chunks;
      assert start == |w|;
      assert all[start .. start + BufferSize] == BufferAfter(chunks);
    }
  }

  /**
   * Each read's bytes land at the start of that read's 1024-byte block,
   * followed by what the buffer held before the read.
   */
  lemma BlockStartsWithRead(chunks: seq<Chunk>, k: nat)
    requires k < |chunks|
    ensures BufferSize * k + BufferSize <= |Written(chunks)|
    ensures Written(chunks)[BufferSize * k .. BufferSize * k + |chunks[k]|] == chunks[k]
    ensures Written(chunks)[BufferSize * k + |chunks[k]| .. BufferSize * k + BufferSize]
         == BufferAfter(chunks[..k])[|chunks[k]|..]
  {
    BlockIsBuffer(chunks, k);
    var block := Written(chunks)[BufferSize * k .. BufferSize * k + BufferSize];
    var prefix := chunks[..k + 1];
    assert prefix[..|prefix| - 1] == chunks[..k];
    assert block == Overlay(BufferAfter(chunks[..k]), chunks[k]);
    assert Written(chunks)[BufferSize * k .. BufferSize * k + |chunks[k]|] == block[..|chunks[k]|];
    assert Written(chunks)[BufferSize * k + |chunks[k]| .. BufferSize * k + BufferSize] == block[|chunks[k]|..];
  }

  /** A stream is exactly as long as its chunks allow only when every read filled the buffer. */
  lemma {:induction false} FlattenLength(chunks: seq<Chunk>)
    ensures |Flatten(chunks)| <= BufferSize * |chunks|
    ensures |Flatten(chunks)| == BufferSize * |chunks| <==> forall k | 0 <= k < |chunks| :: |chunks[k]| == BufferSize
  {
    if chunks != [] {
      var n := |chunks|;
      var front := chunks[..n - 1];
      FlattenLength(front);
      if |Flatten(chunks)| == BufferSize * n {
        forall k | 0 <= k < n ensures |chunks[k]| == BufferSize {
          if k < n - 1 { assert chunks[k] == front[k]; }
        }
      }
      if forall k | 0 <= k < n :: |chunks[k]| == BufferSize {
        assert forall k | 0 <= k < n - 1 :: |front[k]| == BufferSize by {
          forall k | 0 <= k < n - 1 ensures |front[k]| == BufferSize { assert front[k] == chunks[k]; }
        }
      }
    }
  }

  /** When every read filled the buffer, the buffer holds exactly the last read. */
  lemma {:induction false} FullReadsCopyExactly(chunks: seq<Chunk>)
    requires forall k | 0 <= k < |chunks| :: |chunks[k]| == BufferSize
    ensures Written(chunks) == Flatten(chunks)
  {
    if chunks != [] {
      var n := |chunks|;
      var front := chunks[..n - 1];
      assert forall k | 0 <= k < n - 1 :: |front[k]| == BufferSize by {
        forall k | 0 <= k < n - 1 ensures |front[k]| == BufferSize { assert front[k] == chunks[k]; }
      }
      FullReadsCopyExactly(front);
      assert BufferAfter(chunks) == chunks[n - 1];
    }
  }

  /**
   * The file ends up a faithful copy of the stream if and only if every
   * read filled the whole buffer; otherwise it is longer than the stream.
   */
  lemma CopyExactIff(chunks: seq<Chunk>)
    ensures Written(chunks) == Flatten(chunks) <==> forall k | 0 <= k < |chunks| :: |chunks[k]| == BufferSize
    ensures |Written(chunks)| >= |Flatten(chunks)|
  {
    FlattenLength(chunks);
    if forall k | 0 <= k < |chunks| :: |chunks[k]| == BufferSize {
      FullReadsCopyExactly(chunks);
    }
  }

  /** `read(buf)`: the delivered bytes overwrite the front of the buffer. */
  method ReadInto(buf: array<byte>, chunk: Chunk)
    requires buf.Length == BufferSize
    modifies buf
    ensures buf[..] == Overlay(old(buf[..]), chunk)
  {
    forall k | 0 <= k < |chunk| {
      buf[k] := chunk[k];
    }
  }

  /**
   * The file system after copying a stream into `dest`. No stream (the
   * content resolver handed back none): nothing is opened and `dest` keeps
   * what it held. Otherwise `dest` is opened without append, so its prior
   * bytes are discarded, and receives the whole buffer after every read.
   */
  function CopyIntoFile(files: FileMap, stream: Option<seq<Chunk>>, dest: Path): (r: FileMap)
    ensures stream.None? ==> r == files
    ensures stream.Some? ==> dest in r && |r[dest]| == BufferSize * |stream.value|
    ensures stream.Some? ==> r[dest] == Written(stream.value)
    ensures stream.Some? ==> r - {dest} == files - {dest}
  {
    match stream
    case None => files
    case Some(chunks) => files[dest := Written(chunks)]
  }
}
