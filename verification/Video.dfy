/** Frames are opaque: the model never looks at pixels. What it tracks is which
    frame is written, in which order, and with which transform. */
module Video {

  /** One decoded colour image, as read from the video source. */
  type Frame(!new)

  /** The frames of a sequence of (frame, transform) pairs written to the sink. */
  function Frames<T>(written: seq<(Frame, T)>): (fs: seq<Frame>)
    ensures |fs| == |written|
    ensures forall k :: 0 <= k < |written| ==> fs[k] == written[k].0
  {
    seq(|written|, k requires 0 <= k < |written| => written[k].0)
  }

  /** n copies of v. */
  function Copies<T>(n: nat, v: T): (c: seq<T>)
    ensures |c| == n && forall k :: 0 <= k < n ==> c[k] == v
  {
    seq(n, _ => v)
  }

  /** Every frame of `fs`, in order, paired with the one transform `t`. */
  function Batch<T>(fs: seq<Frame>, t: T): (b: seq<(Frame, T)>)
    ensures |b| == |fs|
    ensures forall k :: 0 <= k < |fs| ==> b[k] == (fs[k], t)
  {
    seq(|fs|, k requires 0 <= k < |fs| => (fs[k], t))
  }

  lemma FramesOfBatch<T>(fs: seq<Frame>, t: T)
    ensures Frames(Batch(fs, t)) == fs
  {
  }

  /** Extending a read prefix of `s` by its next element. */
  lemma AppendNext<T>(prefix: seq<T>, s: seq<T>, i: nat)
    requires i < |s|
    ensures prefix + s[..i] + [s[i]] == prefix + s[..i + 1]
  {
    assert s[..i + 1] == s[..i] + [s[i]];
  }

  /** Writing the whole buffer plus the frame just read, all with `t`,
      leaves every frame read written and nothing buffered. */
  lemma WriteAll<T>(written: seq<(Frame, T)>, buffer: seq<Frame>, read: seq<Frame>, frame: Frame, t: T)
    requires Frames(written) + buffer == read
    ensures Frames(written + Batch(buffer + [frame], t)) == read + [frame]
  {
    FramesAppend(written, Batch(buffer + [frame], t));
    FramesOfBatch(buffer + [frame], t);
  }

  /** Buffering the frame just read, writing nothing. */
  lemma BufferOne<T>(written: seq<(Frame, T)>, buffer: seq<Frame>, read: seq<Frame>, frame: Frame)
    requires Frames(written) + buffer == read
    ensures Frames(written) + (buffer + [frame]) == read + [frame]
  {
  }

  lemma FramesAppend<T>(a: seq<(Frame, T)>, b: seq<(Frame, T)>)
    ensures Frames(a + b) == Frames(a) + Frames(b)
  {
  }
}
