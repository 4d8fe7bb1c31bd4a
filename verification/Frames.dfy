/** Media frames as the stream core sees them (pkg/avframe/frame.go). */
module Frames {

  newtype Int64 = x: int | -0x8000_0000_0000_0000 <= x < 0x8000_0000_0000_0000

  const MAX_INT64: Int64 := 0x7fff_ffff_ffff_ffff

  datatype MediaType = Video | Audio | OtherMedia

  datatype FrameType = Keyframe | Interframe | SequenceHeader | OtherFrame

  /** One frame object. `id` stands for the identity of the Go pointer, `size`
      for the payload length; `audioEpoch` is the annotation the stream adds. */
  datatype Frame = Frame(id: nat, media: MediaType, kind: FrameType, codec: nat,
                         dts: Int64, size: nat, audioEpoch: nat)
  {
    predicate IsHeader() { kind == SequenceHeader }

    predicate StartsGop() { media == Video && kind == Keyframe }

    /** Frames that join the GOP in progress: video or audio media. */
    predicate JoinsGop() {
      (media == Video && kind != Keyframe && kind != SequenceHeader)
      || (media == Audio && kind != SequenceHeader)
    }
  }

  /** The media of a stretch of the log: everything but sequence headers. */
  function NonHeaders(s: seq<Frame>): seq<Frame> {
    if s == [] then []
    else NonHeaders(s[..|s| - 1]) + (if s[|s| - 1].IsHeader() then [] else [s[|s| - 1]])
  }

  lemma NonHeadersSnoc(s: seq<Frame>, f: Frame)
    ensures NonHeaders(s + [f]) == NonHeaders(s) + (if f.IsHeader() then [] else [f])
  {
    assert (s + [f])[..|s|] == s;
  }

  lemma {:induction false} NonHeadersConcat(s: seq<Frame>, t: seq<Frame>)
    ensures NonHeaders(s + t) == NonHeaders(s) + NonHeaders(t)
  {
    if t == [] {
      assert s + t == s;
    } else {
      var m := t[..|t| - 1];
      var last := t[|t| - 1];
      NonHeadersConcat(s, m);
      NonHeadersSnoc(s + m, last);
      NonHeadersSnoc(m, last);
      assert s + t == (s + m) + [last] && t == m + [last];
      var x := if last.IsHeader() then [] else [last];
      assert NonHeaders(s) + (NonHeaders(m) + x) == NonHeaders(s) + NonHeaders(m) + x;
    }
  }

  lemma {:induction false} NonHeadersOfMedia(s: seq<Frame>)
    requires forall i :: 0 <= i < |s| ==> !s[i].IsHeader()
    ensures NonHeaders(s) == s
  {
    if s != [] {
      NonHeadersOfMedia(s[..|s| - 1]);
      assert s == s[..|s| - 1] + [s[|s| - 1]];
    }
  }
}
