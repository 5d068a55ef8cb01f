/** Transcript segments: what the speech recogniser's result is turned into
    (`transcribe_audio`) and how translation rewrites it (`translate_segments`). */
module Segments {
  import opened Wrappers

  /** A timestamp in seconds from the start of the input audio; `None` when the
      recogniser gave none. */
  type Time = Option<real>

  /** A timestamped unit of text, the dictionary `{start, end, text}` of the program. */
  datatype Segment = Segment(start: Time, end: Time, text: string)

  /** A chunk of the recogniser's output: its `timestamp` pair and its text. */
  datatype Chunk = Chunk(timestamp: (Time, Time), text: string)

  /** The recogniser's result, resolved once: either it carries chunk data
      (`"chunks" in transcription`) or only the whole transcript text. */
  datatype Recognition = Chunked(chunks: seq<Chunk>) | Whole(text: string)

  /** The segments made from a list of chunks, one per chunk and in chunk order. */
  function SegmentsOfChunks(chunks: seq<Chunk>): (segs: seq<Segment>)
    ensures |segs| == |chunks|
    ensures forall i :: 0 <= i < |chunks| ==>
              && segs[i].start == chunks[i].timestamp.0
              && segs[i].end == chunks[i].timestamp.1
              && segs[i].text == chunks[i].text
  {
    if |chunks| == 0 then []
    else
      var c := chunks[0];
      [Segment(c.timestamp.0, c.timestamp.1, c.text)] + SegmentsOfChunks(chunks[1..])
  }

  /** Normalises the recogniser's result into segments. Without chunk data the
      whole transcript becomes one segment starting at 0 with no end. */
  function Transcribe(result: Recognition): (segs: seq<Segment>)
    ensures result.Chunked? ==> |segs| == |result.chunks|
    ensures result.Chunked? ==> forall i :: 0 <= i < |segs| ==>
              segs[i] == Segment(result.chunks[i].timestamp.0, result.chunks[i].timestamp.1, result.chunks[i].text)
    ensures result.Whole? ==> |segs| == 1
    ensures result.Whole? ==> segs[0].start == Some(0.0) && segs[0].end.None? && segs[0].text == result.text
  {
    match result
    case Chunked(chunks) => SegmentsOfChunks(chunks)
    case Whole(text) => [Segment(Some(0.0), None, text)]
  }

  /** Transcription of chunk data is order-preserving: transcribing a
      concatenation is concatenating the transcriptions. */
  lemma {:induction false} SegmentsOfChunksAppend(a: seq<Chunk>, b: seq<Chunk>)
    ensures SegmentsOfChunks(a + b) == SegmentsOfChunks(a) + SegmentsOfChunks(b)
  {
    if |a| > 0 {
      assert (a + b)[1..] == a[1..] + b;
      SegmentsOfChunksAppend(a[1..], b);
    }
  }

  /** The inverse reading: the chunk each segment was made from. */
  function ChunksOfSegments(segs: seq<Segment>): (chunks: seq<Chunk>)
    ensures |chunks| == |segs|
  {
    if |segs| == 0 then []
    else [Chunk((segs[0].start, segs[0].end), segs[0].text)] + ChunksOfSegments(segs[1..])
  }

  /** Transcription of chunk data loses nothing: the chunks can be read back. */
  lemma {:induction false} ChunksRoundTrip(chunks: seq<Chunk>)
    ensures ChunksOfSegments(SegmentsOfChunks(chunks)) == chunks
  {
    if |chunks| > 0 {
      ChunksRoundTrip(chunks[1..]);
      assert chunks == [chunks[0]] + chunks[1..];
    }
  }

  /** ... and every list of segments is the transcription of some chunk data. */
  lemma {:induction false} SegmentsRoundTrip(segs: seq<Segment>)
    ensures SegmentsOfChunks(ChunksOfSegments(segs)) == segs
  {
    if |segs| > 0 {
      SegmentsRoundTrip(segs[1..]);
      assert segs == [segs[0]] + segs[1..];
    }
  }

  /** The whole-transcript fallback is the same as a single chunk stamped
      `(0, None)`. */
  lemma WholeIsOpenEndedChunk(text: string)
    ensures Transcribe(Whole(text)) == Transcribe(Chunked([Chunk((Some(0.0), None), text)]))
  {
  }

  /** Rewrites every segment's text with `translate`, keeping the order and the
      timestamps. */
  function TranslateSegments(translate: string -> string, segs: seq<Segment>): (out: seq<Segment>)
    ensures |out| == |segs|
    ensures forall i :: 0 <= i < |segs| ==>
              && out[i].start == segs[i].start
              && out[i].end == segs[i].end
              && out[i].text == translate(segs[i].text)
  {
    if |segs| == 0 then []
    else
      var s := segs[0];
      [Segment(s.start, s.end, translate(s.text))] + TranslateSegments(translate, segs[1..])
  }

  /** The timestamp pairs of a list of segments, in order. */
  function Timestamps(segs: seq<Segment>): (ts: seq<(Time, Time)>)
    ensures |ts| == |segs|
    ensures forall i :: 0 <= i < |segs| ==> ts[i] == (segs[i].start, segs[i].end)
  {
    seq(|segs|, i requires 0 <= i < |segs| => (segs[i].start, segs[i].end))
  }

  /** The texts of a list of segments, in order. */
  function Texts(segs: seq<Segment>): (ts: seq<string>)
    ensures |ts| == |segs|
    ensures forall i :: 0 <= i < |segs| ==> ts[i] == segs[i].text
  {
    seq(|segs|, i requires 0 <= i < |segs| => segs[i].text)
  }

  /** Translation changes no timestamp and is exactly the text map: the
      timeline of its output is the timeline of its input. */
  lemma TranslationKeepsTimeline(translate: string -> string, segs: seq<Segment>)
    ensures Timestamps(TranslateSegments(translate, segs)) == Timestamps(segs)
    ensures Texts(TranslateSegments(translate, segs)) ==
            seq(|segs|, i requires 0 <= i < |segs| => translate(segs[i].text))
  {
  }

  /** Translation is order-preserving: translating a concatenation is
      concatenating the translations. */
  lemma {:induction false} TranslateAppend(translate: string -> string, a: seq<Segment>, b: seq<Segment>)
    ensures TranslateSegments(translate, a + b) ==
            TranslateSegments(translate, a) + TranslateSegments(translate, b)
  {
    if |a| > 0 {
      assert (a + b)[1..] == a[1..] + b;
      TranslateAppend(translate, a[1..], b);
    }
  }

  /** Translating twice is translating once with the composed function. */
  lemma TranslateCompose(f: string -> string, g: string -> string, segs: seq<Segment>)
    ensures TranslateSegments(g, TranslateSegments(f, segs)) ==
            TranslateSegments(x => g(f(x)), segs)
  {
  }

  /** Translating with the identity changes nothing. */
  lemma TranslateIdentity(segs: seq<Segment>)
    ensures TranslateSegments(x => x, segs) == segs
  {
  }
}
