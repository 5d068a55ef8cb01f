/** The pipeline `process_audio` runs, with the three models as parameters:
    transcription, translation, then synthesis and merge. The final file write
    is left out; the result is the sample buffer that would be written. */
module Pipeline {
  import opened Wrappers
  import opened Segments
  import opened Timeline
  import opened MergeProperties

  /** The output buffer for a recogniser result. */
  function Process<S>(recognition: Recognition, translate: string -> string, synth: Synthesizer<S>): (audio: seq<S>) {
    Merge(TranslateSegments(translate, Transcribe(recognition)), synth)
  }

  /** The whole-transcript fallback always has a missing end time, so the
      merge drops it and the output is empty whatever the models return. */
  lemma WholeTranscriptIsSilent<S>(text: string, translate: string -> string, synth: Synthesizer<S>)
    ensures Process(Whole(text), translate, synth) == []
  {
    var segs := TranslateSegments(translate, Transcribe(Whole(text)));
    assert segs == [] + [segs[0]];
    MergeSnoc([], segs[0], synth);
  }

  /** A chunk with a missing timestamp, start or end, contributes nothing to
      the output. */
  lemma OpenEndedChunksAreDropped<S>(pre: seq<Chunk>, c: Chunk, post: seq<Chunk>, translate: string -> string, synth: Synthesizer<S>)
    requires c.timestamp.0.None? || c.timestamp.1.None?
    ensures Process(Chunked(pre + [c] + post), translate, synth) == Process(Chunked(pre + post), translate, synth)
  {
    var p := TranslateSegments(translate, SegmentsOfChunks(pre));
    var q := TranslateSegments(translate, SegmentsOfChunks(post));
    var s := TranslateSegments(translate, SegmentsOfChunks([c]));
    SegmentsOfChunksAppend(pre + [c], post);
    SegmentsOfChunksAppend(pre, [c]);
    SegmentsOfChunksAppend(pre, post);
    TranslateAppend(translate, SegmentsOfChunks(pre) + SegmentsOfChunks([c]), SegmentsOfChunks(post));
    TranslateAppend(translate, SegmentsOfChunks(pre), SegmentsOfChunks([c]));
    TranslateAppend(translate, SegmentsOfChunks(pre), SegmentsOfChunks(post));
    assert TranslateSegments(translate, Transcribe(Chunked(pre + [c] + post))) == p + s + q;
    assert TranslateSegments(translate, Transcribe(Chunked(pre + post))) == p + q;
    assert s == [s[0]];
    assert Render(s[0], synth).None?;
    SkippedSegmentInvisible(p, s[0], q, synth);
  }

  /** One chunk stamped from 0 whose translation synthesises to a waveform:
      the output is that waveform with no leading silence. */
  lemma SingleChunkFromZero<S>(text: string, end: real, translate: string -> string, synth: Synthesizer<S>)
    requires synth.tts(translate(text)).Some?
    ensures Process(Chunked([Chunk((Some(0.0), Some(end)), text)]), translate, synth) ==
            Waveform(synth.tts(translate(text)).value)
  {
    var segs := TranslateSegments(translate, Transcribe(Chunked([Chunk((Some(0.0), Some(end)), text)])));
    assert segs == [] + [segs[0]];
    MergeSnoc([], segs[0], synth);
    assert Render(segs[0], synth).value.0 == 0;
  }

  /** Two timed chunks where synthesis of the first fails: the output is only
      the second one's waveform, preceded by silence up to its own offset. */
  lemma FailedFirstSegment<S>(c1: Chunk, c2: Chunk, translate: string -> string, synth: Synthesizer<S>)
    requires c1.timestamp.0.Some? && c1.timestamp.1.Some?
    requires c2.timestamp.0.Some? && c2.timestamp.1.Some?
    requires synth.tts(translate(c1.text)).None?
    requires synth.tts(translate(c2.text)).Some?
    ensures var offset := SampleOffset(c2.timestamp.0.value, synth.sampleRate);
            Process(Chunked([c1, c2]), translate, synth) ==
              Zeros(SilenceLength(offset, 0), synth.zero) + Waveform(synth.tts(translate(c2.text)).value)
  {
    var segs := TranslateSegments(translate, Transcribe(Chunked([c1, c2])));
    assert segs[..1][..0] == [];
    assert Render(segs[0], synth).None?;
    assert Merge(segs[..1], synth) == [];
  }
}
