# Min-S2ST segment pipeline, modelled in Dafny

Min-S2ST is a command-line speech-to-speech translator. It runs three pretrained
models in a chain: a speech recogniser, an English-to-Spanish translator and a
text-to-speech synthesiser. This project models the script's own logic in
`main.py`. That logic is three transformations of the segment list:

- **Transcription** (`transcribe_audio`) turns the recogniser's result into
  segments `{start, end, text}`. The result has chunk data (`Recognition.Chunked`)
  or only the whole transcript (`Recognition.Whole`).
- **Translation** (`translate_segments`) rewrites each segment's text with the
  translation model. The timestamps are copied unchanged.
- **Synthesis and merge** (`synthesize_and_merge_segments`, minus the file
  write) is a fold over the segments that builds the output sample buffer:
  - a segment with a missing `start` or `end` is skipped;
  - a segment whose synthesis call fails is skipped;
  - otherwise the fold pads with `max(0, offset - len(buffer))` zero samples and
    appends the waveform, where `offset = int(start * sample_rate)`.

The three models are parameters:
- the recogniser's output is the input `Recognition`;
- translation is a total function `string -> string`;
- synthesis is `string -> Option<TtsOutput<S>>`, where `None` stands for a call
  that raised.

Samples are an opaque type parameter `S` with a distinguished silent sample
`zero`. Timestamps are exact `real` seconds. Python's `int()` is modelled as
truncation toward zero (`Timeline.Trunc`), so negative start times behave as in
the source.

Modules:
- `Wrappers`: `Option`.
- `Segments`: the data model, transcription and translation.
- `Timeline`: offsets, silence, one merge step, the fold and the loop as written.
- `MergeProperties`: properties of the whole fold.
- `Pipeline`: the chain of the three stages and end-to-end consequences.

The target offset is not the exact product `start * sample_rate`. The code
truncates that product toward zero with `int()` (main.py:59), and the model
does the same. The sample rate is a field of `Timeline.Synthesizer`; the program
always runs with its default of 22050.

One consequence the proofs make explicit is `Pipeline.WholeTranscriptIsSilent`.
The whole-transcript fallback produces a segment whose `end` is `None`. The
merge skips every such segment, so a recogniser result without chunk data
always yields an empty output buffer.

## Model

| member | source | states |
|---|---|---|
| Segments.SegmentsOfChunks | main.py:24-32 | one segment per chunk, in chunk order; segment i takes chunk i's `timestamp[0]` as start, `timestamp[1]` as end, and its text |
| Segments.Transcribe | main.py:22-34 | with chunk data, exactly the per-chunk segments; without it, exactly one segment with start 0, no end and the full transcript text |
| Segments.ChunksRoundTrip | main.py:25-32 | transcribing chunk data loses nothing: the chunks can be read back from the segments |
| Segments.SegmentsRoundTrip | main.py:25-32 | every segment list is the transcription of some chunk list, so the chunk-to-segment map is a bijection |
| Segments.SegmentsOfChunksAppend | main.py:25-32 | transcription preserves order: it distributes over concatenation of chunk lists |
| Segments.WholeIsOpenEndedChunk | main.py:33-34 | the whole-transcript fallback is the same as a single chunk stamped (0, None) |
| Segments.TranslateSegments | main.py:36-44 | same length as the input; segment i keeps input segment i's start and end, and its text is the translation of input segment i's text |
| Segments.TranslationKeepsTimeline | main.py:37-44 | the output's timestamp list equals the input's, and its text list is the translation of the input's text list, element by element |
| Segments.TranslateAppend | main.py:37-44 | translation preserves order: it distributes over concatenation |
| Segments.TranslateCompose | main.py:37-44 | each text is translated on its own, so translating twice equals translating once with the composed function |
| Segments.TranslateIdentity | main.py:37-44 | only the text is touched: translating with the identity returns the input |
| Timeline.Trunc | main.py:59 | Python's `int()` on a number: the integer nearest to it in the direction of zero, within less than one |
| Timeline.SampleOffset | main.py:59 | for a non-negative start and rate, the offset is the non-negative whole number of samples not exceeding start times rate, by less than one |
| Timeline.SilenceLength | main.py:60 | silence is `max(0, offset - len)`: never negative, and zero exactly when the buffer has already reached the offset |
| Timeline.Place | main.py:59-62 | after padding and appending, the length is `max(old length, offset) + |waveform|`; the old buffer is an unchanged prefix; the waveform fills the last places, starting at an index of at least the offset; the padding is all zero |
| Timeline.PlaceDeterminedByContract | main.py:59-62 | those four properties determine the new buffer uniquely |
| Timeline.Render | main.py:51-59 | a segment is rendered exactly when both timestamps are present and synthesis succeeds; it is rendered at `int(start * rate)` with the synthesised waveform, taken from a `wav` record or used bare |
| Timeline.Step | main.py:50-66 | a skipped segment (missing timestamp or failed synthesis) leaves the buffer exactly unchanged; the old buffer is always a prefix of the new one; a rendered segment is padded and placed at its own offset with its own waveform, with the guarantees of `Place` |
| MergeProperties.NothingRenderedIsSilent | main.py:47-66 | the buffer starts empty, so if no segment is rendered the output is empty |
| Timeline.SynthesizeAndMerge | main.py:46-66 | the loop as written: skips with `continue` on a missing timestamp or a failed synthesis, otherwise extends with zeros and the waveform; it computes exactly the fold `Merge` |
| MergeProperties.MergeSnoc | main.py:50-66 | segments are processed in order, one loop iteration each: appending a segment applies one step to the buffer built so far |
| MergeProperties.MergeExtends | main.py:50-62 | processing further segments only extends the buffer: the buffer after a list is a prefix of the buffer after that list followed by more |
| MergeProperties.MergePrefix | main.py:50-62 | samples written for earlier segments are never rewritten: the buffer after the first i segments is a prefix of the final buffer |
| MergeProperties.MergeLengthMonotone | main.py:60-62 | the buffer length never decreases over the loop |
| MergeProperties.SkippedSegmentInvisible | main.py:50-66 | a skipped segment leaves no trace, and processing continues with the next segment: the output is as if the segment were absent |
| MergeProperties.RenderedOnly | main.py:51-57 | the kept segments are all rendered, no longer than the input, and a segment is kept exactly when it occurs in the input and has both timestamps and synthesises |
| MergeProperties.RenderedOnlySingle | main.py:51-57 | a single segment is kept exactly when it has both timestamps and synthesises |
| MergeProperties.RenderedOnlyAppend | main.py:50-57 | the filter keeps order and multiplicity: filtering a concatenation is concatenating the filtered parts |
| MergeProperties.MergeOfRenderedOnly | main.py:50-66 | the output depends only on the rendered segments: filtering out every skipped segment first gives the same buffer |
| MergeProperties.WaveformPlaced | main.py:59-62 | every rendered waveform appears intact in the final buffer, starting at or after its segment's target offset |
| MergeProperties.VoicesInOrder | main.py:59-62 | rendered waveforms keep segment order and never overlap; a later segment is pushed past an earlier one that ran long |
| MergeProperties.MergeLengthBounds | main.py:59-62 | the buffer holds every synthesised sample, and its total silence is at most the latest target offset |
| MergeProperties.EndTimeIrrelevant | main.py:51-62 | segments are anchored by start only: the value of an end time never changes the output, only whether it is present |
| Pipeline.WholeTranscriptIsSilent | main.py:33-53 | a recogniser result without chunk data yields an empty output buffer, whatever the models return |
| Pipeline.OpenEndedChunksAreDropped | main.py:24-53 | a chunk with a missing timestamp contributes nothing to the output |
| Pipeline.SingleChunkFromZero | main.py:24-62 | one chunk stamped from 0 whose translation synthesises to a waveform yields exactly that waveform |
| Pipeline.FailedFirstSegment | main.py:24-66 | when synthesis fails for the first of two timed chunks, the output is only the second one's waveform, preceded by silence up to its offset |

## Left out

- Argument parsing and the module-level entry point (main.py:8-13, 80-81) are command-line plumbing.
- The three models are treated as fixed functions of their input text. The same text always gives the same transcript, translation, waveform or synthesis failure, and one call cannot affect a later one. Randomness inside synthesis (the VITS model draws noise on each call, main.py:19, 56), transient failures and any state inside the models are not modelled. `MergeProperties.SkippedSegmentInvisible`, `MergeProperties.MergeOfRenderedOnly` and `MergeProperties.EndTimeIrrelevant` compare two runs and hold only under this assumption.
- Unwrapping the translator's reply, `[0]["translation_text"]` (main.py:41), is a library object shape. The translation parameter returns the text directly.
- Model loading (main.py:16-20) is left out. The recogniser, translator and synthesiser are parameters (main.py:23, 41, 56).
- Exceptions from transcription and translation abort the run. The model treats both as total functions, so it covers only runs where they return.
- `sf.write` and all `print` logging (main.py:52, 65, 68-69) are I/O. The model returns the buffer that would be written.
- The orchestration in `process_audio` (main.py:71-78) is modelled only as the composition `Pipeline.Process`, without its log lines.
- Timestamps and samples are not IEEE floats. Times are exact reals and samples are opaque, so rounding in `start * sample_rate` is not modelled.
- The unused `current_time` variable (main.py:48) is left out.
- Timeline.Step: a failure after the synthesis call, for example a missing `wav` field or a failing `.numpy()` conversion at main.py:57 and 62, is not modelled. In the source, a failure at line 62 would leave the silence from line 61 in the buffer. The model treats only a failing synthesis call as a failure, and that case leaves the buffer unchanged.
