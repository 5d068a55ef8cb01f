/** The synthesis-and-merge stage (`synthesize_and_merge_segments`, without the
    final file write): a fold over the translated segments that lays each
    synthesised waveform on a growing sample buffer, padding with silence up to
    the segment's start. */
module Timeline {
  import opened Wrappers
  import opened Segments

  /** What the speech synthesiser returns: either a record whose `wav` field
      holds the waveform, or the waveform itself. */
  datatype TtsOutput<S> = Record(wav: seq<S>) | Bare(samples: seq<S>)

  /** The speech synthesiser and the output format. `tts` yields `None` where
      the synthesis call raises; `zero` is the silent sample. */
  datatype Synthesizer<S> = Synthesizer(tts: string -> Option<TtsOutput<S>>, zero: S, sampleRate: int)

  function Max(a: int, b: int): (m: int) {
    if a < b then b else a
  }

  /** Python's `int()` on a number: truncation toward zero. */
  function Trunc(x: real): (n: int)
    ensures 0.0 <= x ==> n as real <= x < n as real + 1.0
    ensures x < 0.0 ==> n as real - 1.0 < x <= n as real
  {
    if 0.0 <= x then x.Floor else -((-x).Floor)
  }

  /** The sample index a segment starting at `start` seconds is aimed at. */
  function SampleOffset(start: real, sampleRate: int): (offset: int)
    ensures 0.0 <= start && 0 <= sampleRate ==>
              0 <= offset && offset as real <= start * sampleRate as real < offset as real + 1.0
  {
    Trunc(start * sampleRate as real)
  }

  /** The number of silent samples needed before a waveform aimed at `offset`
      on a buffer of length `len`; never negative, zero once the buffer has
      already reached the offset. */
  function SilenceLength(offset: int, len: nat): (n: nat)
    ensures len + n == Max(len, offset)
    ensures n == 0 <==> offset <= len
  {
    if offset > len then offset - len else 0
  }

  /** `n` silent samples. */
  function Zeros<S>(n: nat, zero: S): (z: seq<S>)
    ensures |z| == n
    ensures forall i :: 0 <= i < n ==> z[i] == zero
  {
    seq(n, _ => zero)
  }

  /** The waveform inside a synthesiser result. */
  function Waveform<S>(out: TtsOutput<S>): (wave: seq<S>) {
    match out
    case Record(wav) => wav
    case Bare(samples) => samples
  }

  /** Pads `buf` with silence up to `offset` and appends `wave`. The old buffer
      stays an unchanged prefix, the waveform takes the last `|wave|` places and
      starts no earlier than `offset` (exactly at it when the buffer had not yet
      reached it), and everything in between is silence. */
  function Place<S>(buf: seq<S>, offset: int, wave: seq<S>, zero: S): (r: seq<S>)
    ensures |r| == Max(|buf|, offset) + |wave|
    ensures buf <= r
    ensures r[Max(|buf|, offset)..] == wave
    ensures forall i :: |buf| <= i < Max(|buf|, offset) ==> r[i] == zero
  {
    var padded := buf + Zeros(SilenceLength(offset, |buf|), zero);
    assert padded[..|buf|] == buf;
    padded + wave
  }

  /** The properties stated for `Place` leave no freedom: any buffer with them
      is the one `Place` builds. */
  lemma PlaceDeterminedByContract<S>(buf: seq<S>, offset: int, wave: seq<S>, zero: S, r: seq<S>)
    requires |r| == Max(|buf|, offset) + |wave|
    requires buf <= r
    requires r[Max(|buf|, offset)..] == wave
    requires forall i :: |buf| <= i < Max(|buf|, offset) ==> r[i] == zero
    ensures r == Place(buf, offset, wave, zero)
  {
    var p := Place(buf, offset, wave, zero);
    var m := Max(|buf|, offset);
    forall i | 0 <= i < |r|
      ensures r[i] == p[i]
    {
      if i < |buf| {
        assert r[i] == buf[i] == p[i];
      } else if i < m {
        assert r[i] == zero == p[i];
      } else {
        assert r[i] == r[m..][i - m] == wave[i - m] == p[m..][i - m] == p[i];
      }
    }
  }

  /** Whether a segment can be time-aligned: both timestamps present. */
  predicate Timed(seg: Segment) {
    seg.start.Some? && seg.end.Some?
  }

  /** What the loop body does with one segment, as a decision: `None` when the
      segment is skipped (a missing timestamp, or the synthesis call failed),
      otherwise the target sample offset and the synthesised waveform. */
  function Render<S>(seg: Segment, synth: Synthesizer<S>): (r: Option<(int, seq<S>)>)
    ensures r.Some? <==> Timed(seg) && synth.tts(seg.text).Some?
    ensures r.Some? ==> r.value.1 == Waveform(synth.tts(seg.text).value)
    ensures r.Some? ==> r.value.0 == SampleOffset(seg.start.value, synth.sampleRate)
  {
    if !Timed(seg) then None
    else
      match synth.tts(seg.text)
      case None => None
      case Some(out) => Some((SampleOffset(seg.start.value, synth.sampleRate), Waveform(out)))
  }

  /** One iteration of the merge loop. A skipped segment leaves the buffer
      exactly as it was; otherwise the waveform is placed at the segment's
      offset as `Place` describes. Either way the old buffer stays a prefix. */
  function Step<S>(buf: seq<S>, seg: Segment, synth: Synthesizer<S>): (r: seq<S>)
    ensures Render(seg, synth).None? ==> r == buf
    ensures buf <= r
    ensures Render(seg, synth).Some? ==>
              r == Place(buf, Render(seg, synth).value.0, Render(seg, synth).value.1, synth.zero)
  {
    match Render(seg, synth)
    case None => buf
    case Some((offset, wave)) => Place(buf, offset, wave, synth.zero)
  }

  /** The buffer after processing all of `segs` in order, starting empty. */
  function Merge<S>(segs: seq<Segment>, synth: Synthesizer<S>): (audio: seq<S>)
    decreases |segs|
  {
    if |segs| == 0 then []
    else Step(Merge(segs[..|segs| - 1], synth), segs[|segs| - 1], synth)
  }

  /** The merge loop as the program runs it, one segment after another. */
  method SynthesizeAndMerge<S>(segs: seq<Segment>, synth: Synthesizer<S>) returns (audio: seq<S>)
    ensures audio == Merge(segs, synth)
  {
    audio := [];
    for i := 0 to |segs|
      invariant audio == Merge(segs[..i], synth)
    {
      assert segs[..i + 1][..i] == segs[..i];
      var seg := segs[i];
      if seg.start.None? || seg.end.None? {
        continue;
      }
      var out := synth.tts(seg.text);
      if out.None? {
        continue;
      }
      var wave := Waveform(out.value);
      var offset := SampleOffset(seg.start.value, synth.sampleRate);
      var silence := SilenceLength(offset, |audio|);
      audio := audio + Zeros(silence, synth.zero);
      audio := audio + wave;
    }
    assert segs[..|segs|] == segs;
  }
}
