/** Properties of the whole merge fold: what earlier segments put in the buffer
    is never rewritten, skipped segments leave no trace, every rendered waveform
    sits intact at or after its target offset and in segment order, and the
    buffer's length is bounded by the voices and the latest offset. */
module MergeProperties {
  import opened Wrappers
  import opened Segments
  import opened Timeline

  /** When no segment is rendered, the output is empty. */
  lemma {:induction false} NothingRenderedIsSilent<S>(segs: seq<Segment>, synth: Synthesizer<S>)
    requires forall i :: 0 <= i < |segs| ==> Render(segs[i], synth).None?
    ensures Merge(segs, synth) == []
    decreases |segs|
  {
    if |segs| > 0 {
      NothingRenderedIsSilent(segs[..|segs| - 1], synth);
    }
  }

  lemma PrefixTransitive<T>(a: seq<T>, b: seq<T>, c: seq<T>)
    requires a <= b && b <= c
    ensures a <= c
  {
    assert a == b[..|a|] && b == c[..|b|];
  }

  /** The fold read one segment at a time: appending a segment applies one
      loop step to the buffer so far. */
  lemma MergeSnoc<S>(init: seq<Segment>, seg: Segment, synth: Synthesizer<S>)
    ensures Merge(init + [seg], synth) == Step(Merge(init, synth), seg, synth)
  {
    assert (init + [seg])[..|init|] == init;
  }

  /** Processing more segments only extends the buffer: the buffer after `a`
      is a prefix of the buffer after `a` followed by `b`. */
  lemma {:induction false} MergeExtends<S>(a: seq<Segment>, b: seq<Segment>, synth: Synthesizer<S>)
    ensures Merge(a, synth) <= Merge(a + b, synth)
    decreases |b|
  {
    if |b| == 0 {
      assert a + b == a;
    } else {
      var init := b[..|b| - 1];
      MergeExtends(a, init, synth);
      assert a + b == (a + init) + [b[|b| - 1]];
      MergeSnoc(a + init, b[|b| - 1], synth);
      PrefixTransitive(Merge(a, synth), Merge(a + init, synth), Merge(a + b, synth));
    }
  }

  /** So the samples written for earlier segments are never rewritten: the
      buffer after the first `i` segments is a prefix of the final one. */
  lemma MergePrefix<S>(segs: seq<Segment>, i: nat, synth: Synthesizer<S>)
    requires i <= |segs|
    ensures Merge(segs[..i], synth) <= Merge(segs, synth)
  {
    assert segs == segs[..i] + segs[i..];
    MergeExtends(segs[..i], segs[i..], synth);
  }

  /** Hence the buffer length never decreases over the loop. */
  lemma MergeLengthMonotone<S>(segs: seq<Segment>, i: nat, j: nat, synth: Synthesizer<S>)
    requires i <= j <= |segs|
    ensures |Merge(segs[..i], synth)| <= |Merge(segs[..j], synth)|
  {
    assert segs[..j] == segs[..i] + segs[i..j];
    MergeExtends(segs[..i], segs[i..j], synth);
  }

  /** A skipped segment (missing timestamp or failed synthesis) leaves no
      trace, and processing continues with the next segment as if it had never
      been there. */
  lemma {:induction false} SkippedSegmentInvisible<S>(pre: seq<Segment>, seg: Segment, post: seq<Segment>, synth: Synthesizer<S>)
    requires Render(seg, synth).None?
    ensures Merge(pre + [seg] + post, synth) == Merge(pre + post, synth)
    decreases |post|
  {
    if |post| == 0 {
      assert pre + [seg] + post == pre + [seg];
      assert pre + post == pre;
      MergeSnoc(pre, seg, synth);
    } else {
      var init := post[..|post| - 1];
      var last := post[|post| - 1];
      SkippedSegmentInvisible(pre, seg, init, synth);
      assert pre + [seg] + post == (pre + [seg] + init) + [last];
      assert pre + post == (pre + init) + [last];
      MergeSnoc(pre + [seg] + init, last, synth);
      MergeSnoc(pre + init, last, synth);
    }
  }

  /** The segments the merge actually renders, in order. */
  function RenderedOnly<S>(segs: seq<Segment>, synth: Synthesizer<S>): (kept: seq<Segment>)
    ensures |kept| <= |segs|
    ensures forall i :: 0 <= i < |kept| ==> Render(kept[i], synth).Some?
    ensures forall s :: s in kept <==> s in segs && Render(s, synth).Some?
    decreases |segs|
  {
    if |segs| == 0 then []
    else
      var init := RenderedOnly(segs[..|segs| - 1], synth);
      var last := segs[|segs| - 1];
      assert forall s :: s in segs <==> s in segs[..|segs| - 1] || s == last;
      if Render(last, synth).Some? then init + [last] else init
  }

  /** `RenderedOnly` on a single segment keeps it exactly when it is rendered. */
  lemma RenderedOnlySingle<S>(seg: Segment, synth: Synthesizer<S>)
    ensures RenderedOnly([seg], synth) == if Render(seg, synth).Some? then [seg] else []
  {
    assert [seg][..0] == [];
  }

  /** `RenderedOnly` keeps order and multiplicity: filtering a concatenation
      is concatenating the filtered parts. With `RenderedOnlySingle` this
      pins it down as the order-preserving filter. */
  lemma {:induction false} RenderedOnlyAppend<S>(a: seq<Segment>, b: seq<Segment>, synth: Synthesizer<S>)
    ensures RenderedOnly(a + b, synth) == RenderedOnly(a, synth) + RenderedOnly(b, synth)
    decreases |b|
  {
    if |b| == 0 {
      assert a + b == a;
      assert RenderedOnly(b, synth) == [];
    } else {
      var init := b[..|b| - 1];
      var last := b[|b| - 1];
      RenderedOnlyAppend(a, init, synth);
      assert (a + b)[..|a + b| - 1] == a + init;
      assert (a + b)[|a + b| - 1] == last;
    }
  }

  /** The output depends only on the rendered segments: dropping every skipped
      segment beforehand yields the same buffer. */
  lemma {:induction false} MergeOfRenderedOnly<S>(segs: seq<Segment>, synth: Synthesizer<S>)
    ensures Merge(segs, synth) == Merge(RenderedOnly(segs, synth), synth)
    decreases |segs|
  {
    if |segs| > 0 {
      var n := |segs| - 1;
      var init := segs[..n];
      MergeOfRenderedOnly(init, synth);
      var kept := RenderedOnly(init, synth);
      if Render(segs[n], synth).Some? {
        assert (kept + [segs[n]])[..|kept|] == kept;
      }
    }
  }

  /** Where the waveform of segment `k` begins in the buffer: at its target
      offset, or right after the audio already there if that runs past it. */
  function VoiceStart<S>(segs: seq<Segment>, k: nat, synth: Synthesizer<S>): (p: int)
    requires k < |segs| && Render(segs[k], synth).Some?
  {
    Max(|Merge(segs[..k], synth)|, Render(segs[k], synth).value.0)
  }

  /** Every rendered waveform appears intact in the final buffer, starting no
      earlier than its segment's target offset. */
  lemma WaveformPlaced<S>(segs: seq<Segment>, k: nat, synth: Synthesizer<S>)
    requires k < |segs| && Render(segs[k], synth).Some?
    ensures var (offset, wave) := Render(segs[k], synth).value;
            var p := VoiceStart(segs, k, synth);
            && offset <= p
            && p + |wave| <= |Merge(segs, synth)|
            && Merge(segs, synth)[p..p + |wave|] == wave
  {
    var (offset, wave) := Render(segs[k], synth).value;
    var p := VoiceStart(segs, k, synth);
    var upto := Merge(segs[..k + 1], synth);
    assert segs[..k + 1][..k] == segs[..k];
    assert upto == Step(Merge(segs[..k], synth), segs[k], synth);
    MergePrefix(segs, k + 1, synth);
    var audio := Merge(segs, synth);
    assert upto[p..] == wave;
    assert audio[p..p + |wave|] == upto[p..p + |wave|];
  }

  /** Rendered waveforms keep segment order and never overlap: a later one
      starts no earlier than the end of an earlier one. */
  lemma VoicesInOrder<S>(segs: seq<Segment>, j: nat, k: nat, synth: Synthesizer<S>)
    requires j < k < |segs|
    requires Render(segs[j], synth).Some? && Render(segs[k], synth).Some?
    ensures VoiceStart(segs, j, synth) + |Render(segs[j], synth).value.1| <= VoiceStart(segs, k, synth)
  {
    assert segs[..j + 1][..j] == segs[..j];
    var before := Merge(segs[..j], synth);
    var after := Merge(segs[..j + 1], synth);
    assert after == Step(before, segs[j], synth);
    assert |after| == VoiceStart(segs, j, synth) + |Render(segs[j], synth).value.1|;
    MergeLengthMonotone(segs, j + 1, k, synth);
  }

  /** Total number of synthesised samples over the rendered segments. */
  function TotalVoice<S>(segs: seq<Segment>, synth: Synthesizer<S>): (total: nat)
    decreases |segs|
  {
    if |segs| == 0 then 0
    else
      var last := Render(segs[|segs| - 1], synth);
      TotalVoice(segs[..|segs| - 1], synth) + (if last.Some? then |last.value.1| else 0)
  }

  /** The latest target offset of a rendered segment, and at least 0. */
  function LatestOffset<S>(segs: seq<Segment>, synth: Synthesizer<S>): (latest: nat)
    decreases |segs|
  {
    if |segs| == 0 then 0
    else
      var last := Render(segs[|segs| - 1], synth);
      var rest := LatestOffset(segs[..|segs| - 1], synth);
      if last.Some? && last.value.0 > rest then last.value.0 else rest
  }

  /** The buffer holds at least every synthesised sample, and the silence in it
      adds up to no more than the latest target offset. */
  lemma {:induction false} MergeLengthBounds<S>(segs: seq<Segment>, synth: Synthesizer<S>)
    ensures TotalVoice(segs, synth) <= |Merge(segs, synth)| <= LatestOffset(segs, synth) + TotalVoice(segs, synth)
    decreases |segs|
  {
    if |segs| > 0 {
      MergeLengthBounds(segs[..|segs| - 1], synth);
    }
  }

  /** Two segment lists that agree on start times, texts and on which end
      times are present. */
  predicate SameAnchors(a: seq<Segment>, b: seq<Segment>) {
    && |a| == |b|
    && forall i :: 0 <= i < |a| ==>
         a[i].start == b[i].start && a[i].text == b[i].text && a[i].end.Some? == b[i].end.Some?
  }

  /** Segments are anchored by their start only: the value of an end time never
      affects the output, only whether it is present. */
  lemma {:induction false} EndTimeIrrelevant<S>(a: seq<Segment>, b: seq<Segment>, synth: Synthesizer<S>)
    requires SameAnchors(a, b)
    ensures Merge(a, synth) == Merge(b, synth)
    decreases |a|
  {
    if |a| > 0 {
      var n := |a| - 1;
      assert SameAnchors(a[..n], b[..n]);
      EndTimeIrrelevant(a[..n], b[..n], synth);
      assert Render(a[n], synth) == Render(b[n], synth);
    }
  }
}
