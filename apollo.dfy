/** `analyze_wav_file` (apollo.py) after loading and beat tracking: the beat
    times are cut into measures of four, and every complete measure gets the
    chord of the audio between its first and last beat. */
module Apollo {
  import opened Chords
  import opened Measures

  /** The fixed 4/4 assumption. */
  const BeatsPerMeasure: nat := 4

  /** The labelling of one measure as a function, for the loop specification. */
  function Labeller(y: seq<real>, sr: nat, spectrum: seq<real> -> seq<Bin>): seq<real> -> Option<string> {
    m => MeasureChord(y, sr, spectrum, m)
  }

  /** The body of the per-measure loop: sample indices of the first and last
      beat, the slice of the audio, its spectrum, the positive-frequency
      mask, and the labeller. None where the source raises. */
  method AnalyzeMeasure(y: seq<real>, sr: nat, spectrum: seq<real> -> seq<Bin>, measure: seq<real>)
    returns (chord: Option<string>)
    ensures chord == MeasureChord(y, sr, spectrum, measure)
    ensures chord.Some? <==> |measure| > 0 && |Segment(y, sr, measure)| > 0
  {
    if |measure| == 0 {
      return None;
    }
    var startIdx := SampleIndex(measure[0], sr);
    var endIdx := SampleIndex(measure[|measure| - 1], sr);
    var audio := Slice(y, startIdx, endIdx);
    if |audio| == 0 {
      return None;
    }
    var bins := PositiveBins(spectrum(audio));
    MaskedFrequenciesPositive(spectrum(audio));
    var chordName := GetChordFromFrequencies(Freqs(bins), Amps(bins), DefaultThreshold);
    chord := Some(chordName);
  }

  /** The per-measure loop over the chunked beat times. A measure that
      raises ends the analysis, with the lines found so far. */
  method AnalyzeWavFile(y: seq<real>, sr: nat, beatTimes: seq<real>, spectrum: seq<real> -> seq<Bin>)
    returns (result: Analysis)
    ensures result == Reported(Chunks(beatTimes, BeatsPerMeasure), BeatsPerMeasure, Labeller(y, sr, spectrum))
    ensures result.failedAt.None? ==>
      |result.entries| == |beatTimes| / BeatsPerMeasure &&
      forall k :: 0 <= k < |result.entries| ==> result.entries[k].number == k + 1
  {
    var measures := Chunks(beatTimes, BeatsPerMeasure);
    var chordsPerMeasure: seq<Entry> := [];
    var i := 0;
    while i < |measures|
      invariant 0 <= i <= |measures|
      invariant Reported(measures[..i], BeatsPerMeasure, Labeller(y, sr, spectrum)) == Analysis(chordsPerMeasure, None)
    {
      var measure := measures[i];
      assert measures[..i + 1][..i] == measures[..i];
      if |measure| >= BeatsPerMeasure {
        var chord := AnalyzeMeasure(y, sr, spectrum, measure);
        if chord.None? {
          result := Analysis(chordsPerMeasure, Some(i + 1));
          assert result == Reported(measures[..i + 1], BeatsPerMeasure, Labeller(y, sr, spectrum));
          ReportedUnchangedAfterFailure(measures, i + 1, BeatsPerMeasure, Labeller(y, sr, spectrum));
          ChunkedReported(beatTimes, BeatsPerMeasure, Labeller(y, sr, spectrum));
          return;
        }
        chordsPerMeasure := chordsPerMeasure + [Entry(i + 1, chord.value)];
      }
      i := i + 1;
    }
    assert measures[..|measures|] == measures;
    result := Analysis(chordsPerMeasure, None);
    ChunkedReported(beatTimes, BeatsPerMeasure, Labeller(y, sr, spectrum));
  }
}
