/** The measure bookkeeping around the labeller: beat times cut into measures
    of `beats_per_measure`, the audio samples between a measure's first and
    last beat, the positive half of their spectrum, and the numbered chord
    list that skips incomplete measures. */
module Measures {
  import opened Chords

  datatype Option<T> = None | Some(value: T)

  // ---------------------------------------------------------------------------
  // Chunking: `[s[i:i+k] for i in range(0, len(s), k)]`

  /** The measures of s, k beats each except possibly the last. */
  function Chunks<T>(s: seq<T>, k: nat): (ms: seq<seq<T>>)
    requires k > 0
    ensures forall j :: 0 <= j < |ms| ==> 0 < |ms[j]| <= k
    decreases |s|
  {
    if |s| == 0 then []
    else if |s| <= k then [s]
    else [s[..k]] + Chunks(s[k..], k)
  }

  function Flatten<T>(ms: seq<seq<T>>): seq<T> {
    if |ms| == 0 then [] else ms[0] + Flatten(ms[1..])
  }

  /** Concatenating the measures gives back the beats. */
  lemma {:induction false} ChunksConcat<T>(s: seq<T>, k: nat)
    requires k > 0
    ensures Flatten(Chunks(s, k)) == s
    decreases |s|
  {
    if |s| > k {
      ChunksConcat(s[k..], k);
      assert Chunks(s, k)[1..] == Chunks(s[k..], k);
      assert s == s[..k] + s[k..];
    }
  }

  /** Every measure but the last is full. */
  lemma {:induction false} ChunksFull<T>(s: seq<T>, k: nat)
    requires k > 0
    ensures forall j :: 0 <= j < |Chunks(s, k)| - 1 ==> |Chunks(s, k)[j]| == k
    decreases |s|
  {
    if |s| > k {
      ChunksFull(s[k..], k);
      var ms, rest := Chunks(s, k), Chunks(s[k..], k);
      forall j | 0 <= j < |ms| - 1
        ensures |ms[j]| == k
      {
        if j > 0 {
          assert ms[j] == rest[j - 1];
        }
      }
    }
  }

  /** n - k leaves the same remainder and one fewer quotient. */
  lemma DivModSub(n: nat, k: nat)
    requires 0 < k <= n
    ensures (n - k) / k == n / k - 1 && (n - k) % k == n % k
  {
    var q, r := (n - k) / k, (n - k) % k;
    assert n == (q + 1) * k + r;
    DivModUnique(n, k, q + 1, r);
  }

  /** Euclidean division has one quotient and remainder. */
  lemma DivModUnique(n: nat, k: nat, q: int, r: int)
    requires k > 0 && 0 <= r < k && n == q * k + r
    ensures n / k == q && n % k == r
  {
    var q', r' := n / k, n % k;
    assert n == q' * k + r';
    assert (q - q') * k == r' - r;
    MulZeroBound(q - q', k);
  }

  /** A multiple of k strictly between -k and k is zero. */
  lemma MulZeroBound(d: int, k: int)
    requires k > 0 && -k < d * k < k
    ensures d == 0
  {
    if d >= 1 {
      MulAtLeast(d, k);
    } else if d <= -1 {
      MulAtLeast(-d, k);
    }
  }

  lemma MulAtLeast(d: int, k: int)
    requires d >= 1 && k >= 0
    ensures d * k >= k && (-d) * k <= -k
  {
    assert d * k == (d - 1) * k + k;
    assert (-d) * k == -(d * k);
  }

  /** `range(0, len(s), k)` has ceil(len(s) / k) elements: one per full
      measure, and one more for a trailing partial measure. */
  lemma {:induction false} ChunksCount<T>(s: seq<T>, k: nat)
    requires k > 0
    ensures |Chunks(s, k)| == |s| / k + (if |s| % k == 0 then 0 else 1)
    decreases |s|
  {
    if |s| == 0 {
    } else if |s| < k {
      DivModUnique(|s|, k, 0, |s|);
    } else if |s| == k {
      DivModUnique(|s|, k, 1, 0);
    } else {
      ChunksCount(s[k..], k);
      DivModSub(|s|, k);
    }
  }

  /** The last measure holds the remainder of the beats, or a full k. */
  lemma {:induction false} ChunksLast<T>(s: seq<T>, k: nat)
    requires k > 0 && |s| > 0
    ensures |Chunks(s, k)[|Chunks(s, k)| - 1]| == if |s| % k == 0 then k else |s| % k
    decreases |s|
  {
    if |s| < k {
      DivModUnique(|s|, k, 0, |s|);
    } else if |s| == k {
      DivModUnique(|s|, k, 1, 0);
    } else {
      ChunksLast(s[k..], k);
      DivModSub(|s|, k);
    }
  }

  /** Measure j is the slice `s[j*k : j*k + k]`, clipped at the end: the
      recursive definition is the list comprehension. */
  lemma {:induction false} ChunkAt<T>(s: seq<T>, k: nat, j: nat)
    requires k > 0 && j < |Chunks(s, k)|
    ensures j * k < |s|
    ensures Chunks(s, k)[j] == s[j * k .. if j * k + k <= |s| then j * k + k else |s|]
    decreases j
  {
    if j > 0 {
      var rest := s[k..];
      assert Chunks(s, k)[j] == Chunks(rest, k)[j - 1];
      ChunkAt(rest, k, j - 1);
      var a := (j - 1) * k;
      MulSucc(j - 1, k);
      SuffixSlice(s, k, a, if a + k <= |rest| then a + k else |rest|);
    }
  }

  lemma MulSucc(j: nat, k: nat)
    ensures (j + 1) * k == j * k + k
  {
  }

  /** A slice of a suffix is a slice of the whole, shifted. */
  lemma SuffixSlice<T>(s: seq<T>, k: nat, a: nat, b: nat)
    requires k <= |s| && a <= b <= |s| - k
    ensures s[k..][a..b] == s[k + a .. k + b]
  {
  }

  // ---------------------------------------------------------------------------
  // The samples of one measure: `y[int(measure[0]*sr):int(measure[-1]*sr)]`

  /** Python's `int()` on a float: truncation toward zero. */
  function Trunc(x: real): (r: int)
    ensures 0.0 <= x ==> 0 <= r && r as real <= x < r as real + 1.0
    ensures x < 0.0 ==> r <= 0 && r as real - 1.0 < x <= r as real
  {
    if x >= 0.0 then x.Floor else -((-x).Floor)
  }

  /** A slice bound as Python normalises it: negative bounds count from the
      end, and everything is clipped to 0..n. */
  function SliceBound(i: int, n: nat): (b: nat)
    ensures b <= n
  {
    if i < 0 then (if i + n < 0 then 0 else i + n)
    else if i > n then n
    else i
  }

  /** `y[a:b]`. */
  function Slice<T>(y: seq<T>, a: int, b: int): (r: seq<T>)
    ensures |r| <= |y|
  {
    var lo, hi := SliceBound(a, |y|), SliceBound(b, |y|);
    if lo < hi then y[lo..hi] else []
  }

  /** A slice is a contiguous run of y; with bounds inside y it is the plain
      subsequence, and bounds that cross give nothing. */
  lemma SliceIsRun<T>(y: seq<T>, a: int, b: int)
    ensures exists lo, hi :: 0 <= lo <= hi <= |y| && Slice(y, a, b) == y[lo..hi]
    ensures 0 <= a <= b <= |y| ==> Slice(y, a, b) == y[a..b]
    ensures 0 <= b <= a ==> Slice(y, a, b) == []
  {
    var lo, hi := SliceBound(a, |y|), SliceBound(b, |y|);
    if lo < hi {
      assert Slice(y, a, b) == y[lo..hi];
    } else {
      assert Slice(y, a, b) == y[lo..lo];
    }
  }

  /** The sample index of a beat time at sample rate sr. */
  function SampleIndex(t: real, sr: nat): (k: int)
    ensures 0.0 <= t ==> 0 <= k && k as real <= t * sr as real < k as real + 1.0
  {
    Trunc(t * sr as real)
  }

  /** The samples from a measure's first beat to its last. */
  function Segment(y: seq<real>, sr: nat, m: seq<real>): (r: seq<real>)
    requires |m| > 0
    ensures |r| <= |y|
  {
    Slice(y, SampleIndex(m[0], sr), SampleIndex(m[|m| - 1], sr))
  }

  /** For non-negative beat times the segment starts at the sample at or just
      before the first beat and stops before the one at or just before the
      last, clipped to the recording. */
  lemma SegmentOfBeats(y: seq<real>, sr: nat, m: seq<real>)
    requires |m| > 0 && 0.0 <= m[0] <= m[|m| - 1]
    ensures var a, b := SampleIndex(m[0], sr), SampleIndex(m[|m| - 1], sr);
      0 <= a <= b &&
      a as real <= m[0] * sr as real < a as real + 1.0 &&
      b as real <= m[|m| - 1] * sr as real < b as real + 1.0 &&
      Segment(y, sr, m) == y[SliceBound(a, |y|)..SliceBound(b, |y|)]
  {
    SampleIndexMonotone(m[0], m[|m| - 1], sr);
    SliceIsRun(y, SampleIndex(m[0], sr), SampleIndex(m[|m| - 1], sr));
  }

  /** A later non-negative beat time never has an earlier sample index. */
  lemma SampleIndexMonotone(s: real, t: real, sr: nat)
    requires 0.0 <= s <= t
    ensures SampleIndex(s, sr) <= SampleIndex(t, sr)
  {
    var c := sr as real;
    MulNonNegativeMonotone(s, t, c);
    TruncMonotone(s * c, t * c);
  }

  lemma TruncMonotone(x: real, y: real)
    requires 0.0 <= x <= y
    ensures Trunc(x) <= Trunc(y)
  {
    var a, b := x.Floor, y.Floor;
    assert a as real <= x <= y < b as real + 1.0;
    assert (a - b) as real < 1.0;
  }

  lemma MulNonNegativeMonotone(s: real, t: real, c: real)
    requires 0.0 <= s <= t && 0.0 <= c
    ensures 0.0 <= s * c <= t * c
  {
    assert t * c - s * c == (t - s) * c;
  }

  // ---------------------------------------------------------------------------
  // The positive half of the spectrum

  /** One FFT bin: its frequency (`fftfreq`) and magnitude (`abs`). */
  datatype Bin = Bin(freq: real, amp: real)

  /** The boolean mask `frequencies > 0` applied to both arrays. */
  function PositiveBins(bins: seq<Bin>): (r: seq<Bin>)
    ensures forall i :: 0 <= i < |r| ==> r[i].freq > 0.0
    ensures forall b :: b in r <==> b in bins && b.freq > 0.0
  {
    if |bins| == 0 then []
    else
      var p := PositiveBins(bins[..|bins| - 1]);
      assert bins == bins[..|bins| - 1] + [bins[|bins| - 1]];
      if bins[|bins| - 1].freq > 0.0 then p + [bins[|bins| - 1]] else p
  }

  function Freqs(bins: seq<Bin>): (fs: seq<real>)
    ensures |fs| == |bins| && forall i :: 0 <= i < |bins| ==> fs[i] == bins[i].freq
  {
    seq(|bins|, i requires 0 <= i < |bins| => bins[i].freq)
  }

  function Amps(bins: seq<Bin>): (r: seq<real>)
    ensures |r| == |bins| && forall i :: 0 <= i < |bins| ==> r[i] == bins[i].amp
  {
    seq(|bins|, i requires 0 <= i < |bins| => bins[i].amp)
  }

  /** The masked frequencies are all positive, which the octave loops need. */
  lemma MaskedFrequenciesPositive(bins: seq<Bin>)
    ensures AllPositive(Freqs(PositiveBins(bins)))
  {
  }

  /** The chord of one measure: its segment's spectrum, masked, labelled with
      the default threshold. `spectrum` stands for `fft`, `fftfreq` and `abs`.
      None where the source raises: `measure[0]` of an empty measure, or
      `fft` of an empty segment. */
  function MeasureChord(y: seq<real>, sr: nat, spectrum: seq<real> -> seq<Bin>, m: seq<real>): Option<string> {
    if |m| == 0 || |Segment(y, sr, m)| == 0 then None
    else
      var bins := PositiveBins(spectrum(Segment(y, sr, m)));
      Some(ChordOf(Freqs(bins), Amps(bins), DefaultThreshold))
  }

  // ---------------------------------------------------------------------------
  // The per-measure loop

  /** A result line: the 1-based measure number and its chord. */
  datatype Entry = Entry(number: nat, chord: string)

  /** The chords reported for a list of measures, and the number of the
      measure at which the labelling raised, if any. */
  datatype Analysis = Analysis(entries: seq<Entry>, failedAt: Option<nat>)

  /** The loop over `enumerate(measures)`: a measure with fewer than bpm beats
      is skipped; any other is labelled by `chordOf` under its 1-based index,
      and where `chordOf` raises the loop stops. */
  function Reported(ms: seq<seq<real>>, bpm: nat, chordOf: seq<real> -> Option<string>): Analysis {
    if |ms| == 0 then Analysis([], None)
    else
      var r := Reported(ms[..|ms| - 1], bpm, chordOf);
      var m := ms[|ms| - 1];
      if r.failedAt.Some? || |m| < bpm then r
      else if chordOf(m).None? then Analysis(r.entries, Some(|ms|))
      else Analysis(r.entries + [Entry(|ms|, chordOf(m).value)], None)
  }

  /** How many measures the loop got through: all of them, or those before
      the one that raised. */
  function Stop(a: Analysis, count: nat): nat {
    if a.failedAt.Some? && 0 < a.failedAt.value <= count + 1 then a.failedAt.value - 1 else count
  }

  /** Once the loop has stopped, later measures change nothing. */
  lemma {:induction false} ReportedUnchangedAfterFailure(ms: seq<seq<real>>, n: nat, bpm: nat,
                                                          chordOf: seq<real> -> Option<string>)
    requires n <= |ms| && Reported(ms[..n], bpm, chordOf).failedAt.Some?
    ensures Reported(ms, bpm, chordOf) == Reported(ms[..n], bpm, chordOf)
    decreases |ms| - n
  {
    if n < |ms| {
      var ms' := ms[..|ms| - 1];
      assert ms'[..n] == ms[..n];
      ReportedUnchangedAfterFailure(ms', n, bpm, chordOf);
      assert Reported(ms', bpm, chordOf).failedAt.Some?;
    } else {
      assert ms[..n] == ms;
    }
  }

  /** A failure names a complete measure whose labelling raised. */
  lemma {:induction false} ReportedFailure(ms: seq<seq<real>>, bpm: nat, chordOf: seq<real> -> Option<string>)
    ensures var a := Reported(ms, bpm, chordOf);
      a.failedAt.Some? ==>
        1 <= a.failedAt.value <= |ms| && |ms[a.failedAt.value - 1]| >= bpm &&
        chordOf(ms[a.failedAt.value - 1]).None?
  {
    if |ms| > 0 {
      ReportedFailure(ms[..|ms| - 1], bpm, chordOf);
    }
  }

  /** Each line numbers a complete measure before the stopping point and
      carries that measure's chord, and the numbers strictly increase. */
  lemma {:induction false} ReportedSound(ms: seq<seq<real>>, bpm: nat, chordOf: seq<real> -> Option<string>)
    ensures var a := Reported(ms, bpm, chordOf);
      (forall k :: 0 <= k < |a.entries| ==>
         1 <= a.entries[k].number <= Stop(a, |ms|) &&
         |ms[a.entries[k].number - 1]| >= bpm &&
         chordOf(ms[a.entries[k].number - 1]) == Some(a.entries[k].chord)) &&
      (forall k, l :: 0 <= k < l < |a.entries| ==> a.entries[k].number < a.entries[l].number)
  {
    if |ms| > 0 {
      var ms' := ms[..|ms| - 1];
      ReportedSound(ms', bpm, chordOf);
      ReportedFailure(ms', bpm, chordOf);
      assert forall i :: 0 <= i < |ms'| ==> ms'[i] == ms[i];
    }
  }

  /** Every complete measure before the stopping point has a line. */
  lemma {:induction false} ReportedComplete(ms: seq<seq<real>>, bpm: nat, chordOf: seq<real> -> Option<string>)
    ensures var a := Reported(ms, bpm, chordOf);
      forall i :: 0 <= i < Stop(a, |ms|) && |ms[i]| >= bpm ==>
        exists k :: 0 <= k < |a.entries| && a.entries[k].number == i + 1
  {
    if |ms| > 0 {
      var ms' := ms[..|ms| - 1];
      ReportedComplete(ms', bpm, chordOf);
      ReportedFailure(ms', bpm, chordOf);
      var r, a := Reported(ms', bpm, chordOf), Reported(ms, bpm, chordOf);
      if r.failedAt.None? && |ms[|ms| - 1]| >= bpm && chordOf(ms[|ms| - 1]).Some? {
        forall i | 0 <= i < |ms| && |ms[i]| >= bpm
          ensures exists k :: 0 <= k < |a.entries| && a.entries[k].number == i + 1
        {
          if i == |ms| - 1 {
            assert a.entries[|r.entries|].number == i + 1;
          } else {
            assert ms'[i] == ms[i];
            var k :| 0 <= k < |r.entries| && r.entries[k].number == i + 1;
            assert a.entries[k].number == i + 1;
          }
        }
      } else {
        assert forall i :: 0 <= i < |ms'| ==> ms'[i] == ms[i];
      }
    }
  }

  /** When every measure is complete and nothing raises, the lines are
      numbered 1, 2, 3, ... with one line per measure. */
  lemma {:induction false} AllCompleteReported(ms: seq<seq<real>>, bpm: nat, chordOf: seq<real> -> Option<string>)
    requires forall i :: 0 <= i < |ms| ==> |ms[i]| >= bpm
    ensures var a := Reported(ms, bpm, chordOf);
      a.failedAt.None? ==>
        |a.entries| == |ms| &&
        forall k :: 0 <= k < |ms| ==>
          a.entries[k].number == k + 1 && chordOf(ms[k]) == Some(a.entries[k].chord)
  {
    if |ms| > 0 {
      var ms' := ms[..|ms| - 1];
      AllCompleteReported(ms', bpm, chordOf);
      assert forall k :: 0 <= k < |ms'| ==> ms'[k] == ms[k];
    }
  }

  /** Measures cut from the beats by chunking: unless the labelling raises,
      one line per full measure, numbered 1, 2, 3, ...; a trailing partial
      measure gives none. */
  lemma ChunkedReported(beats: seq<real>, bpm: nat, chordOf: seq<real> -> Option<string>)
    requires bpm > 0
    ensures var ms := Chunks(beats, bpm);
      var a := Reported(ms, bpm, chordOf);
      a.failedAt.None? ==>
        |a.entries| == |beats| / bpm <= |ms| &&
        forall k :: 0 <= k < |a.entries| ==>
          a.entries[k].number == k + 1 && chordOf(ms[k]) == Some(a.entries[k].chord)
  {
    var ms := Chunks(beats, bpm);
    ChunksCount(beats, bpm);
    ChunksFull(beats, bpm);
    if |beats| > 0 {
      ChunksLast(beats, bpm);
    }
    if |beats| % bpm == 0 {
      AllCompleteReported(ms, bpm, chordOf);
    } else {
      var ms' := ms[..|ms| - 1];
      assert Reported(ms, bpm, chordOf) == Reported(ms', bpm, chordOf);
      AllCompleteReported(ms', bpm, chordOf);
    }
  }
}
