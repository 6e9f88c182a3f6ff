# Apollo chord labeller — a Dafny model

Apollo labels the chords of a recording measure by measure. A beat tracker
gives the beat times. These are cut into measures of a fixed number of beats,
and each complete measure is labelled from the spectrum of the audio between
its first and last beat. The labeller keeps the frequencies whose amplitude
is above a tenth of the loudest one. It folds each of them into the octave
of C4 and matches it to the nearest note of a twelve-note table. The result
is a chord named after its first note, a dyad, a single note, or
"No chord detected".

This project models two versions of that pipeline:

- the command-line `apollo.py`, which assumes 4/4 time;
- the desktop `ApolloChordTest/apollo.py`, whose worker thread handles a
  chosen time signature, groups the beats of compound meters in threes, and
  reports progress, result lines and errors through a queue.

Modules:

- `Notes` (notes.dfy): the note table, its names and pitches.
- `Octave` (octave.dfy): the two folding loops and the closest-note search.
- `Chords` (chords.dfy): `get_chord_from_frequencies`, proved against a
  specification function `ChordOf`.
- `Measures` (measures.dfy): chunking the beats into measures, the
  sample slice of one measure, the positive-frequency mask, and the
  numbered chord list with incomplete measures skipped.
- `Apollo` (apollo.dfy): `analyze_wav_file` after loading and beat tracking.
- `ChordTest` (chord_test.dfy): the time-signature table, compound
  grouping, the progress formula, and the worker as a class whose method
  puts messages on a queue.

The audio itself, its beats and its spectrum are parameters. A measure
whose labelling raises in the source is an explicit failure in the model.

## Model

| member | source | states |
|---|---|---|
| Notes.Index | apollo.py:13-17 | every note has a position in the table, in the dictionary's insertion order C..B |
| Notes.TableDistinct | apollo.py:13-17 | the table lists each note once |
| Notes.NameInjective | apollo.py:13-17 | different notes have different printed names |
| Notes.Name | apollo.py:13-17 | the dictionary key of each note: its letter, followed by `#` for a sharp |
| Notes.Pitch | apollo.py:13-17 | the dictionary value of each note: its octave-4 reference pitch in hertz |
| Notes.PitchesIncrease | apollo.py:13-17 | the reference pitches rise strictly along the table |
| Notes.PitchIsEqualTempered | apollo.py:13-17 | each table pitch is within 0.005 Hz of the equal-tempered pitch 440 * 2^((k - 9) / 12) |
| Octave.FoldDown | apollo.py:29-30 | halving while above 493.88 ends at a positive value of at most 493.88, above 246.94 when it halved at all, and leaves a value already at most 493.88 alone |
| Octave.FoldUp | apollo.py:31-32 | doubling while below 261.63 ends at 261.63 or above, leaves a value already there alone, and stays below 523.26 when started below it |
| Octave.Fold | apollo.py:29-32 | the folded frequency lies in [261.63, 523.26), the C4 octave |
| Octave.FoldToOctave | apollo.py:29-32 | the two while loops end, and their result is Fold(freq) |
| Octave.FoldIsOctaveShift | apollo.py:29-32 | folding moves a frequency by whole octaves only |
| Octave.OctaveRepresentativeIsUnique | apollo.py:29-32 | any whole-octave shift of f that lands in [261.63, 523.26) equals Fold(f) |
| Octave.FoldOvershoots | apollo.py:29-32 | a value just above 493.88 halves, doubles back, and stays above 493.88 (500 folds to 500) |
| Octave.ClosestFrom | apollo.py:35 | the scan returns an entry of least distance, and the first such entry from the starting position on |
| Octave.Closest | apollo.py:35 | `min` over the table returns a note of least distance, strictly nearer than every earlier note |
| Octave.NoteOf | apollo.py:29-35 | a dominant frequency's note is one whose pitch is nearest to the folded frequency |
| Octave.NearC5IsLabelledB | apollo.py:29-35 | 515 Hz folds to itself and is labelled B, because the table has no C5 |
| Chords.Max | apollo.py:22 | `max(amplitudes)` is an element of the list and at least every element |
| Chords.Kept | apollo.py:20-23 | the zip loop over the first n pairs keeps at most n frequencies |
| Chords.Dominant | apollo.py:20-23 | `zip` stops at the shorter list, so there are at most as many dominant frequencies as either input has entries |
| Chords.KeptMembers | apollo.py:20-23 | the zip loop keeps a frequency iff its paired amplitude exceeds the cutoff |
| Chords.DominantMembers | apollo.py:20-23 | a frequency is dominant iff it pairs with an amplitude above threshold * max(amplitudes) |
| Chords.DominantPositive | apollo.py:20-23 | dominant frequencies of positive inputs are positive |
| Chords.DominantFrequencies | apollo.py:20-23 | the loop computes Dominant, evaluating max only when the body runs |
| Chords.Dedup | apollo.py:36-37 | appending only notes that are `not in` the list keeps at most as many notes as were matched |
| Chords.DedupElements | apollo.py:36-37 | the `not in` check keeps exactly the notes that occur |
| Chords.DedupDistinct | apollo.py:36-37 | the detected notes are pairwise distinct |
| Chords.DedupFirstSeen | apollo.py:36-37 | the detected notes keep the order of their first occurrence |
| Chords.DistinctAtMostTwelve | apollo.py:26-37 | a list of distinct notes has at most twelve entries |
| Chords.DetectedNotesProperties | apollo.py:26-37 | the detected notes are distinct, at most twelve, exactly the notes of the dominant frequencies, and in first-seen order |
| Chords.CollectNotes | apollo.py:26-37 | the matching loop yields the deduplicated notes of the dominant frequencies |
| Chords.Label | apollo.py:40-49 | the four label cases: three or more notes give "root chord", two give "first-second dyad", one gives that note, none gives "No chord detected"; any non-empty list's label starts with its first note's name |
| Chords.NoChordIffEmpty | apollo.py:40-49 | "No chord detected" is returned iff no note was detected |
| Chords.LabelsAgree | apollo.py:40-49 | two note lists get the same label iff both have three or more notes with the same first note, or they are the same list of at most two |
| Chords.NoChordIffNoDominant | apollo.py:20-49 | the result is "No chord detected" iff no frequency is dominant |
| Chords.EmptyInputIsNoChord | apollo.py:20-23 | empty frequencies or amplitudes give "No chord detected" without reaching `max` |
| Chords.SilenceIsNoChord | apollo.py:20-49 | all-zero amplitudes give "No chord detected" |
| Chords.LoudestAboveCutoff | apollo.py:22 | with a threshold below 1, the loudest positive amplitude passes the cutoff |
| Chords.SoundIsLabelled | apollo.py:20-49 | non-empty paired input with a positive maximum and a threshold below 1 gets a note, dyad or chord label |
| Chords.GetChordFromFrequencies | apollo.py:7-49 | the labeller returns ChordOf(frequencies, amplitudes, threshold) |
| Measures.Chunks | apollo.py:64-65 | every measure has between 1 and k beats |
| Measures.ChunksConcat | apollo.py:64-65 | the measures concatenate back to the beat times |
| Measures.ChunksFull | apollo.py:64-65 | every measure but the last has exactly k beats |
| Measures.ChunksCount | apollo.py:64-65 | there are ceil(n / k) measures |
| Measures.ChunksLast | apollo.py:64-65 | the last measure holds n mod k beats, or k when k divides n |
| Measures.ChunkAt | apollo.py:64-65 | measure j is the slice beat_times[j*k : j*k+k], clipped at the end |
| Measures.Trunc | apollo.py:76-77 | `int()` truncates toward zero |
| Measures.SliceBound | apollo.py:78 | a slice bound is normalised into 0..len(y) |
| Measures.Slice | apollo.py:78 | `y[a:b]` is never longer than y |
| Measures.SampleIndex | apollo.py:76-77 | `int(t * sr)` for a non-negative beat time is the sample at or just before it |
| Measures.SampleIndexMonotone | apollo.py:76-77 | a later beat never has an earlier sample index, so the slice bounds of a measure with ordered beats do not cross |
| Measures.Segment | apollo.py:76-78 | the samples from a measure's first beat to its last are never more than the recording |
| Measures.SliceIsRun | apollo.py:78 | `y[a:b]` is a contiguous run of y; it is y[a..b] for bounds inside y, and empty when the bounds cross |
| Measures.SegmentOfBeats | apollo.py:76-78 | for non-negative beat times, the segment runs from the first beat's sample to the last beat's sample, clipped to the recording |
| Measures.PositiveBins | apollo.py:86-88 | the mask keeps exactly the bins whose frequency is positive |
| Measures.MaskedFrequenciesPositive | apollo.py:86-88 | the frequencies handed to the labeller are all positive |
| Measures.MeasureChord | apollo.py:76-91 | one measure's chord, or a failure where `measure[0]` or `fft` of an empty segment raises |
| Measures.Reported | apollo.py:71-92 | the numbered lines of the loop: incomplete measures skipped, complete ones numbered by their position among all measures, and a raising measure stops the loop |
| Measures.ReportedUnchangedAfterFailure | apollo.py:71-92 | once a measure has raised, later measures change nothing |
| Measures.ReportedFailure | apollo.py:71-92 | a failure names a complete measure whose labelling raised |
| Measures.ReportedSound | apollo.py:71-92 | each line numbers a complete measure (1-based, before the stopping point), carries its chord, and numbers strictly increase |
| Measures.ReportedComplete | apollo.py:71-92 | every complete measure before the stopping point has a line |
| Measures.AllCompleteReported | apollo.py:71-92 | with every measure complete and no failure, the lines are numbered 1..n with one line per measure |
| Measures.ChunkedReported | apollo.py:63-92 | for chunked beats and no failure: one line per full measure (n div k of them), numbered 1, 2, 3, ..., and the trailing partial measure is skipped |
| Apollo.AnalyzeMeasure | apollo.py:76-91 | one measure's chord; it fails exactly when the measure is empty or its segment is empty |
| Apollo.AnalyzeWavFile | apollo.py:63-94 | the loop's result is the chunked, skipped and numbered report; without failure it has len(beat_times) div 4 lines numbered 1, 2, 3, ... |
| ChordTest.TableIsUpperNumber | ApolloChordTest/apollo.py:20-28 | each signature maps to its upper number (at least 2); the compound meters are the /8 signatures whose upper number is a multiple of 3 |
| ChordTest.Grouped | ApolloChordTest/apollo.py:147-151 | the first beat of every complete group of three |
| ChordTest.BeatsFor | ApolloChordTest/apollo.py:144-154 | the beats of a non-compound signature pass through unchanged; a compound one keeps floor(n / 3) of them |
| ChordTest.GroupCompoundBeats | ApolloChordTest/apollo.py:144-152 | the stepped loop keeps beat 3j for every complete group of three |
| ChordTest.GroupedLength | ApolloChordTest/apollo.py:147-151 | grouping keeps floor(n / 3) beats |
| ChordTest.GroupedIsSubsequence | ApolloChordTest/apollo.py:147-151 | the grouped beats are the first beats of consecutive groups, in order |
| ChordTest.GroupedStaysIncreasing | ApolloChordTest/apollo.py:147-152 | grouping keeps increasing beat times increasing |
| ChordTest.Percent | ApolloChordTest/apollo.py:169 | the progress value 30 + i / total * 70 of measure i |
| ChordTest.PercentBounds | ApolloChordTest/apollo.py:169 | the per-measure progress lies in [30, 100) |
| ChordTest.PercentIncreasing | ApolloChordTest/apollo.py:169 | the progress value rises with the measure index |
| ChordTest.Header | ApolloChordTest/apollo.py:136-161 | the loading, beat-detection and measure-analysis progress messages, then the time-signature line |
| ChordTest.ErrorTail | ApolloChordTest/apollo.py:191-194 | the error line, the error progress message and the completion signal |
| ChordTest.SuccessTail | ApolloChordTest/apollo.py:188-189 | the final progress message and the completion signal |
| ChordTest.Tail | ApolloChordTest/apollo.py:188-194 | the error tail after a failure, otherwise the success tail |
| ChordTest.LoopMessages | ApolloChordTest/apollo.py:164-186 | the loop's messages: a progress message and a result line per complete measure, until a measure raises after its progress message |
| ChordTest.WorkerMessages | ApolloChordTest/apollo.py:129-194 | everything one run of the worker sends: the error tail for an unknown signature, otherwise header, loop messages and tail |
| ChordTest.LoopProgress | ApolloChordTest/apollo.py:164-170 | the loop sends no completion signal; each progress message names a measure, carries its percentage, and numbers rise |
| ChordTest.LoopLinesAreReported | ApolloChordTest/apollo.py:164-186 | the loop's measure lines are the numbered chord report |
| ChordTest.TailCompletesOnce | ApolloChordTest/apollo.py:188-194 | both endings send the completion signal once, last |
| ChordTest.RunCompletesOnce | ApolloChordTest/apollo.py:136-194 | header, loop messages and tail together end with the completion signal and hold no other |
| ChordTest.WorkerCompletesOnce | ApolloChordTest/apollo.py:129-194 | whatever happens, the worker's last message is the completion signal, and it is sent once |
| ChordTest.UnknownSignatureReported | ApolloChordTest/apollo.py:130-133 | a signature missing from the table gives an error line and no measure lines |
| ChordTest.RunLines | ApolloChordTest/apollo.py:161-194 | the only measure lines among header, loop messages and tail are the numbered report |
| ChordTest.WorkerLines | ApolloChordTest/apollo.py:133-186 | for a listed signature, the measure lines are the numbered report; without failure there is one line per full measure, numbered 1, 2, 3, ... |
| ChordTest.ChordAnalyzer.constructor | ApolloChordTest/apollo.py:11-28 | a new analyzer holds the signature table and an empty queue |
| ChordTest.ChordAnalyzer.GetChordFromFrequencies | ApolloChordTest/apollo.py:196-227 | the method's labeller returns ChordOf, the same function as the module-level one |
| ChordTest.ChordAnalyzer.AnalyzeFile | ApolloChordTest/apollo.py:129-194 | the worker appends exactly WorkerMessages to the queue and leaves the table unchanged |
| ChordTest.ChordAnalyzer.MeasureLoop | ApolloChordTest/apollo.py:164-194 | the loop appends its progress and result messages, then the final progress or the error report, then the completion signal |
| ChordTest.ChordAnalyzer.MeasureTurn | ApolloChordTest/apollo.py:164-186 | one turn skips an incomplete measure, or sends its progress and its line, or ends the run with the error report |

## Left out

- The Tkinter interface is not modelled: window layout, file browsing, the progress bar and text widgets, the polling of the queue, and the worker thread. The queue is a sequence the worker appends to; nothing consumes it concurrently.
- Audio loading, beat tracking and the frame-to-time conversion are not modelled. The samples, the sample rate and the beat times are parameters.
- The FFT, `fftfreq` and `abs` are not modelled. The spectrum of a segment is a function parameter returning (frequency, amplitude) bins; only the positive-frequency mask applied to it is modelled.
- Floating point is not modelled: frequencies, amplitudes and percentages are exact reals, so float rounding and NaN are not captured.
- Console output (`print`, `tqdm`) and `main` are not modelled.
- Message texts are not modelled as formatted strings. Progress states, result lines and errors are datatype constructors. The text of `str(e)` becomes the failure's kind: an unknown signature, or the number of the measure that raised.
- Errors from file loading and beat tracking are not modelled. The modelled failures are the unknown signature (a `KeyError`) and a measure whose labelling raises: an empty segment makes the FFT raise.
- Chords.GetChordFromFrequencies: requires positive frequencies, because for a non-positive dominant frequency the source's doubling loop never ends; a non-positive frequency whose amplitude is below the cutoff is harmless there. Both callers pass masked, positive frequencies.
- Apollo.AnalyzeWavFile: a measure that raises ends the loop with a failure marker and keeps the lines found so far. In the source the exception propagates and the partial list is lost.
- The `ApolloReact` front end is not part of this model.
