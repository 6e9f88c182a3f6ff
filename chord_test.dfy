/** `ChordAnalyzerGUI` (ApolloChordTest/apollo.py) without its widgets: the
    time-signature table, and the worker `analyze_file`, which groups beats
    in compound meters, cuts measures of the selected length and reports
    progress and result lines through the message queue.

    The queue is the sequence of messages the worker has put; the GUI side
    that drains it runs on another thread and is not modelled. */
module ChordTest {
  import opened Chords
  import opened Measures
  import opened Apollo

  /** The selectable signatures and the measure length each selects. */
  const TimeSignatures: map<string, nat> :=
    map["4/4" := 4, "3/4" := 3, "6/8" := 6, "12/8" := 12, "2/4" := 2, "2/2" := 2, "9/8" := 9]

  /** The signatures whose beats are grouped in threes. */
  const CompoundMeters: set<string> := {"6/8", "9/8", "12/8"}

  // ---------------------------------------------------------------------------
  // The table

  function DigitValue(c: char): nat {
    if '0' <= c <= '9' then c as nat - '0' as nat else 0
  }

  /** The decimal number written by the digits of s. */
  function Decimal(s: string): nat {
    if |s| == 0 then 0 else 10 * Decimal(s[..|s| - 1]) + DigitValue(s[|s| - 1])
  }

  /** The text of a signature before the '/'. */
  function Before(s: string): string {
    if |s| == 0 || s[0] == '/' then [] else [s[0]] + Before(s[1..])
  }

  /** The text of a signature after the first '/'. */
  function After(s: string): string {
    if |s| == 0 then [] else if s[0] == '/' then s[1..] else After(s[1..])
  }

  /** The upper and lower numbers of one signature. */
  lemma {:induction false} Parts(sig: string, upper: nat, lower: nat)
    requires sig in {"4/4", "3/4", "6/8", "12/8", "2/4", "2/2", "9/8"}
    requires upper == (if sig == "12/8" then 12 else DigitValue(sig[0]))
    requires lower == DigitValue(sig[|sig| - 1])
    ensures Decimal(Before(sig)) == upper && Decimal(After(sig)) == lower
  {
    var tail := sig[|sig| - 1..];
    if sig == "12/8" {
      assert Before(sig) == "12" by { assert Before(sig[1..]) == "2"; }
      assert Decimal("12") == 12 by { assert "12"[..1] == "1"; }
      assert After(sig) == "8" by { assert After(sig[1..]) == "8"; }
    } else {
      assert Before(sig) == sig[..1];
      assert After(sig) == tail;
    }
  }

  /** The measure length of each signature is its upper number, and the
      compound meters are the listed signatures over 8 with an upper number
      divisible by 3; every length is at least 2. */
  lemma TableIsUpperNumber()
    ensures forall sig :: sig in TimeSignatures ==>
      TimeSignatures[sig] == Decimal(Before(sig)) && TimeSignatures[sig] >= 2
    ensures forall sig :: sig in CompoundMeters <==>
      sig in TimeSignatures && Decimal(After(sig)) == 8 && Decimal(Before(sig)) % 3 == 0
  {
    var keys := {"4/4", "3/4", "6/8", "12/8", "2/4", "2/2", "9/8"};
    assert TimeSignatures.Keys == keys;
    forall sig | sig in keys
      ensures TimeSignatures[sig] == Decimal(Before(sig)) && TimeSignatures[sig] >= 2
      ensures sig in CompoundMeters <==> Decimal(After(sig)) == 8 && Decimal(Before(sig)) % 3 == 0
    {
      Parts(sig, if sig == "12/8" then 12 else DigitValue(sig[0]), DigitValue(sig[|sig| - 1]));
    }
  }

  /** Every listed signature has a positive measure length. */
  lemma TableLengthsPositive(sig: string)
    requires sig in TimeSignatures
    ensures TimeSignatures[sig] > 0
  {
    TableIsUpperNumber();
  }

  // ---------------------------------------------------------------------------
  // Compound-meter grouping

  /** The first beat of every complete group of three. */
  function Grouped(b: seq<real>): seq<real> {
    seq(|b| / 3, j requires 0 <= j < |b| / 3 => b[3 * j])
  }

  /** `for i in range(0, len(beat_times), 3): if i + 2 < len(beat_times): ...` */
  method GroupCompoundBeats(beatTimes: seq<real>) returns (grouped: seq<real>)
    ensures grouped == Grouped(beatTimes)
  {
    grouped := [];
    var i := 0;
    while i < |beatTimes|
      invariant 0 <= i <= |beatTimes| + 2 && i % 3 == 0
      invariant |grouped| == if i / 3 <= |beatTimes| / 3 then i / 3 else |beatTimes| / 3
      invariant forall j :: 0 <= j < |grouped| ==> grouped[j] == beatTimes[3 * j]
    {
      if i + 2 < |beatTimes| {
        grouped := grouped + [beatTimes[i]];
      }
      i := i + 3;
    }
  }

  /** The grouping keeps one beat per complete group of three and drops a
      trailing group of one or two beats. */
  lemma GroupedLength(b: seq<real>)
    ensures 3 * |Grouped(b)| <= |b| < 3 * |Grouped(b)| + 3
  {
  }

  /** The kept beats appear in the grouped list in their original order:
      each is three places after the one before it. */
  lemma GroupedIsSubsequence(b: seq<real>, j: nat, l: nat)
    requires j < l < |Grouped(b)|
    ensures 3 * j < 3 * l < |b| && Grouped(b)[j] == b[3 * j] && Grouped(b)[l] == b[3 * l]
  {
  }

  /** Increasing beat times stay increasing after grouping. */
  lemma GroupedStaysIncreasing(b: seq<real>)
    requires forall i, j :: 0 <= i < j < |b| ==> b[i] < b[j]
    ensures forall i, j :: 0 <= i < j < |Grouped(b)| ==> Grouped(b)[i] < Grouped(b)[j]
  {
    var g := Grouped(b);
    forall i, j | 0 <= i < j < |g|
      ensures g[i] < g[j]
    {
      assert g[i] == b[3 * i] && g[j] == b[3 * j];
    }
  }

  /** The beats cut into measures: grouped first in compound meters, passed
      through unchanged otherwise. */
  function BeatsFor(sig: string, beatTimes: seq<real>): (beats: seq<real>)
    ensures sig !in CompoundMeters ==> beats == beatTimes
    ensures sig in CompoundMeters ==> 3 * |beats| <= |beatTimes| < 3 * |beats| + 3
  {
    GroupedLength(beatTimes);
    if sig in CompoundMeters then Grouped(beatTimes) else beatTimes
  }

  // ---------------------------------------------------------------------------
  // Progress

  /** `30 + (i / total_measures * 70)`. */
  function Percent(i: nat, total: nat): real
    requires i < total
  {
    30.0 + (i as real / total as real) * 70.0
  }

  /** The measure progress stays in [30, 100). */
  lemma PercentBounds(i: nat, total: nat)
    requires i < total
    ensures 30.0 <= Percent(i, total) < 100.0
  {
    var t := total as real;
    assert (i as real / t) * t == i as real;
    assert i as real / t < 1.0;
  }

  /** Later measures show more progress. */
  lemma PercentIncreasing(i: nat, j: nat, total: nat)
    requires i < j < total
    ensures Percent(i, total) < Percent(j, total)
  {
    var t := total as real;
    assert j as real / t - i as real / t == (j - i) as real / t;
  }

  // ---------------------------------------------------------------------------
  // The message queue

  /** The text of a progress message. */
  datatype Status =
    | Loading
    | DetectingBeats
    | AnalyzingMeasures
    | AnalyzingMeasure(number: nat, total: nat)
    | AnalysisComplete
    | ErrorOccurred

  /** The exception behind an error line: a signature missing from the table,
      or a measure whose labelling raised. */
  datatype Failure = UnknownSignature(sig: string) | MeasureFailed(number: nat)

  /** A line of the results area. */
  datatype Line = TimeSignatureLine(sig: string) | MeasureLine(number: nat, chord: string) | ErrorLine(failure: Failure)

  /** The three kinds of queue message. */
  datatype Message = Progress(value: real, status: Status) | Result(line: Line) | Complete

  function Header(sig: string): seq<Message> {
    [Progress(0.0, Loading), Progress(20.0, DetectingBeats), Progress(30.0, AnalyzingMeasures),
     Result(TimeSignatureLine(sig))]
  }

  function ErrorTail(f: Failure): seq<Message> {
    [Result(ErrorLine(f)), Progress(0.0, ErrorOccurred), Complete]
  }

  function SuccessTail(): seq<Message> {
    [Progress(100.0, AnalysisComplete), Complete]
  }

  /** The messages after the loop: an error report, or the final progress. */
  function Tail(a: Analysis): seq<Message> {
    if a.failedAt.Some? then ErrorTail(MeasureFailed(a.failedAt.value)) else SuccessTail()
  }

  /** The messages of the per-measure loop, total being the number of all
      measures: a progress message and a result line per complete measure,
      until a measure raises (its progress message is already out). */
  function LoopMessages(ms: seq<seq<real>>, bpm: nat, total: nat, chordOf: seq<real> -> Option<string>): seq<Message>
    requires |ms| <= total
  {
    if |ms| == 0 then []
    else
      var i := |ms| - 1;
      var prev := LoopMessages(ms[..i], bpm, total, chordOf);
      if Reported(ms[..i], bpm, chordOf).failedAt.Some? || |ms[i]| < bpm then prev
      else
        var progress := Progress(Percent(i, total), AnalyzingMeasure(i + 1, total));
        if chordOf(ms[i]).None? then prev + [progress]
        else prev + [progress, Result(MeasureLine(i + 1, chordOf(ms[i]).value))]
  }

  /** The measures of a signature found in the table. */
  function MeasuresOf(sig: string, beatTimes: seq<real>): seq<seq<real>>
    requires sig in TimeSignatures
  {
    TableLengthsPositive(sig);
    Chunks(BeatsFor(sig, beatTimes), TimeSignatures[sig])
  }

  /** Everything one run of `analyze_file` puts on the queue. */
  function WorkerMessages(sig: string, y: seq<real>, sr: nat, beatTimes: seq<real>,
                          spectrum: seq<real> -> seq<Bin>): seq<Message>
  {
    if sig !in TimeSignatures then ErrorTail(UnknownSignature(sig))
    else
      var ms := MeasuresOf(sig, beatTimes);
      var bpm := TimeSignatures[sig];
      var chordOf := Labeller(y, sr, spectrum);
      var a := Reported(ms, bpm, chordOf);
      Header(sig) + LoopMessages(ms, bpm, |ms|, chordOf) + Tail(a)
  }

  lemma WorkerUnfolds(sig: string, y: seq<real>, sr: nat, beatTimes: seq<real>,
                      spectrum: seq<real> -> seq<Bin>)
    requires sig in TimeSignatures
    ensures var ms, bpm, chordOf := MeasuresOf(sig, beatTimes), TimeSignatures[sig], Labeller(y, sr, spectrum);
      TimeSignatures[sig] > 0 && ms == Chunks(BeatsFor(sig, beatTimes), bpm) &&
      WorkerMessages(sig, y, sr, beatTimes, spectrum) ==
        Header(sig) + LoopMessages(ms, bpm, |ms|, chordOf) + Tail(Reported(ms, bpm, chordOf))
  {
    TableLengthsPositive(sig);
  }

  lemma AppendAssociates(a: seq<Message>, b: seq<Message>, c: seq<Message>)
    ensures a + b + c == a + (b + c)
  {
  }

  /** The measure lines among some messages. */
  function Lines(msgs: seq<Message>): seq<Entry> {
    if |msgs| == 0 then []
    else
      var rest := Lines(msgs[..|msgs| - 1]);
      var last := msgs[|msgs| - 1];
      if last.Result? && last.line.MeasureLine? then rest + [Entry(last.line.number, last.line.chord)]
      else rest
  }

  lemma {:induction false} LinesAppend(a: seq<Message>, b: seq<Message>)
    ensures Lines(a + b) == Lines(a) + Lines(b)
    decreases |b|
  {
    if |b| == 0 {
      assert a + b == a;
    } else {
      var b' := b[..|b| - 1];
      assert (a + b)[..|a + b| - 1] == a + b';
      LinesAppend(a, b');
    }
  }

  /** The loop's result lines are exactly the measure lines the loop reports. */
  lemma {:induction false} LoopLinesAreReported(ms: seq<seq<real>>, bpm: nat, total: nat,
                                                chordOf: seq<real> -> Option<string>)
    requires |ms| <= total
    ensures Lines(LoopMessages(ms, bpm, total, chordOf)) == Reported(ms, bpm, chordOf).entries
  {
    if |ms| > 0 {
      var i := |ms| - 1;
      LoopLinesAreReported(ms[..i], bpm, total, chordOf);
      var prev := LoopMessages(ms[..i], bpm, total, chordOf);
      var progress := Progress(Percent(i, total), AnalyzingMeasure(i + 1, total));
      LinesAppend(prev, [progress]);
      if chordOf(ms[i]).Some? {
        LinesAppend(prev, [progress, Result(MeasureLine(i + 1, chordOf(ms[i]).value))]);
      }
    }
  }

  /** A progress message for one of the first n of total measures, with
      that measure's percentage. */
  predicate MeasureProgress(m: Message, n: nat, total: nat) {
    m.Progress? && m.status.AnalyzingMeasure? &&
    1 <= m.status.number <= n && m.status.number <= total && m.status.total == total &&
    m.value == Percent(m.status.number - 1, total) && 30.0 <= m.value < 100.0
  }

  /** What the loop puts for its first n measures: never a completion, and
      progress messages for those measures with rising measure numbers. */
  predicate LoopShaped(msgs: seq<Message>, n: nat, total: nat) {
    NoComplete(msgs) &&
    (forall k :: 0 <= k < |msgs| && msgs[k].Progress? ==> MeasureProgress(msgs[k], n, total)) &&
    (forall k, l :: 0 <= k < l < |msgs| && msgs[k].Progress? && msgs[l].Progress? ==>
       msgs[k].status.number < msgs[l].status.number)
  }

  lemma LoopShapedExtend(prev: seq<Message>, extra: seq<Message>, i: nat, total: nat)
    requires i < total && LoopShaped(prev, i, total)
    requires |extra| == 1 || (|extra| == 2 && extra[1].Result?)
    requires extra[0] == Progress(Percent(i, total), AnalyzingMeasure(i + 1, total))
    ensures LoopShaped(prev + extra, i + 1, total)
  {
    PercentBounds(i, total);
    var msgs := prev + extra;
    forall k, l | 0 <= k < l < |msgs| && msgs[k].Progress? && msgs[l].Progress?
      ensures msgs[k].status.number < msgs[l].status.number
    {
      assert msgs[k] == prev[k];
      assert MeasureProgress(prev[k], i, total);
      if l < |prev| {
        assert msgs[l] == prev[l];
      } else {
        assert msgs[l] == extra[0];
      }
    }
  }

  /** The loop's messages: no completion signal, and one progress message per
      labelled measure, naming it, carrying its percentage in [30, 100), with
      numbers rising from message to message. */
  lemma {:induction false} LoopProgress(ms: seq<seq<real>>, bpm: nat, total: nat,
                                        chordOf: seq<real> -> Option<string>)
    requires |ms| <= total
    ensures LoopShaped(LoopMessages(ms, bpm, total, chordOf), |ms|, total)
  {
    if |ms| > 0 {
      var i := |ms| - 1;
      LoopProgress(ms[..i], bpm, total, chordOf);
      var msgs, prev := LoopMessages(ms, bpm, total, chordOf), LoopMessages(ms[..i], bpm, total, chordOf);
      var m := ms[i];
      if Reported(ms[..i], bpm, chordOf).failedAt.None? && |m| >= bpm {
        var progress := Progress(Percent(i, total), AnalyzingMeasure(i + 1, total));
        var extra := if chordOf(m).None? then [progress] else [progress, Result(MeasureLine(i + 1, chordOf(m).value))];
        assert msgs == prev + extra;
        LoopShapedExtend(prev, extra, i, total);
      } else {
        assert msgs == prev;
        LoopShapedWeaken(prev, i, i + 1, total);
      }
    }
  }

  lemma LoopShapedWeaken(msgs: seq<Message>, n: nat, n': nat, total: nat)
    requires n <= n' && LoopShaped(msgs, n, total)
    ensures LoopShaped(msgs, n', total)
  {
    forall k | 0 <= k < |msgs| && msgs[k].Progress?
      ensures MeasureProgress(msgs[k], n', total)
    {
      assert MeasureProgress(msgs[k], n, total);
    }
  }

  /** Messages without a measure line contribute no lines. */
  lemma {:induction false} NoLinesIn(msgs: seq<Message>)
    requires forall k :: 0 <= k < |msgs| ==> !msgs[k].Result? || !msgs[k].line.MeasureLine?
    ensures Lines(msgs) == []
  {
    if |msgs| > 0 {
      NoLinesIn(msgs[..|msgs| - 1]);
    }
  }

  /** No completion signal among msgs. */
  predicate NoComplete(msgs: seq<Message>) {
    forall k :: 0 <= k < |msgs| ==> msgs[k] != Complete
  }

  /** msgs ends with the completion signal, and holds no other. */
  predicate CompletesOnce(msgs: seq<Message>) {
    |msgs| > 0 && msgs[|msgs| - 1] == Complete && NoComplete(msgs[..|msgs| - 1])
  }

  lemma NoCompleteAppend(a: seq<Message>, b: seq<Message>)
    requires NoComplete(a) && NoComplete(b)
    ensures NoComplete(a + b)
  {
    forall k | 0 <= k < |a + b|
      ensures (a + b)[k] != Complete
    {
      if k < |a| {
        assert (a + b)[k] == a[k];
      } else {
        assert (a + b)[k] == b[k - |a|];
      }
    }
  }

  lemma CompletesOnceAppend(a: seq<Message>, b: seq<Message>)
    requires NoComplete(a) && CompletesOnce(b)
    ensures CompletesOnce(a + b)
  {
    assert (a + b)[..|a + b| - 1] == a + b[..|b| - 1];
    NoCompleteAppend(a, b[..|b| - 1]);
  }

  /** Both ways the analysis can end send the completion signal once, last. */
  lemma TailCompletesOnce(a: Analysis)
    ensures CompletesOnce(Tail(a))
  {
    var t := Tail(a);
    assert t[..|t| - 1] == [t[0], t[1]] || t[..|t| - 1] == [t[0]];
  }

  /** The messages of a run over some measures end with one completion signal. */
  lemma RunCompletesOnce(sig: string, ms: seq<seq<real>>, bpm: nat, chordOf: seq<real> -> Option<string>)
    ensures CompletesOnce(Header(sig) + LoopMessages(ms, bpm, |ms|, chordOf) + Tail(Reported(ms, bpm, chordOf)))
  {
    var loop := LoopMessages(ms, bpm, |ms|, chordOf);
    LoopProgress(ms, bpm, |ms|, chordOf);
    assert NoComplete(Header(sig));
    NoCompleteAppend(Header(sig), loop);
    TailCompletesOnce(Reported(ms, bpm, chordOf));
    CompletesOnceAppend(Header(sig) + loop, Tail(Reported(ms, bpm, chordOf)));
  }

  /** Whatever happens, the worker's last message is the completion signal
      that re-enables the Analyze button, and it is sent once. */
  lemma WorkerCompletesOnce(sig: string, y: seq<real>, sr: nat, beatTimes: seq<real>,
                            spectrum: seq<real> -> seq<Bin>)
    ensures CompletesOnce(WorkerMessages(sig, y, sr, beatTimes, spectrum))
  {
    if sig in TimeSignatures {
      WorkerUnfolds(sig, y, sr, beatTimes, spectrum);
      RunCompletesOnce(sig, MeasuresOf(sig, beatTimes), TimeSignatures[sig], Labeller(y, sr, spectrum));
    } else {
      assert ErrorTail(UnknownSignature(sig))[..2] == [Result(ErrorLine(UnknownSignature(sig))), Progress(0.0, ErrorOccurred)];
    }
  }

  /** A signature missing from the table gives an error and nothing else. */
  lemma UnknownSignatureReported(sig: string, y: seq<real>, sr: nat, beatTimes: seq<real>,
                                 spectrum: seq<real> -> seq<Bin>)
    requires sig !in TimeSignatures
    ensures Lines(WorkerMessages(sig, y, sr, beatTimes, spectrum)) == []
    ensures Result(ErrorLine(UnknownSignature(sig))) in WorkerMessages(sig, y, sr, beatTimes, spectrum)
  {
    var msgs := WorkerMessages(sig, y, sr, beatTimes, spectrum);
    assert msgs == ErrorTail(UnknownSignature(sig));
    assert msgs[0] == Result(ErrorLine(UnknownSignature(sig)));
    NoLinesIn(msgs);
  }

  /** For a listed signature, the measure lines are the chords of the full
      measures, numbered 1, 2, 3, ... by their position among all measures;
      unless a measure raises, there is one per full measure. */
  lemma WorkerLines(sig: string, y: seq<real>, sr: nat, beatTimes: seq<real>,
                    spectrum: seq<real> -> seq<Bin>)
    requires sig in TimeSignatures
    ensures var ms := MeasuresOf(sig, beatTimes);
      var a := Reported(ms, TimeSignatures[sig], Labeller(y, sr, spectrum));
      Lines(WorkerMessages(sig, y, sr, beatTimes, spectrum)) == a.entries &&
      (a.failedAt.None? ==>
         |a.entries| == |BeatsFor(sig, beatTimes)| / TimeSignatures[sig] &&
         forall k :: 0 <= k < |a.entries| ==> a.entries[k].number == k + 1)
  {
    var bpm := TimeSignatures[sig];
    var chordOf := Labeller(y, sr, spectrum);
    WorkerUnfolds(sig, y, sr, beatTimes, spectrum);
    RunLines(sig, MeasuresOf(sig, beatTimes), bpm, chordOf);
    ChunkedReported(BeatsFor(sig, beatTimes), bpm, chordOf);
  }

  /** The measure lines of a run over some measures are the numbered report. */
  lemma RunLines(sig: string, ms: seq<seq<real>>, bpm: nat, chordOf: seq<real> -> Option<string>)
    ensures Lines(Header(sig) + LoopMessages(ms, bpm, |ms|, chordOf) + Tail(Reported(ms, bpm, chordOf))) ==
      Reported(ms, bpm, chordOf).entries
  {
    LoopLinesAreReported(ms, bpm, |ms|, chordOf);
    NoLinesIn(Header(sig));
    TailHasNoLines(Reported(ms, bpm, chordOf));
    LinesBetween(Header(sig), LoopMessages(ms, bpm, |ms|, chordOf), Tail(Reported(ms, bpm, chordOf)));
  }

  lemma TailHasNoLines(a: Analysis)
    ensures Lines(Tail(a)) == []
  {
    NoLinesIn(Tail(a));
  }

  /** Line-free messages around msgs add no lines. */
  lemma LinesBetween(before: seq<Message>, msgs: seq<Message>, after: seq<Message>)
    requires Lines(before) == [] && Lines(after) == []
    ensures Lines(before + msgs + after) == Lines(msgs)
  {
    LinesAppend(before, msgs);
    LinesAppend(before + msgs, after);
    assert [] + Lines(msgs) + [] == Lines(msgs);
  }

  // ---------------------------------------------------------------------------
  // The analyzer object

  class ChordAnalyzer {
    var timeSignatures: map<string, nat>
    var queue: seq<Message>

    constructor ()
      ensures timeSignatures == TimeSignatures && queue == []
    {
      timeSignatures := TimeSignatures;
      queue := [];
    }

    /** The labeller of this class: the same body as the module-level one. */
    method GetChordFromFrequencies(frequencies: seq<real>, amplitudes: seq<real>, threshold: real)
      returns (chord: string)
      requires AllPositive(frequencies)
      ensures chord == ChordOf(frequencies, amplitudes, threshold)
    {
      chord := Chords.GetChordFromFrequencies(frequencies, amplitudes, threshold);
    }

    /** The worker: puts on the queue exactly the messages WorkerMessages
        describes, and changes nothing else. */
    method AnalyzeFile(timeSig: string, y: seq<real>, sr: nat, beatTimes: seq<real>,
                       spectrum: seq<real> -> seq<Bin>)
      requires timeSignatures == TimeSignatures
      modifies this
      ensures timeSignatures == old(timeSignatures)
      ensures queue == old(queue) + WorkerMessages(timeSig, y, sr, beatTimes, spectrum)
    {
      if timeSig !in timeSignatures {
        queue := queue + ErrorTail(UnknownSignature(timeSig));
        return;
      }
      var beatsPerMeasure := timeSignatures[timeSig];
      WorkerUnfolds(timeSig, y, sr, beatTimes, spectrum);
      ghost var start := queue;
      queue := queue + [Progress(0.0, Loading)];
      queue := queue + [Progress(20.0, DetectingBeats)];
      var beats := beatTimes;
      if timeSig in CompoundMeters {
        beats := GroupCompoundBeats(beatTimes);
      }
      var measures := Chunks(beats, beatsPerMeasure);
      queue := queue + [Progress(30.0, AnalyzingMeasures)];
      queue := queue + [Result(TimeSignatureLine(timeSig))];
      HeaderSent(start, timeSig);
      assert beats == BeatsFor(timeSig, beatTimes);
      MeasureLoop(measures, beatsPerMeasure, y, sr, spectrum);
      ghost var chordOf := Labeller(y, sr, spectrum);
      AppendAssociates3(start, Header(timeSig), LoopMessages(measures, beatsPerMeasure, |measures|, chordOf),
                        Tail(Reported(measures, beatsPerMeasure, chordOf)));
    }

    /** The loop over the measures and what follows it: a progress message and
        a result line per complete measure, then the final progress message,
        or an error report where a measure raises; then the completion signal. */
    method MeasureLoop(measures: seq<seq<real>>, beatsPerMeasure: nat, y: seq<real>, sr: nat,
                       spectrum: seq<real> -> seq<Bin>)
      modifies this
      ensures timeSignatures == old(timeSignatures)
      ensures var chordOf := Labeller(y, sr, spectrum);
        queue == old(queue) + LoopMessages(measures, beatsPerMeasure, |measures|, chordOf) +
          Tail(Reported(measures, beatsPerMeasure, chordOf))
    {
      var totalMeasures := |measures|;
      ghost var chordOf := Labeller(y, sr, spectrum);
      ghost var start := queue;
      var i := 0;
      while i < totalMeasures
        invariant 0 <= i <= totalMeasures
        invariant timeSignatures == old(timeSignatures)
        invariant Reported(measures[..i], beatsPerMeasure, chordOf).failedAt.None?
        invariant queue == start + LoopMessages(measures[..i], beatsPerMeasure, totalMeasures, chordOf)
      {
        var stopped := MeasureTurn(measures, i, beatsPerMeasure, y, sr, spectrum, start);
        if stopped {
          return;
        }
        i := i + 1;
      }
      SuccessEndsLoop(measures, beatsPerMeasure, chordOf);
      queue := queue + SuccessTail();
    }

    /** One turn of the loop: a measure with too few beats is skipped; a
        complete one gets its progress message, then its result line, or,
        where labelling raises, the error report that ends the analysis. */
    method MeasureTurn(measures: seq<seq<real>>, i: nat, beatsPerMeasure: nat, y: seq<real>, sr: nat,
                       spectrum: seq<real> -> seq<Bin>, ghost start: seq<Message>)
      returns (stopped: bool)
      requires i < |measures|
      requires Reported(measures[..i], beatsPerMeasure, Labeller(y, sr, spectrum)).failedAt.None?
      requires queue == start + LoopMessages(measures[..i], beatsPerMeasure, |measures|, Labeller(y, sr, spectrum))
      modifies this
      ensures timeSignatures == old(timeSignatures)
      ensures var chordOf := Labeller(y, sr, spectrum);
        if stopped then
          queue == start + LoopMessages(measures, beatsPerMeasure, |measures|, chordOf) +
            Tail(Reported(measures, beatsPerMeasure, chordOf))
        else
          Reported(measures[..i + 1], beatsPerMeasure, chordOf).failedAt.None? &&
          queue == start + LoopMessages(measures[..i + 1], beatsPerMeasure, |measures|, chordOf)
    {
      ghost var chordOf := Labeller(y, sr, spectrum);
      ghost var sent := LoopMessages(measures[..i], beatsPerMeasure, |measures|, chordOf);
      var measure := measures[i];
      if |measure| < beatsPerMeasure {
        SkipStep(measures, i, beatsPerMeasure, |measures|, chordOf);
        return false;
      }
      var progress := Progress(Percent(i, |measures|), AnalyzingMeasure(i + 1, |measures|));
      queue := queue + [progress];
      var chord := AnalyzeMeasure(y, sr, spectrum, measure);
      if chord.None? {
        FailureEndsLoop(measures, i, beatsPerMeasure, |measures|, chordOf);
        queue := queue + ErrorTail(MeasureFailed(i + 1));
        AppendAssociates(start, sent, [progress]);
        return true;
      }
      var line := Result(MeasureLine(i + 1, chord.value));
      queue := queue + [line];
      LabelStep(measures, i, beatsPerMeasure, |measures|, chordOf, chord.value);
      AppendTwo(start, sent, progress, line);
      return false;
    }
  }

  /** A loop that got through every measure ends with the final progress. */
  lemma SuccessEndsLoop(ms: seq<seq<real>>, bpm: nat, chordOf: seq<real> -> Option<string>)
    requires Reported(ms[..|ms|], bpm, chordOf).failedAt.None?
    ensures ms[..|ms|] == ms && Tail(Reported(ms, bpm, chordOf)) == SuccessTail()
  {
    assert ms[..|ms|] == ms;
  }

  /** The header messages, put one at a time. */
  lemma HeaderSent(start: seq<Message>, sig: string)
    ensures start + [Progress(0.0, Loading)] + [Progress(20.0, DetectingBeats)] +
      [Progress(30.0, AnalyzingMeasures)] + [Result(TimeSignatureLine(sig))] == start + Header(sig)
  {
  }

  lemma AppendAssociates3(a: seq<Message>, b: seq<Message>, c: seq<Message>, d: seq<Message>)
    ensures a + b + c + d == a + (b + c + d)
  {
  }

  lemma AppendTwo(a: seq<Message>, b: seq<Message>, x: Message, y: Message)
    ensures a + b + [x] + [y] == a + (b + [x, y])
  {
  }

  /** A measure with too few beats is skipped. */
  lemma SkipStep(ms: seq<seq<real>>, i: nat, bpm: nat, total: nat, chordOf: seq<real> -> Option<string>)
    requires i < |ms| <= total && Reported(ms[..i], bpm, chordOf).failedAt.None?
    requires |ms[i]| < bpm
    ensures LoopMessages(ms[..i + 1], bpm, total, chordOf) == LoopMessages(ms[..i], bpm, total, chordOf)
    ensures Reported(ms[..i + 1], bpm, chordOf).failedAt.None?
  {
    LoopStep(ms, i, bpm, total, chordOf);
  }

  /** A complete measure that is labelled adds its progress message and its
      result line. */
  lemma LabelStep(ms: seq<seq<real>>, i: nat, bpm: nat, total: nat, chordOf: seq<real> -> Option<string>,
                  chord: string)
    requires i < |ms| <= total && Reported(ms[..i], bpm, chordOf).failedAt.None?
    requires |ms[i]| >= bpm && chordOf(ms[i]) == Some(chord)
    ensures LoopMessages(ms[..i + 1], bpm, total, chordOf) == LoopMessages(ms[..i], bpm, total, chordOf) +
      [Progress(Percent(i, total), AnalyzingMeasure(i + 1, total)), Result(MeasureLine(i + 1, chord))]
    ensures Reported(ms[..i + 1], bpm, chordOf).failedAt.None?
  {
    LoopStep(ms, i, bpm, total, chordOf);
  }

  /** A measure that raises ends the loop's messages with its progress
      message, and the analysis with its error report. */
  lemma FailureEndsLoop(ms: seq<seq<real>>, i: nat, bpm: nat, total: nat, chordOf: seq<real> -> Option<string>)
    requires i < |ms| == total && Reported(ms[..i], bpm, chordOf).failedAt.None?
    requires |ms[i]| >= bpm && chordOf(ms[i]).None?
    ensures LoopMessages(ms, bpm, total, chordOf) ==
      LoopMessages(ms[..i], bpm, total, chordOf) + [Progress(Percent(i, total), AnalyzingMeasure(i + 1, total))]
    ensures Tail(Reported(ms, bpm, chordOf)) == ErrorTail(MeasureFailed(i + 1))
  {
    LoopStep(ms, i, bpm, total, chordOf);
    ReportedUnchangedAfterFailure(ms, i + 1, bpm, chordOf);
    LoopUnchangedAfterFailure(ms, i + 1, bpm, total, chordOf);
  }

  /** One turn of the loop, while nothing has raised: a skipped measure adds
      nothing; a complete one adds its progress message, and then its result
      line or, where labelling raises, stops the loop. */
  lemma LoopStep(ms: seq<seq<real>>, i: nat, bpm: nat, total: nat, chordOf: seq<real> -> Option<string>)
    requires i < |ms| <= total && Reported(ms[..i], bpm, chordOf).failedAt.None?
    ensures var prev, next := LoopMessages(ms[..i], bpm, total, chordOf), LoopMessages(ms[..i + 1], bpm, total, chordOf);
      var r := Reported(ms[..i + 1], bpm, chordOf);
      var progress := Progress(Percent(i, total), AnalyzingMeasure(i + 1, total));
      if |ms[i]| < bpm then next == prev && r.failedAt.None?
      else if chordOf(ms[i]).None? then next == prev + [progress] && r.failedAt == Some(i + 1)
      else next == prev + [progress, Result(MeasureLine(i + 1, chordOf(ms[i]).value))] && r.failedAt.None?
  {
    assert ms[..i + 1][..i] == ms[..i];
  }

  /** Once the loop has stopped, later measures put nothing more. */
  lemma {:induction false} LoopUnchangedAfterFailure(ms: seq<seq<real>>, n: nat, bpm: nat, total: nat,
                                                     chordOf: seq<real> -> Option<string>)
    requires n <= |ms| <= total && Reported(ms[..n], bpm, chordOf).failedAt.Some?
    ensures LoopMessages(ms, bpm, total, chordOf) == LoopMessages(ms[..n], bpm, total, chordOf)
    decreases |ms| - n
  {
    if n < |ms| {
      var ms' := ms[..|ms| - 1];
      assert ms'[..n] == ms[..n];
      LoopUnchangedAfterFailure(ms', n, bpm, total, chordOf);
      ReportedUnchangedAfterFailure(ms', n, bpm, chordOf);
    } else {
      assert ms[..n] == ms;
    }
  }
}
