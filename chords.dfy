/** `get_chord_from_frequencies` (apollo.py): keep the dominant frequencies,
    fold each into one octave, match it to the note table, collect the
    distinct notes in first-seen order and pick a label from their count. */
module Chords {
  import opened Notes
  import opened Octave

  /** The default of the `threshold` parameter, the value every caller uses. */
  const DefaultThreshold: real := 0.1
  const NoChordLabel: string := "No chord detected"

  predicate AllPositive(s: seq<real>) {
    forall i :: 0 <= i < |s| ==> s[i] > 0.0
  }

  function Min(a: nat, b: nat): nat {
    if a <= b then a else b
  }

  /** `max(amplitudes)`. */
  function Max(s: seq<real>): (m: real)
    requires |s| > 0
    ensures m in s
    ensures forall i :: 0 <= i < |s| ==> s[i] <= m
  {
    if |s| == 1 then s[0]
    else
      var m := Max(s[1..]);
      if s[0] >= m then s[0] else m
  }

  // ---------------------------------------------------------------------------
  // Dominant frequencies

  /** The frequencies of the first n pairs whose amplitude is above cutoff, in
      pair order. */
  function Kept(freqs: seq<real>, amps: seq<real>, cutoff: real, n: nat): (kept: seq<real>)
    requires n <= |freqs| && n <= |amps|
    ensures |kept| <= n
  {
    if n == 0 then []
    else Kept(freqs, amps, cutoff, n - 1) + (if amps[n - 1] > cutoff then [freqs[n - 1]] else [])
  }

  /** `threshold * max(amplitudes)`, over all amplitudes. */
  function Cutoff(amps: seq<real>, threshold: real): real
    requires |amps| > 0
  {
    threshold * Max(amps)
  }

  /** The first loop: `zip` stops at the shorter input; the cutoff is only
      computed when the loop body runs, so empty inputs never reach `max`. */
  function Dominant(freqs: seq<real>, amps: seq<real>, threshold: real): (d: seq<real>)
    ensures |d| <= |freqs| && |d| <= |amps|
  {
    var n := Min(|freqs|, |amps|);
    if n == 0 then [] else Kept(freqs, amps, Cutoff(amps, threshold), n)
  }

  lemma {:induction false} KeptMembers(freqs: seq<real>, amps: seq<real>, cutoff: real, n: nat)
    requires n <= |freqs| && n <= |amps|
    ensures forall x :: x in Kept(freqs, amps, cutoff, n) <==>
      exists i :: 0 <= i < n && amps[i] > cutoff && freqs[i] == x
  {
    if n > 0 {
      KeptMembers(freqs, amps, cutoff, n - 1);
    }
  }

  /** No amplitude above the cutoff: nothing is kept. */
  lemma {:induction false} KeptNothing(freqs: seq<real>, amps: seq<real>, cutoff: real, n: nat)
    requires n <= |freqs| && n <= |amps|
    requires forall i :: 0 <= i < n ==> amps[i] <= cutoff
    ensures Kept(freqs, amps, cutoff, n) == []
  {
    if n > 0 {
      KeptNothing(freqs, amps, cutoff, n - 1);
    }
  }

  /** One amplitude above the cutoff: something is kept. */
  lemma {:induction false} KeptSomething(freqs: seq<real>, amps: seq<real>, cutoff: real, n: nat, i: nat)
    requires n <= |freqs| && n <= |amps|
    requires i < n && amps[i] > cutoff
    ensures Kept(freqs, amps, cutoff, n) != []
  {
    if i < n - 1 {
      KeptSomething(freqs, amps, cutoff, n - 1, i);
    }
  }

  /** A frequency is dominant iff it is paired (within the shorter input)
      with an amplitude strictly above threshold * max(amplitudes). */
  lemma DominantMembers(freqs: seq<real>, amps: seq<real>, threshold: real)
    ensures forall x :: x in Dominant(freqs, amps, threshold) <==>
      exists i :: 0 <= i < |freqs| && 0 <= i < |amps| && amps[i] > Cutoff(amps, threshold) && freqs[i] == x
  {
    var n := Min(|freqs|, |amps|);
    if n > 0 {
      KeptMembers(freqs, amps, Cutoff(amps, threshold), n);
    }
  }

  /** Dominant frequencies are among the input frequencies, so they stay positive. */
  lemma DominantPositive(freqs: seq<real>, amps: seq<real>, threshold: real)
    requires AllPositive(freqs)
    ensures AllPositive(Dominant(freqs, amps, threshold))
  {
    var d := Dominant(freqs, amps, threshold);
    DominantMembers(freqs, amps, threshold);
    forall k | 0 <= k < |d|
      ensures d[k] > 0.0
    {
      assert d[k] in d;
    }
  }

  // ---------------------------------------------------------------------------
  // Detected notes

  /** The closest note of each dominant frequency, in order. */
  function NotesOf(fs: seq<real>): (ns: seq<Note>)
    requires AllPositive(fs)
  {
    if |fs| == 0 then []
    else NotesOf(fs[..|fs| - 1]) + [NoteOf(fs[|fs| - 1])]
  }

  lemma {:induction false} NotesOfLength(fs: seq<real>)
    requires AllPositive(fs)
    ensures |NotesOf(fs)| == |fs|
  {
    if |fs| > 0 {
      NotesOfLength(fs[..|fs| - 1]);
    }
  }

  /** `if closest_note not in detected_notes: detected_notes.append(...)`,
      run over a whole sequence. */
  function Dedup(s: seq<Note>): (r: seq<Note>)
    ensures |r| <= |s|
  {
    if |s| == 0 then []
    else
      var p := Dedup(s[..|s| - 1]);
      if s[|s| - 1] in p then p else p + [s[|s| - 1]]
  }

  lemma NotesOfStep(fs: seq<real>, j: nat)
    requires AllPositive(fs) && j < |fs|
    ensures AllPositive(fs[..j]) && AllPositive(fs[..j + 1])
    ensures NotesOf(fs[..j + 1]) == NotesOf(fs[..j]) + [NoteOf(fs[j])]
  {
    assert fs[..j + 1][..j] == fs[..j];
  }

  lemma DedupStep(s: seq<Note>, x: Note)
    ensures Dedup(s + [x]) == if x in Dedup(s) then Dedup(s) else Dedup(s) + [x]
  {
    assert (s + [x])[..|s|] == s;
  }

  /** Position of the first occurrence of x in s. */
  function FirstIndex(s: seq<Note>, x: Note): (k: nat)
    requires x in s
    ensures k < |s| && s[k] == x && x !in s[..k]
  {
    if s[0] == x then 0
    else
      var k := FirstIndex(s[1..], x);
      assert s[..k + 1] == [s[0]] + s[1..][..k];
      k + 1
  }

  lemma FirstIndexInPrefix(s: seq<Note>, x: Note, m: nat)
    requires m <= |s| && x in s[..m]
    ensures FirstIndex(s, x) == FirstIndex(s[..m], x) < m
  {
    var k, k' := FirstIndex(s, x), FirstIndex(s[..m], x);
    assert s[..m][..k'] == s[..k'];
  }

  /** The detected notes are exactly the notes that occur. */
  lemma {:induction false} DedupElements(s: seq<Note>)
    ensures forall x :: x in Dedup(s) <==> x in s
  {
    if |s| > 0 {
      DedupElements(s[..|s| - 1]);
      assert s == s[..|s| - 1] + [s[|s| - 1]];
    }
  }

  /** The detected notes hold no duplicates. */
  lemma {:induction false} DedupDistinct(s: seq<Note>)
    ensures forall i, j :: 0 <= i < j < |Dedup(s)| ==> Dedup(s)[i] != Dedup(s)[j]
  {
    if |s| > 0 {
      DedupDistinct(s[..|s| - 1]);
    }
  }

  /** The detected notes are listed in the order of their first occurrence. */
  lemma {:induction false} DedupFirstSeen(s: seq<Note>)
    ensures forall x :: x in Dedup(s) ==> x in s
    ensures forall i, j :: 0 <= i < j < |Dedup(s)| ==>
      FirstIndex(s, Dedup(s)[i]) < FirstIndex(s, Dedup(s)[j])
  {
    DedupElements(s);
    if |s| > 0 {
      var n := |s|;
      var s', r := s[..n - 1], Dedup(s);
      var p := Dedup(s');
      DedupFirstSeen(s');
      DedupElements(s');
      assert s'[..n - 1] == s';
      forall x | x in p
        ensures x in s && FirstIndex(s, x) == FirstIndex(s', x) < n - 1
      {
        FirstIndexInPrefix(s, x, n - 1);
      }
      if s[n - 1] !in p {
        assert s[n - 1] !in s[..n - 1];
        assert FirstIndex(s, s[n - 1]) == n - 1;
      }
      forall i, j | 0 <= i < j < |r|
        ensures FirstIndex(s, r[i]) < FirstIndex(s, r[j])
      {
        assert r[i] == p[i] && p[i] in p;
        if j < |p| {
          assert r[j] == p[j] && p[j] in p;
        } else {
          assert r[j] == s[n - 1];
        }
      }
    }
  }

  /** A sequence of distinct notes has at most twelve entries. */
  lemma {:induction false} DistinctAtMostTwelve(r: seq<Note>)
    requires forall i, j :: 0 <= i < j < |r| ==> r[i] != r[j]
    ensures |r| <= 12
  {
    var all: set<Note> := {C, CSharp, D, DSharp, E, F, FSharp, G, GSharp, A, ASharp, B};
    assert |all| == 12;
    var elems := set i | 0 <= i < |r| :: r[i];
    forall x | x in elems
      ensures x in all
    {
      var k := Index(x);
      assert Table[k] == x;
    }
    SetOfDistinct(r);
    SubsetCardinality(elems, all);
  }

  lemma {:induction false} SetOfDistinct(r: seq<Note>)
    requires forall i, j :: 0 <= i < j < |r| ==> r[i] != r[j]
    ensures |set i | 0 <= i < |r| :: r[i]| == |r|
  {
    if |r| > 0 {
      var r' := r[..|r| - 1];
      SetOfDistinct(r');
      var e := set i | 0 <= i < |r| :: r[i];
      var e' := set i | 0 <= i < |r'| :: r'[i];
      assert e == e' + {r[|r| - 1]};
      assert r[|r| - 1] !in e';
    }
  }

  lemma SubsetCardinality(a: set<Note>, b: set<Note>)
    requires a <= b
    ensures |a| <= |b|
  {
    assert b == a + (b - a);
  }

  /** The notes found for the given input. */
  function DetectedNotes(freqs: seq<real>, amps: seq<real>, threshold: real): seq<Note>
    requires AllPositive(freqs)
  {
    DominantPositive(freqs, amps, threshold);
    Dedup(NotesOf(Dominant(freqs, amps, threshold)))
  }

  /** The detected notes: no duplicates, at most twelve, exactly the notes
      of the dominant frequencies, in order of first appearance. */
  lemma DetectedNotesProperties(freqs: seq<real>, amps: seq<real>, threshold: real)
    requires AllPositive(freqs)
    ensures var d := Dominant(freqs, amps, threshold);
      var ns := DetectedNotes(freqs, amps, threshold);
      AllPositive(d) &&
      (forall i, j :: 0 <= i < j < |ns| ==> ns[i] != ns[j]) &&
      |ns| <= 12 &&
      (forall x :: x in ns <==> x in NotesOf(d)) &&
      (forall i, j :: 0 <= i < j < |ns| ==>
         ns[i] in NotesOf(d) && ns[j] in NotesOf(d) &&
         FirstIndex(NotesOf(d), ns[i]) < FirstIndex(NotesOf(d), ns[j]))
  {
    DominantPositive(freqs, amps, threshold);
    var s := NotesOf(Dominant(freqs, amps, threshold));
    DedupDistinct(s);
    DedupElements(s);
    DedupFirstSeen(s);
    DistinctAtMostTwelve(Dedup(s));
  }

  // ---------------------------------------------------------------------------
  // Label

  /** The final `if`/`elif` chain. */
  function Label(notes: seq<Note>): (s: string)
    ensures |notes| > 0 ==> Name(notes[0]) <= s
  {
    if |notes| >= 3 then Name(notes[0]) + " chord"
    else if |notes| == 2 then Name(notes[0]) + "-" + Name(notes[1]) + " dyad"
    else if |notes| == 1 then Name(notes[0])
    else NoChordLabel
  }

  /** "No chord detected" comes out exactly when no note was found. */
  lemma NoChordIffEmpty(notes: seq<Note>)
    ensures Label(notes) == NoChordLabel <==> |notes| == 0
  {
    if |notes| > 0 {
      NameShape(notes[0]);
      if |notes| == 2 {
        NameShape(notes[1]);
      }
    }
  }

  lemma DashAfterName(a: Note, x: string)
    ensures (Name(a) + "-" + x)[|Name(a)|] == '-'
    ensures forall k :: 0 <= k < |Name(a)| ==> (Name(a) + "-" + x)[k] == Name(a)[k]
  {
  }

  /** `a + "-" + x == b + "-" + y` splits at the dash when a and b are note names. */
  lemma SplitAtDash(a: Note, b: Note, x: string, y: string)
    requires Name(a) + "-" + x == Name(b) + "-" + y
    ensures a == b && x == y
  {
    NameShape(a);
    NameShape(b);
    var s, t := Name(a) + "-" + x, Name(b) + "-" + y;
    if |Name(a)| != |Name(b)| {
      DashAfterName(a, x);
      DashAfterName(b, y);
      assert false;
    } else {
      assert Name(a) == s[..|Name(a)|] == t[..|Name(b)|] == Name(b);
      NameInjective(a, b);
      assert x == s[|Name(a)| + 1..] == t[|Name(b)| + 1..] == y;
    }
  }

  /** The count class shows in a label's length and its second-to-last
      character. */
  lemma LabelClass(a: seq<Note>)
    requires |a| > 0
    ensures var l := Label(a);
      (|a| >= 3 ==> 7 <= |l| <= 8 && l[|l| - 2] == 'r') &&
      (|a| == 2 ==> 8 <= |l| <= 10 && l[|l| - 2] == 'a') &&
      (|a| == 1 ==> |l| <= 2)
  {
    NameShape(a[0]);
    if |a| >= 2 {
      NameShape(a[1]);
    }
  }

  lemma SameChord(a: seq<Note>, b: seq<Note>)
    requires |a| >= 3 && |b| >= 3 && Label(a) == Label(b)
    ensures a[0] == b[0]
  {
    var la, lb := Label(a), Label(b);
    assert Name(a[0]) == la[..|la| - 6] == lb[..|lb| - 6] == Name(b[0]);
    NameInjective(a[0], b[0]);
  }

  lemma SameDyad(a: seq<Note>, b: seq<Note>)
    requires |a| == 2 && |b| == 2 && Label(a) == Label(b)
    ensures a == b
  {
    var x, y := Name(a[1]) + " dyad", Name(b[1]) + " dyad";
    assert Name(a[0]) + "-" + x == Label(a);
    assert Name(b[0]) + "-" + y == Label(b);
    SplitAtDash(a[0], b[0], x, y);
    assert Name(a[1]) == x[..|x| - 5] == y[..|y| - 5] == Name(b[1]);
    NameInjective(a[1], b[1]);
    assert a == [a[0], a[1]] && b == [b[0], b[1]];
  }

  lemma SameSingle(a: seq<Note>, b: seq<Note>)
    requires |a| == 1 && |b| == 1 && Label(a) == Label(b)
    ensures a == b
  {
    NameInjective(a[0], b[0]);
    assert a == [a[0]] && b == [b[0]];
  }

  /** Two note lists get the same label exactly when both have three or more
      notes with the same first note, or they are the same list of at most two:
      the label keeps the count class and the notes it names, and nothing else. */
  lemma LabelsAgree(a: seq<Note>, b: seq<Note>)
    ensures Label(a) == Label(b) <==>
      (|a| >= 3 && |b| >= 3 && a[0] == b[0]) || (|a| < 3 && a == b)
  {
    if Label(a) == Label(b) {
      NoChordIffEmpty(a);
      NoChordIffEmpty(b);
      if |a| > 0 && |b| > 0 {
        LabelClass(a);
        LabelClass(b);
        if |a| >= 3 {
          SameChord(a, b);
        } else if |a| == 2 {
          SameDyad(a, b);
        } else {
          SameSingle(a, b);
        }
      }
    }
  }


  /** What `get_chord_from_frequencies` returns. */
  function ChordOf(freqs: seq<real>, amps: seq<real>, threshold: real): string
    requires AllPositive(freqs)
  {
    Label(DetectedNotes(freqs, amps, threshold))
  }

  /** "No chord detected" exactly when no frequency is dominant. */
  lemma NoChordIffNoDominant(freqs: seq<real>, amps: seq<real>, threshold: real)
    requires AllPositive(freqs)
    ensures ChordOf(freqs, amps, threshold) == NoChordLabel <==> Dominant(freqs, amps, threshold) == []
  {
    DominantPositive(freqs, amps, threshold);
    var d := Dominant(freqs, amps, threshold);
    NotesOfLength(d);
    DedupElements(NotesOf(d));
    NoChordIffEmpty(DetectedNotes(freqs, amps, threshold));
    if d != [] {
      assert NotesOf(d)[0] in NotesOf(d);
    }
  }

  /** With no frequency/amplitude pairs the filtering loop never runs (and
      never evaluates `max`): nothing is detected. */
  lemma EmptyInputIsNoChord(freqs: seq<real>, amps: seq<real>, threshold: real)
    requires AllPositive(freqs)
    requires |freqs| == 0 || |amps| == 0
    ensures ChordOf(freqs, amps, threshold) == NoChordLabel
  {
    NoChordIffNoDominant(freqs, amps, threshold);
  }

  /** All-zero amplitudes keep nothing, whatever the threshold. */
  lemma SilenceIsNoChord(freqs: seq<real>, amps: seq<real>, threshold: real)
    requires AllPositive(freqs)
    requires forall i :: 0 <= i < |amps| ==> amps[i] == 0.0
    ensures ChordOf(freqs, amps, threshold) == NoChordLabel
  {
    var n := Min(|freqs|, |amps|);
    if n > 0 {
      var j :| 0 <= j < |amps| && amps[j] == Max(amps);
      assert Cutoff(amps, threshold) == threshold * 0.0 == 0.0;
      KeptNothing(freqs, amps, Cutoff(amps, threshold), n);
    }
    NoChordIffNoDominant(freqs, amps, threshold);
  }

  /** With a threshold below 1, the loudest amplitude is above the cutoff. */
  lemma LoudestAboveCutoff(amps: seq<real>, threshold: real, i: nat)
    requires i < |amps| && amps[i] == Max(amps) > 0.0 && threshold < 1.0
    ensures amps[i] > Cutoff(amps, threshold)
  {
    var m, d := amps[i], 1.0 - threshold;
    assert d > 0.0 && m > 0.0;
    assert d * m > 0.0;
    assert m - threshold * m == d * m;
  }

  /** With a threshold below 1 and some positive amplitude, the loudest
      frequency is always kept, so some note is reported. */
  lemma SoundIsLabelled(freqs: seq<real>, amps: seq<real>, threshold: real)
    requires AllPositive(freqs)
    requires 0 < |freqs| == |amps|
    requires Max(amps) > 0.0 && threshold < 1.0
    ensures ChordOf(freqs, amps, threshold) != NoChordLabel
  {
    var i :| 0 <= i < |amps| && amps[i] == Max(amps);
    LoudestAboveCutoff(amps, threshold, i);
    KeptSomething(freqs, amps, Cutoff(amps, threshold), |amps|, i);
    NoChordIffNoDominant(freqs, amps, threshold);
  }

  /** The first loop of the labeller, building `dominant_freqs`. */
  method DominantFrequencies(frequencies: seq<real>, amplitudes: seq<real>, threshold: real)
    returns (dominant: seq<real>)
    ensures dominant == Dominant(frequencies, amplitudes, threshold)
  {
    dominant := [];
    var n := Min(|frequencies|, |amplitudes|);
    for i := 0 to n
      invariant i == 0 ==> dominant == []
      invariant n > 0 ==> dominant == Kept(frequencies, amplitudes, Cutoff(amplitudes, threshold), i)
    {
      if amplitudes[i] > threshold * Max(amplitudes) {
        dominant := dominant + [frequencies[i]];
      }
    }
  }

  /** The second loop of the labeller, building `detected_notes`: fold each
      dominant frequency, find its closest note, append it if new. */
  method CollectNotes(dominant: seq<real>) returns (detected: seq<Note>)
    requires AllPositive(dominant)
    ensures detected == Dedup(NotesOf(dominant))
  {
    detected := [];
    for j := 0 to |dominant|
      invariant detected == Dedup(NotesOf(dominant[..j]))
    {
      var freq := FoldToOctave(dominant[j]);
      var note := Closest(freq);
      NotesOfStep(dominant, j);
      DedupStep(NotesOf(dominant[..j]), note);
      if note !in detected {
        detected := detected + [note];
      }
    }
    assert dominant[..|dominant|] == dominant;
  }

  /** The labeller itself: the two loops, then the label. */
  method GetChordFromFrequencies(frequencies: seq<real>, amplitudes: seq<real>, threshold: real)
    returns (chord: string)
    requires AllPositive(frequencies)
    ensures chord == ChordOf(frequencies, amplitudes, threshold)
  {
    var dominant := DominantFrequencies(frequencies, amplitudes, threshold);
    DominantPositive(frequencies, amplitudes, threshold);
    var detected := CollectNotes(dominant);
    if |detected| >= 3 {
      chord := Name(detected[0]) + " chord";
    } else if |detected| == 2 {
      chord := Name(detected[0]) + "-" + Name(detected[1]) + " dyad";
    } else if |detected| == 1 {
      chord := Name(detected[0]);
    } else {
      chord := NoChordLabel;
    }
  }
}
