/** The note table of the chord labeller: twelve pitch classes, the names the
    labels print, and the octave-4 reference pitch of each, in hertz. */
module Notes {

  datatype Note = C | CSharp | D | DSharp | E | F | FSharp | G | GSharp | A | ASharp | B

  /** The table in its insertion order, C..B, which is the order in which
      `min` scans it when it looks for the closest note. */
  const Table: seq<Note> := [C, CSharp, D, DSharp, E, F, FSharp, G, GSharp, A, ASharp, B]

  /** Position of a note in the table. */
  function Index(n: Note): (k: nat)
    ensures k < |Table| && Table[k] == n
  {
    match n
    case C => 0
    case CSharp => 1
    case D => 2
    case DSharp => 3
    case E => 4
    case F => 5
    case FSharp => 6
    case G => 7
    case GSharp => 8
    case A => 9
    case ASharp => 10
    case B => 11
  }

  /** The dictionary key under which the note is stored and printed. */
  function Name(n: Note): string {
    match n
    case C => "C"
    case CSharp => "C#"
    case D => "D"
    case DSharp => "D#"
    case E => "E"
    case F => "F"
    case FSharp => "F#"
    case G => "G"
    case GSharp => "G#"
    case A => "A"
    case ASharp => "A#"
    case B => "B"
  }

  /** The dictionary value: the reference pitch in hertz. */
  function Pitch(n: Note): real {
    match n
    case C => 261.63
    case CSharp => 277.18
    case D => 293.66
    case DSharp => 311.13
    case E => 329.63
    case F => 349.23
    case FSharp => 369.99
    case G => 392.00
    case GSharp => 415.30
    case A => 440.00
    case ASharp => 466.16
    case B => 493.88
  }

  /** No two table positions hold the same note. */
  lemma TableDistinct()
    ensures forall i, j :: 0 <= i < j < |Table| ==> Table[i] != Table[j]
  {
  }

  /** Index inverts table lookup. */
  lemma IndexOfTable(k: nat)
    requires k < |Table|
    ensures Index(Table[k]) == k
  {
    TableDistinct();
  }

  /** A name is one letter, possibly followed by '#': never a '-' or a blank,
      so it can be told apart inside the composite labels. */
  lemma NameShape(n: Note)
    ensures 1 <= |Name(n)| <= 2
    ensures forall i :: 0 <= i < |Name(n)| ==> Name(n)[i] != '-' && Name(n)[i] != ' '
  {
  }

  /** Different notes print differently. */
  lemma NameInjective(a: Note, b: Note)
    requires Name(a) == Name(b)
    ensures a == b
  {
    assert |Name(a)| == |Name(b)| && Name(a)[0] == Name(b)[0];
  }

  /** 2 to the power n. */
  function TwoTo(n: nat): real {
    if n == 0 then 1.0 else 2.0 * TwoTo(n - 1)
  }

  /** x to the twelfth power. */
  function Twelfth(x: real): real {
    var x2 := x * x;
    var x4 := x2 * x2;
    x4 * x4 * x4
  }

  /** The pitches rise strictly along the table. */
  lemma PitchesIncrease(i: nat, j: nat)
    requires i < j < |Table|
    ensures Pitch(Table[i]) < Pitch(Table[j])
  {
  }

  /** p is 440 * 2^((k - 9) / 12) Hz, the ISO 16 equal-tempered pitch k
      semitones above C4, rounded to the nearest hundredth of a hertz. Both
      sides are raised to the twelfth power, which keeps the statement in
      exact rational arithmetic. */
  predicate RoundsEqualTempered(p: real, k: nat) {
    Twelfth(p - 0.005) * TwoTo(9) <= Twelfth(440.0) * TwoTo(k) <= Twelfth(p + 0.005) * TwoTo(9)
  }

  /** Every table entry is the equal-tempered octave-4 pitch of its note. */
  lemma PitchIsEqualTempered(n: Note)
    ensures RoundsEqualTempered(Pitch(n), Index(n))
  {
    match n
    case C => assert RoundsEqualTempered(261.63, 0);
    case CSharp => assert RoundsEqualTempered(277.18, 1);
    case D => assert RoundsEqualTempered(293.66, 2);
    case DSharp => assert RoundsEqualTempered(311.13, 3);
    case E => assert RoundsEqualTempered(329.63, 4);
    case F => assert RoundsEqualTempered(349.23, 5);
    case FSharp => assert RoundsEqualTempered(369.99, 6);
    case G => assert RoundsEqualTempered(392.00, 7);
    case GSharp => assert RoundsEqualTempered(415.30, 8);
    case A => assert RoundsEqualTempered(440.00, 9);
    case ASharp => assert RoundsEqualTempered(466.16, 10);
    case B => assert RoundsEqualTempered(493.88, 11);
  }
}
