/** Octave folding and closest-note search of the chord labeller: a dominant
    frequency is halved while above B4 and then doubled while below C4, and
    the result is matched against the note table. */
module Octave {
  import opened Notes

  /** The two loop bounds: the pitches of C4 and B4 in the note table. */
  const Low: real := 261.63
  const High: real := 493.88

  /** x doubled n times, x * 2^n. */
  function Doubled(x: real, n: nat): real
    decreases n
  {
    if n == 0 then x else Doubled(x * 2.0, n - 1)
  }

  lemma {:induction false} DoubledAdd(x: real, m: nat, n: nat)
    ensures Doubled(Doubled(x, m), n) == Doubled(x, m + n)
    decreases m
  {
    if m > 0 {
      DoubledAdd(x * 2.0, m - 1, n);
    }
  }

  lemma {:induction false} DoubledMonotone(x: real, y: real, n: nat)
    requires x < y
    ensures Doubled(x, n) < Doubled(y, n)
    decreases n
  {
    if n > 0 {
      DoubledMonotone(x * 2.0, y * 2.0, n - 1);
    }
  }

  lemma {:induction false} DoubledGrows(x: real, n: nat)
    requires x > 0.0 && n >= 1
    ensures Doubled(x, n) >= x * 2.0
    decreases n
  {
    if n > 1 {
      DoubledGrows(x * 2.0, n - 1);
    }
  }

  /** Halving a value of at least 2 lowers its integer part. */
  lemma HalvingShrinks(x: real)
    requires x >= 2.0
    ensures (x / 2.0).Floor < x.Floor
  {
  }

  /** Doubling a positive value below Low lowers the integer part of Low / f. */
  lemma DoublingShrinks(f: real)
    requires 0.0 < f < Low
    ensures (Low / (f * 2.0)).Floor < (Low / f).Floor
  {
    var y := Low / f;
    assert y > 1.0;
    assert Low / (f * 2.0) == y / 2.0;
  }

  /** The first loop: halve while above High. */
  function FoldDown(f: real): (g: real)
    requires f > 0.0
    ensures 0.0 < g <= High
    ensures f <= High ==> g == f
    ensures f > High ==> High / 2.0 < g
    decreases f.Floor
  {
    if f > High then HalvingShrinks(f); FoldDown(f / 2.0) else f
  }

  /** How many times the first loop halves. */
  function Halvings(f: real): nat
    requires f > 0.0
    decreases f.Floor
  {
    if f > High then HalvingShrinks(f); Halvings(f / 2.0) + 1 else 0
  }

  /** The second loop: double while below Low. */
  function FoldUp(f: real): (g: real)
    requires f > 0.0
    ensures Low <= g
    ensures f >= Low ==> g == f
    ensures f < 2.0 * Low ==> g < 2.0 * Low
    decreases (Low / f).Floor
  {
    if f < Low then DoublingShrinks(f); FoldUp(f * 2.0) else f
  }

  /** How many times the second loop doubles. */
  function Doublings(f: real): nat
    requires f > 0.0
    decreases (Low / f).Floor
  {
    if f < Low then DoublingShrinks(f); Doublings(f * 2.0) + 1 else 0
  }

  /** Both loops in turn: the frequency brought into the octave [Low, 2 * Low).
      The upper end is 523.26, not High: a value just above High halves to
      just below Low and doubles back above High. */
  function Fold(f: real): (g: real)
    requires f > 0.0
    ensures Low <= g < 2.0 * Low
  {
    FoldUp(FoldDown(f))
  }

  lemma {:induction false} FoldDownScales(f: real)
    requires f > 0.0
    ensures Doubled(FoldDown(f), Halvings(f)) == f
    decreases f.Floor
  {
    if f > High {
      HalvingShrinks(f);
      FoldDownScales(f / 2.0);
      DoubledAdd(FoldDown(f / 2.0), Halvings(f / 2.0), 1);
    }
  }

  lemma {:induction false} FoldUpScales(f: real)
    requires f > 0.0
    ensures FoldUp(f) == Doubled(f, Doublings(f))
    decreases (Low / f).Floor
  {
    if f < Low {
      DoublingShrinks(f);
      FoldUpScales(f * 2.0);
    }
  }

  /** Folding moves by whole octaves only: the folded value doubled
      Halvings(f) times equals f doubled Doublings(FoldDown(f)) times. */
  lemma FoldIsOctaveShift(f: real)
    requires f > 0.0
    ensures Doubled(Fold(f), Halvings(f)) == Doubled(f, Doublings(FoldDown(f)))
  {
    var x := FoldDown(f);
    FoldDownScales(f);
    FoldUpScales(x);
    DoubledAdd(x, Doublings(x), Halvings(f));
    DoubledAdd(x, Halvings(f), Doublings(x));
  }

  /** Two values of [Low, 2 * Low) that are whole octaves apart are equal:
      the range is exactly one octave wide. */
  lemma OneOctaveWide(g: real, h: real, a: nat, b: nat)
    requires Low <= g < 2.0 * Low && Low <= h < 2.0 * Low
    requires Doubled(g, a) == Doubled(h, b)
    ensures g == h
  {
    if a < b {
      DoubledAdd(h, b - a, a);
      DoubledGrows(h, b - a);
      DoubledMonotoneInjective(g, Doubled(h, b - a), a);
      assert false;
    } else if b < a {
      DoubledAdd(g, a - b, b);
      DoubledGrows(g, a - b);
      DoubledMonotoneInjective(h, Doubled(g, a - b), b);
      assert false;
    } else {
      DoubledMonotoneInjective(g, h, a);
    }
  }

  lemma DoubledMonotoneInjective(x: real, y: real, n: nat)
    requires Doubled(x, n) == Doubled(y, n)
    ensures x == y
  {
    if x < y {
      DoubledMonotone(x, y, n);
    } else if y < x {
      DoubledMonotone(y, x, n);
    }
  }

  /** Any octave shift of f that lands in [Low, 2 * Low) is Fold(f): the two
      loops compute the one representative of f's octave class in that range. */
  lemma OctaveRepresentativeIsUnique(f: real, g: real, d: nat, u: nat)
    requires f > 0.0
    requires Low <= g < 2.0 * Low
    requires Doubled(g, d) == Doubled(f, u)
    ensures g == Fold(f)
  {
    var h, hd, hu := Fold(f), Halvings(f), Doublings(FoldDown(f));
    FoldIsOctaveShift(f);
    // both sides doubled up to a common multiple of f
    DoubledAdd(g, d, hu);
    DoubledAdd(f, u, hu);
    DoubledAdd(f, hu, u);
    DoubledAdd(h, hd, u);
    OneOctaveWide(g, h, d + hu, hd + u);
  }

  /** The two `while` loops of the labeller, run on one dominant frequency. */
  method FoldToOctave(freq: real) returns (f: real)
    requires freq > 0.0
    ensures f == Fold(freq)
  {
    f := freq;
    while f > High
      invariant f > 0.0 && FoldDown(f) == FoldDown(freq)
      decreases f.Floor
    {
      HalvingShrinks(f);
      f := f / 2.0;
    }
    while f < Low
      invariant f > 0.0 && FoldUp(f) == Fold(freq)
      decreases (Low / f).Floor
    {
      DoublingShrinks(f);
      f := f * 2.0;
    }
  }

  /** Distance from f to the k-th table pitch. */
  function Distance(f: real, k: nat): real
    requires k < |Table|
  {
    var d := Pitch(Table[k]) - f;
    if d < 0.0 then -d else d
  }

  /** The scan of `min` over the table entries from position i on: the first
      entry whose distance is least. */
  function ClosestFrom(f: real, i: nat): (k: nat)
    requires i < |Table|
    ensures i <= k < |Table|
    ensures forall j :: i <= j < |Table| ==> Distance(f, k) <= Distance(f, j)
    ensures forall j :: i <= j < k ==> Distance(f, k) < Distance(f, j)
    decreases |Table| - i
  {
    if i == |Table| - 1 then i
    else
      var k := ClosestFrom(f, i + 1);
      if Distance(f, i) <= Distance(f, k) then i else k
  }

  /** `min(notes.items(), key=lambda x: abs(x[1] - freq))`: a note at least
      distance from f, and of those the first in table order. */
  function Closest(f: real): (n: Note)
    ensures forall m: Note :: Distance(f, Index(n)) <= Distance(f, Index(m))
    ensures forall m: Note :: Index(m) < Index(n) ==> Distance(f, Index(n)) < Distance(f, Index(m))
  {
    var k := ClosestFrom(f, 0);
    ClosestIsLeast(f, k);
    Table[k]
  }

  lemma ClosestIsLeast(f: real, k: nat)
    requires k < |Table| && k == ClosestFrom(f, 0)
    ensures forall m: Note :: Distance(f, Index(Table[k])) <= Distance(f, Index(m))
    ensures forall m: Note :: Index(m) < Index(Table[k]) ==> Distance(f, Index(Table[k])) < Distance(f, Index(m))
  {
    IndexOfTable(k);
    forall m: Note
      ensures Distance(f, k) <= Distance(f, Index(m))
      ensures Index(m) < k ==> Distance(f, k) < Distance(f, Index(m))
    {
    }
  }

  /** A dominant frequency's note: folded, then matched. */
  function NoteOf(freq: real): (n: Note)
    requires freq > 0.0
    ensures forall m: Note :: Distance(Fold(freq), Index(n)) <= Distance(Fold(freq), Index(m))
  {
    Closest(Fold(freq))
  }

  /** A value just above High folds back above it, to itself. */
  lemma FoldOvershoots()
    ensures Fold(500.0) == 500.0 && 500.0 > High
  {
    assert FoldDown(500.0) == 250.0 by { assert FoldDown(250.0) == 250.0; }
    assert FoldUp(250.0) == 500.0;
  }

  /** A folded value just under 2 * Low, nearer to C5 than to B4, is still
      labelled B: the table has no C5 entry. */
  lemma NearC5IsLabelledB()
    ensures Fold(515.0) == 515.0 && NoteOf(515.0) == B
  {
    assert FoldDown(515.0) == 257.5 by { assert FoldDown(257.5) == 257.5; }
    assert FoldUp(257.5) == 515.0;
    assert Distance(515.0, 11) < Distance(515.0, 0);
  }
}
