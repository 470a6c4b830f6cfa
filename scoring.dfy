/** The per-light scoring rule and the left fold of it over a light list,
    shared by appending, deleting and reordering lights. */
module Scoring {
  import opened Types

  /** The three counters a drive keeps. */
  datatype Tally = Tally(red: int, green: int, yellow: int)

  const Zero := Tally(0, 0, 0)

  /** The scoring rule for one light: no counter decreases, exactly one
      light is added to red + green - yellow, a red point is scored exactly
      for a red light and a yellow is tallied exactly for a yellow light. */
  function Step(t: Tally, c: LightColor): (r: Tally)
    ensures r.red >= t.red && r.green >= t.green && r.yellow >= t.yellow
    ensures (r.red - t.red) + (r.green - t.green) - (r.yellow - t.yellow) == 1
    ensures r.red > t.red <==> c == Red
    ensures r.yellow > t.yellow <==> c == Yellow
  {
    match c
    case Red => t.(red := t.red + 1)
    case Yellow => t.(green := t.green + 2, yellow := t.yellow + 1)
    case Green => t.(green := t.green + 1)
  }

  /** The scoring rule folded left to right over the lights, from zero.
      Every light is counted once in red + green - yellow, and each yellow
      carries its two green points. */
  function Fold(lights: seq<Light>): (r: Tally)
    ensures r.red >= 0 && r.yellow >= 0 && r.green >= 2 * r.yellow
    ensures r.red + r.green - r.yellow == |lights|
  {
    if |lights| == 0 then Zero
    else Step(Fold(lights[..|lights| - 1]), lights[|lights| - 1].color)
  }

  /** Number of lights of colour `c`. */
  function Count(lights: seq<Light>, c: LightColor): nat
  {
    if |lights| == 0 then 0
    else Count(lights[..|lights| - 1], c) + (if lights[|lights| - 1].color == c then 1 else 0)
  }

  function TallyOf(d: Drive): Tally
  {
    Tally(d.redScore, d.greenScore, d.yellowCount)
  }

  /** The drive's counters are the fold of its lights. */
  predicate Consistent(d: Drive)
  {
    TallyOf(d) == Fold(d.lights)
  }

  /** Folding over one more light applies the rule once more to the previous counters. */
  lemma FoldSnoc(lights: seq<Light>, l: Light)
    ensures Fold(lights + [l]) == Step(Fold(lights), l.color)
  {
    assert (lights + [l])[..|lights|] == lights;
  }

  lemma CountSnoc(lights: seq<Light>, l: Light, c: LightColor)
    ensures Count(lights + [l], c) == Count(lights, c) + (if l.color == c then 1 else 0)
  {
    assert (lights + [l])[..|lights|] == lights;
  }

  /** The fold depends only on how many lights of each colour there are. */
  lemma {:induction false} FoldByCounts(lights: seq<Light>)
    ensures Fold(lights) == Tally(Count(lights, Red),
                                  Count(lights, Green) + 2 * Count(lights, Yellow),
                                  Count(lights, Yellow))
  {
    if |lights| > 0 {
      FoldByCounts(lights[..|lights| - 1]);
    }
  }

  /** Every light has exactly one colour, so the colour counts add up to the length. */
  lemma {:induction false} CountsSumToLength(lights: seq<Light>)
    ensures Count(lights, Red) + Count(lights, Yellow) + Count(lights, Green) == |lights|
  {
    if |lights| > 0 {
      CountsSumToLength(lights[..|lights| - 1]);
    }
  }

  lemma {:induction false} CountAppend(a: seq<Light>, b: seq<Light>, c: LightColor)
    ensures Count(a + b, c) == Count(a, c) + Count(b, c)
  {
    if |b| > 0 {
      var b' := b[..|b| - 1];
      assert a + b == (a + b') + [b[|b| - 1]];
      assert b == b' + [b[|b| - 1]];
      CountAppend(a, b', c);
      CountSnoc(a + b', b[|b| - 1], c);
      CountSnoc(b', b[|b| - 1], c);
    } else {
      assert a + b == a;
    }
  }

  /** Colour counts are the same for any two orderings of the same lights. */
  lemma {:induction false} CountPermutation(a: seq<Light>, b: seq<Light>, c: LightColor)
    requires multiset(a) == multiset(b)
    ensures Count(a, c) == Count(b, c)
  {
    if |a| == 0 {
      assert |b| == |multiset(b)| == 0;
    } else {
      var x := a[|a| - 1];
      var a' := a[..|a| - 1];
      assert a == a' + [x];
      assert x in multiset(b);
      var j :| 0 <= j < |b| && b[j] == x;
      var b' := b[..j] + b[j + 1..];
      assert b == b[..j] + [x] + b[j + 1..];
      assert multiset(b') == multiset(b) - multiset{x};
      assert multiset(a') == multiset(a) - multiset{x};
      CountPermutation(a', b', c);
      CountRemove(b, j, c);
      CountSnoc(a', x, c);
    }
  }

  /** Removing the light at `j` removes exactly its own colour from the counts. */
  lemma CountRemove(b: seq<Light>, j: nat, c: LightColor)
    requires j < |b|
    ensures Count(b, c) == Count(b[..j] + b[j + 1..], c) + (if b[j].color == c then 1 else 0)
  {
    assert b == b[..j] + [b[j]] + b[j + 1..];
    CountAppend(b[..j] + [b[j]], b[j + 1..], c);
    CountAppend(b[..j], b[j + 1..], c);
    CountSnoc(b[..j], b[j], c);
  }

  /** Reordering lights never changes the counters. */
  lemma FoldPermutation(a: seq<Light>, b: seq<Light>)
    requires multiset(a) == multiset(b)
    ensures Fold(a) == Fold(b)
  {
    FoldByCounts(a);
    FoldByCounts(b);
    CountPermutation(a, b, Red);
    CountPermutation(a, b, Yellow);
    CountPermutation(a, b, Green);
  }

  /** The from-scratch recount of a light list (the `forEach` over the lights). */
  method Recount(lights: seq<Light>) returns (t: Tally)
    ensures t == Fold(lights)
  {
    t := Zero;
    var i := 0;
    while i < |lights|
      invariant 0 <= i <= |lights|
      invariant t == Fold(lights[..i])
    {
      assert lights[..i + 1] == lights[..i] + [lights[i]];
      FoldSnoc(lights[..i], lights[i]);
      t := Step(t, lights[i].color);
      i := i + 1;
    }
    assert lights[..i] == lights;
  }
}
