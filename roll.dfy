/**
 * Rolling a valid dice group: draw one face per die, sort the faces, split the
 * sorted faces into the dropped-low prefix, the kept middle and the
 * dropped-high suffix, and add up the kept faces.
 */
module DiceRoll {
  import opened DiceSpec
  import opened IntSort
  import opened RandSource

  /**
   * The detail of one roll. `value` is the total of the kept faces (Go keeps
   * it in an unbounded big integer); the four sequences are the sorted faces
   * and its three slices.
   */
  datatype Results = Results(
    value: int,
    droppedLow: seq<int>,
    droppedHigh: seq<int>,
    kept: seq<int>,
    raw: seq<int>)

  /** The sum of a sequence, added from the front as the roll adds the kept faces. */
  function Sum(s: seq<int>): int
  {
    if s == [] then 0 else Sum(s[..|s| - 1]) + s[|s| - 1]
  }

  /** The face each draw shows: a draw in [0, sides) plus one. */
  function Faces(draws: seq<int>): (r: seq<int>)
    ensures |r| == |draws|
  {
    seq(|draws|, i requires 0 <= i < |draws| => draws[i] + 1)
  }

  lemma FacesSnoc(draws: seq<int>, x: int)
    ensures Faces(draws + [x]) == Faces(draws) + [x + 1]
  {
  }

  /** Splits the sorted faces of a valid group into its three slices and totals the kept one. */
  function Split(d: Dice, raw: seq<int>): (r: Results)
    requires Valid(d) && |raw| == d.number
    ensures r.raw == raw && |r.kept| == d.number - d.dropLow - d.dropHigh
    ensures |r.droppedLow| == d.dropLow && |r.droppedHigh| == d.dropHigh
  {
    Results(
      Sum(raw[d.dropLow..d.number - d.dropHigh]),
      if d.dropLow > 0 then raw[..d.dropLow] else [],
      if d.dropHigh > 0 then raw[d.number - d.dropHigh..] else [],
      raw[d.dropLow..d.number - d.dropHigh],
      raw)
  }

  /** What a roll of a valid group reports, given the faces in draw order. */
  function Outcome(d: Dice, faces: seq<int>): (r: Results)
    requires Valid(d) && |faces| == d.number
    ensures |r.raw| == |faces| && |r.kept| == d.number - d.dropLow - d.dropHigh
  {
    Split(d, SortSeq(faces))
  }

  /**
   * The raw faces of a roll are all the drawn faces, sorted ascending: a
   * sequence of length `number`, sorted, with the same elements as the draws.
   */
  lemma OutcomeRaw(d: Dice, faces: seq<int>)
    requires Valid(d) && |faces| == d.number
    ensures var r := Outcome(d, faces);
      && |r.raw| == d.number
      && Sorted(r.raw)
      && multiset(r.raw) == multiset(faces)
  {
    assert |multiset(SortSeq(faces))| == |multiset(faces)|;
  }

  /**
   * The three slices reconstruct the raw faces: `dropLow` faces dropped low,
   * `dropHigh` dropped high, the rest kept, and the total is the sum of the
   * kept faces.
   */
  lemma SplitPartitions(d: Dice, raw: seq<int>)
    requires Valid(d) && |raw| == d.number
    ensures var r := Split(d, raw);
      && r.raw == raw
      && r.droppedLow + r.kept + r.droppedHigh == raw
      && |r.droppedLow| == d.dropLow
      && |r.droppedHigh| == d.dropHigh
      && |r.kept| == d.number - d.dropLow - d.dropHigh
      && r.value == Sum(r.kept)
  {
    var r := Split(d, raw);
    assert r.droppedLow == raw[..d.dropLow];
    assert r.droppedHigh == raw[d.number - d.dropHigh..];
    assert raw == raw[..d.dropLow] + raw[d.dropLow..d.number - d.dropHigh] + raw[d.number - d.dropHigh..];
  }

  /**
   * On sorted faces, every kept face is at least every face dropped low and
   * at most every face dropped high.
   */
  lemma SplitOrdered(d: Dice, raw: seq<int>)
    requires Valid(d) && |raw| == d.number && Sorted(raw)
    ensures var r := Split(d, raw);
      && (forall i, j :: 0 <= i < |r.droppedLow| && 0 <= j < |r.kept| ==> r.droppedLow[i] <= r.kept[j])
      && (forall j, k :: 0 <= j < |r.kept| && 0 <= k < |r.droppedHigh| ==> r.kept[j] <= r.droppedHigh[k])
  {
    var r := Split(d, raw);
    forall i, j | 0 <= i < |r.droppedLow| && 0 <= j < |r.kept|
      ensures r.droppedLow[i] <= r.kept[j]
    {
      assert r.droppedLow[i] == raw[i] && r.kept[j] == raw[d.dropLow + j];
    }
    forall j, k | 0 <= j < |r.kept| && 0 <= k < |r.droppedHigh|
      ensures r.kept[j] <= r.droppedHigh[k]
    {
      assert r.kept[j] == raw[d.dropLow + j] && r.droppedHigh[k] == raw[d.number - d.dropHigh + k];
    }
  }

  predicate AllFaces(s: seq<int>, sides: int)
  {
    forall i :: 0 <= i < |s| ==> 1 <= s[i] <= sides
  }

  /** A sum of faces of a `sides`-sided die lies between its length and its length times `sides`. */
  lemma {:induction false} SumBounds(s: seq<int>, sides: int)
    requires AllFaces(s, sides)
    ensures |s| <= Sum(s) <= |s| * sides
  {
    if s != [] {
      var init := s[..|s| - 1];
      assert AllFaces(init, sides) by {
        forall i | 0 <= i < |init| ensures 1 <= init[i] <= sides { assert init[i] == s[i]; }
      }
      SumBounds(init, sides);
      assert |s| * sides == |init| * sides + sides;
    }
  }

  /** Every face drawn from an honest source lies in [1, sides]. */
  lemma FacesInRange(step: Step, s: nat, sides: int, k: nat)
    requires Honest(step) && sides > 0
    ensures AllFaces(Faces(Draws(step, s, sides, k)), sides)
  {
    DrawsInRange(step, s, sides, k);
  }

  /** Sorting keeps every face in [1, sides], so every raw face of a roll lies there too. */
  lemma OutcomeFacesInRange(d: Dice, faces: seq<int>)
    requires Valid(d) && |faces| == d.number && AllFaces(faces, d.sides)
    ensures AllFaces(Outcome(d, faces).raw, d.sides)
  {
    var raw := SortSeq(faces);
    forall i | 0 <= i < |raw| ensures 1 <= raw[i] <= d.sides {
      assert raw[i] in multiset(faces);
      var j :| 0 <= j < |faces| && faces[j] == raw[i];
    }
  }

  /**
   * The total of a roll lies between the number of kept dice and that number
   * times the sides, when every face lies in [1, sides].
   */
  lemma OutcomeValueBounds(d: Dice, faces: seq<int>)
    requires Valid(d) && |faces| == d.number && AllFaces(faces, d.sides)
    ensures var kept := d.number - d.dropLow - d.dropHigh;
      kept <= Outcome(d, faces).value <= kept * d.sides
  {
    var raw := SortSeq(faces);
    OutcomeFacesInRange(d, faces);
    var kept := raw[d.dropLow..d.number - d.dropHigh];
    assert AllFaces(kept, d.sides) by {
      forall i | 0 <= i < |kept| ensures 1 <= kept[i] <= d.sides { assert kept[i] == raw[d.dropLow + i]; }
    }
    SumBounds(kept, d.sides);
  }

  /**
   * Rolls a valid group with the given source: `number` draws with bound
   * `sides`, in order, then the sorted faces are split and the kept ones added.
   */
  method RollResults(d: Dice, r: Rand) returns (res: Results)
    requires Valid(d)
    modifies r
    ensures r.state == After(r.step, old(r.state), d.sides, d.number)
    ensures res == Outcome(d, Faces(Draws(r.step, old(r.state), d.sides, d.number)))
    ensures Sorted(res.raw) && multiset(res.raw) == multiset(Faces(Draws(r.step, old(r.state), d.sides, d.number)))
    ensures r.Valid() ==> AllFaces(res.raw, d.sides)
  {
    ghost var s0 := r.state;
    var raw := new int[d.number];
    var i := 0;
    while i < d.number
      invariant 0 <= i <= d.number
      invariant r.state == After(r.step, s0, d.sides, i)
      invariant raw[..i] == Faces(Draws(r.step, s0, d.sides, i))
    {
      var v := r.Intn(d.sides);
      raw[i] := v + 1;
      FacesSnoc(Draws(r.step, s0, d.sides, i), v);
      assert raw[..i + 1] == raw[..i] + [v + 1];
      i := i + 1;
    }
    assert raw[..] == raw[..i];
    ghost var faces := raw[..];
    SortInts(raw);
    var sorted := raw[..];
    assert sorted == SortSeq(faces);

    res := SplitSorted(d, sorted);
    OutcomeRaw(d, faces);
    if r.Valid() {
      FacesInRange(r.step, s0, d.sides, d.number);
      OutcomeFacesInRange(d, faces);
    }
  }

  /**
   * The second half of a roll: slices the sorted faces of a valid group and
   * adds up the kept slice one face at a time.
   */
  method SplitSorted(d: Dice, sorted: seq<int>) returns (res: Results)
    requires Valid(d) && |sorted| == d.number
    ensures res == Split(d, sorted)
  {
    var droppedLow: seq<int> := [];
    if d.dropLow > 0 {
      droppedLow := sorted[..d.dropLow];
    }
    var droppedHigh: seq<int> := [];
    if d.dropHigh > 0 {
      droppedHigh := sorted[d.number - d.dropHigh..];
    }
    var kept := sorted[d.dropLow..d.number - d.dropHigh];

    var value := 0;
    for j := 0 to |kept|
      invariant value == Sum(kept[..j])
    {
      assert kept[..j + 1][..j] == kept[..j];
      value := value + kept[j];
    }
    assert kept[..|kept|] == kept;
    res := Results(value, droppedLow, droppedHigh, kept, sorted);
  }

  /**
   * Rolls a valid group and returns only the total. With an honest source
   * the total lies between the number of kept dice and that number times the sides.
   */
  method RollRand(d: Dice, r: Rand) returns (value: int)
    requires Valid(d)
    modifies r
    ensures r.state == After(r.step, old(r.state), d.sides, d.number)
    ensures value == Outcome(d, Faces(Draws(r.step, old(r.state), d.sides, d.number))).value
    ensures r.Valid() ==>
      d.number - d.dropLow - d.dropHigh <= value <= (d.number - d.dropLow - d.dropHigh) * d.sides
  {
    ghost var s0 := r.state;
    var res := RollResults(d, r);
    value := res.value;
    if r.Valid() {
      FacesInRange(r.step, s0, d.sides, d.number);
      OutcomeValueBounds(d, Faces(Draws(r.step, s0, d.sides, d.number)));
    }
  }

  /** The constant source on 2d20: both faces are 20 and the total is 40. */
  lemma MaxSourceScenario(seed: nat)
    ensures Outcome(Dice(2, 20, 0, 0), Faces(Draws(MaxStep, seed, 20, 2)))
         == Results(40, [], [], [20, 20], [20, 20])
  {
    var faces := Faces(Draws(MaxStep, seed, 20, 2));
    assert Draws(MaxStep, seed, 20, 1) == [19];
    assert faces == [20, 20];
    SortSeqOfSorted(faces);
    assert Sum([20, 20]) == Sum([20]) + 20;
  }

  /** Whatever the bound, the sequential source counts up by one per draw. */
  lemma {:induction false} SequentialAfter(seed: nat, n: int, k: nat)
    ensures After(IterStep, seed, n, k) == seed + k
  {
    if k > 0 {
      SequentialAfter(seed, n, k - 1);
    }
  }

  /** While its counter stays below the bound, the sequential source draws consecutive values. */
  lemma {:induction false} SequentialDraws(seed: nat, n: int, k: nat)
    requires seed + k <= n
    ensures forall i :: 0 <= i < k ==> Draws(IterStep, seed, n, k)[i] == seed + i
  {
    if k > 0 {
      var prev := Draws(IterStep, seed, n, k - 1);
      SequentialDraws(seed, n, k - 1);
      SequentialAfter(seed, n, k - 1);
      var c := seed + (k - 1);
      assert Draws(IterStep, seed, n, k) == prev + [c];
      forall i | 0 <= i < k ensures Draws(IterStep, seed, n, k)[i] == seed + i {
        if i < k - 1 {
          assert (prev + [c])[i] == prev[i];
        }
      }
    }
  }

  /** Five d20 from the sequential source at counter `seed` (at most 15) show seed + 1 to seed + 5. */
  lemma SequentialFaces(seed: nat)
    requires seed <= 15
    ensures Faces(Draws(IterStep, seed, 20, 5)) == Run5(seed + 1)
  {
    SequentialDraws(seed, 20, 5);
    var f := Faces(Draws(IterStep, seed, 20, 5));
    assert f[0] == seed + 1 && f[1] == seed + 2 && f[2] == seed + 3 && f[3] == seed + 4 && f[4] == seed + 5;
  }

  lemma SumPair(a: int, b: int)
    ensures Sum([a, b]) == a + b
  {
    assert [a, b][..1] == [a];
    assert Sum([a]) == Sum([]) + a;
  }

  /** On faces already in order, a roll's outcome is the split of the faces themselves. */
  lemma OutcomeOfSorted(d: Dice, faces: seq<int>)
    requires Valid(d) && |faces| == d.number && Sorted(faces)
    ensures Outcome(d, faces) == Split(d, faces)
  {
    SortSeqOfSorted(faces);
  }

  /** Five consecutive faces starting at `first`, in order. */
  function Run5(first: int): seq<int>
  {
    [first, first + 1, first + 2, first + 3, first + 4]
  }

  lemma Run5Sorted(first: int)
    ensures Sorted(Run5(first))
  {
  }

  /** Five consecutive faces are already in order, so a roll of them splits them as they are. */
  lemma OutcomeOfRun5(d: Dice, first: int)
    requires Valid(d) && d.number == 5
    ensures Outcome(d, Run5(first)) == Split(d, Run5(first))
  {
    Run5Sorted(first);
    OutcomeOfSorted(d, Run5(first));
  }

  /** Five faces in order with the three lowest dropped: the two highest are kept. */
  lemma FiveDropLowThree(v: int, w: int, x: int, y: int, z: int)
    ensures Split(Dice(5, 20, 3, 0), [v, w, x, y, z]) == Results(y + z, [v, w, x], [], [y, z], [v, w, x, y, z])
  {
    var f := [v, w, x, y, z];
    assert f[..3] == [v, w, x];
    assert f[3..5] == [y, z];
    SumPair(y, z);
  }

  /** Five faces in order with the three highest dropped: the two lowest are kept. */
  lemma FiveDropHighThree(v: int, w: int, x: int, y: int, z: int)
    ensures Split(Dice(5, 20, 0, 3), [v, w, x, y, z]) == Results(v + w, [], [x, y, z], [v, w], [v, w, x, y, z])
  {
    var f := [v, w, x, y, z];
    assert f[2..] == [x, y, z];
    assert f[0..2] == [v, w];
    SumPair(v, w);
  }

  /** Five faces in order with two dropped at each end: the middle one is kept. */
  lemma FiveDropBothTwo(v: int, w: int, x: int, y: int, z: int)
    ensures Split(Dice(5, 20, 2, 2), [v, w, x, y, z]) == Results(x, [v, w], [y, z], [x], [v, w, x, y, z])
  {
    var f := [v, w, x, y, z];
    assert f[..2] == [v, w];
    assert f[3..] == [y, z];
    assert f[2..3] == [x];
    assert Sum([x]) == Sum([]) + x;
  }

  /**
   * The sequential source on 5d20 dropping the three lowest: the two highest
   * faces are kept (4 and 5, total 9, when the counter starts at zero).
   */
  lemma SequentialDropLow(seed: nat)
    requires seed <= 15
    ensures Outcome(Dice(5, 20, 3, 0), Faces(Draws(IterStep, seed, 20, 5)))
      == Results(2 * seed + 9, [seed + 1, seed + 2, seed + 3], [], [seed + 4, seed + 5], Run5(seed + 1))
  {
    SequentialFaces(seed);
    OutcomeOfRun5(Dice(5, 20, 3, 0), seed + 1);
    FiveDropLowThree(seed + 1, seed + 2, seed + 3, seed + 4, seed + 5);
  }


  /**
   * The sequential source on 5d20 dropping the three highest: the two lowest
   * faces are kept (1 and 2, total 3, when the counter starts at zero).
   */
  lemma SequentialDropHigh(seed: nat)
    requires seed <= 15
    ensures Outcome(Dice(5, 20, 0, 3), Faces(Draws(IterStep, seed, 20, 5)))
      == Results(2 * seed + 3, [], [seed + 3, seed + 4, seed + 5], [seed + 1, seed + 2], Run5(seed + 1))
  {
    SequentialFaces(seed);
    OutcomeOfRun5(Dice(5, 20, 0, 3), seed + 1);
    FiveDropHighThree(seed + 1, seed + 2, seed + 3, seed + 4, seed + 5);
  }


  /**
   * The sequential source on 5d20 dropping two of each end: the middle face
   * is kept (3, total 3, when the counter starts at zero).
   */
  lemma SequentialDropBoth(seed: nat)
    requires seed <= 15
    ensures Outcome(Dice(5, 20, 2, 2), Faces(Draws(IterStep, seed, 20, 5)))
      == Results(seed + 3, [seed + 1, seed + 2], [seed + 4, seed + 5], [seed + 3], Run5(seed + 1))
  {
    SequentialFaces(seed);
    OutcomeOfRun5(Dice(5, 20, 2, 2), seed + 1);
    FiveDropBothTwo(seed + 1, seed + 2, seed + 3, seed + 4, seed + 5);
  }


  /** A client: building 5d20 dropping two low and two high, then rolling it with the sequential source. */
  method RollSequentialDropBoth() returns (res: Results)
    ensures res == Results(3, [1, 2], [4, 5], [3], [1, 2, 3, 4, 5])
  {
    var built := NewExt(5, 20, 2, 2);
    assert built.Ok?;
    TestSourcesHonest();
    ghost var seed: nat := 0;
    var source := new Rand(IterStep, 0);
    res := RollResults(built.value, source);
    SequentialDropBoth(seed);
  }
}
