/** The two-row, early-exit edit distance behind path suggestions (cmd/provider.go).

    The specification is the recursive Levenshtein distance, which is itself tied to the
    cheapest alignment of the two strings. */
module EditDistance {

  /** editMin3 of the source. */
  function Min3(a: int, b: int, c: int): (m: int)
    ensures m <= a && m <= b && m <= c
    ensures m == a || m == b || m == c
  {
    var m := a;
    var m := if b < m then b else m;
    if c < m then c else m
  }

  function Min(a: int, b: int): int {
    if a <= b then a else b
  }

  function Init<T>(s: seq<T>): seq<T>
    requires s != []
  {
    s[..|s| - 1]
  }

  function Last<T>(s: seq<T>): T
    requires s != []
  {
    s[|s| - 1]
  }

  /** The Levenshtein distance. */
  function Distance<T(==)>(a: seq<T>, b: seq<T>): (d: nat)
    ensures d >= |a| - |b| && d >= |b| - |a|
    decreases |a| + |b|
  {
    if a == [] then |b|
    else if b == [] then |a|
    else Min3(Distance(Init(a), b) + 1,
              Distance(a, Init(b)) + 1,
              Distance(Init(a), Init(b)) + if Last(a) == Last(b) then 0 else 1)
  }

  // ---------- The distance is the cost of the cheapest alignment ----------

  datatype Step = Keep | Change | Insert | Delete

  /** `steps`, read from the right end, turns a into b. */
  ghost predicate Aligns<T(!new)>(steps: seq<Step>, a: seq<T>, b: seq<T>)
    decreases |steps|
  {
    if steps == [] then a == [] && b == []
    else match Last(steps)
      case Keep => a != [] && b != [] && Last(a) == Last(b) && Aligns(Init(steps), Init(a), Init(b))
      case Change => a != [] && b != [] && Aligns(Init(steps), Init(a), Init(b))
      case Insert => b != [] && Aligns(Init(steps), a, Init(b))
      case Delete => a != [] && Aligns(Init(steps), Init(a), b)
  }

  ghost function Cost(steps: seq<Step>): nat {
    if steps == [] then 0 else Cost(Init(steps)) + if Last(steps) == Keep then 0 else 1
  }

  lemma {:induction false} NoAlignmentIsCheaper<T(!new)>(steps: seq<Step>, a: seq<T>, b: seq<T>)
    requires Aligns(steps, a, b)
    ensures Distance(a, b) <= Cost(steps)
    decreases |steps|
  {
    if steps == [] {
    } else {
      match Last(steps)
      case Keep => NoAlignmentIsCheaper(Init(steps), Init(a), Init(b));
      case Change => NoAlignmentIsCheaper(Init(steps), Init(a), Init(b));
      case Insert => NoAlignmentIsCheaper(Init(steps), a, Init(b));
      case Delete => NoAlignmentIsCheaper(Init(steps), Init(a), b);
    }
  }

  lemma {:induction false} SomeAlignmentIsThisCheap<T(!new)>(a: seq<T>, b: seq<T>) returns (steps: seq<Step>)
    ensures Aligns(steps, a, b) && Cost(steps) == Distance(a, b)
    decreases |a| + |b|
  {
    if a == [] && b == [] {
      steps := [];
    } else {
      var rest, step;
      if a == [] || (b != [] && Distance(a, b) == Distance(a, Init(b)) + 1) {
        rest := SomeAlignmentIsThisCheap(a, Init(b));
        step := Insert;
      } else if b == [] || Distance(a, b) == Distance(Init(a), b) + 1 {
        rest := SomeAlignmentIsThisCheap(Init(a), b);
        step := Delete;
      } else {
        rest := SomeAlignmentIsThisCheap(Init(a), Init(b));
        step := if Last(a) == Last(b) then Keep else Change;
      }
      steps := rest + [step];
      assert Init(steps) == rest && Last(steps) == step;
    }
  }

  // ---------- Soundness of the two early exits ----------

  lemma {:induction false} EqualHaveDistanceZero<T>(a: seq<T>)
    ensures Distance(a, a) == 0
  {
    if a == [] {
    } else {
      EqualHaveDistanceZero(Init(a));
    }
  }

  /** The cell (i, j) of the table: the distance between the two prefixes. */
  function Cell<T(==)>(a: seq<T>, b: seq<T>, i: nat, j: nat): nat
    requires i <= |a| && j <= |b|
  {
    Distance(a[..i], b[..j])
  }

  lemma {:induction false} CellRecurrence<T>(a: seq<T>, b: seq<T>, i: nat, j: nat)
    requires i <= |a| && j <= |b|
    ensures i == 0 ==> Cell(a, b, i, j) == j
    ensures j == 0 ==> Cell(a, b, i, j) == i
    ensures 0 < i && 0 < j ==>
              Cell(a, b, i, j) == Min3(Cell(a, b, i - 1, j) + 1, Cell(a, b, i, j - 1) + 1,
                                       Cell(a, b, i - 1, j - 1) + if a[i - 1] == b[j - 1] then 0 else 1)
    ensures i == |a| && j == |b| ==> Cell(a, b, i, j) == Distance(a, b)
  {
    if 0 < i && 0 < j {
      assert Init(a[..i]) == a[..i - 1] && Init(b[..j]) == b[..j - 1];
    }
    assert a[..|a|] == a && b[..|b|] == b;
  }

  /** Every cell of row i of the table exceeds m. */
  ghost predicate RowExceeds<T(!new)>(a: seq<T>, b: seq<T>, i: nat, m: int)
    requires i <= |a|
  {
    forall j :: 0 <= j <= |b| ==> Cell(a, b, i, j) > m
  }

  lemma {:induction false} NextCellExceeds<T(!new)>(a: seq<T>, b: seq<T>, i: nat, j: nat, m: int)
    requires i < |a| && j <= |b| && RowExceeds(a, b, i, m)
    ensures Cell(a, b, i + 1, j) > m
  {
    hide Distance;
    CellRecurrence(a, b, i + 1, j);
    CellRecurrence(a, b, i, 0);
    assert Cell(a, b, i, 0) > m;
    if j == 0 {
    } else {
      NextCellExceeds(a, b, i, j - 1, m);
    }
  }

  /** Once a whole row exceeds m, so does the distance itself. */
  lemma {:induction false} RowMinimumNeverShrinks<T(!new)>(a: seq<T>, b: seq<T>, i: nat, m: int)
    requires i <= |a| && RowExceeds(a, b, i, m)
    ensures Distance(a, b) > m
    decreases |a| - i
  {
    hide Distance;
    if i == |a| {
      CellRecurrence(a, b, i, |b|);
      assert Cell(a, b, i, |b|) > m;
    } else {
      var next := i + 1;
      forall j | 0 <= j <= |b|
        ensures Cell(a, b, next, j) > m
      {
        NextCellExceeds(a, b, i, j, m);
      }
      RowMinimumNeverShrinks(a, b, next, m);
    }
  }

  /** The result the code gives: the length shortcuts for an empty string come before the
      cap, so they return the distance uncapped. */
  function Bounded<T(==)>(a: seq<T>, b: seq<T>, max: int): int {
    if a == b || a == [] || b == [] then Distance(a, b) else Min(Distance(a, b), max)
  }

  lemma DistanceToEmpty<T(!new)>(a: seq<T>, b: seq<T>)
    ensures a == [] ==> Distance(a, b) == |b|
    ensures b == [] ==> Distance(a, b) == |a|
  {
  }

  method BoundedEditDistance<T(==,!new)>(a: seq<T>, b: seq<T>, max: int) returns (d: int)
    ensures d == Bounded(a, b, max)
  {
    hide Distance, Cell;
    if a == b {
      EqualHaveDistanceZero(a);
      return 0;
    }
    var la, lb := |a|, |b|;
    DistanceToEmpty(a, b);
    if la == 0 {
      return lb;
    }
    if lb == 0 {
      return la;
    }
    if la - lb > max || lb - la > max {
      return max;
    }
    var prev := new int[lb + 1];
    var cur := new int[lb + 1];
    for j := 0 to lb + 1
      invariant forall k :: 0 <= k < j ==> prev[k] == Cell(a, b, 0, k)
    {
      CellRecurrence(a, b, 0, j);
      prev[j] := j;
    }
    for i := 1 to la + 1
      invariant prev != cur && prev.Length == cur.Length == lb + 1
      invariant fresh(prev) && fresh(cur)
      invariant IsRow(a, b, i - 1, prev)
    {
      var rowMin := FillRow(a, b, i, prev, cur);
      if rowMin > max {
        assert RowExceeds(a, b, i, max);
        RowMinimumNeverShrinks(a, b, i, max);
        return max;
      }
      prev, cur := cur, prev;
    }
    CellRecurrence(a, b, la, lb);
    if prev[lb] > max {
      return max;
    }
    return prev[lb];
  }

  ghost predicate IsRow<T(!new)>(a: seq<T>, b: seq<T>, i: nat, row: array<int>)
    requires i <= |a|
    reads row
  {
    row.Length == |b| + 1 && forall k :: 0 <= k <= |b| ==> row[k] == Cell(a, b, i, k)
  }

  /** The inner loop: row i from row i - 1, together with its minimum. */
  method FillRow<T(==,!new)>(a: seq<T>, b: seq<T>, i: nat, prev: array<int>, cur: array<int>)
    returns (rowMin: int)
    requires 0 < i <= |a| && prev != cur && cur.Length == |b| + 1 && IsRow(a, b, i - 1, prev)
    modifies cur
    ensures IsRow(a, b, i, cur)
    ensures forall k :: 0 <= k <= |b| ==> rowMin <= Cell(a, b, i, k)
    ensures exists k :: 0 <= k <= |b| && rowMin == Cell(a, b, i, k)
  {
    hide Distance, Cell;
    CellRecurrence(a, b, i, 0);
    cur[0] := i;
    rowMin := cur[0];
    ghost var least := 0;
    for j := 1 to |b| + 1
      invariant IsRow(a, b, i - 1, prev)
      invariant forall k :: 0 <= k < j ==> cur[k] == Cell(a, b, i, k) && rowMin <= cur[k]
      invariant 0 <= least < j && rowMin == Cell(a, b, i, least)
    {
      var cost := 1;
      if a[i - 1] == b[j - 1] {
        cost := 0;
      }
      CellRecurrence(a, b, i, j);
      cur[j] := Min3(prev[j] + 1, cur[j - 1] + 1, prev[j - 1] + cost);
      if cur[j] < rowMin {
        rowMin := cur[j];
        least := j;
      }
    }
  }

  /** The documented meaning, "the distance capped at max", is met exactly when no empty
      string takes the uncapped shortcut and equal strings meet a non-negative cap. */
  lemma CapIsHonouredExactlyWhen<T>(a: seq<T>, b: seq<T>, max: int)
    ensures Bounded(a, b, max) == Min(Distance(a, b), max)
       <==> if a == b then 0 <= max else a == [] || b == [] ==> |a| <= max && |b| <= max
  {
    EqualHaveDistanceZero(a);
  }

  /** The caller keeps a directory entry when the distance capped at 2 is at most 2: for
      non-empty names that test rejects nothing, however different the names are. */
  lemma SimilarityTestRejectsOnlyEmptyNames<T>(name: seq<T>, wanted: seq<T>)
    ensures Bounded(name, wanted, 2) > 2 <==> (name == [] && |wanted| > 2) || (wanted == [] && |name| > 2)
  {
    EqualHaveDistanceZero(name);
  }
}
