// The transcript scoreboard's edit distance: a two-row table that refines a
// recursive definition, which is in turn the least number of single edits that
// turn one sequence into the other, and a metric.
module EditDistance {

  function Min(x: nat, y: nat): nat {
    if x <= y then x else y
  }

  function Min3(x: nat, y: nat, z: nat): nat {
    Min(Min(x, y), z)
  }

  function Max(x: nat, y: nat): nat {
    if x <= y then y else x
  }

  function Init<T>(s: seq<T>): seq<T>
    requires s != []
  {
    s[..|s| - 1]
  }

  function Last<T>(s: seq<T>): T
    requires s != []
  {
    s[|s| - 1]
  }

  // Cost of aligning the last two elements with each other.
  function Mismatch<T(==)>(x: T, y: T): nat {
    if x == y then 0 else 1
  }

  // The distance by its recursive definition on prefixes.
  function Distance<T(==)>(a: seq<T>, b: seq<T>): nat
    decreases |a| + |b|
  {
    if a == [] then |b|
    else if b == [] then |a|
    else Min3(
           Distance(Init(a), b) + 1,
           Distance(a, Init(b)) + 1,
           Distance(Init(a), Init(b)) + Mismatch(Last(a), Last(b)))
  }

  // ---------- the two-row table ----------

  // Entry `i`, `j` of the table: the distance of two prefixes.
  function Cell<T(==)>(a: seq<T>, b: seq<T>, i: nat, j: nat): nat
    requires i <= |a| && j <= |b|
  {
    Distance(a[..i], b[..j])
  }

  // `row` is row `i` of the distance table, filled up to its own length.
  ghost predicate IsRow<T>(a: seq<T>, b: seq<T>, i: nat, row: seq<nat>)
    requires i <= |a|
  {
    |row| <= |b| + 1 && forall j :: 0 <= j < |row| ==> row[j] == Cell(a, b, i, j)
  }

  lemma CellStep<T>(a: seq<T>, b: seq<T>, i: nat, j: nat)
    requires 1 <= i <= |a| && 1 <= j <= |b|
    ensures Cell(a, b, i, j) ==
            Min3(Cell(a, b, i - 1, j) + 1, Cell(a, b, i, j - 1) + 1,
                 Cell(a, b, i - 1, j - 1) + Mismatch(a[i - 1], b[j - 1]))
  {
    assert Init(a[..i]) == a[..i - 1];
    assert Init(b[..j]) == b[..j - 1];
  }

  lemma FirstRow<T>(a: seq<T>, b: seq<T>, row: seq<nat>)
    requires |row| == |b| + 1 && forall j :: 0 <= j < |row| ==> row[j] == j
    ensures IsRow(a, b, 0, row)
  {
  }

  lemma RowStep<T>(a: seq<T>, b: seq<T>, i: nat, previous: seq<nat>, current: seq<nat>, cell: nat)
    requires 1 <= i <= |a| && |previous| == |b| + 1 && 1 <= |current| <= |b|
    requires IsRow(a, b, i - 1, previous) && IsRow(a, b, i, current)
    requires var j := |current|;
             cell == Min3(previous[j] + 1, current[j - 1] + 1, previous[j - 1] + Mismatch(a[i - 1], b[j - 1]))
    ensures IsRow(a, b, i, current + [cell])
  {
    CellStep(a, b, i, |current|);
  }

  method Levenshtein<T(==)>(left: seq<T>, right: seq<T>) returns (distance: nat)
    ensures distance == Distance(left, right)
  {
    var a, b := left, right;
    if a == [] {
      return |b|;
    }
    if b == [] {
      return |a|;
    }
    var previous: seq<nat> := seq(|b| + 1, (j: nat) => j);
    FirstRow(a, b, previous);
    var i := 1;
    while i <= |a|
      invariant 1 <= i <= |a| + 1
      invariant |previous| == |b| + 1 && IsRow(a, b, i - 1, previous)
    {
      var current: seq<nat> := [i];
      var j := 1;
      while j <= |b|
        invariant 1 <= j <= |b| + 1
        invariant |current| == j && IsRow(a, b, i, current)
      {
        var cell := Min3(previous[j] + 1, current[j - 1] + 1,
                         previous[j - 1] + (if a[i - 1] == b[j - 1] then 0 else 1));
        RowStep(a, b, i, previous, current, cell);
        current := current + [cell];
        j := j + 1;
      }
      previous := current;
      i := i + 1;
    }
    assert a[..|a|] == a && b[..|b|] == b;
    return previous[|previous| - 1];
  }

  // ---------- metric laws ----------

  lemma {:induction false} LengthBounds<T>(a: seq<T>, b: seq<T>)
    ensures |a| - |b| <= Distance(a, b)
    ensures |b| - |a| <= Distance(a, b)
    ensures Distance(a, b) <= Max(|a|, |b|)
    decreases |a| + |b|
  {
    if a == [] || b == [] {
    } else {
      LengthBounds(Init(a), b);
      LengthBounds(a, Init(b));
      LengthBounds(Init(a), Init(b));
    }
  }

  lemma {:induction false} Symmetric<T>(a: seq<T>, b: seq<T>)
    ensures Distance(a, b) == Distance(b, a)
    decreases |a| + |b|
  {
    if a == [] || b == [] {
    } else {
      Symmetric(Init(a), b);
      Symmetric(a, Init(b));
      Symmetric(Init(a), Init(b));
    }
  }

  lemma {:induction false} ZeroExactlyOnEqual<T>(a: seq<T>, b: seq<T>)
    ensures Distance(a, b) == 0 <==> a == b
    decreases |a| + |b|
  {
    if a == [] || b == [] {
    } else {
      ZeroExactlyOnEqual(Init(a), Init(b));
      assert a == Init(a) + [Last(a)] && b == Init(b) + [Last(b)];
    }
  }

  lemma {:induction false} Triangle<T>(a: seq<T>, b: seq<T>, c: seq<T>)
    ensures Distance(a, c) <= Distance(a, b) + Distance(b, c)
    decreases |a| + |b| + |c|
  {
    if a == [] || b == [] || c == [] {
      LengthBounds(a, b);
      LengthBounds(b, c);
      LengthBounds(a, c);
    } else {
      Triangle(Init(a), b, c);
      Triangle(a, b, Init(c));
      Triangle(a, Init(b), c);
      Triangle(Init(a), Init(b), c);
      Triangle(a, Init(b), Init(c));
      Triangle(Init(a), Init(b), Init(c));
    }
  }

  // ---------- the least number of single edits ----------

  datatype Edit<T> = Insert(at: nat, item: T) | Delete(at: nat) | Substitute(at: nat, item: T) {
    predicate Fits(s: seq<T>) {
      if Insert? then at <= |s| else at < |s|
    }

    function Apply(s: seq<T>): seq<T>
      requires Fits(s)
    {
      match this
      case Insert(at, x) => s[..at] + [x] + s[at..]
      case Delete(at) => s[..at] + s[at + 1..]
      case Substitute(at, x) => s[at := x]
    }
  }

  // The script's edits, applied one after the other at any positions, turn `a` into `b`.
  ghost predicate Transforms<T>(script: seq<Edit<T>>, a: seq<T>, b: seq<T>)
    decreases |script|
  {
    if script == [] then a == b
    else script[0].Fits(a) && Transforms(script[1..], script[0].Apply(a), b)
  }

  // Appending the same element to both sides never raises the distance.
  lemma SnocSame<T>(a: seq<T>, b: seq<T>, x: T)
    ensures Distance(a + [x], b + [x]) <= Distance(a, b)
  {
    assert Init(a + [x]) == a && Init(b + [x]) == b;
  }

  lemma SplitLast<T>(a: seq<T>, tail: seq<T>)
    requires tail != []
    ensures a + tail == (a + Init(tail)) + [Last(tail)]
  {
  }

  lemma {:induction false} AppendSame<T>(a: seq<T>, b: seq<T>, tail: seq<T>)
    ensures Distance(a + tail, b + tail) <= Distance(a, b)
    decreases |tail|
  {
    if tail == [] {
      assert a + tail == a && b + tail == b;
    } else {
      AppendSame(a, b, Init(tail));
      SplitLast(a, tail);
      SplitLast(b, tail);
      SnocSame(a + Init(tail), b + Init(tail), Last(tail));
    }
  }

  // Changing one element, or dropping or adding it, behind a common head.
  lemma LastEdit<T>(head: seq<T>, x: T, y: T)
    ensures Distance(head, head + [x]) <= 1
    ensures Distance(head + [x], head) <= 1
    ensures Distance(head + [x], head + [y]) <= 1
  {
    ZeroExactlyOnEqual(head, head);
    assert Init(head + [x]) == head && Init(head + [y]) == head;
  }

  // An edit only touches the middle of `head + left + tail`.
  lemma EditApart<T>(a: seq<T>, e: Edit<T>, left: seq<T>, right: seq<T>)
    requires e.Fits(a)
    requires left == (if e.Insert? then [] else [a[e.at]])
    requires right == (if e.Delete? then [] else [e.item])
    ensures a == (a[..e.at] + left) + a[e.at + |left|..]
    ensures e.Apply(a) == (a[..e.at] + right) + a[e.at + |left|..]
  {
  }

  lemma OneEditIsNear<T>(a: seq<T>, e: Edit<T>)
    requires e.Fits(a)
    ensures Distance(a, e.Apply(a)) <= 1
  {
    var head := a[..e.at];
    var left := if e.Insert? then [] else [a[e.at]];
    var right := if e.Delete? then [] else [e.item];
    EditApart(a, e, left, right);
    AppendSame(head + left, head + right, a[e.at + |left|..]);
    LastEdit(head, if e.Insert? then e.item else a[e.at], if e.Delete? then a[e.at] else e.item);
    assert head + [] == head;
  }

  // No script is shorter than the distance.
  lemma {:induction false} NoShorterScript<T>(script: seq<Edit<T>>, a: seq<T>, b: seq<T>)
    requires Transforms(script, a, b)
    ensures Distance(a, b) <= |script|
    decreases |script|
  {
    if script == [] {
      ZeroExactlyOnEqual(a, b);
    } else {
      var mid := script[0].Apply(a);
      NoShorterScript(script[1..], mid, b);
      OneEditIsNear(a, script[0]);
      Triangle(a, mid, b);
    }
  }

  // A script still works in front of a common tail.
  lemma {:induction false} ScriptUnderTail<T>(script: seq<Edit<T>>, a: seq<T>, b: seq<T>, tail: seq<T>)
    requires Transforms(script, a, b)
    ensures Transforms(script, a + tail, b + tail)
    decreases |script|
  {
    if script == [] {
    } else {
      var e := script[0];
      assert e.Apply(a + tail) == e.Apply(a) + tail;
      ScriptUnderTail(script[1..], e.Apply(a), b, tail);
    }
  }

  lemma {:induction false} Compose<T>(s: seq<Edit<T>>, t: seq<Edit<T>>, a: seq<T>, b: seq<T>, c: seq<T>)
    requires Transforms(s, a, b) && Transforms(t, b, c)
    ensures Transforms(s + t, a, c)
    decreases |s|
  {
    if s == [] {
      assert s + t == t;
    } else {
      assert (s + t)[0] == s[0] && (s + t)[1..] == s[1..] + t;
      Compose(s[1..], t, s[0].Apply(a), b, c);
    }
  }

  lemma SingleEdit<T>(e: Edit<T>, a: seq<T>, b: seq<T>)
    requires e.Fits(a) && e.Apply(a) == b
    ensures Transforms([e], a, b)
  {
    assert [e][1..] == [];
    assert Transforms([e][1..], e.Apply(a), b);
  }

  lemma DeleteLast<T>(a: seq<T>, b: seq<T>, rest: seq<Edit<T>>)
    requires a != [] && Transforms(rest, Init(a), b)
    ensures Transforms([Delete(|a| - 1)] + rest, a, b)
  {
    SingleEdit(Delete(|a| - 1), a, Init(a));
    Compose([Delete(|a| - 1)], rest, a, Init(a), b);
  }

  lemma InsertLast<T>(a: seq<T>, b: seq<T>, rest: seq<Edit<T>>)
    requires b != [] && Transforms(rest, a, Init(b))
    ensures Transforms(rest + [Insert(|b| - 1, Last(b))], a, b)
  {
    var e := Insert(|b| - 1, Last(b));
    SingleEdit(e, Init(b), b);
    Compose(rest, [e], a, Init(b), b);
  }

  lemma {:induction false} KeepLast<T>(a: seq<T>, b: seq<T>, rest: seq<Edit<T>>)
    requires a != [] && b != [] && Last(a) == Last(b) && Transforms(rest, Init(a), Init(b))
    ensures Transforms(rest, a, b)
  {
    ScriptUnderTail(rest, Init(a), Init(b), [Last(a)]);
    Whole(a);
    Whole(b);
  }

  lemma Whole<T>(s: seq<T>)
    requires s != []
    ensures Init(s) + [Last(s)] == s
  {
  }

  lemma {:induction false} SubstituteLast<T>(a: seq<T>, b: seq<T>, rest: seq<Edit<T>>)
    requires a != [] && b != [] && Transforms(rest, Init(a), Init(b))
    ensures Transforms(rest + [Substitute(|b| - 1, Last(b))], a, b)
  {
    var mid := Init(b) + [Last(a)];
    assert Init(mid) == Init(b) && Last(mid) == Last(a);
    KeepLast(a, mid, rest);
    var e := Substitute(|b| - 1, Last(b));
    Whole(b);
    assert e.Apply(mid) == b;
    SingleEdit(e, mid, b);
    Compose(rest, [e], a, mid, b);
  }

  // Some script is exactly as long as the distance.
  lemma {:induction false} ShortestScript<T>(a: seq<T>, b: seq<T>) returns (script: seq<Edit<T>>)
    ensures Transforms(script, a, b) && |script| == Distance(a, b)
    decreases |a| + |b|
  {
    if a == [] && b == [] {
      script := [];
    } else if b == [] || (a != [] && Distance(a, b) == Distance(Init(a), b) + 1) {
      LengthBounds(Init(a), b);
      var rest := ShortestScript(Init(a), b);
      DeleteLast(a, b, rest);
      script := [Delete(|a| - 1)] + rest;
    } else if a == [] || Distance(a, b) == Distance(a, Init(b)) + 1 {
      LengthBounds(a, Init(b));
      var rest := ShortestScript(a, Init(b));
      InsertLast(a, b, rest);
      script := rest + [Insert(|b| - 1, Last(b))];
    } else {
      var rest := ShortestScript(Init(a), Init(b));
      if Last(a) == Last(b) {
        KeepLast(a, b, rest);
        script := rest;
      } else {
        SubstituteLast(a, b, rest);
        script := rest + [Substitute(|b| - 1, Last(b))];
      }
    }
  }

  ghost predicate Reachable<T(!new)>(a: seq<T>, b: seq<T>, edits: nat) {
    exists script :: Transforms(script, a, b) && |script| == edits
  }

  // The distance is the least number of edits: reachable, and nothing smaller is.
  lemma DistanceIsLeast<T(!new)>(a: seq<T>, b: seq<T>)
    ensures Reachable(a, b, Distance(a, b))
    ensures forall n: nat :: Reachable(a, b, n) ==> Distance(a, b) <= n
  {
    var best := ShortestScript(a, b);
    forall n: nat | Reachable(a, b, n)
      ensures Distance(a, b) <= n
    {
      var script :| Transforms(script, a, b) && |script| == n;
      NoShorterScript(script, a, b);
    }
  }

  // ---------- scores ----------

  datatype Score = Score(distance: nat, referenceUnits: nat, errorRate: real, accuracy: real)

  method ScoreUnits<T(==)>(reference: seq<T>, hypothesis: seq<T>) returns (score: Score)
    ensures score == ScoreOf(reference, hypothesis)
  {
    var refLen := |reference|;
    var dist := Levenshtein(reference, hypothesis);
    var err: real;
    if refLen <= 0 {
      err := if |hypothesis| == 0 then 0.0 else 1.0;
    } else {
      err := dist as real / refLen as real;
    }
    var acc := if 1.0 - err < 0.0 then 0.0 else 1.0 - err;
    score := Score(dist, refLen, err, acc);
  }

  function ScoreOf<T(==)>(reference: seq<T>, hypothesis: seq<T>): Score {
    Scored(Distance(reference, hypothesis), |reference|, |hypothesis|)
  }

  function Scored(dist: nat, units: nat, hypothesisUnits: nat): Score {
    var err := if units > 0 then dist as real / units as real else if hypothesisUnits == 0 then 0.0 else 1.0;
    Score(dist, units, err, if err > 1.0 then 0.0 else 1.0 - err)
  }

  // A full score means an exact transcript; a zero score means at least as many
  // edits as the reference has units (or output where none was expected).
  lemma ScoreMeaning<T>(reference: seq<T>, hypothesis: seq<T>)
    ensures var s := ScoreOf(reference, hypothesis);
            && 0.0 <= s.accuracy <= 1.0
            && (s.accuracy == 1.0 <==> reference == hypothesis)
            && (s.accuracy == 0.0 <==> reference != hypothesis && s.distance >= |reference|)
            && (|hypothesis| <= |reference| ==> s.errorRate <= 1.0)
  {
    ZeroExactlyOnEqual(reference, hypothesis);
    LengthBounds(reference, hypothesis);
    var n, d := |reference| as real, Distance(reference, hypothesis) as real;
    if |reference| > 0 {
      Ratio(d, n);
    }
  }

  // The score counts the edits and the reference's units; their ratio is the error rate, which is all or nothing for
  // an empty reference, and the accuracy is what it leaves of one.
  lemma {:induction false} ScoreIsRatio<T>(reference: seq<T>, hypothesis: seq<T>)
    ensures var s := ScoreOf(reference, hypothesis);
            s.distance == Distance(reference, hypothesis) && s.referenceUnits == |reference|
            && IsRatio(s, |hypothesis|)
  {
    ScoredIsRatio(Distance(reference, hypothesis), |reference|, |hypothesis|);
  }

  ghost predicate IsRatio(s: Score, hypothesisUnits: nat) {
    && (s.referenceUnits > 0 ==> s.errorRate * s.referenceUnits as real == s.distance as real)
    && (s.referenceUnits == 0 ==> s.errorRate == if hypothesisUnits == 0 then 0.0 else 1.0)
    && (if s.errorRate <= 1.0 then s.accuracy == 1.0 - s.errorRate else s.accuracy == 0.0)
  }

  lemma ScoredIsRatio(dist: nat, units: nat, hypothesisUnits: nat)
    ensures IsRatio(Scored(dist, units, hypothesisUnits), hypothesisUnits)
  {
    if units > 0 {
      Quotient(dist as real, units as real);
    }
  }

  lemma Quotient(d: real, n: real)
    requires n > 0.0
    ensures d / n * n == d
  {
  }

  lemma Ratio(d: real, n: real)
    requires n > 0.0 && d >= 0.0
    ensures d / n >= 0.0
    ensures d / n == 0.0 <==> d == 0.0
    ensures d / n <= 1.0 <==> d <= n
    ensures d / n >= 1.0 <==> d >= n
  {
    var q := d / n;
    assert q * n == d;
    if q > 1.0 {
      assert (q - 1.0) * n > 0.0;
    }
    if q < 1.0 {
      assert (1.0 - q) * n > 0.0;
    }
  }
}
