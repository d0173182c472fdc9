// Registered commands and the canonical form two command lists are compared by.
module CommandRegistry {

  // What a command looks like apart from its identity; `rest` stands for the remaining fields.
  datatype Shape = Shape(kind: int, name: string, rest: string)

  // `extra` stands for the fields the server adds.
  datatype Command = Command(id: string, shape: Shape, extra: string)

  const MANAGED_NAMES: set<string> := {
    "\U{AE30}\U{B85D}\U{C5F4}\U{B78C}",
    "\U{AE30}\U{B85D}\U{C0AD}\U{C81C}",
    "\U{AE30}\U{B85D}\U{B3D9}\U{C758}",
    "\U{AE30}\U{B85D}\U{CCA0}\U{D68C}",
    "\U{D53C}\U{B4DC}\U{BC31}\U{C81C}\U{CD9C}"
  }

  const MANAGED_COUNT: nat := 5

  predicate IsManaged(s: Shape) {
    s.name in MANAGED_NAMES
  }

  // Five to twenty-four digits, the first of them not zero.
  predicate ValidId(id: string) {
    5 <= |id| <= 24 && '1' <= id[0] <= '9' && forall i :: 0 <= i < |id| ==> '0' <= id[i] <= '9'
  }

  ghost predicate DistinctIds(commands: seq<Command>) {
    forall i, j :: 0 <= i < j < |commands| ==> commands[i].id != commands[j].id
  }

  // ---------- orders ----------

  predicate StringLeq(a: string, b: string)
    decreases |a|
  {
    if a == [] then true
    else if b == [] then false
    else a[0] < b[0] || (a[0] == b[0] && StringLeq(a[1..], b[1..]))
  }

  lemma {:induction false} StringOrder(a: string, b: string)
    ensures StringLeq(a, b) || StringLeq(b, a)
    ensures StringLeq(a, b) && StringLeq(b, a) <==> a == b
    decreases |a|
  {
    if a != [] && b != [] && a[0] == b[0] {
      StringOrder(a[1..], b[1..]);
      assert a == [a[0]] + a[1..] && b == [b[0]] + b[1..];
    }
  }

  lemma {:induction false} StringTransitive(a: string, b: string, c: string)
    requires StringLeq(a, b) && StringLeq(b, c)
    ensures StringLeq(a, c)
    decreases |a|
  {
    if a != [] && a[0] == b[0] == c[0] {
      StringTransitive(a[1..], b[1..], c[1..]);
    }
  }

  // By kind, then name, then id.
  predicate KeyLeq(a: Command, b: Command) {
    if a.shape.kind != b.shape.kind then a.shape.kind < b.shape.kind
    else if a.shape.name != b.shape.name then StringLeq(a.shape.name, b.shape.name)
    else StringLeq(a.id, b.id)
  }

  predicate SameKey(a: Command, b: Command) {
    a.shape.kind == b.shape.kind && a.shape.name == b.shape.name && a.id == b.id
  }

  lemma KeyOrder(a: Command, b: Command)
    ensures KeyLeq(a, b) || KeyLeq(b, a)
    ensures KeyLeq(a, b) && KeyLeq(b, a) <==> SameKey(a, b)
  {
    StringOrder(a.shape.name, b.shape.name);
    StringOrder(a.id, b.id);
  }

  lemma KeyTransitive(a: Command, b: Command, c: Command)
    requires KeyLeq(a, b) && KeyLeq(b, c)
    ensures KeyLeq(a, c)
  {
    if a.shape.kind == b.shape.kind == c.shape.kind {
      if a.shape.name == b.shape.name == c.shape.name {
        StringTransitive(a.id, b.id, c.id);
      } else if a.shape.name != b.shape.name && b.shape.name != c.shape.name {
        StringTransitive(a.shape.name, b.shape.name, c.shape.name);
        StringOrder(a.shape.name, b.shape.name);
        if a.shape.name == c.shape.name {
          assert false;
        }
      }
    }
  }

  // ---------- the canonical form ----------

  function Insert(c: Command, sorted: seq<Command>): seq<Command> {
    if sorted == [] then [c]
    else if KeyLeq(sorted[0], c) then [sorted[0]] + Insert(c, sorted[1..])
    else [c] + sorted
  }

  // A stable sort by key. The encoding of the sorted list to bytes is injective, so the list stands for it.
  function Canonical(commands: seq<Command>): seq<Command> {
    if commands == [] then []
    else Insert(commands[|commands| - 1], Canonical(commands[..|commands| - 1]))
  }

  ghost predicate SortedByKey(s: seq<Command>) {
    forall i, j :: 0 <= i < j < |s| ==> KeyLeq(s[i], s[j])
  }

  lemma {:induction false} InsertAdds(c: Command, sorted: seq<Command>)
    ensures multiset(Insert(c, sorted)) == multiset(sorted) + multiset{c}
    decreases |sorted|
  {
    if sorted != [] {
      assert sorted == [sorted[0]] + sorted[1..];
      InsertAdds(c, sorted[1..]);
    }
  }

  lemma {:induction false} InsertStaysSorted(c: Command, sorted: seq<Command>)
    requires SortedByKey(sorted)
    ensures SortedByKey(Insert(c, sorted))
    decreases |sorted|
  {
    if sorted != [] {
      var head, rest := sorted[0], sorted[1..];
      KeyOrder(head, c);
      if KeyLeq(head, c) {
        InsertStaysSorted(c, rest);
        InsertAdds(c, rest);
        forall x | x in Insert(c, rest)
          ensures KeyLeq(head, x)
        {
          assert x in multiset(Insert(c, rest));
        }
      } else {
        forall x | x in sorted
          ensures KeyLeq(c, x)
        {
          HeadIsLeast(sorted, x);
          KeyTransitive(c, head, x);
        }
      }
    }
  }

  lemma {:induction false} CanonicalSorts(commands: seq<Command>)
    ensures multiset(Canonical(commands)) == multiset(commands)
    ensures SortedByKey(Canonical(commands))
    decreases |commands|
  {
    if commands != [] {
      var init, c := commands[..|commands| - 1], commands[|commands| - 1];
      CanonicalSorts(init);
      InsertAdds(c, Canonical(init));
      InsertStaysSorted(c, Canonical(init));
      assert commands == init + [c];
    }
  }

  // ---------- when the order of the input does not matter ----------

  // Different commands differ in kind, name or id.
  ghost predicate KeysDecide(a: seq<Command>) {
    forall x, y :: x in a && y in a && SameKey(x, y) ==> x == y
  }

  lemma DistinctIdsDecide(a: seq<Command>)
    requires DistinctIds(a)
    ensures KeysDecide(a)
  {
  }

  lemma HeadIsLeast(a: seq<Command>, x: Command)
    requires SortedByKey(a) && x in a
    ensures KeyLeq(a[0], x)
  {
    var i :| 0 <= i < |a| && a[i] == x;
    KeyOrder(x, x);
  }

  lemma TailMultiset(a: seq<Command>)
    requires a != []
    ensures multiset(a[1..]) == multiset(a) - multiset{a[0]}
  {
    assert a == [a[0]] + a[1..];
  }

  // Sorted lists of the same commands are the same list, if the key tells their commands apart.
  lemma {:induction false} SortedIsUnique(a: seq<Command>, b: seq<Command>)
    requires SortedByKey(a) && SortedByKey(b) && multiset(a) == multiset(b) && KeysDecide(a)
    ensures a == b
    decreases |a|
  {
    assert |multiset(a)| == |a| && |multiset(b)| == |b|;
    if a != [] {
      SameHead(a, b);
      TailMultiset(a);
      TailMultiset(b);
      assert a == [a[0]] + a[1..] && b == [b[0]] + b[1..];
      assert KeysDecide(a[1..]);
      SortedIsUnique(a[1..], b[1..]);
    }
  }

  lemma SameHead(a: seq<Command>, b: seq<Command>)
    requires a != [] && b != [] && SortedByKey(a) && SortedByKey(b) && multiset(a) == multiset(b) && KeysDecide(a)
    ensures a[0] == b[0]
  {
    assert a[0] in multiset(b) && b[0] in multiset(a);
    HeadIsLeast(a, b[0]);
    HeadIsLeast(b, a[0]);
    KeyOrder(a[0], b[0]);
  }

  // Two commands with one key stand in the sorted list in the order they were inserted.
  lemma {:induction false} InsertionOrderShows(x: Command, y: Command, sorted: seq<Command>)
    requires SameKey(x, y) && x != y
    ensures Insert(y, Insert(x, sorted)) != Insert(x, Insert(y, sorted))
    decreases |sorted|
  {
    KeyOrder(x, x);
    if sorted == [] || !KeyLeq(sorted[0], x) {
      assert Insert(x, sorted) == [x] + sorted && Insert(y, sorted) == [y] + sorted;
      assert Insert(y, [x] + sorted)[0] == x && Insert(x, [y] + sorted)[0] == y;
    } else {
      var head, rest := sorted[0], sorted[1..];
      InsertionOrderShows(x, y, rest);
      InsertBehind(head, x, y, rest);
      InsertBehind(head, y, x, rest);
      assert Insert(y, Insert(x, sorted))[1..] == Insert(y, Insert(x, rest));
      assert Insert(x, Insert(y, sorted))[1..] == Insert(x, Insert(y, rest));
    }
  }

  lemma InsertBehind(head: Command, x: Command, y: Command, rest: seq<Command>)
    requires KeyLeq(head, x) && SameKey(x, y)
    ensures Insert(y, Insert(x, [head] + rest)) == [head] + Insert(y, Insert(x, rest))
  {
    assert ([head] + rest)[1..] == rest;
    assert ([head] + Insert(x, rest))[1..] == Insert(x, rest);
  }

  lemma TakeOut(a: seq<Command>, x: Command) returns (rest: seq<Command>)
    requires x in a
    ensures multiset(rest) + multiset{x} == multiset(a)
  {
    var i :| 0 <= i < |a| && a[i] == x;
    rest := a[..i] + a[i + 1..];
    assert a == a[..i] + [a[i]] + a[i + 1..];
  }

  lemma CanonicalOfPair(r: seq<Command>, x: Command, y: Command)
    ensures Canonical(r + [x, y]) == Insert(y, Insert(x, Canonical(r)))
  {
    var b := r + [x, y];
    assert b[..|b| - 1] == r + [x] && (r + [x])[..|r|] == r;
  }

  // Commands that the key does not tell apart have an order whose canonical form is another one.
  lemma SomeOrderShows(a: seq<Command>, x: Command, y: Command) returns (b: seq<Command>)
    requires x in a && y in a && SameKey(x, y) && x != y
    ensures multiset(b) == multiset(a) && Canonical(b) != Canonical(a)
  {
    var withoutX := TakeOut(a, x);
    assert y in multiset(a) && y in multiset(withoutX);
    var r := TakeOut(withoutX, y);
    CanonicalOfPair(r, x, y);
    CanonicalOfPair(r, y, x);
    InsertionOrderShows(x, y, Canonical(r));
    b := if Canonical(r + [x, y]) != Canonical(a) then r + [x, y] else r + [y, x];
    PairUnordered(r, x, y);
  }

  lemma PairUnordered(r: seq<Command>, x: Command, y: Command)
    ensures multiset(r + [x, y]) == multiset(r) + multiset{y} + multiset{x} == multiset(r + [y, x])
  {
    assert multiset([x, y]) == multiset{y} + multiset{x} == multiset([y, x]);
  }

  // Two commands that differ only in what the server adds: their order shows.
  lemma DuplicatesShowTheirOrder(id: string, shape: Shape)
    ensures var x, y := Command(id, shape, "a"), Command(id, shape, "b");
            multiset([x, y]) == multiset([y, x]) && Canonical([x, y]) != Canonical([y, x])
  {
    var x, y := Command(id, shape, "a"), Command(id, shape, "b");
    assert [] + [x, y] == [x, y] && [] + [y, x] == [y, x];
    CanonicalOfPair([], x, y);
    CanonicalOfPair([], y, x);
    InsertionOrderShows(x, y, Canonical([]));
  }

  // The canonical form identifies exactly the permutations of a list if, and only if, the key tells its commands apart.
  lemma CanonicalExactlyPermutation(a: seq<Command>)
    ensures (forall b :: Canonical(a) == Canonical(b) <==> multiset(a) == multiset(b)) <==> KeysDecide(a)
  {
    CanonicalSorts(a);
    if KeysDecide(a) {
      forall b
        ensures Canonical(a) == Canonical(b) <==> multiset(a) == multiset(b)
      {
        CanonicalSorts(b);
        if multiset(a) == multiset(b) {
          assert forall x :: x in Canonical(a) ==> x in multiset(a);
          SortedIsUnique(Canonical(a), Canonical(b));
        }
      }
    } else {
      var x, y :| x in a && y in a && SameKey(x, y) && x != y;
      var b := SomeOrderShows(a, x, y);
      assert multiset(a) == multiset(b) && Canonical(a) != Canonical(b);
    }
  }

  // ---------- the order, without the functions that compute it ----------

  // `a` comes before `b` in a dictionary, or is `b`: they agree up to a place where `a` ends or has the smaller letter.
  ghost predicate Precedes(a: string, b: string) {
    exists i: nat :: SmallerAt(a, b, i)
  }

  ghost predicate SmallerAt(a: string, b: string, i: nat) {
    && i <= |a| && i <= |b| && a[..i] == b[..i]
    && (i == |a| || (i < |b| && a[i] < b[i]))
  }

  lemma {:induction false} LexicographicExactly(a: string, b: string)
    ensures StringLeq(a, b) <==> Precedes(a, b)
    decreases |a|
  {
    if a == [] {
      assert SmallerAt(a, b, 0);
    } else if b != [] {
      if a[0] < b[0] {
        assert SmallerAt(a, b, 0);
      } else if a[0] == b[0] {
        LexicographicExactly(a[1..], b[1..]);
        if i: nat :| SmallerAt(a[1..], b[1..], i) {
          ShiftSmaller(a, b, i);
        }
        if i: nat :| SmallerAt(a, b, i) {
          UnshiftSmaller(a, b, i);
        }
      } else {
        forall i: nat
          ensures !SmallerAt(a, b, i)
        {
          FirstLetterDecides(a, b, i);
        }
      }
    }
  }

  lemma FirstLetterDecides(a: string, b: string, i: nat)
    requires a != [] && b != [] && b[0] < a[0]
    ensures !SmallerAt(a, b, i)
  {
    if 0 < i <= |a| && i <= |b| {
      assert a[..i][0] == a[0] && b[..i][0] == b[0];
    }
  }

  lemma ShiftSmaller(a: string, b: string, i: nat)
    requires a != [] && b != [] && a[0] == b[0] && SmallerAt(a[1..], b[1..], i)
    ensures SmallerAt(a, b, i + 1)
  {
    assert a[..i + 1] == [a[0]] + a[1..][..i] && b[..i + 1] == [b[0]] + b[1..][..i];
  }

  lemma UnshiftSmaller(a: string, b: string, i: nat)
    requires a != [] && b != [] && a[0] == b[0] && SmallerAt(a, b, i)
    ensures i > 0 && SmallerAt(a[1..], b[1..], i - 1)
  {
    assert a[1..][..i - 1] == a[..i][1..] && b[1..][..i - 1] == b[..i][1..];
  }

  // The canonical form goes by kind, then by name, then by id, both as in a dictionary.
  lemma CanonicalAscends(commands: seq<Command>, i: nat, j: nat)
    requires i < j < |Canonical(commands)|
    ensures var a, b := Canonical(commands)[i], Canonical(commands)[j];
            && a.shape.kind <= b.shape.kind
            && (a.shape.kind == b.shape.kind ==> Precedes(a.shape.name, b.shape.name))
            && (a.shape.kind == b.shape.kind && a.shape.name == b.shape.name ==> Precedes(a.id, b.id))
  {
    var a, b := Canonical(commands)[i], Canonical(commands)[j];
    CanonicalSorts(commands);
    LexicographicExactly(a.shape.name, b.shape.name);
    LexicographicExactly(a.id, b.id);
    StringOrder(a.shape.name, a.shape.name);
  }

  // The commands with the key of `k`, in their order.
  function OfKey(commands: seq<Command>, k: Command): seq<Command> {
    if commands == [] then []
    else (if SameKey(commands[0], k) then [commands[0]] else []) + OfKey(commands[1..], k)
  }

  lemma {:induction false} OfKeyJoin(a: seq<Command>, b: seq<Command>, k: Command)
    ensures OfKey(a + b, k) == OfKey(a, k) + OfKey(b, k)
    decreases |a|
  {
    if a == [] {
      assert a + b == b;
    } else {
      assert (a + b)[1..] == a[1..] + b;
      OfKeyJoin(a[1..], b, k);
    }
  }

  lemma {:induction false} NoneOfKey(sorted: seq<Command>, c: Command)
    requires SortedByKey(sorted) && (sorted != [] ==> !KeyLeq(sorted[0], c))
    ensures OfKey(sorted, c) == []
    decreases |sorted|
  {
    if sorted != [] {
      KeyOrder(sorted[0], c);
      if |sorted| > 1 && KeyLeq(sorted[1], c) {
        KeyTransitive(sorted[0], sorted[1], c);
      }
      NoneOfKey(sorted[1..], c);
    }
  }

  lemma {:induction false} InsertBehindEquals(c: Command, sorted: seq<Command>, k: Command)
    requires SortedByKey(sorted)
    ensures OfKey(Insert(c, sorted), k) == OfKey(sorted, k) + (if SameKey(c, k) then [c] else [])
    decreases |sorted|
  {
    if sorted != [] && KeyLeq(sorted[0], c) {
      InsertBehindEquals(c, sorted[1..], k);
      assert Insert(c, sorted)[1..] == Insert(c, sorted[1..]);
    } else {
      NoneOfKey(sorted, c);
      assert ([c] + sorted)[1..] == sorted;
      if SameKey(c, k) {
        SameKeySame(sorted, c, k);
      }
    }
  }

  lemma {:induction false} SameKeySame(commands: seq<Command>, c: Command, k: Command)
    requires SameKey(c, k)
    ensures OfKey(commands, c) == OfKey(commands, k)
    decreases |commands|
  {
    if commands != [] {
      SameKeySame(commands[1..], c, k);
    }
  }

  lemma {:induction false} OneOfKey(init: seq<Command>, c: Command, k: Command)
    ensures OfKey(init + [c], k) == OfKey(init, k) + (if SameKey(c, k) then [c] else [])
  {
    OfKeyJoin(init, [c], k);
    assert [c][1..] == [];
  }

  // Commands with one key keep their order.
  lemma {:induction false} CanonicalIsStable(commands: seq<Command>, k: Command)
    ensures OfKey(Canonical(commands), k) == OfKey(commands, k)
    decreases |commands|
  {
    if commands != [] {
      var init, c := commands[..|commands| - 1], commands[|commands| - 1];
      CanonicalIsStable(init, k);
      CanonicalSorts(init);
      StableStep(Canonical(init), init, c, k);
      assert commands == init + [c];
    }
  }

  lemma {:induction false} StableStep(sorted: seq<Command>, init: seq<Command>, c: Command, k: Command)
    requires SortedByKey(sorted) && OfKey(sorted, k) == OfKey(init, k)
    ensures OfKey(Insert(c, sorted), k) == OfKey(init + [c], k)
  {
    InsertBehindEquals(c, sorted, k);
    OneOfKey(init, c, k);
  }

  lemma ManagedNamesAreFive()
    ensures |MANAGED_NAMES| == MANAGED_COUNT
  {
  }
}
