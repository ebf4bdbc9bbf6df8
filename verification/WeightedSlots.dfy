/**
  The plain form of the weighted set in les/randselect.go: one row of slots, in
  which an item occupies as many consecutive values as it weighs.
 */
module WeightedSlots {

  type Item = nat

  datatype Slot = Empty | Held(item: Item, weight: nat)

  function Weight(s: Slot): nat {
    if s.Held? then s.weight else 0
  }

  /** The total weight of a row. */
  function Sum(row: seq<Slot>): nat {
    if row == [] then 0 else Sum(row[..|row| - 1]) + Weight(row[|row| - 1])
  }

  /** The number of occupied slots of a row. */
  function Count(row: seq<Slot>): nat {
    if row == [] then 0 else Count(row[..|row| - 1]) + if row[|row| - 1].Held? then 1 else 0
  }

  function Empties(n: nat): (row: seq<Slot>)
    ensures |row| == n
  {
    seq(n, i => Empty)
  }

  lemma {:induction false} EmptiesWeighNothing(n: nat)
    ensures Sum(Empties(n)) == 0 && Count(Empties(n)) == 0
  {
    if n > 0 {
      assert Empties(n)[..n - 1] == Empties(n - 1);
      EmptiesWeighNothing(n - 1);
    }
  }

  lemma {:induction false} SumConcat(a: seq<Slot>, b: seq<Slot>)
    ensures Sum(a + b) == Sum(a) + Sum(b) && Count(a + b) == Count(a) + Count(b)
  {
    if b == [] {
      assert a + b == a;
    } else {
      assert (a + b)[..|a + b| - 1] == a + b[..|b| - 1];
      SumConcat(a, b[..|b| - 1]);
    }
  }

  lemma SumUpdate(row: seq<Slot>, i: nat, s: Slot)
    requires i < |row|
    ensures Sum(row[i := s]) == Sum(row) - Weight(row[i]) + Weight(s)
    ensures Count(row[i := s]) == Count(row) - (if row[i].Held? then 1 else 0) + if s.Held? then 1 else 0
  {
    var a, b := row[..i], row[i + 1..];
    assert row == a + [row[i]] + b && row[i := s] == a + [s] + b;
    SumConcat(a, [row[i]]);
    SumConcat(a + [row[i]], b);
    SumConcat(a, [s]);
    SumConcat(a + [s], b);
  }

  lemma {:induction false} CountFits(row: seq<Slot>)
    ensures Count(row) <= |row|
  {
    if row != [] {
      CountFits(row[..|row| - 1]);
    }
  }

  /** The value `val` falls on slot `at`. */
  ghost predicate FallsOn(row: seq<Slot>, val: nat, at: nat) {
    at < |row| && Sum(row[..at]) <= val < Sum(row[..at]) + Weight(row[at])
  }

  lemma SumPrefix(row: seq<Slot>, i: nat, j: nat)
    requires i < j <= |row|
    ensures Sum(row[..i]) + Weight(row[i]) <= Sum(row[..j])
  {
    assert row[..j] == row[..i] + [row[i]] + row[i + 1..j];
    SumConcat(row[..i], [row[i]]);
    SumConcat(row[..i] + [row[i]], row[i + 1..j]);
  }

  /** No value falls on two slots. */
  lemma FallsOnce(row: seq<Slot>, val: nat, i: nat, j: nat)
    requires FallsOn(row, val, i) && FallsOn(row, val, j)
    ensures i == j
  {
    if i < j {
      SumPrefix(row, i, j);
    } else if j < i {
      SumPrefix(row, j, i);
    }
  }

  /** Every value below the total falls on a slot. */
  lemma {:induction false} FallsSomewhere(row: seq<Slot>, val: nat) returns (at: nat)
    requires val < Sum(row)
    ensures FallsOn(row, val, at)
  {
    var rest := row[..|row| - 1];
    if val < Sum(rest) {
      at := FallsSomewhere(rest, val);
      assert rest[..at] == row[..at];
    } else {
      at := |row| - 1;
    }
  }

  // ---------- rows made of parts ----------

  function Concat(parts: seq<seq<Slot>>): seq<Slot> {
    if parts == [] then [] else Concat(parts[..|parts| - 1]) + parts[|parts| - 1]
  }

  ghost predicate Even(parts: seq<seq<Slot>>, width: nat) {
    forall b :: 0 <= b < |parts| ==> |parts[b]| == width
  }

  /** Where part `b` starts in a row of parts of one width. */
  function Start(width: nat, b: nat): nat {
    if b == 0 then 0 else Start(width, b - 1) + width
  }

  lemma {:induction false} StartIs(width: nat, b: nat)
    ensures Start(width, b) == width * b
  {
    if b > 0 {
      StartIs(width, b - 1);
      assert width * b == width * (b - 1) + width;
    }
  }

  lemma {:induction false} ConcatSize(parts: seq<seq<Slot>>, width: nat)
    requires Even(parts, width)
    ensures |Concat(parts)| == Start(width, |parts|)
  {
    if parts != [] {
      var n := |parts|;
      ConcatSize(parts[..n - 1], width);
    }
  }

  lemma {:induction false} ConcatSplit(parts: seq<seq<Slot>>, b: nat)
    requires b < |parts|
    ensures Concat(parts) == Concat(parts[..b]) + parts[b] + Concat(parts[b + 1..])
  {
    var n := |parts|;
    var init := parts[..n - 1];
    if b == n - 1 {
      assert parts[b + 1..] == [];
      assert Concat(parts) == Concat(parts[..b]) + parts[b] + [];
    } else {
      ConcatSplit(init, b);
      assert init[..b] == parts[..b] && init[b + 1..] == parts[b + 1..][..n - b - 2];
      assert Concat(parts[b + 1..]) == Concat(init[b + 1..]) + parts[n - 1];
    }
  }

  /** Slot `i` of part `b` is slot `Start(width, b) + i` of the row. */
  lemma ConcatAt(parts: seq<seq<Slot>>, width: nat, b: nat, i: nat)
    requires Even(parts, width) && b < |parts| && i < width
    ensures Start(width, b) + i < |Concat(parts)| && Concat(parts)[Start(width, b) + i] == parts[b][i]
    ensures Concat(parts)[..Start(width, b) + i] == Concat(parts[..b]) + parts[b][..i]
  {
    ConcatSplit(parts, b);
    ConcatSize(parts[..b], width);
  }

  lemma ConcatUpdate(parts: seq<seq<Slot>>, width: nat, b: nat, i: nat, s: Slot)
    requires Even(parts, width) && b < |parts| && i < width
    ensures Start(width, b) + i < |Concat(parts)|
    ensures Concat(parts[b := parts[b][i := s]]) == Concat(parts)[Start(width, b) + i := s]
  {
    var parts' := parts[b := parts[b][i := s]];
    ConcatSplit(parts, b);
    ConcatSplit(parts', b);
    ConcatSize(parts[..b], width);
    assert parts'[..b] == parts[..b] && parts'[b + 1..] == parts[b + 1..];
    UpdateMiddle(Concat(parts[..b]), parts[b], Concat(parts[b + 1..]), i, s);
  }

  lemma UpdateMiddle(a: seq<Slot>, p: seq<Slot>, c: seq<Slot>, i: nat, s: Slot)
    requires i < |p|
    ensures (a + p + c)[|a| + i := s] == a + p[i := s] + c
  {
  }

  /** If every part is full, so is the row. */
  lemma {:induction false} ConcatFull(parts: seq<seq<Slot>>, width: nat)
    requires Even(parts, width) && forall b :: 0 <= b < |parts| ==> Count(parts[b]) == width
    ensures Count(Concat(parts)) == Start(width, |parts|)
  {
    if parts != [] {
      var n := |parts|;
      var init, last := parts[..n - 1], parts[n - 1];
      assert Count(last) == width;
      ConcatFull(init, width);
      SumConcat(Concat(init), last);
    }
  }

  function Total(weights: seq<nat>): nat {
    if weights == [] then 0 else Total(weights[..|weights| - 1]) + weights[|weights| - 1]
  }

  lemma {:induction false} ConcatSum(parts: seq<seq<Slot>>, weights: seq<nat>)
    requires |parts| == |weights| && forall b :: 0 <= b < |parts| ==> Sum(parts[b]) == weights[b]
    ensures Sum(Concat(parts)) == Total(weights)
  {
    if parts != [] {
      var n := |parts|;
      ConcatSum(parts[..n - 1], weights[..n - 1]);
      SumConcat(Concat(parts[..n - 1]), parts[n - 1]);
    }
  }

  lemma {:induction false} ConcatEmpties(n: nat, width: nat)
    ensures Concat(seq(n, b => Empties(width))) == Empties(Start(width, n))
  {
    if n > 0 {
      var parts := seq(n, b => Empties(width));
      assert parts[..n - 1] == seq(n - 1, b => Empties(width));
      ConcatEmpties(n - 1, width);
    }
  }
}
