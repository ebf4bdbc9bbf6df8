/**
  The weighted random set of les/randselect.go: an 8-ary tree of partial sums,
  updated in place, that refines one plain row of slots.
 */
module WeightedRandomSelects {
  import opened Prelude
  import opened WeightedSlots

  const WRS_BRANCHES: nat := 8

  function Pow8(n: nat): (p: nat)
    ensures p >= 1
  {
    if n == 0 then 1 else 8 * Pow8(n - 1)
  }

  datatype Entry = Nil | Leaf(item: Item) | Sub(node: WrsNode)

  /** Every part has the width of a branch and its stored weight. */
  ghost predicate Weighed(parts: seq<seq<Slot>>, weights: seq<nat>, width: nat) {
    && |parts| == |weights| == WRS_BRANCHES
    && Even(parts, width)
    && forall b :: 0 <= b < WRS_BRANCHES ==> Sum(parts[b]) == weights[b]
  }

  /** An entry of a leaf node, or a missing one, with the slots it stands for. */
  ghost predicate Stands(entry: Entry, level: nat, part: seq<Slot>, weight: nat) {
    match entry
    case Nil => part == Empties(Pow8(level))
    case Leaf(x) => level == 0 && weight > 0 && part == [Held(x, weight)]
    case Sub(_) => level > 0
  }

  ghost predicate Row(items: seq<Entry>, weights: seq<nat>, parts: seq<seq<Slot>>, flat: seq<Slot>, level: nat,
                      sumWeight: int, itemCnt: int) {
    && |items| == WRS_BRANCHES && Weighed(parts, weights, Pow8(level))
    && flat == Concat(parts) && |flat| == Pow8(level + 1) && sumWeight == Sum(flat) && itemCnt == Count(flat)
    && forall b :: 0 <= b < WRS_BRANCHES ==> Stands(items[b], level, parts[b], weights[b])
  }

  /** A held slot with a new weight; at weight zero the item is gone. */
  function Reweighed(s: Slot, weight: nat): Slot
    requires s.Held?
  {
    if weight == 0 then Empty else Held(s.item, weight)
  }

  class WrsNode {
    const level: nat
    const maxItems: nat
    var items: seq<Entry>
    var weights: seq<nat>
    var sumWeight: nat
    var itemCnt: nat

    ghost var parts: seq<seq<Slot>>
    ghost var flat: seq<Slot>
    ghost var Repr: set<WrsNode>

    /** The node's own fields fit the row it stands for. */
    ghost predicate Local()
      reads this
    {
      this in Repr && maxItems == Pow8(level + 1) && Row(items, weights, parts, flat, level, sumWeight, itemCnt)
    }

    ghost function Kid(b: nat): set<WrsNode>
      requires b < |items|
      reads this
    {
      if items[b].Sub? then {items[b].node} else {}
    }

    /** Two children share no node. */
    ghost predicate ApartAt(b: nat, c: nat)
      requires b < |items| && c < |items|
      reads this, Kid(b), Kid(c)
    {
      items[b].Sub? && items[c].Sub? ==> items[b].node.Repr !! items[c].node.Repr
    }

    ghost predicate Apart()
      reads this, Repr
    {
      && (forall b: nat :: b < |items| ==> Kid(b) <= Repr)
      && forall b: nat, c: nat :: b < c < |items| ==> ApartAt(b, c)
    }

    /** A child stands for its part of the row. */
    ghost predicate KidOk(b: nat)
      requires b < |items| == |parts|
      reads this, Repr
      decreases level, 0
    {
      items[b].Sub? ==>
        var k := items[b].node;
        k in Repr && k.Repr <= Repr - {this} && k.level + 1 == level && parts[b] == k.flat && k.Valid()
    }

    ghost predicate Valid()
      reads this, Repr
      ensures Valid() ==> this in Repr
      decreases level, 1
    {
      Local() && Apart() && forall b: nat :: b < |items| ==> KidOk(b)
    }

    lemma KidFacts(b: nat)
      requires Valid() && b < WRS_BRANCHES && items[b].Sub?
      ensures KidOk(b) && items[b].node.Local()
    {
      assert KidOk(b);
      assert items[b].node.Valid();
    }

    /** An empty node. */
    constructor (level: nat)
      ensures Valid() && fresh(Repr) && this.level == level && flat == Empties(Pow8(level + 1))
    {
      this.level, maxItems := level, Pow8(level + 1);
      items, weights := seq(WRS_BRANCHES, b => Nil), seq(WRS_BRANCHES, b => 0);
      sumWeight, itemCnt := 0, 0;
      parts := seq(WRS_BRANCHES, b => Empties(Pow8(level)));
      flat := Empties(Pow8(level + 1));
      Repr := {this};
      new;
      EightParts(level);
      ConcatEmpties(WRS_BRANCHES, Pow8(level));
      EmptiesWeighNothing(Pow8(level));
      EmptiesWeighNothing(Pow8(level + 1));
    }

    /** A new root above a full one. */
    constructor Above(root: WrsNode)
      requires root.Valid()
      ensures Valid() && fresh(Repr - root.Repr) && level == root.level + 1
      ensures root.flat <= flat && sumWeight == root.sumWeight && itemCnt == root.itemCnt
      ensures forall i :: |root.flat| <= i < |flat| ==> flat[i] == Empty
    {
      level, maxItems := root.level + 1, root.maxItems * WRS_BRANCHES;
      var sum := root.sumWeight;
      ghost var row, width := root.flat, Pow8(root.level + 1);
      items := seq(WRS_BRANCHES, b => if b == 0 then Sub(root) else Nil);
      weights := seq(WRS_BRANCHES, b => if b == 0 then sum else 0);
      sumWeight, itemCnt := sum, root.itemCnt;
      parts := seq(WRS_BRANCHES, b => if b == 0 then row else Empties(width));
      flat := row + Empties(Start(width, 7));
      Repr := {this} + root.Repr;
      new;
      EightParts(root.level + 1);
      FirstOnly(row, width, parts);
    }

    /** The item goes into an empty slot; there is one while the node is not full. */
    method Insert(item: Item, weight: nat) returns (at: nat)
      requires Valid() && weight > 0 && itemCnt < maxItems
      modifies Repr
      ensures Valid() && fresh(Repr - old(Repr))
      ensures at < |old(flat)| && old(flat)[at] == Empty && flat == old(flat)[at := Held(item, weight)]
      decreases level, 1
    {
      var branch := FreeBranch();
      if level == 0 {
        InsertLeaf(branch, item, weight);
        at := branch;
      } else {
        if items[branch] == Nil {
          Sprout(branch);
        }
        at := InsertBelow(branch, item, weight);
      }
    }

    method InsertLeaf(branch: nat, item: Item, weight: nat)
      requires Valid() && weight > 0 && level == 0 && branch < WRS_BRANCHES && items[branch] == Nil
      modifies this
      ensures Valid() && Repr == old(Repr)
      ensures branch < |old(flat)| && old(flat)[branch] == Empty && flat == old(flat)[branch := Held(item, weight)]
    {
      LeafRow(items, weights, parts, flat, sumWeight, itemCnt, branch, item, weight);
      StoreLeaf(branch, Leaf(item), weights[branch] + weight, sumWeight + weight, itemCnt + 1, Held(item, weight));
    }

    /** Stores an entry of a leaf node with the new sums. */
    method StoreLeaf(branch: nat, entry: Entry, weight: nat, sum: nat, cnt: nat, ghost s: Slot)
      requires this in Repr && level == 0 && maxItems == Pow8(1) && |items| == |parts| == |weights| == WRS_BRANCHES
      requires branch < WRS_BRANCHES
      requires var parts' := parts[branch := [s]];
        Row(items[branch := entry], weights[branch := weight], parts', Concat(parts'), 0, sum, cnt)
      modifies this
      ensures Valid() && Repr == old(Repr) && flat == Concat(old(parts)[branch := [s]])
    {
      items, weights, sumWeight, itemCnt := items[branch := entry], weights[branch := weight], sum, cnt;
      parts := parts[branch := [s]];
      flat := Concat(parts);
      forall b: nat | b < |items| ensures KidOk(b) && !items[b].Sub? {
        assert Stands(items[b], level, parts[b], weights[b]);
      }
    }

    /** Puts an empty node where there was none. */
    method Sprout(branch: nat)
      requires Valid() && level > 0 && branch < WRS_BRANCHES && items[branch] == Nil
      modifies this
      ensures Valid() && fresh(Repr - old(Repr)) && flat == old(flat)
      ensures items[branch].Sub? && items[branch].node.itemCnt < items[branch].node.maxItems
    {
      assert Stands(items[branch], level, parts[branch], weights[branch]);
      EmptiesWeighNothing(Pow8(level));
      var subNode := new WrsNode(level - 1);
      items := items[branch := Sub(subNode)];
      Repr := Repr + subNode.Repr;
      forall b: nat | b < |items| ensures KidOk(b) && Kid(b) <= Repr { assert old(KidOk(b)); }
      forall b: nat, c: nat | b < c < |items| ensures ApartAt(b, c) {
        assert old(KidOk(b)) && old(KidOk(c)) && old(ApartAt(b, c));
      }
      forall b | 0 <= b < WRS_BRANCHES ensures Stands(items[b], level, parts[b], weights[b]) {
        assert Stands(old(items)[b], level, parts[b], weights[b]);
      }
    }

    method InsertBelow(branch: nat, item: Item, weight: nat) returns (at: nat)
      requires Valid() && weight > 0 && branch < WRS_BRANCHES
      requires items[branch].Sub? && items[branch].node.itemCnt < items[branch].node.maxItems
      modifies Repr
      ensures Valid() && fresh(Repr - old(Repr))
      ensures at < |old(flat)| && old(flat)[at] == Empty && flat == old(flat)[at := Held(item, weight)]
      decreases level, 0
    {
      var subNode := items[branch].node;
      KidFacts(branch);
      Sides(branch);
      label Before:
      var sub := subNode.Insert(item, weight);
      forall b: nat | b < WRS_BRANCHES ensures SideOk(b, branch) { assert old@Before(SideOk(b, branch)); }
      forall b: nat, c: nat | b < c < WRS_BRANCHES && b != branch && c != branch ensures ApartAt(b, c) {
        assert old@Before(SideOk(b, branch) && SideOk(c, branch) && ApartAt(b, c));
      }
      StartIs(subNode.maxItems, branch);
      at := subNode.maxItems * branch + sub;
      SubRow(items, weights, parts, flat, level, sumWeight, itemCnt, branch, sub, Held(item, weight));
      Update(branch, weights[branch] + weight, sumWeight + weight, itemCnt + 1);
    }

    /** The children other than the one at `branch` stand for their parts and
        share no node with it. */
    ghost predicate SideOk(b: nat, branch: nat)
      requires b < |items| == |parts| && branch < |items|
      reads this, Repr, Kid(branch)
    {
      items[b].Sub? && b != branch ==>
        && items[b].node in Repr && items[b].node.Repr <= Repr - {this} && items[b].node.level + 1 == level
        && parts[b] == items[b].node.flat && items[b].node.Valid() && ApartAt(b, branch)
    }

    lemma Sides(branch: nat)
      requires Valid() && branch < WRS_BRANCHES
      ensures forall b: nat :: b < WRS_BRANCHES ==> SideOk(b, branch)
    {
      forall b: nat | b < WRS_BRANCHES ensures SideOk(b, branch) {
        if b != branch && items[b].Sub? {
          KidFacts(b);
          assert ApartAt(if b < branch then b else branch, if b < branch then branch else b);
        }
      }
    }

    /** Stores new sums after the child at `branch` has changed. */
    method Update(branch: nat, weight: nat, sum: nat, cnt: nat)
      requires this in Repr && maxItems == Pow8(level + 1) && |items| == |parts| == |weights| == WRS_BRANCHES
      requires branch < WRS_BRANCHES && items[branch].Sub?
      requires var k := items[branch].node; k in k.Repr && this !in k.Repr && k.level + 1 == level && k.Valid()
      requires forall b: nat :: b < |items| ==> SideOk(b, branch)
      requires forall b: nat, c: nat :: b < c < |items| && b != branch && c != branch ==> ApartAt(b, c)
      requires var parts' := parts[branch := items[branch].node.flat];
        Row(items, weights[branch := weight], parts', Concat(parts'), level, sum, cnt)
      modifies this
      ensures Valid() && Repr == old(Repr) + old(items[branch].node.Repr)
      ensures flat == Concat(old(parts)[branch := old(items[branch].node.flat)])
    {
      weights, sumWeight, itemCnt := weights[branch := weight], sum, cnt;
      Repr := Repr + items[branch].node.Repr;
      parts := parts[branch := items[branch].node.flat];
      flat := Concat(parts);
      forall b: nat | b < |items| ensures KidOk(b) && Kid(b) <= Repr { assert old(SideOk(b, branch)); }
      forall b: nat, c: nat | b < c < |items| ensures ApartAt(b, c) {
        assert old(SideOk(b, branch)) && old(SideOk(c, branch));
        assert b != branch && c != branch ==> old(ApartAt(b, c));
      }
    }

    /** Changes the weight of a held item; weight zero empties its slot. */
    method SetWeight(at: nat, weight: nat) returns (diff: int)
      requires Valid() && at < |flat| && flat[at].Held?
      modifies Repr
      ensures Valid() && Repr == old(Repr)
      ensures flat == old(flat)[at := Reweighed(old(flat)[at], weight)]
      ensures diff == weight - old(flat)[at].weight
      decreases level, 1
    {
      if level == 0 {
        diff := SetLeaf(at, weight);
      } else {
        var branchItems := maxItems / WRS_BRANCHES;
        var branch := at / branchItems;
        EighthOf(level);
        BranchOf(at, branchItems);
        StartIs(branchItems, branch);
        diff := SetBelow(branch, at - branch * branchItems, weight);
      }
    }

    method SetLeaf(at: nat, weight: nat) returns (diff: int)
      requires Valid() && level == 0 && at < |flat| && flat[at].Held?
      modifies this
      ensures Valid() && Repr == old(Repr)
      ensures flat == old(flat)[at := Reweighed(old(flat)[at], weight)]
      ensures diff == weight - old(flat)[at].weight
    {
      ghost var s := Reweighed(flat[at], weight);
      HeldLeaf(items, weights, parts, flat, sumWeight, itemCnt, at, s);
      diff := weight - weights[at];
      StoreLeaf(at, if weight == 0 then Nil else items[at], weight, sumWeight + diff,
                if weight == 0 then itemCnt - 1 else itemCnt, s);
    }

    method SetBelow(branch: nat, i: nat, weight: nat) returns (diff: int)
      requires Valid() && level > 0 && branch < WRS_BRANCHES && i < Pow8(level)
      requires Start(Pow8(level), branch) + i < |flat| && flat[Start(Pow8(level), branch) + i].Held?
      modifies Repr
      ensures Valid() && Repr == old(Repr)
      ensures var at := Start(Pow8(level), branch) + i;
        flat == old(flat)[at := Reweighed(old(flat)[at], weight)] && diff == weight - old(flat)[at].weight
      decreases level, 0
    {
      HeldBelow(branch, i);
      var subNode := items[branch].node;
      KidFacts(branch);
      Sides(branch);
      label Before:
      diff := subNode.SetWeight(i, weight);
      forall b: nat | b < WRS_BRANCHES ensures SideOk(b, branch) { assert old@Before(SideOk(b, branch)); }
      forall b: nat, c: nat | b < c < WRS_BRANCHES && b != branch && c != branch ensures ApartAt(b, c) {
        assert old@Before(SideOk(b, branch) && SideOk(c, branch) && ApartAt(b, c));
      }
      SubRow(items, weights, parts, flat, level, sumWeight, itemCnt, branch, i, Reweighed(parts[branch][i], weight));
      Update(branch, weights[branch] + diff, sumWeight + diff, if weight == 0 then itemCnt - 1 else itemCnt);
    }

    /** A held slot of an inner node belongs to a child. */
    lemma HeldBelow(b: nat, i: nat)
      requires Valid() && level > 0 && b < WRS_BRANCHES && i < Pow8(level) && Start(Pow8(level), b) + i < |flat|
      requires flat[Start(Pow8(level), b) + i].Held?
      ensures items[b].Sub? && parts[b][i] == flat[Start(Pow8(level), b) + i]
    {
      ConcatAt(parts, Pow8(level), b, i);
      assert Stands(items[b], level, parts[b], weights[b]);
    }

    /** The slot on which `val` falls, with its item and weight. */
    method Choose(val: nat) returns (item: Item, weight: nat, ghost at: nat)
      requires Valid() && val < sumWeight
      ensures FallsOn(flat, val, at) && flat[at] == Held(item, weight)
      ensures exists i: nat :: FallsOn(flat, val, i) && flat[i] == Held(item, weight)
      decreases level
    {
      var i, rest := ChooseBranch(val);
      NonemptyBranch(i);
      if level == 0 {
        item, weight, at := items[i].item, weights[i], 0;
        assert parts[i][..0] == [] && parts[i][0] == Held(item, weight);
      } else {
        KidFacts(i);
        item, weight, at := items[i].node.Choose(rest);
      }
      Lands(parts, weights, Pow8(level), i, at, rest);
      at := Start(Pow8(level), i) + at;
    }

    /** The branch on which `val` falls, and what is left of it there. */
    method ChooseBranch(val: nat) returns (i: nat, rest: nat)
      requires Local() && val < sumWeight
      ensures i < WRS_BRANCHES && rest < weights[i] && rest + Total(weights[..i]) == val
    {
      ConcatSum(parts, weights);
      i, rest := 0, val;
      assert weights[..0] == [] && weights[..WRS_BRANCHES] == weights;
      while rest >= weights[i]
        invariant i < WRS_BRANCHES && rest + Total(weights[..i]) == val
        decreases WRS_BRANCHES - i
      {
        rest := rest - weights[i];
        assert weights[..i + 1][..i] == weights[..i];
        i := i + 1;
        if i == WRS_BRANCHES {
          assert false;
        }
      }
    }

    lemma NonemptyBranch(b: nat)
      requires Valid() && b < WRS_BRANCHES && weights[b] > 0
      ensures items[b] != Nil && Stands(items[b], level, parts[b], weights[b])
    {
      assert Stands(items[b], level, parts[b], weights[b]);
      EmptiesWeighNothing(Pow8(level));
    }

    /** The first branch with room. */
    method FreeBranch() returns (branch: nat)
      requires Valid() && itemCnt < maxItems
      ensures branch < WRS_BRANCHES
      ensures items[branch] == Nil || (items[branch].Sub? && items[branch].node.itemCnt < items[branch].node.maxItems)
    {
      branch := 0;
      while items[branch] != Nil && (level == 0 || items[branch].node.itemCnt == items[branch].node.maxItems)
        invariant branch < WRS_BRANCHES
        invariant forall b :: 0 <= b < branch ==> Count(parts[b]) == Pow8(level)
        decreases WRS_BRANCHES - branch
      {
        assert Stands(items[branch], level, parts[branch], weights[branch]);
        if items[branch].Sub? {
          KidFacts(branch);
        }
        branch := branch + 1;
        if branch == WRS_BRANCHES {
          EightParts(level);
          ConcatFull(parts, Pow8(level));
          assert false;
        }
      }
      assert Stands(items[branch], level, parts[branch], weights[branch]);
      if items[branch].Sub? {
        KidFacts(branch);
        CountFits(items[branch].node.flat);
      }
    }
  }

  lemma LeafRow(items: seq<Entry>, weights: seq<nat>, parts: seq<seq<Slot>>, flat: seq<Slot>,
                sumWeight: nat, itemCnt: nat, b: nat, item: Item, weight: nat)
    requires Row(items, weights, parts, flat, 0, sumWeight, itemCnt) && b < WRS_BRANCHES && items[b] == Nil
    requires weight > 0
    ensures b < |flat| && flat[b] == Empty && weights[b] == 0
    ensures var parts' := parts[b := [Held(item, weight)]]; var weights' := weights[b := weight];
      Concat(parts') == flat[b := Held(item, weight)]
      && Row(items[b := Leaf(item)], weights', parts', Concat(parts'), 0, sumWeight + weight, itemCnt + 1)
  {
    assert Stands(items[b], 0, parts[b], weights[b]);
    EmptiesWeighNothing(1);
    StartIs(1, b);
    PartChanges(parts, weights, 1, b, 0, Held(item, weight));
    assert parts[b][0 := Held(item, weight)] == [Held(item, weight)];
  }

  lemma HeldLeaf(items: seq<Entry>, weights: seq<nat>, parts: seq<seq<Slot>>, flat: seq<Slot>,
                 sumWeight: nat, itemCnt: nat, b: nat, s: Slot)
    requires Row(items, weights, parts, flat, 0, sumWeight, itemCnt) && b < |flat| && flat[b].Held?
    requires s.Held? ==> s.item == flat[b].item && s.weight > 0
    ensures b < WRS_BRANCHES && weights[b] == flat[b].weight
    ensures var parts' := parts[b := [s]]; var weights' := weights[b := Weight(s)];
      Concat(parts') == flat[b := s]
      && Row(if s == Empty then items[b := Nil] else items, weights', parts', Concat(parts'), 0,
             sumWeight + Weight(s) - weights[b], if s == Empty then itemCnt - 1 else itemCnt)
  {
    assert Pow8(1) == 8;
    StartIs(1, b);
    ConcatAt(parts, 1, b, 0);
    assert Stands(items[b], 0, parts[b], weights[b]);
    PartChanges(parts, weights, 1, b, 0, s);
    assert parts[b][0 := s] == [s];
    assert Empties(1) == [Empty];
  }

  lemma Grows(width: nat, m: nat, n: nat)
    ensures m <= n ==> width * m <= width * n
  {
  }

  lemma EighthOf(level: nat)
    ensures Pow8(level + 1) / 8 == Pow8(level)
  {
  }

  lemma EightParts(level: nat)
    ensures Start(Pow8(level), WRS_BRANCHES) == Pow8(level + 1)
  {
    StartIs(Pow8(level), WRS_BRANCHES);
  }

  lemma BranchOf(at: nat, width: nat)
    requires width > 0 && at < 8 * width
    ensures at / width < 8 && width * (at / width) <= at && at - width * (at / width) < width
  {
    var q := at / width;
    assert at == width * q + at % width;
    Grows(width, 8, q);
  }

  /** One slot of a child's part changes. */
  lemma SubRow(items: seq<Entry>, weights: seq<nat>, parts: seq<seq<Slot>>, flat: seq<Slot>, level: nat,
               sumWeight: int, itemCnt: int, b: nat, i: nat, s: Slot)
    requires Row(items, weights, parts, flat, level, sumWeight, itemCnt) && b < WRS_BRANCHES && items[b].Sub?
    requires i < Pow8(level)
    ensures var at := Start(Pow8(level), b) + i; var part := parts[b][i := s]; var parts' := parts[b := part];
      at < |flat| && flat[at] == parts[b][i] && Concat(parts') == flat[at := s]
      && Sum(part) == weights[b] - Weight(flat[at]) + Weight(s)
      && Row(items, weights[b := Sum(part)], parts', Concat(parts'), level,
             sumWeight - Weight(flat[at]) + Weight(s),
             itemCnt - (if flat[at].Held? then 1 else 0) + if s.Held? then 1 else 0)
  {
    PartChanges(parts, weights, Pow8(level), b, i, s);
    assert Stands(items[b], level, parts[b], weights[b]);
  }

  /** One slot of one part changes. */
  lemma PartChanges(parts: seq<seq<Slot>>, weights: seq<nat>, width: nat, b: nat, i: nat, s: Slot)
    requires Weighed(parts, weights, width) && b < WRS_BRANCHES && i < width
    ensures var part := parts[b][i := s];
      && Sum(part) == weights[b] - Weight(parts[b][i]) + Weight(s)
      && Weighed(parts[b := part], weights[b := Sum(part)], width)
    ensures var at := Start(width, b) + i; var row := Concat(parts);
      at < |row| && row[at] == parts[b][i] && Concat(parts[b := parts[b][i := s]]) == row[at := s]
      && Sum(row[at := s]) == Sum(row) - Weight(row[at]) + Weight(s)
      && Count(row[at := s]) == Count(row) - (if row[at].Held? then 1 else 0) + if s.Held? then 1 else 0
  {
    SumUpdate(parts[b], i, s);
    ConcatAt(parts, width, b, i);
    ConcatUpdate(parts, width, b, i, s);
    SumUpdate(Concat(parts), Start(width, b) + i, s);
  }

  lemma FirstOnly(row: seq<Slot>, width: nat, parts: seq<seq<Slot>>)
    requires |row| == width && parts == seq(WRS_BRANCHES, b => if b == 0 then row else Empties(width))
    ensures Concat(parts) == row + Empties(Start(width, 7))
    ensures Sum(Concat(parts)) == Sum(row) && Count(Concat(parts)) == Count(row) && Sum(Empties(width)) == 0
  {
    ConcatSplit(parts, 0);
    assert parts[1..] == seq(7, b => Empties(width));
    ConcatEmpties(7, width);
    assert Concat(parts[..0]) == [];
    SumConcat(row, Empties(Start(width, 7)));
    EmptiesWeighNothing(Start(width, 7));
    EmptiesWeighNothing(width);
  }

  /** A value that falls on a slot of a part falls on that slot of the row. */
  lemma Lands(parts: seq<seq<Slot>>, weights: seq<nat>, width: nat, b: nat, i: nat, val: nat)
    requires Weighed(parts, weights, width) && b < WRS_BRANCHES && FallsOn(parts[b], val, i)
    ensures FallsOn(Concat(parts), val + Total(weights[..b]), Start(width, b) + i)
    ensures Concat(parts)[Start(width, b) + i] == parts[b][i]
  {
    ConcatAt(parts, width, b, i);
    ConcatSum(parts[..b], weights[..b]);
    SumConcat(Concat(parts[..b]), parts[b][..i]);
  }

  // ---------- the set of items ----------

  ghost predicate ListedAt(row: seq<Slot>, idx: map<Item, nat>, x: Item)
    requires x in idx
  {
    idx[x] < |row| && row[idx[x]].Held? && row[idx[x]].item == x && row[idx[x]].weight > 0
  }

  ghost predicate SlotOk(row: seq<Slot>, idx: map<Item, nat>, i: nat)
    requires i < |row|
  {
    row[i].Held? ==> row[i].item in idx && idx[row[i].item] == i
  }

  /** The index finds every held item, and nothing else. */
  ghost predicate Listed(row: seq<Slot>, idx: map<Item, nat>) {
    (forall x :: x in idx ==> ListedAt(row, idx, x)) && forall i: nat :: i < |row| ==> SlotOk(row, idx, i)
  }

  /** The plain map from items to weights. */
  ghost function WeightsOf(row: seq<Slot>, idx: map<Item, nat>): map<Item, nat>
    requires Listed(row, idx)
  {
    map x | x in idx :: (assert ListedAt(row, idx, x); row[idx[x]].weight)
  }

  function SetIn(m: map<Item, nat>, x: Item, w: nat): map<Item, nat> {
    if w == 0 then m - {x} else m[x := w]
  }

  function WeightIn(m: map<Item, nat>, x: Item): nat {
    if x in m then m[x] else 0
  }

  lemma Reweigh(row: seq<Slot>, idx: map<Item, nat>, x: Item, w: nat)
    requires Listed(row, idx) && x in idx
    ensures idx[x] < |row| && row[idx[x]].Held?
    ensures var row' := row[idx[x] := Reweighed(row[idx[x]], w)]; var idx' := if w == 0 then idx - {x} else idx;
      Listed(row', idx') && WeightsOf(row', idx') == SetIn(WeightsOf(row, idx), x, w)
      && Sum(row') == Sum(row) - WeightIn(WeightsOf(row, idx), x) + w
  {
    assert ListedAt(row, idx, x);
    var row' := row[idx[x] := Reweighed(row[idx[x]], w)];
    var idx' := if w == 0 then idx - {x} else idx;
    SumUpdate(row, idx[x], Reweighed(row[idx[x]], w));
    forall y | y in idx' ensures ListedAt(row', idx', y) { assert ListedAt(row, idx, y); }
    forall i: nat | i < |row'| ensures SlotOk(row', idx', i) { assert SlotOk(row, idx, i); }
  }

  lemma AddListed(row: seq<Slot>, idx: map<Item, nat>, x: Item, w: nat, at: nat)
    requires Listed(row, idx) && x !in idx && w > 0 && at < |row| && row[at] == Empty
    ensures var row' := row[at := Held(x, w)]; var idx' := idx[x := at];
      Listed(row', idx') && WeightsOf(row', idx') == SetIn(WeightsOf(row, idx), x, w) && Sum(row') == Sum(row) + w
  {
    var row', idx' := row[at := Held(x, w)], idx[x := at];
    SumUpdate(row, at, Held(x, w));
    forall y | y in idx' ensures ListedAt(row', idx', y) { if y != x { assert ListedAt(row, idx, y); } }
    forall i: nat | i < |row'| ensures SlotOk(row', idx', i) { assert SlotOk(row, idx, i); }
  }

  lemma ExtendListed(row: seq<Slot>, row': seq<Slot>, idx: map<Item, nat>)
    requires Listed(row, idx) && row <= row' && forall i :: |row| <= i < |row'| ==> row'[i] == Empty
    ensures Listed(row', idx) && WeightsOf(row', idx) == WeightsOf(row, idx)
  {
    forall y | y in idx ensures ListedAt(row', idx, y) { assert ListedAt(row, idx, y); }
    forall i: nat | i < |row'| ensures SlotOk(row', idx, i) { if i < |row| { assert SlotOk(row, idx, i); } }
  }

  /** Weights after some were read again; those now zero are dropped. */
  function Reread(m: map<Item, nat>, seen: map<Item, nat>): map<Item, nat> {
    map x | x in m && (x in seen ==> seen[x] > 0) :: if x in seen then seen[x] else m[x]
  }

  lemma RereadOne(m: map<Item, nat>, seen: map<Item, nat>, x: Item, w: nat)
    requires x in m
    ensures Reread(m, seen[x := w]) == SetIn(Reread(m, seen), x, w)
  {
  }

  lemma NothingListed(row: seq<Slot>, idx: map<Item, nat>)
    requires Listed(row, idx) && Sum(row) == 0
    ensures idx == map[]
  {
    if idx != map[] {
      var x :| x in idx;
      IntervalFits(row, idx, x);
    }
  }

  /** An item is found at exactly the values of one interval, as long as its weight. */
  lemma Proportional(row: seq<Slot>, idx: map<Item, nat>, x: Item, val: nat, at: nat)
    requires Listed(row, idx) && x in idx && FallsOn(row, val, at)
    ensures idx[x] < |row| && row[at].Held?
    ensures row[at].item == x <==> Sum(row[..idx[x]]) <= val < Sum(row[..idx[x]]) + WeightsOf(row, idx)[x]
  {
    assert ListedAt(row, idx, x) && SlotOk(row, idx, at);
    if FallsOn(row, val, idx[x]) {
      FallsOnce(row, val, at, idx[x]);
    }
  }

  /** The interval of an item lies below the total weight. */
  lemma IntervalFits(row: seq<Slot>, idx: map<Item, nat>, x: Item)
    requires Listed(row, idx) && x in idx
    ensures idx[x] < |row| && Sum(row[..idx[x]]) + WeightsOf(row, idx)[x] <= Sum(row)
    ensures 0 < WeightsOf(row, idx)[x]
  {
    assert ListedAt(row, idx, x);
    SumPrefix(row, idx[x], |row|);
    assert row[..|row|] == row;
  }

  class WeightedRandomSelect {
    var root: WrsNode
    var idx: map<Item, nat>

    ghost predicate Valid()
      reads this, root, root.Repr
    {
      root.Valid() && Listed(root.flat, idx)
    }

    ghost function Weights(): map<Item, nat>
      requires Valid()
      reads this, root, root.Repr
    {
      WeightsOf(root.flat, idx)
    }

    constructor ()
      ensures Valid() && fresh(root) && fresh(root.Repr) && Weights() == map[] && root.sumWeight == 0
    {
      root := new WrsNode(0);
      idx := map[];
      new;
      EmptiesWeighNothing(Pow8(1));
    }

    /** Sets the weight of an item, adding or removing it. */
    method SetWeight(item: Item, weight: nat)
      requires Valid()
      modifies this, root.Repr
      ensures Valid() && fresh(root.Repr - old(root.Repr))
      ensures Weights() == SetIn(old(Weights()), item, weight)
      ensures root.sumWeight == old(root.sumWeight) - WeightIn(old(Weights()), item) + weight
    {
      if item in idx {
        Reweigh(root.flat, idx, item, weight);
        var diff := root.SetWeight(idx[item], weight);
        if weight == 0 {
          idx := idx - {item};
        }
      } else if weight != 0 {
        CountFits(root.flat);
        if root.itemCnt == root.maxItems {
          var newRoot := new WrsNode.Above(root);
          ExtendListed(root.flat, newRoot.flat, idx);
          root := newRoot;
        }
        Add(item, weight);
      } else {
        assert SetIn(Weights(), item, 0) == Weights();
      }
    }

    /** Draws an item by its stored weight, re-evaluates that weight and keeps
        drawing while lowered weights are rejected. `seen` records the weights
        last read. Every retry lowers the total, so the loop ends. */
    method Choose() returns (choice: Option<Item>, ghost seen: map<Item, nat>)
      requires Valid()
      modifies this, root.Repr
      ensures Valid() && fresh(root.Repr - old(root.Repr))
      ensures Weights() == Reread(old(Weights()), seen) && seen.Keys <= old(Weights()).Keys
      ensures choice.Some? ==> choice.value in seen && choice.value in Weights()
      ensures choice.None? <==> Weights() == map[]
    {
      seen := map[];
      ghost var before := Weights();
      assert Reread(before, seen) == before;
      while root.sumWeight != 0
        invariant Valid() && fresh(root.Repr - old(root.Repr))
        invariant Weights() == Reread(before, seen) && seen.Keys <= before.Keys
        decreases root.sumWeight
      {
        var item, weight, luck, accepted := Attempt();
        RereadOne(before, seen, item, weight);
        seen := seen[item := weight];
        if accepted {
          return Some(item), seen;
        }
      }
      NothingListed(root.flat, idx);
      return None, seen;
    }

    /** One draw: a lowered weight is accepted with some luck only. */
    method Attempt() returns (item: Item, weight: nat, luck: nat, accepted: bool)
      requires Valid() && root.sumWeight != 0
      modifies this, root.Repr
      ensures Valid() && fresh(root.Repr - old(root.Repr))
      ensures item in old(Weights()) && Weights() == SetIn(old(Weights()), item, weight)
      ensures var lastWeight := old(Weights())[item];
        luck < lastWeight && (accepted <==> weight >= lastWeight || luck < weight)
      ensures if accepted then weight > 0 else root.sumWeight < old(root.sumWeight)
    {
      var val: nat :| val < root.sumWeight;
      var lastWeight;
      item, lastWeight := Draw(val);
      weight :| weight >= 0;
      if weight != lastWeight {
        SetWeight(item, weight);
      } else {
        assert SetIn(Weights(), item, weight) == Weights();
      }
      luck :| luck < lastWeight;
      accepted := weight >= lastWeight || luck < weight;
    }

    /** The item on which `val` falls. */
    method Draw(val: nat) returns (item: Item, weight: nat)
      requires Valid() && val < root.sumWeight
      ensures item in Weights() && Weights()[item] == weight > 0
      ensures idx[item] < |root.flat| && FallsOn(root.flat, val, idx[item])
    {
      ghost var at;
      item, weight, at := root.Choose(val);
      assert SlotOk(root.flat, idx, at);
    }

    method Add(item: Item, weight: nat)
      requires Valid() && item !in idx && weight > 0 && root.itemCnt < root.maxItems
      modifies this, root.Repr
      ensures Valid() && root == old(root) && fresh(root.Repr - old(root.Repr))
      ensures Weights() == SetIn(old(Weights()), item, weight)
      ensures root.sumWeight == old(root.sumWeight) + weight
    {
      ghost var row := root.flat;
      var at := root.Insert(item, weight);
      AddListed(row, idx, item, weight, at);
      idx := idx[item := at];
    }
  }
}
