/**
  The pending-slot equaliser of the transaction pool (the middle part of
  promoteExecutables in core/tx_pool.go): when the pool holds more pending
  transactions than it has slots, the largest accounts are cut first.
 */
module SlotEqualiser {
  import opened Prelude
  import opened TxContents

  /** Executable transactions by account, each list in nonce order. */
  type Pending = map<Address, seq<Tx>>

  // ---------- totals ----------

  /** The number of transactions of the accounts listed in `order`. */
  function Total(order: seq<Address>, p: Pending): nat
    requires forall a :: a in order ==> a in p
  {
    if order == [] then 0 else |p[order[0]]| + Total(order[1..], p)
  }

  ghost predicate NoRepeats(s: seq<Address>) {
    forall i, j :: 0 <= i < j < |s| ==> s[i] != s[j]
  }

  /** `order` lists every account with pending transactions once. */
  ghost predicate Enumerates(order: seq<Address>, p: Pending) {
    NoRepeats(order) && (forall a :: a in order <==> a in p)
  }

  lemma {:induction false} TotalSame(order: seq<Address>, p: Pending, a: Address, l: seq<Tx>)
    requires (forall b :: b in order ==> b in p) && a !in order
    ensures Total(order, p[a := l]) == Total(order, p)
  {
    if order != [] { TotalSame(order[1..], p, a, l); }
  }

  lemma {:induction false} TotalUpdate(order: seq<Address>, p: Pending, a: Address, l: seq<Tx>)
    requires NoRepeats(order) && (forall b :: b in order ==> b in p) && a in order
    ensures Total(order, p[a := l]) == Total(order, p) - |p[a]| + |l|
  {
    if order[0] == a {
      assert a !in order[1..];
      TotalSame(order[1..], p, a, l);
    } else {
      TotalUpdate(order[1..], p, a, l);
    }
  }

  // ---------- what has been cut ----------

  /** Every list has only lost transactions from its end. */
  ghost predicate CutFrom(p0: Pending, p: Pending) {
    p.Keys == p0.Keys && forall a :: a in p ==> |p[a]| <= |p0[a]| && p[a] == p0[a][..|p[a]|]
  }

  ghost predicate Sorted(l: seq<Tx>) {
    forall i, j :: 0 <= i < j < |l| ==> l[i].nonce < l[j].nonce
  }

  /** The hashes of the transactions that were cut. */
  ghost function Dropped(p0: Pending, p: Pending): set<nat>
    requires CutFrom(p0, p)
  {
    set a, i | a in p0 && |p[a]| <= i < |p0[a]| :: p0[a][i].hash
  }

  /** An account's next nonce, once its list is down to `len`: it falls back
      to the first transaction that was cut. */
  function NonceAfter(l0: seq<Tx>, len: nat, nonce0: nat): nat {
    if len < |l0| then Min(nonce0, l0[len].nonce) else nonce0
  }

  lemma NonceStep(l0: seq<Tx>, len: nat, nonce0: nat)
    requires Sorted(l0) && 1 <= len <= |l0|
    ensures Min(NonceAfter(l0, len, nonce0), l0[len - 1].nonce) == NonceAfter(l0, len - 1, nonce0)
  {
  }

  ghost predicate NonceOk(b0: Books, b: Books, a: Address)
    requires a in b0.pending && a in b.pending && a in b0.nonces && a in b.nonces
  {
    b.nonces[a] == NonceAfter(b0.pending[a], |b.pending[a]|, b0.nonces[a])
  }

  /** A pool's books: the lists, the hashes in the pool and the next nonces. */
  datatype Books = Books(pending: Pending, all: set<nat>, nonces: map<Address, nat>) {
    ghost predicate Valid() {
      (forall a :: a in pending ==> Sorted(pending[a])) && nonces.Keys >= pending.Keys
    }
  }

  /** The books after some cuts, compared with the books before all of them. */
  ghost predicate After(b0: Books, b: Books) {
    && b0.Valid() && CutFrom(b0.pending, b.pending)
    && b.nonces.Keys == b0.nonces.Keys
    && b.all == b0.all - Dropped(b0.pending, b.pending)
    && (forall a {:trigger NonceOk(b0, b, a)} :: a in b.pending ==> NonceOk(b0, b, a))
  }

  function ButLast(l: seq<Tx>): seq<Tx> {
    if l == [] then [] else l[..|l| - 1]
  }

  /** Cutting the last transaction of one account. */
  function CutOne(b: Books, a: Address): Books
    requires a in b.pending && a in b.nonces && |b.pending[a]| >= 1
  {
    var tx := b.pending[a][|b.pending[a]| - 1];
    Books(b.pending[a := ButLast(b.pending[a])], b.all - {tx.hash}, b.nonces[a := Min(b.nonces[a], tx.nonce)])
  }

  lemma CutOneAfter(b0: Books, b: Books, a: Address)
    requires After(b0, b) && a in b.pending && |b.pending[a]| >= 1
    ensures a in b.nonces && After(b0, CutOne(b, a))
  {
    assert a in b0.nonces.Keys;
    var b' := CutOne(b, a);
    DroppedOne(b0.pending, b.pending, a);
    CutOneNonces(b0, b, a);
  }

  lemma CutOneNonces(b0: Books, b: Books, a: Address)
    requires After(b0, b) && a in b.pending && |b.pending[a]| >= 1 && a in b.nonces && a in b0.nonces
    ensures forall c {:trigger NonceOk(b0, CutOne(b, a), c)} ::
              c in b.pending ==> c in b0.pending && c in b0.nonces && c in b.nonces && NonceOk(b0, CutOne(b, a), c)
  {
    forall c | c in b.pending
      ensures c in b0.pending && c in b0.nonces && c in b.nonces && NonceOk(b0, CutOne(b, a), c)
    {
      assert c in b.pending.Keys && c in b0.nonces.Keys;
      assert NonceOk(b0, b, c);
      if c == a {
        NonceStep(b0.pending[a], |b.pending[a]|, b0.nonces[a]);
      }
    }
  }

  /** Every account in `addrs` loses its last transaction. */
  ghost function Round(p: Pending, addrs: seq<Address>): Pending {
    map a | a in p :: if a in addrs then ButLast(p[a]) else p[a]
  }

  lemma RoundStep(p: Pending, addrs: seq<Address>, i: nat)
    requires NoRepeats(addrs) && i < |addrs| && addrs[i] in p
    ensures addrs[i] in Round(p, addrs[..i]) && Round(p, addrs[..i])[addrs[i]] == p[addrs[i]]
    ensures Round(p, addrs[..i])[addrs[i] := ButLast(p[addrs[i]])] == Round(p, addrs[..i + 1])
  {
    var a := addrs[i];
    assert a !in addrs[..i];
    assert addrs[..i + 1] == addrs[..i] + [a];
  }

  class TxPool {
    const globalSlots: nat
    const accountSlots: nat
    const locals: set<Address>
    var pending: Pending
    var all: set<nat>
    var nonces: map<Address, nat>    // the pending state's next nonce

    ghost function View(): Books
      reads this
    {
      Books(pending, all, nonces)
    }

    constructor (globalSlots: nat, accountSlots: nat, locals: set<Address>, pending: Pending, all: set<nat>,
                 nonces: map<Address, nat>)
      ensures this.globalSlots == globalSlots && this.accountSlots == accountSlots && this.locals == locals
      ensures View() == Books(pending, all, nonces)
    {
      this.globalSlots, this.accountSlots, this.locals := globalSlots, accountSlots, locals;
      this.pending, this.all, this.nonces := pending, all, nonces;
    }

    /** Cuts the last transaction of one account. */
    method CutLast(a: Address)
      requires a in pending && a in nonces && |pending[a]| >= 1
      modifies this`pending, this`all, this`nonces
      ensures View() == CutOne(old(View()), a)
    {
      var list := pending[a];
      var tx := list[|list| - 1];
      pending := pending[a := list[..|list| - 1]];
      all := all - {tx.hash};
      if nonces[a] > tx.nonce {
        nonces := nonces[a := tx.nonce];
      } else {
        assert nonces[a := nonces[a]] == nonces;
      }
    }

    /** Cuts the last transaction of each of the given accounts. */
    method CutRound(addrs: seq<Address>, ghost b0: Books, ghost order: seq<Address>)
      requires After(b0, View()) && Enumerates(order, pending)
      requires NoRepeats(addrs) && forall a :: a in addrs ==> a in pending && |pending[a]| >= 1
      modifies this`pending, this`all, this`nonces
      ensures After(b0, View()) && pending == Round(old(pending), addrs) && Enumerates(order, pending)
      ensures Total(order, pending) == Total(order, old(pending)) - |addrs|
    {
      var i := 0;
      ghost var p := pending;
      assert Round(p, addrs[..0]) == p;
      while i < |addrs|
        invariant 0 <= i <= |addrs| && After(b0, View()) && Enumerates(order, pending)
        invariant pending == Round(p, addrs[..i])
        invariant Total(order, pending) == Total(order, p) - i
      {
        var a := addrs[i];
        assert a in addrs;
        RoundStep(p, addrs, i);
        TotalUpdate(order, pending, a, ButLast(pending[a]));
        CutOneAfter(b0, View(), a);
        CutLast(a);
        i := i + 1;
      }
      assert addrs[..i] == addrs;
    }

    /** The number of pending transactions. */
    method Count(order: seq<Address>) returns (count: nat)
      requires forall a :: a in order ==> a in pending
      ensures count == Total(order, pending)
    {
      count := 0;
      var rest := order;
      while rest != []
        invariant forall a :: a in rest ==> a in pending
        invariant count + Total(rest, pending) == Total(order, pending)
      {
        count := count + |pending[rest[0]]|;
        rest := rest[1..];
      }
    }

    /** The queue of the spammers hands out the longest list first. */
    method PopLongest(queue: set<Address>) returns (a: Address)
      requires queue != {} && forall b :: b in queue ==> b in pending
      ensures a in queue && forall b :: b in queue ==> |pending[b]| <= |pending[a]|
    {
      a :| a in queue;
      var rest := queue - {a};
      while rest != {}
        invariant a in queue && rest <= queue
        invariant forall b :: b in queue - rest ==> |pending[b]| <= |pending[a]|
        decreases rest
      {
        var b :| b in rest;
        if |pending[b]| > |pending[a]| {
          a := b;
        }
        rest := rest - {b};
      }
    }

    /** The state of the pool while it is being equalised. */
    ghost predicate Running(b0: Books, order: seq<Address>, count: int, w: Progress)
      reads this
    {
      && After(b0, View()) && Enumerates(order, pending) && count == Total(order, pending)
      && Levelled(b0.pending, pending, locals, accountSlots, w)
      && (w.cut != [] ==> count + |w.cut| > globalSlots)
    }

    /** Cuts the earlier offenders until they are level with the last one or the pool fits. */
    method LevelDown(count0: nat, offenders: seq<Address>, ghost b0: Books, ghost order: seq<Address>,
                     ghost w0: Progress)
      returns (count: nat, ghost w: Progress)
      requires Running(b0, order, count0, w0) && offenders == w0.offenders && |offenders| > 1
      modifies this`pending, this`all, this`nonces
      ensures Running(b0, order, count, w) && w.queue == w0.queue && w.offenders == offenders
      ensures count > globalSlots ==> w.top == w.bottom
    {
      count, w := count0, w0;
      var threshold := |pending[offenders[|offenders| - 1]]|;
      while count > globalSlots && |pending[offenders[|offenders| - 2]]| > threshold
        invariant Running(b0, order, count, w) && w.queue == w0.queue && w.offenders == offenders
        invariant w.bottom == threshold
        decreases w.top
      {
        var addrs := offenders[..|offenders| - 1];
        UpperCut(b0.pending, pending, locals, accountSlots, w);
        CutRound(addrs, b0, order);
        count := count - |addrs|;
        w := w.(cut := addrs, top := w.top - 1);
      }
    }

    /** Cuts all offenders until they are at their allowance or the pool fits. */
    method ReduceAll(count0: nat, offenders: seq<Address>, ghost b0: Books, ghost order: seq<Address>,
                     ghost w0: Progress)
      returns (count: nat, ghost w: Progress)
      requires Running(b0, order, count0, w0) && offenders == w0.offenders && |offenders| > 0
      requires w0.top == w0.bottom && w0.queue == {}
      modifies this`pending, this`all, this`nonces
      ensures Running(b0, order, count, w) && w.queue == {} && w.offenders == offenders
      ensures count > globalSlots ==> w.top <= accountSlots
    {
      count, w := count0, w0;
      while count > globalSlots && |pending[offenders[|offenders| - 1]]| > accountSlots
        invariant Running(b0, order, count, w) && w.queue == {} && w.offenders == offenders && w.top == w.bottom
        decreases w.top
      {
        FullCut(b0.pending, pending, locals, accountSlots, w);
        CutRound(offenders, b0, order);
        count := count - |offenders|;
        w := w.(cut := offenders, top := w.top - 1, bottom := w.top - 1);
      }
    }

    /** Gathers offenders, longest first, and levels the earlier ones down to each
        new one, while the pool does not fit. */
    method Gather(count0: nat, queue0: set<Address>, ghost b0: Books, ghost order: seq<Address>, ghost w0: Progress)
      returns (count: nat, offenders: seq<Address>, ghost w: Progress)
      requires Running(b0, order, count0, w0) && w0.queue == queue0 && w0.offenders == [] && w0.top == w0.bottom
      modifies this`pending, this`all, this`nonces
      ensures Running(b0, order, count, w) && w.offenders == offenders
      ensures count > globalSlots ==> w.top == w.bottom && w.queue == {}
    {
      count, offenders, w := count0, [], w0;
      var queue := queue0;
      while count > globalSlots && queue != {}
        invariant Running(b0, order, count, w) && w.queue == queue && w.offenders == offenders
        invariant count > globalSlots ==> w.top == w.bottom
        decreases queue
      {
        var offender := PopLongest(queue);
        Joined(b0.pending, pending, locals, accountSlots, w, offender);
        w := Join(w, offender, |pending[offender]|);
        queue := queue - {offender};
        offenders := offenders + [offender];
        if |offenders| > 1 {
          count, w := LevelDown(count, offenders, b0, order, w);
        }
      }
    }

    /** Cuts the largest remote accounts down, all to the same length, until
        the pool fits or every remote account is down to its allowance.
        `order` is the order in which the pending map is walked. */
    method Equalise(order: seq<Address>) returns (ghost cut: seq<Address>)
      requires View().Valid() && Enumerates(order, pending)
      modifies this`pending, this`all, this`nonces
      ensures After(old(View()), View())
      ensures Fair(old(pending), pending, locals, accountSlots, cut)
      ensures Enumerates(order, pending)
      ensures Total(order, pending) <= globalSlots || forall a :: a in pending && a !in locals ==>
        |pending[a]| <= accountSlots
      ensures cut != [] ==> Total(order, pending) + |cut| > globalSlots
    {
      ghost var b0 := View();
      AfterNothing(b0);
      var count := Count(order);
      if count <= globalSlots {
        return [];
      }
      var queue := set a | a in pending && a !in locals && |pending[a]| > accountSlots;
      ghost var w := Progress(queue, [], [], 0, 0);
      var offenders;
      count, offenders, w := Gather(count, queue, b0, order, w);
      if count > globalSlots && |offenders| > 0 {
        count, w := ReduceAll(count, offenders, b0, order, w);
      }
      LevelledFair(b0.pending, pending, locals, accountSlots, w);
      return w.cut;
    }
  }

  lemma AfterNothing(b: Books)
    requires b.Valid()
    ensures After(b, b)
  {
    forall a | a in b.pending ensures a in b.nonces && NonceOk(b, b, a) { assert a in b.nonces.Keys; }
    assert Dropped(b.pending, b.pending) == {};
  }

  // ---------- fairness ----------

  /** Exactly the accounts in `cut` were reduced. They are remote accounts
      over their allowance, none goes below it, and no remote account ends
      with more transactions than any of them. */
  ghost predicate Fair(p0: Pending, p: Pending, locals: set<Address>, slots: nat, cut: seq<Address>) {
    && p.Keys == p0.Keys
    && (forall a :: a in p ==> (p[a] != p0[a] <==> a in cut))
    && (forall a :: a in cut ==> a in p && a !in locals && |p0[a]| > slots && |p[a]| >= slots)
    && (forall a, b :: a in cut && b in p && b !in locals ==> |p[b]| <= |p[a]|)
  }

  ghost predicate Oversized(p0: Pending, locals: set<Address>, slots: nat, a: Address) {
    a in p0 && a !in locals && |p0[a]| > slots
  }

  /** Which oversized accounts are still queued, which are offenders, and how far they have been cut. */
  datatype Progress = Progress(queue: set<Address>, offenders: seq<Address>, cut: seq<Address>, top: nat, bottom: nat)

  /** The oversized accounts are queued or offenders. All offenders but the
      last have length `top`, the last has `bottom`, the queued ones at most
      that; the accounts cut so far are among the offenders of length `top`. */
  ghost predicate Levelled(p0: Pending, p: Pending, locals: set<Address>, slots: nat, w: Progress) {
    var Progress(queue, offenders, cut, top, bottom) := w;
    && CutFrom(p0, p)
    && NoRepeats(offenders)
    && (forall a :: a in queue ==> Oversized(p0, locals, slots, a) && a !in offenders)
    && (forall a :: a in offenders ==> a in p && Oversized(p0, locals, slots, a))
    && (forall a :: Oversized(p0, locals, slots, a) ==> a in queue || a in offenders)
    && (forall a :: a in p && a !in offenders ==> p[a] == p0[a])
    && (offenders != [] ==>
          && slots <= bottom <= top
          && (forall i :: 0 <= i < |offenders| - 1 ==> |p[offenders[i]]| == top)
          && |p[offenders[|offenders| - 1]]| == bottom
          && (forall a :: a in queue ==> |p0[a]| <= bottom))
    && (forall a :: a in p ==> (p[a] != p0[a] <==> a in cut))
    && (forall a :: a in cut ==> a in offenders && |p[a]| == top)
  }

  /** The next offender joins; it is the longest of those that were queued. */
  function Join(w: Progress, a: Address, len: nat): Progress {
    Progress(w.queue - {a}, w.offenders + [a], w.cut, if w.offenders == [] then len else w.top, len)
  }

  lemma Joined(p0: Pending, p: Pending, locals: set<Address>, slots: nat, w: Progress, a: Address)
    requires Levelled(p0, p, locals, slots, w) && w.top == w.bottom
    requires a in w.queue && forall b :: b in w.queue ==> b in p && |p[b]| <= |p[a]|
    ensures Levelled(p0, p, locals, slots, Join(w, a, |p[a]|))
  {
    var offenders, all := w.offenders, w.offenders + [a];
    forall i | 0 <= i < |all| - 1
      ensures |p[all[i]]| == w.top && offenders != []
    {
      if i == |offenders| - 1 { assert all[i] == offenders[|offenders| - 1]; }
    }
  }

  /** Cutting all offenders but the last by one, while they are longer. */
  lemma UpperCut(p0: Pending, p: Pending, locals: set<Address>, slots: nat, w: Progress)
    requires Levelled(p0, p, locals, slots, w) && |w.offenders| > 1 && w.top > w.bottom
    ensures var addrs := w.offenders[..|w.offenders| - 1];
            && NoRepeats(addrs) && (forall a :: a in addrs ==> a in p && |p[a]| >= 1)
            && Levelled(p0, Round(p, addrs), locals, slots, w.(cut := addrs, top := w.top - 1))
  {
    var offenders := w.offenders;
    var addrs, last := offenders[..|offenders| - 1], offenders[|offenders| - 1];
    assert last !in addrs;
    forall a | a in addrs ensures a in p && |p[a]| == w.top && a in offenders { }
    RoundCuts(p0, p, w.cut, addrs, w.top);
  }

  /** Cutting all offenders by one, when they are level and above the allowance. */
  lemma FullCut(p0: Pending, p: Pending, locals: set<Address>, slots: nat, w: Progress)
    requires Levelled(p0, p, locals, slots, w) && |w.offenders| > 0 && w.top == w.bottom > slots && w.queue == {}
    ensures forall a :: a in w.offenders ==> a in p && |p[a]| >= 1
    ensures Levelled(p0, Round(p, w.offenders), locals, slots,
                     w.(cut := w.offenders, top := w.top - 1, bottom := w.top - 1))
  {
    forall a | a in w.offenders ensures a in p && |p[a]| == w.top {
      var i :| 0 <= i < |w.offenders| && w.offenders[i] == a;
    }
    RoundCuts(p0, p, w.cut, w.offenders, w.top);
  }

  /** A round that includes every account cut before cuts exactly its own. */
  lemma RoundCuts(p0: Pending, p: Pending, cut: seq<Address>, addrs: seq<Address>, top: nat)
    requires CutFrom(p0, p) && top >= 1
    requires forall a :: a in p ==> (p[a] != p0[a] <==> a in cut)
    requires forall a :: a in cut ==> a in addrs
    requires forall a :: a in addrs ==> a in p && |p[a]| == top
    ensures CutFrom(p0, Round(p, addrs))
    ensures forall a :: a in p ==> (Round(p, addrs)[a] != p0[a] <==> a in addrs)
    ensures forall a :: a in addrs ==> |Round(p, addrs)[a]| == top - 1
  {
  }

  lemma LevelledFair(p0: Pending, p: Pending, locals: set<Address>, slots: nat, w: Progress)
    requires Levelled(p0, p, locals, slots, w)
    ensures Fair(p0, p, locals, slots, w.cut)
    ensures w.queue == {} && (w.offenders != [] ==> w.top <= slots) ==>
      forall a :: a in p && a !in locals ==> |p[a]| <= slots
  {
    forall b | b in p && b !in locals
      ensures w.offenders != [] ==> |p[b]| <= w.top
      ensures w.queue == {} && (w.offenders != [] ==> w.top <= slots) ==> |p[b]| <= slots
    {
      if b in w.offenders {
        var i :| 0 <= i < |w.offenders| && w.offenders[i] == b;
      } else if Oversized(p0, locals, slots, b) {
        assert b in w.queue;
      }
    }
  }

  lemma DroppedOne(p0: Pending, p: Pending, a: Address)
    requires CutFrom(p0, p) && a in p && |p[a]| >= 1
    ensures CutFrom(p0, p[a := ButLast(p[a])])
    ensures Dropped(p0, p[a := ButLast(p[a])]) == Dropped(p0, p) + {p[a][|p[a]| - 1].hash}
  {
    var p' := p[a := ButLast(p[a])];
    var h := p[a][|p[a]| - 1].hash;
    assert h == p0[a][|p[a]| - 1].hash;
    forall x | x in Dropped(p0, p')
      ensures x in Dropped(p0, p) + {h}
    {
      var b, i :| b in p0 && |p'[b]| <= i < |p0[b]| && p0[b][i].hash == x;
      if b == a && i == |p[a]| - 1 {
      } else {
        assert |p[b]| <= i;
      }
    }
    forall x | x in Dropped(p0, p) + {h}
      ensures x in Dropped(p0, p')
    {
      if x == h {
        assert |p'[a]| <= |p[a]| - 1 < |p0[a]| && p0[a][|p[a]| - 1].hash == x;
      } else {
        var b, i :| b in p0 && |p[b]| <= i < |p0[b]| && p0[b][i].hash == x;
        assert |p'[b]| <= i;
      }
    }
  }
}
