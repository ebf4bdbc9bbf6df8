/**
  The chain indexer of core/chain_indexer.go: finished sections of the chain are
  recorded by the hash of their last header. The lock is dropped while a section
  is processed, so reorganisations may be announced in the middle of it.
 */
module ChainIndexers {
  import opened Prelude

  const NO_HASH: Hash := 0

  datatype BlockHeader = BlockHeader(number: nat, parent: Hash)

  /** From `from`, exclusive, to `to`: `n` parent-linked headers numbered from `first`. */
  ghost predicate Spans(header: Hash -> BlockHeader, from: Hash, to: Hash, first: nat, n: nat)
    decreases n
  {
    if n == 0 then from == to
    else to != NO_HASH && header(to).number == first + n - 1 && Spans(header, from, header(to).parent, first, n - 1)
  }

  /** Following the parents of `h` for `n` steps. */
  function Back(header: Hash -> BlockHeader, h: Hash, n: nat): Hash
    decreases n
  {
    if n == 0 then h else Back(header, header(h).parent, n - 1)
  }

  /** A span is determined by its end: going back `n` parents leads to its start. */
  lemma {:induction false} SpanBack(header: Hash -> BlockHeader, from: Hash, to: Hash, first: nat, n: nat)
    requires Spans(header, from, to, first, n)
    ensures Back(header, to, n) == from
    ensures forall i: nat :: i < n ==> header(Back(header, to, i)).number == first + n - 1 - i
    decreases n
  {
    if n > 0 {
      SpanBack(header, from, header(to).parent, first, n - 1);
      forall i: nat | i < n ensures header(Back(header, to, i)).number == first + n - 1 - i {
        if i > 0 {
          assert Back(header, to, i) == Back(header, header(to).parent, i - 1);
        }
      }
    }
  }

  lemma {:induction false} SpansJoin(header: Hash -> BlockHeader, from: Hash, mid: Hash, to: Hash, first: nat, m: nat,
                                     n: nat)
    requires Spans(header, from, mid, first, m) && Spans(header, mid, to, first + m, n)
    ensures Spans(header, from, to, first, m + n)
    decreases n
  {
    if n > 0 {
      SpansJoin(header, from, mid, header(to).parent, first, m, n - 1);
    }
  }

  type Heads = map<nat, Hash>

  /** The head before section `s`; nothing precedes the first one. */
  function HeadBefore(heads: Heads, s: nat): Hash {
    if s > 0 && s - 1 in heads then heads[s - 1] else NO_HASH
  }

  /** Section `s` is one whole span of headers on top of the section before it. */
  ghost predicate SectionOk(header: Hash -> BlockHeader, heads: Heads, size: nat, s: nat) {
    s in heads && heads[s] != NO_HASH && Spans(header, HeadBefore(heads, s), heads[s], s * size, size)
  }

  /** Heads are recorded for the first `n` sections and for no others, and each is
      linked to the one before. */
  ghost predicate Recorded(header: Hash -> BlockHeader, heads: Heads, size: nat, n: nat) {
    && (forall s :: s in heads ==> s < n)
    && forall s: nat :: s < n ==> SectionOk(header, heads, size, s)
  }

  /** The heads of sections below `n`. */
  function Cut(heads: Heads, n: nat): Heads {
    map s | s in heads && s < n :: heads[s]
  }

  lemma CutAgain(heads: Heads, k: nat, n: nat)
    requires k <= n
    ensures Cut(Cut(heads, n), k) == Cut(heads, k)
  {
  }

  lemma CutRecorded(header: Hash -> BlockHeader, heads: Heads, size: nat, n: nat, k: nat)
    requires Recorded(header, heads, size, n) && k <= n
    ensures Recorded(header, Cut(heads, k), size, k)
  {
    forall s: nat | s < k ensures SectionOk(header, Cut(heads, k), size, s) {
      assert SectionOk(header, heads, size, s);
      if s > 0 {
        assert SectionOk(header, heads, size, s - 1);
      }
    }
  }

  lemma AddRecorded(header: Hash -> BlockHeader, heads: Heads, size: nat, n: nat, head: Hash)
    requires Recorded(header, heads, size, n)
    requires head != NO_HASH && Spans(header, HeadBefore(heads, n), head, n * size, size)
    ensures Recorded(header, heads[n := head], size, n + 1)
  {
    var heads' := heads[n := head];
    forall s: nat | s < n + 1 ensures SectionOk(header, heads', size, s) {
      if s < n {
        assert SectionOk(header, heads, size, s);
      }
    }
  }

  /** The whole index is one parent-linked chain from the start. */
  lemma {:induction false} OneChain(header: Hash -> BlockHeader, heads: Heads, size: nat, n: nat, s: nat)
    requires Recorded(header, heads, size, n) && s < n
    ensures s in heads && Spans(header, NO_HASH, heads[s], 0, (s + 1) * size)
    decreases s
  {
    assert SectionOk(header, heads, size, s);
    Step(s, size);
    if s > 0 {
      OneChain(header, heads, size, n, s - 1);
      SpansJoin(header, NO_HASH, heads[s - 1], heads[s], 0, s * size, size);
    }
  }

  lemma Step(s: nat, size: nat)
    ensures (s + 1) * size == s * size + size
  {
  }

  /** The number of a section's last header. */
  ghost function LastHeader(section: nat, size: nat): nat
    requires size > 0
  {
    section * size + size - 1
  }

  /** How many whole sections fit into `blocks`. */
  function Sections(blocks: nat, size: nat): (n: nat)
    requires size > 0
    ensures n <= blocks && n * size <= blocks < (n + 1) * size
  {
    Fits(blocks, size);
    blocks / size
  }

  lemma Fits(blocks: nat, size: nat)
    requires size > 0
    ensures var n := blocks / size; n <= blocks && n * size <= blocks < (n + 1) * size
  {
    var n := blocks / size;
    Divided(blocks, size);
    Step(n, size);
    Grows(n, size);
  }

  lemma Divided(blocks: nat, size: nat)
    requires size > 0
    ensures 0 <= blocks / size && blocks == blocks / size * size + blocks % size
  {
  }

  lemma {:induction false} Grows(n: nat, size: nat)
    requires size > 0
    ensures n <= n * size
  {
    if n > 0 {
      Grows(n - 1, size);
      Step(n - 1, size);
    }
  }

  class ChainIndexer {
    const header: Hash -> BlockHeader
    const sectionSize: nat
    const confirmsReq: nat
    var storedSections: nat
    var knownSections: nat
    var heads: Heads
    var count: nat

    ghost predicate Valid()
      reads this
    {
      && sectionSize > 0 && knownSections < WORD && storedSections < WORD && count == storedSections
      && Recorded(header, heads, sectionSize, storedSections)
    }

    /** Starts from what the index database holds. */
    constructor (header: Hash -> BlockHeader, size: nat, confirms: nat, count: nat, heads: Heads)
      requires size > 0 && count < WORD && Recorded(header, heads, size, count)
      ensures Valid() && storedSections == count && this.heads == heads && knownSections == 0
      ensures this.header == header && sectionSize == size && confirmsReq == confirms
    {
      this.header, sectionSize, confirmsReq := header, size, confirms;
      storedSections, knownSections, this.count, this.heads := count, 0, count, heads;
    }

    /** The stored head of a section, or the zero hash. */
    function SectionHead(section: nat): Hash
      reads this
    {
      if section in heads then heads[section] else NO_HASH
    }

    /** The hash on which the next section must build. */
    ghost function NextParent(): Hash
      reads this
    {
      HeadBefore(heads, storedSections)
    }

    /** Writes the count and deletes the heads of sections that are no longer valid. */
    method SetValidSections(sections: nat)
      modifies this`count, this`storedSections, this`heads
      ensures count == sections == storedSections
      ensures heads == map s | s in old(heads) && !(sections <= s < old(storedSections)) :: old(heads)[s]
    {
      count := sections;
      while storedSections > sections
        invariant count == sections && storedSections <= old(storedSections)
        invariant storedSections >= sections || storedSections == old(storedSections)
        invariant heads == map s | s in old(heads) && !(storedSections <= s < old(storedSections)) :: old(heads)[s]
      {
        storedSections := storedSections - 1;
        heads := map s | s in heads && s != storedSections :: heads[s];
      }
      storedSections := sections;
    }

    /** A new head of the chain, or a reorganisation down to it. */
    method NewHead(head: nat, reorg: bool)
      requires Valid() && head < WORD && confirmsReq < WORD
      modifies this
      ensures Valid()
      ensures heads == Cut(old(heads), storedSections)
      ensures storedSections ==
        if reorg then Min(old(storedSections), Sections(head, sectionSize)) else old(storedSections)
      ensures knownSections ==
        if reorg then Min(old(knownSections), Sections(head, sectionSize))
        else if head < confirmsReq then old(knownSections)
        else Max(old(knownSections), Sections((head + 1 - confirmsReq) % WORD, sectionSize))
      ensures reorg ==> knownSections * sectionSize <= head || knownSections == old(knownSections)
      ensures !reorg && knownSections > old(knownSections) ==>
        knownSections * sectionSize + confirmsReq <= head + 1 < (knownSections + 1) * sectionSize + confirmsReq
    {
      assert heads == Cut(heads, storedSections);
      if reorg {
        var changed := Sections(head, sectionSize);
        if changed < knownSections {
          knownSections := changed;
        }
        if changed < storedSections {
          CutRecorded(header, heads, sectionSize, storedSections, changed);
          SetValidSections(changed);
        }
        assert heads == Cut(old(heads), storedSections);
        return;
      }
      if head >= confirmsReq {
        var sections := Sections((head + 1 - confirmsReq) % WORD, sectionSize);
        if sections > knownSections {
          knownSections := sections;
        }
      }
    }

    /** Any number of notifications from other threads while the lock is free;
        `forks` lists the reorganisations among them. */
    method Interfere() returns (ghost forks: seq<nat>)
      requires Valid() && confirmsReq < WORD
      modifies this
      ensures Valid() && storedSections <= old(storedSections) && heads == Cut(old(heads), storedSections)
      ensures storedSections == old(storedSections) <==> Spared(forks, sectionSize, old(storedSections))
    {
      assert heads == Cut(heads, storedSections);
      forks := [];
      var n: nat :| n >= 0;
      while n > 0
        invariant Valid() && storedSections <= old(storedSections) && heads == Cut(old(heads), storedSections)
        invariant storedSections == old(storedSections) <==> Spared(forks, sectionSize, old(storedSections))
      {
        var head: nat, reorg: bool :| head < WORD;
        NewHead(head, reorg);
        assert heads == Cut(old(heads), storedSections);
        if reorg {
          SparedAppend(forks, [head], sectionSize, old(storedSections));
          SparedOne(head, sectionSize, old(storedSections));
          forks := forks + [head];
        }
        n := n - 1;
      }
    }

    /** Further notifications, counted from an earlier moment with `heads0` and `n0`. */
    method Yield(ghost heads0: Heads, ghost n0: nat, ghost forks: seq<nat>) returns (ghost more: seq<nat>)
      requires Valid() && confirmsReq < WORD && storedSections <= n0 && heads == Cut(heads0, storedSections)
      requires storedSections == n0 <==> Spared(forks, sectionSize, n0)
      modifies this
      ensures Valid() && storedSections <= n0 && heads == Cut(heads0, storedSections)
      ensures storedSections == n0 <==> Spared(forks + more, sectionSize, n0)
    {
      ghost var was := storedSections;
      more := Interfere();
      CutAgain(heads0, storedSections, was);
      SparedAppend(forks, more, sectionSize, n0);
    }

    /** Walks the headers of a section without holding the lock. The chain may be
        reorganised between any two reads; `canonical(i)` is what the i-th one finds. */
    method ProcessSection(section: nat, oldHead: Hash, canonical: nat -> Option<Hash>, resetFails: bool,
                          commitFails: bool)
      returns (newHead: Option<Hash>, ghost early: seq<nat>, ghost late: seq<nat>)
      requires Valid() && confirmsReq < WORD && Stored(header, canonical, section * sectionSize)
      modifies this
      ensures Valid() && storedSections <= old(storedSections) && heads == Cut(old(heads), storedSections)
      ensures newHead.Some? <==> !resetFails && !commitFails && Follows(header, canonical, oldHead, sectionSize)
      ensures newHead.Some? ==>
        newHead.value != NO_HASH && Spans(header, oldHead, newHead.value, section * sectionSize, sectionSize)
      ensures newHead.Some? ==> newHead.value == LastRead(canonical, oldHead, sectionSize)
      ensures newHead.Some? ==>
        (storedSections == old(storedSections) <==> Spared(early + late, sectionSize, old(storedSections)))
    {
      late := [];
      early := Interfere();
      if resetFails {
        CutRecorded(header, heads, sectionSize, storedSections, 0);
        CutAgain(old(heads), 0, storedSections);
        SetValidSections(0);
        assert heads == map[] == Cut(old(heads), 0);
        newHead := None;
        return;
      }
      var lastHead;
      lastHead, early := ReadSection(oldHead, canonical, old(heads), old(storedSections), early);
      if lastHead.None? {
        newHead := None;
        return;
      }
      FollowsSpans(header, canonical, oldHead, section * sectionSize, sectionSize);
      late := Yield(old(heads), old(storedSections), early);
      newHead := if commitFails then None else lastHead;
    }

    /** The loop over the headers of a section. */
    method ReadSection(oldHead: Hash, canonical: nat -> Option<Hash>, ghost heads0: Heads, ghost n0: nat,
                       ghost forks: seq<nat>)
      returns (head: Option<Hash>, ghost forks': seq<nat>)
      requires Valid() && confirmsReq < WORD && storedSections <= n0 && heads == Cut(heads0, storedSections)
      requires storedSections == n0 <==> Spared(forks, sectionSize, n0)
      modifies this
      ensures Valid() && storedSections <= n0 && heads == Cut(heads0, storedSections)
      ensures storedSections == n0 <==> Spared(forks', sectionSize, n0)
      ensures head.Some? <==> Follows(header, canonical, oldHead, sectionSize)
      ensures head.Some? ==> head.value == LastRead(canonical, oldHead, sectionSize)
    {
      forks' := forks;
      var lastHead, done := oldHead, 0;
      while done < sectionSize
        invariant 0 <= done <= sectionSize && lastHead == LastRead(canonical, oldHead, done)
        invariant Follows(header, canonical, oldHead, done)
        invariant Valid() && storedSections <= n0 && heads == Cut(heads0, storedSections)
        invariant storedSections == n0 <==> Spared(forks', sectionSize, n0)
      {
        ghost var more := Yield(heads0, n0, forks');
        forks' := forks' + more;
        var found := canonical(done);
        if found.None? || header(found.value).parent != lastHead {
          FollowsPrefix(header, canonical, oldHead, done + 1, sectionSize);
          head := None;
          return;
        }
        lastHead := found.value;
        done := done + 1;
      }
      head := Some(lastHead);
    }

    /** One turn of the update loop. The new section is recorded exactly if it was
        processed and the lock is retaken (at count `kept`) with no stored section
        lost, that is, no reorganisation announced meanwhile forked below it. `late`
        lists those announced after the last read; with the chain as it was then, the
        head is sure to be canonical exactly if none of them forked below it. */
    method UpdateOnce(canonical: nat -> Option<Hash>, resetFails: bool, commitFails: bool)
      returns (processed: Option<Hash>, ghost kept: nat, ghost early: seq<nat>, ghost late: seq<nat>)
      requires Valid() && confirmsReq < WORD && Stored(header, canonical, storedSections * sectionSize)
      modifies this
      ensures Valid() && kept <= old(storedSections)
      ensures old(knownSections) <= old(storedSections) ==> processed == None && heads == old(heads)
      ensures old(knownSections) > old(storedSections) ==>
        if processed.Some? && kept == old(storedSections) then
          storedSections == kept + 1 && heads == old(heads)[kept := processed.value]
        else
          storedSections == knownSections == kept && heads == Cut(old(heads), kept)
      ensures old(knownSections) > old(storedSections) ==>
        (processed.Some? <==> !resetFails && !commitFails && Follows(header, canonical, old(NextParent()), sectionSize))
      ensures processed.Some? ==> canonical(sectionSize - 1) == processed
      ensures processed.Some? ==>
        header(processed.value).number == LastHeader(old(storedSections), sectionSize)
      ensures processed.Some? ==>
        (kept == old(storedSections) <==> Spared(early + late, sectionSize, old(storedSections)))
      ensures processed.Some? ==>
        forall before: Canonical :: before(LastHeader(old(storedSections), sectionSize)) == processed ==>
          (SureCanonical(before, late, LastHeader(old(storedSections), sectionSize)) <==>
           NoneBelow(late, LastHeader(old(storedSections), sectionSize)))
    {
      if knownSections <= storedSections {
        return None, storedSections, [], [];
      }
      var section := storedSections;
      var oldHead := if section > 0 then SectionHead(section - 1) else NO_HASH;
      assert section > 0 ==> SectionOk(header, heads, sectionSize, section - 1);
      processed, early, late := ProcessSection(section, oldHead, canonical, resetFails, commitFails);
      forall before: Canonical | processed.Some? && before(LastHeader(section, sectionSize)) == processed
        ensures SureCanonical(before, late, LastHeader(section, sectionSize)) <==>
                NoneBelow(late, LastHeader(section, sectionSize))
      {
        SureIff(before, late, LastHeader(section, sectionSize));
      }
      kept := storedSections;
      assert oldHead == SectionHead((section - 1) % WORD) <==> kept == section;
      if processed.Some? && oldHead == SectionHead((section - 1) % WORD) {
        assert heads == old(heads) && HeadBefore(heads, section) == oldHead;
        AddRecorded(header, heads, sectionSize, section, processed.value);
        ghost var heads' := heads[section := processed.value];
        heads := heads[section := processed.value];
        SetValidSections(section + 1);
        assert heads == heads';
      } else {
        knownSections := storedSections;
      }
    }
  }

  // ---------- reorganisations during processing ----------

  /** No reorganisation forks so low that a section before `n` is lost. */
  ghost predicate Spared(forks: seq<nat>, size: nat, n: nat)
    requires size > 0
  {
    forall i :: 0 <= i < |forks| ==> Sections(forks[i], size) >= n
  }

  lemma SparedAppend(a: seq<nat>, b: seq<nat>, size: nat, n: nat)
    requires size > 0
    ensures Spared(a + b, size, n) <==> Spared(a, size, n) && Spared(b, size, n)
  {
    if Spared(a + b, size, n) {
      forall i | 0 <= i < |a| ensures Sections(a[i], size) >= n { assert (a + b)[i] == a[i]; }
      forall i | 0 <= i < |b| ensures Sections(b[i], size) >= n { assert (a + b)[|a| + i] == b[i]; }
    }
  }

  lemma SparedOne(fork: nat, size: nat, n: nat)
    requires size > 0
    ensures Spared([fork], size, n) <==> Sections(fork, size) >= n
  {
    assert [fork][0] == fork;
  }

  type Canonical = nat -> Option<Hash>

  /** Every block above the fork is replaced, and no other. */
  ghost predicate Reorganised(before: Canonical, after: Canonical, fork: nat) {
    && (forall n: nat :: n <= fork ==> after(n) == before(n))
    && forall n: nat :: n > fork && before(n).Some? ==> after(n) != before(n)
  }

  ghost predicate Evolves(before: Canonical, after: Canonical, forks: seq<nat>) {
    if forks == [] then forall n: nat :: after(n) == before(n)
    else exists mid :: Reorganised(before, mid, forks[0]) && Evolves(mid, after, forks[1..])
  }

  ghost predicate NoneBelow(forks: seq<nat>, n: nat) {
    forall i :: 0 <= i < |forks| ==> forks[i] >= n
  }

  /** Whatever the reorganisations bring, the block at height `n` is still canonical. */
  ghost predicate SureCanonical(before: Canonical, forks: seq<nat>, n: nat) {
    forall after :: Evolves(before, after, forks) ==> after(n) == before(n)
  }

  /** A head stays canonical through reorganisations that fork at or above it. */
  lemma {:induction false} StaysCanonical(before: Canonical, after: Canonical, forks: seq<nat>, n: nat)
    requires Evolves(before, after, forks) && NoneBelow(forks, n)
    ensures after(n) == before(n)
    decreases |forks|
  {
    if forks != [] {
      var mid :| Reorganised(before, mid, forks[0]) && Evolves(mid, after, forks[1..]);
      StaysCanonical(mid, after, forks[1..], n);
    }
  }

  function Value(h: Option<Hash>): Hash {
    if h.Some? then h.value else 0
  }

  /** Every block above the fork gives way to one that is neither it nor `x`. */
  function Replaced(before: Canonical, fork: nat, x: Hash): Canonical {
    (n: nat) => if n <= fork then before(n) else Some(x + 1 + Value(before(n)))
  }

  /** Once gone, a block need not come back. */
  lemma {:induction false} StaysAway(before: Canonical, forks: seq<nat>, n: nat, x: Hash) returns (after: Canonical)
    requires before(n) != Some(x)
    ensures Evolves(before, after, forks) && after(n) != Some(x)
    decreases |forks|
  {
    if forks == [] {
      after := before;
    } else {
      var mid := Replaced(before, forks[0], x);
      assert Reorganised(before, mid, forks[0]);
      after := StaysAway(mid, forks[1..], n, x);
    }
  }

  lemma {:induction false} MayGo(before: Canonical, forks: seq<nat>, n: nat) returns (after: Canonical)
    requires before(n).Some? && !NoneBelow(forks, n)
    ensures Evolves(before, after, forks) && after(n) != before(n)
    decreases |forks|
  {
    var x := before(n).value;
    var mid := Replaced(before, forks[0], x);
    assert Reorganised(before, mid, forks[0]);
    if forks[0] < n {
      after := StaysAway(mid, forks[1..], n, x);
    } else {
      assert !NoneBelow(forks[1..], n) by {
        var i :| 0 <= i < |forks| && forks[i] < n;
        assert forks[1..][i - 1] == forks[i];
      }
      after := MayGo(mid, forks[1..], n);
    }
  }

  /** A block is sure to stay canonical if and only if no reorganisation forks below it. */
  lemma SureIff(before: Canonical, forks: seq<nat>, n: nat)
    requires before(n).Some?
    ensures SureCanonical(before, forks, n) <==> NoneBelow(forks, n)
  {
    if NoneBelow(forks, n) {
      forall after | Evolves(before, after, forks) ensures after(n) == before(n) {
        StaysCanonical(before, after, forks, n);
      }
    } else {
      var after := MayGo(before, forks, n);
    }
  }

  lemma SparedIff(forks: seq<nat>, size: nat, n: nat)
    requires size > 0
    ensures Spared(forks, size, n) <==> NoneBelow(forks, n * size)
  {
    forall i | 0 <= i < |forks| ensures Sections(forks[i], size) >= n <==> forks[i] >= n * size {
      var k := Sections(forks[i], size);
      if k >= n {
        Scaled(n, k, size);
      } else {
        Scaled(k + 1, n, size);
      }
    }
  }

  /** A section is recorded although its head need not be canonical any more, if and
      only if no reorganisation forked below the section but one announced after the
      last read forked below its last header. */
  lemma RecordedUnsureIff(before: Canonical, early: seq<nat>, late: seq<nat>, section: nat, size: nat)
    requires size > 0 && before(LastHeader(section, size)).Some?
    ensures var last := LastHeader(section, size);
      Spared(early + late, size, section) && !SureCanonical(before, late, last) <==>
      NoneBelow(early + late, section * size) && !NoneBelow(late, last)
  {
    SparedIff(early + late, size, section);
    SureIff(before, late, LastHeader(section, size));
  }

  /** A reorganisation announced after the last read leaves an abandoned head
      recorded if and only if it forks inside the section, below its last header. */
  lemma RecordedStaleIff(before: Canonical, after: Canonical, fork: nat, section: nat, size: nat)
    requires size > 0 && Reorganised(before, after, fork) && before(LastHeader(section, size)).Some?
    ensures var last := LastHeader(section, size);
      Spared([fork], size, section) && after(last) != before(last) <==> section * size <= fork < last
  {
    Step(section, size);
    SparedIff([fork], size, section);
    assert [fork][0] == fork;
  }

  lemma {:induction false} Scaled(m: nat, n: nat, size: nat)
    requires m <= n
    ensures m * size <= n * size
  {
    if m < n {
      Scaled(m, n - 1, size);
      Step(n - 1, size);
    }
  }

  // ---------- what the reads of one section find ----------

  /** The database files headers under their own numbers. */
  ghost predicate Stored(header: Hash -> BlockHeader, canonical: nat -> Option<Hash>, first: nat) {
    forall i: nat {:trigger canonical(i)} ::
      canonical(i).Some? ==> canonical(i).value != NO_HASH && header(canonical(i).value).number == first + i
  }

  function LastRead(canonical: nat -> Option<Hash>, from: Hash, n: nat): Hash {
    if n == 0 || canonical(n - 1).None? then from else canonical(n - 1).value
  }

  /** The first `n` reads succeed and each header is the child of the one before. */
  predicate Follows(header: Hash -> BlockHeader, canonical: nat -> Option<Hash>, from: Hash, n: nat) {
    n > 0 ==>
      Follows(header, canonical, from, n - 1) && canonical(n - 1).Some?
      && header(canonical(n - 1).value).parent == LastRead(canonical, from, n - 1)
  }

  lemma {:induction false} FollowsPrefix(header: Hash -> BlockHeader, canonical: nat -> Option<Hash>, from: Hash,
                                         k: nat, n: nat)
    requires k <= n
    ensures Follows(header, canonical, from, n) ==> Follows(header, canonical, from, k)
    decreases n
  {
    if k < n {
      FollowsPrefix(header, canonical, from, k, n - 1);
    }
  }

  lemma {:induction false} FollowsSpans(header: Hash -> BlockHeader, canonical: nat -> Option<Hash>, from: Hash,
                                        first: nat, n: nat)
    requires Stored(header, canonical, first) && Follows(header, canonical, from, n)
    ensures Spans(header, from, LastRead(canonical, from, n), first, n)
    ensures n > 0 ==> LastRead(canonical, from, n) != NO_HASH
    decreases n
  {
    if n > 0 {
      FollowsSpans(header, canonical, from, first, n - 1);
    }
  }
}
