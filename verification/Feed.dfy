/**
  The event feed (event/feed.go): one sender delivers a value to every
  subscribed channel while other goroutines subscribe and unsubscribe.
 */
module Feeds {

  /** Channels are told apart by number; zero is the feed's own removeSub channel. */
  type Chan = nat
  const REMOVE_SUB: Chan := 0

  // ---------- case lists ----------

  /** The list without its element at `index`. */
  function Deleted(s: seq<Chan>, index: nat): (r: seq<Chan>)
    requires index < |s|
  {
    s[..index] + s[index + 1..]
  }

  /** The list with its element at `index` swapped to the end. */
  function Deactivated(s: seq<Chan>, index: nat): (r: seq<Chan>)
    requires index < |s|
  {
    s[index := s[|s| - 1]][|s| - 1 := s[index]]
  }

  lemma DeletedElements(s: seq<Chan>, index: nat)
    requires index < |s|
    ensures multiset(Deleted(s, index)) + multiset{s[index]} == multiset(s)
  {
    assert s == s[..index] + [s[index]] + s[index + 1..];
  }

  /** Position of the first case for the channel, or -1. */
  method Find(a: array<Chan>, n: nat, ch: Chan) returns (index: int)
    requires n <= a.Length
    ensures index == -1 <==> ch !in a[..n]
    ensures index != -1 ==> 0 <= index < n && a[index] == ch && ch !in a[..index]
  {
    for i := 0 to n
      invariant ch !in a[..i]
    {
      if a[i] == ch {
        return i;
      }
    }
    return -1;
  }

  /** Removes the case at `index` in place: the later ones move down by one. */
  method Delete(a: array<Chan>, n: nat, index: nat)
    requires index < n <= a.Length
    modifies a
    ensures a[..n - 1] == Deleted(old(a[..n]), index)
    ensures a[n - 1..] == old(a[n - 1..])
  {
    var i := index;
    while i < n - 1
      invariant index <= i <= n - 1
      invariant forall j :: 0 <= j < index ==> a[j] == old(a[j])
      invariant forall j :: index <= j < i ==> a[j] == old(a[j + 1])
      invariant forall j :: i <= j < a.Length ==> a[j] == old(a[j])
    {
      a[i] := a[i + 1];
      i := i + 1;
    }
  }

  /** Moves the case at `index` behind the end of the list. */
  method Deactivate(a: array<Chan>, n: nat, index: nat) returns (n': nat)
    requires index < n <= a.Length
    modifies a
    ensures n' == n - 1
    ensures a[..n] == Deactivated(old(a[..n]), index) && a[n..] == old(a[n..])
  {
    var last := n - 1;
    a[index], a[last] := a[last], a[index];
    return last;
  }

  /** Deactivating moves one element from the active part to the served part. */
  lemma DeactivatedElements(s: seq<Chan>, index: nat)
    requires 1 <= index < |s|
    ensures var d := Deactivated(s, index);
            && |d| == |s| && d[0] == s[0] && d[|s| - 1] == s[index]
            && multiset(d[1..|s| - 1]) + multiset{s[index]} == multiset(s[1..])
  {
    var d := Deactivated(s, index);
    var last := |s| - 1;
    if index == last {
      assert d == s;
      assert s[1..] == s[1..last] + [s[last]];
    } else {
      assert s[1..] == s[1..index] + [s[index]] + s[index + 1..last] + [s[last]];
      assert d[1..last] == s[1..index] + [s[last]] + s[index + 1..last];
    }
  }

  /** Slot zero receives cancellations, the other slots send. */
  predicate CasesOk(s: seq<Chan>) {
    |s| >= 1 && s[0] == REMOVE_SUB && REMOVE_SUB !in s[1..]
  }

  function Subs(s: seq<Chan>): multiset<Chan>
    requires |s| >= 1
  {
    multiset(s[1..])
  }

  lemma InSubs(s: seq<Chan>, ch: Chan)
    requires CasesOk(s) && ch in Subs(s)
    ensures ch in s && ch != REMOVE_SUB
  {
  }

  /** Deleting a case behind slot zero. */
  lemma DeletedCase(s: seq<Chan>, index: nat)
    requires CasesOk(s) && 1 <= index < |s|
    ensures CasesOk(Deleted(s, index))
    ensures Subs(Deleted(s, index)) == Subs(s) - multiset{s[index]}
  {
    var t := s[1..];
    assert Deleted(s, index)[1..] == Deleted(t, index - 1);
    DeletedElements(t, index - 1);
    assert forall x :: x in Deleted(t, index - 1) ==> x in t;
  }

  // ---------- the feed ----------

  class Feed {
    var buf: array<Chan>             // backing store of sendCases
    var n: nat                       // length of sendCases
    var inbox: seq<Chan>
    var waiting: multiset<Chan>      // unsubscribers blocked on removeSub
    var live: multiset<Chan>         // subscriptions not yet cancelled
    ghost var cancelled: multiset<Chan>  // every cancellation so far

    ghost predicate Valid()
      reads this, buf
    {
      && n <= buf.Length && CasesOk(buf[..n])
      && REMOVE_SUB !in inbox
      && Balanced(Subs(buf[..n]), multiset(inbox), live, waiting)
    }

    constructor ()
      ensures Valid() && fresh(buf) && n == 1 && inbox == [] && live == multiset{} && waiting == multiset{}
      ensures cancelled == multiset{}
    {
      buf := new Chan[1] [REMOVE_SUB];
      n, inbox, waiting, live, cancelled := 1, [], multiset{}, multiset{}, multiset{};
    }

    method Subscribe(ch: Chan)
      requires Valid() && ch != REMOVE_SUB
      modifies this`inbox, this`live
      ensures Valid() && inbox == old(inbox) + [ch] && live == old(live) + multiset{ch}
    {
      assert multiset(inbox + [ch]) == multiset(inbox) + multiset{ch};
      Subscribed(Subs(buf[..n]), multiset(inbox), live, waiting, ch);
      inbox := inbox + [ch];
      live := live + multiset{ch};
    }

    /** The first half of remove: a channel still in the inbox is deleted
        there, any other waits for a sender or for the send lock. */
    method Unsubscribe(ch: Chan)
      requires Valid() && ch in live
      modifies this`inbox, this`waiting, this`live, this`cancelled
      ensures Valid() && live == old(live) - multiset{ch} && cancelled == old(cancelled) + multiset{ch}
      ensures if ch in old(inbox) then waiting == old(waiting) && multiset(inbox) == multiset(old(inbox)) - multiset{ch}
              else inbox == old(inbox) && waiting == old(waiting) + multiset{ch}
    {
      ghost var send := Subs(buf[..n]);
      if ch in inbox {
        var i := FirstIndex(inbox, ch);
        DeletedElements(inbox, i);
        CancelledInbox(send, multiset(inbox), multiset(Deleted(inbox, i)), live, waiting, ch);
        assert forall x :: x in Deleted(inbox, i) ==> x in inbox;
        inbox := Deleted(inbox, i);
      } else {
        CancelledSending(send, multiset(inbox), live, waiting, ch);
        waiting := waiting + multiset{ch};
      }
      live := live - multiset{ch};
      cancelled := cancelled + multiset{ch};
    }

    /** Deletes the first case for the channel from sendCases. */
    method DeleteCase(ch: Chan) returns (index: nat)
      requires n <= buf.Length && CasesOk(buf[..n]) && ch in Subs(buf[..n])
      modifies this`n, buf
      ensures n == old(n) - 1 && 1 <= index < old(n) && old(buf[index]) == ch && ch !in old(buf[..index])
      ensures buf[..n] == Deleted(old(buf[..n]), index)
    {
      InSubs(buf[..n], ch);
      var i := Find(buf, n, ch);
      assert buf[..n][0] == buf[0];
      index := i;
      Delete(buf, n, index);
      n := n - 1;
    }

    /** The second half of remove, by the unsubscriber itself when no sender
        is at work, or else by the sender. */
    method RemoveWaiting(ch: Chan) returns (index: nat)
      requires Valid() && ch in waiting
      modifies this`n, this`waiting, buf
      ensures Valid() && n == old(n) - 1 && waiting == old(waiting) - multiset{ch}
      ensures 1 <= index < old(n) && old(buf[index]) == ch && buf[..n] == Deleted(old(buf[..n]), index)
    {
      ghost var s := buf[..n];
      Removed(Subs(s), multiset(inbox), live, waiting, ch);
      index := DeleteCase(ch);
      DeletedCase(s, index);
      assert Subs(buf[..n]) == Subs(s) - multiset{ch} && CasesOk(buf[..n]);
      waiting := waiting - multiset{ch};
    }

    /** What other goroutines may do at any moment of a Send: subscribe,
        and start to unsubscribe. */
    method Interfere()
      requires Valid()
      modifies this`inbox, this`waiting, this`live, this`cancelled
      ensures Valid() && Accounted(multiset{}, old(waiting), old(cancelled), multiset{}, waiting, cancelled)
    {
      var steps: int := *;
      AccountedSame(multiset{}, waiting, cancelled);
      while steps > 0
        invariant Valid() && Accounted(multiset{}, old(waiting), old(cancelled), multiset{}, waiting, cancelled)
      {
        steps := steps - 1;
        var subscribe: bool, ch: Chan := *, *;
        if subscribe && ch > REMOVE_SUB {
          Subscribe(ch);
        } else if live != multiset{} {
          var sub :| sub in live;
          ghost var w, c := waiting, cancelled;
          Unsubscribe(sub);
          AccountedCancel(w, c, waiting, sub);
          AccountedTrans(multiset{}, old(waiting), old(cancelled), multiset{}, w, c, multiset{}, waiting, cancelled);
        }
      }
    }

    /** Takes the inbox over into sendCases. */
    method Merge()
      requires Valid()
      modifies this`buf, this`n, this`inbox, buf
      ensures Valid() && inbox == [] && (buf == old(buf) || fresh(buf))
      ensures buf[..n] == old(buf[..n] + inbox)
    {
      ghost var s := buf[..n];
      var m := n + |inbox|;
      if m > buf.Length {
        var grown := new Chan[m](i requires 0 <= i < m reads this, buf =>
          if i < n && i < buf.Length then buf[i] else REMOVE_SUB);
        assert grown[..n] == s;
        buf := grown;
      }
      Append(buf, n, inbox);
      Merged(s, inbox, live, waiting);
      n := m;
      inbox := [];
    }

    /** The value leaves through the case at `index`, which moves to the served part. */
    method Serve(k: nat, index: nat, ghost t: Tally) returns (ghost t': Tally)
      requires Valid() && Sending(buf[..n], k, t) && 1 <= index < k
      modifies buf
      ensures Valid() && t' == t.(delivered := t.delivered + multiset{old(buf[index])})
      ensures Sending(buf[..n], k - 1, t')
    {
      ghost var s := buf[..n];
      Delivered(s, k, index, t);
      ServedCases(s, k, index);
      t' := t.(delivered := t.delivered + multiset{buf[index]});
      var k' := Deactivate(buf, k, index);
      assert buf[..n] == Served(s, k, index) by {
        assert buf[..n] == buf[..k] + buf[k..][..n - k];
      }
    }

    /** Tries every unserved channel without blocking. */
    method TryAll(k0: nat, ghost t0: Tally) returns (k: nat, sent: nat, ghost t: Tally)
      requires Valid() && Sending(buf[..n], k0, t0)
      modifies this`inbox, this`waiting, this`live, this`cancelled, buf
      ensures Valid() && Sending(buf[..n], k, t) && k <= k0
      ensures t.all == t0.all && t.Lost() == t0.Lost() && |t.delivered| == |t0.delivered| + sent
      ensures Accounted(multiset{}, old(waiting), old(cancelled), multiset{}, waiting, cancelled)
    {
      k, sent, t := k0, 0, t0;
      AccountedSame(multiset{}, waiting, cancelled);
      var i := 1;
      while i < k
        invariant Valid() && 1 <= i <= k <= k0
        invariant Sending(buf[..n], k, t) && t.all == t0.all && t.Lost() == t0.Lost()
        invariant |t.delivered| == |t0.delivered| + sent
        invariant Accounted(multiset{}, old(waiting), old(cancelled), multiset{}, waiting, cancelled)
        decreases k - i
      {
        ghost var w, c := waiting, cancelled;
        Interfere();
        AccountedTrans(multiset{}, old(waiting), old(cancelled), multiset{}, w, c, multiset{}, waiting, cancelled);
        var accepted: bool := *;
        if accepted {
          t := Serve(k, i, t);
          k, sent := k - 1, sent + 1;
        } else {
          i := i + 1;
        }
      }
    }

    /** A blocked unsubscriber gets through: its case is deleted. */
    method TakeRemoval(k0: nat, ch: Chan, ghost t0: Tally) returns (k: nat, ghost t: Tally)
      requires Valid() && Sending(buf[..n], k0, t0) && ch in waiting
      modifies this`n, this`waiting, buf
      ensures Valid() && Sending(buf[..n], k, t) && n == old(n) - 1 && k <= k0
      ensures t.all == t0.all && t.delivered == t0.delivered && cancelled == old(cancelled)
      ensures Accounted(t0.Lost(), old(waiting), cancelled, t.Lost(), waiting, cancelled)
    {
      Cancelled(buf[..n], k0, t0);
      ghost var w := waiting;
      var index := RemoveWaiting(ch);
      AccountedRemoval(t0, w, cancelled, k0, index, ch);
      k := if index < k0 then k0 - 1 else k0;
      t := CutTally(t0, k0, index, ch);
    }

    /** Tries and waits in turn until only slot zero, which takes cancellations, is left. */
    method SendLoop(k0: nat, ghost t0: Tally) returns (nsent: nat, ghost t: Tally)
      requires Valid() && Sending(buf[..n], k0, t0)
      modifies this`n, this`inbox, this`waiting, this`live, this`cancelled, buf
      ensures Valid() && Sending(buf[..n], 1, t)
      ensures t.all == t0.all && |t.delivered| == |t0.delivered| + nsent
      ensures Accounted(t0.Lost(), old(waiting), old(cancelled), t.Lost(), waiting, cancelled)
    {
      var k := k0;
      nsent, t := 0, t0;
      AccountedSame(t.Lost(), waiting, cancelled);
      while true
        invariant Valid() && Sending(buf[..n], k, t) && t.all == t0.all && |t.delivered| == |t0.delivered| + nsent
        invariant Accounted(t0.Lost(), old(waiting), old(cancelled), t.Lost(), waiting, cancelled)
        decreases n + k
      {
        ghost var l, w, c := t.Lost(), waiting, cancelled;
        var sent;
        k, sent, t := TryAll(k, t);
        AccountedTrans(t0.Lost(), old(waiting), old(cancelled), l, w, c, l, waiting, cancelled);
        nsent := nsent + sent;
        if k == 1 {
          break;
        }
        w, c := waiting, cancelled;
        k, sent, t := Select(k, t);
        AccountedTrans(t0.Lost(), old(waiting), old(cancelled), l, w, c, t.Lost(), waiting, cancelled);
        nsent := nsent + sent;
      }
    }

    /** Blocks until a receiver or an unsubscriber is ready. */
    method Select(k0: nat, ghost t0: Tally) returns (k: nat, sent: nat, ghost t: Tally)
      requires Valid() && Sending(buf[..n], k0, t0) && k0 > 1
      modifies this`n, this`inbox, this`waiting, this`live, this`cancelled, buf
      ensures Valid() && Sending(buf[..n], k, t) && n + k < old(n) + k0
      ensures t.all == t0.all && |t.delivered| == |t0.delivered| + sent
      ensures Accounted(t0.Lost(), old(waiting), old(cancelled), t.Lost(), waiting, cancelled)
    {
      ghost var l := t0.Lost();
      AccountedSame(l, waiting, cancelled);
      Interfere();
      AccountedTrans(l, old(waiting), old(cancelled), l, old(waiting), old(cancelled), l, waiting, cancelled);
      var unsubscribed: bool := *;
      if unsubscribed && waiting != multiset{} {
        var ch :| ch in waiting;
        ghost var w := waiting;
        k, t := TakeRemoval(k0, ch, t0);
        sent := 0;
        AccountedTrans(l, old(waiting), old(cancelled), l, w, cancelled, t.Lost(), waiting, cancelled);
      } else {
        var chosen :| 1 <= chosen < k0;
        t := Serve(k0, chosen, t0);
        k, sent := k0 - 1, 1;
      }
    }

    /** Delivers to every subscribed channel, while others subscribe and
        unsubscribe at any moment. Each subscription present at the start is
        delivered to exactly once unless it is cancelled first, and the
        count returned is the number of deliveries. */
    method Send() returns (nsent: nat, ghost t: Tally)
      requires Valid()
      modifies this, buf
      ensures Valid()
      ensures t.all == old(Subs(buf[..n] + inbox)) && nsent == |t.delivered|
      ensures forall ch :: t.delivered[ch] + t.skipped[ch] == t.all[ch]
      ensures forall ch :: Subs(buf[..n])[ch] + t.gone[ch] == t.delivered[ch]
      ensures forall ch :: t.skipped[ch] + t.gone[ch] + old(cancelled[ch]) <= old(waiting[ch]) + cancelled[ch]
    {
      Merge();
      ghost var t0 := Tally(Subs(buf[..n]), multiset{}, multiset{}, multiset{});
      SendStarts(buf[..n], n);
      nsent, t := SendLoop(n, t0);
      AllServed(buf[..n], t);
      forall ch ensures t.skipped[ch] + t.gone[ch] + old(cancelled[ch]) <= old(waiting[ch]) + cancelled[ch] {
        assert AccountedAt(t0.Lost(), old(waiting), old(cancelled), t.Lost(), waiting, cancelled, ch);
      }
    }
  }

  /** Writes `xs` behind the first `n` elements. */
  method Append(a: array<Chan>, n: nat, xs: seq<Chan>)
    requires n + |xs| <= a.Length
    modifies a
    ensures a[..n + |xs|] == old(a[..n]) + xs
  {
    for j := 0 to |xs|
      invariant a[..n] == old(a[..n]) && a[n..n + j] == xs[..j]
    {
      a[n + j] := xs[j];
    }
  }

  /** The list after the case at `index` of its first `k` has been deactivated. */
  function Served(s: seq<Chan>, k: nat, index: nat): seq<Chan>
    requires index < k <= |s|
  {
    Deactivated(s[..k], index) + s[k..]
  }

  /** The fate of the subscriptions a Send started with: delivered to,
      cancelled before that, and cancelled after that. */
  datatype Tally = Tally(all: multiset<Chan>, delivered: multiset<Chan>, skipped: multiset<Chan>,
                         gone: multiset<Chan>) {
    function Lost(): multiset<Chan> {
      skipped + gone
    }
  }

  /** Nothing is lost but to cancellations: those that were waiting and those made since. */
  ghost predicate Accounted(lost: multiset<Chan>, waiting: multiset<Chan>, cancelled: multiset<Chan>,
                            lost': multiset<Chan>, waiting': multiset<Chan>, cancelled': multiset<Chan>) {
    forall x {:trigger AccountedAt(lost, waiting, cancelled, lost', waiting', cancelled', x)} ::
      AccountedAt(lost, waiting, cancelled, lost', waiting', cancelled', x)
  }

  predicate AccountedAt(lost: multiset<Chan>, waiting: multiset<Chan>, cancelled: multiset<Chan>,
                        lost': multiset<Chan>, waiting': multiset<Chan>, cancelled': multiset<Chan>, x: Chan) {
    lost'[x] + waiting'[x] + cancelled[x] <= lost[x] + waiting[x] + cancelled'[x]
  }

  lemma AccountedSame(lost: multiset<Chan>, waiting: multiset<Chan>, cancelled: multiset<Chan>)
    ensures Accounted(lost, waiting, cancelled, lost, waiting, cancelled)
  {
    forall x ensures AccountedAt(lost, waiting, cancelled, lost, waiting, cancelled, x) { }
  }

  /** Accounts add up over consecutive steps; a step that loses nothing can follow any other. */
  lemma AccountedTrans(l0: multiset<Chan>, w0: multiset<Chan>, c0: multiset<Chan>, l1: multiset<Chan>,
                       w1: multiset<Chan>, c1: multiset<Chan>,
                       l2: multiset<Chan>, w2: multiset<Chan>, c2: multiset<Chan>)
    requires Accounted(l0, w0, c0, l1, w1, c1)
    requires Accounted(l1, w1, c1, l2, w2, c2) || (l2 == l1 && Accounted(multiset{}, w1, c1, multiset{}, w2, c2))
    ensures Accounted(l0, w0, c0, l2, w2, c2)
  {
    forall x ensures AccountedAt(l0, w0, c0, l2, w2, c2, x) {
      assert AccountedAt(l0, w0, c0, l1, w1, c1, x);
      assert AccountedAt(l1, w1, c1, l2, w2, c2, x) || AccountedAt(multiset{}, w1, c1, multiset{}, w2, c2, x);
    }
  }

  lemma AccountedCancel(waiting: multiset<Chan>, cancelled: multiset<Chan>, waiting': multiset<Chan>, ch: Chan)
    requires waiting' == waiting || waiting' == waiting + multiset{ch}
    ensures Accounted(multiset{}, waiting, cancelled, multiset{}, waiting', cancelled + multiset{ch})
  {
    forall x ensures AccountedAt(multiset{}, waiting, cancelled, multiset{}, waiting', cancelled + multiset{ch}, x) { }
  }

  lemma AccountedRemoval(t: Tally, waiting: multiset<Chan>, cancelled: multiset<Chan>, k: nat, index: nat, ch: Chan)
    requires ch in waiting
    ensures Accounted(t.Lost(), waiting, cancelled, CutTally(t, k, index, ch).Lost(), waiting - multiset{ch}, cancelled)
  {
    var t' := CutTally(t, k, index, ch);
    forall x ensures AccountedAt(t.Lost(), waiting, cancelled, t'.Lost(), waiting - multiset{ch}, cancelled, x) { }
  }

  /** The first `k` cases are unserved, the others are served and still subscribed. */
  ghost predicate Sending(s: seq<Chan>, k: nat, t: Tally) {
    1 <= k <= |s| && SendingParts(multiset(s[1..k]), multiset(s[k..]), t)
  }

  ghost predicate SendingParts(unserved: multiset<Chan>, served: multiset<Chan>, t: Tally) {
    forall x {:trigger PartsAt(unserved, served, t, x)} :: PartsAt(unserved, served, t, x)
  }

  predicate PartsAt(unserved: multiset<Chan>, served: multiset<Chan>, t: Tally, x: Chan) {
    unserved[x] + t.delivered[x] + t.skipped[x] == t.all[x] && served[x] + t.gone[x] == t.delivered[x]
  }

  lemma SendStarts(s: seq<Chan>, k: nat)
    requires k == |s| >= 1
    ensures Sending(s, k, Tally(Subs(s), multiset{}, multiset{}, multiset{}))
  {
    assert s[1..k] == s[1..] && s[k..] == [];
    var t := Tally(Subs(s), multiset{}, multiset{}, multiset{});
    forall x ensures PartsAt(multiset(s[1..k]), multiset(s[k..]), t, x) { }
  }

  /** One case moves from the unserved to the served part. */
  lemma Delivered(s: seq<Chan>, k: nat, index: nat, t: Tally)
    requires Sending(s, k, t) && 1 <= index < k
    ensures |Served(s, k, index)| == |s|
    ensures Sending(Served(s, k, index), k - 1, t.(delivered := t.delivered + multiset{s[index]}))
  {
    var s', t' := Served(s, k, index), t.(delivered := t.delivered + multiset{s[index]});
    DeactivatedElements(s[..k], index);
    assert s'[1..k - 1] == Deactivated(s[..k], index)[1..k - 1] && s[..k][1..] == s[1..k];
    assert s'[k - 1..] == [s[index]] + s[k..];
    var u, v := multiset(s[1..k]), multiset(s[k..]);
    var u', v' := multiset(s'[1..k - 1]), multiset(s'[k - 1..]);
    assert u' + multiset{s[index]} == u;
    assert v' == multiset([s[index]]) + v;
    forall x ensures PartsAt(u', v', t', x) {
      assert PartsAt(u, v, t, x);
      assert (u' + multiset{s[index]})[x] == u[x];
    }
  }

  lemma SameElements(s: seq<Chan>, s': seq<Chan>, x: Chan)
    requires multiset(s') == multiset(s) && x !in s
    ensures x !in s'
  {
    assert x !in multiset(s');
  }

  /** Deactivating keeps the set of cases and slot zero. */
  lemma ServedCases(s: seq<Chan>, k: nat, index: nat)
    requires CasesOk(s) && 1 <= index < k <= |s|
    ensures CasesOk(Served(s, k, index)) && Subs(Served(s, k, index)) == Subs(s)
  {
    var s', d := Served(s, k, index), Deactivated(s[..k], index);
    DeactivatedElements(s[..k], index);
    var active, served := d[1..k - 1] + [s[index]], s[k..];
    assert s'[1..] == active + served;
    assert s[1..] == s[..k][1..] + served;
    assert multiset(active) == multiset(s[..k][1..]);
    assert multiset(active + served) == multiset(active) + multiset(served);
    SameElements(s[1..], s'[1..], REMOVE_SUB);
  }

  lemma CancelledUnserved(s: seq<Chan>, k: nat, index: nat, t: Tally)
    requires Sending(s, k, t) && 1 <= index < k
    ensures Sending(Deleted(s, index), k - 1, t.(skipped := t.skipped + multiset{s[index]}))
  {
    var s', t' := Deleted(s, index), t.(skipped := t.skipped + multiset{s[index]});
    assert s'[1..k - 1] == Deleted(s[1..k], index - 1) && s'[k - 1..] == s[k..];
    DeletedElements(s[1..k], index - 1);
    var u, v := multiset(s[1..k]), multiset(s[k..]);
    var u' := multiset(s'[1..k - 1]);
    forall x ensures PartsAt(u', v, t', x) {
      assert PartsAt(u, v, t, x);
      assert (u' + multiset{s[index]})[x] == u[x];
    }
  }

  lemma CancelledServed(s: seq<Chan>, k: nat, index: nat, t: Tally)
    requires Sending(s, k, t) && k <= index < |s|
    ensures Sending(Deleted(s, index), k, t.(gone := t.gone + multiset{s[index]}))
  {
    var s', t' := Deleted(s, index), t.(gone := t.gone + multiset{s[index]});
    assert s'[1..k] == s[1..k] && s'[k..] == Deleted(s[k..], index - k);
    DeletedElements(s[k..], index - k);
    var u, v := multiset(s[1..k]), multiset(s[k..]);
    var v' := multiset(s'[k..]);
    forall x ensures PartsAt(u, v', t', x) {
      assert PartsAt(u, v, t, x);
      assert (v' + multiset{s[index]})[x] == v[x];
    }
  }

  /** The tally after the case at `index` has been cancelled, `k` being unserved. */
  function CutTally(t: Tally, k: nat, index: nat, ch: Chan): Tally {
    if index < k then t.(skipped := t.skipped + multiset{ch}) else t.(gone := t.gone + multiset{ch})
  }

  /** A cancellation at any place keeps the account. */
  lemma Cancelled(s: seq<Chan>, k: nat, t: Tally)
    requires Sending(s, k, t)
    ensures forall index: nat {:trigger Deleted(s, index)} :: 1 <= index < |s| ==>
              Sending(Deleted(s, index), if index < k then k - 1 else k, CutTally(t, k, index, s[index]))
  {
    forall index: nat | 1 <= index < |s|
      ensures Sending(Deleted(s, index), if index < k then k - 1 else k, CutTally(t, k, index, s[index]))
    {
      if index < k {
        CancelledUnserved(s, k, index, t);
      } else {
        CancelledServed(s, k, index, t);
      }
    }
  }

  /** When no unserved case is left every subscription is accounted for. */
  lemma AllServed(s: seq<Chan>, t: Tally)
    requires Sending(s, 1, t)
    ensures forall x :: t.delivered[x] + t.skipped[x] == t.all[x]
    ensures forall x :: Subs(s)[x] + t.gone[x] == t.delivered[x]
  {
    assert s[1..1] == [];
    forall x ensures t.delivered[x] + t.skipped[x] == t.all[x] && Subs(s)[x] + t.gone[x] == t.delivered[x] {
      assert PartsAt(multiset(s[1..1]), multiset(s[1..]), t, x);
    }
  }

  lemma Merged(s: seq<Chan>, inbox: seq<Chan>, live: multiset<Chan>, waiting: multiset<Chan>)
    requires CasesOk(s) && REMOVE_SUB !in inbox && Balanced(Subs(s), multiset(inbox), live, waiting)
    ensures CasesOk(s + inbox) && Balanced(Subs(s + inbox), multiset{}, live, waiting)
  {
    assert (s + inbox)[1..] == s[1..] + inbox;
    forall x ensures BalancedAt(Subs(s + inbox), multiset{}, live, waiting, x) {
      assert BalancedAt(Subs(s), multiset(inbox), live, waiting, x);
    }
  }

  /** Subscriptions and waiting cancellations account for every case, and
      every waiting cancellation is for a case in sendCases. */
  ghost predicate Balanced(send: multiset<Chan>, box: multiset<Chan>, live: multiset<Chan>, waiting: multiset<Chan>) {
    forall x {:trigger BalancedAt(send, box, live, waiting, x)} :: BalancedAt(send, box, live, waiting, x)
  }

  predicate BalancedAt(send: multiset<Chan>, box: multiset<Chan>, live: multiset<Chan>, waiting: multiset<Chan>,
                       x: Chan) {
    send[x] + box[x] == live[x] + waiting[x] && waiting[x] <= send[x]
  }

  lemma Subscribed(send: multiset<Chan>, box: multiset<Chan>, live: multiset<Chan>, waiting: multiset<Chan>, ch: Chan)
    requires Balanced(send, box, live, waiting)
    ensures Balanced(send, box + multiset{ch}, live + multiset{ch}, waiting)
  {
    forall x ensures BalancedAt(send, box + multiset{ch}, live + multiset{ch}, waiting, x) {
      assert BalancedAt(send, box, live, waiting, x);
    }
  }

  lemma CancelledInbox(send: multiset<Chan>, box: multiset<Chan>, box': multiset<Chan>, live: multiset<Chan>,
                       waiting: multiset<Chan>, ch: Chan)
    requires Balanced(send, box, live, waiting) && box' + multiset{ch} == box && ch in live
    ensures Balanced(send, box', live - multiset{ch}, waiting)
    ensures box' == box - multiset{ch}
  {
    forall x ensures BalancedAt(send, box', live - multiset{ch}, waiting, x) {
      assert BalancedAt(send, box, live, waiting, x);
      assert (box' + multiset{ch})[x] == box[x];
    }
  }

  /** A cancellation that is not in the inbox has its case in sendCases. */
  lemma CancelledSending(send: multiset<Chan>, box: multiset<Chan>, live: multiset<Chan>, waiting: multiset<Chan>,
                         ch: Chan)
    requires Balanced(send, box, live, waiting) && ch !in box && ch in live
    ensures Balanced(send, box, live - multiset{ch}, waiting + multiset{ch})
  {
    forall x ensures BalancedAt(send, box, live - multiset{ch}, waiting + multiset{ch}, x) {
      assert BalancedAt(send, box, live, waiting, x);
    }
  }

  lemma Removed(send: multiset<Chan>, box: multiset<Chan>, live: multiset<Chan>, waiting: multiset<Chan>, ch: Chan)
    requires Balanced(send, box, live, waiting) && ch in waiting
    ensures ch in send
    ensures Balanced(send - multiset{ch}, box, live, waiting - multiset{ch})
  {
    assert BalancedAt(send, box, live, waiting, ch);
    forall x ensures BalancedAt(send - multiset{ch}, box, live, waiting - multiset{ch}, x) {
      assert BalancedAt(send, box, live, waiting, x);
    }
  }

  method FirstIndex(s: seq<Chan>, ch: Chan) returns (i: nat)
    requires ch in s
    ensures i < |s| && s[i] == ch && ch !in s[..i]
  {
    i := 0;
    while s[i] != ch
      invariant i < |s| && ch !in s[..i]
      invariant ch in s[i..]
      decreases |s| - i
    {
      i := i + 1;
    }
  }
}
