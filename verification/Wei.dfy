/** Account balances and their total. */
module Wei {
  import opened Prelude

  type Balances = map<Address, nat>

  function Get(m: map<Address, nat>, a: Address): nat {
    if a in m then m[a] else 0
  }

  /** All wei held by accounts. */
  ghost function Total(m: Balances): nat {
    if m == map[] then 0
    else
      var a :| a in m;
      m[a] + Total(m - {a})
  }

  lemma {:induction false} TotalRemove(m: Balances, a: Address)
    requires a in m
    ensures Total(m) == m[a] + Total(m - {a})
    decreases |m|
  {
    var b :| b in m && Total(m) == m[b] + Total(m - {b});
    if a != b {
      TotalRemove(m - {b}, a);
      TotalRemove(m - {a}, b);
      assert m - {a} - {b} == m - {b} - {a};
    }
  }

  /** Setting one balance changes the total by the difference. */
  lemma TotalSet(m: Balances, a: Address, v: nat)
    ensures Total(m[a := v]) == Total(m) - Get(m, a) + v
  {
    TotalRemove(m[a := v], a);
    if a in m {
      TotalRemove(m, a);
      assert m[a := v] - {a} == m - {a};
    } else {
      assert m[a := v] - {a} == m;
    }
  }
}
