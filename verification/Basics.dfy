/** Vocabulary shared by every module: addresses, storage mappings and finite sums. */
module Basics {
  /** Addresses only ever get compared with each other and with zero. */
  type Address = int

  /** The zero address. */
  const ZERO: Address := 0

  /** A storage mapping read: absent keys hold the default value. */
  function At<K, V>(m: map<K, V>, k: K, default: V): V {
    if k in m then m[k] else default
  }

  /** How an external call, or an internal one it depends on, ends. A call that
      does not succeed reverts, either with a reason string or with a panic
      (checked arithmetic, array bounds). */
  datatype Outcome = Success | Reverted | Panicked

  datatype Option<T> = None | Some(value: T)

  lemma PickFrom<T>(s: set<T>) returns (x: T)
    requires s != {}
    ensures x in s
  {
    x :| x in s;
  }

  lemma NonEmpty(s: set<Address>)
    requires s != {}
    ensures exists x :: x in s
  {
    var x := PickFrom(s);
  }

  /** The sum of `f` over a finite set of accounts. */
  ghost function Sum(s: set<Address>, f: Address -> int): int {
    if s == {} then 0 else NonEmpty(s); var x :| x in s; f(x) + Sum(s - {x}, f)
  }

  /** Any element can be taken out of the sum first. */
  lemma {:induction false} SumTake(s: set<Address>, f: Address -> int, y: Address)
    requires y in s
    ensures Sum(s, f) == f(y) + Sum(s - {y}, f)
    decreases s
  {
    NonEmpty(s);
    var x :| x in s && Sum(s, f) == f(x) + Sum(s - {x}, f);
    if x != y {
      SumTake(s - {x}, f, y);
      SumTake(s - {y}, f, x);
      assert s - {x} - {y} == s - {y} - {x};
    }
  }

  /** The sum only depends on the values the function takes on the set. */
  lemma {:induction false} SumSame(s: set<Address>, f: Address -> int, g: Address -> int)
    requires forall x :: x in s ==> f(x) == g(x)
    ensures Sum(s, f) == Sum(s, g)
    decreases s
  {
    if s != {} {
      var x := PickFrom(s);
      SumTake(s, f, x);
      SumTake(s, g, x);
      SumSame(s - {x}, f, g);
    }
  }

  lemma {:induction false} SumAtMost(s: set<Address>, f: Address -> int, g: Address -> int)
    requires forall x :: x in s ==> f(x) <= g(x)
    ensures Sum(s, f) <= Sum(s, g)
    decreases s
  {
    if s != {} {
      var x := PickFrom(s);
      SumTake(s, f, x);
      SumTake(s, g, x);
      SumAtMost(s - {x}, f, g);
    }
  }

  /** Changing the function at one point, which may be a new one, changes the sum
      by that much. */
  lemma SumChange(s: set<Address>, f: Address -> int, g: Address -> int, y: Address)
    requires forall x :: x in s && x != y ==> f(x) == g(x)
    requires y !in s ==> f(y) == 0
    ensures Sum(s + {y}, g) - Sum(s, f) == g(y) - f(y)
  {
    hide Sum;
    assert s + {y} - {y} == s - {y};
    SumTake(s + {y}, g, y);
    SumSame(s - {y}, f, g);
    if y in s { SumTake(s, f, y); } else { assert s - {y} == s; }
  }

  lemma {:induction false} SumPlus(s: set<Address>, f: Address -> int, g: Address -> int, h: Address -> int)
    requires forall x :: x in s ==> h(x) == f(x) + g(x)
    ensures Sum(s, h) == Sum(s, f) + Sum(s, g)
    decreases s
  {
    if s != {} {
      var x := PickFrom(s);
      SumTake(s, f, x);
      SumTake(s, g, x);
      SumTake(s, h, x);
      SumPlus(s - {x}, f, g, h);
    }
  }

  lemma {:induction false} SumOfThree(s: set<Address>, f: Address -> int, g: Address -> int, h: Address -> int,
      all: Address -> int)
    requires forall x :: x in s ==> all(x) == f(x) + g(x) + h(x)
    ensures Sum(s, all) == Sum(s, f) + Sum(s, g) + Sum(s, h)
    decreases s
  {
    if s != {} {
      var x := PickFrom(s);
      SumTake(s, f, x);
      SumTake(s, g, x);
      SumTake(s, h, x);
      SumTake(s, all, x);
      SumOfThree(s - {x}, f, g, h, all);
    }
  }
}
