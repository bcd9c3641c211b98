/** Process numbers: a new process gets the smallest positive number not in use. */
module Pids {

  function AtLeast(keys: set<int>, i: int): set<int> {
    set k | k in keys && k >= i
  }

  function FirstUnused(keys: set<int>, i: int): (r: int)
    ensures r >= i && r !in keys && forall k :: i <= k < r ==> k in keys
    decreases |AtLeast(keys, i)|
  {
    if i !in keys then i else
    AtLeastShrinks(keys, i);
    FirstUnused(keys, i + 1)
  }

  lemma AtLeastShrinks(keys: set<int>, i: int)
    requires i in keys
    ensures |AtLeast(keys, i + 1)| < |AtLeast(keys, i)|
  {
    assert AtLeast(keys, i) == AtLeast(keys, i + 1) + {i};
  }

  function NewPid(keys: set<int>): (r: int)
    ensures r >= 1 && r !in keys && forall k :: 1 <= k < r ==> k in keys
  {
    FirstUnused(keys, 1)
  }
}
