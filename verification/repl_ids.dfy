/** Repl id allocation: `randomReplId` and the retry loop of `startRepl`. */
module ReplIds {
  import opened Options
  import opened ReplState

  /** `randomReplId`: the floor of a random number in [0, 1) times 9999,
      with the random number taken as the exact fraction num/den. */
  function RandomReplId(num: nat, den: nat): (id: int)
    requires num < den
    ensures 0 <= id < IdSpace
    ensures id * den <= num * IdSpace < (id + 1) * den
  {
    var q := (num * IdSpace) / den;
    DivisionBounds(num * IdSpace, den);
    ScaledBelow(num, den);
    ProductCancel(q, IdSpace, den);
    q
  }

  lemma DivisionBounds(a: nat, b: nat)
    requires b > 0
    ensures (a / b) * b <= a < (a / b + 1) * b
  {
  }

  lemma ScaledBelow(num: nat, den: nat)
    requires num < den
    ensures num * IdSpace < den * IdSpace
  {
  }

  lemma ProductCancel(q: int, k: int, den: nat)
    requires den > 0 && q * den < k * den
    ensures q < k
  {
    assert q * den - k * den == (q - k) * den;
  }

  /** Every id of the id space is a possible draw. */
  lemma EveryIdDrawable(id: ReplDraw)
    ensures RandomReplId(id, IdSpace) == id
  {
  }

  /** The retry loop run over a finite prefix of draws: the index of the
      first draw that is not in use, or None when every draw so far
      collided and the loop is still running. */
  function FirstFree(draws: seq<ReplDraw>, used: set<int>): (r: Option<nat>)
    ensures r.Some? ==> r.value < |draws| && draws[r.value] !in used
    ensures r.Some? ==> forall j :: 0 <= j < r.value ==> draws[j] in used
    ensures r.None? <==> forall j :: 0 <= j < |draws| ==> draws[j] in used
  {
    if |draws| == 0 then None
    else if draws[0] !in used then Some(0)
    else match FirstFree(draws[1..], used)
      case None => None
      case Some(k) => Some(k + 1)
  }

  /** The ids 0 .. n-1, as a set. */
  function IdRange(n: nat): (r: set<int>)
    ensures forall i :: i in r <==> 0 <= i < n
    ensures |r| == n
  {
    if n == 0 then {} else IdRange(n - 1) + {n - 1}
  }

  /** The table never holds more ids than the id space has. */
  lemma RegistryBounded(s: Supervisor)
    requires Valid(s)
    ensures |s.repls| <= IdSpace
  {
    KeysBelowBound(s.repls.Keys, IdSpace);
  }

  /** A set of ids below n has at most n elements. */
  lemma KeysBelowBound(keys: set<int>, n: nat)
    requires forall id :: id in keys ==> 0 <= id < n
    ensures |keys| <= n
  {
    SubsetCardinality(keys, IdRange(n));
  }

  /** A set holding every id below n has at least n elements. */
  lemma KeysCoverBound(keys: set<int>, n: nat)
    requires forall id :: 0 <= id < n ==> id in keys
    ensures n <= |keys|
  {
    SubsetCardinality(IdRange(n), keys);
  }

  lemma SubsetCardinality(a: set<int>, b: set<int>)
    requires a <= b
    ensures |a| <= |b|
  {
    assert b == a + (b - a);
  }

  /** While fewer than IdSpace ids are in use, some draw is free. */
  lemma FreeIdExists(s: Supervisor)
    requires Valid(s) && |s.repls| < IdSpace
    ensures exists d: ReplDraw :: d !in s.repls
  {
    if forall d: ReplDraw :: d in s.repls {
      KeysCoverBound(s.repls.Keys, IdSpace);
      assert false;
    }
  }

  /** With all IdSpace ids in use every draw collides, so the retry loop
      never ends. */
  lemma FullRegistryRejectsEveryDraw(s: Supervisor, d: ReplDraw)
    requires Valid(s) && |s.repls| == IdSpace
    ensures d in s.repls
  {
    if d !in s.repls {
      KeysMissingOne(s.repls.Keys, d, IdSpace);
    }
  }

  /** A set of ids below n that misses one of them has fewer than n
      elements. */
  lemma KeysMissingOne(keys: set<int>, d: int, n: nat)
    requires forall id :: id in keys ==> 0 <= id < n
    requires 0 <= d < n && d !in keys
    ensures |keys| < n
  {
    var rest := IdRange(n) - {d};
    assert IdRange(n) == rest + {d};
    SubsetCardinality(keys, rest);
  }
}
