/** `[...new Set(keys)]`: the key list with duplicates removed, each key kept
    at its first occurrence (used for the expanded keys). */
module Keys {
  import opened Types

  /** The keys of s, each once, in order of first occurrence. */
  function Distinct(s: seq<int>): (r: seq<int>)
    ensures NoDup(r)
    ensures forall k :: k in r <==> k in s
    ensures |r| <= |s|
  {
    if s == [] then []
    else
      var d, k := Distinct(s[..|s| - 1]), s[|s| - 1];
      assert forall x :: x in s <==> x in s[..|s| - 1] || x == k by {
        assert s == s[..|s| - 1] + [k];
      }
      if k in d then d else d + [k]
  }

  /** Adding keys never moves the ones already kept: the kept keys of a prefix
      are a prefix of the kept keys, so keys stay in first-occurrence order. */
  lemma {:induction false} DistinctPrefix(s: seq<int>, t: seq<int>)
    ensures Distinct(s) <= Distinct(s + t)
    decreases |t|
  {
    if t == [] {
      assert s + t == s;
    } else {
      var t' := t[..|t| - 1];
      assert (s + t)[..|s + t| - 1] == s + t';
      DistinctPrefix(s, t');
    }
  }

  /** A list that already has no duplicates is kept as it is. */
  lemma {:induction false} DistinctOfNoDup(s: seq<int>)
    requires NoDup(s)
    ensures Distinct(s) == s
  {
    if s != [] {
      var s' := s[..|s| - 1];
      assert NoDup(s');
      DistinctOfNoDup(s');
      assert s[|s| - 1] !in s';
      assert s == s' + [s[|s| - 1]];
    }
  }

  /** Deduplicating twice is the same as deduplicating once. */
  lemma DistinctIdempotent(s: seq<int>)
    ensures Distinct(Distinct(s)) == Distinct(s)
  {
    DistinctOfNoDup(Distinct(s));
  }

  /** Appending one key to a duplicate-free list: the key is kept at the end
      unless it is already there. */
  lemma AddKey(s: seq<int>, k: int)
    requires NoDup(s)
    ensures Distinct(s + [k]) == if k in s then s else s + [k]
  {
    DistinctOfNoDup(s);
    assert (s + [k])[..|s|] == s;
  }

  /** The dedup of handleExpand: one pass with a set of keys seen so far. */
  method Dedup(keys: seq<int>) returns (r: seq<int>)
    ensures r == Distinct(keys)
  {
    var seen: set<int> := {};
    r := [];
    for i := 0 to |keys|
      invariant r == Distinct(keys[..i])
      invariant forall k :: k in seen <==> k in r
    {
      assert keys[..i + 1][..i] == keys[..i];
      if keys[i] !in seen {
        r := r + [keys[i]];
        seen := seen + {keys[i]};
      }
    }
    assert keys[..|keys|] == keys;
  }
}
