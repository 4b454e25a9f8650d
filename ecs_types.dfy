/** The identifiers shared by the entity-component-system: an entity is an
    unsigned 32-bit number, and a signature is the set of component-type IDs
    whose bits are set in the entity's component bitset. */
module EcsTypes {
  const UINT32_LIMIT: nat := 0x1_0000_0000

  type Entity = nat

  /** `std::bitset<MAX_COMPONENTS>`, as the set of its set bits. */
  type Signature = set<nat>

  /** `(sig & s) == sig`: every bit of the system signature is set in `s`. */
  predicate Matches(systemSignature: Signature, s: Signature)
  {
    systemSignature <= s
  }

  /** The sequence 0, 1, ..., n-1. */
  function Range(n: nat): (r: seq<nat>)
    ensures |r| == n
    ensures forall i :: 0 <= i < n ==> r[i] == i
  {
    if n == 0 then [] else Range(n - 1) + [n - 1]
  }

  /** Two maps that are mutual inverses have the same number of entries. */
  lemma {:induction false} InverseMapsSameSize<A, B>(f: map<A, B>, g: map<B, A>)
    requires forall a :: a in f ==> f[a] in g && g[f[a]] == a
    requires forall b :: b in g ==> g[b] in f && f[g[b]] == b
    ensures |f| == |g|
    decreases |f|
  {
    if |f| != 0 {
      var a :| a in f;
      var b := f[a];
      var f' := f - {a};
      var g' := g - {b};
      forall a' | a' in f'
        ensures f'[a'] in g' && g'[f'[a']] == a'
      {
        assert f[a'] != b;
      }
      InverseMapsSameSize(f', g');
      assert |f'| == |f| - 1;
      assert |g'| == |g| - 1;
    }
  }

  /** A map whose keys are exactly 0, ..., n-1 has n entries. */
  lemma {:induction false} DenseKeysSize<V>(m: map<nat, V>, n: nat)
    requires forall i: nat :: i in m <==> i < n
    ensures |m| == n
  {
    if n != 0 {
      var m' := m - {n - 1};
      DenseKeysSize(m', n - 1);
    }
  }

  /** The smallest entity of a non-empty set. */
  ghost function Least(s: set<Entity>): (m: Entity)
    requires s != {}
    ensures m in s && forall x :: x in s ==> m <= x
    decreases |s|
  {
    var y :| y in s;
    var rest := s - {y};
    if rest == {} then
      assert forall x :: x in s ==> x in rest || x == y;
      y
    else
      var m := Least(rest);
      assert forall x :: x in s ==> x == y || x in rest;
      if y < m then y else m
  }

  /** Each entity greater than the one before it, so none repeats. */
  predicate StrictlyAscending(s: seq<Entity>)
  {
    forall i, j :: 0 <= i < j < |s| ==> s[i] < s[j]
  }

  /** The order a `std::set<Entity>` iterates in. */
  ghost function Ascending(s: set<Entity>): (r: seq<Entity>)
    ensures |r| == |s|
    decreases |s|
  {
    if s == {} then []
    else
      var m := Least(s);
      [m] + Ascending(s - {m})
  }

  /** The listing holds exactly the members of the set. */
  lemma {:induction false} AscendingMembers(s: set<Entity>)
    ensures forall x :: x in Ascending(s) <==> x in s
    decreases |s|
  {
    if s != {} {
      var m := Least(s);
      var rest := s - {m};
      AscendingMembers(rest);
      assert Ascending(s) == [m] + Ascending(rest);
      forall x
        ensures x in Ascending(s) <==> x in s
      {
        assert x in s <==> x == m || x in rest;
      }
    }
  }

  /** The listing is strictly ascending, so no member appears twice. */
  lemma {:induction false} AscendingSorted(s: set<Entity>)
    ensures StrictlyAscending(Ascending(s))
    decreases |s|
  {
    if s != {} {
      var m := Least(s);
      var rest := s - {m};
      var tail := Ascending(rest);
      AscendingSorted(rest);
      AscendingMembers(rest);
      assert Ascending(s) == [m] + tail;
      forall k | 0 <= k < |tail|
        ensures m < tail[k]
      {
        assert tail[k] in rest;
      }
    }
  }

  /** Taking the least entity off the front leaves the ascending order of
      the rest. */
  lemma AscendingStep(s: set<Entity>, e: Entity)
    requires e in s && forall x :: x in s ==> e <= x
    ensures Ascending(s) == [e] + Ascending(s - {e})
  {
    assert Least(s) == e;
  }

  lemma AppendAssociative<T>(a: seq<T>, b: seq<T>, c: seq<T>)
    ensures a + (b + c) == (a + b) + c
  {
  }

  /** Moving one element from the still-to-visit part of a set to the
      visited part. */
  lemma VisitOne<T>(all: set<T>, remaining: set<T>, e: T)
    requires e in remaining && remaining <= all
    ensures all - (remaining - {e}) == (all - remaining) + {e}
    ensures e !in all - remaining
    ensures remaining - {e} <= all && |remaining - {e}| == |remaining| - 1
  {
  }
}
