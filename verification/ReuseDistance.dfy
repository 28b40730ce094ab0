/** Least-recently-used sets on values: recency stacks and reuse distance. */
module ReuseDistance {
  import opened Words

  function Remove(l: seq<nat>, t: nat): seq<nat> {
    if l == [] then [] else if l[0] == t then l[1..] else [l[0]] + Remove(l[1..], t)
  }

  function Take(l: seq<nat>, n: nat): seq<nat> {
    if n < |l| then l[..n] else l
  }

  /** One set of an LRU cache, most recent first: a hit moves to the front; a miss evicts the last. */
  function Touch(l: seq<nat>, ways: nat, t: nat): seq<nat>
    requires ways > 0
  {
    [t] + if t in l then Remove(l, t) else Take(l, ways - 1)
  }

  /** The set after a history of tags, oldest first. */
  function Held(h: seq<nat>, ways: nat): seq<nat>
    requires ways > 0
  {
    if h == [] then [] else Touch(Held(h[..|h| - 1], ways), ways, h[|h| - 1])
  }

  /** All tags of a history, most recent first: a set with no bound. */
  function Recent(h: seq<nat>): seq<nat> {
    if h == [] then [] else [h[|h| - 1]] + Remove(Recent(h[..|h| - 1]), h[|h| - 1])
  }

  /** The distinct tags accessed since the last access to t. */
  function Since(h: seq<nat>, t: nat): set<nat> {
    if h == [] || h[|h| - 1] == t then {} else {h[|h| - 1]} + Since(h[..|h| - 1], t)
  }

  lemma {:induction false} RemoveMeans(l: seq<nat>, t: nat)
    requires Distinct(l)
    ensures var r := Remove(l, t);
      && Distinct(r) && t !in r && (forall x :: x != t ==> (x in r <==> x in l))
    decreases |l|
  {
    if l != [] && l[0] != t {
      RemoveMeans(l[1..], t);
      assert l == [l[0]] + l[1..];
      assert l[0] !in Remove(l[1..], t);
    }
  }

  lemma {:induction false} RemoveWithin(l: seq<nat>, t: nat, k: nat)
    requires k <= |l| && t in l[..k]
    ensures |Remove(l[..k], t)| == k - 1 && Remove(l, t) == Remove(l[..k], t) + l[k..]
    decreases |l|
  {
    if l[0] == t {
      assert l[..k][1..] + l[k..] == l[1..];
    } else {
      assert l[..k] == [l[0]] + l[1..][..k - 1];
      assert l[1..][k - 1..] == l[k..];
      RemoveWithin(l[1..], t, k - 1);
    }
  }

  lemma {:induction false} RemoveBeyond(l: seq<nat>, t: nat, k: nat)
    requires k <= |l| && t !in l[..k]
    ensures Remove(l, t) == l[..k] + Remove(l[k..], t)
    decreases |l|
  {
    if k == 0 {
      assert l[0..] == l;
    } else {
      assert l[..k] == [l[0]] + l[1..][..k - 1];
      assert l[1..][k - 1..] == l[k..];
      RemoveBeyond(l[1..], t, k - 1);
    }
  }

  /** Removing a tag changes a list only at and below the tag. */
  lemma RemoveSplits(l: seq<nat>, t: nat, k: nat)
    requires k <= |l|
    ensures t in l[..k] ==> k > 0 && Take(Remove(l, t), k - 1) == Remove(l[..k], t) && |Remove(l[..k], t)| == k - 1
    ensures t in l[..k] ==> Remove(l, t) == Remove(l[..k], t) + l[k..]
    ensures t !in l[..k] ==> Remove(l, t) == l[..k] + Remove(l[k..], t)
  {
    hide Remove;
    if t in l[..k] {
      RemoveWithin(l, t, k);
    } else {
      RemoveBeyond(l, t, k);
    }
  }

  lemma {:induction false} RecentDistinct(h: seq<nat>)
    ensures Distinct(Recent(h)) && forall t :: t in Recent(h) <==> t in h
    decreases |h|
  {
    if h != [] {
      RecentDistinct(h[..|h| - 1]);
      RemoveMeans(Recent(h[..|h| - 1]), h[|h| - 1]);
      assert h == h[..|h| - 1] + [h[|h| - 1]];
    }
  }

  lemma NoneToRemove(t: nat)
    ensures Remove([], t) == []
  {
  }

  lemma TouchTakes(r: seq<nat>, ways: nat, t: nat)
    requires ways > 0
    ensures Touch(Take(r, ways), ways, t) == Take([t] + Remove(r, t), ways)
  {
    hide Remove;
    var k := if ways < |r| then ways else |r|;
    assert Take(r, ways) == r[..k];
    RemoveSplits(r, t, k);
    if t !in r[..k] {
      assert k == |r| ==> Remove(r[k..], t) == [] by { NoneToRemove(t); }
      assert Take(r[..k], ways - 1) == Take(r[..k] + Remove(r[k..], t), ways - 1);
    }
  }

  /** A bounded set holds the top of the unbounded recency stack. */
  lemma {:induction false} HoldsMostRecent(h: seq<nat>, ways: nat)
    requires ways > 0
    ensures Held(h, ways) == Take(Recent(h), ways)
    decreases |h|
  {
    if h != [] {
      HoldsMostRecent(h[..|h| - 1], ways);
      TouchTakes(Recent(h[..|h| - 1]), ways, h[|h| - 1]);
    }
  }

  /** The tags above t in the recency stack are those accessed since t. */
  lemma {:induction false} DepthIsDistance(h: seq<nat>, t: nat)
    requires t in h
    ensures var (r, k) := (Recent(h), |Since(h, t)|);
      k < |r| && r[k] == t && (forall x :: x in r[..k] <==> x in Since(h, t))
    decreases |h|
  {
    var (g, x) := (h[..|h| - 1], h[|h| - 1]);
    assert h == g + [x];
    if x != t {
      DepthIsDistance(g, t);
      RecentDistinct(g);
      var (r, k) := (Recent(g), |Since(g, t)|);
      RemoveSplits(r, x, k);
      Deeper(r, x, t, k, Since(g, t));
    }
  }

  lemma Deeper(r: seq<nat>, x: nat, t: nat, k: nat, s: set<nat>)
    requires Distinct(r) && x != t && k < |r| && r[k] == t && |s| == k
    requires forall y :: y in r[..k] <==> y in s
    ensures var (q, u) := ([x] + Remove(r, x), {x} + s);
      |u| < |q| && q[|u|] == t && (forall y :: y in q[..|u|] <==> y in u)
  {
    hide Remove, Distinct;
    var (q, u) := ([x] + Remove(r, x), {x} + s);
    RemoveSplits(r, x, k);
    if x in s {
      assert u == s;
      var top := Remove(r[..k], x);
      assert forall y :: y != x ==> (y in top <==> y in r[..k]) by { PrefixDistinct(r, k); RemoveMeans(r[..k], x); }
      assert q[..k] == [x] + top && q[k] == t;
    } else {
      assert |u| == k + 1;
      RemovesLater(r[k..], x);
      assert q[..k + 1] == [x] + r[..k] && q[k + 1] == Remove(r[k..], x)[0];
    }
  }

  lemma PrefixDistinct(l: seq<nat>, k: nat)
    requires Distinct(l) && k <= |l|
    ensures Distinct(l[..k])
  {
  }

  lemma RemovesLater(l: seq<nat>, x: nat)
    requires l != [] && l[0] != x
    ensures |Remove(l, x)| > 0 && Remove(l, x)[0] == l[0]
  {
  }

  /** A hit: the tag was seen, and fewer than `ways` distinct other tags of its set since. */
  predicate Reused(h: seq<nat>, ways: nat, t: nat) {
    t in h && |Since(h, t)| < ways
  }

  /** An LRU set holds exactly the tags whose reuse distance is below its associativity. */
  lemma HitIffReused(h: seq<nat>, ways: nat, t: nat)
    requires ways > 0
    ensures t in Held(h, ways) <==> Reused(h, ways, t)
  {
    HoldsMostRecent(h, ways);
    RecentDistinct(h);
    if t in h {
      DepthIsDistance(h, t);
    }
  }
}
