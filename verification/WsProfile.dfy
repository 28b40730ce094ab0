/** The data-cache working-set profiler: one set-associative LRU cache model over the access trace. */
module WsProfile {
  import opened Words
  import opened Bitwise
  import opened ReuseDistance

  /** Line size as a power of two, and the number of sets. */
  datatype Shape = Shape(lgLine: nat, sets: nat)

  function Line(c: Shape, pa: u32): (l: u32) {
    assert pa / Pow2(c.lgLine) <= pa by { Shrinks(pa, Pow2(c.lgLine)); }
    assert pa / Pow2(c.lgLine) >= 0 by { Shrinks(pa, Pow2(c.lgLine)); }
    pa / Pow2(c.lgLine)
  }

  lemma Shrinks(x: nat, d: nat)
    requires d > 0
    ensures 0 <= x / d <= x
  {
    Monotone(1, d, x / d);
  }

  function SetOf(c: Shape, pa: u32): (s: nat)
    requires c.sets > 0
    ensures s < c.sets
  {
    Line(c, pa) % c.sets
  }

  function TagOf(c: Shape, pa: u32): (t: u32)
    requires c.sets > 0
  {
    Shrinks(Line(c, pa), c.sets);
    Line(c, pa) / c.sets
  }

  /** The tags of one set's accesses, oldest first. */
  function Tags(c: Shape, trace: seq<u32>, s: nat): seq<nat>
    requires c.sets > 0
  {
    if trace == [] then []
    else
      var (h, pa) := (Tags(c, trace[..|trace| - 1], s), trace[|trace| - 1]);
      if SetOf(c, pa) == s then h + [TagOf(c, pa)] else h
  }

  predicate Hits(c: Shape, ways: nat, trace: seq<u32>, pa: u32)
    requires c.sets > 0
  {
    Reused(Tags(c, trace, SetOf(c, pa)), ways, TagOf(c, pa))
  }

  /** Accesses of a trace whose reuse distance does not fit, counted one by one. */
  function Misses(c: Shape, ways: nat, trace: seq<u32>): nat
    requires c.sets > 0
  {
    if trace == [] then 0
    else
      var (h, pa) := (trace[..|trace| - 1], trace[|trace| - 1]);
      Misses(c, ways, h) + if Hits(c, ways, h, pa) then 0 else 1
  }

  /** With the same sets and lines, more ways never miss more. */
  lemma {:induction false} MoreWaysMissNoMore(c: Shape, ways: nat, more: nat, trace: seq<u32>)
    requires c.sets > 0 && ways <= more
    ensures Misses(c, more, trace) <= Misses(c, ways, trace)
  {
    if trace != [] {
      MoreWaysMissNoMore(c, ways, more, trace[..|trace| - 1]);
    }
  }

  /** Where a set's slots start. */
  function Base(s: nat, ways: nat): nat {
    s * ways
  }

  lemma Apart(s: nat, u: nat, ways: nat)
    requires s < u
    ensures Base(s, ways) + ways <= Base(u, ways)
  {
    Monotone(s + 1, u, ways);
  }

  lemma Monotone(a: nat, b: nat, m: nat)
    requires a <= b
    ensures a * m <= b * m
  {
  }

  /** k slots from base moved one down, with t in front of them. */
  function Fronted(slots: seq<u32>, base: nat, k: nat, t: u32): (r: seq<u32>)
    requires base + k < |slots|
    ensures |r| == |slots|
  {
    slots[..base] + [t] + slots[base..base + k] + slots[base + k + 1..]
  }

  lemma FrontedAt(slots: seq<u32>, base: nat, k: nat, t: u32, j: nat)
    requires base + k < |slots| && j < |slots|
    ensures Fronted(slots, base, k, t)[j] ==
      if j == base then t else if base < j <= base + k then slots[j - 1] else slots[j]
  {
    if j < base {
    } else if base < j <= base + k {
      assert slots[base..base + k][j - base - 1] == slots[j - 1];
    } else if base + k < j {
      assert slots[base + k + 1..][j - base - k - 1] == slots[j];
    }
  }

  lemma InFront(slots: seq<u32>, base: nat, k: nat, t: u32, m: nat)
    requires k < m && base + m <= |slots|
    ensures var w := slots[base..base + m];
      Fronted(slots, base, k, t)[base..base + m] == [t] + w[..k] + w[k + 1..]
  {
    hide Fronted;
    var f, w := Fronted(slots, base, k, t)[base..base + m], slots[base..base + m];
    var r := [t] + w[..k] + w[k + 1..];
    forall i | 0 <= i < m ensures f[i] == r[i] {
      FrontedAt(slots, base, k, t, base + i);
      if i == 0 {
        assert r[0] == t;
      } else if i <= k {
        assert r[i] == w[..k][i - 1] == slots[base + i - 1];
      } else {
        assert r[i] == w[k + 1..][i - (k + 1)] == slots[base + i];
      }
    }
  }

  method LogLine(line: nat) returns (lg: nat)
    ensures line <= Pow2(lg) && (lg > 0 ==> Pow2(lg - 1) < line)
  {
    lg := 0;
    while Pow2(lg) < line
      invariant lg > 0 ==> Pow2(lg - 1) < line
      decreases line - Pow2(lg)
    {
      lg := lg + 1;
    }
  }

  lemma TouchHit(l: seq<nat>, ways: nat, t: nat, i: nat)
    requires ways > 0 && i < |l| && l[i] == t && t !in l[..i]
    ensures Touch(l, ways, t) == [t] + l[..i] + l[i + 1..]
  {
    RemoveSplits(l, t, i);
    assert l[i..][1..] == l[i + 1..];
  }

  /** What a search that stopped at i makes of a set holding l. */
  lemma Touched(slots: seq<u32>, base: nat, l: seq<nat>, ways: nat, i: nat, t: u32)
    requires 0 < ways && i <= |l| <= ways && base + ways <= |slots| && l == slots[base..base + |l|]
    requires t !in l[..i] && (i < |l| ==> l[i] == t)
    ensures var n := |l|;
      var k := if i < n then i else if n < ways then n else ways - 1;
      var m := if i < n || n == ways then n else n + 1;
      k < m && Fronted(slots, base, k, t)[base..base + m] == Touch(l, ways, t)
  {
    hide Fronted, Remove;
    var n := |l|;
    var k := if i < n then i else if n < ways then n else ways - 1;
    var m := if i < n || n == ways then n else n + 1;
    InFront(slots, base, k, t, m);
    var w := slots[base..base + m];
    if i < n {
      TouchHit(l, ways, t, i);
    } else {
      assert l[..i] == l;
      forall x | 0 <= x < k ensures w[..k][x] == l[..k][x] {
        assert w[x] == slots[base + x] == l[x];
      }
      assert w[..k] == l[..k] && w[k + 1..] == [];
    }
  }

  class WayCache {
    const shape: Shape
    const ways: nat
    /** Each set's tags, most recent first, in its own stretch of `ways` slots. */
    const tag: array<u32>
    const cnt: array<u8>
    var acc: nat
    var miss: nat
    /** Every access since the last reset. */
    ghost var trace: seq<u32>

    ghost predicate Sized()
      reads cnt
    {
      && 0 < ways < 256 && shape.sets > 0
      && tag.Length == Base(shape.sets, ways) && cnt.Length == shape.sets
      && forall s :: 0 <= s < shape.sets ==> cnt[s] <= ways
    }

    ghost function View(s: nat): (l: seq<nat>)
      requires Sized() && s < shape.sets
      reads tag, cnt
      ensures |l| == cnt[s]
    {
      Apart(s, shape.sets, ways);
      tag[Base(s, ways)..Base(s, ways) + cnt[s]]
    }

    ghost predicate Valid()
      reads this, tag, cnt
    {
      && Sized() && acc == |trace| && miss == Misses(shape, ways, trace)
      && forall s :: 0 <= s < shape.sets ==> View(s) == Held(Tags(shape, trace, s), ways)
    }

    constructor (size: u32, assoc: nat, line: nat)
      requires 0 < assoc < 256 && 0 < line <= 0x80000000 && line * assoc <= size
      ensures Valid() && trace == [] && ways == assoc && shape.sets == size / (line * assoc)
      ensures line <= Pow2(shape.lgLine) && (shape.lgLine > 0 ==> Pow2(shape.lgLine - 1) < line)
    {
      hide Base, Pow2;
      var lg := LogLine(line);
      AtLeastOne(line, assoc, size);
      var sets := size / (line * assoc);
      shape, ways := Shape(lg, sets), assoc;
      tag := new u32[Base(sets, assoc)](_ => 0);
      cnt := new u8[sets](_ => 0);
      acc, miss, trace := 0, 0, [];
      new;
      forall u | 0 <= u < shape.sets ensures View(u) == Held(Tags(shape, trace, u), ways) {
        Apart(u, shape.sets, ways);
        assert View(u) == [];
      }
    }

    /** Slide k tags of a set one slot down and put t in front. */
    method Front(base: nat, k: nat, t: u32)
      requires base + k < tag.Length
      modifies tag
      ensures tag[..] == Fronted(old(tag[..]), base, k, t)
    {
      var j := k;
      while j > 0
        invariant 0 <= j <= k
        invariant forall i :: base + j < i <= base + k ==> tag[i] == old(tag[i - 1])
        invariant forall i :: 0 <= i < tag.Length && !(base + j < i <= base + k) ==> tag[i] == old(tag[i])
      {
        tag[base + j] := tag[base + j - 1];
        j := j - 1;
      }
      tag[base] := t;
    }

    /** access: the counters follow the reuse distance of the whole trace. */
    method Access(pa: u32)
      requires Valid()
      modifies this, tag, cnt
      ensures Valid() && trace == old(trace) + [pa]
      ensures miss == old(miss) + if Hits(shape, ways, old(trace), pa) then 0 else 1
    {
      hide Reused, Tags, Held, Misses, Base, Touch, Line;
      acc := acc + 1;
      var (s, t) := (SetOf(shape, pa), TagOf(shape, pa));
      var hit := TouchSet(s, t);
      if !hit {
        miss := miss + 1;
      }
      ghost var h := trace;
      trace := trace + [pa];
      HitIffReused(Tags(shape, h, s), ways, t);
      MissesStep(shape, ways, h, pa);
      forall u | 0 <= u < shape.sets ensures View(u) == Held(Tags(shape, trace, u), ways) {
        TagsStep(shape, h, pa, u, ways);
      }
    }

    method Search(s: nat, t: u32) returns (i: nat)
      requires Sized() && s < shape.sets
      ensures i <= cnt[s] && t !in View(s)[..i] && (i < cnt[s] ==> View(s)[i] == t)
    {
      hide Base;
      Apart(s, shape.sets, ways);
      i := 0;
      while i < cnt[s] && tag[Base(s, ways) + i] != t
        invariant 0 <= i <= cnt[s] && t !in View(s)[..i]
      {
        assert View(s)[..i + 1] == View(s)[..i] + [View(s)[i]];
        i := i + 1;
      }
    }

    /** The set touched becomes its LRU successor; every other set keeps its tags. */
    method TouchSet(s: nat, t: u32) returns (hit: bool)
      requires Sized() && s < shape.sets
      modifies tag, cnt
      ensures Sized() && hit == (t in old(View(s))) && View(s) == Touch(old(View(s)), ways, t)
      ensures forall u :: 0 <= u < shape.sets && u != s ==> View(u) == old(View(u))
    {
      hide Base, Fronted, Touch;
      ghost var slots := tag[..];
      var (base, n) := (Base(s, ways), cnt[s]);
      var i := Search(s, t);
      hit := i < n;
      Apart(s, shape.sets, ways);
      Touched(slots, base, View(s), ways, i, t);
      var k := if hit then i else if n < ways then n else ways - 1;
      if !hit && n < ways {
        cnt[s] := n + 1;
      }
      Front(base, k, t);
      forall u | 0 <= u < shape.sets && u != s ensures View(u) == old(View(u)) {
        Elsewhere(s, u, k, t, slots);
      }
    }

    lemma Elsewhere(s: nat, u: nat, k: nat, t: u32, slots: seq<u32>)
      requires Sized() && s < shape.sets && u < shape.sets && u != s && k < ways && |slots| == tag.Length
      requires Base(s, ways) + ways <= |slots| && tag[..] == Fronted(slots, Base(s, ways), k, t)
      ensures Base(u, ways) + ways <= |slots| && View(u) == slots[Base(u, ways)..Base(u, ways) + cnt[u]]
    {
      if u < s {
        Apart(u, s, ways);
      } else {
        Apart(s, u, ways);
      }
      Apart(u, shape.sets, ways);
      hide Base, Fronted;
      var at := Base(u, ways);
      var before := slots[at..at + cnt[u]];
      forall j | 0 <= j < cnt[u] ensures View(u)[j] == before[j] {
        FrontedAt(slots, Base(s, ways), k, t, at + j);
      }
    }

    method Reset()
      requires Valid()
      modifies this, cnt
      ensures Valid() && trace == []
    {
      hide Base;
      acc, miss, trace := 0, 0, [];
      var s := 0;
      while s < cnt.Length
        modifies cnt
        invariant 0 <= s <= cnt.Length
        invariant forall u :: 0 <= u < s ==> cnt[u] == 0
        invariant forall u :: s <= u < cnt.Length ==> cnt[u] == old(cnt[u])
      {
        cnt[s] := 0;
        s := s + 1;
      }
      forall u | 0 <= u < shape.sets ensures View(u) == Held(Tags(shape, trace, u), ways) {
        Apart(u, shape.sets, ways);
        assert View(u) == [];
      }
    }
  }

  lemma AtLeastOne(line: nat, assoc: nat, x: nat)
    requires line > 0 && assoc > 0 && line * assoc <= x
    ensures line * assoc > 0 && x / (line * assoc) > 0
  {
    Monotone(1, line, assoc);
  }

  lemma MissesStep(c: Shape, ways: nat, trace: seq<u32>, pa: u32)
    requires c.sets > 0
    ensures Misses(c, ways, trace + [pa]) == Misses(c, ways, trace) + if Hits(c, ways, trace, pa) then 0 else 1
  {
    assert (trace + [pa])[..|trace|] == trace;
  }

  lemma TagsStep(c: Shape, trace: seq<u32>, pa: u32, s: nat, ways: nat)
    requires c.sets > 0 && ways > 0
    ensures var h := Tags(c, trace, s);
      Held(Tags(c, trace + [pa], s), ways) == if SetOf(c, pa) == s then Touch(Held(h, ways), ways, TagOf(c, pa)) else Held(h, ways)
  {
    var (h, t) := (Tags(c, trace, s), TagOf(c, pa));
    assert (trace + [pa])[..|trace|] == trace;
    assert (h + [t])[..|h|] == h;
  }
}
