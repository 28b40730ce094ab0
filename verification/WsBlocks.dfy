/** The working-set profiler in terms of memory blocks: when an access hits, said of addresses. */
module WsBlocks {
  import opened Words
  import opened Bitwise
  import opened ReuseDistance
  import opened WsProfile

  /** The number of the block of size bytes that holds address a. */
  function BlockOf(a: nat, size: nat): int
    requires size > 0
  {
    a / size
  }

  /** Access i is the last one to the block of size bytes that holds pa. */
  predicate LastAccess(trace: seq<u32>, size: nat, pa: u32, i: nat)
    requires size > 0
  {
    i < |trace| && BlockOf(trace[i], size) == BlockOf(pa, size)
    && forall j :: i < j < |trace| ==> BlockOf(trace[j], size) != BlockOf(pa, size)
  }

  /** The blocks accessed after access i that compete with block b for its set. */
  ghost function Rivals(trace: seq<u32>, size: nat, sets: nat, i: nat, b: int): set<int>
    requires size > 0 && sets > 0
  {
    set j | i < j < |trace| && BlockOf(trace[j], size) % sets == b % sets :: BlockOf(trace[j], size)
  }

  function Block(tag: nat, sets: nat, s: nat): nat { tag * sets + s }

  /** Block numbers of a set from its tags. */
  ghost function Blocks(tags: set<nat>, sets: nat, s: nat): set<int> {
    set t | t in tags :: Block(t, sets, s)
  }

  lemma Different(p: nat, q: nat, sets: nat, s: nat)
    requires sets > 0 && p != q
    ensures Block(p, sets, s) != Block(q, sets, s)
  {
    if p < q {
      MulMono(sets, p + 1, q);
    } else {
      MulMono(sets, q + 1, p);
    }
  }

  lemma {:induction false} AsMany(tags: set<nat>, sets: nat, s: nat)
    requires sets > 0
    ensures |Blocks(tags, sets, s)| == |tags|
    decreases |tags|
  {
    hide Block;
    if tags != {} {
      var t :| t in tags;
      AsMany(tags - {t}, sets, s);
      forall u | u in tags && u != t ensures Block(u, sets, s) != Block(t, sets, s) {
        Different(u, t, sets, s);
      }
      assert Blocks(tags, sets, s) == Blocks(tags - {t}, sets, s) + {Block(t, sets, s)};
    }
  }

  /** A block number is its tag and its set. */
  lemma Placed(c: Shape, pa: u32)
    requires c.sets > 0
    ensures var b := BlockOf(pa, Pow2(c.lgLine));
      b == Block(TagOf(c, pa), c.sets, SetOf(c, pa)) && SetOf(c, pa) == b % c.sets
  {
  }

  /** Two addresses have one set and tag exactly when they are in one block. */
  lemma SamePlace(c: Shape, pa: u32, x: u32)
    requires c.sets > 0
    ensures var (p, q) := (BlockOf(pa, Pow2(c.lgLine)), BlockOf(x, Pow2(c.lgLine)));
      && (SetOf(c, pa) == SetOf(c, x) <==> q % c.sets == p % c.sets)
      && (p == q <==> SetOf(c, pa) == SetOf(c, x) && TagOf(c, pa) == TagOf(c, x))
      && q == Block(TagOf(c, x), c.sets, SetOf(c, x))
  {
    hide Block, Line, TagOf, SetOf, Pow2, BlockOf;
    Placed(c, pa);
    Placed(c, x);
    if TagOf(c, pa) != TagOf(c, x) {
      Different(TagOf(c, pa), TagOf(c, x), c.sets, SetOf(c, x));
    }
  }

  lemma RivalsGrow(trace: seq<u32>, size: nat, sets: nat, i: nat, b: int)
    requires size > 0 && sets > 0 && i < |trace|
    ensures var (n, x) := (|trace| - 1, BlockOf(trace[|trace| - 1], size));
      Rivals(trace, size, sets, i, b)
      == if i == n then {} else Rivals(trace[..n], size, sets, i, b) + if x % sets == b % sets then {x} else {}
  {
  }

  lemma BlocksGrow(tags: set<nat>, sets: nat, s: nat, t: nat)
    ensures Blocks({t} + tags, sets, s) == Blocks(tags, sets, s) + {Block(t, sets, s)}
    ensures Blocks({}, sets, s) == {}
  {
    hide Block;
  }

  /** The tags since an access are the rivals since it. */
  lemma {:induction false} SinceIsRivals(c: Shape, trace: seq<u32>, pa: u32, i: nat)
    requires c.sets > 0 && LastAccess(trace, Pow2(c.lgLine), pa, i)
    ensures var (h, t) := (Tags(c, trace, SetOf(c, pa)), TagOf(c, pa));
      t in h
      && Blocks(Since(h, t), c.sets, SetOf(c, pa)) == Rivals(trace, Pow2(c.lgLine), c.sets, i, BlockOf(pa, Pow2(c.lgLine)))
    decreases |trace|
  {
    hide Block, Blocks, Rivals, TagOf, SetOf, Pow2, BlockOf;
    var n, size := |trace| - 1, Pow2(c.lgLine);
    var g, x := trace[..n], trace[n];
    SamePlace(c, pa, x);
    var s, t := SetOf(c, pa), TagOf(c, pa);
    RivalsGrow(trace, size, c.sets, i, BlockOf(pa, size));
    BlocksGrow(Since(Tags(c, g, s), t), c.sets, s, TagOf(c, x));
    if i < n {
      SinceIsRivals(c, g, pa, i);
    }
  }

  lemma {:induction false} NeverSeen(c: Shape, trace: seq<u32>, pa: u32)
    requires c.sets > 0 && forall j :: 0 <= j < |trace| ==> BlockOf(trace[j], Pow2(c.lgLine)) != BlockOf(pa, Pow2(c.lgLine))
    ensures TagOf(c, pa) !in Tags(c, trace, SetOf(c, pa))
    decreases |trace|
  {
    hide TagOf, SetOf, Pow2, BlockOf;
    if trace != [] {
      SamePlace(c, pa, trace[|trace| - 1]);
      NeverSeen(c, trace[..|trace| - 1], pa);
    }
  }

  lemma {:induction false} FindLast(trace: seq<u32>, size: nat, pa: u32) returns (i: nat)
    requires size > 0
    ensures LastAccess(trace, size, pa, i) || forall j :: 0 <= j < |trace| ==> BlockOf(trace[j], size) != BlockOf(pa, size)
  {
    if trace == [] {
      i := 0;
    } else if BlockOf(trace[|trace| - 1], size) == BlockOf(pa, size) {
      i := |trace| - 1;
    } else {
      i := FindLast(trace[..|trace| - 1], size, pa);
    }
  }

  lemma OneLast(trace: seq<u32>, size: nat, pa: u32, i: nat, k: nat)
    requires size > 0 && LastAccess(trace, size, pa, i) && LastAccess(trace, size, pa, k)
    ensures i == k < |trace| && BlockOf(trace[k], size) == BlockOf(pa, size)
  {
  }

  /** Its last access is recent enough for the block of pa to be in the cache still. */
  ghost predicate StillHeld(trace: seq<u32>, size: nat, sets: nat, ways: nat, pa: u32, i: nat)
    requires size > 0 && sets > 0
  {
    LastAccess(trace, size, pa, i) && |Rivals(trace, size, sets, i, BlockOf(pa, size))| < ways
  }

  /** An access hits exactly when its block of 2^lgLine bytes was accessed before, and fewer than `ways`
      distinct blocks congruent to it modulo the number of sets since. */
  lemma HitsByBlocks(c: Shape, ways: nat, trace: seq<u32>, pa: u32)
    requires c.sets > 0
    ensures Hits(c, ways, trace, pa) <==> exists i :: StillHeld(trace, Pow2(c.lgLine), c.sets, ways, pa, i)
  {
    hide TagOf, SetOf, Pow2, Rivals, Since, Tags, Blocks, LastAccess;
    var size, h := Pow2(c.lgLine), Tags(c, trace, SetOf(c, pa));
    var i := FindLast(trace, size, pa);
    if LastAccess(trace, size, pa, i) {
      SinceIsRivals(c, trace, pa, i);
      AsMany(Since(h, TagOf(c, pa)), c.sets, SetOf(c, pa));
      assert Hits(c, ways, trace, pa) <==> StillHeld(trace, size, c.sets, ways, pa, i);
      forall k | LastAccess(trace, size, pa, k) ensures k == i {
        OneLast(trace, size, pa, i, k);
      }
    } else {
      NeverSeen(c, trace, pa);
      forall k ensures !LastAccess(trace, size, pa, k) {
        if LastAccess(trace, size, pa, k) {
          OneLast(trace, size, pa, k, k);
          assert false;
        }
      }
    }
  }
}
