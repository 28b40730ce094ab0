/** The cache model object: lines and DRAM updated in place, each method against its step on values. */
module CacheModel {
  import opened Words
  import opened Memory
  import opened Cache

  class Model {
    const l1: array<Line>
    const dram: array<u8>
    const route: bool

    constructor (dram: array<u8>, route: bool)
      requires dram.Length == DRAM_SIZE
      ensures this.dram == dram && this.route == route && fresh(l1)
      ensures Valid() && S().dram == old(dram[..]) && forall i :: 0 <= i < SETS ==> !l1[i].valid
    {
      this.dram, this.route := dram, route;
      var zero := seq(LINE, _ => 0 as u8);
      l1 := new Line[SETS](_ => Line(false, false, 0, zero));
    }

    ghost function S(): State
      reads l1, dram
    {
      State(l1[..], dram[..], route)
    }

    ghost predicate Valid()
      reads l1, dram
    {
      Cache.Valid(S())
    }

    /** Push a dirty line to DRAM, byte by byte. */
    method WbLine(set_: nat)
      requires Valid() && set_ < SETS
      modifies l1, dram
      ensures Valid() && S() == Wb(old(S()), set_)
    {
      hide LineBase, Loc;
      var l := l1[set_];
      if l.valid && l.dirty {
        var base := LineBase(l.tag, set_);
        LineAddress(route, l.tag, set_);
        ghost var was, home := dram[..], HomeOf(route, set_, l);
        for i := 0 to LINE
          invariant l1[..] == old(l1[..])
          invariant forall a :: 0 <= a < DRAM_SIZE ==> dram[a] == if home <= a < home + i then l.data[a - home] else was[a]
        {
          LineOffset(route, base, i);
          dram[Loc(route, base + i)] := l.data[i];
        }
        assert dram[..] == PutBytes(was, home, l.data);
        l1[set_] := l.(dirty := false);
      }
    }

    method FillLine(pa: u32)
      requires Valid()
      modifies l1, dram
      ensures Valid() && S() == Fill(old(S()), pa)
    {
      hide LineBase, Loc, Wb;
      var set_, tag := SetOf(pa), TagOf(pa);
      if l1[set_].valid && l1[set_].tag == tag {
        return;
      }
      Split(route, pa);
      WbLine(set_);
      var data := ReadLine(pa - pa % LINE);
      l1[set_] := Line(true, false, tag, data);
    }

    method ReadLine(base: u32) returns (data: seq<u8>)
      requires Valid() && base % LINE == 0 && base + LINE <= DRAM_SIZE && Loc(route, base) + LINE <= DRAM_SIZE
      ensures data == Bytes(dram[..], Loc(route, base))
    {
      hide Loc;
      ghost var home := Loc(route, base);
      data := [];
      for i := 0 to LINE
        invariant data == dram[home..home + i]
      {
        LineOffset(route, base, i);
        data := data + [dram[Loc(route, base + i)]];
      }
      assert Bytes(dram[..], home) == dram[home..home + LINE];
    }

    method CpuLoad(pa: u32, n: nat) returns (d: seq<u8>)
      requires Valid()
      modifies l1, dram
      ensures Valid() && (d, S()) == LoadBytes(old(S()), pa, n)
    {
      hide Fill, ToU32, SetOf, TagOf;
      d := [];
      for i := 0 to n
        invariant Valid() && (d, S()) == LoadBytes(old(S()), pa, i)
      {
        var a := ToU32(pa + i);
        FillLine(a);
        d := d + [l1[SetOf(a)].data[a % LINE]];
      }
    }

    method CpuStore(pa: u32, src: seq<u8>)
      requires Valid()
      modifies l1, dram
      ensures Valid() && S() == StoreBytes(old(S()), pa, src)
    {
      hide Fill, ToU32, SetOf, TagOf;
      for i := 0 to |src|
        invariant Valid() && S() == StoreBytes(old(S()), pa, src[..i])
      {
        var a := ToU32(pa + i);
        FillLine(a);
        var l := l1[SetOf(a)];
        l1[SetOf(a)] := l.(data := l.data[a % LINE := src[i]], dirty := true);
        assert src[..i + 1][..i] == src[..i];
      }
      assert src[..|src|] == src;
    }

    method DropLine(set_: nat)
      requires Valid() && set_ < SETS
      modifies l1
      ensures Valid() && S() == Drop(old(S()), set_)
    {
      l1[set_] := l1[set_].(valid := false);
    }

    method HitWriteBack(pa: u32)
      requires Valid()
      modifies l1, dram
      ensures Valid() && S() == HitWb(old(S()), pa)
    {
      if l1[SetOf(pa)].valid && l1[SetOf(pa)].tag == TagOf(pa) {
        WbLine(SetOf(pa));
      }
    }

    /** hit_inval, and snoop_inval: drop a resident line without writing it back. */
    method HitInvalidate(pa: u32)
      requires Valid()
      modifies l1
      ensures Valid() && S() == HitInval(old(S()), pa)
    {
      if l1[SetOf(pa)].valid && l1[SetOf(pa)].tag == TagOf(pa) {
        DropLine(SetOf(pa));
      }
    }

    method HitWriteBackInvalidate(pa: u32)
      requires Valid()
      modifies l1, dram
      ensures Valid() && S() == HitWbInval(old(S()), pa)
    {
      hide Wb;
      if l1[SetOf(pa)].valid && l1[SetOf(pa)].tag == TagOf(pa) {
        WbLine(SetOf(pa));
        DropLine(SetOf(pa));
      }
    }

    method IndexInvalidate(idx: u32)
      requires Valid()
      modifies l1
      ensures Valid() && S() == IndexInval(old(S()), idx)
    {
      if l1[SetOf(idx)].valid {
        DropLine(SetOf(idx));
      } else {
        assert l1[..] == IndexInval(S(), idx).l1;
      }
    }

    method IndexWriteBackInvalidate(idx: u32)
      requires Valid()
      modifies l1, dram
      ensures Valid() && S() == IndexWbInval(old(S()), idx)
    {
      hide Wb, Valid;
      WbLine(SetOf(idx));
      DropLine(SetOf(idx));
    }

    /** A speculative read of a device target. */
    method SpecFill(pa: u32)
      requires Valid()
      modifies l1, dram
      ensures Valid() && S() == Fill(old(S()), pa)
    {
      hide Wb;
      if !(l1[SetOf(pa)].valid && l1[SetOf(pa)].tag == TagOf(pa)) {
        FillLine(pa);
      }
    }

    /** One device byte, speculated and snooped or not. */
    method WriteDeviceByte(spec: bool, snoop: bool, pa: u32, v: u8)
      requires Valid()
      modifies l1, dram
      ensures Valid() && S() == DeviceByte(old(S()), spec, snoop, pa, v)
    {
      hide Fill, Loc, HitInval;
      if spec {
        SpecFill(pa);
      }
      dram[Loc(route, pa)] := v;
      if snoop {
        HitInvalidate(pa);
      }
    }
  }

  lemma LineOffset(route: bool, base: u32, i: nat)
    requires base % LINE == 0 && i < LINE && base + LINE <= DRAM_SIZE
    ensures Loc(route, base + i) == Loc(route, base) + i
  {
  }
}
