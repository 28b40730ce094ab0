/** The disk controller as the object it is: registers, sense data and data-phase fields updated in
    place by each command and byte. */
module ScsiController {
  import opened Words
  import opened Disk
  import opened Scsi

  class Controller {
    const regs: array<u8>
    const sense: array<u8>
    var phase: Phase
    var buf: seq<u8>
    var pos: nat
    var drq: bool
    var intrq: bool
    var wrLba: nat
    var tgtStatus: u8
    var disk: Disk
    /** Interrupts posted so far. */
    ghost var posts: nat

    ghost predicate Sized() {
      regs.Length == 32 && sense.Length == 18 && regs != sense
    }

    ghost function State(): Dev
      reads this, regs, sense
    {
      Dev(regs[..], phase, buf, pos, drq, intrq, wrLba, tgtStatus, sense[..], disk, posts)
    }

    ghost predicate Good()
      reads this, regs, sense
    {
      Sized() && Valid(State())
    }

    constructor (backing: Disk)
      ensures Good() && fresh(regs) && fresh(sense)
      ensures State() == Dev(seq(32, _ => 0), Idle, [], 0, false, false, 0, 0, seq(18, _ => 0), backing, 0)
    {
      regs := new u8[32](_ => 0);
      sense := new u8[18](_ => 0);
      phase, buf, pos, drq, intrq := Idle, [], 0, false, false;
      wrLba, tgtStatus, disk, posts := 0, 0, backing, 0;
      new;
      assert regs[..] == seq(32, _ => 0) && sense[..] == seq(18, _ => 0);
    }

    /** Status, command phase, a zero transfer count and the interrupt. */
    method PostStatus(status: u8, cmdPhase: u8)
      requires Sized()
      modifies this`intrq, this`posts, regs
      ensures State() == Post(old(State()), status, cmdPhase)
    {
      regs[SCSI_STATUS] := status;
      regs[COMMAND_PHASE] := cmdPhase;
      regs[0x12], regs[0x13], regs[0x14] := 0, 0, 0;
      intrq := true;
      posts := posts + 1;
    }

    /** The drained WRITE(10) buffer, block by block. */
    method DrainBlocks()
      requires Sized()
      modifies this`disk
      ensures disk == WriteBlocks(old(disk), wrLba, buf, |buf| / BLOCK)
    {
      var (n, i) := (|buf| / BLOCK, 0);
      while i < n
        invariant 0 <= i <= n && disk == WriteBlocks(old(disk), wrLba, buf, i)
      {
        disk := WriteBlock(disk, wrLba + i, NthBlock(buf, i));
        i := i + 1;
      }
    }

    method Complete()
      requires Sized()
      modifies this, regs
      ensures State() == Finish(old(State()))
    {
      if phase == DataOut && regs[CDB] == 0x2a {
        DrainBlocks();
      }
      phase := Idle;
      drq := false;
      regs[TARGET_LUN] := tgtStatus;
      PostStatus(0x16, 0x60);
    }

    method PauseTransfer()
      requires Good()
      modifies this, regs
      ensures State() == Pause(old(State()))
    {
      drq := false;
      PostStatus(if phase == DataOut then 0x48 else 0x49, 0x46);
    }

    method BeginDataIn(data: seq<u8>)
      requires Sized()
      modifies this, regs
      ensures State() == BeginIn(old(State()), data)
    {
      buf, pos := data, 0;
      if |data| == 0 {
        Complete();
      } else {
        phase, drq := DataIn, true;
      }
    }

    method BeginDataOut(n: nat)
      requires Sized()
      modifies this, regs
      ensures State() == BeginOut(old(State()), n)
    {
      buf, pos := seq(n, _ => 0), 0;
      if n == 0 {
        Complete();
      } else {
        phase, drq := DataOut, true;
      }
    }

    method FetchBlocks(lba: nat, n: nat) returns (data: seq<u8>)
      ensures data == ReadBlocks(disk, lba, n)
    {
      data := [];
      var i := 0;
      while i < n
        invariant 0 <= i <= n && data == ReadBlocks(disk, lba, i)
      {
        data := data + ReadBlock(disk, lba + i);
        i := i + 1;
      }
    }

    method DecodeCdb(op: u8, alloc: u8)
      requires Sized()
      modifies this, regs
      ensures State() == Decode(old(State()), op, alloc)
    {
      if op == 0x12 {
        BeginDataIn(Prefix(INQUIRY, alloc));
      } else if op == 0x03 {
        BeginDataIn(Prefix(sense[..], alloc));
      } else if op == 0x25 {
        BeginDataIn(Capacity(disk));
      } else if op == 0x1a {
        BeginDataIn(Prefix([3, 0, 0, 0], alloc));
      } else if op == 0x15 {
        BeginDataOut(alloc);
      } else if op == 0x28 {
        var data := FetchBlocks(CdbLba(regs[..]), CdbLen(regs[..]));
        BeginDataIn(data);
      } else if op == 0x2a {
        wrLba := CdbLba(regs[..]);
        BeginDataOut(CdbLen(regs[..]) * BLOCK);
      } else {
        Complete();
      }
    }

    method SelectAndTransfer()
      requires Good()
      modifies this, regs, sense
      ensures Good() && State() == Select(old(State()))
    {
      if phase != Idle && 0 < pos < |buf| {
        drq := true;
      } else if regs[DEST_ID] % 8 != DISK_TARGET {
        regs[SCSI_STATUS] := 0x42;
        regs[COMMAND_PHASE] := 0;
        intrq := true;
        posts := posts + 1;
      } else {
        var (op, alloc) := (regs[CDB], regs[CDB + 4]);
        if regs[TARGET_LUN] % 8 != 0 && op != 0x03 {
          sense[0], sense[2], sense[7], sense[12], sense[13] := 0x70, 0x05, 0x0a, 0x25, 0x00;
          tgtStatus := 0x02;
          Complete();
        } else {
          tgtStatus := 0;
          DecodeCdb(op, alloc);
        }
      }
    }

    method ReadStatus() returns (st: u8)
      requires Good()
      modifies this`intrq
      ensures Good() && st == regs[SCSI_STATUS] && State() == Ack(old(State()))
    {
      st := regs[SCSI_STATUS];
      intrq := false;
    }

    method Clear()
      requires Good()
      modifies this
      ensures Good() && State() == Reset(old(State()))
    {
      pos, drq, intrq, phase, buf := 0, false, false, Idle, [];
    }

    method DmaRead() returns (v: u8)
      requires Good()
      modifies this, regs
      ensures Good() && (v, State()) == DmaR(old(State()))
    {
      if phase != DataIn {
        return 0;
      }
      v := buf[pos];
      pos := pos + 1;
      if pos >= |buf| {
        Complete();
      }
    }

    method DmaWrite(v: u8)
      requires Good()
      modifies this, regs
      ensures Good() && State() == DmaW(old(State()), v)
    {
      if phase == DataOut {
        buf := buf[pos := v];
        pos := pos + 1;
        if pos >= |buf| {
          Complete();
        }
      }
    }
  }
}
