/**
 Asynchronous sector reads: the future that issues a command and polls, and the interrupt handler
 that fills the shared buffer, as a state machine whose steps interleave freely.
 */
module Ata {
  import opened Bytes
  import opened BlockDevice

  const LBA_LIMIT := 0x1000_0000

  // ---------- Moving a sector through the 16-bit data port ----------

  /** The words the drive presents for a sector. */
  function Words(s: Sector): (w: seq<u16>)
    ensures |w| == 256
  {
    seq(256, i requires 0 <= i < 256 => s[2 * i] + 0x100 * s[2 * i + 1] as int)
  }

  lemma SplitWord(lo: u8, hi: u8)
    ensures var word := lo + 0x100 * hi as int; word % 0x100 == lo && word / 0x100 == hi
  {
  }

  /** The handler's copy loop leaves exactly the drive's sector in the buffer. */
  method ReceiveSector(port: seq<u16>, buffer: array<u8>, ghost s: Sector)
    requires port == Words(s) && buffer.Length == SECTOR_SIZE
    modifies buffer
    ensures buffer[..] == s
  {
    for i := 0 to 256
      invariant forall k :: 0 <= k < 2 * i ==> buffer[k] == s[k]
    {
      var word := port[i];
      SplitWord(s[2 * i], s[2 * i + 1]);
      buffer[i * 2] := word % 0x100;
      buffer[i * 2 + 1] := word / 0x100;
    }
    assert buffer[..] == s;
  }

  // ---------- Addressing ----------

  datatype Registers = Registers(low: u8, mid: u8, high: u8, device: u8)

  /** The bytes `read_sector_async` writes to the drive. */
  function LbaRegisters(lba: u32): Registers {
    Registers(lba % 0x100, lba / 0x100 % 0x100, lba / 0x1_0000 % 0x100, 0xF0 + lba / 0x100_0000 % 0x10)
  }

  /** The sector number the drive takes from its registers. */
  function Decode(r: Registers): u32 {
    r.low + 0x100 * r.mid as int + 0x1_0000 * r.high as int + 0x100_0000 * (r.device as int % 0x10)
  }

  /** The device register asks for sector numbers (bit 6) on the second drive (bit 4). */
  predicate Selected(r: Registers) { r.device / 0x40 % 2 == 1 && r.device / 0x10 % 2 == 1 }

  /** The second drive takes the sector number from the registers, modulo 2^28. */
  lemma DecodeLba(lba: u32)
    ensures Selected(LbaRegisters(lba)) && Decode(LbaRegisters(lba)) == lba % 0x1000_0000
    ensures Decode(LbaRegisters(lba)) == Addressed(lba)
  {
    Digits(lba);
    var r, top := LbaRegisters(lba), lba / 0x100_0000;
    var bits := top % 0x10;
    DeviceBits(r, bits);
    LowBits(lba, r.low, r.mid, r.high, top / 0x10, bits);
  }

  /** The upper four bits of the device register select the drive, the lower four are address bits. */
  lemma DeviceBits(r: Registers, bits: nat)
    requires r.device == 0xF0 + bits && bits < 0x10
    ensures Selected(r) && r.device % 0x10 == bits
  {
  }

  lemma LowBits(x: nat, low: nat, mid: nat, high: nat, q: nat, bits: nat)
    requires low < 0x100 && mid < 0x100 && high < 0x100 && bits < 0x10
    requires x == low + 0x100 * mid + 0x1_0000 * high + 0x100_0000 * (0x10 * q + bits)
    ensures x % 0x1000_0000 == low + 0x100 * mid + 0x1_0000 * high + 0x100_0000 * bits
  {
  }

  // ---------- The protocol ----------

  /** Where the reading task is. */
  datatype Pc =
    | Idle                        // no read in progress
    | StorePending(lba: u32)      // before PENDING_LBA.store
    | ClearFlag(lba: u32)         // before OPERATION_COMPLETE.store(false)
    | SetRegisters(lba: u32)      // before the address registers are written
    | Command(lba: u32)           // before the command register is written
    | Check(lba: u32)             // poll: before the first test
    | Register(lba: u32)          // poll: before the waker is registered
    | CheckAgain(lba: u32)        // poll: before the second test
    | Parked(lba: u32)            // poll returned Pending

  datatype Drive = Ready | Busy(lba: u32)

  datatype State = State(
    pc: Pc,
    pending: u32,                // PENDING_LBA
    complete: bool,              // OPERATION_COMPLETE
    writeComplete: bool,         // WRITE_COMPLETE
    buffer: Sector,              // SECTOR_BUFFER
    waker: bool,                 // DISK_WAKER holds the task's waker
    queued: nat,                 // how often the task is in the executor's queue
    registers: Registers,
    drive: Drive,
    requests: seq<u32>,          // history: sectors asked for
    results: seq<Sector>)        // history: sectors returned

  function Init(): State {
    State(Idle, 0, false, false, At(map[], 0), false, 0, Registers(0, 0, 0, 0), Ready, [], [])
  }

  datatype Action = Request(lba: u32) | TaskStep | Poll | SpuriousWake | Interrupt

  predicate Enabled(s: State, a: Action) {
    match a
    case Request(_) => s.pc.Idle?
    case TaskStep => !s.pc.Idle? && !s.pc.Parked?
    case Poll => s.pc.Parked? && s.queued > 0
    case SpuriousWake => true
    case Interrupt => s.drive.Busy?
  }

  /** The completion test at both places of `poll`; `otherwise` is where it goes on when the test fails. */
  function Test(s: State, lba: u32, otherwise: Pc): State {
    if s.complete && s.pending == lba
    then s.(pc := Idle, complete := false, results := s.results + [s.buffer])
    else s.(pc := otherwise)
  }

  function TaskDoes(s: State): State {
    match s.pc
    case StorePending(lba) => s.(pc := ClearFlag(lba), pending := lba)
    case ClearFlag(lba) => s.(pc := SetRegisters(lba), complete := false)
    case SetRegisters(lba) => s.(pc := Command(lba), registers := LbaRegisters(lba))
    case Command(lba) =>
      s.(pc := Check(lba), drive := if Selected(s.registers) then Busy(Decode(s.registers)) else s.drive)
    case Check(lba) => Test(s, lba, Register(lba))
    case Register(lba) => s.(pc := CheckAgain(lba), waker := true)
    case CheckAgain(lba) => Test(s, lba, Parked(lba))
    case _ => s
  }

  function Wake(s: State): State {
    if s.waker then s.(waker := false, queued := s.queued + 1) else s
  }

  /** The handler with data ready: the flags say whether it takes the write branch or the read branch. */
  function Handler(s: State, disk: Disk, lba: u32): State {
    var s1 := if !s.writeComplete && s.complete then s.(writeComplete := true)
              else s.(buffer := At(disk, lba), complete := true);
    Wake(s1.(drive := Ready))
  }

  function Apply(s: State, disk: Disk, a: Action): State {
    match a
    case Request(lba) => s.(pc := StorePending(lba), requests := s.requests + [lba])
    case TaskStep => TaskDoes(s)
    case Poll => if s.pc.Parked? && s.queued > 0 then s.(pc := Check(s.pc.lba), queued := s.queued - 1) else s
    case SpuriousWake => s.(queued := s.queued + 1)
    case Interrupt => if s.drive.Busy? then Handler(s, disk, s.drive.lba) else s
  }

  // ---------- The invariant ----------

  /** The command has been issued and the future is being polled or waits. */
  predicate Issued(pc: Pc) { pc.Check? || pc.Register? || pc.CheckAgain? || pc.Parked? }

  /** The number of the sector the drive reads for `lba`. */
  function Addressed(lba: u32): u32 { lba % LBA_LIMIT }

  predicate Inv(s: State, disk: Disk) {
    && !s.writeComplete && History(s, disk)
    && (!s.pc.Idle? && !s.pc.StorePending? ==> s.pending == s.pc.lba)
    && (s.pc.Command? ==> s.registers == LbaRegisters(s.pc.lba))
    && (if Issued(s.pc) then
          && (s.complete <==> s.drive.Ready?)
          && (s.drive.Busy? ==> s.drive.lba == Addressed(s.pc.lba))
          && (s.complete ==> s.buffer == At(disk, Addressed(s.pc.lba)))
        else s.drive.Ready? && !s.complete)
    && (s.pc.CheckAgain? && s.drive.Busy? ==> s.waker)
    && (s.pc.Parked? ==> s.queued > 0 || (s.drive.Busy? && s.waker))
  }

  /** Results answer the requests in order, with the sectors the drive addresses. */
  predicate History(s: State, disk: Disk) {
    && |s.requests| == |s.results| + (if s.pc.Idle? then 0 else 1)
    && (forall i :: 0 <= i < |s.results| ==> s.results[i] == At(disk, Addressed(s.requests[i])))
    && (!s.pc.Idle? ==> s.requests[|s.results|] == s.pc.lba)
  }

  lemma TestKeeps(s: State, disk: Disk, otherwise: Pc)
    requires Inv(s, disk) && (s.pc.Check? || s.pc.CheckAgain?)
    requires otherwise == if s.pc.Check? then Register(s.pc.lba) else Parked(s.pc.lba)
    ensures Inv(Test(s, s.pc.lba, otherwise), disk)
  {
  }

  lemma CommandKeeps(s: State, disk: Disk)
    requires Inv(s, disk) && s.pc.Command?
    ensures Inv(TaskDoes(s), disk)
  {
    DecodeLba(s.pc.lba);
    assert TaskDoes(s) == s.(pc := Check(s.pc.lba), drive := Busy(Addressed(s.pc.lba)));
  }

  lemma TaskKeeps(s: State, disk: Disk)
    requires Inv(s, disk) && !s.pc.Idle? && !s.pc.Parked?
    ensures Inv(TaskDoes(s), disk)
  {
    match s.pc
    case SetRegisters(lba) =>
    case Command(lba) => CommandKeeps(s, disk);
    case Check(lba) => TestKeeps(s, disk, Register(lba));
    case CheckAgain(lba) => TestKeeps(s, disk, Parked(lba));
    case _ =>
  }

  lemma ActionKeeps(s: State, disk: Disk, a: Action)
    requires Inv(s, disk) && Enabled(s, a)
    ensures Inv(Apply(s, disk, a), disk)
  {
    if a.TaskStep? {
      TaskKeeps(s, disk);
    }
  }

  function After(disk: Disk, run: seq<Action>): State {
    if run == [] then Init() else Apply(After(disk, run[..|run| - 1]), disk, run[|run| - 1])
  }

  predicate IsRun(disk: Disk, run: seq<Action>) {
    run == [] || (IsRun(disk, run[..|run| - 1]) && Enabled(After(disk, run[..|run| - 1]), run[|run| - 1]))
  }

  lemma {:induction false} RunKeeps(disk: Disk, run: seq<Action>)
    requires IsRun(disk, run)
    ensures Inv(After(disk, run), disk)
  {
    if run != [] {
      RunKeeps(disk, run[..|run| - 1]);
      ActionKeeps(After(disk, run[..|run| - 1]), disk, run[|run| - 1]);
    }
  }

  /** Every read that has returned gave the sector that was asked for, if it was addressable with 28 bits. */
  lemma ReadsAreCorrect(disk: Disk, run: seq<Action>, i: nat)
    requires IsRun(disk, run) && i < |After(disk, run).results|
    ensures var s := After(disk, run);
            && i < |s.requests| && s.results[i] == At(disk, Addressed(s.requests[i]))
            && (s.requests[i] < 0x1000_0000 ==> s.results[i] == At(disk, s.requests[i]))
  {
    RunKeeps(disk, run);
    AddressedSmall(After(disk, run).requests[i]);
  }

  lemma AddressedSmall(lba: u32)
    ensures lba < LBA_LIMIT ==> Addressed(lba) == lba
  {
  }

  lemma Extend(disk: Disk, run: seq<Action>, a: Action)
    requires IsRun(disk, run) && Enabled(After(disk, run), a)
    ensures IsRun(disk, run + [a]) && After(disk, run + [a]) == Apply(After(disk, run), disk, a)
  {
    assert (run + [a])[..|run|] == run;
  }

  /** For every disk and every sector number some run asks for it and gets the sector the drive addresses. */
  lemma ReadReturns(disk: Disk, lba: u32) returns (run: seq<Action>)
    ensures IsRun(disk, run) && After(disk, run).requests == [lba]
    ensures After(disk, run).results == [At(disk, Addressed(lba))]
  {
    run := CommandIssued(disk, lba);
    Extend(disk, run, Interrupt);
    run := run + [Interrupt];
    Extend(disk, run, TaskStep);
    run := run + [TaskStep];
  }

  lemma CommandIssued(disk: Disk, lba: u32) returns (run: seq<Action>)
    ensures IsRun(disk, run)
    ensures var s := After(disk, run);
            && s.pc == Check(lba) && s.pending == lba && !s.complete && !s.writeComplete
            && s.drive == Busy(Addressed(lba)) && s.requests == [lba] && s.results == []
  {
    DecodeLba(lba);
    Extend(disk, [], Request(lba));
    run := [] + [Request(lba)];
    Extend(disk, run, TaskStep);
    run := run + [TaskStep];
    Extend(disk, run, TaskStep);
    run := run + [TaskStep];
    Extend(disk, run, TaskStep);
    run := run + [TaskStep];
    Extend(disk, run, TaskStep);
    run := run + [TaskStep];
  }

  /** Beyond 28 bits some disk and some run return another sector than the one that was asked for. */
  lemma WrongSectorBeyondLimit(lba: u32) returns (disk: Disk, run: seq<Action>)
    requires lba >= 0x1000_0000
    ensures IsRun(disk, run) && After(disk, run).requests == [lba]
    ensures |After(disk, run).results| == 1 && After(disk, run).results[0] != At(disk, lba)
  {
    disk := map[(lba as int) := seq(SECTOR_SIZE, _ => 1)];
    run := ReadReturns(disk, lba);
    assert At(disk, lba)[0] == 1 && At(disk, Addressed(lba))[0] == 0;
  }

  /**
   Once a read is complete no interrupt is due until its task has consumed it: nothing can come
   between the loads, the store and the copy of a completion test that succeeds.
   */
  lemma NoInterruptWhenComplete(disk: Disk, run: seq<Action>)
    requires IsRun(disk, run)
    ensures var s := After(disk, run); s.complete ==> Issued(s.pc) && s.pending == s.pc.lba && !Enabled(s, Interrupt)
  {
    RunKeeps(disk, run);
  }

  /** No lost completion: a read that has completed but is parked always has its task queued again. */
  lemma CompletedIsQueued(disk: Disk, run: seq<Action>)
    requires IsRun(disk, run)
    ensures var s := After(disk, run);
            s.pc.Parked? ==> (s.complete ==> s.queued > 0) && (s.queued == 0 ==> s.drive.Busy? && s.waker)
  {
    RunKeeps(disk, run);
  }
}
