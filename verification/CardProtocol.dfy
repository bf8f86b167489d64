/**
 * The card shared by many callers (cryptocard.c): one register file, one lock, one wake-up flag. Callers take steps,
 * the device finishes jobs and raises interrupts, and the interrupt handler runs, all in any order. The configuration
 * of a handle is changed without the lock.
 */
module CardProtocol {
  import opened Common
  import opened Cipher

  datatype Direction = Enc | Dec

  /** What a job is: a direction, a key and a text. */
  datatype Job = Job(dir: Direction, a: u8, b: u8, text: seq<schar>)

  function Result(j: Job): (r: seq<schar>)
    ensures |r| == |j.text|
  {
    if j.dir == Enc then Encrypt(j.a, j.b, j.text) else Decrypt(j.a, j.b, j.text)
  }

  /** The routines keep the length in 32 bits: the part of the text that they handle. */
  function Cut(j: Job): Job
  {
    j.(text := j.text[..|j.text| % TWO32])
  }

  /** What a call makes of its text: the part handled is ciphered, the rest stays. */
  function Effect(j: Job): (r: seq<schar>)
    ensures |r| == |j.text|
  {
    Result(Cut(j)) + j.text[|j.text| % TWO32..]
  }

  lemma EffectShort(j: Job)
    requires |j.text| < TWO32
    ensures Cut(j) == j && Effect(j) == Result(j)
  {
    assert j.text[..|j.text|] == j.text;
    assert Result(j) + [] == Result(j);
  }

  /** One character beyond the length: it should be ciphered, and stays. */
  lemma BeyondStays(dir: Direction, a: u8, b: u8, text: seq<schar>, i: nat)
    requires |text| % TWO32 <= i < |text|
    ensures Effect(Job(dir, a, b, text))[i] == text[i]
    ensures Letter(text[i]) && dir == Enc && a == 1 && b == 0 ==> Result(Job(dir, a, b, text))[i] != text[i]
    ensures !Letter(text[i]) ==> Result(Job(dir, a, b, text))[i] == text[i]
  {
    EncryptByteShifts(a, b, text[i]);
    ShiftZero(text[i]);
    if Letter(text[i]) {
      ShiftEqual(1, 0, text[i]);
    }
  }

  lemma WithinCiphered(j: Job, i: nat)
    requires i < |j.text| % TWO32
    ensures i < |j.text| && Effect(j)[i] == Result(j)[i]
  {
  }

  /**
   * A text is ciphered whole, in either direction and under every key, if and only if there is no letter beyond the
   * length that 32 bits can hold.
   */
  lemma WholeText(text: seq<schar>)
    ensures (forall dir, a, b :: Effect(Job(dir, a, b, text)) == Result(Job(dir, a, b, text))) <==>
            forall i | |text| % TWO32 <= i < |text| :: !Letter(text[i])
  {
    var n := |text| % TWO32;
    if i: nat :| n <= i < |text| && Letter(text[i]) {
      BeyondStays(Enc, 1, 0, text, i);
    } else {
      forall dir, a, b ensures Effect(Job(dir, a, b, text)) == Result(Job(dir, a, b, text)) {
        var j := Job(dir, a, b, text);
        forall i: nat | i < |text| ensures Effect(j)[i] == Result(j)[i] {
          if i < n {
            WithinCiphered(j, i);
          } else {
            BeyondStays(dir, a, b, text, i);
          }
        }
      }
    }
  }

  // ---------------------------------------------------------------------------------------------
  // The device

  /** `dma` are the coherent buffers in memory, one a caller; the address register names one of them. */
  datatype Regs = Regs(
    key: nat,
    status: nat, mmLen: nat, io: seq<schar>, mmBusy: bool,
    dmaLen: nat, dmaAddr: nat, dmaCmd: nat, dmaBusy: bool, dma: seq<seq<schar>>,
    pending: bool, acked: bool, flag: bool)

  predicate Bit(v: nat, weight: nat)
    requires weight > 0
  {
    v / weight % 2 == 1
  }

  function Way(decrypt: bool): Direction { if decrypt then Dec else Enc }

  predicate MmFits(r: Regs) { r.mmLen <= |r.io| }

  predicate DmaFits(r: Regs) { r.dmaAddr < |r.dma| && r.dmaLen <= |r.dma[r.dmaAddr]| }

  /** The job that the registers describe. */
  function MmJob(r: Regs): Job
    requires MmFits(r)
  {
    Job(Way(Bit(r.status, 2)), r.key / 256 % 256, r.key % 256, r.io[..r.mmLen])
  }

  function DmaJob(r: Regs): Job
    requires DmaFits(r)
  {
    Job(Way(Bit(r.dmaCmd, 2)), r.key / 256 % 256, r.key % 256, r.dma[r.dmaAddr][..r.dmaLen])
  }

  /** A job ends: the text is replaced, the busy bit cleared, and an interrupt raised if asked for. */
  function FinishMm(r: Regs): Regs
  {
    if r.mmBusy && MmFits(r) then
      r.(io := Result(MmJob(r)) + r.io[r.mmLen..], mmBusy := false, pending := r.pending || Bit(r.status, 128))
    else r
  }

  function FinishDma(r: Regs): Regs
  {
    if r.dmaBusy && DmaFits(r) then
      r.(dma := r.dma[r.dmaAddr := Result(DmaJob(r)) + r.dma[r.dmaAddr][r.dmaLen..]],
         dmaBusy := false, pending := r.pending || Bit(r.dmaCmd, 4))
    else r
  }

  /** The interrupt handler acknowledges the interrupt, */
  function Ack(r: Regs): Regs
  {
    if r.pending then r.(pending := false, acked := true) else r
  }

  /** and then sets the flag and wakes the sleeper. */
  function SetFlag(r: Regs): Regs
  {
    if r.acked then r.(acked := false, flag := true) else r
  }

  // ---------------------------------------------------------------------------------------------
  // The callers

  datatype Instr =
    | WriteKey
    | CopyIn            // from the user's buffer
    | SetStatus(v: nat)
    | ToIo
    | SetMmLen
    | AwaitMm           // spin while the status register says busy
    | StartMm
    | FromIo
    | ToDma
    | SetDmaLen
    | SetDmaAddr
    | AwaitDma
    | StartDma(v: nat)
    | FromDma
    | AwaitFlag         // sleep until the flag is set
    | ClearFlag
    | CopyOut           // to the user's buffer

  datatype Prog = Done | Do(instr: Instr, rest: Prog)

  // The eight transfer routines, each between the copies from and to the user.

  function MmPollTail(): Prog { Do(AwaitMm, Do(FromIo, Do(CopyOut, Done))) }

  function MmIntTail(): Prog { Do(AwaitFlag, Do(ClearFlag, Do(FromIo, Do(CopyOut, Done)))) }

  function DmaPollTail(): Prog { Do(AwaitDma, Do(FromDma, Do(CopyOut, Done))) }

  function DmaIntTail(): Prog { Do(AwaitFlag, Do(ClearFlag, Do(FromDma, Do(CopyOut, Done)))) }

  function MmHead(status: nat, tail: Prog): Prog
  {
    Do(SetStatus(status), Do(ToIo, Do(SetMmLen, Do(AwaitMm, Do(StartMm, tail)))))
  }

  function DmaHead(cmd: nat, tail: Prog): Prog
  {
    Do(ToDma, Do(SetDmaLen, Do(SetDmaAddr, Do(AwaitDma, Do(StartDma(cmd), tail)))))
  }

  /** decryption_mmio_poll writes the length first. */
  function DecMmPoll(): Prog
  {
    Do(SetMmLen, Do(SetStatus(0x02), Do(ToIo, Do(AwaitMm, Do(StartMm, MmPollTail())))))
  }

  function Routine(dir: Direction, dma: u8, interrupt: u8): Prog
  {
    if dma == 0 then
      if interrupt == 0 then (if dir == Enc then MmHead(0x00, MmPollTail()) else DecMmPoll())
      else MmHead(if dir == Enc then 0x80 else 0x82, MmIntTail())
    else
      if interrupt == 0 then DmaHead(if dir == Enc then 0x1 else 0x3, DmaPollTail())
      else DmaHead(if dir == Enc then 0x5 else 0x7, DmaIntTail())
  }

  /**
   * `a`, `b`, `interrupt` and `dma` are what the call has read of its handle's configuration; `byA` and `byB` say which
   * setting of the key had written `a` and `b`. The driver's copy of the user's text is `buf`, the part that the
   * routines handle, and `rest`.
   */
  datatype Call = Call(handle: nat, dir: Direction, a: u8, b: u8, byA: nat, byB: nat, interrupt: u8, dma: u8,
                       user: seq<schar>, buf: seq<schar>, rest: seq<schar>, out: seq<schar>)

  /** What the call is asked for, and the job it gives the device. */
  function Asked(c: Call): Job { Job(c.dir, c.a, c.b, c.user) }

  function JobOf(c: Call): Job { Cut(Asked(c)) }

  /** Whether the instruction must still wait. */
  predicate Blocked(r: Regs, i: Instr)
  {
    match i
    case AwaitMm => r.mmBusy
    case AwaitDma => r.dmaBusy
    case AwaitFlag => !r.flag
    case _ => false
  }

  /** The registers after an instruction of caller `me`. */
  function Written(r: Regs, me: nat, c: Call, i: Instr): Regs
  {
    match i
    case WriteKey => r.(key := c.a * 256 + c.b)
    case SetStatus(v) => r.(status := v)
    case ToIo => if |c.buf| <= |r.io| then r.(io := c.buf + r.io[|c.buf|..]) else r
    case SetMmLen => r.(mmLen := |c.buf|)
    case StartMm => r.(mmBusy := true)
    case ToDma => if me < |r.dma| then r.(dma := r.dma[me := c.buf]) else r
    case SetDmaLen => r.(dmaLen := |c.buf|)
    case SetDmaAddr => r.(dmaAddr := me)
    case StartDma(v) => r.(dmaCmd := v, dmaBusy := true)
    case ClearFlag => r.(flag := false)
    case _ => r
  }

  /** The caller's own variables after an instruction. */
  function Read(r: Regs, me: nat, c: Call, i: Instr): Call
  {
    match i
    case CopyIn => c.(buf := JobOf(c).text, rest := c.user[|c.user| % TWO32..])
    case FromIo => if |c.buf| <= |r.io| then c.(buf := r.io[..|c.buf|]) else c
    case FromDma => if me < |r.dma| && |c.buf| <= |r.dma[me]| then c.(buf := r.dma[me][..|c.buf|]) else c
    case CopyOut => c.(out := c.buf + c.rest)
    case _ => c
  }

  datatype Pc =
    | Outside
    | Waiting                      // for the lock
    | ReadA | ReadB | ReadInt | ReadDma
    | Running(rest: Prog)
    | SetFirst(key: Key, k: nat)   // SET_KEY, before its first write
    | SetSecond(key: Key, k: nat)  // SET_KEY, between its two writes

  datatype Thread = Thread(pc: Pc, call: Call)

  datatype Config = Config(a: u8, b: u8, dma: u8, interrupt: u8)

  datatype Key = Key(a: u8, b: u8)

  /**
   * An open file. `asked` are the keys of all SET_KEY calls, in the order of the calls, after the key the handle
   * starts with; `whole` are those that have been written whole; `byA` and `byB` say which of `asked` the two
   * components of the key are from.
   */
  datatype Handle = Handle(config: Config, byA: nat, byB: nat, asked: seq<Key>, whole: seq<Key>)

  /** A finished call: what it was asked for, and what its user got. */
  datatype Finished = Finished(handle: nat, asked: Job, out: seq<schar>)

  /**
   * The device was started by `caller`: on `job`, by DMA or not, to interrupt or not, as its registers say. `own` is
   * the caller's own job.
   */
  datatype Started = Started(caller: nat, handle: nat, own: Job, job: Job, dma: bool, interrupt: bool)

  datatype State = State(r: Regs, handles: seq<Handle>, threads: seq<Thread>, lock: Option<nat>,
                         started: seq<Started>, finished: seq<Finished>)

  datatype Action =
    | SetConfig(h: nat, mode: u8, v: u8)
    | EnterSet(i: nat, h: nat, key: Key)
    | Enter(i: nat, h: nat, dir: Direction, user: seq<schar>)
    | Proceed(i: nat)
    | DeviceMm | DeviceDma | Acknowledge | Wake

  // The steps. An action that is not possible now changes nothing.

  /** SET_CONFIG: mode 0 is the interrupt setting, any other the DMA setting. */
  function Configured(c: Config, mode: u8, v: u8): Config
  {
    if mode == 0 then c.(interrupt := v) else c.(dma := v)
  }

  function Configure(s: State, h: nat, c: Config): State
    requires h < |s.handles|
  {
    s.(handles := s.handles[h := s.handles[h].(config := c)])
  }

  /** SET_KEY is called; nothing is locked. */
  function EnterSetStep(s: State, i: nat, h: nat, key: Key): State
  {
    if i < |s.threads| && s.threads[i].pc == Outside && h < |s.handles| then
      var t := s.threads[i];
      s.(threads := s.threads[i := Thread(SetFirst(key, |s.handles[h].asked|), t.call.(handle := h))],
         handles := s.handles[h := s.handles[h].(asked := s.handles[h].asked + [key])])
    else s
  }

  /** The two writes of SET_KEY. */
  function SetStep(s: State, i: nat): State
    requires i < |s.threads| && s.threads[i].call.handle < |s.handles|
    requires s.threads[i].pc.SetFirst? || s.threads[i].pc.SetSecond?
  {
    var t := s.threads[i];
    var h := s.handles[t.call.handle];
    match t.pc
    case SetFirst(key, k) =>
      s.(threads := s.threads[i := t.(pc := SetSecond(key, k))],
         handles := s.handles[t.call.handle := h.(config := h.config.(a := key.a), byA := k)])
    case SetSecond(key, k) =>
      s.(threads := s.threads[i := t.(pc := Outside)],
         handles := s.handles[t.call.handle :=
           h.(config := h.config.(b := key.b), byB := k, whole := h.whole + [key])])
  }

  /** ENCRYPT or DECRYPT is called. */
  function EnterStep(s: State, i: nat, h: nat, dir: Direction, user: seq<schar>): State
  {
    if i < |s.threads| && s.threads[i].pc == Outside && h < |s.handles| then
      s.(threads := s.threads[i := Thread(Waiting, Call(h, dir, 0, 0, 0, 0, 0, 0, user, [], [], []))])
    else s
  }

  /** A text that goes through the card's data area must fit it. */
  predicate TextFits(r: Regs, c: Call)
  {
    c.dma == 0 ==> |JobOf(c).text| <= |r.io|
  }

  /** The locked section after the configuration has been read. */
  function Program(c: Call): Prog
  {
    Do(WriteKey, Do(CopyIn, Routine(c.dir, c.dma, c.interrupt)))
  }

  /** Taking the lock, then reading the configuration field by field. A call whose text does not fit goes no further. */
  function PrepareStep(s: State, i: nat): State
    requires i < |s.threads| && s.threads[i].call.handle < |s.handles|
  {
    var t := s.threads[i];
    var h := s.handles[t.call.handle];
    match t.pc
    case Waiting => if s.lock == None then s.(lock := Some(i), threads := s.threads[i := t.(pc := ReadA)]) else s
    case ReadA => s.(threads := s.threads[i := Thread(ReadB, t.call.(a := h.config.a, byA := h.byA))])
    case ReadB => s.(threads := s.threads[i := Thread(ReadInt, t.call.(b := h.config.b, byB := h.byB))])
    case ReadInt => s.(threads := s.threads[i := Thread(ReadDma, t.call.(interrupt := h.config.interrupt))])
    case ReadDma =>
      var c := t.call.(dma := h.config.dma);
      if TextFits(s.r, c) then s.(threads := s.threads[i := Thread(Running(Program(c)), c)]) else s
    case _ => s
  }

  function Starts(r: Regs, me: nat, c: Call, instr: Instr): seq<Started>
  {
    if instr.StartMm? && MmFits(r) then
      [Started(me, c.handle, JobOf(c), MmJob(r), false, Bit(r.status, 128))]
    else if instr.StartDma? && DmaFits(r) then
      [Started(me, c.handle, JobOf(c), DmaJob(r.(dmaCmd := instr.v)), true, Bit(instr.v, 4))]
    else []
  }

  /** The next instruction, or the unlock after the last. */
  function RunStep(s: State, i: nat): State
    requires i < |s.threads| && s.threads[i].pc.Running?
  {
    var c := s.threads[i].call;
    match s.threads[i].pc.rest
    case Done =>
      s.(threads := s.threads[i := Thread(Outside, c)], lock := None,
         finished := s.finished + [Finished(c.handle, Asked(c), c.out)])
    case Do(instr, rest) =>
      if Blocked(s.r, instr) then s
      else s.(r := Written(s.r, i, c, instr), threads := s.threads[i := Thread(Running(rest), Read(s.r, i, c, instr))],
              started := s.started + Starts(s.r, i, c, instr))
  }

  function ProceedStep(s: State, i: nat): State
  {
    if i < |s.threads| && s.threads[i].call.handle < |s.handles| then
      match s.threads[i].pc
      case Running(_) => RunStep(s, i)
      case SetFirst(_, _) => SetStep(s, i)
      case SetSecond(_, _) => SetStep(s, i)
      case _ => PrepareStep(s, i)
    else s
  }

  function Step(s: State, act: Action): State
  {
    match act
    case SetConfig(h, mode, v) =>
      if h < |s.handles| then Configure(s, h, Configured(s.handles[h].config, mode, v)) else s
    case EnterSet(i, h, key) => EnterSetStep(s, i, h, key)
    case Enter(i, h, dir, user) => EnterStep(s, i, h, dir, user)
    case Proceed(i) => ProceedStep(s, i)
    case DeviceMm => s.(r := FinishMm(s.r))
    case DeviceDma => s.(r := FinishDma(s.r))
    case Acknowledge => s.(r := Ack(s.r))
    case Wake => s.(r := SetFlag(s.r))
  }

  // ---------------------------------------------------------------------------------------------
  // A caller undisturbed

  /** No job, no interrupt and no flag. */
  predicate Quiet(r: Regs)
  {
    !r.mmBusy && !r.dmaBusy && !r.pending && !r.acked && !r.flag
  }

  /** Exactly one of: a job that will interrupt, its interrupt, the handler at work, the flag it sets. */
  predicate WakeUpOnItsWay(r: Regs)
  {
    || (r.mmBusy && MmFits(r) && Bit(r.status, 128) && Quiet(r.(mmBusy := false)))
    || (r.dmaBusy && DmaFits(r) && Bit(r.dmaCmd, 4) && Quiet(r.(dmaBusy := false)))
    || (r.pending && Quiet(r.(pending := false)))
    || (r.acked && Quiet(r.(acked := false)))
    || (r.flag && Quiet(r.(flag := false)))
  }

  /** What must hold before an instruction. The device is started on the caller's own job. */
  predicate Allowed(r: Regs, me: nat, c: Call, i: Instr)
  {
    match i
    case AwaitMm => Quiet(r) || (r.mmBusy && MmFits(r) && !Bit(r.status, 128) && Quiet(r.(mmBusy := false)))
    case AwaitDma => Quiet(r) || (r.dmaBusy && DmaFits(r) && !Bit(r.dmaCmd, 4) && Quiet(r.(dmaBusy := false)))
    case AwaitFlag => WakeUpOnItsWay(r)
    case ClearFlag => r.flag && Quiet(r.(flag := false))
    case StartMm => Quiet(r) && MmFits(r) && MmJob(r) == JobOf(c)
    case StartDma(v) => Quiet(r) && DmaFits(r) && DmaJob(r.(dmaCmd := v)) == JobOf(c)
    case _ => Quiet(r)
  }

  /** The next thing that the device or the interrupt handler does. */
  function DeviceNext(r: Regs): Regs
  {
    if r.mmBusy then FinishMm(r) else if r.dmaBusy then FinishDma(r) else if r.pending then Ack(r) else SetFlag(r)
  }

  function ToCome(r: Regs): nat
  {
    (if r.mmBusy then 3 else 0) + (if r.dmaBusy then 3 else 0) + (if r.pending then 2 else 0) + if r.acked then 1 else 0
  }

  /** What the caller's user gets if nobody else takes a step, or None if an instruction comes when it must not. */
  function Outcome(r: Regs, me: nat, c: Call, p: Prog): Option<seq<schar>>
    decreases p, ToCome(r)
  {
    match p
    case Done => if Quiet(r) then Some(c.out) else None
    case Do(i, rest) =>
      if !Allowed(r, me, c, i) then None
      else if Blocked(r, i) then Outcome(DeviceNext(r), me, c, p)
      else Outcome(Written(r, me, c, i), me, Read(r, me, c, i), rest)
  }

  // Each routine, by itself, does the caller's job.

  lemma MmPollTailWorks(r: Regs, me: nat, c: Call)
    requires r.mmBusy && MmFits(r) && !Bit(r.status, 128) && Quiet(r.(mmBusy := false)) && r.mmLen == |c.buf|
    ensures Outcome(r, me, c, MmPollTail()) == Some(Result(MmJob(r)) + c.rest)
  {
    var r' := FinishMm(r);
    var c' := Read(r', me, c, FromIo);
    assert c'.buf == Result(MmJob(r));
    calc {
      Outcome(r, me, c, MmPollTail());
      Outcome(r', me, c, MmPollTail());
      Outcome(r', me, c, Do(FromIo, Do(CopyOut, Done)));
      Outcome(r', me, c', Do(CopyOut, Done));
      Some(c'.buf + c.rest);
    }
  }

  lemma MmIntTailWorks(r: Regs, me: nat, c: Call)
    requires r.mmBusy && MmFits(r) && Bit(r.status, 128) && Quiet(r.(mmBusy := false)) && r.mmLen == |c.buf|
    ensures Outcome(r, me, c, MmIntTail()) == Some(Result(MmJob(r)) + c.rest)
  {
    var r1 := FinishMm(r);
    var r2 := SetFlag(Ack(r1));
    var r3 := r2.(flag := false);
    var c' := Read(r3, me, c, FromIo);
    assert c'.buf == Result(MmJob(r));
    calc {
      Outcome(r, me, c, MmIntTail());
      Outcome(r1, me, c, MmIntTail());
      Outcome(Ack(r1), me, c, MmIntTail());
      Outcome(r2, me, c, MmIntTail());
      Outcome(r2, me, c, Do(ClearFlag, Do(FromIo, Do(CopyOut, Done))));
      Outcome(r3, me, c, Do(FromIo, Do(CopyOut, Done)));
      Outcome(r3, me, c', Do(CopyOut, Done));
      Some(c'.buf + c.rest);
    }
  }

  lemma DmaPollTailWorks(r: Regs, me: nat, c: Call)
    requires r.dmaBusy && DmaFits(r) && !Bit(r.dmaCmd, 4) && Quiet(r.(dmaBusy := false)) && r.dmaLen == |c.buf|
             && r.dmaAddr == me
    ensures Outcome(r, me, c, DmaPollTail()) == Some(Result(DmaJob(r)) + c.rest)
  {
    var r' := FinishDma(r);
    var c' := Read(r', me, c, FromDma);
    assert c'.buf == Result(DmaJob(r));
    calc {
      Outcome(r, me, c, DmaPollTail());
      Outcome(r', me, c, DmaPollTail());
      Outcome(r', me, c, Do(FromDma, Do(CopyOut, Done)));
      Outcome(r', me, c', Do(CopyOut, Done));
      Some(c'.buf + c.rest);
    }
  }

  lemma DmaIntTailWorks(r: Regs, me: nat, c: Call)
    requires r.dmaBusy && DmaFits(r) && Bit(r.dmaCmd, 4) && Quiet(r.(dmaBusy := false)) && r.dmaLen == |c.buf|
             && r.dmaAddr == me
    ensures Outcome(r, me, c, DmaIntTail()) == Some(Result(DmaJob(r)) + c.rest)
  {
    var r1 := FinishDma(r);
    var r2 := SetFlag(Ack(r1));
    var r3 := r2.(flag := false);
    var c' := Read(r3, me, c, FromDma);
    assert c'.buf == Result(DmaJob(r));
    calc {
      Outcome(r, me, c, DmaIntTail());
      Outcome(r1, me, c, DmaIntTail());
      Outcome(Ack(r1), me, c, DmaIntTail());
      Outcome(r2, me, c, DmaIntTail());
      Outcome(r2, me, c, Do(ClearFlag, Do(FromDma, Do(CopyOut, Done))));
      Outcome(r3, me, c, Do(FromDma, Do(CopyOut, Done)));
      Outcome(r3, me, c', Do(CopyOut, Done));
      Some(c'.buf + c.rest);
    }
  }

  /** The key register holds the caller's key, and the caller its copy of the text. */
  predicate Prepared(r: Regs, c: Call)
  {
    Quiet(r) && r.key == c.a * 256 + c.b && c.buf == JobOf(c).text && c.rest == c.user[|c.user| % TWO32..]
  }

  lemma MmHeadWorks(r: Regs, me: nat, c: Call, v: nat, tail: Prog)
    requires Prepared(r, c) && |c.buf| <= |r.io| && Way(Bit(v, 2)) == c.dir
    ensures var r' := r.(status := v, io := c.buf + r.io[|c.buf|..], mmLen := |c.buf|, mmBusy := true);
            MmFits(r') && MmJob(r') == JobOf(c) && Outcome(r, me, c, MmHead(v, tail)) == Outcome(r', me, c, tail)
  {
    var r1 := r.(status := v);
    var r2 := r1.(io := c.buf + r.io[|c.buf|..]);
    var r3 := r2.(mmLen := |c.buf|);
    assert MmJob(r3) == JobOf(c);
    calc {
      Outcome(r, me, c, MmHead(v, tail));
      Outcome(r1, me, c, Do(ToIo, Do(SetMmLen, Do(AwaitMm, Do(StartMm, tail)))));
      Outcome(r2, me, c, Do(SetMmLen, Do(AwaitMm, Do(StartMm, tail))));
      Outcome(r3, me, c, Do(AwaitMm, Do(StartMm, tail)));
      Outcome(r3, me, c, Do(StartMm, tail));
      Outcome(r3.(mmBusy := true), me, c, tail);
    }
  }

  lemma DecMmPollWorks(r: Regs, me: nat, c: Call)
    requires Prepared(r, c) && |c.buf| <= |r.io| && c.dir == Dec
    ensures Outcome(r, me, c, DecMmPoll()) == Some(Effect(Asked(c)))
  {
    var r1 := r.(mmLen := |c.buf|);
    var r2 := r1.(status := 0x02);
    var r3 := r2.(io := c.buf + r.io[|c.buf|..]);
    var r4 := r3.(mmBusy := true);
    assert MmJob(r3) == JobOf(c);
    calc {
      Outcome(r, me, c, DecMmPoll());
      Outcome(r1, me, c, Do(SetStatus(0x02), Do(ToIo, Do(AwaitMm, Do(StartMm, MmPollTail())))));
      Outcome(r2, me, c, Do(ToIo, Do(AwaitMm, Do(StartMm, MmPollTail()))));
      Outcome(r3, me, c, Do(AwaitMm, Do(StartMm, MmPollTail())));
      Outcome(r3, me, c, Do(StartMm, MmPollTail()));
      Outcome(r4, me, c, MmPollTail());
      { MmPollTailWorks(r4, me, c); }
      Some(Effect(Asked(c)));
    }
  }

  lemma DmaHeadWorks(r: Regs, me: nat, c: Call, v: nat, tail: Prog)
    requires Prepared(r, c) && me < |r.dma| && Way(Bit(v, 2)) == c.dir
    ensures var r' := r.(dma := r.dma[me := c.buf], dmaLen := |c.buf|, dmaAddr := me, dmaCmd := v, dmaBusy := true);
            DmaFits(r') && DmaJob(r') == JobOf(c) && Outcome(r, me, c, DmaHead(v, tail)) == Outcome(r', me, c, tail)
  {
    var r1 := r.(dma := r.dma[me := c.buf]);
    var r2 := r1.(dmaLen := |c.buf|);
    var r3 := r2.(dmaAddr := me);
    assert DmaJob(r3.(dmaCmd := v)) == JobOf(c);
    calc {
      Outcome(r, me, c, DmaHead(v, tail));
      Outcome(r1, me, c, Do(SetDmaLen, Do(SetDmaAddr, Do(AwaitDma, Do(StartDma(v), tail)))));
      Outcome(r2, me, c, Do(SetDmaAddr, Do(AwaitDma, Do(StartDma(v), tail))));
      Outcome(r3, me, c, Do(AwaitDma, Do(StartDma(v), tail)));
      Outcome(r3, me, c, Do(StartDma(v), tail));
      Outcome(r3.(dmaCmd := v, dmaBusy := true), me, c, tail);
    }
  }

  /** Whatever the mode, the routine leaves the cipher of the caller's text: all modes agree. */
  lemma RoutineWorks(r: Regs, me: nat, c: Call)
    requires Prepared(r, c) && me < |r.dma| && TextFits(r, c)
    ensures Outcome(r, me, c, Routine(c.dir, c.dma, c.interrupt)) == Some(Effect(Asked(c)))
  {
    if c.dma == 0 {
      if c.interrupt == 0 && c.dir == Dec {
        DecMmPollWorks(r, me, c);
      } else {
        var v := if c.interrupt == 0 then 0x00 else if c.dir == Enc then 0x80 else 0x82;
        var tail := if c.interrupt == 0 then MmPollTail() else MmIntTail();
        MmHeadWorks(r, me, c, v, tail);
        var r' := r.(status := v, io := c.buf + r.io[|c.buf|..], mmLen := |c.buf|, mmBusy := true);
        if c.interrupt == 0 {
          MmPollTailWorks(r', me, c);
        } else {
          MmIntTailWorks(r', me, c);
        }
      }
    } else {
      var v := if c.interrupt == 0 then (if c.dir == Enc then 0x1 else 0x3) else if c.dir == Enc then 0x5 else 0x7;
      var tail := if c.interrupt == 0 then DmaPollTail() else DmaIntTail();
      DmaHeadWorks(r, me, c, v, tail);
      var r' := r.(dma := r.dma[me := c.buf], dmaLen := |c.buf|, dmaAddr := me, dmaCmd := v, dmaBusy := true);
      if c.interrupt == 0 {
        DmaPollTailWorks(r', me, c);
      } else {
        DmaIntTailWorks(r', me, c);
      }
    }
  }

  // ---------------------------------------------------------------------------------------------
  // The invariant

  predicate Inside(pc: Pc)
  {
    pc.ReadA? || pc.ReadB? || pc.ReadInt? || pc.ReadDma? || pc.Running?
  }

  ghost predicate Exclusive(threads: seq<Thread>, lock: Option<nat>)
  {
    && (lock.Some? ==> lock.value < |threads|)
    && forall i | 0 <= i < |threads| :: Inside(threads[i].pc) <==> lock == Some(i)
  }

  /** The card is quiet, or the holder of the lock is on its way to the result of its own job. */
  ghost predicate OnTheWay(r: Regs, threads: seq<Thread>, lock: Option<nat>)
    requires lock.Some? ==> lock.value < |threads|
  {
    if lock.Some? && threads[lock.value].pc.Running? then
      var t := threads[lock.value];
      Outcome(r, lock.value, t.call, t.pc.rest) == Some(Effect(Asked(t.call)))
    else Quiet(r)
  }

  ghost predicate Fitting(r: Regs, handles: nat, threads: seq<Thread>)
  {
    |r.dma| == |threads| && forall i | 0 <= i < |threads|
        && threads[i].pc != Outside :: threads[i].call.handle < handles
  }

  /** Every job started was the starting call's own, and every finished call got the effect of what it asked for. */
  ghost predicate Logged(started: seq<Started>, finished: seq<Finished>)
  {
    && (forall e | e in started :: e.job == e.own)
    && (forall f | f in finished :: f.out == Effect(f.asked))
  }

  ghost predicate Inv(s: State)
  {
    && Exclusive(s.threads, s.lock) && OnTheWay(s.r, s.threads, s.lock)
    && Fitting(s.r, |s.handles|, s.threads) && Logged(s.started, s.finished)
  }

  /** While the device has something to do, the holder of the lock waits for just that. */
  lemma {:induction false} HolderWaits(r: Regs, me: nat, c: Call, p: Prog)
    requires Outcome(r, me, c, p).Some? && (r.mmBusy || r.dmaBusy || r.pending || r.acked)
    ensures p.Do? && Blocked(r, p.instr) && Outcome(DeviceNext(r), me, c, p) == Outcome(r, me, c, p)
    ensures r.mmBusy ==> MmFits(r) && !r.dmaBusy && !r.pending && !r.acked
    ensures r.dmaBusy ==> DmaFits(r) && !r.pending && !r.acked
    ensures r.pending ==> !r.acked
  {
  }

  /** What the device does by itself does not change where the holder of the lock is going. */
  lemma {:induction false} DeviceKeepsOutcome(r: Regs, me: nat, c: Call, p: Prog)
    requires Outcome(r, me, c, p).Some?
    ensures Outcome(FinishMm(r), me, c, p) == Outcome(r, me, c, p)
    ensures Outcome(FinishDma(r), me, c, p) == Outcome(r, me, c, p)
    ensures Outcome(Ack(r), me, c, p) == Outcome(r, me, c, p)
    ensures Outcome(SetFlag(r), me, c, p) == Outcome(r, me, c, p)
  {
    if r.mmBusy || r.dmaBusy || r.pending || r.acked {
      HolderWaits(r, me, c, p);
    }
  }

  lemma DeviceKeeps(s: State, r: Regs)
    requires Inv(s) && r in {FinishMm(s.r), FinishDma(s.r), Ack(s.r), SetFlag(s.r)}
    ensures Inv(s.(r := r))
  {
    if s.lock.Some? && s.threads[s.lock.value].pc.Running? {
      var t := s.threads[s.lock.value];
      DeviceKeepsOutcome(s.r, s.lock.value, t.call, t.pc.rest);
    }
  }

  lemma ConfigureKeeps(s: State, h: nat, c: Config)
    requires Inv(s) && h < |s.handles|
    ensures Inv(Configure(s, h, c))
  {
  }

  lemma EnterSetKeeps(s: State, i: nat, h: nat, key: Key)
    requires Inv(s)
    ensures Inv(EnterSetStep(s, i, h, key))
  {
  }

  lemma SetKeeps(s: State, i: nat)
    requires Inv(s) && i < |s.threads| && s.threads[i].call.handle < |s.handles|
    requires s.threads[i].pc.SetFirst? || s.threads[i].pc.SetSecond?
    ensures Inv(SetStep(s, i))
  {
    assert !Inside(s.threads[i].pc);
  }

  lemma EnterKeeps(s: State, i: nat, h: nat, dir: Direction, user: seq<schar>)
    requires Inv(s)
    ensures Inv(EnterStep(s, i, h, dir, user))
  {
  }

  lemma ProgramWorks(r: Regs, me: nat, c: Call)
    requires Quiet(r) && me < |r.dma| && TextFits(r, c)
    ensures Outcome(r, me, c, Program(c)) == Some(Effect(Asked(c)))
  {
    var r', c' := r.(key := c.a * 256 + c.b), Read(r, me, c, CopyIn);
    var p := Routine(c.dir, c.dma, c.interrupt);
    calc {
      Outcome(r, me, c, Program(c));
      Outcome(r', me, c, Do(CopyIn, p));
      Outcome(r', me, c', p);
      { RoutineWorks(r', me, c'); }
      Some(Effect(Asked(c)));
    }
  }

  lemma PrepareKeeps(s: State, i: nat)
    requires Inv(s) && i < |s.threads| && s.threads[i].call.handle < |s.handles| && !s.threads[i].pc.Running?
    ensures Inv(PrepareStep(s, i))
  {
    var t := s.threads[i];
    var c := t.call.(dma := s.handles[t.call.handle].config.dma);
    if t.pc.ReadDma? && TextFits(s.r, c) {
      ProgramWorks(s.r, i, c);
    }
  }

  /** One instruction that must not wait brings the holder further on the same way. */
  lemma InstrKeeps(r: Regs, me: nat, c: Call, p: Prog)
    requires p.Do? && !Blocked(r, p.instr) && Outcome(r, me, c, p).Some?
    ensures Outcome(Written(r, me, c, p.instr), me, Read(r, me, c, p.instr), p.rest) == Outcome(r, me, c, p)
    ensures Asked(Read(r, me, c, p.instr)) == Asked(c)
    ensures |Written(r, me, c, p.instr).dma| == |r.dma| && |Written(r, me, c, p.instr).io| == |r.io|
    ensures Read(r, me, c, p.instr).handle == c.handle
    ensures forall e | e in Starts(r, me, c, p.instr) :: e.job == e.own
  {
  }

  lemma RunKeeps(s: State, i: nat)
    requires Inv(s) && i < |s.threads| && s.threads[i].pc.Running?
    ensures Inv(RunStep(s, i))
  {
    var t := s.threads[i];
    assert Inside(t.pc) && s.lock == Some(i);
    if t.pc.rest.Do? && !Blocked(s.r, t.pc.rest.instr) {
      InstrKeeps(s.r, i, t.call, t.pc.rest);
    }
  }

  lemma ProceedKeeps(s: State, i: nat)
    requires Inv(s)
    ensures Inv(ProceedStep(s, i))
  {
    if i < |s.threads| && s.threads[i].call.handle < |s.handles| {
      match s.threads[i].pc
      case Running(_) => RunKeeps(s, i);
      case SetFirst(_, _) => SetKeeps(s, i);
      case SetSecond(_, _) => SetKeeps(s, i);
      case _ => PrepareKeeps(s, i);
    }
  }

  lemma StepKeeps(s: State, act: Action)
    requires Inv(s)
    ensures Inv(Step(s, act))
  {
    match act
    case SetConfig(h, mode, v) =>
      if h < |s.handles| { ConfigureKeeps(s, h, Configured(s.handles[h].config, mode, v)); }
    case EnterSet(i, h, key) => EnterSetKeeps(s, i, h, key);
    case Enter(i, h, dir, user) => EnterKeeps(s, i, h, dir, user);
    case Proceed(i) => ProceedKeeps(s, i);
    case DeviceMm => DeviceKeeps(s, FinishMm(s.r));
    case DeviceDma => DeviceKeeps(s, FinishDma(s.r));
    case Acknowledge => DeviceKeeps(s, Ack(s.r));
    case Wake => DeviceKeeps(s, SetFlag(s.r));
  }

  // ---------------------------------------------------------------------------------------------
  // Whole runs

  ghost predicate Initial(s: State)
  {
    && (forall i | 0 <= i < |s.threads| :: s.threads[i].pc == Outside)
    && s.lock == None && Quiet(s.r) && |s.r.dma| == |s.threads| && s.started == [] && s.finished == []
  }

  function Run(s: State, acts: seq<Action>): State
    decreases |acts|
  {
    if acts == [] then s else Run(Step(s, acts[0]), acts[1..])
  }

  lemma {:induction false} RunsKeep(s: State, acts: seq<Action>)
    requires Inv(s)
    ensures Inv(Run(s, acts))
    decreases |acts|
  {
    if acts != [] {
      StepKeeps(s, acts[0]);
      RunsKeep(Step(s, acts[0]), acts[1..]);
    }
  }

  /** Whether a caller inside the lock is about to execute an instruction, and which. */
  predicate Next(s: State, i: nat, instr: Instr)
  {
    i < |s.threads| && s.threads[i].pc.Running? && s.threads[i].pc.rest.Do? && s.threads[i].pc.rest.instr == instr
  }

  predicate HolderAt(s: State, instr: Instr)
  {
    s.lock.Some? && Next(s, s.lock.value, instr)
  }

  ghost predicate Guarantees(s: State)
  {
    // One caller at a time is inside; jobs and results are the callers' own.
    && Exclusive(s.threads, s.lock) && Logged(s.started, s.finished)
    // The flag is set only for a caller that waits for it or has just been released by it.
    && (s.r.flag ==> HolderAt(s, AwaitFlag) || HolderAt(s, ClearFlag))
    // A caller is released only after its job: nothing is running, and the interrupt has been handled.
    && (forall i | Next(s, i, ClearFlag) :: s.r.flag && Quiet(s.r.(flag := false)))
    // A caller that sleeps will be woken: its job is running, or has interrupted, or the flag is set.
    && (forall i | Next(s, i, AwaitFlag) :: WakeUpOnItsWay(s.r))
    // While the device works, the holder of the lock only waits: nobody writes a register.
    && (s.r.mmBusy ==> HolderAt(s, AwaitMm) || HolderAt(s, AwaitFlag))
    && (s.r.dmaBusy ==> HolderAt(s, AwaitDma) || HolderAt(s, AwaitFlag))
  }

  lemma {:induction false} InvGuarantees(s: State)
    requires Inv(s)
    ensures Guarantees(s)
  {
    forall i: nat, instr | Next(s, i, instr) ensures s.lock == Some(i) {
      assert Inside(s.threads[i].pc);
    }
  }

  /** In every interleaving of any number of callers and handles with the device. */
  lemma EveryRun(s: State, acts: seq<Action>)
    requires Initial(s)
    ensures Guarantees(Run(s, acts))
  {
    RunsKeep(s, acts);
    InvGuarantees(Run(s, acts));
  }

  lemma RunCons(s: State, act: Action, acts: seq<Action>)
    ensures Run(s, [act] + acts) == Run(Step(s, act), acts)
  {
    assert ([act] + acts)[1..] == acts;
  }

  lemma {:induction false} RunAppend(s: State, x: seq<Action>, y: seq<Action>)
    ensures Run(s, x + y) == Run(Run(s, x), y)
    decreases |x|
  {
    if x == [] {
      assert x + y == y;
    } else {
      assert x + y == [x[0]] + (x[1..] + y);
      RunCons(s, x[0], x[1..] + y);
      RunAppend(Step(s, x[0]), x[1..], y);
    }
  }

  /** What the device does next, as an action. */
  function DeviceAction(r: Regs): Action
  {
    if r.mmBusy then DeviceMm else if r.dmaBusy then DeviceDma else if r.pending then Acknowledge else Wake
  }

  /** A caller that must wait waits for something that the device or the interrupt handler can do now. */
  lemma {:induction false} WaitEnds(r: Regs, me: nat, c: Call, p: Prog)
    requires p.Do? && Blocked(r, p.instr) && Outcome(r, me, c, p).Some?
    ensures Outcome(DeviceNext(r), me, c, p) == Outcome(r, me, c, p) && ToCome(DeviceNext(r)) < ToCome(r)
  {
  }

  /**
   * Nobody is stuck with the lock: from every state that satisfies the invariant there is a way for the holder to
   * finish with the result of its job and release the lock.
   */
  lemma {:induction false} HolderCanFinish(s: State, i: nat) returns (acts: seq<Action>)
    requires Inv(s) && i < |s.threads| && s.threads[i].pc.Running?
    ensures var s' := Run(s, acts);
            var c := s.threads[i].call;
            s'.lock == None && s'.finished == s.finished + [Finished(c.handle, Asked(c), Effect(Asked(c)))]
    decreases s.threads[i].pc.rest, ToCome(s.r)
  {
    var t := s.threads[i];
    assert Inside(t.pc) && s.lock == Some(i);
    if t.pc.rest.Done? {
      acts := [Proceed(i)];
      RunCons(s, Proceed(i), []);
      assert [Proceed(i)] + [] == acts;
    } else {
      var act := if Blocked(s.r, t.pc.rest.instr) then DeviceAction(s.r) else Proceed(i);
      if Blocked(s.r, t.pc.rest.instr) {
        WaitEnds(s.r, i, t.call, t.pc.rest);
      } else {
        InstrKeeps(s.r, i, t.call, t.pc.rest);
      }
      StepKeeps(s, act);
      var more := HolderCanFinish(Step(s, act), i);
      RunCons(s, act, more);
      acts := [act] + more;
    }
  }

  function ReadsLeft(pc: Pc): nat
  {
    match pc
    case ReadA => 4
    case ReadB => 3
    case ReadInt => 2
    case ReadDma => 1
    case _ => 0
  }

  /** Likewise while the holder still reads its configuration, if its text fits the way it is configured to go. */
  lemma {:induction false} LockCanBeReleased(s: State, i: nat) returns (acts: seq<Action>)
    requires Inv(s) && s.lock == Some(i)
    requires !s.threads[i].pc.Running? ==>
               TextFits(s.r, s.threads[i].call.(dma := s.handles[s.threads[i].call.handle].config.dma))
    ensures Run(s, acts).lock == None && |Run(s, acts).finished| == |s.finished| + 1
    decreases ReadsLeft(s.threads[i].pc)
  {
    assert Inside(s.threads[i].pc);
    if s.threads[i].pc.Running? {
      acts := HolderCanFinish(s, i);
    } else {
      StepKeeps(s, Proceed(i));
      var more := LockCanBeReleased(Step(s, Proceed(i)), i);
      RunCons(s, Proceed(i), more);
      acts := [Proceed(i)] + more;
    }
  }
}
