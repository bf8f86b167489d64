/**
 * What the callers asked for (cryptocard.c): every finished call, every job started and every key set goes back to the
 * call of the user that it is for, with the settings that the handle had when the call read them.
 */
module CardCalls {
  import opened Common
  import opened Cipher
  import opened CardProtocol

  // ---------------------------------------------------------------------------------------------
  // The settings of a handle

  /** The interrupt setting of handle `h` after some actions: the last one made, or else `v`. */
  function LastInterrupt(acts: seq<Action>, h: nat, v: u8): u8
    decreases |acts|
  {
    if acts == [] then v
    else if acts[|acts| - 1].SetConfig? && acts[|acts| - 1].h == h && acts[|acts| - 1].mode == 0 then acts[|acts| - 1].v
    else LastInterrupt(acts[..|acts| - 1], h, v)
  }

  /** Likewise the DMA setting. */
  function LastDma(acts: seq<Action>, h: nat, v: u8): u8
    decreases |acts|
  {
    if acts == [] then v
    else if acts[|acts| - 1].SetConfig? && acts[|acts| - 1].h == h && acts[|acts| - 1].mode != 0 then acts[|acts| - 1].v
    else LastDma(acts[..|acts| - 1], h, v)
  }

  lemma RunSnoc(s: State, acts: seq<Action>, act: Action)
    ensures Run(s, acts + [act]) == Step(Run(s, acts), act)
  {
    RunAppend(s, acts, [act]);
    assert [act] == [act] + [];
    RunCons(Run(s, acts), act, []);
  }

  lemma StepSettings(s: State, act: Action, h: nat)
    requires h < |s.handles|
    ensures |Step(s, act).handles| == |s.handles|
    ensures var c, c' := s.handles[h].config, Step(s, act).handles[h].config;
            && c'.interrupt == (if act.SetConfig? && act.h == h && act.mode == 0 then act.v else c.interrupt)
            && c'.dma == (if act.SetConfig? && act.h == h && act.mode != 0 then act.v else c.dma)
  {
  }

  /** A handle has the settings last made. */
  lemma {:induction false} Settings(s: State, acts: seq<Action>, h: nat)
    requires h < |s.handles|
    ensures |Run(s, acts).handles| == |s.handles|
    ensures var c := Run(s, acts).handles[h].config;
            && c.interrupt == LastInterrupt(acts, h, s.handles[h].config.interrupt)
            && c.dma == LastDma(acts, h, s.handles[h].config.dma)
    decreases |acts|
  {
    if acts != [] {
      var n := |acts| - 1;
      Settings(s, acts[..n], h);
      assert acts[..n] + [acts[n]] == acts;
      RunSnoc(s, acts[..n], acts[n]);
      StepSettings(Run(s, acts[..n]), acts[n], h);
    }
  }

  // ---------------------------------------------------------------------------------------------
  // A program starts the device in the mode of its call

  /** Every start in the program is by DMA or not, and asks for an interrupt or not, as said. */
  predicate Goes(status: nat, p: Prog, dma: bool, interrupt: bool)
    decreases p
  {
    match p
    case Done => true
    case Do(i, rest) =>
      match i
      case SetStatus(v) => Goes(v, rest, dma, interrupt)
      case StartMm => !dma && Bit(status, 128) == interrupt && Goes(status, rest, dma, interrupt)
      case StartDma(v) => dma && Bit(v, 4) == interrupt && Goes(status, rest, dma, interrupt)
      case _ => Goes(status, rest, dma, interrupt)
  }

  lemma TailsGo(status: nat, dma: bool, interrupt: bool)
    ensures Goes(status, MmPollTail(), dma, interrupt) && Goes(status, MmIntTail(), dma, interrupt)
    ensures Goes(status, DmaPollTail(), dma, interrupt) && Goes(status, DmaIntTail(), dma, interrupt)
  {
    assert Goes(status, Do(CopyOut, Done), dma, interrupt);
    assert Goes(status, Do(FromIo, Do(CopyOut, Done)), dma, interrupt);
    assert Goes(status, Do(FromDma, Do(CopyOut, Done)), dma, interrupt);
    assert Goes(status, Do(ClearFlag, Do(FromIo, Do(CopyOut, Done))), dma, interrupt);
    assert Goes(status, Do(ClearFlag, Do(FromDma, Do(CopyOut, Done))), dma, interrupt);
  }

  lemma MmHeadGoes(status: nat, v: nat, tail: Prog, interrupt: bool)
    requires Bit(v, 128) == interrupt && Goes(v, tail, false, interrupt)
    ensures Goes(status, MmHead(v, tail), false, interrupt)
  {
    assert Goes(v, Do(AwaitMm, Do(StartMm, tail)), false, interrupt);
    assert Goes(v, Do(ToIo, Do(SetMmLen, Do(AwaitMm, Do(StartMm, tail)))), false, interrupt);
  }

  lemma DmaHeadGoes(status: nat, v: nat, tail: Prog, interrupt: bool)
    requires Bit(v, 4) == interrupt && Goes(status, tail, true, interrupt)
    ensures Goes(status, DmaHead(v, tail), true, interrupt)
  {
    assert Goes(status, Do(AwaitDma, Do(StartDma(v), tail)), true, interrupt);
    assert Goes(status, Do(SetDmaLen, Do(SetDmaAddr, Do(AwaitDma, Do(StartDma(v), tail)))), true, interrupt);
  }

  lemma DecMmPollGoes(status: nat)
    ensures Goes(status, DecMmPoll(), false, false)
  {
    TailsGo(0x02, false, false);
    assert Goes(0x02, Do(StartMm, MmPollTail()), false, false);
    assert Goes(0x02, Do(ToIo, Do(AwaitMm, Do(StartMm, MmPollTail()))), false, false);
    assert Goes(status, Do(SetStatus(0x02), Do(ToIo, Do(AwaitMm, Do(StartMm, MmPollTail())))), false, false);
  }

  lemma ProgramGoes(status: nat, c: Call)
    ensures Goes(status, Program(c), c.dma != 0, c.interrupt != 0)
  {
    var interrupt := c.interrupt != 0;
    if c.dma == 0 {
      var v := if !interrupt then 0x00 else if c.dir == Enc then 0x80 else 0x82;
      TailsGo(v, false, interrupt);
      MmHeadGoes(status, v, if interrupt then MmIntTail() else MmPollTail(), interrupt);
      DecMmPollGoes(status);
    } else {
      var v := if !interrupt then (if c.dir == Enc then 0x1 else 0x3) else if c.dir == Enc then 0x5 else 0x7;
      TailsGo(status, true, interrupt);
      DmaHeadGoes(status, v, if interrupt then DmaIntTail() else DmaPollTail(), interrupt);
    }
    assert Goes(status, Do(CopyIn, Routine(c.dir, c.dma, c.interrupt)), c.dma != 0, interrupt);
  }

  predicate ThreadGoes(r: Regs, t: Thread)
  {
    t.pc.Running? ==> Goes(r.status, t.pc.rest, t.call.dma != 0, t.call.interrupt != 0)
  }

  ghost predicate AllGo(s: State)
  {
    forall i | 0 <= i < |s.threads| :: ThreadGoes(s.r, s.threads[i])
  }

  lemma RunStepGoes(s: State, i: nat)
    requires Inv(s) && AllGo(s) && i < |s.threads| && s.threads[i].pc.Running?
    ensures AllGo(RunStep(s, i))
  {
    var s' := RunStep(s, i);
    forall j | 0 <= j < |s'.threads| ensures ThreadGoes(s'.r, s'.threads[j]) {
      assert ThreadGoes(s.r, s.threads[i]);
      if j != i {
        assert Inside(s.threads[i].pc) && !Inside(s.threads[j].pc);
      }
    }
  }

  lemma PrepareGoes(s: State, i: nat)
    requires AllGo(s) && i < |s.threads| && s.threads[i].call.handle < |s.handles| && !s.threads[i].pc.Running?
    ensures AllGo(PrepareStep(s, i))
  {
    var t := s.threads[i];
    ProgramGoes(s.r.status, t.call.(dma := s.handles[t.call.handle].config.dma));
    forall j | 0 <= j < |s.threads| ensures ThreadGoes(s.r, PrepareStep(s, i).threads[j]) {
      assert ThreadGoes(s.r, s.threads[j]);
    }
  }

  lemma StepGoes(s: State, act: Action)
    requires Inv(s) && AllGo(s)
    ensures AllGo(Step(s, act))
  {
    if act.Proceed? && act.i < |s.threads| && s.threads[act.i].call.handle < |s.handles| {
      match s.threads[act.i].pc
      case Running(_) => RunStepGoes(s, act.i);
      case SetFirst(_, _) => SameGo(s, Step(s, act));
      case SetSecond(_, _) => SameGo(s, Step(s, act));
      case _ => PrepareGoes(s, act.i);
    } else {
      SameGo(s, Step(s, act));
    }
  }

  lemma SameGo(s: State, s': State)
    requires AllGo(s) && s'.r.status == s.r.status && |s'.threads| == |s.threads|
    requires forall i | 0 <= i < |s.threads| :: s'.threads[i] == s.threads[i] || !s'.threads[i].pc.Running?
    ensures AllGo(s')
  {
    forall i | 0 <= i < |s'.threads| ensures ThreadGoes(s'.r, s'.threads[i]) {
      assert ThreadGoes(s.r, s.threads[i]);
    }
  }

  lemma {:induction false} RunGoes(s: State, acts: seq<Action>)
    requires Inv(s) && AllGo(s)
    ensures AllGo(Run(s, acts))
    decreases |acts|
  {
    if acts != [] {
      StepKeeps(s, acts[0]);
      StepGoes(s, acts[0]);
      RunGoes(Step(s, acts[0]), acts[1..]);
    }
  }

  // ---------------------------------------------------------------------------------------------
  // Where calls come from

  /** Positions in a run: where a call was entered, and where it read its two settings. */
  datatype Source = Source(enter: nat, intAt: nat, dmaAt: nat)

  /** For each caller its call at work, and for the logs their calls. */
  datatype Trace = Trace(threads: seq<Source>, started: seq<Source>, finished: seq<nat>)

  predicate Calling(pc: Pc) { pc.Waiting? || Inside(pc) }

  predicate EnterIs(acts: seq<Action>, k: nat, i: nat, h: nat, dir: Direction, user: seq<schar>)
  {
    k < |acts| && acts[k] == Enter(i, h, dir, user)
  }

  /** At position `p` caller `i` takes the step from `pc`. */
  predicate TakenAt(s0: State, acts: seq<Action>, p: nat, i: nat, pc: Pc)
  {
    p < |acts| && acts[p] == Proceed(i) && i < |Run(s0, acts[..p]).threads| && Run(s0, acts[..p]).threads[i].pc == pc
  }

  /** The setting is the one last made before it was read. */
  predicate IntRead(s0: State, acts: seq<Action>, p: nat, i: nat, h: nat, v: u8)
  {
    TakenAt(s0, acts, p, i, ReadInt) && h < |s0.handles|
    && v == LastInterrupt(acts[..p], h, s0.handles[h].config.interrupt)
  }

  predicate DmaRead(s0: State, acts: seq<Action>, p: nat, i: nat, h: nat, v: u8)
  {
    TakenAt(s0, acts, p, i, ReadDma) && h < |s0.handles| && v == LastDma(acts[..p], h, s0.handles[h].config.dma)
  }

  predicate ThreadTraced(s0: State, acts: seq<Action>, i: nat, t: Thread, src: Source)
  {
    && (Calling(t.pc) ==> EnterIs(acts, src.enter, i, t.call.handle, t.call.dir, t.call.user))
    && (t.pc.ReadDma? || t.pc.Running? ==> IntRead(s0, acts, src.intAt, i, t.call.handle, t.call.interrupt))
    && (t.pc.Running? ==> DmaRead(s0, acts, src.dmaAt, i, t.call.handle, t.call.dma))
  }

  /** The job is that of the call entered, started in the mode that the settings say. */
  ghost predicate StartTraced(s0: State, acts: seq<Action>, e: Started, src: Source)
  {
    exists user, interrupt, dma ::
      && EnterIs(acts, src.enter, e.caller, e.handle, e.own.dir, user)
      && e.own.text == user[..|user| % TWO32]
      && IntRead(s0, acts, src.intAt, e.caller, e.handle, interrupt) && e.interrupt == (interrupt != 0)
      && DmaRead(s0, acts, src.dmaAt, e.caller, e.handle, dma) && e.dma == (dma != 0)
  }

  /** The call that finished is the one entered. */
  predicate FinishTraced(acts: seq<Action>, f: Finished, k: nat)
  {
    && k < |acts| && acts[k].Enter?
    && acts[k].h == f.handle && acts[k].dir == f.asked.dir && acts[k].user == f.asked.text
  }

  ghost predicate LogsTraced(s0: State, acts: seq<Action>, s: State, tr: Trace)
  {
    && |tr.started| == |s.started| && |tr.finished| == |s.finished|
    && (forall j | 0 <= j < |s.started| :: StartTraced(s0, acts, s.started[j], tr.started[j]))
    && (forall j | 0 <= j < |s.finished| :: FinishTraced(acts, s.finished[j], tr.finished[j]))
  }

  /** No call finishes twice. */
  ghost predicate Once(s: State, tr: Trace)
    requires |tr.threads| == |s.threads|
  {
    && (forall j, k | 0 <= j < k < |tr.finished| :: tr.finished[j] != tr.finished[k])
    && (forall i, j | 0 <= i < |s.threads| && Calling(s.threads[i].pc) && 0 <= j < |tr.finished| ::
          tr.finished[j] != tr.threads[i].enter)
  }

  ghost predicate Traced(s0: State, acts: seq<Action>, s: State, tr: Trace)
  {
    && |tr.threads| == |s.threads|
    && (forall i | 0 <= i < |s.threads| :: ThreadTraced(s0, acts, i, s.threads[i], tr.threads[i]))
    && LogsTraced(s0, acts, s, tr) && Once(s, tr)
  }

  // ---------------------------------------------------------------------------------------------
  // One more action

  lemma ReadsMore(s0: State, acts: seq<Action>, act: Action, p: nat, i: nat, h: nat, v: u8)
    ensures IntRead(s0, acts, p, i, h, v) ==> IntRead(s0, acts + [act], p, i, h, v)
    ensures DmaRead(s0, acts, p, i, h, v) ==> DmaRead(s0, acts + [act], p, i, h, v)
  {
    if p < |acts| {
      assert (acts + [act])[..p] == acts[..p];
    }
  }

  lemma ThreadMore(s0: State, acts: seq<Action>, act: Action, i: nat, t: Thread, src: Source)
    requires ThreadTraced(s0, acts, i, t, src)
    ensures ThreadTraced(s0, acts + [act], i, t, src)
  {
    ReadsMore(s0, acts, act, src.intAt, i, t.call.handle, t.call.interrupt);
    ReadsMore(s0, acts, act, src.dmaAt, i, t.call.handle, t.call.dma);
  }

  lemma StartMore(s0: State, acts: seq<Action>, act: Action, e: Started, src: Source)
    requires StartTraced(s0, acts, e, src)
    ensures StartTraced(s0, acts + [act], e, src)
  {
    var user, interrupt, dma :|
      && EnterIs(acts, src.enter, e.caller, e.handle, e.own.dir, user)
      && e.own.text == user[..|user| % TWO32]
      && IntRead(s0, acts, src.intAt, e.caller, e.handle, interrupt) && e.interrupt == (interrupt != 0)
      && DmaRead(s0, acts, src.dmaAt, e.caller, e.handle, dma) && e.dma == (dma != 0);
    ReadsMore(s0, acts, act, src.intAt, e.caller, e.handle, interrupt);
    ReadsMore(s0, acts, act, src.dmaAt, e.caller, e.handle, dma);
    assert EnterIs(acts + [act], src.enter, e.caller, e.handle, e.own.dir, user);
  }

  lemma LogsMore(s0: State, acts: seq<Action>, act: Action, s: State, tr: Trace)
    requires LogsTraced(s0, acts, s, tr)
    ensures LogsTraced(s0, acts + [act], s, tr)
  {
    forall j | 0 <= j < |s.started| ensures StartTraced(s0, acts + [act], s.started[j], tr.started[j]) {
      StartMore(s0, acts, act, s.started[j], tr.started[j]);
    }
  }

  /** Nothing that is traced changes, but for callers that are no longer calling. */
  lemma SameTraced(s0: State, acts: seq<Action>, act: Action, s: State, s': State, tr: Trace)
    requires Traced(s0, acts, s, tr) && |s'.threads| == |s.threads|
    requires forall i | 0 <= i < |s.threads| :: s'.threads[i] == s.threads[i] || !Calling(s'.threads[i].pc)
    requires s'.started == s.started && s'.finished == s.finished
    ensures Traced(s0, acts + [act], s', tr)
  {
    LogsMore(s0, acts, act, s, tr);
    forall i | 0 <= i < |s.threads| ensures ThreadTraced(s0, acts + [act], i, s'.threads[i], tr.threads[i]) {
      if s'.threads[i] == s.threads[i] {
        ThreadMore(s0, acts, act, i, s.threads[i], tr.threads[i]);
      }
    }
  }

  /** Caller `i` goes on. */
  lemma OneTraced(s0: State, acts: seq<Action>, act: Action, s: State, s': State, tr: Trace, tr': Trace, i: nat)
    requires Traced(s0, acts, s, tr) && |tr'.threads| == |s'.threads| == |s.threads| && i < |s.threads|
    requires forall j | 0 <= j < |s.threads| && j != i ::
               s'.threads[j] == s.threads[j] && tr'.threads[j] == tr.threads[j]
    requires ThreadTraced(s0, acts + [act], i, s'.threads[i], tr'.threads[i])
    requires LogsTraced(s0, acts + [act], s', tr') && Once(s', tr')
    ensures Traced(s0, acts + [act], s', tr')
  {
    forall j | 0 <= j < |s'.threads| ensures ThreadTraced(s0, acts + [act], j, s'.threads[j], tr'.threads[j]) {
      if j != i {
        ThreadMore(s0, acts, act, j, s.threads[j], tr.threads[j]);
      }
    }
  }

  /** A call is entered. */
  lemma EnterTraced(s0: State, acts: seq<Action>, s: State, tr: Trace, i: nat, h: nat, dir: Direction, user: seq<schar>)
    returns (tr': Trace)
    requires Traced(s0, acts, s, tr)
    ensures Traced(s0, acts + [Enter(i, h, dir, user)], EnterStep(s, i, h, dir, user), tr')
  {
    var act, s' := Enter(i, h, dir, user), EnterStep(s, i, h, dir, user);
    tr' := tr;
    if i < |s.threads| && s.threads[i].pc == Outside && h < |s.handles| {
      tr' := tr.(threads := tr.threads[i := Source(|acts|, 0, 0)]);
      LogsMore(s0, acts, act, s, tr);
      assert EnterIs(acts + [act], |acts|, i, h, dir, user);
      forall j | 0 <= j < |tr.finished| ensures tr.finished[j] != |acts| {
        assert FinishTraced(acts, s.finished[j], tr.finished[j]);
      }
      OneTraced(s0, acts, act, s, s', tr, tr', i);
    } else {
      SameTraced(s0, acts, act, s, s', tr);
    }
  }

  /** A call goes on, still calling, and nothing is logged. */
  lemma GoesOn(s0: State, acts: seq<Action>, act: Action, s: State, s': State, tr: Trace, i: nat, src: Source)
    requires Traced(s0, acts, s, tr) && i < |s.threads| && Calling(s.threads[i].pc)
    requires |s'.threads| == |s.threads| && s'.started == s.started && s'.finished == s.finished
    requires forall j | 0 <= j < |s.threads| && j != i :: s'.threads[j] == s.threads[j]
    requires src.enter == tr.threads[i].enter && ThreadTraced(s0, acts + [act], i, s'.threads[i], src)
    ensures Traced(s0, acts + [act], s', tr.(threads := tr.threads[i := src]))
  {
    LogsMore(s0, acts, act, s, tr);
    OneTraced(s0, acts, act, s, s', tr, tr.(threads := tr.threads[i := src]), i);
  }

  lemma PrepareTraced(s0: State, acts: seq<Action>, s: State, tr: Trace, i: nat) returns (tr': Trace)
    requires Traced(s0, acts, s, tr) && s == Run(s0, acts) && i < |s.threads|
    requires s.threads[i].call.handle < |s.handles| && !s.threads[i].pc.Running? && |s.handles| == |s0.handles|
    ensures Traced(s0, acts + [Proceed(i)], PrepareStep(s, i), tr')
  {
    var act, t, src := Proceed(i), s.threads[i], tr.threads[i];
    ThreadMore(s0, acts, act, i, t, src);
    Settings(s0, acts, t.call.handle);
    assert (acts + [act])[..|acts|] == acts;
    if t.pc.ReadInt? {
      src := src.(intAt := |acts|);
      assert IntRead(s0, acts + [act], |acts|, i, t.call.handle, s.handles[t.call.handle].config.interrupt);
    } else if t.pc.ReadDma? {
      src := src.(dmaAt := |acts|);
      assert DmaRead(s0, acts + [act], |acts|, i, t.call.handle, s.handles[t.call.handle].config.dma);
    }
    tr' := tr.(threads := tr.threads[i := src]);
    if Calling(t.pc) {
      GoesOn(s0, acts, act, s, PrepareStep(s, i), tr, i, src);
    } else {
      assert tr.threads[i := src] == tr.threads;
      SameTraced(s0, acts, act, s, PrepareStep(s, i), tr);
    }
  }

  lemma DoneTraced(s0: State, acts: seq<Action>, s: State, tr: Trace, i: nat) returns (tr': Trace)
    requires Traced(s0, acts, s, tr) && i < |s.threads| && s.threads[i].pc == Running(Done)
    ensures Traced(s0, acts + [Proceed(i)], RunStep(s, i), tr')
  {
    var act, s', k := Proceed(i), RunStep(s, i), tr.threads[i].enter;
    tr' := tr.(finished := tr.finished + [k]);
    LogsMore(s0, acts, act, s, tr);
    assert ThreadTraced(s0, acts, i, s.threads[i], tr.threads[i]);
    assert FinishTraced(acts + [act], s'.finished[|s.finished|], k);
    forall j | 0 <= j < |s.threads| && j != i && Calling(s.threads[j].pc) ensures tr.threads[j].enter != k {
      assert ThreadTraced(s0, acts, j, s.threads[j], tr.threads[j]);
    }
    OneTraced(s0, acts, act, s, s', tr, tr', i);
  }

  /** A start is logged with the mode of its call. */
  lemma StartsTraced(s0: State, acts: seq<Action>, r: Regs, i: nat, c: Call, p: Prog, src: Source, e: Started)
    requires ThreadTraced(s0, acts, i, Thread(Running(p), c), src) && p.Do?
    requires Goes(r.status, p, c.dma != 0, c.interrupt != 0) && e in Starts(r, i, c, p.instr)
    ensures StartTraced(s0, acts, e, src)
  {
    assert EnterIs(acts, src.enter, e.caller, e.handle, e.own.dir, c.user);
    assert IntRead(s0, acts, src.intAt, i, c.handle, c.interrupt) && DmaRead(s0, acts, src.dmaAt, i, c.handle, c.dma);
  }

  lemma StartsLogged(s0: State, acts: seq<Action>, s: State, s': State, tr: Trace, starts: seq<Started>, src: Source)
    requires LogsTraced(s0, acts, s, tr) && s'.started == s.started + starts && s'.finished == s.finished
    requires forall e | e in starts :: StartTraced(s0, acts, e, src)
    ensures LogsTraced(s0, acts, s', tr.(started := tr.started + seq(|starts|, _ => src)))
  {
    forall j | |s.started| <= j < |s'.started| ensures StartTraced(s0, acts, s'.started[j], src) {
      assert s'.started[j] in starts;
    }
  }

  lemma InstrTraced(s0: State, acts: seq<Action>, s: State, tr: Trace, i: nat) returns (tr': Trace)
    requires Traced(s0, acts, s, tr) && i < |s.threads| && s.threads[i].pc.Running? && s.threads[i].pc.rest.Do?
    requires ThreadGoes(s.r, s.threads[i]) && !Blocked(s.r, s.threads[i].pc.rest.instr)
    ensures Traced(s0, acts + [Proceed(i)], RunStep(s, i), tr')
  {
    var act, s', t, src := Proceed(i), RunStep(s, i), s.threads[i], tr.threads[i];
    var starts := Starts(s.r, i, t.call, t.pc.rest.instr);
    ThreadMore(s0, acts, act, i, t, src);
    LogsMore(s0, acts, act, s, tr);
    forall e | e in starts ensures StartTraced(s0, acts + [act], e, src) {
      StartsTraced(s0, acts + [act], s.r, i, t.call, t.pc.rest, src, e);
    }
    tr' := tr.(started := tr.started + seq(|starts|, _ => src));
    StartsLogged(s0, acts + [act], s, s', tr, starts, src);
    OneTraced(s0, acts, act, s, s', tr, tr', i);
  }

  lemma StepTraced(s0: State, acts: seq<Action>, s: State, tr: Trace, act: Action) returns (tr': Trace)
    requires Traced(s0, acts, s, tr) && s == Run(s0, acts) && AllGo(s) && |s.handles| == |s0.handles|
    ensures Traced(s0, acts + [act], Step(s, act), tr')
  {
    tr' := tr;
    if act.Enter? {
      tr' := EnterTraced(s0, acts, s, tr, act.i, act.h, act.dir, act.user);
    } else if act.Proceed? && act.i < |s.threads| && s.threads[act.i].call.handle < |s.handles| {
      tr' := ProceedTraced(s0, acts, s, tr, act.i);
    } else {
      SameTraced(s0, acts, act, s, Step(s, act), tr);
    }
  }

  lemma ProceedTraced(s0: State, acts: seq<Action>, s: State, tr: Trace, i: nat) returns (tr': Trace)
    requires Traced(s0, acts, s, tr) && s == Run(s0, acts) && AllGo(s) && |s.handles| == |s0.handles|
    requires i < |s.threads| && s.threads[i].call.handle < |s.handles|
    ensures Traced(s0, acts + [Proceed(i)], ProceedStep(s, i), tr')
  {
    tr' := tr;
    match s.threads[i].pc
    case Running(rest) =>
      assert ThreadGoes(s.r, s.threads[i]);
      if rest.Done? {
        tr' := DoneTraced(s0, acts, s, tr, i);
      } else if Blocked(s.r, rest.instr) {
        SameTraced(s0, acts, Proceed(i), s, s, tr);
      } else {
        tr' := InstrTraced(s0, acts, s, tr, i);
      }
    case SetFirst(_, _) => SameTraced(s0, acts, Proceed(i), s, SetStep(s, i), tr);
    case SetSecond(_, _) => SameTraced(s0, acts, Proceed(i), s, SetStep(s, i), tr);
    case _ => tr' := PrepareTraced(s0, acts, s, tr, i);
  }

  lemma {:induction false} HandlesStay(s: State, acts: seq<Action>)
    ensures |Run(s, acts).handles| == |s.handles|
    decreases |acts|
  {
    if acts != [] {
      HandlesStay(Step(s, acts[0]), acts[1..]);
    }
  }

  lemma {:induction false} RunTraced(s0: State, acts: seq<Action>) returns (tr: Trace)
    requires Initial(s0)
    ensures Traced(s0, acts, Run(s0, acts), tr)
    decreases |acts|
  {
    if acts == [] {
      tr := Trace(seq(|s0.threads|, _ => Source(0, 0, 0)), [], []);
    } else {
      var n := |acts| - 1;
      var before := acts[..n];
      tr := RunTraced(s0, before);
      RunGoes(s0, before);
      HandlesStay(s0, before);
      tr := StepTraced(s0, before, Run(s0, before), tr, acts[n]);
      RunSnoc(s0, before, acts[n]);
      assert before + [acts[n]] == acts;
    }
  }

  /**
   * In every run every finished call is one that was entered, with the handle, direction and text given there, no call
   * finishes twice, and its user got the effect of that direction on that text: the text encrypted or decrypted, if 32
   * bits can count it.
   */
  lemma FinishedCalls(s0: State, acts: seq<Action>) returns (entered: seq<nat>)
    requires Initial(s0)
    ensures var finished := Run(s0, acts).finished;
            && |entered| == |finished|
            && (forall j, k | 0 <= j < k < |entered| :: entered[j] != entered[k])
            && forall j | 0 <= j < |finished| ::
                 && FinishTraced(acts, finished[j], entered[j])
                 && GotWhatWasAsked(acts[entered[j]].dir, acts[entered[j]].user, finished[j])
  {
    var tr := RunTraced(s0, acts);
    entered := tr.finished;
    EveryRun(s0, acts);
    var finished := Run(s0, acts).finished;
    forall j | 0 <= j < |finished| ensures GotWhatWasAsked(acts[entered[j]].dir, acts[entered[j]].user, finished[j]) {
      assert FinishTraced(acts, finished[j], entered[j]) && finished[j] in finished;
      if |finished[j].asked.text| < TWO32 {
        EffectShort(finished[j].asked);
      }
    }
  }

  /** The user of the call got the cipher of the text given. */
  predicate GotWhatWasAsked(dir: Direction, user: seq<schar>, f: Finished)
  {
    && f.out == Effect(Job(dir, f.asked.a, f.asked.b, user))
    && (|user| < TWO32 ==>
          f.out == if dir == Enc then Encrypt(f.asked.a, f.asked.b, user) else Decrypt(f.asked.a, f.asked.b, user))
  }

  /**
   * In every run every job started is that of a call that was entered, and goes by DMA and asks for an interrupt
   * exactly as the last settings of its handle said when the call read them.
   */
  lemma StartedJobs(s0: State, acts: seq<Action>) returns (sources: seq<Source>)
    requires Initial(s0)
    ensures var started := Run(s0, acts).started;
            && |sources| == |started|
            && forall j | 0 <= j < |started| ::
                 StartTraced(s0, acts, started[j], sources[j]) && started[j].job == started[j].own
  {
    var tr := RunTraced(s0, acts);
    sources := tr.started;
    EveryRun(s0, acts);
  }

  // ---------------------------------------------------------------------------------------------
  // Which keys were asked for

  /** The key of a SET_KEY call on handle `h`, if the action is one. */
  function KeySetBy(s: State, act: Action, h: nat): seq<Key>
  {
    if act.EnterSet? && act.h == h && act.i < |s.threads| && s.threads[act.i].pc == Outside then [act.key] else []
  }

  /** The keys of the SET_KEY calls on handle `h` in a run, in order. */
  function KeysSet(s: State, acts: seq<Action>, h: nat): seq<Key>
    decreases |acts|
  {
    if acts == [] then [] else KeySetBy(s, acts[0], h) + KeysSet(Step(s, acts[0]), acts[1..], h)
  }

  lemma StepAsked(s: State, act: Action, h: nat)
    requires h < |s.handles|
    ensures |Step(s, act).handles| == |s.handles|
    ensures Step(s, act).handles[h].asked == s.handles[h].asked + KeySetBy(s, act, h)
  {
  }

  /** A handle's record of keys asked for is the keys of the SET_KEY calls on it. */
  lemma {:induction false} AskedKeys(s: State, acts: seq<Action>, h: nat)
    requires h < |s.handles|
    ensures |Run(s, acts).handles| == |s.handles|
    ensures Run(s, acts).handles[h].asked == s.handles[h].asked + KeysSet(s, acts, h)
    decreases |acts|
  {
    if acts != [] {
      var s' := Step(s, acts[0]);
      StepAsked(s, acts[0], h);
      AskedKeys(s', acts[1..], h);
      Assoc(s.handles[h].asked, KeySetBy(s, acts[0], h), KeysSet(s', acts[1..], h));
    }
  }
}
