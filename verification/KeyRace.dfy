/**
 * Which key a call uses (cryptocard.c, SET_KEY and the reads of the key in ENCRYPT and DECRYPT): SET_KEY writes the two
 * components of the key one after the other without the lock, and a call reads them one after the other.
 */
module KeyRace {
  import opened Common
  import opened Cipher
  import opened CardProtocol

  // ---------------------------------------------------------------------------------------------
  // Where the components of a key come from

  predicate HandleOk(h: Handle)
  {
    && h.byA < |h.asked| && h.byB < |h.asked|
    && h.config.a == h.asked[h.byA].a && h.config.b == h.asked[h.byB].b
    && h.asked[h.byB] in h.whole && forall key | key in h.whole :: key in h.asked
  }

  predicate HasFirst(pc: Pc) { pc.ReadB? || HasKey(pc) }

  /** The call has read both components. */
  predicate HasKey(pc: Pc) { pc.ReadInt? || pc.ReadDma? || pc.Running? }

  predicate Setting(pc: Pc) { pc.SetFirst? || pc.SetSecond? }

  predicate ThreadOk(t: Thread, h: Handle)
  {
    && (Setting(t.pc) ==> t.pc.k < |h.asked| && h.asked[t.pc.k] == t.pc.key)
    && (HasFirst(t.pc) ==> t.call.byA < |h.asked| && t.call.a == h.asked[t.call.byA].a)
    && (HasKey(t.pc) ==> t.call.byB < |h.asked| && t.call.b == h.asked[t.call.byB].b && h.asked[t.call.byB] in h.whole)
  }

  ghost predicate KeyInv(s: State)
  {
    && (forall h | 0 <= h < |s.handles| :: HandleOk(s.handles[h]))
    && forall i | 0 <= i < |s.threads| && s.threads[i].pc != Outside ::
         s.threads[i].call.handle < |s.handles| && ThreadOk(s.threads[i], s.handles[s.threads[i].call.handle])
  }

  /** A handle's records only grow. */
  predicate Grown(h: Handle, h': Handle)
  {
    h.asked <= h'.asked && forall key | key in h.whole :: key in h'.whole
  }

  lemma ThreadOkGrown(t: Thread, h: Handle, h': Handle)
    requires ThreadOk(t, h) && Grown(h, h')
    ensures ThreadOk(t, h')
  {
  }

  /** A step that changes one handle, by growing it, and one thread. */
  lemma OneChanged(s: State, s': State, i: nat, h: nat)
    requires KeyInv(s) && |s'.threads| == |s.threads| && |s'.handles| == |s.handles|
    requires i < |s.threads| && h < |s.handles|
    requires forall j | 0 <= j < |s.threads| && j != i :: s'.threads[j] == s.threads[j]
    requires forall g | 0 <= g < |s.handles| && g != h :: s'.handles[g] == s.handles[g]
    requires HandleOk(s'.handles[h]) && Grown(s.handles[h], s'.handles[h])
    requires s'.threads[i].pc != Outside ==>
               s'.threads[i].call.handle == h && ThreadOk(s'.threads[i], s'.handles[h])
    ensures KeyInv(s')
  {
    forall j | 0 <= j < |s'.threads| && s'.threads[j].pc != Outside
      ensures s'.threads[j].call.handle < |s'.handles| && ThreadOk(s'.threads[j], s'.handles[s'.threads[j].call.handle])
    {
      if j != i && s.threads[j].call.handle == h {
        ThreadOkGrown(s.threads[j], s.handles[h], s'.handles[h]);
      }
    }
  }

  lemma EnterSetKeys(s: State, i: nat, h: nat, key: Key)
    requires KeyInv(s)
    ensures KeyInv(EnterSetStep(s, i, h, key))
  {
    if i < |s.threads| && s.threads[i].pc == Outside && h < |s.handles| {
      OneChanged(s, EnterSetStep(s, i, h, key), i, h);
    }
  }

  lemma ConfigureKeys(s: State, h: nat, c: Config)
    requires KeyInv(s) && h < |s.handles| && c.a == s.handles[h].config.a && c.b == s.handles[h].config.b
    ensures KeyInv(Configure(s, h, c))
  {
    var s' := Configure(s, h, c);
    forall j | 0 <= j < |s'.threads| && s'.threads[j].pc != Outside
      ensures s'.threads[j].call.handle < |s'.handles| && ThreadOk(s'.threads[j], s'.handles[s'.threads[j].call.handle])
    {
      if s.threads[j].call.handle == h {
        ThreadOkGrown(s.threads[j], s.handles[h], s'.handles[h]);
      }
    }
  }

  lemma SetKeys(s: State, i: nat)
    requires KeyInv(s) && i < |s.threads| && s.threads[i].call.handle < |s.handles| && Setting(s.threads[i].pc)
    ensures KeyInv(SetStep(s, i))
  {
    var h := s.handles[s.threads[i].call.handle];
    assert HandleOk(h) && ThreadOk(s.threads[i], h);
    OneChanged(s, SetStep(s, i), i, s.threads[i].call.handle);
  }

  lemma PrepareKeys(s: State, i: nat)
    requires KeyInv(s) && i < |s.threads| && s.threads[i].call.handle < |s.handles| && s.threads[i].pc != Outside
    requires !s.threads[i].pc.Running?
    ensures KeyInv(PrepareStep(s, i))
  {
    var h := s.handles[s.threads[i].call.handle];
    assert HandleOk(h) && ThreadOk(s.threads[i], h);
    OneChanged(s, PrepareStep(s, i), i, s.threads[i].call.handle);
  }

  lemma RunStepKeys(s: State, i: nat)
    requires KeyInv(s) && i < |s.threads| && s.threads[i].pc.Running?
    ensures KeyInv(RunStep(s, i))
  {
    OneChanged(s, RunStep(s, i), i, s.threads[i].call.handle);
  }

  lemma ProceedKeys(s: State, i: nat)
    requires KeyInv(s)
    ensures KeyInv(ProceedStep(s, i))
  {
    if i < |s.threads| && s.threads[i].call.handle < |s.handles| && s.threads[i].pc != Outside {
      match s.threads[i].pc
      case Running(_) => RunStepKeys(s, i);
      case SetFirst(_, _) => SetKeys(s, i);
      case SetSecond(_, _) => SetKeys(s, i);
      case _ => PrepareKeys(s, i);
    }
  }

  lemma StepKeys(s: State, act: Action)
    requires KeyInv(s)
    ensures KeyInv(Step(s, act))
  {
    match act
    case SetConfig(h, mode, v) =>
      if h < |s.handles| { ConfigureKeys(s, h, Configured(s.handles[h].config, mode, v)); }
    case EnterSet(i, h, key) => EnterSetKeys(s, i, h, key);
    case Enter(i, h, dir, user) =>
    case Proceed(i) => ProceedKeys(s, i);
    case _ =>
  }

  // ---------------------------------------------------------------------------------------------
  // The order of steps does not depend on the values of the keys

  predicate SameButKey(act: Action, act': Action)
  {
    act == act' || (act.EnterSet? && act'.EnterSet? && act.i == act'.i && act.h == act'.h)
  }

  ghost predicate SameOrder(acts: seq<Action>, acts': seq<Action>)
  {
    |acts| == |acts'| && forall p | 0 <= p < |acts| :: SameButKey(acts[p], acts'[p])
  }

  predicate PcLike(pc: Pc, pc': Pc)
  {
    match pc
    case SetFirst(_, k) => pc'.SetFirst? && pc'.k == k
    case SetSecond(_, k) => pc'.SetSecond? && pc'.k == k
    case _ => pc == pc'
  }

  predicate CallLike(c: Call, c': Call)
  {
    && c.handle == c'.handle && c.dir == c'.dir && c.byA == c'.byA && c.byB == c'.byB
    && c.interrupt == c'.interrupt && c.dma == c'.dma && c.user == c'.user
  }

  predicate ThreadLike(t: Thread, t': Thread)
  {
    PcLike(t.pc, t'.pc) && CallLike(t.call, t'.call)
  }

  predicate HandleLike(h: Handle, h': Handle)
  {
    && h.config.dma == h'.config.dma && h.config.interrupt == h'.config.interrupt
    && h.byA == h'.byA && h.byB == h'.byB && |h.asked| == |h'.asked|
  }

  predicate RegsLike(r: Regs, r': Regs)
  {
    && r.mmBusy == r'.mmBusy && r.dmaBusy == r'.dmaBusy && r.pending == r'.pending && r.acked == r'.acked
    && r.flag == r'.flag && r.status == r'.status && r.dmaCmd == r'.dmaCmd && |r.io| == |r'.io|
  }

  /** Two states that differ in the values of keys and of what was computed with them only. */
  ghost predicate Like(s: State, s': State)
  {
    && RegsLike(s.r, s'.r) && s.lock == s'.lock
    && |s.threads| == |s'.threads| && |s.handles| == |s'.handles|
    && (forall i | 0 <= i < |s.threads| :: ThreadLike(s.threads[i], s'.threads[i]))
    && (forall h | 0 <= h < |s.handles| :: HandleLike(s.handles[h], s'.handles[h]))
  }

  /** A running job always fits the place where it is done. */
  lemma {:induction false} BusyFits(s: State)
    requires Inv(s)
    ensures (s.r.mmBusy ==> MmFits(s.r)) && (s.r.dmaBusy ==> DmaFits(s.r))
  {
    if s.r.mmBusy || s.r.dmaBusy {
      var t := s.threads[s.lock.value];
      HolderWaits(s.r, s.lock.value, t.call, t.pc.rest);
    }
  }

  lemma WrittenIs(r: Regs, me: nat, c: Call, i: Instr)
    ensures var r' := Written(r, me, c, i);
            && r'.mmBusy == (r.mmBusy || i.StartMm?) && r'.dmaBusy == (r.dmaBusy || i.StartDma?)
            && r'.pending == r.pending && r'.acked == r.acked && r'.flag == (r.flag && !i.ClearFlag?)
            && r'.status == (if i.SetStatus? then i.v else r.status)
            && r'.dmaCmd == (if i.StartDma? then i.v else r.dmaCmd) && |r'.io| == |r.io|
  {
  }

  lemma WrittenLike(r: Regs, r': Regs, me: nat, c: Call, c': Call, i: Instr)
    requires RegsLike(r, r')
    ensures RegsLike(Written(r, me, c, i), Written(r', me, c', i)) && Blocked(r, i) == Blocked(r', i)
  {
    WrittenIs(r, me, c, i);
    WrittenIs(r', me, c', i);
  }

  lemma ReadLike(r: Regs, r': Regs, me: nat, c: Call, c': Call, i: Instr)
    requires CallLike(c, c')
    ensures CallLike(Read(r, me, c, i), Read(r', me, c', i))
  {
  }

  lemma RunStepLike(s: State, s': State, i: nat)
    requires Like(s, s') && i < |s.threads| && s.threads[i].pc.Running?
    ensures Like(RunStep(s, i), RunStep(s', i))
  {
    var t, t' := s.threads[i], s'.threads[i];
    assert ThreadLike(t, t');
    if t.pc.rest.Do? {
      WrittenLike(s.r, s'.r, i, t.call, t'.call, t.pc.rest.instr);
      ReadLike(s.r, s'.r, i, t.call, t'.call, t.pc.rest.instr);
    }
  }

  lemma SetStepLike(s: State, s': State, i: nat)
    requires Like(s, s') && i < |s.threads| && s.threads[i].call.handle < |s.handles| && Setting(s.threads[i].pc)
    ensures Setting(s'.threads[i].pc) && Like(SetStep(s, i), SetStep(s', i))
  {
    assert ThreadLike(s.threads[i], s'.threads[i]);
    assert HandleLike(s.handles[s.threads[i].call.handle], s'.handles[s.threads[i].call.handle]);
  }

  lemma PrepareStepLike(s: State, s': State, i: nat)
    requires Like(s, s') && i < |s.threads| && s.threads[i].call.handle < |s.handles|
    ensures Like(PrepareStep(s, i), PrepareStep(s', i))
  {
    assert ThreadLike(s.threads[i], s'.threads[i]);
    assert HandleLike(s.handles[s.threads[i].call.handle], s'.handles[s.threads[i].call.handle]);
  }

  lemma ProceedLike(s: State, s': State, i: nat)
    requires Like(s, s')
    ensures Like(ProceedStep(s, i), ProceedStep(s', i))
  {
    if i < |s.threads| && s.threads[i].call.handle < |s.handles| {
      assert ThreadLike(s.threads[i], s'.threads[i]);
      match s.threads[i].pc
      case Running(_) => RunStepLike(s, s', i);
      case SetFirst(_, _) => SetStepLike(s, s', i);
      case SetSecond(_, _) => SetStepLike(s, s', i);
      case _ => PrepareStepLike(s, s', i);
    } else {
      assert i < |s.threads| ==> ThreadLike(s.threads[i], s'.threads[i]);
    }
  }

  lemma DeviceLike(s: State, s': State)
    requires Inv(s) && Inv(s') && Like(s, s')
    ensures RegsLike(FinishMm(s.r), FinishMm(s'.r)) && RegsLike(FinishDma(s.r), FinishDma(s'.r))
    ensures RegsLike(Ack(s.r), Ack(s'.r)) && RegsLike(SetFlag(s.r), SetFlag(s'.r))
  {
    BusyFits(s);
    BusyFits(s');
  }

  lemma RegsChanged(s: State, s': State, r: Regs, r': Regs)
    requires Like(s, s') && RegsLike(r, r')
    ensures Like(s.(r := r), s'.(r := r'))
  {
  }

  lemma ConfigureLike(s: State, s': State, h: nat, c: Config, c': Config)
    requires Like(s, s') && h < |s.handles| && c.dma == c'.dma && c.interrupt == c'.interrupt
    ensures Like(Configure(s, h, c), Configure(s', h, c'))
  {
    assert HandleLike(s.handles[h], s'.handles[h]);
  }

  lemma EnterSetLike(s: State, s': State, i: nat, h: nat, key: Key, key': Key)
    requires Like(s, s')
    ensures Like(EnterSetStep(s, i, h, key), EnterSetStep(s', i, h, key'))
  {
    assert i < |s.threads| ==> ThreadLike(s.threads[i], s'.threads[i]);
    assert h < |s.handles| ==> HandleLike(s.handles[h], s'.handles[h]);
  }

  lemma EnterLike(s: State, s': State, i: nat, h: nat, dir: Direction, user: seq<schar>)
    requires Like(s, s')
    ensures Like(EnterStep(s, i, h, dir, user), EnterStep(s', i, h, dir, user))
  {
    assert i < |s.threads| ==> ThreadLike(s.threads[i], s'.threads[i]);
  }

  lemma StepLike(s: State, s': State, act: Action, act': Action)
    requires Inv(s) && Inv(s') && Like(s, s') && SameButKey(act, act')
    ensures Like(Step(s, act), Step(s', act'))
  {
    match act
    case SetConfig(h, mode, v) =>
      if h < |s.handles| {
        assert HandleLike(s.handles[h], s'.handles[h]);
        ConfigureLike(s, s', h, Configured(s.handles[h].config, mode, v), Configured(s'.handles[h].config, mode, v));
      }
    case EnterSet(i, h, key) => EnterSetLike(s, s', i, h, key, act'.key);
    case Enter(i, h, dir, user) => EnterLike(s, s', i, h, dir, user);
    case Proceed(i) => ProceedLike(s, s', i);
    case _ =>
      DeviceLike(s, s');
      RegsChanged(s, s', Step(s, act).r, Step(s', act').r);
  }

  lemma {:induction false} RunLike(s: State, s': State, acts: seq<Action>, acts': seq<Action>)
    requires Inv(s) && Inv(s') && Like(s, s') && SameOrder(acts, acts')
    ensures Like(Run(s, acts), Run(s', acts'))
    decreases |acts|
  {
    if acts != [] {
      StepKeeps(s, acts[0]);
      StepKeeps(s', acts'[0]);
      StepLike(s, s', acts[0], acts'[0]);
      RunLike(Step(s, acts[0]), Step(s', acts'[0]), acts[1..], acts'[1..]);
    }
  }

  // ---------------------------------------------------------------------------------------------
  // When the key is one that was set whole

  lemma {:induction false} RunKeys(s: State, acts: seq<Action>)
    requires KeyInv(s)
    ensures KeyInv(Run(s, acts))
    decreases |acts|
  {
    if acts != [] {
      StepKeys(s, acts[0]);
      RunKeys(Step(s, acts[0]), acts[1..]);
    }
  }

  /** The key of a finished call has its components from keys of its handle. */
  ghost predicate FinishedOk(s: State)
  {
    forall f | f in s.finished :: f.handle < |s.handles| && KeyFrom(f.asked, s.handles[f.handle].asked)
  }

  ghost predicate KeyFrom(job: Job, asked: seq<Key>)
  {
    exists x, y :: 0 <= x < |asked| && 0 <= y < |asked| && job.a == asked[x].a && job.b == asked[y].b
  }

  lemma KeyFromGrown(job: Job, asked: seq<Key>, asked': seq<Key>)
    requires KeyFrom(job, asked) && asked <= asked'
    ensures KeyFrom(job, asked')
  {
    var x, y :| 0 <= x < |asked| && 0 <= y < |asked| && job.a == asked[x].a && job.b == asked[y].b;
    assert asked'[x] == asked[x] && asked'[y] == asked[y];
  }

  /** Handles stay, and their records only grow. */
  lemma StepGrows(s: State, act: Action)
    requires KeyInv(s)
    ensures |Step(s, act).handles| == |s.handles|
    ensures forall h | 0 <= h < |s.handles| :: s.handles[h].asked <= Step(s, act).handles[h].asked
  {
  }

  /** A step finishes at most one call, with the key it has read. */
  lemma StepFinishes(s: State, act: Action)
    requires KeyInv(s)
    ensures Step(s, act).finished == s.finished
            || exists f :: Step(s, act).finished == s.finished + [f] && f.handle < |s.handles|
                           && KeyFrom(f.asked, s.handles[f.handle].asked)
  {
    if act.Proceed? && act.i < |s.threads| && s.threads[act.i].pc.Running? && s.threads[act.i].pc.rest.Done? {
      var t := s.threads[act.i];
      var f := Finished(t.call.handle, Asked(t.call), t.call.out);
      assert ThreadOk(t, s.handles[t.call.handle]);
      assert Step(s, act).finished == s.finished + [f];
    }
  }

  lemma StepFinished(s: State, act: Action)
    requires KeyInv(s) && FinishedOk(s)
    ensures FinishedOk(Step(s, act))
  {
    var s' := Step(s, act);
    StepGrows(s, act);
    StepFinishes(s, act);
    forall f | f in s'.finished ensures f.handle < |s'.handles| && KeyFrom(f.asked, s'.handles[f.handle].asked) {
      KeyFromGrown(f.asked, s.handles[f.handle].asked, s'.handles[f.handle].asked);
    }
  }

  lemma {:induction false} RunFinished(s: State, acts: seq<Action>)
    requires KeyInv(s) && FinishedOk(s)
    ensures FinishedOk(Run(s, acts)) && |Run(s, acts).handles| == |s.handles|
    ensures forall h | 0 <= h < |s.handles| :: s.handles[h].asked <= Run(s, acts).handles[h].asked
    decreases |acts|
  {
    if acts != [] {
      StepKeys(s, acts[0]);
      StepGrows(s, acts[0]);
      StepFinished(s, acts[0]);
      RunFinished(Step(s, acts[0]), acts[1..]);
    }
  }

  /** On a handle whose key is never set again, every finished call has used its key, and got the cipher of its text. */
  lemma OneKey(s: State, acts: seq<Action>, h: nat, f: Finished)
    requires Start(s) && h < |s.handles| && |Run(s, acts).handles| == |s.handles|
    requires |Run(s, acts).handles[h].asked| == 1 && f in Run(s, acts).finished && f.handle == h
    ensures f.asked.a == s.handles[h].config.a && f.asked.b == s.handles[h].config.b && f.out == Effect(f.asked)
  {
    StartInv(s);
    RunFinished(s, acts);
    RunsKeep(s, acts);
    assert Opened(s.handles[h]);
    assert KeyFrom(f.asked, Run(s, acts).handles[h].asked);
  }

  /** The card before any call; each handle has the key it starts with. */
  ghost predicate Start(s: State)
  {
    Initial(s) && forall h | 0 <= h < |s.handles| :: Opened(s.handles[h])
  }

  predicate Opened(h: Handle)
  {
    && h.byA == 0 && h.byB == 0 && h.asked == [Key(h.config.a, h.config.b)] && h.whole == h.asked
  }

  /** The key that the call uses has been set whole on its handle. */
  ghost predicate UsesWholeKey(s: State, i: nat)
  {
    && i < |s.threads| && s.threads[i].call.handle < |s.handles|
    && Key(s.threads[i].call.a, s.threads[i].call.b) in s.handles[s.threads[i].call.handle].whole
  }

  /** If both components are from one SET_KEY, the key is that of the SET_KEY, which is complete. */
  lemma SameSetterWhole(s: State, i: nat)
    requires KeyInv(s) && i < |s.threads| && HasKey(s.threads[i].pc) && s.threads[i].call.byA == s.threads[i].call.byB
    ensures UsesWholeKey(s, i)
  {
    var t := s.threads[i];
    var h := s.handles[t.call.handle];
    assert ThreadOk(t, h);
    assert h.asked[t.call.byA] == Key(t.call.a, t.call.b);
  }

  /** Keys that tell number `x` from all others. */
  function Mark(x: nat, k: nat): Key { if k == x then Key(1, 0) else Key(0, 1) }

  predicate Marked(h: Handle, x: nat)
  {
    forall k | 0 <= k < |h.asked| :: h.asked[k] == Mark(x, k)
  }

  ghost predicate AllMarked(s: State, x: nat)
  {
    forall h | 0 <= h < |s.handles| :: Marked(s.handles[h], x)
  }

  /** With such keys, components from two SET_KEYs make a key that nobody set. */
  lemma MarkedTorn(s: State, i: nat)
    requires KeyInv(s) && i < |s.threads| && HasKey(s.threads[i].pc) && s.threads[i].call.byA != s.threads[i].call.byB
    requires AllMarked(s, s.threads[i].call.byA)
    ensures !UsesWholeKey(s, i)
  {
    var t := s.threads[i];
    var h := s.handles[t.call.handle];
    assert ThreadOk(t, h) && Marked(h, t.call.byA) && HandleOk(h);
    assert Key(t.call.a, t.call.b) == Key(1, 1);
  }

  function MarkedHandle(h: Handle, x: nat): Handle
  {
    var key := Mark(x, 0);
    Handle(h.config.(a := key.a, b := key.b), 0, 0, [key], [key])
  }

  /** The same start with marked keys. */
  function MarkedStart(s: State, x: nat): State
  {
    s.(handles := seq(|s.handles|, h requires 0 <= h < |s.handles| => MarkedHandle(s.handles[h], x)))
  }

  lemma MarkedStartIs(s: State, x: nat)
    requires Start(s)
    ensures var s' := MarkedStart(s, x); Start(s') && Like(s, s') && AllMarked(s', x)
  {
    var s' := MarkedStart(s, x);
    forall h | 0 <= h < |s.handles| ensures Opened(s'.handles[h]) && HandleLike(s.handles[h], s'.handles[h])
        && Marked(s'.handles[h], x) {
      assert Opened(s.handles[h]);
    }
  }

  lemma StartInv(s: State)
    requires Start(s)
    ensures Inv(s) && KeyInv(s)
  {
    forall h | 0 <= h < |s.handles| ensures HandleOk(s.handles[h]) {
      assert Opened(s.handles[h]);
    }
  }

  function MarkAct(s: State, act: Action, x: nat): Action
  {
    if act.EnterSet? && act.h < |s.handles| then act.(key := Mark(x, |s.handles[act.h].asked|)) else act
  }

  lemma MarkedStep(s: State, act: Action, x: nat)
    requires AllMarked(s, x)
    ensures AllMarked(Step(s, MarkAct(s, act, x)), x)
  {
    var s' := Step(s, MarkAct(s, act, x));
    forall h | 0 <= h < |s'.handles| ensures Marked(s'.handles[h], x) {
      assert Marked(s.handles[h], x);
    }
  }

  /** Any order of steps can be taken with marked keys. */
  lemma {:induction false} MarkRun(s: State, acts: seq<Action>, x: nat) returns (acts': seq<Action>)
    requires AllMarked(s, x)
    ensures SameOrder(acts, acts') && AllMarked(Run(s, acts'), x)
    decreases |acts|
  {
    if acts == [] {
      acts' := [];
    } else {
      var act' := MarkAct(s, acts[0], x);
      MarkedStep(s, acts[0], x);
      var more := MarkRun(Step(s, act'), acts[1..], x);
      RunCons(s, act', more);
      acts' := [act'] + more;
      assert acts == [acts[0]] + acts[1..];
    }
  }

  /**
   * For an order of steps, the key a call uses is one set whole, whatever the values of the keys, if and only if the
   * last SET_KEY to write the first component before the call read it is the last to write the second before the call
   * read that.
   */
  lemma WholeKey(s: State, acts: seq<Action>, i: nat)
    requires Start(s) && i < |Run(s, acts).threads| && HasKey(Run(s, acts).threads[i].pc)
    ensures (forall s', acts' | Start(s') && Like(s, s') && SameOrder(acts, acts') :: UsesWholeKey(Run(s', acts'), i))
            <==> Run(s, acts).threads[i].call.byA == Run(s, acts).threads[i].call.byB
  {
    var c := Run(s, acts).threads[i].call;
    if c.byA == c.byB {
      forall s', acts' | Start(s') && Like(s, s') && SameOrder(acts, acts') ensures UsesWholeKey(Run(s', acts'), i) {
        SameInOrder(s, s', acts, acts', i);
        SameSetterWhole(Run(s', acts'), i);
      }
    } else {
      var s' := MarkedStart(s, c.byA);
      MarkedStartIs(s, c.byA);
      var acts' := MarkRun(s', acts, c.byA);
      SameInOrder(s, s', acts, acts', i);
      MarkedTorn(Run(s', acts'), i);
    }
  }

  lemma SameInOrder(s: State, s': State, acts: seq<Action>, acts': seq<Action>, i: nat)
    requires Start(s) && Start(s') && Like(s, s') && SameOrder(acts, acts')
    requires i < |Run(s, acts).threads| && HasKey(Run(s, acts).threads[i].pc)
    ensures KeyInv(Run(s', acts')) && i < |Run(s', acts').threads| && HasKey(Run(s', acts').threads[i].pc)
    ensures CallLike(Run(s, acts).threads[i].call, Run(s', acts').threads[i].call)
  {
    StartInv(s);
    StartInv(s');
    RunLike(s, s', acts, acts');
    RunKeys(s', acts');
    assert ThreadLike(Run(s, acts).threads[i], Run(s', acts').threads[i]);
  }

  // ---------------------------------------------------------------------------------------------
  // The condition by the order of steps

  /** The second write of a SET_KEY on handle `h`, if the action is one: which SET_KEY it is. */
  function SecondWrite(s: State, act: Action, h: nat): seq<nat>
  {
    if act.Proceed? && act.i < |s.threads| && s.threads[act.i].pc.SetSecond? && s.threads[act.i].call.handle == h
    then [s.threads[act.i].pc.k] else []
  }

  /** The second writes on handle `h` in a run, in order. */
  function SecondWrites(s: State, acts: seq<Action>, h: nat): seq<nat>
    decreases |acts|
  {
    if acts == [] then [] else SecondWrite(s, acts[0], h) + SecondWrites(Step(s, acts[0]), acts[1..], h)
  }

  function LastOr(w: seq<nat>, k: nat): nat { if w == [] then k else w[|w| - 1] }

  lemma {:induction false} ByBIs(s: State, acts: seq<Action>, h: nat)
    requires h < |s.handles|
    ensures |Run(s, acts).handles| == |s.handles|
    ensures Run(s, acts).handles[h].byB == LastOr(SecondWrites(s, acts, h), s.handles[h].byB)
    decreases |acts|
  {
    if acts != [] {
      ByBIs(Step(s, acts[0]), acts[1..], h);
    }
  }

  lemma {:induction false} OthersLeave(s: State, i: nat, acts: seq<Action>)
    requires i < |s.threads| && s.threads[i].pc != Outside && Proceed(i) !in acts
    ensures |Run(s, acts).threads| == |s.threads| && Run(s, acts).threads[i] == s.threads[i]
    decreases |acts|
  {
    if acts != [] {
      assert acts[0] != Proceed(i);
      OthersLeave(Step(s, acts[0]), i, acts[1..]);
    }
  }

  /** The state after a call's two reads of the key, with `acts` between them. */
  function AfterReads(s: State, i: nat, acts: seq<Action>): State
  {
    Step(Run(Step(s, Proceed(i)), acts), Proceed(i))
  }

  /** The second writes of SET_KEYs on the call's handle between its two reads. */
  function Between(s: State, i: nat, acts: seq<Action>): seq<nat>
    requires i < |s.threads|
  {
    SecondWrites(Step(s, Proceed(i)), acts, s.threads[i].call.handle)
  }

  lemma KeyReads(s: State, i: nat, acts: seq<Action>)
    requires KeyInv(s) && i < |s.threads| && s.threads[i].pc == ReadA && Proceed(i) !in acts
    ensures s.threads[i].call.handle < |s.handles|
    ensures var h := s.handles[s.threads[i].call.handle];
            var s' := AfterReads(s, i, acts);
            && i < |s'.threads| && s'.threads[i].pc == ReadInt
            && s'.threads[i].call.byA == h.byA && s'.threads[i].call.byB == LastOr(Between(s, i, acts), h.byB)
  {
    var s1 := Step(s, Proceed(i));
    OthersLeave(s1, i, acts);
    ByBIs(s1, acts, s.threads[i].call.handle);
  }

  predicate SettingOn(t: Thread, h: nat) { Setting(t.pc) && t.call.handle == h }

  predicate BetweenOn(t: Thread, h: nat) { t.pc.SetSecond? && t.call.handle == h }

  /** No SET_KEY on `h` is between its two writes. */
  ghost predicate Settled(s: State, h: nat)
  {
    forall i | 0 <= i < |s.threads| :: !BetweenOn(s.threads[i], h)
  }

  /** SET_KEYs on `h` come one at a time. */
  ghost predicate OneAtATime(s: State, acts: seq<Action>, h: nat)
    decreases |acts|
  {
    acts != [] ==>
      && (acts[0].EnterSet? && acts[0].h == h ==> forall i | 0 <= i < |s.threads| :: !SettingOn(s.threads[i], h))
      && OneAtATime(Step(s, acts[0]), acts[1..], h)
  }

  /** The one SET_KEY at work is newer than what is written, and between its writes it has written `a`. */
  predicate SetterOk(t: Thread, h: Handle)
  {
    && (t.pc.SetFirst? ==> t.pc.k > h.byA && t.pc.k > h.byB)
    && (t.pc.SetSecond? ==> t.pc.k == h.byA && t.pc.k > h.byB)
  }

  ghost predicate Serial(s: State, h: nat)
  {
    && h < |s.handles|
    && (forall i, j | 0 <= i < j < |s.threads| :: !(SettingOn(s.threads[i], h) && SettingOn(s.threads[j], h)))
    && (forall i | 0 <= i < |s.threads| && SettingOn(s.threads[i], h) :: SetterOk(s.threads[i], s.handles[h]))
    && (Settled(s, h) ==> s.handles[h].byA == s.handles[h].byB)
  }

  lemma StartSerial(s: State, h: nat)
    requires Start(s) && h < |s.handles|
    ensures Serial(s, h)
  {
    assert Opened(s.handles[h]);
  }

  /** A step of a thread that is not setting the key of `h` changes nothing of this. */
  lemma SerialOther(s: State, s': State, h: nat)
    requires Serial(s, h) && h < |s'.handles| && |s'.threads| == |s.threads|
    requires s'.handles[h].byA == s.handles[h].byA && s'.handles[h].byB == s.handles[h].byB
    requires forall i | 0 <= i < |s.threads| ::
               SettingOn(s'.threads[i], h) == SettingOn(s.threads[i], h)
               && (SettingOn(s.threads[i], h) ==> s'.threads[i].pc == s.threads[i].pc)
    ensures Serial(s', h) && Settled(s', h) == Settled(s, h)
  {
    forall i | 0 <= i < |s.threads| ensures BetweenOn(s'.threads[i], h) == BetweenOn(s.threads[i], h) {
      assert SettingOn(s'.threads[i], h) == SettingOn(s.threads[i], h);
    }
  }

  lemma SerialFirst(s: State, i: nat, h: nat)
    requires Serial(s, h) && i < |s.threads| && s.threads[i].pc.SetFirst? && s.threads[i].call.handle == h
    ensures var s' := SetStep(s, i);
            && Serial(s', h) && Settled(s, h) && !Settled(s', h)
            && s'.handles[h].byA > s.handles[h].byA && s'.handles[h].byB == s.handles[h].byB
  {
    var s' := SetStep(s, i);
    assert SettingOn(s.threads[i], h) && SetterOk(s.threads[i], s.handles[h]);
    forall j | 0 <= j < |s.threads| && j != i ensures !SettingOn(s.threads[j], h) {
    }
    assert BetweenOn(s'.threads[i], h);
  }

  lemma SerialSecond(s: State, i: nat, h: nat)
    requires Serial(s, h) && i < |s.threads| && s.threads[i].pc.SetSecond? && s.threads[i].call.handle == h
    ensures var s' := SetStep(s, i);
            && Serial(s', h) && !Settled(s, h) && Settled(s', h) && s.threads[i].pc.k == s.handles[h].byA
            && s'.handles[h].byA == s.handles[h].byA
  {
    var s' := SetStep(s, i);
    assert BetweenOn(s.threads[i], h);
    assert SettingOn(s.threads[i], h) && SetterOk(s.threads[i], s.handles[h]);
    forall j | 0 <= j < |s.threads| && j != i ensures !SettingOn(s.threads[j], h) {
    }
  }

  lemma SerialEnter(s: State, i: nat, h: nat, key: Key)
    requires Serial(s, h) && HandleOk(s.handles[h]) && forall j | 0 <= j < |s.threads| :: !SettingOn(s.threads[j], h)
    ensures var s' := EnterSetStep(s, i, h, key); Serial(s', h) && Settled(s', h) == Settled(s, h)
    ensures EnterSetStep(s, i, h, key).handles[h].byA == s.handles[h].byA
  {
    var s' := EnterSetStep(s, i, h, key);
    forall j | 0 <= j < |s.threads| ensures !BetweenOn(s.threads[j], h) && !BetweenOn(s'.threads[j], h) {
      assert !SettingOn(s.threads[j], h);
    }
  }

  /** What a step does to the setting of the key of `h`. */
  ghost predicate Moves(s: State, act: Action, h: nat)
    requires h < |s.handles| && h < |Step(s, act).handles|
  {
    var w, a, a' := SecondWrite(s, act, h), s.handles[h].byA, Step(s, act).handles[h].byA;
    || (w == [] && a' == a && Settled(Step(s, act), h) == Settled(s, h))          // nothing
    || (w == [] && a' > a && Settled(s, h) && !Settled(Step(s, act), h))          // a first write
    || (w == [a] && a' == a && !Settled(s, h) && Settled(Step(s, act), h))        // its second write
  }

  lemma SerialSetting(s: State, i: nat, h: nat)
    requires KeyInv(s) && Serial(s, h) && i < |s.threads| && SettingOn(s.threads[i], h)
    ensures Serial(Step(s, Proceed(i)), h) && Moves(s, Proceed(i), h)
  {
    if s.threads[i].pc.SetFirst? {
      SerialFirst(s, i, h);
    } else {
      SerialSecond(s, i, h);
    }
  }

  lemma SerialProceed(s: State, i: nat, h: nat)
    requires KeyInv(s) && Serial(s, h)
    ensures Serial(Step(s, Proceed(i)), h) && Moves(s, Proceed(i), h)
  {
    if i < |s.threads| && SettingOn(s.threads[i], h) {
      SerialSetting(s, i, h);
    } else if i < |s.threads| && s.threads[i].call.handle < |s.handles| {
      SerialOther(s, ProceedStep(s, i), h);
    }
  }

  lemma SerialEnterOther(s: State, i: nat, g: nat, key: Key, h: nat)
    requires Serial(s, h) && g != h
    ensures var s' := EnterSetStep(s, i, g, key); Serial(s', h) && Settled(s', h) == Settled(s, h)
  {
    SerialOther(s, EnterSetStep(s, i, g, key), h);
  }

  lemma SerialStep(s: State, act: Action, h: nat)
    requires KeyInv(s) && Serial(s, h)
    requires act.EnterSet? && act.h == h ==> forall i | 0 <= i < |s.threads| :: !SettingOn(s.threads[i], h)
    ensures Serial(Step(s, act), h) && Moves(s, act, h)
  {
    match act
    case EnterSet(i, g, key) =>
      if g == h {
        SerialEnter(s, i, h, key);
      } else {
        SerialEnterOther(s, i, g, key, h);
      }
    case Proceed(i) => SerialProceed(s, i, h);
    case _ => SerialOther(s, Step(s, act), h);
  }

  /**
   * While SET_KEYs come one at a time: the last second write in a run is from the SET_KEY that has written the first
   * component at its start if and only if that SET_KEY was between its writes and no other second write followed.
   */
  lemma {:induction false} SerialOrder(s: State, acts: seq<Action>, h: nat)
    requires KeyInv(s) && Serial(s, h) && OneAtATime(s, acts, h)
    ensures var w, k := SecondWrites(s, acts, h), s.handles[h].byA;
            w != [] ==> w[|w| - 1] >= k && (w[|w| - 1] == k <==> !Settled(s, h) && |w| == 1)
    decreases |acts|
  {
    if acts != [] {
      StepKeys(s, acts[0]);
      SerialStep(s, acts[0], h);
      SerialOrder(Step(s, acts[0]), acts[1..], h);
    }
  }

  lemma {:induction false} RunSerial(s: State, acts: seq<Action>, h: nat)
    requires KeyInv(s) && Serial(s, h) && OneAtATime(s, acts, h)
    ensures Serial(Run(s, acts), h)
    decreases |acts|
  {
    if acts != [] {
      StepKeys(s, acts[0]);
      SerialStep(s, acts[0], h);
      RunSerial(Step(s, acts[0]), acts[1..], h);
    }
  }

  /** Whether both components are from one SET_KEY, by what happens between the two reads. */
  lemma OneSetter(s: State, i: nat, acts: seq<Action>)
    requires KeyInv(s) && i < |s.threads| && s.threads[i].pc == ReadA && Proceed(i) !in acts
    requires Serial(s, s.threads[i].call.handle) && OneAtATime(Step(s, Proceed(i)), acts, s.threads[i].call.handle)
    ensures var c := AfterReads(s, i, acts).threads;
            i < |c| && (c[i].call.byA == c[i].call.byB <==>
                        |Between(s, i, acts)| == if Settled(s, s.threads[i].call.handle) then 0 else 1)
  {
    var h := s.threads[i].call.handle;
    KeyReads(s, i, acts);
    StepKeys(s, Proceed(i));
    SerialProceed(s, i, h);
    SerialOrder(Step(s, Proceed(i)), acts, h);
    if !Settled(s, h) {
      var j :| 0 <= j < |s.threads| && BetweenOn(s.threads[j], h);
      assert SettingOn(s.threads[j], h) && SetterOk(s.threads[j], s.handles[h]);
    }
  }

  function WithReads(before: seq<Action>, i: nat, acts: seq<Action>): seq<Action>
  {
    before + ([Proceed(i)] + (acts + [Proceed(i)]))
  }

  lemma WithReadsRuns(s: State, before: seq<Action>, i: nat, acts: seq<Action>)
    ensures Run(s, WithReads(before, i, acts)) == AfterReads(Run(s, before), i, acts)
  {
    var s' := Run(s, before);
    RunAppend(s, before, [Proceed(i)] + (acts + [Proceed(i)]));
    RunCons(s', Proceed(i), acts + [Proceed(i)]);
    RunAppend(Step(s', Proceed(i)), acts, [Proceed(i)]);
    assert [Proceed(i)] == [Proceed(i)] + [];
    RunCons(Run(Step(s', Proceed(i)), acts), Proceed(i), []);
  }

  /**
   * In every run whose SET_KEYs on the call's handle come one at a time: the key the call uses is one set whole,
   * whatever the values of the keys, if and only if between its two reads as many SET_KEYs of the handle are completed
   * as were between their writes at the first read, that is one or none.
   */
  lemma WholeKeyInOrder(s: State, before: seq<Action>, i: nat, acts: seq<Action>)
    requires Start(s) && Proceed(i) !in acts
    requires i < |Run(s, before).threads| && Run(s, before).threads[i].pc == ReadA
    requires var h := Run(s, before).threads[i].call.handle;
             && h < |s.handles| && OneAtATime(s, before, h)
             && OneAtATime(Step(Run(s, before), Proceed(i)), acts, h)
    ensures var s1 := Run(s, before);
            (forall s', acts' | Start(s') && Like(s, s') && SameOrder(WithReads(before, i, acts), acts') ::
               UsesWholeKey(Run(s', acts'), i))
            <==> |Between(s1, i, acts)| == if Settled(s1, s1.threads[i].call.handle) then 0 else 1
  {
    var s1 := Run(s, before);
    var h := s1.threads[i].call.handle;
    StartInv(s);
    StartSerial(s, h);
    RunKeys(s, before);
    RunSerial(s, before, h);
    KeyReads(s1, i, acts);
    OneSetter(s1, i, acts);
    WithReadsRuns(s, before, i, acts);
    WholeKey(s, WithReads(before, i, acts), i);
  }

  /** So it is if at the first read no SET_KEY is between its writes, and none completes before the second. */
  lemma UndisturbedKey(s: State, i: nat, acts: seq<Action>)
    requires KeyInv(s) && i < |s.threads| && s.threads[i].pc == ReadA && Proceed(i) !in acts
    requires Serial(s, s.threads[i].call.handle) && Settled(s, s.threads[i].call.handle) && Between(s, i, acts) == []
    ensures UsesWholeKey(AfterReads(s, i, acts), i)
  {
    KeyReads(s, i, acts);
    StepKeys(s, Proceed(i));
    RunKeys(Step(s, Proceed(i)), acts);
    StepKeys(Run(Step(s, Proceed(i)), acts), Proceed(i));
    SameSetterWhole(AfterReads(s, i, acts), i);
  }

  // ---------------------------------------------------------------------------------------------
  // Three runs on a handle with key (1, 1), on which key (2, 2) is set

  ghost predicate Ready(s: State)
  {
    Start(s) && |s.threads| >= 2 && |s.handles| > 0 && s.handles[0].config == Config(1, 1, 0, 0)
  }

  lemma Runs3(s: State, a: Action, b: Action, c: Action)
    ensures Run(s, [a, b, c]) == Step(Step(Step(s, a), b), c)
  {
    assert [a, b, c] == [a] + ([b] + ([c] + []));
    RunCons(s, a, [b] + ([c] + []));
    RunCons(Step(s, a), b, [c] + []);
    RunCons(Step(Step(s, a), b), c, []);
  }

  lemma Runs4(s: State, a: Action, b: Action, c: Action, d: Action)
    ensures Run(s, [a, b, c, d]) == Step(Step(Step(Step(s, a), b), c), d)
  {
    assert [a, b, c, d] == [a] + [b, c, d];
    RunCons(s, a, [b, c, d]);
    Runs3(Step(s, a), b, c, d);
  }

  /** SET_KEY has written one component when the call reads both: the call uses (2, 1). */
  lemma HalfSetKey(s: State)
    requires Ready(s)
    ensures var s1 := Run(s, [EnterSet(1, 0, Key(2, 2)), Proceed(1), Enter(0, 0, Enc, []), Proceed(0)]);
            var s' := AfterReads(s1, 0, []);
            && |s'.threads| > 0 && s'.threads[0].pc == ReadInt && |s'.handles| > 0
            && (s'.threads[0].call.a, s'.threads[0].call.b) == (2, 1) && s'.handles[0].asked == [Key(1, 1), Key(2, 2)]
  {
    Runs4(s, EnterSet(1, 0, Key(2, 2)), Proceed(1), Enter(0, 0, Enc, []), Proceed(0));
    assert Opened(s.handles[0]);
  }

  /** SET_KEY does all its work between the two reads: the call uses (1, 2). */
  lemma TornKey(s: State)
    requires Ready(s)
    ensures var s1 := Step(Step(s, Enter(0, 0, Enc, [])), Proceed(0));
            var s' := AfterReads(s1, 0, [EnterSet(1, 0, Key(2, 2)), Proceed(1), Proceed(1)]);
            && |s'.threads| > 0 && s'.threads[0].pc == ReadInt && |s'.handles| > 0
            && (s'.threads[0].call.a, s'.threads[0].call.b) == (1, 2) && s'.handles[0].whole == [Key(1, 1), Key(2, 2)]
  {
    var s1 := Step(Step(s, Enter(0, 0, Enc, [])), Proceed(0));
    Runs3(Step(s1, Proceed(0)), EnterSet(1, 0, Key(2, 2)), Proceed(1), Proceed(1));
    assert Opened(s.handles[0]);
  }

  /** SET_KEY is between its writes at the first read and completes before the second: the call uses (2, 2). */
  lemma CompletedKey(s: State)
    requires Ready(s)
    ensures var s1 := Run(s, [EnterSet(1, 0, Key(2, 2)), Proceed(1), Enter(0, 0, Enc, []), Proceed(0)]);
            var s' := AfterReads(s1, 0, [Proceed(1)]);
            && |s1.threads| > 1 && BetweenOn(s1.threads[1], 0) && |s'.threads| > 0 && s'.threads[0].pc == ReadInt
            && (s'.threads[0].call.a, s'.threads[0].call.b) == (2, 2) && UsesWholeKey(s', 0)
  {
    Runs4(s, EnterSet(1, 0, Key(2, 2)), Proceed(1), Enter(0, 0, Enc, []), Proceed(0));
    var s1 := Run(s, [EnterSet(1, 0, Key(2, 2)), Proceed(1), Enter(0, 0, Enc, []), Proceed(0)]);
    assert [Proceed(1)] == [Proceed(1)] + [];
    RunCons(Step(s1, Proceed(0)), Proceed(1), []);
    assert Opened(s.handles[0]);
  }
}
