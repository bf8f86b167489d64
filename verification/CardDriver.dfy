/**
 * The driver's routines as they run with the lock held (cryptocard.c). The device counts down `latency` looks and then
 * finishes its job, so that every busy-wait ends after an arbitrary but finite time.
 */
module CardDriver {
  import opened Common
  import opened Cipher
  import opened CardProtocol

  /** The text after a job on its first `n` characters. */
  function Worked(dir: Direction, key: nat, text: seq<schar>, n: nat): (r: seq<schar>)
    requires n <= |text|
    ensures |r| == |text|
  {
    Result(Job(dir, key / 256 % 256, key % 256, text[..n])) + text[n..]
  }

  /** `dst` after memcpy of the first `n` characters of `src`. */
  function Over(dst: seq<schar>, src: seq<schar>, n: nat): (r: seq<schar>)
    requires n <= |dst| && n <= |src|
    ensures |r| == |dst|
  {
    src[..n] + dst[n..]
  }

  method CopyText(dst: array<schar>, src: array<schar>, n: nat)
    requires dst != src && n <= dst.Length && n <= src.Length
    modifies dst
    ensures dst[..] == Over(old(dst[..]), src[..], n)
  {
    for i := 0 to n
      invariant forall k | 0 <= k < dst.Length :: dst[k] == if k < i then src[k] else old(dst[k])
    {
      dst[i] := src[i];
    }
  }

  /** A job done on a copy of the text, copied back, is the job done on the text. */
  lemma ThereAndBack(dir: Direction, key: nat, data: seq<schar>, copy: seq<schar>, n: nat)
    requires n <= |data| && n <= |copy|
    ensures Over(data, Worked(dir, key, Over(copy, data, n), n), n) == Worked(dir, key, data, n)
  {
    assert Over(copy, data, n)[..n] == data[..n];
    var r := Result(Job(dir, key / 256 % 256, key % 256, data[..n]));
    assert Worked(dir, key, Over(copy, data, n), n)[..n] == r;
  }

  /** Copying back what the device has made of a copy of the text. */
  method CopyBack(data: array<schar>, src: array<schar>, n: nat,
                  ghost dir: Direction, ghost key: nat, ghost text: seq<schar>, ghost area: seq<schar>)
    requires data != src && n <= |area| && n <= |text| && data[..] == text
    requires src[..] == Worked(dir, key, Over(area, text, n), n)
    modifies data
    ensures data[..] == Worked(dir, key, text, n)
  {
    CopyText(data, src, n);
    ThereAndBack(dir, key, text, area, n);
  }

  class Card {
    const io: array<schar>
    var key: nat
    var status: nat
    var mmLen: nat
    var mmBusy: bool
    var dmaLen: nat
    var dmaCmd: nat
    var dmaBusy: bool
    var latency: nat
    var pending: bool
    var flag: bool

    constructor (size: nat)
      ensures Idle() && fresh(io) && io.Length == size
    {
      io := new schar[size];
      key, status, mmLen, mmBusy, dmaLen, dmaCmd, dmaBusy := 0, 0, 0, false, 0, 0, false;
      latency, pending, flag := 0, false, false;
    }

    /** No job, no interrupt and no flag. */
    ghost predicate Idle()
      reads this
    {
      !mmBusy && !dmaBusy && !pending && !flag
    }

    /** The registers, with `buff` as the one coherent buffer. */
    ghost function View(buff: seq<schar>): Regs
      reads this, io
    {
      Regs(key, status, mmLen, io[..], mmBusy, dmaLen, 0, dmaCmd, dmaBusy, [buff], pending, false, flag)
    }

    // The device

    method Compute(text: array<schar>, n: nat, dir: Direction)
      requires n <= text.Length
      modifies text
      ensures text[..] == Worked(dir, key, old(text[..]), n)
    {
      ghost var before := text[..];
      assert before[..n] == text[..n] && before[n..] == text[n..];
      if dir == Enc {
        EncryptMessage(text, n, key / 256 % 256, key % 256);
      } else {
        DecryptMessage(text, n, key / 256 % 256, key % 256);
      }
    }

    /** The device during one look of the driver at the status register. */
    method WorkMm()
      requires mmBusy && mmLen <= io.Length
      modifies this`latency, this`mmBusy, this`pending, io
      ensures old(latency) > 0 ==> latency == old(latency) - 1 && mmBusy && pending == old(pending)
      ensures old(latency) > 0 ==> io[..] == old(io[..])
      ensures old(latency) == 0 ==> !mmBusy && pending == (old(pending) || Bit(status, 128))
      ensures old(latency) == 0 ==> io[..] == Worked(Way(Bit(status, 2)), key, old(io[..]), mmLen)
      ensures old(latency) == 0 ==> View([]) == FinishMm(old(View([])))
    {
      if latency > 0 {
        latency := latency - 1;
      } else {
        Compute(io, mmLen, Way(Bit(status, 2)));
        mmBusy, pending := false, pending || Bit(status, 128);
      }
    }

    method WorkDma(buff: array<schar>)
      requires dmaBusy && dmaLen <= buff.Length && buff != io
      modifies this`latency, this`dmaBusy, this`pending, buff
      ensures old(latency) > 0 ==> latency == old(latency) - 1 && dmaBusy && pending == old(pending)
      ensures old(latency) > 0 ==> buff[..] == old(buff[..])
      ensures old(latency) == 0 ==> !dmaBusy && pending == (old(pending) || Bit(dmaCmd, 4))
      ensures old(latency) == 0 ==> buff[..] == Worked(Way(Bit(dmaCmd, 2)), key, old(buff[..]), dmaLen)
      ensures old(latency) == 0 ==> View(buff[..]) == FinishDma(old(View(buff[..])))
    {
      if latency > 0 {
        latency := latency - 1;
      } else {
        Compute(buff, dmaLen, Way(Bit(dmaCmd, 2)));
        dmaBusy, pending := false, pending || Bit(dmaCmd, 4);
      }
    }

    method IrqHandle()
      requires pending
      modifies this`pending, this`flag
      ensures flag && !pending && View([]) == SetFlag(Ack(old(View([]))))
    {
      pending := false;
      flag := true;
    }

    // Starting a job and waiting for it

    method PollMm()
      requires Idle() && mmLen <= io.Length && !Bit(status, 128)
      modifies this`latency, this`mmBusy, this`pending, io
      ensures Idle() && io[..] == Worked(Way(Bit(status, 2)), key, old(io[..]), mmLen)
    {
      latency := *;
      mmBusy := true;
      while mmBusy
        invariant !pending
        invariant io[..] == if mmBusy then old(io[..]) else Worked(Way(Bit(status, 2)), key, old(io[..]), mmLen)
        decreases mmBusy, latency
      {
        WorkMm();
      }
    }

    method AwaitMm()
      requires Idle() && mmLen <= io.Length && Bit(status, 128)
      modifies this`latency, this`mmBusy, this`pending, this`flag, io
      ensures Idle() && io[..] == Worked(Way(Bit(status, 2)), key, old(io[..]), mmLen)
    {
      latency := *;
      mmBusy := true;
      while !flag
        invariant if mmBusy then !pending && !flag else pending != flag
        invariant io[..] == if mmBusy then old(io[..]) else Worked(Way(Bit(status, 2)), key, old(io[..]), mmLen)
        decreases mmBusy, pending, latency
      {
        if mmBusy {
          WorkMm();
        } else {
          IrqHandle();
        }
      }
      flag := false;
    }

    method PollDma(buff: array<schar>, cmd: nat)
      requires Idle() && dmaLen <= buff.Length && buff != io && !Bit(cmd, 4)
      modifies this`latency, this`dmaCmd, this`dmaBusy, this`pending, buff
      ensures Idle() && dmaCmd == cmd && buff[..] == Worked(Way(Bit(cmd, 2)), key, old(buff[..]), dmaLen)
    {
      latency := *;
      dmaCmd, dmaBusy := cmd, true;
      while dmaBusy
        invariant !pending && dmaCmd == cmd
        invariant buff[..] == if dmaBusy then old(buff[..]) else Worked(Way(Bit(cmd, 2)), key, old(buff[..]), dmaLen)
        decreases dmaBusy, latency
      {
        WorkDma(buff);
      }
    }

    method AwaitDma(buff: array<schar>, cmd: nat)
      requires Idle() && dmaLen <= buff.Length && buff != io && Bit(cmd, 4)
      modifies this`latency, this`dmaCmd, this`dmaBusy, this`pending, this`flag, buff
      ensures Idle() && dmaCmd == cmd && buff[..] == Worked(Way(Bit(cmd, 2)), key, old(buff[..]), dmaLen)
    {
      latency := *;
      dmaCmd, dmaBusy := cmd, true;
      while !flag
        invariant dmaCmd == cmd && if dmaBusy then !pending && !flag else pending != flag
        invariant buff[..] == if dmaBusy then old(buff[..]) else Worked(Way(Bit(cmd, 2)), key, old(buff[..]), dmaLen)
        decreases dmaBusy, pending, latency
      {
        if dmaBusy {
          WorkDma(buff);
        } else {
          IrqHandle();
        }
      }
      flag := false;
    }

    // The eight routines

    method EncryptionMmioPoll(data: array<schar>, len: nat)
      requires Idle() && len <= data.Length && len <= io.Length && data != io
      modifies this, io, data
      ensures Idle() && key == old(key) && data[..] == Worked(Enc, key, old(data[..]), len)
      ensures mmLen == len && status == 0x00 && dmaLen == old(dmaLen) && dmaCmd == old(dmaCmd)
    {
      ghost var text, area := data[..], io[..];
      status := 0x00;
      CopyText(io, data, len);
      ghost var copy := io[..];
      mmLen := len;
      assert io[..] == copy && Way(Bit(0x00, 2)) == Enc;
      PollMm();
      assert io[..] == Worked(Enc, key, copy, len);
      CopyBack(data, io, len, Enc, key, text, area);
    }

    method DecryptionMmioPoll(data: array<schar>, len: nat)
      requires Idle() && len <= data.Length && len <= io.Length && data != io
      modifies this, io, data
      ensures Idle() && key == old(key) && data[..] == Worked(Dec, key, old(data[..]), len)
      ensures mmLen == len && status == 0x02 && dmaLen == old(dmaLen) && dmaCmd == old(dmaCmd)
    {
      ghost var text, area := data[..], io[..];
      mmLen := len;
      status := 0x02;
      CopyText(io, data, len);
      ghost var copy := io[..];
      assert io[..] == copy && Way(Bit(0x02, 2)) == Dec;
      PollMm();
      assert io[..] == Worked(Dec, key, copy, len);
      CopyBack(data, io, len, Dec, key, text, area);
    }

    method EncryptionMmioInterrupt(data: array<schar>, len: nat)
      requires Idle() && len <= data.Length && len <= io.Length && data != io
      modifies this, io, data
      ensures Idle() && key == old(key) && data[..] == Worked(Enc, key, old(data[..]), len)
      ensures mmLen == len && status == 0x80 && dmaLen == old(dmaLen) && dmaCmd == old(dmaCmd)
    {
      ghost var text, area := data[..], io[..];
      status := 0x80;
      CopyText(io, data, len);
      ghost var copy := io[..];
      mmLen := len;
      assert io[..] == copy && Way(Bit(0x80, 2)) == Enc;
      AwaitMm();
      assert io[..] == Worked(Enc, key, copy, len);
      CopyBack(data, io, len, Enc, key, text, area);
    }

    method DecryptionMmioInterrupt(data: array<schar>, len: nat)
      requires Idle() && len <= data.Length && len <= io.Length && data != io
      modifies this, io, data
      ensures Idle() && key == old(key) && data[..] == Worked(Dec, key, old(data[..]), len)
      ensures mmLen == len && status == 0x82 && dmaLen == old(dmaLen) && dmaCmd == old(dmaCmd)
    {
      ghost var text, area := data[..], io[..];
      status := 0x82;
      CopyText(io, data, len);
      ghost var copy := io[..];
      mmLen := len;
      assert io[..] == copy && Way(Bit(0x82, 2)) == Dec;
      AwaitMm();
      assert io[..] == Worked(Dec, key, copy, len);
      CopyBack(data, io, len, Dec, key, text, area);
    }

    method EncryptionDmaPoll(data: array<schar>, len: nat)
      requires Idle() && len <= data.Length
      modifies this, data
      ensures Idle() && key == old(key) && data[..] == Worked(Enc, key, old(data[..]), len)
      ensures dmaLen == len && dmaCmd == 0x1 && mmLen == old(mmLen) && status == old(status)
    {
      ghost var text := data[..];
      var buff := new schar[len];
      ghost var area := buff[..];
      CopyText(buff, data, len);
      ghost var copy := buff[..];
      dmaLen := len;
      assert buff[..] == copy && Way(Bit(0x1, 2)) == Enc;
      PollDma(buff, 0x1);
      assert buff[..] == Worked(Enc, key, copy, len);
      CopyBack(data, buff, len, Enc, key, text, area);
    }

    method DecryptionDmaPoll(data: array<schar>, len: nat)
      requires Idle() && len <= data.Length
      modifies this, data
      ensures Idle() && key == old(key) && data[..] == Worked(Dec, key, old(data[..]), len)
      ensures dmaLen == len && dmaCmd == 0x3 && mmLen == old(mmLen) && status == old(status)
    {
      ghost var text := data[..];
      var buff := new schar[len];
      ghost var area := buff[..];
      CopyText(buff, data, len);
      ghost var copy := buff[..];
      dmaLen := len;
      assert buff[..] == copy && Way(Bit(0x3, 2)) == Dec;
      PollDma(buff, 0x3);
      assert buff[..] == Worked(Dec, key, copy, len);
      CopyBack(data, buff, len, Dec, key, text, area);
    }

    method EncryptionDmaInterrupt(data: array<schar>, len: nat)
      requires Idle() && len <= data.Length
      modifies this, data
      ensures Idle() && key == old(key) && data[..] == Worked(Enc, key, old(data[..]), len)
      ensures dmaLen == len && dmaCmd == 0x5 && mmLen == old(mmLen) && status == old(status)
    {
      ghost var text := data[..];
      var buff := new schar[len];
      ghost var area := buff[..];
      CopyText(buff, data, len);
      ghost var copy := buff[..];
      dmaLen := len;
      assert buff[..] == copy && Way(Bit(0x5, 2)) == Enc;
      AwaitDma(buff, 0x5);
      assert buff[..] == Worked(Enc, key, copy, len);
      CopyBack(data, buff, len, Enc, key, text, area);
    }

    method DecryptionDmaInterrupt(data: array<schar>, len: nat)
      requires Idle() && len <= data.Length
      modifies this, data
      ensures Idle() && key == old(key) && data[..] == Worked(Dec, key, old(data[..]), len)
      ensures dmaLen == len && dmaCmd == 0x7 && mmLen == old(mmLen) && status == old(status)
    {
      ghost var text := data[..];
      var buff := new schar[len];
      ghost var area := buff[..];
      CopyText(buff, data, len);
      ghost var copy := buff[..];
      dmaLen := len;
      assert buff[..] == copy && Way(Bit(0x7, 2)) == Dec;
      AwaitDma(buff, 0x7);
      assert buff[..] == Worked(Dec, key, copy, len);
      CopyBack(data, buff, len, Dec, key, text, area);
    }

    // The ioctl

    /** The registers show that the transfer went the way the configuration says, and no other. */
    ghost predicate ModeShown(config: Config, len: nat, mmLen0: nat, status0: nat, dmaLen0: nat, dmaCmd0: nat)
      reads this
    {
      if config.dma == 0 then
        mmLen == len && Bit(status, 128) == (config.interrupt != 0) && dmaLen == dmaLen0 && dmaCmd == dmaCmd0
      else
        dmaLen == len && Bit(dmaCmd, 4) == (config.interrupt != 0) && mmLen == mmLen0 && status == status0
    }

    method Transfer(dir: Direction, config: Config, data: array<schar>, len: nat)
      requires Idle() && len <= data.Length && (config.dma == 0 ==> len <= io.Length) && data != io
      modifies this, io, data
      ensures Idle() && data[..] == Worked(dir, old(key), old(data[..]), len)
      ensures ModeShown(config, len, old(mmLen), old(status), old(dmaLen), old(dmaCmd))
    {
      if config.dma == 0 {
        if config.interrupt == 0 {
          if dir == Enc { EncryptionMmioPoll(data, len); } else { DecryptionMmioPoll(data, len); }
        } else {
          if dir == Enc { EncryptionMmioInterrupt(data, len); } else { DecryptionMmioInterrupt(data, len); }
        }
      } else {
        if config.interrupt == 0 {
          if dir == Enc { EncryptionDmaPoll(data, len); } else { DecryptionDmaPoll(data, len); }
        } else {
          if dir == Enc { EncryptionDmaInterrupt(data, len); } else { DecryptionDmaInterrupt(data, len); }
        }
      }
    }

    /** Between the copies from and to the user: the locked section with the registers. */
    method Operate(dir: Direction, config: Config, user: array<schar>, offset: nat, length: nat)
      requires Idle() && offset + length <= user.Length && length < TWO32
               && (config.dma == 0 ==> length <= io.Length) && user != io
      modifies this, io, user
      ensures Idle() && user[..] == Spliced(dir, config.a, config.b, old(user[..]), offset, length)
      ensures ModeShown(config, length, old(mmLen), old(status), old(dmaLen), old(dmaCmd))
    {
      key := config.a * 256 + config.b;
      var buff := new schar[length + 1];
      CopyFromUser(buff, user, offset, length);
      ghost var text, memory := buff[..], user[..];
      Transfer(dir, config, buff, length);
      KeyParts(config.a, config.b);
      assert buff[..length] == Result(Job(dir, config.a, config.b, text[..length]));
      assert user[..] == memory;
      CopyToUser(user, offset, buff, length);
    }

    /**
     * ENCRYPT or DECRYPT of an unmapped buffer: the result does not depend on the mode of transfer, and is what the
     * protocol's list of register accesses for this call comes to from the registers as they were.
     */
    method Ioctl(dir: Direction, config: Config, user: array<schar>, offset: nat, length: nat)
      requires Idle() && offset + length <= user.Length && length < TWO32
               && (config.dma == 0 ==> length <= io.Length) && user != io
      modifies this, io, user
      ensures Idle() && user[..] == Spliced(dir, config.a, config.b, old(user[..]), offset, length)
      ensures var c := CallOf(dir, config, old(user[offset..offset + length]));
              Outcome(old(View([])), 0, c, Program(c)) == Some(user[offset..offset + length])
      ensures ModeShown(config, length, old(mmLen), old(status), old(dmaLen), old(dmaCmd))
    {
      ghost var m, r, text := user[..], View([]), user[offset..offset + length];
      assert m[offset..offset + length] == text;
      Operate(dir, config, user, offset, length);
      EffectShort(Asked(CallOf(dir, config, text)));
      ProgramWorks(r, 0, CallOf(dir, config, text));
      SplicedPart(dir, config.a, config.b, m, offset, length);
      assert user[offset..offset + length] == user[..][offset..offset + length];
    }
  }

  /** A call that has read this configuration, of a handle and a caller that do not matter. */
  function CallOf(dir: Direction, config: Config, text: seq<schar>): Call
  {
    Call(0, dir, config.a, config.b, 0, 0, config.interrupt, config.dma, text, [], [], [])
  }

  lemma SplicedPart(dir: Direction, a: u8, b: u8, m: seq<schar>, offset: nat, length: nat)
    requires offset + length <= |m|
    ensures Spliced(dir, a, b, m, offset, length)[offset..offset + length]
            == Result(Job(dir, a, b, m[offset..offset + length]))
  {
  }

  lemma KeyParts(a: u8, b: u8)
    ensures (a * 256 + b) / 256 % 256 == a && (a * 256 + b) % 256 == b
  {
  }

  /** The user's memory after a call on part of it. */
  function Spliced(dir: Direction, a: u8, b: u8, m: seq<schar>, offset: nat, length: nat): (r: seq<schar>)
    requires offset + length <= |m|
    ensures |r| == |m|
  {
    m[..offset] + Result(Job(dir, a, b, m[offset..offset + length])) + m[offset + length..]
  }

  method CopyFromUser(buff: array<schar>, user: array<schar>, offset: nat, n: nat)
    requires buff != user && n <= buff.Length && offset + n <= user.Length
    modifies buff
    ensures buff[..n] == user[offset..offset + n]
  {
    for i := 0 to n
      invariant forall k | 0 <= k < i :: buff[k] == user[offset + k]
    {
      buff[i] := user[offset + i];
    }
  }

  method CopyToUser(user: array<schar>, offset: nat, buff: array<schar>, n: nat)
    requires buff != user && n <= buff.Length && offset + n <= user.Length
    modifies user
    ensures user[..] == old(user[..offset]) + buff[..n] + old(user[offset + n..])
  {
    for i := 0 to n
      invariant forall k | 0 <= k < user.Length ::
                  user[k] == if offset <= k < offset + i then buff[k - offset] else old(user[k])
    {
      user[offset + i] := buff[i];
    }
  }
}
