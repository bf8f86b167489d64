/** The user library (crypter.c): long buffers are processed in chunks, one ioctl each. */
module Crypter {
  import opened Common
  import opened Arithmetic
  import opened Cipher
  import opened CardProtocol
  import opened CardDriver
  import opened KeyRace

  const ENCRYPT_CHUNK: nat := 32000
  const DECRYPT_CHUNK: nat := 32768
  const TWO31: nat := 0x8000_0000

  /** One ioctl, on part of the buffer. */
  datatype Piece = Piece(offset: nat, length: nat)

  /** A 64-bit quotient stored in an int. */
  function ToInt(x: nat): int
  {
    (x + TWO31) % TWO32 - TWO31
  }

  /** The whole chunks that the loop processes. */
  function Chunks(count: int, chunk: nat): seq<Piece>
    decreases count
  {
    if count <= 0 then [] else Chunks(count - 1, chunk) + [Piece((count - 1) * chunk, chunk)]
  }

  function Processed(count: int, chunk: nat): nat
  {
    if count <= 0 then 0 else count * chunk
  }

  /** The ioctls of one library call. */
  function Pieces(length: nat, chunk: nat): seq<Piece>
    requires chunk > 0
  {
    if length <= chunk then [Piece(0, length)]
    else
      var count := ToInt(length / chunk);
      if length % chunk == 0 then Chunks(count, chunk)
      else Chunks(count, chunk) + [Piece(Processed(count, chunk), length % chunk)]
  }

  /** Pieces that follow one another from `lo` to `hi` without gap or overlap. */
  predicate Tiles(pieces: seq<Piece>, lo: nat, hi: nat)
    decreases |pieces|
  {
    if pieces == [] then lo == hi
    else
      var last := pieces[|pieces| - 1];
      last.offset + last.length == hi && last.offset >= lo && Tiles(pieces[..|pieces| - 1], lo, last.offset)
  }

  lemma TilesMore(pieces: seq<Piece>, lo: nat, mid: nat, n: nat)
    requires Tiles(pieces, lo, mid) && lo <= mid
    ensures Tiles(pieces + [Piece(mid, n)], lo, mid + n)
  {
    assert (pieces + [Piece(mid, n)])[..|pieces|] == pieces;
  }

  lemma {:induction false} ChunksTile(count: int, chunk: nat)
    ensures Tiles(Chunks(count, chunk), 0, Processed(count, chunk))
    ensures forall p | p in Chunks(count, chunk) :: p.length == chunk
  {
    if count > 0 {
      ChunksTile(count - 1, chunk);
      assert Processed(count - 1, chunk) == (count - 1) * chunk;
      assert (count - 1) * chunk + chunk == count * chunk;
      TilesMore(Chunks(count - 1, chunk), 0, (count - 1) * chunk, chunk);
    }
  }

  /** Tiles end at one place only. */
  lemma TilesEnd(pieces: seq<Piece>, lo: nat, hi: nat, hi': nat)
    requires Tiles(pieces, lo, hi)
    ensures Tiles(pieces, lo, hi') <==> hi == hi'
  {
  }

  lemma ToIntExact(x: nat)
    requires x < TWO64
    ensures ToInt(x) == x <==> x < TWO31
    ensures ToInt(x) < TWO31
  {
  }

  lemma MulDiffers(x: int, y: nat, n: nat)
    requires x != y && y > 0 && n > 0
    ensures Processed(x, n) != y * n
  {
    MultipleSize(n, y);
    MultipleSize(n, x - y);
    assert n * (x - y) == x * n - y * n;
  }

  lemma Quotient(length: nat, chunk: nat)
    requires 0 < chunk < length
    ensures 0 < length / chunk <= length && length == length / chunk * chunk + length % chunk
  {
    var q := length / chunk;
    assert length == q * chunk + length % chunk;
    MulMono(q, q, 1, chunk);
  }

  /** Where the ioctls of a long buffer end. */
  lemma LongPieces(length: nat, chunk: nat)
    requires 0 < chunk < length
    ensures Tiles(Pieces(length, chunk), 0, Processed(ToInt(length / chunk), chunk) + length % chunk)
    ensures forall p | p in Pieces(length, chunk) :: 0 < p.length <= chunk
  {
    var count := ToInt(length / chunk);
    ChunksTile(count, chunk);
    if length % chunk != 0 {
      TilesMore(Chunks(count, chunk), 0, Processed(count, chunk), length % chunk);
    }
  }

  /**
   * The ioctls cover exactly the buffer, in order, each of at most a chunk, if and only if the number of chunks fits
   * an int. Only an empty buffer gives an empty ioctl.
   */
  lemma PiecesTile(length: nat, chunk: nat)
    requires 0 < chunk && length < TWO64
    ensures Tiles(Pieces(length, chunk), 0, length) <==> length <= chunk || length / chunk < TWO31
    ensures forall p | p in Pieces(length, chunk) :: p.length <= chunk && (p.length > 0 <==> length > 0)
    ensures length <= chunk ==> Pieces(length, chunk) == [Piece(0, length)]
  {
    if length <= chunk {
      TilesMore([], 0, 0, length);
      assert [] + [Piece(0, length)] == [Piece(0, length)];
    } else {
      var q := length / chunk;
      Quotient(length, chunk);
      ToIntExact(q);
      LongPieces(length, chunk);
      var end := Processed(ToInt(q), chunk) + length % chunk;
      if q < TWO31 {
        assert end == length;
      } else {
        MulDiffers(ToInt(q), q, chunk);
        TilesEnd(Pieces(length, chunk), 0, end, length);
      }
    }
  }

  // ---------------------------------------------------------------------------------------------
  // What the ioctls do to the buffer

  /** The buffer when its first `k` characters are done. */
  function Upto(dir: Direction, a: u8, b: u8, m: seq<schar>, k: nat): (r: seq<schar>)
    requires k <= |m|
    ensures |r| == |m|
  {
    Result(Job(dir, a, b, m[..k])) + m[k..]
  }

  function One(dir: Direction, a: u8, b: u8, c: schar): schar
  {
    if dir == Enc then EncryptByte(a, b, c) else DecryptByte(a, b, c)
  }

  /** The cipher works character by character. */
  lemma UptoAt(dir: Direction, a: u8, b: u8, m: seq<schar>, k: nat, i: nat)
    requires k <= |m| && i < |m|
    ensures Upto(dir, a, b, m, k)[i] == if i < k then One(dir, a, b, m[i]) else m[i]
  {
  }

  lemma SplicedAt(dir: Direction, a: u8, b: u8, m: seq<schar>, k: nat, n: nat, i: nat)
    requires k + n <= |m| && i < |m|
    ensures Spliced(dir, a, b, m, k, n)[i] == if k <= i < k + n then One(dir, a, b, m[i]) else m[i]
  {
  }

  lemma SpliceNext(dir: Direction, a: u8, b: u8, m: seq<schar>, k: nat, n: nat)
    requires k + n <= |m|
    ensures Spliced(dir, a, b, Upto(dir, a, b, m, k), k, n) == Upto(dir, a, b, m, k + n)
  {
    var u := Upto(dir, a, b, m, k);
    var s, t := Spliced(dir, a, b, u, k, n), Upto(dir, a, b, m, k + n);
    forall i | 0 <= i < |m| ensures s[i] == t[i] {
      SplicedAt(dir, a, b, u, k, n, i);
      UptoAt(dir, a, b, m, k, i);
      UptoAt(dir, a, b, m, k + n, i);
    }
  }

  /** One ioctl of the loop. */
  method OneChunk(card: Card, config: Config, buf: array<schar>, position: nat, n: nat, ghost m: seq<schar>)
    requires position + n <= buf.Length && n < TWO32 && |m| == buf.Length
             && buf[..] == Upto(Enc, config.a, config.b, m, position)
    requires card.Idle() && buf != card.io && (config.dma == 0 ==> n <= card.io.Length)
    modifies card, card.io, buf
    ensures card.Idle() && buf[..] == Upto(Enc, config.a, config.b, m, position + n)
  {
    card.Ioctl(Enc, config, buf, position, n);
    SpliceNext(Enc, config.a, config.b, m, position, n);
  }

  lemma NextChunk(i: nat, count: nat, chunk: nat)
    requires i < count
    ensures i * chunk == Processed(i, chunk)
            && Processed(i + 1, chunk) == Processed(i, chunk) + chunk <= Processed(count, chunk)
  {
    MulMono(i + 1, count, chunk, chunk);
  }

  lemma NothingDone(dir: Direction, a: u8, b: u8, m: seq<schar>)
    ensures Upto(dir, a, b, m, 0) == m
  {
  }

  /** The loop that encrypt and decrypt share: both issue ENCRYPT. */
  method WholeChunks(card: Card, config: Config, buf: array<schar>, count: nat, chunk: nat)
    returns (position: nat, ghost pieces: seq<Piece>)
    requires Processed(count, chunk) <= buf.Length && chunk < TWO32
    requires card.Idle() && buf != card.io && (config.dma == 0 ==> chunk <= card.io.Length)
    modifies card, card.io, buf
    ensures position == Processed(count, chunk) && pieces == Chunks(count, chunk)
    ensures card.Idle() && buf[..] == Upto(Enc, config.a, config.b, old(buf[..]), position)
  {
    position, pieces := 0, [];
    ghost var m := buf[..];
    NothingDone(Enc, config.a, config.b, m);
    for i := 0 to count
      invariant position == Processed(i, chunk) <= buf.Length && card.Idle()
      invariant buf[..] == Upto(Enc, config.a, config.b, m, position)
      invariant pieces == Chunks(i, chunk)
    {
      NextChunk(i, count, chunk);
      OneChunk(card, config, buf, position, chunk, m);
      pieces := pieces + [Piece(position, chunk)];
      position := position + chunk;
    }
  }

  method InChunks(card: Card, config: Config, buf: array<schar>, length: nat,
                  chunk: nat) returns (ghost pieces: seq<Piece>)
    requires 0 < chunk < length <= buf.Length && chunk < TWO32 && length < TWO64 && length / chunk < TWO31
    requires card.Idle() && buf != card.io && (config.dma == 0 ==> chunk <= card.io.Length)
    modifies card, card.io, buf
    ensures card.Idle() && buf[..] == Upto(Enc, config.a, config.b, old(buf[..]), length)
    ensures pieces == Pieces(length, chunk)
  {
    var count, residual := length / chunk, length % chunk;
    Quotient(length, chunk);
    ToIntExact(count);
    var position;
    position, pieces := WholeChunks(card, config, buf, count, chunk);
    if residual != 0 {
      OneChunk(card, config, buf, position, residual, old(buf[..]));
      pieces := pieces + [Piece(position, residual)];
    }
  }

  /** encrypt: however long the buffer and whatever the mode, the whole of it is encrypted. */
  method EncryptBuffer(card: Card, config: Config, buf: array<schar>, length: nat) returns (ghost pieces: seq<Piece>)
    requires length <= buf.Length && length < TWO64 && length / ENCRYPT_CHUNK < TWO31
    requires card.Idle() && buf != card.io && (config.dma == 0 ==> ENCRYPT_CHUNK <= card.io.Length)
    modifies card, card.io, buf
    ensures card.Idle() && buf[..] == Encrypt(config.a, config.b, old(buf[..length])) + old(buf[length..])
    ensures pieces == Pieces(length, 32000)
  {
    ghost var m := buf[..];
    assert m[..length] == buf[..length] && m[length..] == buf[length..];
    if length <= ENCRYPT_CHUNK {
      card.Ioctl(Enc, config, buf, 0, length);
      pieces := [Piece(0, length)];
    } else {
      pieces := InChunks(card, config, buf, length, ENCRYPT_CHUNK);
    }
  }

  /** decrypt: a buffer of more than 32768 characters is encrypted once more. */
  method DecryptBuffer(card: Card, config: Config, buf: array<schar>, length: nat) returns (ghost pieces: seq<Piece>)
    requires length <= buf.Length && length < TWO64 && length / DECRYPT_CHUNK < TWO31
    requires card.Idle() && buf != card.io && (config.dma == 0 ==> DECRYPT_CHUNK <= card.io.Length)
    modifies card, card.io, buf
    ensures card.Idle() && buf[..] == Decrypted(config.a, config.b, old(buf[..length])) + old(buf[length..])
    ensures pieces == Pieces(length, 32768)
  {
    ghost var m := buf[..];
    assert m[..length] == buf[..length] && m[length..] == buf[length..];
    if length <= DECRYPT_CHUNK {
      card.Ioctl(Dec, config, buf, 0, length);
      pieces := [Piece(0, length)];
    } else {
      pieces := InChunks(card, config, buf, length, DECRYPT_CHUNK);
    }
  }

  function Decrypted(a: u8, b: u8, m: seq<schar>): (r: seq<schar>)
    ensures |r| == |m|
  {
    if |m| <= DECRYPT_CHUNK then Decrypt(a, b, m) else Encrypt(a, b, m)
  }

  predicate NoLetters(m: seq<schar>)
  {
    forall i | 0 <= i < |m| :: !Letter(m[i])
  }

  /** Exactly which buffers come back when the library encrypts and then decrypts them. */
  lemma BufferReturns(a: u8, b: u8, m: seq<schar>)
    ensures Decrypted(a, b, Encrypt(a, b, m)) == m <==>
            if |m| <= 32768 then Survives(a, b, m) else 2 * (a + b) % 26 == 0 || NoLetters(m)
  {
    if |m| <= DECRYPT_CHUNK {
      MessageReturns(a, b, m);
    } else {
      EncryptTwice(a, b, a, b, m);
      ShiftedEqual(2 * (a + b), 0, m);
      forall i | 0 <= i < |m| ensures Shifted(0, m)[i] == m[i] {
        ShiftZero(m[i]);
      }
      assert Shifted(0, m) == m;
    }
  }

  /** In particular every buffer up to the limit, under every key whose second component is at most 128. */
  lemma ShortBufferReturns(a: u8, b: u8, m: seq<schar>)
    requires |m| <= 32768 && b <= 128
    ensures Decrypted(a, b, Encrypt(a, b, m)) == m
  {
    BufferReturns(a, b, m);
  }

  // ---------------------------------------------------------------------------------------------
  // The chunks among other callers

  /** The results of finished calls, one after the other. */
  function Outs(finished: seq<Finished>, calls: seq<nat>): seq<schar>
    requires forall j | 0 <= j < |calls| :: calls[j] < |finished|
  {
    if calls == [] then [] else Outs(finished, calls[..|calls| - 1]) + finished[calls[|calls| - 1]].out
  }

  /** Call number `calls[j]` encrypted the j-th piece of `m` under one key. */
  ghost predicate CallsFor(finished: seq<Finished>, calls: seq<nat>, pieces: seq<Piece>, m: seq<schar>, a: u8, b: u8)
  {
    && |calls| == |pieces|
    && forall j | 0 <= j < |calls| ::
         && calls[j] < |finished| && pieces[j].offset + pieces[j].length <= |m|
         && finished[calls[j]].out == Encrypt(a, b, m[pieces[j].offset..pieces[j].offset + pieces[j].length])
  }

  lemma {:induction false} OutsEncrypt(finished: seq<Finished>, calls: seq<nat>, pieces: seq<Piece>, m: seq<schar>,
                                       a: u8, b: u8, hi: nat)
    requires CallsFor(finished, calls, pieces, m, a, b) && Tiles(pieces, 0, hi) && hi <= |m|
    ensures Outs(finished, calls) == Encrypt(a, b, m[..hi])
    decreases |calls|
  {
    if calls != [] {
      var n := |calls| - 1;
      var last := pieces[n];
      OutsEncrypt(finished, calls[..n], pieces[..n], m, a, b, last.offset);
      assert m[..hi] == m[..last.offset] + m[last.offset..hi];
      EncryptAppend(a, b, m[..last.offset], m[last.offset..hi]);
    }
  }

  /**
   * The library releases the lock between its ioctls. In every run in which the key of the handle is not set, whatever
   * other callers do in between, the results of the calls for the pieces are together the encrypted buffer.
   */
  lemma ChunksAmongOthers(s: State, acts: seq<Action>, h: nat, calls: seq<nat>, m: seq<schar>, chunk: nat)
    requires Start(s) && h < |s.handles| && |Run(s, acts).handles| == |s.handles|
    requires |Run(s, acts).handles[h].asked| == 1
    requires 0 < chunk < TWO32 && |m| < TWO64 && (|m| <= chunk || |m| / chunk < TWO31)
    requires |calls| == |Pieces(|m|, chunk)|
    requires forall j | 0 <= j < |calls| ::
               var p := Pieces(|m|, chunk)[j];
               && calls[j] < |Run(s, acts).finished| && p.offset + p.length <= |m|
               && Run(s, acts).finished[calls[j]].handle == h
               && Run(s, acts).finished[calls[j]].asked.dir == Enc
               && Run(s, acts).finished[calls[j]].asked.text == m[p.offset..p.offset + p.length]
    ensures Outs(Run(s, acts).finished, calls) == Encrypt(s.handles[h].config.a, s.handles[h].config.b, m)
  {
    var finished, pieces := Run(s, acts).finished, Pieces(|m|, chunk);
    var a, b := s.handles[h].config.a, s.handles[h].config.b;
    PiecesTile(|m|, chunk);
    forall j | 0 <= j < |calls|
      ensures finished[calls[j]].out == Encrypt(a, b, m[pieces[j].offset..pieces[j].offset + pieces[j].length])
    {
      OneKey(s, acts, h, finished[calls[j]]);
      EffectShort(finished[calls[j]].asked);
    }
    OutsEncrypt(finished, calls, pieces, m, a, b, |m|);
    assert m[..|m|] == m;
  }
}
