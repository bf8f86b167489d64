/**
 * The cipher of the card (gen.c): letters are shifted around their alphabet by both key components. Characters are
 * signed bytes, arithmetic is C's: a remainder has the sign of the dividend, and storing to a character wraps.
 */
module Cipher {
  import opened Common

  type schar = x: int | -128 <= x < 128

  /** The value that a character holds after `x` is stored in it. */
  function ToChar(x: int): schar
  {
    if -128 <= x < 128 then x else (x + 128) % 256 - 128
  }

  /** C's remainder. */
  function Rem(x: int, n: int): int
    requires n > 0
  {
    if x >= 0 then x % n else -(-x % n)
  }

  function EncryptChar(a: u8, b: u8, p: schar): schar
  {
    var c := ToChar(Rem(p + a, 26));
    ToChar(Rem(c + b, 26))
  }

  function DecryptChar(a: u8, b: u8, c: schar): schar
  {
    var p0 := ToChar(c - b);
    var p1 := if p0 < 0 then ToChar(p0 + 26) else p0;
    var p2 := ToChar(Rem(p1 - a, 26));
    if p2 < 0 then ToChar(p2 + 26) else p2
  }

  predicate Upper(c: schar) { 65 <= c <= 90 }

  predicate Lower(c: schar) { 97 <= c <= 122 }

  predicate Letter(c: schar) { Upper(c) || Lower(c) }

  function EncryptByte(a: u8, b: u8, c: schar): schar
  {
    if Upper(c) then ToChar(EncryptChar(a, b, c - 65) + 65)
    else if Lower(c) then ToChar(EncryptChar(a, b, c - 97) + 97)
    else c
  }

  function DecryptByte(a: u8, b: u8, c: schar): schar
  {
    if Upper(c) then ToChar(DecryptChar(a, b, c - 65) + 65)
    else if Lower(c) then ToChar(DecryptChar(a, b, c - 97) + 97)
    else c
  }

  function Encrypt(a: u8, b: u8, m: seq<schar>): (r: seq<schar>)
    ensures |r| == |m|
  {
    seq(|m|, i requires 0 <= i < |m| => EncryptByte(a, b, m[i]))
  }

  function Decrypt(a: u8, b: u8, m: seq<schar>): (r: seq<schar>)
    ensures |r| == |m|
  {
    seq(|m|, i requires 0 <= i < |m| => DecryptByte(a, b, m[i]))
  }

  // ---------------------------------------------------------------------------------------------
  // What it means

  /** The place of a letter in its alphabet. */
  function Place(c: schar): nat
    requires Letter(c)
  {
    if Upper(c) then c - 65 else c - 97
  }

  /** The letter at a place of the alphabet, in the case of `c`. */
  function AtPlace(p: nat, c: schar): (r: schar)
    requires Letter(c) && p < 26
    ensures Upper(r) == Upper(c) && Lower(r) == Lower(c) && Place(r) == p
  {
    if Upper(c) then p + 65 else p + 97
  }

  /** The letter `k` places further round the alphabet, in the same case; other characters stay. */
  function Shift(k: int, c: schar): (r: schar)
    ensures Upper(r) == Upper(c) && Lower(r) == Lower(c) && (!Letter(c) ==> r == c)
  {
    if Letter(c) then AtPlace((Place(c) + k) % 26, c) else c
  }

  function Shifted(k: int, m: seq<schar>): (r: seq<schar>)
    ensures |r| == |m|
  {
    seq(|m|, i requires 0 <= i < |m| => Shift(k, m[i]))
  }

  lemma ModTwice(x: int, y: int)
    ensures (x % 26 + y) % 26 == (x + y) % 26
  {
  }

  lemma ModTurns(x: int, n: int)
    ensures (x + 26 * n) % 26 == x % 26
  {
  }

  lemma ModEqual(p: int, j: int, k: int)
    ensures (p + j) % 26 == (p + k) % 26 <==> j % 26 == k % 26
  {
    ModTwice(j, p);
    ModTwice(k, p);
    ModTwice(p + j, -p);
    ModTwice(p + k, -p);
  }

  lemma ShiftTwice(j: int, k: int, c: schar)
    ensures Shift(k, Shift(j, c)) == Shift(j + k, c)
  {
    if Letter(c) {
      ModTwice(Place(c) + j, k);
    }
  }

  lemma ShiftEqual(j: int, k: int, c: schar)
    requires Letter(c)
    ensures Shift(j, c) == Shift(k, c) <==> j % 26 == k % 26
  {
    ModEqual(Place(c), j, k);
  }

  lemma EncryptCharShifts(a: u8, b: u8, p: schar)
    requires 0 <= p < 26
    ensures EncryptChar(a, b, p) == (p + (a + b)) % 26
  {
    ModTwice(p + a, b);
  }

  lemma EncryptByteShifts(a: u8, b: u8, c: schar)
    ensures EncryptByte(a, b, c) == Shift(a + b, c)
  {
    if Letter(c) {
      EncryptCharShifts(a, b, Place(c));
    }
  }

  /** Where the first subtraction wraps below -128, it adds 256, which is 22 places round the alphabet. */
  function Slip(b: u8, p: int): int
  {
    if p - b < -128 then 22 else 0
  }

  /** The last two lines of decryptChar bring any value into the alphabet. */
  lemma RemShifts(x: int)
    requires -400 < x < 200
    ensures var r := ToChar(Rem(x, 26)); (if r < 0 then ToChar(r + 26) else r) == x % 26
  {
  }

  /** The first two lines are off by whole turns, and by the slip. */
  lemma SubtractShifts(b: u8, c: schar)
    requires 0 <= c < 26
    ensures var p0 := ToChar(c - b);
            exists n :: 0 <= n < 10 && (if p0 < 0 then ToChar(p0 + 26) else p0) == c - b + Slip(b, c) + 26 * n
  {
    if c - b < -128 {
      assert ToChar(c - b) == c - b + Slip(b, c) + 26 * 9;
    } else if c - b < 0 {
      assert ToChar(ToChar(c - b) + 26) == c - b + Slip(b, c) + 26 * 1;
    } else {
      assert ToChar(c - b) == c - b + Slip(b, c) + 26 * 0;
    }
  }

  lemma DecryptCharShifts(a: u8, b: u8, c: schar)
    requires 0 <= c < 26
    ensures DecryptChar(a, b, c) == (c + (Slip(b, c) - (a + b))) % 26
  {
    var p0 := ToChar(c - b);
    var p1 := if p0 < 0 then ToChar(p0 + 26) else p0;
    SubtractShifts(b, c);
    var n :| 0 <= n < 10 && p1 == c - b + Slip(b, c) + 26 * n;
    RemShifts(p1 - a);
    ModTurns(c + (Slip(b, c) - (a + b)), n);
  }

  lemma DecryptByteShifts(a: u8, b: u8, c: schar)
    ensures Letter(c) ==> DecryptByte(a, b, c) == Shift(Slip(b, Place(c)) - (a + b), c)
    ensures !Letter(c) ==> DecryptByte(a, b, c) == c
  {
    if Letter(c) {
      DecryptCharShifts(a, b, Place(c));
    }
  }

  lemma EncryptShifts(a: u8, b: u8, m: seq<schar>)
    ensures Encrypt(a, b, m) == Shifted(a + b, m)
  {
    forall i | 0 <= i < |m| ensures Encrypt(a, b, m)[i] == Shifted(a + b, m)[i] {
      EncryptByteShifts(a, b, m[i]);
    }
  }

  /** The cipher works character by character. */
  lemma EncryptAppend(a: u8, b: u8, x: seq<schar>, y: seq<schar>)
    ensures Encrypt(a, b, x + y) == Encrypt(a, b, x) + Encrypt(a, b, y)
  {
    var z := Encrypt(a, b, x) + Encrypt(a, b, y);
    forall i | 0 <= i < |x + y| ensures Encrypt(a, b, x + y)[i] == z[i] {
      if i >= |x| {
        assert (x + y)[i] == y[i - |x|];
      }
    }
  }

  lemma ShiftedTwice(j: int, k: int, m: seq<schar>)
    ensures Shifted(k, Shifted(j, m)) == Shifted(j + k, m)
  {
    forall i | 0 <= i < |m| ensures Shifted(k, Shifted(j, m))[i] == Shifted(j + k, m)[i] {
      ShiftTwice(j, k, m[i]);
    }
  }

  /** Two encryptions are one, by the sum of the keys. */
  lemma EncryptTwice(a: u8, b: u8, a': u8, b': u8, m: seq<schar>)
    ensures Encrypt(a', b', Encrypt(a, b, m)) == Shifted(a + b + (a' + b'), m)
  {
    EncryptShifts(a, b, m);
    EncryptShifts(a', b', Shifted(a + b, m));
    ShiftedTwice(a + b, a' + b', m);
  }

  /** Shifts are told apart, on messages with letters, by their distance modulo the alphabet only. */
  lemma ShiftedEqual(j: int, k: int, m: seq<schar>)
    ensures Shifted(j, m) == Shifted(k, m) <==> (j % 26 == k % 26 || forall i | 0 <= i < |m| :: !Letter(m[i]))
  {
    forall i | 0 <= i < |m| && Letter(m[i])
      ensures Shifted(j, m)[i] == Shifted(k, m)[i] <==> j % 26 == k % 26
    {
      ShiftEqual(j, k, m[i]);
    }
    if j % 26 == k % 26 || forall i | 0 <= i < |m| :: !Letter(m[i]) {
      assert forall i | 0 <= i < |m| :: Shifted(j, m)[i] == Shifted(k, m)[i];
    }
  }

  lemma ShiftZero(c: schar)
    ensures Shift(0, c) == c
  {
  }

  /** A letter shifted forth by `k` and back by `k` less a slip is the letter if there was no slip. */
  lemma ShiftBack(k: int, slip: int, c: schar)
    requires Letter(c) && 0 <= slip < 26
    ensures Shift(slip - k, Shift(k, c)) == c <==> slip == 0
  {
    ShiftTwice(k, slip - k, c);
    ShiftEqual(slip, 0, c);
    ShiftZero(c);
  }

  /** A character survives encryption and decryption unless the subtraction of `b` wraps. */
  lemma ByteReturns(a: u8, b: u8, c: schar)
    ensures DecryptByte(a, b, EncryptByte(a, b, c)) == c <==> (Letter(c) ==> (Place(c) + (a + b)) % 26 >= b - 128)
  {
    EncryptByteShifts(a, b, c);
    var e := Shift(a + b, c);
    DecryptByteShifts(a, b, e);
    if Letter(c) {
      ShiftBack(a + b, Slip(b, Place(e)), c);
    }
  }

  ghost predicate Survives(a: u8, b: u8, m: seq<schar>)
  {
    forall i | 0 <= i < |m| :: Letter(m[i]) ==> (Place(m[i]) + (a + b)) % 26 >= b - 128
  }

  /** Exactly which messages come back. */
  lemma MessageReturns(a: u8, b: u8, m: seq<schar>)
    ensures Decrypt(a, b, Encrypt(a, b, m)) == m <==> Survives(a, b, m)
  {
    var r := Decrypt(a, b, Encrypt(a, b, m));
    forall i | 0 <= i < |m|
      ensures r[i] == m[i] <==> (Letter(m[i]) ==> (Place(m[i]) + (a + b)) % 26 >= b - 128)
    {
      ByteReturns(a, b, m[i]);
    }
    if Survives(a, b, m) {
      assert forall i | 0 <= i < |m| :: r[i] == m[i];
    } else {
      var i :| 0 <= i < |m| && Letter(m[i]) && (Place(m[i]) + (a + b)) % 26 < b - 128;
      assert r[i] != m[i];
    }
  }

  /** The letter that encrypts to A. */
  function BeforeA(a: u8, b: u8): (c: schar)
    ensures Upper(c) && (Place(c) + (a + b)) % 26 == 0
  {
    ModTwice(-(a + b), a + b);
    -(a + b) % 26 + 65
  }

  /** Every message comes back under a key if and only if its second component is at most 128. */
  lemma RoundTrip(a: u8, b: u8)
    ensures (forall m: seq<schar> :: Decrypt(a, b, Encrypt(a, b, m)) == m) <==> b <= 128
  {
    if b <= 128 {
      forall m: seq<schar> ensures Decrypt(a, b, Encrypt(a, b, m)) == m {
        MessageReturns(a, b, m);
      }
    } else {
      var m := [BeforeA(a, b)];
      assert m[0] == BeforeA(a, b);
      MessageReturns(a, b, m);
    }
  }

  // ---------------------------------------------------------------------------------------------
  // The loops over the buffer

  method EncryptOne(a: u8, b: u8, c: schar) returns (r: schar)
    ensures r == EncryptByte(a, b, c)
  {
    if 65 <= c <= 90 {
      r := ToChar(EncryptChar(a, b, c - 65) + 65);
    } else if 97 <= c <= 122 {
      r := ToChar(EncryptChar(a, b, c - 97) + 97);
    } else {
      r := c;
    }
  }

  method DecryptOne(a: u8, b: u8, c: schar) returns (r: schar)
    ensures r == DecryptByte(a, b, c)
  {
    if 65 <= c <= 90 {
      r := ToChar(DecryptChar(a, b, c - 65) + 65);
    } else if 97 <= c <= 122 {
      r := ToChar(DecryptChar(a, b, c - 97) + 97);
    } else {
      r := c;
    }
  }

  method EncryptMessage(buf: array<schar>, length: nat, a: u8, b: u8)
    requires length <= buf.Length
    modifies buf
    ensures buf[..] == Encrypt(a, b, old(buf[..length])) + old(buf[length..])
  {
    ghost var done := Encrypt(a, b, buf[..length]) + buf[length..];
    for pos := 0 to length
      invariant forall i | 0 <= i < pos :: buf[i] == done[i]
      invariant forall i | pos <= i < buf.Length :: buf[i] == old(buf[i])
    {
      assert done[pos] == EncryptByte(a, b, buf[pos]);
      buf[pos] := EncryptOne(a, b, buf[pos]);
    }
  }

  method DecryptMessage(buf: array<schar>, length: nat, a: u8, b: u8)
    requires length <= buf.Length
    modifies buf
    ensures buf[..] == Decrypt(a, b, old(buf[..length])) + old(buf[length..])
  {
    ghost var done := Decrypt(a, b, buf[..length]) + buf[length..];
    for pos := 0 to length
      invariant forall i | 0 <= i < pos :: buf[i] == done[i]
      invariant forall i | pos <= i < buf.Length :: buf[i] == old(buf[i])
    {
      assert done[pos] == DecryptByte(a, b, buf[pos]);
      buf[pos] := DecryptOne(a, b, buf[pos]);
    }
  }
}
