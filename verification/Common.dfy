/** Machine integers, big-endian fields and byte-addressed memory, shared by all components. */
module Common {
  type u8 = x: int | 0 <= x < 0x100
  type u16 = x: int | 0 <= x < 0x1_0000
  type u32 = x: int | 0 <= x < 0x1_0000_0000
  type u64 = x: int | 0 <= x < 0x1_0000_0000_0000_0000

  const TWO16: int := 0x1_0000
  const TWO32: int := 0x1_0000_0000
  const TWO64: int := 0x1_0000_0000_0000_0000

  datatype Option<+T> = None | Some(value: T)

  lemma Assoc<T>(x: seq<T>, y: seq<T>, z: seq<T>)
    ensures x + (y + z) == (x + y) + z
  {
  }

  /** The big-endian number in two bytes at offset `o`. */
  function Be16(s: seq<u8>, o: nat): u16
    requires o + 2 <= |s|
  {
    var hi: int := s[o];
    hi * 0x100 + s[o + 1]
  }

  /** The big-endian number in four bytes at offset `o`. */
  function Be32(s: seq<u8>, o: nat): u32
    requires o + 4 <= |s|
  {
    Be16(s, o) * 0x1_0000 + Be16(s, o + 2)
  }

  /** The big-endian number in eight bytes at offset `o`. */
  function Be64(s: seq<u8>, o: nat): u64
    requires o + 8 <= |s|
  {
    Be32(s, o) * 0x1_0000_0000 + Be32(s, o + 4)
  }

  /** Byte-addressed memory; only the addresses ever written are present. */
  datatype Memory = Memory(bytes: map<nat, u8>)

  /** Memory after `data` has been stored at consecutive addresses from `addr`. */
  function Store(m: Memory, addr: nat, data: seq<u8>): Memory
    decreases |data|
  {
    if data == [] then m else Store(Memory(m.bytes[addr := data[0]]), addr + 1, data[1..])
  }

  /** A store puts each byte at its own address and changes nothing else. */
  lemma {:induction false} StoreAt(m: Memory, addr: nat, data: seq<u8>, a: nat)
    ensures var r := Store(m, addr, data).bytes;
            && (addr <= a < addr + |data| ==> a in r && r[a] == data[a - addr])
            && (!(addr <= a < addr + |data|) ==> (a in r <==> a in m.bytes) && (a in m.bytes ==> r[a] == m.bytes[a]))
    decreases |data|
  {
    if data != [] {
      StoreAt(Memory(m.bytes[addr := data[0]]), addr + 1, data[1..], a);
    }
  }

  /** Two adjacent stores are one store of the concatenation. */
  lemma {:induction false} StoreAppend(m: Memory, addr: nat, x: seq<u8>, y: seq<u8>)
    ensures Store(Store(m, addr, x), addr + |x|, y) == Store(m, addr, x + y)
    decreases |x|
  {
    if x == [] {
      assert x + y == y;
    } else {
      StoreAppend(Memory(m.bytes[addr := x[0]]), addr + 1, x[1..], y);
      assert (x + y)[1..] == x[1..] + y;
    }
  }

  /** A store hides an earlier one of the same length at the same place. */
  lemma StoreOver(m: Memory, addr: nat, x: seq<u8>, y: seq<u8>)
    requires |x| == |y|
    ensures Store(Store(m, addr, x), addr, y) == Store(m, addr, y)
  {
    var once, twice := Store(m, addr, y).bytes, Store(Store(m, addr, x), addr, y).bytes;
    forall a: nat ensures (a in once <==> a in twice) && (a in once ==> once[a] == twice[a]) {
      StoreAt(m, addr, x, a);
      StoreAt(m, addr, y, a);
      StoreAt(Store(m, addr, x), addr, y, a);
    }
    assert once == twice;
  }

  /** The bytes at `n` addresses from `addr`; what was never written reads as zero. */
  function Load(m: Memory, addr: nat, n: nat): (r: seq<u8>)
    ensures |r| == n
  {
    seq(n, i requires 0 <= i < n => if addr + i in m.bytes then m.bytes[addr + i] else 0)
  }

  lemma LoadStored(m: Memory, addr: nat, data: seq<u8>)
    ensures Load(Store(m, addr, data), addr, |data|) == data
  {
    var r := Load(Store(m, addr, data), addr, |data|);
    forall i | 0 <= i < |data| ensures r[i] == data[i] {
      StoreAt(m, addr, data, addr + i);
    }
  }

  /** Part of a part. */
  lemma SubSlice(s: seq<u8>, o: nat, n: nat, i: nat, j: nat)
    requires i <= j <= n && o + n <= |s|
    ensures s[o..o + n][i..j] == s[o + i..o + j]
  {
    var t := s[o..o + n];
    forall k | 0 <= k < j - i ensures t[i..j][k] == s[o + i..o + j][k] {
    }
    assert |t[i..j]| == |s[o + i..o + j]|;
  }

  function ToBe16(x: u16): (r: seq<u8>)
    ensures |r| == 2
  {
    [x / 0x100, x % 0x100]
  }

  function ToBe32(x: u32): (r: seq<u8>)
    ensures |r| == 4
  {
    ToBe16(x / 0x1_0000) + ToBe16(x % 0x1_0000)
  }

  function ToBe64(x: u64): (r: seq<u8>)
    ensures |r| == 8
  {
    ToBe32(x / TWO32) + ToBe32(x % TWO32)
  }

  lemma Be16Back(x: u16, s: seq<u8>, o: nat)
    requires o + 2 <= |s| && s[o..o + 2] == ToBe16(x)
    ensures Be16(s, o) == x
  {
    var t := s[o..o + 2];
    assert s[o] == t[0] && s[o + 1] == t[1];
  }

  lemma Be32Back(x: u32, s: seq<u8>, o: nat)
    requires o + 4 <= |s| && s[o..o + 4] == ToBe32(x)
    ensures Be32(s, o) == x
  {
    SubSlice(s, o, 4, 0, 2);
    SubSlice(s, o, 4, 2, 4);
    Be16Back(x / 0x1_0000, s, o);
    Be16Back(x % 0x1_0000, s, o + 2);
  }

  lemma Be64Back(x: u64, s: seq<u8>, o: nat)
    requires o + 8 <= |s| && s[o..o + 8] == ToBe64(x)
    ensures Be64(s, o) == x
  {
    SubSlice(s, o, 8, 0, 4);
    SubSlice(s, o, 8, 4, 8);
    Be32Back(x / TWO32, s, o);
    Be32Back(x % TWO32, s, o + 4);
  }
}

/** Facts about products, quotients and remainders that the solver does not find by itself. */
module Arithmetic {
  lemma MultipleSize(d: nat, k: int)
    ensures k >= 1 ==> d * k >= d
    ensures k <= -1 ==> d * k + d <= 0
  {
    if k >= 1 {
      assert d * k == d + d * (k - 1) && d * (k - 1) >= 0;
    } else {
      assert d * k == d * (k + 1) - d;
    }
  }

  lemma DivMod(d: nat, q: nat, r: nat)
    requires r < d
    ensures (d * q + r) / d == q && (d * q + r) % d == r
  {
    var n := d * q + r;
    var k := q - n / d;
    assert n == d * (n / d) + n % d;
    assert d * k == d * q - d * (n / d);
    MultipleSize(d, k);
  }

  lemma MulMono(a: nat, a': nat, b: nat, b': nat)
    requires a <= a' && b <= b'
    ensures 0 <= a * b <= a' * b'
  {
    assert a * b <= a' * b;
    assert a' * b <= a' * b';
  }

  lemma ModAddMultiple(r: nat, c: nat, n: nat)
    requires n > 0
    ensures (c * n + r) % n == r % n
  {
    assert c * n + r == n * (c + r / n) + r % n;
    DivMod(n, c + r / n, r % n);
  }
}
