/**
  Block cipher modes and padding (rust_backend/crates/extensions/src/crypto.rs): CBC and CTR of NIST
  SP 800-38A (sections 6.2 and 6.5) with a counter as wide as the block, and PKCS7 (section 6.3 of
  RFC 5652). The block cipher itself is a pair of functions, decryption undoing encryption.
*/
module BlockModes {
  import opened Bits
  import opened Checks
  import opened Division
  import opened Sequences

  type Octets = seq<bv8>

  datatype Cipher = Cipher(size: nat, encrypt: Octets -> Octets, decrypt: Octets -> Octets) {
    /** AES has blocks of 16 bytes, Blowfish of 8. */
    ghost predicate Lawful() {
      && 1 <= size <= 255
      && (forall b | |b| == size :: |encrypt(b)| == size && decrypt(encrypt(b)) == b)
      && (forall b | |b| == size :: |decrypt(b)| == size)
    }
  }

  datatype Mode = Ctr | CbcEncrypt | CbcDecrypt

  function Min(a: nat, b: nat): nat { if a <= b then a else b }

  function Xor(a: Octets, mask: Octets): (r: Octets)
    requires |a| <= |mask|
    ensures |r| == |a|
  {
    seq(|a|, i requires 0 <= i < |a| => a[i] ^ mask[i])
  }

  lemma {:induction false} XorTwice(a: Octets, mask: Octets)
    requires |a| <= |mask|
    ensures Xor(Xor(a, mask), mask) == a
  {
    forall i | 0 <= i < |a| ensures Xor(Xor(a, mask), mask)[i] == a[i] {
      assert (a[i] ^ mask[i]) ^ mask[i] == a[i];
    }
  }

  // ----- the counter -----------------------------------------------------------------------------

  /** Adds one to the last byte and carries leftwards. */
  function Increment(b: Octets): (r: Octets)
    ensures |r| == |b|
    decreases |b|
  {
    if b == [] then []
    else if b[|b| - 1] == 255 then Increment(b[..|b| - 1]) + [0]
    else b[..|b| - 1] + [b[|b| - 1] + 1]
  }

  function Value(b: Octets): nat
    decreases |b|
  {
    if b == [] then 0 else 256 * Value(b[..|b| - 1]) + b[|b| - 1] as nat
  }

  function Power256(n: nat): (p: nat)
    ensures p >= 1
  {
    if n == 0 then 1 else 256 * Power256(n - 1)
  }

  lemma {:induction false} ValueBound(b: Octets)
    ensures Value(b) < Power256(|b|)
    decreases |b|
  {
    if b != [] {
      ValueBound(b[..|b| - 1]);
    }
  }

  lemma {:induction false} ValueAppend(head: Octets, last: bv8)
    ensures Value(head + [last]) == 256 * Value(head) + last as nat
  {
    assert (head + [last])[..|head|] == head;
  }

  /** The counter is one big-endian number, and it wraps. */
  lemma {:induction false} IncrementAddsOne(b: Octets)
    ensures Value(Increment(b)) == (Value(b) + 1) % Power256(|b|)
    decreases |b|
  {
    if b == [] {
      assert Value([]) == 0;
    } else {
      var head, last := b[..|b| - 1], b[|b| - 1];
      ValueBound(b);
      ValueBound(head);
      if last == 255 {
        IncrementAddsOne(head);
        ValueAppend(Increment(head), 0);
        CarryModulo(Value(head), Power256(|head|));
      } else {
        ValueAppend(head, last + 1);
        NextByte(last);
        Small(Value(b) + 1, Power256(|b|));
      }
    }
  }

  lemma {:induction false} CarryModulo(v: nat, m: nat)
    requires v < m
    ensures 256 * ((v + 1) % m) == (256 * v + 255 + 1) % (256 * m)
  {
    if v + 1 < m {
      Small(v + 1, m);
      Small(256 * v + 256, 256 * m);
    } else {
      DivisionIs(m, 1, 0, m);
      DivisionIs(256 * m, 1, 0, 256 * m);
    }
  }

  function CounterAt(iv: Octets, blocks: nat): (r: Octets)
    ensures |r| == |iv|
    decreases blocks
  {
    if blocks == 0 then iv else CounterAt(Increment(iv), blocks - 1)
  }

  lemma {:induction false} ModuloNext(v: nat, next: nat, more: nat, m: nat)
    requires m > 0 && next == (v + 1) % m
    ensures (next + more) % m == (v + (more + 1)) % m
  {
    RemainderPlus(v + 1, more, m);
  }

  lemma {:induction false} CounterAdds(iv: Octets, blocks: nat)
    ensures Value(CounterAt(iv, blocks)) == (Value(iv) + blocks) % Power256(|iv|)
    decreases blocks
  {
    hide Value, Power256, Increment;
    ValueBound(iv);
    if blocks == 0 {
      Small(Value(iv), Power256(|iv|));
    } else {
      IncrementAddsOne(iv);
      CounterAdds(Increment(iv), blocks - 1);
      ModuloNext(Value(iv), Value(Increment(iv)), blocks - 1, Power256(|iv|));
    }
  }

  // ----- modes -----------------------------------------------------------------------------------

  predicate Fits(c: Cipher, mode: Mode, s: Octets) { c.size > 0 && (mode == Ctr || |s| % c.size == 0) }

  /** One chunk: what replaces it, and the counter or chaining block for the next. */
  function Chunk(c: Cipher, mode: Mode, state: Octets, chunk: Octets): (r: (Octets, Octets))
    requires c.Lawful() && |state| == c.size && |chunk| <= c.size
    requires mode == Ctr || |chunk| == c.size
    ensures |r.0| == |chunk| && |r.1| == c.size
  {
    match mode
    case Ctr => (Xor(chunk, c.encrypt(state)), Increment(state))
    case CbcEncrypt => var b := c.encrypt(Xor(chunk, state)); (b, b)
    case CbcDecrypt => (Xor(c.decrypt(chunk), state), chunk)
  }

  function Transformed(c: Cipher, mode: Mode, state: Octets, s: Octets): (r: Octets)
    requires c.Lawful() && |state| == c.size && Fits(c, mode, s)
    ensures |r| == |s|
    decreases |s|
  {
    if s == [] then []
    else
      FitsRest(c, mode, s);
      var k := Min(c.size, |s|);
      var (chunk, next) := Chunk(c, mode, state, s[..k]);
      chunk + Transformed(c, mode, next, s[k..])
  }

  lemma {:induction false} FitsRest(c: Cipher, mode: Mode, s: Octets)
    requires s != [] && Fits(c, mode, s)
    ensures mode != Ctr ==> |s| >= c.size
    ensures Fits(c, mode, s[Min(c.size, |s|)..])
  {
    if mode != Ctr {
      if |s| < c.size {
        Small(|s|, c.size);
      } else {
        MinusOne(|s|, c.size);
      }
    }
  }

  /** CBC decryption undoes CBC encryption. */
  lemma {:induction false} CbcRoundTrip(c: Cipher, iv: Octets, s: Octets)
    requires c.Lawful() && |iv| == c.size && |s| % c.size == 0
    ensures Transformed(c, CbcDecrypt, iv, Transformed(c, CbcEncrypt, iv, s)) == s
    decreases |s|
  {
    if s != [] {
      FitsRest(c, CbcEncrypt, s);
      var n := c.size;
      var block := c.encrypt(Xor(s[..n], iv));
      var rest := Transformed(c, CbcEncrypt, block, s[n..]);
      assert Transformed(c, CbcEncrypt, iv, s) == block + rest;
      CutAtSeam(block, rest);
      CbcRoundTrip(c, block, s[n..]);
      XorTwice(s[..n], iv);
      Rejoin(s, n);
      FitsRest(c, CbcDecrypt, block + rest);
    }
  }

  /** CTR is its own inverse, for every length. */
  lemma {:induction false} CtrInvolution(c: Cipher, iv: Octets, s: Octets)
    requires c.Lawful() && |iv| == c.size
    ensures Transformed(c, Ctr, iv, Transformed(c, Ctr, iv, s)) == s
    decreases |s|
  {
    if s != [] {
      var k := Min(c.size, |s|);
      var chunk := Xor(s[..k], c.encrypt(iv));
      var rest := Transformed(c, Ctr, Increment(iv), s[k..]);
      assert Transformed(c, Ctr, iv, s) == chunk + rest;
      CutAtSeam(chunk, rest);
      CtrInvolution(c, Increment(iv), s[k..]);
      XorTwice(s[..k], c.encrypt(iv));
      Rejoin(s, k);
    }
  }

  lemma {:induction false} CtrStep(c: Cipher, iv: Octets, s: Octets)
    requires c.Lawful() && |iv| == c.size && s != []
    ensures var k := Min(c.size, |s|);
            Transformed(c, Ctr, iv, s) == Xor(s[..k], c.encrypt(iv)) + Transformed(c, Ctr, Increment(iv), s[k..])
  {
    hide Transformed, Xor, Increment;
    TransformedStep(c, Ctr, iv, s);
  }

  /** The CTR key stream: byte `i` comes from the encryption of the counter for block `i / size`. */
  function Stream(c: Cipher, iv: Octets, i: nat): bv8
    requires c.Lawful() && |iv| == c.size
  {
    c.encrypt(CounterAt(iv, i / c.size))[i % c.size]
  }

  lemma {:induction false} TransformedStep(c: Cipher, mode: Mode, state: Octets, s: Octets)
    requires c.Lawful() && |state| == c.size && Fits(c, mode, s) && s != []
    ensures var k := Min(c.size, |s|);
            && (mode == Ctr || k == c.size) && Fits(c, mode, s[k..])
            && Transformed(c, mode, state, s)
               == Chunk(c, mode, state, s[..k]).0 + Transformed(c, mode, Chunk(c, mode, state, s[..k]).1, s[k..])
  {
    FitsRest(c, mode, s);
  }

  lemma {:induction false} CtrIsStream(c: Cipher, iv: Octets, s: Octets, i: nat)
    requires c.Lawful() && |iv| == c.size && i < |s|
    ensures Transformed(c, Ctr, iv, s)[i] == s[i] ^ Stream(c, iv, i)
    decreases |s|
  {
    hide Transformed, Stream;
    var k := Min(c.size, |s|);
    CtrStep(c, iv, s);
    hide Fits, Cipher.Lawful;
    if i < k {
      StreamFirst(c, iv, i);
    } else {
      CtrIsStream(c, Increment(iv), s[k..], i - k);
      StreamNext(c, iv, i);
    }
  }

  lemma {:induction false} StreamFirst(c: Cipher, iv: Octets, i: nat)
    requires c.Lawful() && |iv| == c.size && i < c.size
    ensures Stream(c, iv, i) == c.encrypt(iv)[i]
  {
    Small(i, c.size);
  }

  lemma {:induction false} StreamNext(c: Cipher, iv: Octets, i: nat)
    requires c.Lawful() && |iv| == c.size <= i
    ensures Stream(c, iv, i) == Stream(c, Increment(iv), i - c.size)
  {
    MinusOne(i, c.size);
    CounterNext(iv, i / c.size);
  }

  lemma {:induction false} CounterNext(iv: Octets, blocks: nat)
    requires blocks > 0
    ensures CounterAt(iv, blocks) == CounterAt(Increment(iv), blocks - 1)
  {}

  /** The block that begins at `at`. */
  function Block(c: Cipher, s: Octets, at: nat): (b: Octets)
    requires at + c.size <= |s|
    ensures |b| == c.size
  {
    s[at..at + c.size]
  }

  /** What a block is chained to: the ciphertext block before it, and the first one to the initialization vector. */
  function Previous(c: Cipher, iv: Octets, secret: Octets, at: nat): (b: Octets)
    requires |iv| == c.size && at <= |secret|
    ensures |b| == c.size
  {
    if at < c.size then iv else Block(c, secret, at - c.size)
  }

  /** Section 6.2 of NIST SP 800-38A, for the block at `at`. */
  predicate Encrypts(c: Cipher, iv: Octets, plain: Octets, secret: Octets, at: nat)
    requires |iv| == c.size && |plain| == |secret| && at + c.size <= |plain|
  {
    Block(c, secret, at) == c.encrypt(Xor(Block(c, plain, at), Previous(c, iv, secret, at)))
  }

  predicate Decrypts(c: Cipher, iv: Octets, secret: Octets, plain: Octets, at: nat)
    requires c.Lawful() && |iv| == c.size && |plain| == |secret| && at + c.size <= |plain|
  {
    Block(c, plain, at) == Xor(c.decrypt(Block(c, secret, at)), Previous(c, iv, secret, at))
  }

  lemma {:induction false} BlockBehind(c: Cipher, head: Octets, rest: Octets, at: nat)
    requires |head| == c.size <= at && at <= |rest|
    ensures Block(c, head + rest, at) == Block(c, rest, at - c.size)
  {}

  lemma {:induction false} PreviousBehind(c: Cipher, iv: Octets, head: Octets, rest: Octets, b: nat, at: nat)
    requires |iv| == |head| == c.size && b > 0 && at == b * c.size && at <= c.size + |rest|
    ensures at >= c.size && at - c.size == (b - 1) * c.size
    ensures Previous(c, iv, head + rest, at) == Previous(c, head, rest, at - c.size)
  {
    Gap(b, b - 1, c.size);
    if b == 1 {
      assert (head + rest)[0..c.size] == head;
    } else {
      Gap(b - 1, b - 2, c.size);
    }
  }

  lemma {:induction false} BlockLater(c: Cipher, s: Octets, at: nat)
    requires c.size <= at && at + c.size <= |s|
    ensures Block(c, s, at) == Block(c, s[c.size..], at - c.size)
  {}

  lemma {:induction false} EncryptsFirst(c: Cipher, iv: Octets, s: Octets, head: Octets, rest: Octets)
    requires |iv| == |head| == c.size <= |s| && |head| + |rest| == |s| && c.size > 0
    requires head == c.encrypt(Xor(s[..c.size], iv))
    ensures Encrypts(c, iv, s, head + rest, 0)
  {
    hide Xor;
    assert s[0..c.size] == s[..c.size] && (head + rest)[0..c.size] == head;
  }

  lemma {:induction false} EncryptsLater(c: Cipher, iv: Octets, s: Octets, head: Octets, rest: Octets, b: nat, at: nat)
    requires |iv| == |head| == c.size && |head| + |rest| == |s| && b > 0
    requires at == b * c.size && c.size <= at && at + c.size <= |s|
    requires Encrypts(c, head, s[c.size..], rest, at - c.size)
    ensures Encrypts(c, iv, s, head + rest, at)
  {
    hide Xor, Block, Previous;
    PreviousBehind(c, iv, head, rest, b, at);
    BlockBehind(c, head, rest, at);
    BlockLater(c, s, at);
  }

  /** CBC encryption is what the standard says, block by block. */
  lemma {:induction false} CbcEncryptsBlocks(c: Cipher, iv: Octets, s: Octets, b: nat, at: nat)
    requires c.Lawful() && |iv| == c.size && Fits(c, CbcEncrypt, s) && at == b * c.size && at + c.size <= |s|
    ensures Encrypts(c, iv, s, Transformed(c, CbcEncrypt, iv, s), at)
    decreases b
  {
    hide Transformed, Fits, Encrypts;
    TransformedStep(c, CbcEncrypt, iv, s);
    var head := c.encrypt(Xor(s[..c.size], iv));
    var rest := Transformed(c, CbcEncrypt, head, s[c.size..]);
    hide Xor;
    if b == 0 {
      EncryptsFirst(c, iv, s, head, rest);
    } else {
      BackOne(b, c.size);
      CbcEncryptsBlocks(c, head, s[c.size..], b - 1, at - c.size);
      EncryptsLater(c, iv, s, head, rest, b, at);
    }
  }

  lemma {:induction false} BackOne(b: nat, size: nat)
    requires b > 0
    ensures b * size >= size && (b - 1) * size == b * size - size
  {}

  lemma {:induction false} DecryptsFirst(c: Cipher, iv: Octets, s: Octets, head: Octets, rest: Octets)
    requires c.Lawful() && |iv| == |head| == c.size <= |s| && |head| + |rest| == |s|
    requires head == Xor(c.decrypt(s[..c.size]), iv)
    ensures Decrypts(c, iv, s, head + rest, 0)
  {
    hide Xor;
    assert s[0..c.size] == s[..c.size] && (head + rest)[0..c.size] == head;
  }

  lemma {:induction false} DecryptsLater(c: Cipher, iv: Octets, s: Octets, head: Octets, rest: Octets, b: nat, at: nat)
    requires c.Lawful() && |iv| == |head| == c.size && |head| + |rest| == |s| && b > 0
    requires at == b * c.size && c.size <= at && at + c.size <= |s|
    requires Decrypts(c, s[..c.size], s[c.size..], rest, at - c.size)
    ensures Decrypts(c, iv, s, head + rest, at)
  {
    hide Xor, Block, Previous;
    Rejoin(s, c.size);
    PreviousBehind(c, iv, s[..c.size], s[c.size..], b, at);
    BlockBehind(c, head, rest, at);
    BlockLater(c, s, at);
  }

  /** So is CBC decryption. */
  lemma {:induction false} CbcDecryptsBlocks(c: Cipher, iv: Octets, s: Octets, b: nat, at: nat)
    requires c.Lawful() && |iv| == c.size && Fits(c, CbcDecrypt, s) && at == b * c.size && at + c.size <= |s|
    ensures Decrypts(c, iv, s, Transformed(c, CbcDecrypt, iv, s), at)
    decreases b
  {
    hide Transformed, Fits, Decrypts;
    TransformedStep(c, CbcDecrypt, iv, s);
    var head := Xor(c.decrypt(s[..c.size]), iv);
    var rest := Transformed(c, CbcDecrypt, s[..c.size], s[c.size..]);
    hide Xor;
    if b == 0 {
      DecryptsFirst(c, iv, s, head, rest);
    } else {
      BackOne(b, c.size);
      CbcDecryptsBlocks(c, s[..c.size], s[c.size..], b - 1, at - c.size);
      DecryptsLater(c, iv, s, head, rest, b, at);
    }
  }

  // ----- PKCS7 -----------------------------------------------------------------------------------

  datatype Result<T> = Ok(value: T) | Invalid | Cancelled

  function Repeat(b: bv8, n: nat): (r: Octets)
    ensures |r| == n
  {
    seq(n, _ => b)
  }

  function Pad(data: Octets, size: nat): Octets
    requires 1 <= size <= 255
  {
    var count := size - |data| % size;
    data + Repeat(count as bv8, count)
  }

  function Unpad(data: Octets, size: nat): Result<Octets>
    requires 1 <= size <= 255
  {
    if data == [] || |data| % size != 0 then Invalid
    else
      var count := data[|data| - 1] as nat;
      if count == 0 || count > size || count > |data|
         || exists i | |data| - count <= i < |data| :: data[i] as nat != count
      then Invalid
      else Ok(data[..|data| - count])
  }

  lemma {:induction false} PadAligns(data: Octets, size: nat)
    requires 1 <= size <= 255
    ensures |Pad(data, size)| % size == 0 && |data| < |Pad(data, size)| <= |data| + size
    ensures data <= Pad(data, size)
    ensures forall i | |data| <= i < |Pad(data, size)| :: Pad(data, size)[i] as nat == |Pad(data, size)| - |data|
  {
    RoundUp(|data|, size);
    ByteOf(size - |data| % size);
  }

  lemma {:induction false} UnpadPad(data: Octets, size: nat)
    requires 1 <= size <= 255
    ensures Unpad(Pad(data, size), size) == Ok(data)
  {
    PadAligns(data, size);
    var count := size - |data| % size;
    CutAtSeam(data, Repeat(count as bv8, count));
    ByteOf(count);
    UnpadOf(data, count as bv8, count, size);
  }

  lemma {:induction false} UnpadOf(data: Octets, b: bv8, count: nat, size: nat)
    requires 1 <= count <= size <= 255 && (|data| + count) % size == 0 && b as nat == count
    ensures Unpad(data + Repeat(b, count), size) == Ok(data)
  {
    var padded := data + Repeat(b, count);
    assert forall i | |data| <= i < |padded| :: padded[i] == b;
    CutAtSeam(data, Repeat(b, count));
  }

  lemma {:induction false} AllRepeat(tail: Octets, b: bv8, n: nat)
    requires n < 256 && b as nat == n && forall i | 0 <= i < |tail| :: tail[i] as nat == n
    ensures tail == Repeat(b, |tail|)
  {
    forall i | 0 <= i < |tail| ensures tail[i] == b {
      SameByte(tail[i], n);
      SameByte(b, n);
    }
  }

  lemma {:induction false} PadIs(plain: Octets, b: bv8, count: nat, size: nat)
    requires 1 <= size <= 255 && count == size - |plain| % size && b as nat == count
    ensures Pad(plain, size) == plain + Repeat(b, count)
  {
    SameByte(b, count);
  }

  lemma {:induction false} UnpadIsPadded(data: Octets, size: nat)
    requires 1 <= size <= 255 && Unpad(data, size).Ok?
    ensures Pad(Unpad(data, size).value, size) == data
  {
    var count := data[|data| - 1] as nat;
    var plain, tail := data[..|data| - count], data[|data| - count..];
    assert |data| % size == 0 && 1 <= count <= size && count <= |data|;
    assert forall i | |data| - count <= i < |data| :: data[i] as nat == count;
    assert Unpad(data, size) == Ok(plain);
    hide Unpad;
    RemainderOfRest(|data|, count, size);
    AllRepeat(tail, data[|data| - 1], count);
    PadIs(plain, data[|data| - 1], count, size);
    Rejoin(data, |data| - count);
  }

  /** Unpadding succeeds exactly on what padding gives. */
  lemma {:induction false} UnpadExactly(data: Octets, size: nat)
    requires 1 <= size <= 255
    ensures Unpad(data, size).Ok? <==> exists plain :: Pad(plain, size) == data
    ensures Unpad(data, size).Ok? ==> Pad(Unpad(data, size).value, size) == data
  {
    if Unpad(data, size).Ok? {
      UnpadIsPadded(data, size);
    }
    hide Unpad;
    forall plain | Pad(plain, size) == data ensures Unpad(data, size).Ok? {
      UnpadPad(plain, size);
    }
  }

  lemma {:induction false} RemainderOfRest(total: nat, count: nat, size: nat)
    requires 1 <= count <= size && count <= total && total % size == 0
    ensures size - (total - count) % size == count
  {
    var q := total / size;
    assert total == q * size;
    assert q > 0;
    assert (q - 1) * size == q * size - size;
    DivisionIs(total - count, q - 1, size - count, size);
  }

  /** Padding, CBC, and back (`block` in rust_backend/crates/extensions/src/crypto_host.rs). */
  lemma {:induction false} PaddedRoundTrip(c: Cipher, iv: Octets, data: Octets)
    requires c.Lawful() && |iv| == c.size
    ensures Fits(c, CbcEncrypt, Pad(data, c.size))
    ensures var secret := Transformed(c, CbcEncrypt, iv, Pad(data, c.size));
            Unpad(Transformed(c, CbcDecrypt, iv, secret), c.size) == Ok(data)
  {
    PadAligns(data, c.size);
    CbcRoundTrip(c, iv, Pad(data, c.size));
    UnpadPad(data, c.size);
    hide Pad, Unpad;
  }

  // ----- the program -----------------------------------------------------------------------------

  /** Overwrites `data[at..]` by `block`. */
  method Write(data: array<bv8>, at: nat, block: Octets)
    requires at + |block| <= data.Length
    modifies data
    ensures data[..] == old(data[..at]) + block + old(data[at + |block|..])
  {
    for i := 0 to |block|
      invariant forall j | 0 <= j < data.Length ::
                  data[j] == if at <= j < at + i then block[j - at] else old(data[j])
    {
      data[at + i] := block[i];
    }
  }

  /** `for (byte, mask) in chunk.iter_mut().zip(mask)`. */
  method XorInto(data: array<bv8>, at: nat, k: nat, mask: Octets)
    requires at + k <= data.Length && k <= |mask|
    modifies data
    ensures data[..] == old(data[..at]) + Xor(old(data[at..at + k]), mask) + old(data[at + k..])
  {
    for i := 0 to k
      invariant forall j | 0 <= j < data.Length ::
                  data[j] == if at <= j < at + i then old(data[j]) ^ mask[j - at] else old(data[j])
    {
      data[at + i] := data[at + i] ^ mask[i];
    }
    ghost var done := Xor(old(data[at..at + k]), mask);
    assert forall i | 0 <= i < k :: data[at + i] == done[i];
    assert data[..at] == old(data[..at]) && data[at..at + k] == done && data[at + k..] == old(data[at + k..]);
    SplitThree(data[..], at, at + k);
  }

  /** The counter loop: from the last byte, until one does not wrap. */
  method IncrementInPlace(state: array<bv8>)
    modifies state
    ensures state[..] == Increment(old(state[..]))
  {
    var i := state.Length;
    ghost var before, tail := state[..], [];
    assert before[..i] == before;
    var carry := true;
    hide Increment;
    while i > 0 && carry
      invariant 0 <= i <= state.Length && |tail| == state.Length - i
      invariant carry ==> state[..] == before[..i] + tail && Increment(before) == Increment(before[..i]) + tail
      invariant !carry ==> state[..] == Increment(before)
    {
      i := i - 1;
      IncrementSplit(before, i, tail);
      state[i] := state[i] + 1;
      tail := [before[i] + 1] + tail;
      assert state[..] == before[..i] + tail;
      if state[i] != 0 {
        carry := false;
      }
    }
    IncrementNothing(before);
  }

  lemma {:induction false} IncrementSplit(b: Octets, i: nat, tail: Octets)
    requires i < |b| && |tail| == |b| - i - 1
    ensures (b[..i + 1] + tail)[i] == b[i]
    ensures (b[..i + 1] + tail)[i := b[i] + 1] == b[..i] + ([b[i] + 1] + tail)
    ensures Increment(b[..i + 1]) + tail == (if b[i] + 1 == 0 then Increment(b[..i]) else b[..i]) + ([b[i] + 1] + tail)
  {
    NextByte(b[i]);
    assert b[..i + 1][..i] == b[..i];
    Assoc(Increment(b[..i]), [0], tail);
    Assoc(b[..i], [b[i] + 1], tail);
  }

  lemma {:induction false} IncrementNothing(b: Octets)
    ensures b[..0] == [] && Increment(b[..0]) == []
  {}

  /** One chunk of the in-place loop, in each mode. */
  method TransformChunk(c: Cipher, data: array<bv8>, at: nat, k: nat, state: array<bv8>, mode: Mode)
    requires c.Lawful() && state.Length == c.size && state != data
    requires at + k <= data.Length && k <= c.size && (mode == Ctr || k == c.size)
    modifies data, state
    ensures var now := old(data[..]);
            var r := Chunk(c, mode, old(state[..]), now[at..at + k]);
            data[..] == now[..at] + r.0 + now[at + k..] && state[..] == r.1
  {
    hide Chunk;
    ghost var now := data[..];
    assert now[..at] == data[..at] && now[at..at + k] == data[at..at + k] && now[at + k..] == data[at + k..];
    match mode {
      case Ctr => ChunkCtr(c, data, at, k, state);
      case CbcDecrypt => ChunkCbcDecrypt(c, data, at, state);
      case CbcEncrypt => ChunkCbcEncrypt(c, data, at, state);
    }
  }

  method ChunkCtr(c: Cipher, data: array<bv8>, at: nat, k: nat, state: array<bv8>)
    requires c.Lawful() && state.Length == c.size && state != data && at + k <= data.Length && k <= c.size
    modifies data, state
    ensures var r := Chunk(c, Ctr, old(state[..]), old(data[at..at + k]));
            data[..] == old(data[..at]) + r.0 + old(data[at + k..]) && state[..] == r.1
  {
    hide Xor, Increment;
    XorInto(data, at, k, c.encrypt(state[..]));
    IncrementInPlace(state);
  }

  method ChunkCbcDecrypt(c: Cipher, data: array<bv8>, at: nat, state: array<bv8>)
    requires c.Lawful() && state.Length == c.size && state != data && at + c.size <= data.Length
    modifies data, state
    ensures var r := Chunk(c, CbcDecrypt, old(state[..]), old(data[at..at + c.size]));
            data[..] == old(data[..at]) + r.0 + old(data[at + c.size..]) && state[..] == r.1
  {
    hide Xor;
    var encrypted := data[at..at + c.size];
    Write(data, at, Xor(c.decrypt(encrypted), state[..]));
    WriteAll(state, encrypted);
  }

  method ChunkCbcEncrypt(c: Cipher, data: array<bv8>, at: nat, state: array<bv8>)
    requires c.Lawful() && state.Length == c.size && state != data && at + c.size <= data.Length
    modifies data, state
    ensures var r := Chunk(c, CbcEncrypt, old(state[..]), old(data[at..at + c.size]));
            data[..] == old(data[..at]) + r.0 + old(data[at + c.size..]) && state[..] == r.1
  {
    hide Xor, Chunk;
    var block := MixAndEncrypt(c, data, at, state);
    WriteAll(state, block);
    ChunkEncryptIs(c, old(state[..]), old(data[at..at + c.size]));
  }

  lemma {:induction false} ChunkEncryptIs(c: Cipher, state: Octets, chunk: Octets)
    requires c.Lawful() && |state| == |chunk| == c.size
    ensures var b := c.encrypt(Xor(chunk, state)); Chunk(c, CbcEncrypt, state, chunk) == (b, b)
  {}

  method MixAndEncrypt(c: Cipher, data: array<bv8>, at: nat, state: array<bv8>) returns (block: Octets)
    requires c.Lawful() && state.Length == c.size && state != data && at + c.size <= data.Length
    modifies data
    ensures block == c.encrypt(Xor(old(data[at..at + c.size]), state[..])) && |block| == c.size
    ensures data[..] == old(data[..at]) + block + old(data[at + c.size..])
  {
    hide Xor;
    ghost var left, right := data[..at], data[at + c.size..];
    ghost var mixed := Xor(data[at..at + c.size], state[..]);
    XorInto(data, at, c.size, state[..]);
    ghost var mid := data[..];
    assert data[..at] == mid[..at] && data[at..at + c.size] == mid[at..at + c.size];
    assert data[at + c.size..] == mid[at + c.size..];
    assert mid[..at] == left && mid[at..at + c.size] == mixed && mid[at + c.size..] == right by {
      CutThree(left, mixed, right);
    }
    block := c.encrypt(data[at..at + c.size]);
    Write(data, at, block);
  }

  method WriteAll(data: array<bv8>, block: Octets)
    requires |block| == data.Length
    modifies data
    ensures data[..] == block
  {
    Write(data, 0, block);
    assert data[..] == block;
  }

  /** `whole[lo..hi]` is being transformed into `now`, and `done` is finished, up to `at`. */
  ghost predicate Progress(c: Cipher, m: Mode, iv: Octets, whole: Octets, lo: nat, at: nat, hi: nat,
                           now: Octets, done: Octets, state: Octets)
  {
    && c.Lawful() && |iv| == |state| == c.size && lo <= at <= hi <= |whole|
    && Fits(c, m, whole[lo..hi]) && Fits(c, m, whole[at..hi])
    && |done| == at - lo && now == whole[..lo] + done + whole[at..]
    && done + Transformed(c, m, state, whole[at..hi]) == Transformed(c, m, iv, whole[lo..hi])
  }

  lemma {:induction false} ProgressFrom(c: Cipher, m: Mode, iv: Octets, whole: Octets, lo: nat, hi: nat)
    requires c.Lawful() && |iv| == c.size && lo <= hi <= |whole| && Fits(c, m, whole[lo..hi])
    ensures Progress(c, m, iv, whole, lo, lo, hi, whole, [], iv)
  {
    Rejoin(whole, lo);
    assert whole[..lo] + [] == whole[..lo];
    assert [] + Transformed(c, m, iv, whole[lo..hi]) == Transformed(c, m, iv, whole[lo..hi]);
  }

  lemma {:induction false} ProgressOutside(c: Cipher, m: Mode, iv: Octets, whole: Octets, lo: nat, at: nat, hi: nat,
                                           now: Octets, done: Octets, state: Octets)
    requires Progress(c, m, iv, whole, lo, at, hi, now, done, state)
    ensures |now| == |whole| && now[..lo] == whole[..lo] && now[hi..] == whole[hi..]
  {
    hide Transformed;
  }

  lemma {:induction false} ProgressTo(c: Cipher, m: Mode, iv: Octets, whole: Octets, lo: nat, hi: nat,
                                      now: Octets, done: Octets, state: Octets)
    requires Progress(c, m, iv, whole, lo, hi, hi, now, done, state)
    ensures now == whole[..lo] + Transformed(c, m, iv, whole[lo..hi]) + whole[hi..]
  {
    assert whole[hi..hi] == [];
    assert done + [] == done;
  }

  lemma {:induction false} ProgressParts(c: Cipher, m: Mode, iv: Octets, whole: Octets, lo: nat, at: nat, hi: nat,
                                         now: Octets, done: Octets, state: Octets)
    requires Progress(c, m, iv, whole, lo, at, hi, now, done, state)
    ensures c.Lawful() && |iv| == |state| == c.size && lo <= at <= hi <= |whole|
    ensures Fits(c, m, whole[lo..hi]) && Fits(c, m, whole[at..hi])
    ensures |done| == at - lo && now == whole[..lo] + done + whole[at..]
    ensures done + Transformed(c, m, state, whole[at..hi]) == Transformed(c, m, iv, whole[lo..hi])
  {
    hide Transformed, Fits;
  }

  lemma {:induction false} ProgressOf(c: Cipher, m: Mode, iv: Octets, whole: Octets, lo: nat, at: nat, hi: nat,
                                      now: Octets, done: Octets, state: Octets)
    requires c.Lawful() && |iv| == |state| == c.size && lo <= at <= hi <= |whole|
    requires Fits(c, m, whole[lo..hi]) && Fits(c, m, whole[at..hi])
    requires |done| == at - lo && now == whole[..lo] + done + whole[at..]
    requires done + Transformed(c, m, state, whole[at..hi]) == Transformed(c, m, iv, whole[lo..hi])
    ensures Progress(c, m, iv, whole, lo, at, hi, now, done, state)
  {
    hide Transformed, Fits;
  }

  lemma {:induction false} NowNext(whole: Octets, now: Octets, done: Octets, lo: nat, at: nat, k: nat, r: Octets)
    requires lo <= at && at + k <= |whole| && |done| == at - lo && now == whole[..lo] + done + whole[at..] && |r| == k
    ensures |now| == |whole| && now[at..at + k] == whole[at..at + k]
    ensures now[..at] + r + now[at + k..] == whole[..lo] + (done + r) + whole[at + k..]
  {
    Middle(now, whole, done, lo, at, k);
    Assoc(whole[..lo], done, r);
  }

  lemma {:induction false} DoneNext(done: Octets, r: Octets, rest: Octets, left: Octets, all: Octets)
    requires left == r + rest && done + left == all
    ensures done + r + rest == all
  {
    Assoc(done, r, rest);
  }

  lemma {:induction false} ChunkStep(c: Cipher, m: Mode, whole: Octets, at: nat, hi: nat, state: Octets, k: nat)
    requires c.Lawful() && |state| == c.size && at < hi <= |whole| && Fits(c, m, whole[at..hi])
    requires k == Min(c.size, hi - at)
    ensures (m == Ctr || k == c.size) && Fits(c, m, whole[at + k..hi])
    ensures var r := Chunk(c, m, state, whole[at..at + k]);
            Transformed(c, m, state, whole[at..hi]) == r.0 + Transformed(c, m, r.1, whole[at + k..hi])
  {
    hide Transformed, Chunk, Fits;
    TransformedStep(c, m, state, whole[at..hi]);
    SliceSlice(whole, at, at + k, hi);
  }

  lemma {:induction false} ProgressNext(c: Cipher, m: Mode, iv: Octets, whole: Octets, lo: nat, at: nat, hi: nat,
                                        now: Octets, done: Octets, state: Octets, k: nat, piece: Octets, next: Octets)
    requires Progress(c, m, iv, whole, lo, at, hi, now, done, state) && at + k <= hi
    requires |piece| == k && |next| == c.size && Fits(c, m, whole[at + k..hi])
    requires Transformed(c, m, state, whole[at..hi]) == piece + Transformed(c, m, next, whole[at + k..hi])
    ensures Progress(c, m, iv, whole, lo, at + k, hi, now[..at] + piece + now[at + k..], done + piece, next)
  {
    ProgressParts(c, m, iv, whole, lo, at, hi, now, done, state);
    hide Transformed, Fits, Progress;
    NowNext(whole, now, done, lo, at, k, piece);
    DoneNext(done, piece, Transformed(c, m, next, whole[at + k..hi]), Transformed(c, m, state, whole[at..hi]),
             Transformed(c, m, iv, whole[lo..hi]));
    ProgressOf(c, m, iv, whole, lo, at + k, hi, now[..at] + piece + now[at + k..], done + piece, next);
  }

  lemma {:induction false} ProgressBy(c: Cipher, m: Mode, iv: Octets, whole: Octets, lo: nat, at: nat, hi: nat,
                                      now: Octets, done: Octets, state: Octets, k: nat)
    requires Progress(c, m, iv, whole, lo, at, hi, now, done, state) && at < hi && k == Min(c.size, hi - at)
    ensures |now| == |whole| && (m == Ctr || k == c.size)
    ensures var r := Chunk(c, m, state, now[at..at + k]);
            Progress(c, m, iv, whole, lo, at + k, hi, now[..at] + r.0 + now[at + k..], done + r.0, r.1)
  {
    hide Transformed, Chunk, Fits, Progress;
    ProgressParts(c, m, iv, whole, lo, at, hi, now, done, state);
    ChunkStep(c, m, whole, at, hi, state, k);
    var r := Chunk(c, m, state, whole[at..at + k]);
    assert |now| == |whole| && now[at..at + k] == whole[at..at + k] by {
      NowNext(whole, now, done, lo, at, k, r.0);
    }
    ProgressNext(c, m, iv, whole, lo, at, hi, now, done, state, k, r.0, r.1);
  }

  method Copy(s: Octets) returns (a: array<bv8>)
    ensures fresh(a) && a[..] == s
  {
    a := new bv8[|s|](i requires 0 <= i < |s| => s[i]);
  }

  /** One pass of the loop over the chunks, `k` bytes of it. */
  method NextChunk(c: Cipher, m: Mode, data: array<bv8>, lo: nat, at: nat, hi: nat, ghost iv: Octets, state: array<bv8>,
                   ghost whole: Octets, ghost done: Octets)
    returns (k: nat, ghost done': Octets)
    requires c.Lawful() && state.Length == c.size && state != data && lo <= at < hi <= data.Length
    requires Progress(c, m, iv, whole, lo, at, hi, data[..], done, state[..])
    modifies data, state
    ensures 0 < k <= hi - at && Progress(c, m, iv, whole, lo, at + k, hi, data[..], done', state[..])
  {
    hide Transformed, Chunk, Fits, Progress;
    k := Min(c.size, hi - at);
    ghost var now := data[..];
    ProgressBy(c, m, iv, whole, lo, at, hi, now, done, state[..], k);
    done' := done + Chunk(c, m, state[..], now[at..at + k]).0;
    TransformChunk(c, data, at, k, state, m);
  }

  /** The generic `transform` on `data[lo..hi]`; if cancelled, it leaves the bytes outside alone. */
  method TransformSlice(c: Cipher, m: Mode, data: array<bv8>, lo: nat, hi: nat, iv: Octets, check: nat -> bool,
                        before: nat)
    returns (ok: bool, calls: nat)
    requires c.Lawful() && |iv| == c.size && lo <= hi <= data.Length && Fits(c, m, data[lo..hi])
    requires Passed(check, before)
    modifies data
    ensures before <= calls
    ensures ok ==> Passed(check, calls)
    ensures ok ==> data[..] == old(data[..lo]) + Transformed(c, m, iv, old(data[lo..hi])) + old(data[hi..])
    ensures !ok ==> FailedAt(check, calls) && data[..lo] == old(data[..lo]) && data[hi..] == old(data[hi..])
  {
    hide Transformed, Chunk, Fits, Progress, Passed, FailedAt;
    calls := before;
    var state := Copy(iv);
    var at, index := lo, 0;
    ghost var whole, done := data[..], [];
    ProgressFrom(c, m, iv, whole, lo, hi);
    while at < hi
      invariant lo <= at <= hi && before <= calls && Passed(check, calls)
      invariant Progress(c, m, iv, whole, lo, at, hi, data[..], done, state[..])
    {
      if index % 1024 == 0 {
        ok, calls := Check(check, calls);
        if !ok {
          ProgressOutside(c, m, iv, whole, lo, at, hi, data[..], done, state[..]);
          return;
        }
      }
      var k;
      k, done := NextChunk(c, m, data, lo, at, hi, iv, state, whole, done);
      at, index := at + k, index + 1;
    }
    ProgressTo(c, m, iv, whole, lo, hi, data[..], done, state[..]);
    ok, calls := Check(check, calls);
    ProgressOutside(c, m, iv, whole, lo, hi, hi, data[..], done, state[..]);
  }

  /** `BlockCipher::transform`. Refusals come first and change nothing. */
  method Transform(c: Cipher, data: array<bv8>, lo: nat, hi: nat, iv: Octets, mode: string, decrypt: bool,
                   check: nat -> bool, before: nat)
    returns (r: Result<()>, calls: nat)
    requires c.Lawful() && lo <= hi <= data.Length && Passed(check, before)
    modifies data
    ensures before <= calls
    ensures r.Invalid? <==>
              |iv| != c.size || (mode != "cbc" && mode != "ctr") || (mode == "cbc" && (hi - lo) % c.size != 0)
    ensures r.Invalid? ==> data[..] == old(data[..]) && calls == before
    ensures r.Ok? ==> Passed(check, calls)
    ensures r.Ok? && mode == "ctr" ==>
              data[..] == old(data[..lo]) + Transformed(c, Ctr, iv, old(data[lo..hi])) + old(data[hi..])
    ensures r.Ok? && mode == "cbc" && !decrypt ==>
              data[..] == old(data[..lo]) + Transformed(c, CbcEncrypt, iv, old(data[lo..hi])) + old(data[hi..])
    ensures r.Ok? && mode == "cbc" && decrypt ==>
              data[..] == old(data[..lo]) + Transformed(c, CbcDecrypt, iv, old(data[lo..hi])) + old(data[hi..])
    ensures r.Cancelled? ==> FailedAt(check, calls) && data[..lo] == old(data[..lo]) && data[hi..] == old(data[hi..])
  {
    if |iv| != c.size || (mode != "cbc" && mode != "ctr") || (mode == "cbc" && (hi - lo) % c.size != 0) {
      return Invalid, before;
    }
    var ok;
    ok, calls := TransformSlice(c, ModeOf(mode, decrypt), data, lo, hi, iv, check, before);
    r := if ok then Ok(()) else Cancelled;
  }

  lemma {:induction false} SliceSlice(whole: Octets, at: nat, mid: nat, hi: nat)
    requires at <= mid <= hi <= |whole|
    ensures whole[at..hi][..mid - at] == whole[at..mid] && whole[at..hi][mid - at..] == whole[mid..hi]
  {}

  function ModeOf(mode: string, decrypt: bool): Mode {
    if mode == "ctr" then Ctr else if decrypt then CbcDecrypt else CbcEncrypt
  }

  lemma {:induction false} Middle(s: Octets, whole: Octets, done: Octets, lo: nat, at: nat, k: nat)
    requires lo <= at && at + k <= |whole| && |done| == at - lo && s == whole[..lo] + done + whole[at..]
    ensures s[..at] == whole[..lo] + done && s[at..at + k] == whole[at..at + k] && s[at + k..] == whole[at + k..]
  {
    CutAtSeam(whole[..lo] + done, whole[at..]);
    DropDrop(whole, at, k);
    DropDrop(s, at, k);
    SliceIsTake(whole, at, at + k);
    SliceIsTake(s, at, at + k);
  }
}
