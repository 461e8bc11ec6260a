/** The content generator of the guest payload: FNV-1a seeds and splitmix64 words.

    A word is a natural number below 2^64 and every operation that wraps in the payload takes the
    remainder here. Each step of the mixer has an inverse: an odd factor has a multiplicative inverse
    modulo 2^64, and a xor with a right shift of itself is undone from the high bits down. So the mixer
    is a bijection, and words, workers and rounds that should differ do. */
module Pattern {
  import opened Bits
  import opened Bytes

  const WORD: nat := 0x1_0000_0000_0000_0000
  const GOLDEN: nat := 0x9e3779b97f4a7c15
  const ROUND_KEY: nat := 0xd1b54a32d192ed03
  const MIX_1: nat := 0xbf58476d1ce4e5b9
  const MIX_2: nat := 0x94d049bb133111eb

  type U64 = x: nat | x < 0x1_0000_0000_0000_0000

  function WrappingAdd(a: nat, b: nat): U64 { (a + b) % WORD }

  function WrappingMul(a: nat, b: nat): U64 { (a * b) % WORD }

  lemma WordIsPow2()
    ensures Pow2(64) == WORD
  {
    assert Pow2(8) == 256;
    Pow2Sum(8, 8);
    Pow2Sum(16, 16);
    Pow2Sum(32, 32);
  }

  function XorU64(a: U64, b: U64): U64 {
    WordIsPow2();
    XorBound(a, b, 64);
    Xor(a, b)
  }

  function XorShiftU64(x: U64, s: nat): U64 {
    WordIsPow2();
    XorShiftBound(x, s, 64);
    XorShift(x, s)
  }

  // ----- the mix is a bijection ------------------------------------------------------------------

  function Mix(word: U64): U64 {
    var a := WrappingMul(XorShiftU64(word, 30), MIX_1);
    var b := WrappingMul(XorShiftU64(a, 27), MIX_2);
    XorShiftU64(b, 31)
  }

  function UnXorShiftU64(y: U64, s: nat): U64
    requires 0 < s
  {
    WordIsPow2();
    UnXorShiftBound(y, s, 64);
    UnXorShift(y, s)
  }

  const UNMIX_1: nat := 0x96de1b173f119089
  const UNMIX_2: nat := 0x319642b2d24d8ec3
  const UNGOLDEN: nat := 0xf1de83e19937733d
  const UNROUND_KEY: nat := 0x6106ccfa448e5ab

  function UnMix(word: U64): U64 {
    var b := UnXorShiftU64(word, 31);
    var a := UnXorShiftU64(WrappingMul(b, UNMIX_2), 27);
    UnXorShiftU64(WrappingMul(a, UNMIX_1), 30)
  }

  /** Multiplication modulo 2^64 by a constant with an inverse can be undone. */
  lemma MulInverse(x: U64, c: nat, d: nat)
    requires (c * d) % WORD == 1
    ensures WrappingMul(WrappingMul(x, c), d) == x
  {
    var r, p, q := WrappingMul(x, c), (x * c) / WORD, (c * d) / WORD;
    assert x * c == WORD * p + r;
    assert c * d == WORD * q + 1;
    assert r * d == WORD * (x * q - p * d) + x by {
      assert r * d == (x * c - WORD * p) * d == x * c * d - WORD * p * d;
      assert x * c * d == x * (c * d) == x * (WORD * q + 1) == WORD * (x * q) + x;
      assert WORD * p * d == WORD * (p * d);
      assert WORD * (x * q) - WORD * (p * d) == WORD * (x * q - p * d);
    }
    DivModUnique(r * d, WORD, x * q - p * d, x);
  }

  lemma Inverses()
    ensures (MIX_1 * UNMIX_1) % WORD == 1 && (UNMIX_1 * MIX_1) % WORD == 1
    ensures (MIX_2 * UNMIX_2) % WORD == 1 && (UNMIX_2 * MIX_2) % WORD == 1
    ensures (GOLDEN * UNGOLDEN) % WORD == 1 && (ROUND_KEY * UNROUND_KEY) % WORD == 1
  {}

  lemma UnMixMix(word: U64)
    ensures UnMix(Mix(word)) == word
  {
    var x1 := XorShiftU64(word, 30);
    var a := WrappingMul(x1, MIX_1);
    var x2 := XorShiftU64(a, 27);
    var b := WrappingMul(x2, MIX_2);
    Inverses();
    UnXorShiftLeft(b, 31);
    MulInverse(x2, MIX_2, UNMIX_2);
    UnXorShiftLeft(a, 27);
    MulInverse(x1, MIX_1, UNMIX_1);
    UnXorShiftLeft(word, 30);
  }

  lemma MixUnMix(word: U64)
    ensures Mix(UnMix(word)) == word
  {
    var b := UnXorShiftU64(word, 31);
    var x2 := WrappingMul(b, UNMIX_2);
    var a := UnXorShiftU64(x2, 27);
    var x1 := WrappingMul(a, UNMIX_1);
    Inverses();
    UnXorShiftRight(x1, 30);
    MulInverse(a, UNMIX_1, MIX_1);
    UnXorShiftRight(x2, 27);
    MulInverse(b, UNMIX_2, MIX_2);
    UnXorShiftRight(word, 31);
  }

  // ----- words, bytes and files --------------------------------------------------------------------

  /** The documented random access: word `k` of the stream. */
  function Word(seed: U64, k: nat): U64 {
    Mix(Counter(seed, k))
  }

  function Counter(seed: U64, k: nat): U64 {
    WrappingAdd(seed, WrappingMul(k % WORD, GOLDEN))
  }

  /** Byte `i` of `word.to_le_bytes()`. */
  function LeByte(word: nat, i: nat): Byte
    decreases i
  {
    if i == 0 then word % 256 else LeByte(word / 256, i - 1)
  }

  /** The documented formula for the byte at offset `x`. */
  function ByteAt(seed: U64, x: nat): Byte {
    LeByte(Word(seed, x / 8), x % 8)
  }

  /** The bytes of a whole word determine it. */
  lemma {:induction false} LeBytesDetermine(a: nat, b: nat, n: nat)
    requires forall i :: 0 <= i < n ==> LeByte(a, i) == LeByte(b, i)
    requires a < Pow2(8 * n) && b < Pow2(8 * n)
    ensures a == b
  {
    if n > 0 {
      assert LeByte(a, 0) == LeByte(b, 0);
      forall i | 0 <= i < n - 1 ensures LeByte(a / 256, i) == LeByte(b / 256, i) {
        assert LeByte(a, i + 1) == LeByte(b, i + 1);
      }
      Pow2Sum(8, 8 * (n - 1));
      assert Pow2(8) == 256;
      LeBytesDetermine(a / 256, b / 256, n - 1);
    }
  }

  /** `pattern`: fills the buffer eight bytes at a time, the last chunk possibly shorter. */
  method FillPattern(seed: U64, length: nat) returns (bytes: array<Byte>)
    ensures fresh(bytes) && bytes.Length == length
    ensures forall x :: 0 <= x < length ==> bytes[x] == ByteAt(seed, x)
  {
    bytes := new Byte[length](_ => 0);
    var index := 0;
    while 8 * index < length
      invariant fresh(bytes) && bytes.Length == length
      invariant forall x :: 0 <= x < 8 * index && x < length ==> bytes[x] == ByteAt(seed, x)
      decreases length - 8 * index
    {
      var start := 8 * index;
      var count := if start + 8 <= length then 8 else length - start;
      var word := WrappingAdd(seed, WrappingMul(index % WORD, GOLDEN));
      word := Mix(word);
      for i := 0 to count
        invariant forall x :: 0 <= x < start + i ==> bytes[x] == ByteAt(seed, x)
      {
        assert (start + i) / 8 == index && (start + i) % 8 == i;
        bytes[start + i] := LeByte(word, i);
      }
      index := index + 1;
    }
  }

  /** The content of a file of `length` bytes. */
  function Content(seed: U64, length: nat): (r: seq<Byte>)
    ensures |r| == length
  {
    seq(length, x requires 0 <= x => ByteAt(seed, x))
  }

  /** Two full words are equal as bytes only if they are equal. */
  lemma SliceDeterminesWord(s: U64, s': U64, k: nat, k': nat, data: seq<Byte>, data': seq<Byte>)
    requires data == Content(s, |data|) && data' == Content(s', |data'|)
    requires 8 * k + 8 <= |data| && 8 * k' + 8 <= |data'|
    requires data[8 * k..8 * k + 8] == data'[8 * k'..8 * k' + 8]
    ensures Word(s, k) == Word(s', k')
  {
    forall i | 0 <= i < 8 ensures LeByte(Word(s, k), i) == LeByte(Word(s', k'), i) {
      WordBytes(s, k, i, data);
      WordBytes(s', k', i, data');
      assert data[8 * k..8 * k + 8][i] == data'[8 * k'..8 * k' + 8][i];
    }
    WordIsPow2();
    LeBytesDetermine(Word(s, k), Word(s', k'), 8);
  }

  lemma WordBytes(seed: U64, k: nat, i: nat, data: seq<Byte>)
    requires data == Content(seed, |data|) && i < 8 && 8 * k + 8 <= |data|
    ensures data[8 * k + i] == LeByte(Word(seed, k), i)
  {
    assert (8 * k + i) / 8 == k && (8 * k + i) % 8 == i;
    assert data[8 * k + i] == ByteAt(seed, 8 * k + i);
  }

  lemma MixInjective(a: U64, b: U64)
    requires Mix(a) == Mix(b)
    ensures a == b
  {
    UnMixMix(a);
    UnMixMix(b);
  }

  lemma AddInjective(s: U64, a: U64, b: U64)
    requires WrappingAdd(s, a) == WrappingAdd(s, b)
    ensures a == b
  {}

  lemma MulInjective(a: U64, b: U64, c: nat, d: nat)
    requires (c * d) % WORD == 1 && WrappingMul(a, c) == WrappingMul(b, c)
    ensures a == b
  {
    MulInverse(a, c, d);
    MulInverse(b, c, d);
  }

  /** Over one period the words of a stream are pairwise distinct. */
  lemma WordInjective(seed: U64, k: nat, k': nat)
    requires k < WORD && k' < WORD && Word(seed, k) == Word(seed, k')
    ensures k == k'
  {
    MixInjective(Counter(seed, k), Counter(seed, k'));
    CounterInjective(seed, k, k');
  }

  lemma CounterInjective(seed: U64, k: U64, k': U64)
    requires Counter(seed, k) == Counter(seed, k')
    ensures k == k'
  {
    CounterOfWord(seed, k);
    CounterOfWord(seed, k');
    AddInjective(seed, WrappingMul(k, GOLDEN), WrappingMul(k', GOLDEN));
    GoldenInjective(k, k');
  }

  lemma CounterOfWord(seed: U64, k: U64)
    ensures Counter(seed, k) == WrappingAdd(seed, WrappingMul(k, GOLDEN))
  {
    assert k % WORD == k;
  }

  lemma GoldenInjective(a: U64, b: U64)
    requires WrappingMul(a, GOLDEN) == WrappingMul(b, GOLDEN)
    ensures a == b
  {
    Inverses();
    MulInjective(a, b, GOLDEN, UNGOLDEN);
  }

  /** Within one file, full 8-byte words are pairwise distinct. */
  lemma WordsDistinct(seed: U64, k: nat, k': nat, data: seq<Byte>)
    requires data == Content(seed, |data|) && |data| <= WORD
    requires k != k' && 8 * k + 8 <= |data| && 8 * k' + 8 <= |data|
    ensures data[8 * k..8 * k + 8] != data[8 * k'..8 * k' + 8]
  {
    if data[8 * k..8 * k + 8] == data[8 * k'..8 * k' + 8] {
      SliceDeterminesWord(seed, seed, k, k', data, data);
      WordInjective(seed, k, k');
    }
  }

  // ----- seeds -------------------------------------------------------------------------------------

  const FNV_BASIS: U64 := 0xcbf29ce484222325
  const FNV_PRIME: nat := 0x100000001b3

  function Fnv(bytes: seq<Byte>): U64 {
    if bytes == [] then FNV_BASIS
    else WrappingMul(XorU64(Fnv(bytes[..|bytes| - 1]), bytes[|bytes| - 1]), FNV_PRIME)
  }

  function Seed(id: seq<Byte>, worker: nat, round: nat): U64 {
    XorU64(XorU64(Fnv(id), WrappingMul(worker + 1, GOLDEN)), WrappingMul(round, ROUND_KEY))
  }

  /** Equal words at the same offset mean equal seeds. */
  lemma SameWordSameSeed(s: U64, s': U64, k: nat, data: seq<Byte>, data': seq<Byte>)
    requires data == Content(s, |data|) && data' == Content(s', |data'|)
    requires 8 * k + 8 <= |data| && 8 * k + 8 <= |data'|
    requires data[8 * k..8 * k + 8] == data'[8 * k..8 * k + 8]
    ensures s == s'
  {
    SliceDeterminesWord(s, s', k, k, data, data');
    MixInjective(Counter(s, k), Counter(s', k));
    AddInjective(WrappingMul(k % WORD, GOLDEN), s, s');
  }

  /** Two workers of a cell in the same round differ at every full-word offset. */
  lemma WorkersDiffer(id: seq<Byte>, w: nat, w': nat, round: nat, k: nat, data: seq<Byte>, data': seq<Byte>)
    requires w != w' && w + 1 < WORD && w' + 1 < WORD
    requires data == Content(Seed(id, w, round), |data|) && data' == Content(Seed(id, w', round), |data'|)
    requires 8 * k + 8 <= |data| && 8 * k + 8 <= |data'|
    ensures data[8 * k..8 * k + 8] != data'[8 * k..8 * k + 8]
  {
    if data[8 * k..8 * k + 8] == data'[8 * k..8 * k + 8] {
      SameWordSameSeed(Seed(id, w, round), Seed(id, w', round), k, data, data');
      var h, r := Fnv(id), WrappingMul(round, ROUND_KEY);
      var a, b := WrappingMul(w + 1, GOLDEN), WrappingMul(w' + 1, GOLDEN);
      XorCommutes(Xor(h, a), r);
      XorCommutes(Xor(h, b), r);
      XorCancel(r, Xor(h, a), Xor(h, b));
      XorCancel(h, a, b);
      GoldenInjective(w + 1, w' + 1);
    }
  }

  /** Two rounds of one worker differ at every full-word offset. */
  lemma RoundsDiffer(id: seq<Byte>, w: nat, round: nat, round': nat, k: nat, data: seq<Byte>, data': seq<Byte>)
    requires round != round' && round < WORD && round' < WORD
    requires data == Content(Seed(id, w, round), |data|) && data' == Content(Seed(id, w, round'), |data'|)
    requires 8 * k + 8 <= |data| && 8 * k + 8 <= |data'|
    ensures data[8 * k..8 * k + 8] != data'[8 * k..8 * k + 8]
  {
    if data[8 * k..8 * k + 8] == data'[8 * k..8 * k + 8] {
      SameWordSameSeed(Seed(id, w, round), Seed(id, w, round'), k, data, data');
      XorCancel(Xor(Fnv(id), WrappingMul(w + 1, GOLDEN)), WrappingMul(round, ROUND_KEY), WrappingMul(round', ROUND_KEY));
      Inverses();
      MulInjective(round, round', ROUND_KEY, UNROUND_KEY);
    }
  }

  // ----- cells ----------------------------------------------------------------------------------------

  const UNFNV_PRIME: nat := 0xce965057aff6957b

  lemma FnvStep(h: U64, h': U64, b: Byte, b': Byte)
    requires WrappingMul(XorU64(h, b), FNV_PRIME) == WrappingMul(XorU64(h', b'), FNV_PRIME)
    ensures h == h' ==> b == b'
    ensures b == b' ==> h == h'
  {
    assert (FNV_PRIME * UNFNV_PRIME) % WORD == 1;
    MulInjective(XorU64(h, b), XorU64(h', b'), FNV_PRIME, UNFNV_PRIME);
    if h == h' {
      XorCancel(h, b, b');
    }
    if b == b' {
      XorCommutes(h, b);
      XorCommutes(h', b);
      XorCancel(b, h, h');
    }
  }

  /** Names that differ in one byte have different hashes. */
  lemma {:induction false} FnvOneByte(a: seq<Byte>, b: seq<Byte>, i: nat)
    requires |a| == |b| && i < |a| && a[i] != b[i] && forall j :: 0 <= j < |a| && j != i ==> a[j] == b[j]
    ensures Fnv(a) != Fnv(b)
  {
    var last := |a| - 1;
    if i == last {
      assert a[..last] == b[..last];
    } else {
      FnvOneByte(a[..last], b[..last], i);
    }
    if Fnv(a) == Fnv(b) {
      FnvStep(Fnv(a[..last]), Fnv(b[..last]), a[last], b[last]);
    }
  }

  /** Cells with different hashes differ at every full-word offset, for the same worker and round. */
  lemma CellsDiffer(id: seq<Byte>, id': seq<Byte>, w: nat, round: nat, k: nat, data: seq<Byte>, data': seq<Byte>)
    requires Fnv(id) != Fnv(id')
    requires data == Content(Seed(id, w, round), |data|) && data' == Content(Seed(id', w, round), |data'|)
    requires 8 * k + 8 <= |data| && 8 * k + 8 <= |data'|
    ensures data[8 * k..8 * k + 8] != data'[8 * k..8 * k + 8]
  {
    if data[8 * k..8 * k + 8] == data'[8 * k..8 * k + 8] {
      SameWordSameSeed(Seed(id, w, round), Seed(id', w, round), k, data, data');
      SeedsDiffer(Fnv(id), Fnv(id'), WrappingMul(w + 1, GOLDEN), WrappingMul(round, ROUND_KEY));
    }
  }

  lemma SeedsDiffer(h: U64, h': U64, a: U64, r: U64)
    requires XorU64(XorU64(h, a), r) == XorU64(XorU64(h', a), r)
    ensures h == h'
  {
    XorCommutes(Xor(h, a), r);
    XorCommutes(Xor(h', a), r);
    XorCancel(r, Xor(h, a), Xor(h', a));
    XorCommutes(h, a);
    XorCommutes(h', a);
    XorCancel(a, h, h');
  }
}
