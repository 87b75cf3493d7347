/** Consensus encoding primitives: little-endian integers, compact sizes, fixed byte strings and capped vectors. */
module Codec {
  import opened Primitives

  type Byte = n: nat | n < 256
  type Bytes = seq<Byte>
  type Bytes4 = b: Bytes | |b| == 4 witness [0, 0, 0, 0]
  type Bytes32 = b: Bytes | |b| == 32 witness seq(32, _ => 0)
  type Bytes33 = b: Bytes | |b| == 33 witness seq(33, _ => 0)
  type Bytes80 = b: Bytes | |b| == 80 witness seq(80, _ => 0)
  type Word32 = n: nat | n < 0x1_0000_0000
  type Word64 = n: nat | n < WORDS
  const WORDS: nat := 0x1_0000_0000_0000_0000

  /** A value read from the front of a byte string, and what is left. */
  datatype Parsed<+T> = Parsed(value: T, rest: Bytes) | Fail

  /** `dec` reads `x` back from its encoding followed by anything, and leaves exactly that. */
  ghost predicate Reads<T(!new)>(dec: Bytes -> Parsed<T>, encoded: Bytes, x: T) {
    forall rest :: dec(encoded + rest) == Parsed(x, rest)
  }

  /** One value after another. */
  function Both<A, B>(decA: Bytes -> Parsed<A>, decB: Bytes -> Parsed<B>, b: Bytes): Parsed<(A, B)> {
    match decA(b)
    case Fail => Fail
    case Parsed(x, rest) =>
      match decB(rest)
      case Fail => Fail
      case Parsed(y, rest') => Parsed((x, y), rest')
  }

  lemma ReadsBoth<A(!new), B(!new)>(decA: Bytes -> Parsed<A>, decB: Bytes -> Parsed<B>, encA: Bytes, encB: Bytes,
                    x: A, y: B, rest: Bytes)
    requires Reads(decA, encA, x) && Reads(decB, encB, y)
    ensures Both(decA, decB, (encA + encB) + rest) == Parsed((x, y), rest)
  {
    assert (encA + encB) + rest == encA + (encB + rest);
    assert decA(encA + (encB + rest)) == Parsed(x, encB + rest);
    assert decB(encB + rest) == Parsed(y, rest);
  }

  // ----- integers -----

  function EncU16(n: nat): Bytes
    requires n < 0x1_0000
  {
    [n % 256, n / 256]
  }

  function EncU32(n: Word32): (r: Bytes)
    ensures |r| == 4
  {
    EncU16(n % 0x1_0000) + EncU16(n / 0x1_0000)
  }

  function EncU64(n: Word64): (r: Bytes)
    ensures |r| == 8
  {
    EncU32(n % 0x1_0000_0000) + EncU32(n / 0x1_0000_0000)
  }

  function DecU8(b: Bytes): Parsed<Byte> {
    if |b| < 1 then Fail else Parsed(b[0], b[1..])
  }

  function DecU16(b: Bytes): Parsed<Word32> {
    if |b| < 2 then Fail else Parsed((b[0] as nat) + 256 * (b[1] as nat), b[2..])
  }

  function DecU32(b: Bytes): Parsed<Word32> {
    if |b| < 4 then Fail
    else Parsed((b[0] as nat) + 256 * (b[1] as nat) + 0x1_0000 * (b[2] as nat) + 0x100_0000 * (b[3] as nat), b[4..])
  }

  function DecU64(b: Bytes): Parsed<Word64> {
    if |b| < 8 then Fail
    else Parsed((DecU32(b).value as nat) + 0x1_0000_0000 * (DecU32(b[4..]).value as nat), b[8..])
  }

  lemma ReadsU16(n: nat, rest: Bytes)
    requires n < 0x1_0000
    ensures DecU16(EncU16(n) + rest) == Parsed(n, rest)
  {
    assert (EncU16(n) + rest)[2..] == rest;
  }

  lemma ReadsU32(n: Word32, rest: Bytes)
    ensures DecU32(EncU32(n) + rest) == Parsed(n, rest)
  {
    var b := EncU32(n) + rest;
    assert b[..4] == EncU32(n) && b[4..] == rest;
    var lo, hi := n % 0x1_0000, n / 0x1_0000;
    assert b[0] == lo % 256 && b[1] == lo / 256 && b[2] == hi % 256 && b[3] == hi / 256;
  }

  lemma ReadsU64(n: Word64, rest: Bytes)
    ensures DecU64(EncU64(n) + rest) == Parsed(n, rest)
  {
    var lo, hi := n % 0x1_0000_0000, n / 0x1_0000_0000;
    var b := EncU64(n) + rest;
    assert b == EncU32(lo) + (EncU32(hi) + rest);
    ReadsU32(lo, EncU32(hi) + rest);
    ReadsU32(hi, rest);
    assert b[4..] == EncU32(hi) + rest;
    assert b[8..] == rest;
  }

  // ----- compact sizes -----

  function EncVarInt(n: Word64): Bytes {
    if n < 0xFD then [n]
    else if n < 0x1_0000 then [0xFD] + EncU16(n)
    else if n < 0x1_0000_0000 then [0xFE] + EncU32(n)
    else [0xFF] + EncU64(n)
  }

  /** Only the shortest form of a number is accepted. */
  function DecVarInt(b: Bytes): Parsed<Word64> {
    if |b| == 0 then Fail
    else if b[0] < 0xFD then Parsed(b[0], b[1..])
    else
      var r := if b[0] == 0xFD then Widen(DecU16(b[1..])) else if b[0] == 0xFE then Widen(DecU32(b[1..]))
          else DecU64(b[1..]);
      var least := if b[0] == 0xFD then 0xFD else if b[0] == 0xFE then 0x1_0000 else 0x1_0000_0000;
      if r.Parsed? && r.value >= least then r else Fail
  }

  function Widen(p: Parsed<Word32>): Parsed<Word64> {
    match p
    case Parsed(v, rest) => Parsed(v, rest)
    case Fail => Fail
  }

  lemma ReadsSmallVarInt(n: Word64, rest: Bytes)
    requires n < 0x1_0000
    ensures DecVarInt(EncVarInt(n) + rest) == Parsed(n, rest)
  {
    var b := EncVarInt(n) + rest;
    if n < 0xFD {
      assert b[1..] == rest;
    } else {
      assert b[1..] == EncU16(n) + rest;
      ReadsU16(n, rest);
    }
  }

  lemma ReadsWideVarInt(n: Word64, rest: Bytes)
    requires 0x1_0000_0000 <= n
    ensures DecVarInt(EncVarInt(n) + rest) == Parsed(n, rest)
  {
    var b := EncVarInt(n) + rest;
    assert b[0] == 0xFF && b[1..] == EncU64(n) + rest;
    ReadsU64(n, rest);
  }

  lemma ReadsVarInt(n: Word64, rest: Bytes)
    ensures DecVarInt(EncVarInt(n) + rest) == Parsed(n, rest)
  {
    if n < 0x1_0000 {
      ReadsSmallVarInt(n, rest);
    } else if n < 0x1_0000_0000 {
      var b := EncVarInt(n) + rest;
      assert b[0] == 0xFE && b[1..] == EncU32(n) + rest;
      ReadsU32(n, rest);
    } else {
      ReadsWideVarInt(n, rest);
    }
  }

  lemma VarIntLength(n: Word64)
    ensures |EncVarInt(n)| == (if n < 0xFD then 1 else if n < 0x1_0000 then 3 else if n < 0x1_0000_0000 then 5 else 9)
  {
  }

  // ----- fixed byte strings -----

  function EncHash(h: Bytes32): Bytes {
    h
  }

  function DecHash(b: Bytes): Parsed<Bytes32> {
    if |b| < 32 then Fail else Parsed(b[..32], b[32..])
  }

  function Dec33(b: Bytes): Parsed<Bytes33> {
    if |b| < 33 then Fail else Parsed(b[..33], b[33..])
  }

  function Dec80(b: Bytes): Parsed<Bytes80> {
    if |b| < 80 then Fail else Parsed(b[..80], b[80..])
  }

  lemma Reads33(x: Bytes33)
    ensures Reads(Dec33, x, x)
  {
    forall rest ensures Dec33(x + rest) == Parsed(x, rest) {
      assert (x + rest)[..33] == x && (x + rest)[33..] == rest;
    }
  }

  lemma Reads80(x: Bytes80)
    ensures Reads(Dec80, x, x)
  {
    forall rest ensures Dec80(x + rest) == Parsed(x, rest) {
      assert (x + rest)[..80] == x && (x + rest)[80..] == rest;
    }
  }

  lemma ReadsWord(n: Word32)
    ensures Reads(DecU32, EncU32(n), n)
  {
    forall rest ensures DecU32(EncU32(n) + rest) == Parsed(n, rest) {
      ReadsU32(n, rest);
    }
  }

  lemma ReadsHash(h: Bytes32)
    ensures Reads(DecHash, EncHash(h), h)
  {
    forall rest ensures DecHash(EncHash(h) + rest) == Parsed(h, rest) {
      assert (EncHash(h) + rest)[..32] == h && (EncHash(h) + rest)[32..] == rest;
    }
  }

  // ----- vectors -----

  function WriteMany<T>(enc: T -> Bytes, xs: seq<T>): Bytes {
    if xs == [] then [] else enc(xs[0]) + WriteMany(enc, xs[1..])
  }

  function ReadMany<T>(dec: Bytes -> Parsed<T>, b: Bytes, n: nat): Parsed<seq<T>>
    decreases n
  {
    if n == 0 then Parsed([], b)
    else
      match dec(b)
      case Fail => Fail
      case Parsed(x, rest) =>
        match ReadMany(dec, rest, n - 1)
        case Fail => Fail
        case Parsed(xs, rest') => Parsed([x] + xs, rest')
  }

  lemma {:induction false} ReadsMany<T(!new)>(enc: T -> Bytes, dec: Bytes -> Parsed<T>, xs: seq<T>, rest: Bytes)
    requires forall x :: x in xs ==> Reads(dec, enc(x), x)
    ensures ReadMany(dec, WriteMany(enc, xs) + rest, |xs|) == Parsed(xs, rest)
  {
    if xs == [] {
      assert [] + rest == rest;
    } else {
      var tail := WriteMany(enc, xs[1..]) + rest;
      assert WriteMany(enc, xs) + rest == enc(xs[0]) + tail;
      assert Reads(dec, enc(xs[0]), xs[0]);
      assert dec(enc(xs[0]) + tail) == Parsed(xs[0], tail);
      ReadsMany(enc, dec, xs[1..], rest);
      assert [xs[0]] + xs[1..] == xs;
    }
  }

  /** A length, cast to 64 bits. */
  function EncCount(n: nat): Bytes {
    if n < WORDS then EncVarInt(n) else EncVarInt(n % WORDS)
  }

  lemma CountLength(n: nat)
    ensures |EncCount(n)| in {1, 3, 5, 9}
  {
    VarIntLength(n % WORDS);
  }

  function EncVec<T>(enc: T -> Bytes, xs: seq<T>): Bytes {
    EncCount(|xs|) + WriteMany(enc, xs)
  }

  function DecVec<T>(dec: Bytes -> Parsed<T>, b: Bytes): Parsed<seq<T>> {
    match DecVarInt(b)
    case Fail => Fail
    case Parsed(n, rest) => ReadMany(dec, rest, n)
  }

  lemma ReadsVec<T(!new)>(enc: T -> Bytes, dec: Bytes -> Parsed<T>, xs: seq<T>, rest: Bytes)
    requires |xs| < WORDS
    requires forall x :: x in xs ==> Reads(dec, enc(x), x)
    ensures DecVec(dec, EncVec(enc, xs) + rest) == Parsed(xs, rest)
  {
    assert EncVec(enc, xs) + rest == EncVarInt(|xs|) + (WriteMany(enc, xs) + rest);
    ReadsVarInt(|xs|, WriteMany(enc, xs) + rest);
    ReadsMany(enc, dec, xs, rest);
  }

  /** Reading through a reader that gives out at most `cap` bytes. */
  function Capped<T>(dec: Bytes -> Parsed<T>, cap: nat, b: Bytes): Parsed<T> {
    var k := Min(cap, |b|);
    match dec(b[..k])
    case Fail => Fail
    case Parsed(x, rest) => Parsed(x, rest + b[k..])
  }

  lemma ReadsCapped<T(!new)>(dec: Bytes -> Parsed<T>, cap: nat, encoded: Bytes, x: T, rest: Bytes)
    requires Reads(dec, encoded, x) && |encoded| <= cap
    ensures Capped(dec, cap, encoded + rest) == Parsed(x, rest)
  {
    var b := encoded + rest;
    var k := Min(cap, |b|);
    var inside := rest[..k - |encoded|];
    assert b[..k] == encoded + inside;
    assert dec(encoded + inside) == Parsed(x, inside);
    assert inside + b[k..] == rest;
  }

  /** The limit rust-bitcoin puts on the bytes of one vector. */
  const MAX_VEC_SIZE: nat := 4_000_000

  function EncHashes(hs: seq<Bytes32>): Bytes {
    EncVec(EncHash, hs)
  }

  /** A hash list inside a larger structure, read through the vector cap. */
  function DecHashes(b: Bytes): Parsed<seq<Bytes32>> {
    Capped(w => DecVec(DecHash, w), MAX_VEC_SIZE, b)
  }

  lemma {:induction false} HashesLength(hs: seq<Bytes32>)
    ensures |WriteMany(EncHash, hs)| == 32 * |hs|
  {
    if hs == [] {
    } else {
      HashesLength(hs[1..]);
    }
  }

  lemma {:induction false} ReadHashesNeeds(b: Bytes, n: nat)
    ensures ReadMany(DecHash, b, n).Parsed? <==> |b| >= 32 * n
  {
    if n > 0 && |b| >= 32 {
      ReadHashesNeeds(b[32..], n - 1);
    }
  }

  lemma ReadsHashList(hs: seq<Bytes32>, rest: Bytes)
    requires |hs| < WORDS
    ensures DecVec(DecHash, EncHashes(hs) + rest) == Parsed(hs, rest)
  {
    forall h | h in hs ensures Reads(DecHash, EncHash(h), h) {
      ReadsHash(h);
    }
    ReadsVec(EncHash, DecHash, hs, rest);
  }

  /** A hash list decodes back in place exactly when its encoding fits under the cap. */
  lemma ReadsHashesIff(hs: seq<Bytes32>, rest: Bytes)
    requires |hs| < WORDS
    ensures DecHashes(EncHashes(hs) + rest) == Parsed(hs, rest) <==> |EncHashes(hs)| <= 4_000_000
  {
    var enc := EncHashes(hs);
    var dec := w => DecVec(DecHash, w);
    if |enc| <= MAX_VEC_SIZE {
      forall r ensures dec(enc + r) == Parsed(hs, r) {
        ReadsHashList(hs, r);
      }
      ReadsCapped(dec, MAX_VEC_SIZE, enc, hs, rest);
    } else {
      var window := (enc + rest)[..MAX_VEC_SIZE];
      HashesLength(hs);
      VarIntLength(|hs|);
      var body := window[|EncVarInt(|hs|)|..];
      assert window == EncVarInt(|hs|) + body;
      ReadsVarInt(|hs|, body);
      ReadHashesNeeds(body, |hs|);
      assert DecVec(DecHash, window) == Fail;
    }
  }

  lemma ReadsHashes(hs: seq<Bytes32>)
    requires |EncHashes(hs)| <= MAX_VEC_SIZE
    ensures Reads(DecHashes, EncHashes(hs), hs)
  {
    HashesLength(hs);
    forall rest ensures DecHashes(EncHashes(hs) + rest) == Parsed(hs, rest) {
      ReadsHashesIff(hs, rest);
    }
  }

  /** `encode::deserialize`: the whole byte string must be used up, and no cap applies. */
  function DeserializeHashes(b: Bytes): Option<seq<Bytes32>> {
    var r := DecVec(DecHash, b);
    if r.Parsed? && r.rest == [] then Some(r.value) else None
  }

  function DeserializeHash(b: Bytes): Option<Bytes32> {
    if |b| == 32 then Some(b) else None
  }

  lemma DeserializeEncoded(hs: seq<Bytes32>)
    requires |hs| < WORDS
    ensures DeserializeHashes(EncHashes(hs)) == Some(hs)
  {
    ReadsHashList(hs, []);
    assert EncHashes(hs) + [] == EncHashes(hs);
  }
}
