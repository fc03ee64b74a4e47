/**
 Chunks stored with erasure coding: the contents are cut into data shards, parity shards are added, and the
 hash of every shard is stored, so that damaged shards are detected and restored from the others.
 */
module ErasureCoding {
  import opened Common
  import opened Buzhash
  import opened Chunking
  import opened Padding

  const BANNER: Bytes := [100, 117, 112, 108, 105, 99, 97, 99, 121, 3]

  const HeaderLength: nat := 14
  const HashLength: nat := 32

  /** The code and the hash of a shard, neither of which is part of this model. */
  datatype Codec = Codec(
    dataShards: nat, parityShards: nat,
    parity: seq<Bytes> -> seq<Bytes>, reconstruct: seq<Option<Bytes>> -> seq<Bytes>, hash: Bytes -> Bytes)
  {
    function Word(data: seq<Bytes>): seq<Bytes> { data + parity(data) }

    function Shards(): nat { dataShards + parityShards }

    /** Any `dataShards` of the shards determine the rest, and hashes have the length they should. */
    ghost predicate Valid() {
      0 < dataShards < 65536 && parityShards < 65536 &&
      (forall b :: |hash(b)| == HashLength) &&
      (forall data, n :: Equal(data, dataShards, n) ==> Equal(parity(data), parityShards, n)) &&
      (forall data, n, some ::
        Equal(data, dataShards, n) && SomeOf(some, Word(data)) && Available(some, |some|) >= dataShards ==>
        reconstruct(some) == Word(data))
    }
  }

  /** So many shards, all of this length. */
  ghost predicate Equal(shards: seq<Bytes>, count: nat, n: nat) {
    |shards| == count && forall i :: 0 <= i < count ==> |shards[i]| == n
  }

  /** Shards that are there are right. */
  ghost predicate SomeOf(some: seq<Option<Bytes>>, word: seq<Bytes>) {
    |some| == |word| && forall i :: 0 <= i < |some| ==> some[i].None? || some[i] == Some(word[i])
  }

  function Available(some: seq<Option<Bytes>>, n: nat): nat
    requires n <= |some|
  {
    if n == 0 then 0 else Available(some, n - 1) + if some[n - 1].Some? then 1 else 0
  }

  // ------------------------------------------------------------------ the header

  function Xor(a: nat, b: nat): nat {
    if a == 0 && b == 0 then 0 else 2 * Xor(a / 2, b / 2) + (a + b) % 2
  }

  /** The low `n` bytes of a number, the lowest first. */
  function LittleEndian(x: nat, n: nat): (r: Bytes)
    ensures |r| == n
  {
    if n == 0 then [] else [(x % 256) as Byte] + LittleEndian(x / 256, n - 1)
  }

  function FromLittleEndian(b: Bytes): nat { if b == [] then 0 else b[0] + 256 * FromLittleEndian(b[1..]) }

  function Power256(n: nat): nat { if n == 0 then 1 else 256 * Power256(n - 1) }

  lemma {:induction false} LittleEndianRoundTrip(x: nat, n: nat)
    requires x < Power256(n)
    ensures FromLittleEndian(LittleEndian(x, n)) == x
  {
    if n > 0 {
      var b := LittleEndian(x, n);
      assert b[1..] == LittleEndian(x / 256, n - 1);
      LittleEndianRoundTrip(x / 256, n - 1);
    }
  }

  lemma {:induction false} XorBound(a: nat, b: nat, n: nat)
    requires a < Power2(n) && b < Power2(n)
    ensures Xor(a, b) < Power2(n)
  {
    if n > 0 { XorBound(a / 2, b / 2, n - 1); }
  }

  function Power2(n: nat): nat { if n == 0 then 1 else 2 * Power2(n - 1) }

  /** Changing one side changes the result. */
  lemma {:induction false} XorCancels(a: nat, b: nat, c: nat)
    requires Xor(a, c) == Xor(b, c)
    ensures a == b
    decreases a + b + c
  {
    if a != 0 || b != 0 || c != 0 {
      assert Xor(a, c) == 2 * Xor(a / 2, c / 2) + (a + c) % 2;
      assert Xor(b, c) == 2 * Xor(b / 2, c / 2) + (b + c) % 2;
      XorCancels(a / 2, b / 2, c / 2);
    }
  }

  lemma {:induction false} XorCommutes(a: nat, b: nat)
    ensures Xor(a, b) == Xor(b, a)
  {
    if a != 0 || b != 0 { XorCommutes(a / 2, b / 2); }
  }

  /** The check over every other byte of the first twelve. */
  function Check(h: Bytes, k: nat): nat
    requires |h| >= 12 && k < 2
  {
    Xor(Xor(Xor(Xor(Xor(h[k], h[k + 2]), h[k + 4]), h[k + 6]), h[k + 8]), h[k + 10])
  }

  predicate HeaderFits(h: Bytes)
    requires |h| == HeaderLength
  {
    h[12] == Check(h, 0) && h[13] == Check(h, 1)
  }

  lemma CheckIsByte(h: Bytes, k: nat)
    requires |h| >= 12 && k < 2
    ensures Check(h, k) < 256
  {
    assert Power2(8) == 256;
    var a := Xor(h[k], h[k + 2]);
    XorBound(h[k], h[k + 2], 8);
    var b := Xor(a, h[k + 4]);
    XorBound(a, h[k + 4], 8);
    var c := Xor(b, h[k + 6]);
    XorBound(b, h[k + 6], 8);
    var d := Xor(c, h[k + 8]);
    XorBound(c, h[k + 8], 8);
    XorBound(d, h[k + 10], 8);
  }

  /** The twelve bytes of the header before its check. */
  function Fields(chunkSize: nat, dataShards: nat, parityShards: nat): (f: Bytes)
    ensures |f| == 12
  {
    LittleEndian(chunkSize, 8) + LittleEndian(dataShards, 2) + LittleEndian(parityShards, 2)
  }

  function Header(chunkSize: nat, dataShards: nat, parityShards: nat): (h: Bytes)
    ensures |h| == HeaderLength && HeaderFits(h) && h[..12] == Fields(chunkSize, dataShards, parityShards)
  {
    var f := Fields(chunkSize, dataShards, parityShards);
    CheckIsByte(f, 0);
    CheckIsByte(f, 1);
    f + [Check(f, 0) as Byte, Check(f, 1) as Byte]
  }

  /** The parameters are read back. */
  lemma HeaderRoundTrip(chunkSize: nat, dataShards: nat, parityShards: nat)
    requires chunkSize < Power256(8) && dataShards < 65536 && parityShards < 65536
    ensures var h := Header(chunkSize, dataShards, parityShards);
      FromLittleEndian(h[0..8]) == chunkSize && FromLittleEndian(h[8..10]) == dataShards &&
      FromLittleEndian(h[10..12]) == parityShards
  {
    var h := Header(chunkSize, dataShards, parityShards);
    assert h[0..8] == h[..12][0..8] == LittleEndian(chunkSize, 8);
    assert h[8..10] == h[..12][8..10] == LittleEndian(dataShards, 2);
    assert h[10..12] == h[..12][10..12] == LittleEndian(parityShards, 2);
    assert Power256(2) == 65536;
    LittleEndianRoundTrip(chunkSize, 8);
    LittleEndianRoundTrip(dataShards, 2);
    LittleEndianRoundTrip(parityShards, 2);
  }

  /** Damage to a single byte of the header does not go unnoticed. */
  lemma SingleByteDamage(h: Bytes, i: nat, b: Byte)
    requires |h| == HeaderLength && HeaderFits(h) && i < HeaderLength && b != h[i]
    ensures !HeaderFits(h[i := b])
  {
    var g := h[i := b];
    if i < 12 && HeaderFits(g) {
      var k := i % 2;
      assert Check(g, k) == Check(h, k);
      ChecksDiffer(h[k], h[k + 2], h[k + 4], h[k + 6], h[k + 8], h[k + 10],
                   g[k], g[k + 2], g[k + 4], g[k + 6], g[k + 8], g[k + 10]);
    }
  }

  lemma ChecksDiffer(a: nat, b: nat, c: nat, d: nat, e: nat, f: nat, a': nat, b': nat, c': nat, d': nat, e': nat,
                     f': nat)
    requires Xor(Xor(Xor(Xor(Xor(a, b), c), d), e), f) == Xor(Xor(Xor(Xor(Xor(a', b'), c'), d'), e'), f')
    requires (b == b' && c == c' && d == d' && e == e' && f == f') ||
             (a == a' && c == c' && d == d' && e == e' && f == f') ||
             (a == a' && b == b' && d == d' && e == e' && f == f') ||
             (a == a' && b == b' && c == c' && e == e' && f == f') ||
             (a == a' && b == b' && c == c' && d == d' && f == f') ||
             (a == a' && b == b' && c == c' && d == d' && e == e')
    ensures a == a' && b == b' && c == c' && d == d' && e == e' && f == f'
  {
    var x, y := Xor(a, b), Xor(a', b');
    var x2, y2 := Xor(x, c), Xor(y, c');
    var x3, y3 := Xor(x2, d), Xor(y2, d');
    var x4, y4 := Xor(x3, e), Xor(y3, e');
    Either(x4, f, y4, f');
    if x4 == y4 { Either(x3, e, y3, e'); }
    if x4 == y4 && x3 == y3 { Either(x2, d, y2, d'); }
    if x4 == y4 && x3 == y3 && x2 == y2 { Either(x, c, y, c'); }
    if x4 == y4 && x3 == y3 && x2 == y2 && x == y { Either(a, b, a', b'); }
  }

  lemma Either(a: nat, b: nat, c: nat, d: nat)
    requires Xor(a, b) == Xor(c, d)
    ensures a == c <==> b == d
  {
    if b == d { XorCancels(a, c, b); }
    if a == c {
      XorCommutes(a, b);
      XorCommutes(c, d);
      XorCancels(b, d, a);
    }
  }

  // ------------------------------------------------------------------ shards

  function ShardSize(chunkSize: nat, dataShards: nat): (n: nat)
    requires dataShards > 0
    ensures chunkSize <= n * dataShards < chunkSize + dataShards
  {
    (chunkSize + dataShards - 1) / dataShards
  }

  /** Where the `i`-th of shards of size `n` begins. */
  function Place(n: nat, i: nat): nat { if i == 0 then 0 else Place(n, i - 1) + n }

  lemma {:induction false} PlaceIs(n: nat, i: nat)
    ensures Place(n, i) == n * i
  {
    if i > 0 {
      PlaceIs(n, i - 1);
      assert n * i == n * (i - 1) + n;
    }
  }

  lemma {:induction false} Ahead(n: nat, i: nat, j: nat)
    requires i <= j
    ensures Place(n, i) <= Place(n, j)
  {
    if i < j { Ahead(n, i, j - 1); }
  }

  function Split(b: Bytes, n: nat, count: nat): seq<Bytes>
    requires |b| == Place(n, count)
  {
    if count == 0 then [] else [b[..n]] + Split(b[n..], n, count - 1)
  }

  lemma {:induction false} SplitShards(b: Bytes, n: nat, count: nat)
    requires |b| == Place(n, count)
    ensures Equal(Split(b, n, count), count, n) && Flatten(Split(b, n, count)) == b
  {
    if count > 0 {
      SplitShards(b[n..], n, count - 1);
      var s := Split(b, n, count);
      assert s[1..] == Split(b[n..], n, count - 1);
    }
  }

  /** Where the `i`-th of equal shards lies. */
  lemma {:induction false} FlattenAt(shards: seq<Bytes>, n: nat, i: nat)
    requires Equal(shards, |shards|, n)
    ensures |Flatten(shards)| == Place(n, |shards|)
    ensures i < |shards| ==>
      Place(n, i) + n <= Place(n, |shards|) && Flatten(shards)[Place(n, i)..Place(n, i) + n] == shards[i]
    decreases |shards|
  {
    if shards != [] {
      var rest := shards[1..];
      FlattenAt(rest, n, if i > 0 then i - 1 else 0);
      if 0 < i < |shards| {
        SubFlatten(shards[0], Flatten(rest), Place(n, i - 1), n);
      } else {
        Ahead(n, 1, |shards|);
      }
    }
  }

  lemma SubFlatten(first: Bytes, rest: Bytes, k: nat, n: nat)
    requires k + n <= |rest|
    ensures (first + rest)[|first| + k..|first| + k + n] == rest[k..k + n]
  {
  }

  /** The contents filled up with zeros, so that they can be cut into equal shards. */
  function Filled(content: Bytes, dataShards: nat): (b: Bytes)
    requires dataShards > 0
    ensures |b| == Place(ShardSize(|content|, dataShards), dataShards) >= |content| && b[..|content|] == content
  {
    var n := ShardSize(|content|, dataShards);
    PlaceIs(n, dataShards);
    content + Repeat(0, n * dataShards - |content|)
  }

  /** The data shards of some contents, the last ones filled up with zeros. */
  function DataShards(content: Bytes, dataShards: nat): seq<Bytes>
    requires dataShards > 0
  {
    Split(Filled(content, dataShards), ShardSize(|content|, dataShards), dataShards)
  }

  function Hashes(codec: Codec, shards: seq<Bytes>): seq<Bytes> {
    seq(|shards|, i requires 0 <= i < |shards| => codec.hash(shards[i]))
  }

  /** What is stored: the header, the hash of each shard, the shards, and the header again. */
  function Stored(codec: Codec, content: Bytes): Bytes
    requires codec.dataShards > 0
  {
    var word := codec.Word(DataShards(content, codec.dataShards));
    var header := Header(|content|, codec.dataShards, codec.parityShards);
    BANNER + header + Flatten(Hashes(codec, word)) + Flatten(word) + header
  }

  method Encode(codec: Codec, content: Bytes) returns (stored: Bytes)
    requires codec.Valid()
    ensures stored == Stored(codec, content)
  {
    var shardSize := ShardSize(|content|, codec.dataShards);
    var data := Split(Filled(content, codec.dataShards), shardSize, codec.dataShards);
    data := data + codec.parity(data);
    var header := Header(|content|, codec.dataShards, codec.parityShards);
    stored := BANNER + header;
    ghost var hashes := Hashes(codec, data);
    assert hashes[..0] == [] && data[..0] == [];
    for i := 0 to |data|
      invariant stored == BANNER + header + Flatten(hashes[..i])
    {
      FlattenNext(hashes, i);
      stored := stored + codec.hash(data[i]);
    }
    assert hashes[..|data|] == hashes;
    for i := 0 to |data|
      invariant stored == BANNER + header + Flatten(hashes) + Flatten(data[..i])
    {
      FlattenNext(data, i);
      stored := stored + data[i];
    }
    assert data[..|data|] == data;
    stored := stored + header;
  }

  // ------------------------------------------------------------------ reading what is stored

  const HashOffset: nat := |BANNER| + HeaderLength

  function DataOffset(shards: nat): nat { HashOffset + Place(HashLength, shards) }

  predicate Complete(stored: Bytes, shards: nat, n: nat, i: nat) { DataOffset(shards) + Place(n, i) + n <= |stored| }

  function ShardAt(stored: Bytes, shards: nat, n: nat, i: nat): Bytes
    requires Complete(stored, shards, n, i)
  {
    stored[DataOffset(shards) + Place(n, i)..DataOffset(shards) + Place(n, i) + n]
  }

  function HashAt(stored: Bytes, shards: nat, i: nat): Bytes
    requires DataOffset(shards) <= |stored| && i < shards
  {
    Ahead(HashLength, i + 1, shards);
    stored[HashOffset + Place(HashLength, i)..HashOffset + Place(HashLength, i + 1)]
  }

  /** The shard is there, and has the hash stored for it. */
  predicate Good(codec: Codec, stored: Bytes, shards: nat, n: nat, i: nat)
    requires DataOffset(shards) <= |stored| && i < shards
  {
    Complete(stored, shards, n, i) && codec.hash(ShardAt(stored, shards, n, i)) == HashAt(stored, shards, i)
  }

  function GoodShards(codec: Codec, stored: Bytes, shards: nat, n: nat, i: nat): nat
    requires DataOffset(shards) <= |stored| && i <= shards
  {
    if i == 0 then 0
    else GoodShards(codec, stored, shards, n, i - 1) + if Good(codec, stored, shards, n, i - 1) then 1 else 0
  }

  datatype Outcome = Recovered(content: Bytes) | Failed | NotEncoded | Panicked

  /**
   Shards stored for some contents, and then perhaps damaged: the header is intact, not too much has been cut off,
   and no damage to a shard escapes its hash.
   */
  ghost predicate StoredFor(codec: Codec, content: Bytes, stored: Bytes) {
    codec.Valid() && |content| < Power256(8) &&
    var n, word := ShardSize(|content|, codec.dataShards), codec.Word(DataShards(content, codec.dataShards));
    |word| == codec.Shards() && |stored| > DataOffset(codec.Shards()) + Place(n, codec.dataShards) &&
    stored[..HashOffset] == BANNER + Header(|content|, codec.dataShards, codec.parityShards) &&
    forall i :: 0 <= i < codec.Shards() && Good(codec, stored, codec.Shards(), n, i) ==>
      ShardAt(stored, codec.Shards(), n, i) == word[i]
  }

  lemma {:induction false} NoneAvailable(some: seq<Option<Bytes>>, n: nat)
    requires n <= |some| && forall i :: 0 <= i < n ==> some[i].None?
    ensures Available(some, n) == 0
  {
    if n > 0 { NoneAvailable(some, n - 1); }
  }

  lemma {:induction false} OneMoreAvailable(some: seq<Option<Bytes>>, n: nat, i: nat, b: Bytes)
    requires i < |some| && n <= |some| && some[i].None?
    ensures Available(some[i := Some(b)], n) == Available(some, n) + if i < n then 1 else 0
  {
    if n > 0 { OneMoreAvailable(some, n - 1, i, b); }
  }

  lemma {:induction false} GoodGrows(codec: Codec, stored: Bytes, shards: nat, n: nat, i: nat, j: nat)
    requires DataOffset(shards) <= |stored| && i <= j <= shards
    ensures GoodShards(codec, stored, shards, n, i) <= GoodShards(codec, stored, shards, n, j) <=
            GoodShards(codec, stored, shards, n, i) + j - i
  {
    if i < j { GoodGrows(codec, stored, shards, n, i, j - 1); }
  }

  /** All that follows an incomplete shard is incomplete. */
  lemma {:induction false} LaterIncomplete(codec: Codec, stored: Bytes, shards: nat, n: nat, i: nat, j: nat)
    requires DataOffset(shards) <= |stored| && i <= j <= shards && !Complete(stored, shards, n, i)
    ensures GoodShards(codec, stored, shards, n, j) == GoodShards(codec, stored, shards, n, i)
  {
    if i < j {
      Ahead(n, i, j - 1);
      LaterIncomplete(codec, stored, shards, n, i, j - 1);
    }
  }

  lemma DataShardsComplete(stored: Bytes, shards: nat, n: nat, i: nat, dataShards: nat)
    requires DataOffset(shards) + Place(n, dataShards) < |stored| && i < dataShards
    ensures Complete(stored, shards, n, i)
  {
    Ahead(n, i + 1, dataShards);
  }

  /** The state of the search before shard `i`. */
  ghost predicate Searched(codec: Codec, stored: Bytes, shards: nat, n: nat, dataShards: nat, i: nat,
                           data: seq<Option<Bytes>>, available: nat, recoveryNeeded: bool)
  {
    DataOffset(shards) <= |stored| && i <= shards == |data| &&
    available == Available(data, |data|) == GoodShards(codec, stored, shards, n, i) &&
    (forall k :: 0 <= k < i ==> Slot(codec, stored, shards, n, k, data[k])) &&
    (forall k :: i <= k < shards ==> data[k].None?) &&
    (recoveryNeeded <==> exists k :: 0 <= k < i && k < dataShards && !Good(codec, stored, shards, n, k))
  }

  ghost predicate Slot(codec: Codec, stored: Bytes, shards: nat, n: nat, k: nat, entry: Option<Bytes>)
    requires DataOffset(shards) <= |stored| && k < shards
  {
    entry == if Good(codec, stored, shards, n, k) then Some(ShardAt(stored, shards, n, k)) else None
  }

  lemma BadShard(codec: Codec, stored: Bytes, shards: nat, n: nat, dataShards: nat, i: nat,
                 data: seq<Option<Bytes>>, available: nat, recoveryNeeded: bool)
    requires Searched(codec, stored, shards, n, dataShards, i, data, available, recoveryNeeded) && i < shards
    requires !Good(codec, stored, shards, n, i)
    ensures Searched(codec, stored, shards, n, dataShards, i + 1, data, available, recoveryNeeded || i < dataShards)
  {
  }

  lemma GoodShard(codec: Codec, stored: Bytes, shards: nat, n: nat, dataShards: nat, i: nat,
                  data: seq<Option<Bytes>>, available: nat, recoveryNeeded: bool)
    requires Searched(codec, stored, shards, n, dataShards, i, data, available, recoveryNeeded) && i < shards
    requires Good(codec, stored, shards, n, i)
    ensures Searched(codec, stored, shards, n, dataShards, i + 1, data[i := Some(ShardAt(stored, shards, n, i))],
                     available + 1, recoveryNeeded)
  {
    OneMoreAvailable(data, |data|, i, ShardAt(stored, shards, n, i));
  }

  /** The search may end when enough shards have been found, or all that are complete have been looked at. */
  lemma SearchEnds(codec: Codec, stored: Bytes, shards: nat, n: nat, dataShards: nat, i: nat,
                   data: seq<Option<Bytes>>, available: nat, recoveryNeeded: bool)
    requires Searched(codec, stored, shards, n, dataShards, i, data, available, recoveryNeeded)
    requires 0 < dataShards <= shards && DataOffset(shards) + Place(n, dataShards) < |stored|
    requires available >= dataShards || i == shards || !Complete(stored, shards, n, i)
    ensures available >= dataShards <==> GoodShards(codec, stored, shards, n, shards) >= dataShards
    ensures recoveryNeeded <==> exists k :: 0 <= k < dataShards && !Good(codec, stored, shards, n, k)
    ensures forall k :: 0 <= k < shards && data[k].Some? ==>
      Good(codec, stored, shards, n, k) && data[k].value == ShardAt(stored, shards, n, k)
  {
    GoodGrows(codec, stored, shards, n, 0, i);
    GoodGrows(codec, stored, shards, n, i, shards);
    if i < shards && !Complete(stored, shards, n, i) {
      LaterIncomplete(codec, stored, shards, n, i, shards);
      if i < dataShards { DataShardsComplete(stored, shards, n, i, dataShards); }
    }
    assert i >= dataShards;
    forall k | 0 <= k < shards && data[k].Some?
      ensures Good(codec, stored, shards, n, k) && data[k].value == ShardAt(stored, shards, n, k)
    {
      assert k < i && Slot(codec, stored, shards, n, k, data[k]);
    }
  }

  /** The shards found good, until there are enough of them; an incomplete one ends the search. */
  method CollectShards(codec: Codec, stored: Bytes, dataShards: nat, parityShards: nat, shardSize: nat)
    returns (data: seq<Option<Bytes>>, availableShards: nat, recoveryNeeded: bool)
    requires dataShards > 0 && DataOffset(dataShards + parityShards) + Place(shardSize, dataShards) < |stored|
    ensures |data| == dataShards + parityShards && availableShards == Available(data, |data|)
    ensures forall i :: 0 <= i < |data| && data[i].Some? ==>
      Good(codec, stored, |data|, shardSize, i) && data[i].value == ShardAt(stored, |data|, shardSize, i)
    ensures availableShards >= dataShards <==> GoodShards(codec, stored, |data|, shardSize, |data|) >= dataShards
    ensures recoveryNeeded <==> exists i :: 0 <= i < dataShards && !Good(codec, stored, |data|, shardSize, i)
  {
    var shards := dataShards + parityShards;
    data, availableShards, recoveryNeeded := seq(shards, _ => None), 0, false;
    NoneAvailable(data, |data|);
    var i := 0;
    while i < shards && availableShards < dataShards
      invariant 0 <= i <= shards
      invariant Searched(codec, stored, shards, shardSize, dataShards, i, data, availableShards, recoveryNeeded)
      decreases shards - i
    {
      var start := DataOffset(shards) + shardSize * i;
      PlaceIs(shardSize, i);
      if start + shardSize > |stored| {
        break;
      }
      var shard := stored[start..start + shardSize];
      if codec.hash(shard) != HashAt(stored, shards, i) {
        BadShard(codec, stored, shards, shardSize, dataShards, i, data, availableShards, recoveryNeeded);
        if i < dataShards { recoveryNeeded := true; }
      } else {
        GoodShard(codec, stored, shards, shardSize, dataShards, i, data, availableShards, recoveryNeeded);
        data := data[i := Some(shard)];
        availableShards := availableShards + 1;
      }
      i := i + 1;
    }
    SearchEnds(codec, stored, shards, shardSize, dataShards, i, data, availableShards, recoveryNeeded);
  }

  /** The file begins as one with erasure coding does: "duplicacy" and a 3, and something after that. */
  predicate Marked(stored: Bytes) {
    |stored| > 10 && stored[..10] == [100, 117, 112, 108, 105, 99, 97, 99, 121, 3]
  }

  /** The header is cut off or damaged. */
  predicate HeaderBroken(stored: Bytes) { Marked(stored) && (|stored| < 24 || !HeaderFits(stored[10..24])) }

  /** Damage to a single byte of the header breaks it. */
  lemma DamageBreaks(stored: Bytes, i: nat, b: Byte)
    requires Marked(stored) && |stored| >= 24 && !HeaderBroken(stored) && 10 <= i < 24 && b != stored[i]
    ensures HeaderBroken(stored[i := b])
  {
    SingleByteDamage(stored[10..24], i - 10, b);
    assert stored[i := b][10..24] == stored[10..24][i - 10 := b];
    assert stored[i := b][..10] == stored[..10];
  }

  /** The parameters in the header, unless it is damaged. */
  method ReadHeader(stored: Bytes, ghost codec: Codec, ghost content: Bytes)
    returns (ok: bool, chunkSize: nat, dataShards: nat, parityShards: nat)
    requires |stored| >= HashOffset
    ensures StoredFor(codec, content, stored) ==>
      ok && chunkSize == |content| && dataShards == codec.dataShards && parityShards == codec.parityShards
    ensures ok <==> HeaderFits(stored[|BANNER|..HashOffset])
  {
    var header := stored[|BANNER|..HashOffset];
    assert stored[..HashOffset][|BANNER|..] == header;
    if StoredFor(codec, content, stored) { HeaderRoundTrip(|content|, codec.dataShards, codec.parityShards); }
    ok := HeaderFits(header);
    chunkSize, dataShards, parityShards :=
      FromLittleEndian(header[0..8]), FromLittleEndian(header[8..10]), FromLittleEndian(header[10..12]);
  }

  /** What the shards give. */
  ghost predicate Decoded(codec: Codec, content: Bytes, stored: Bytes, r: Outcome, rewriteNeeded: bool)
    requires StoredFor(codec, content, stored)
  {
    var n, shards := ShardSize(|content|, codec.dataShards), codec.Shards();
    r == (if GoodShards(codec, stored, shards, n, shards) >= codec.dataShards then Recovered(content) else Failed) &&
    (r.Recovered? ==> (rewriteNeeded <==> exists i :: 0 <= i < codec.dataShards && !Good(codec, stored, shards, n, i)))
  }

  /** These are the parameters the contents were stored with. */
  ghost predicate Matching(codec: Codec, content: Bytes, stored: Bytes, chunkSize: nat, dataShards: nat,
                           parityShards: nat, shardSize: nat)
  {
    StoredFor(codec, content, stored) && chunkSize == |content| && dataShards == codec.dataShards &&
    parityShards == codec.parityShards && shardSize == ShardSize(|content|, codec.dataShards)
  }

  lemma StoredBanner(codec: Codec, content: Bytes, stored: Bytes)
    requires StoredFor(codec, content, stored)
    ensures |stored| > HashOffset && stored[..|BANNER|] == BANNER
  {
    assert stored[..HashOffset][..|BANNER|] == stored[..|BANNER|];
  }

  /** Put the contents together from the shards that are good. */
  method Recover(codec: Codec, stored: Bytes, chunkSize: nat, dataShards: nat, parityShards: nat, shardSize: nat,
                 ghost content: Bytes)
    returns (r: Outcome, rewriteNeeded: bool)
    requires dataShards > 0 && DataOffset(dataShards + parityShards) + Place(shardSize, dataShards) < |stored|
    ensures Matching(codec, content, stored, chunkSize, dataShards, parityShards, shardSize) ==>
      Decoded(codec, content, stored, r, rewriteNeeded)
    ensures r.Failed? <==>
      GoodShards(codec, stored, dataShards + parityShards, shardSize, dataShards + parityShards) < dataShards
    ensures !r.NotEncoded?
  {
    ghost var matching := Matching(codec, content, stored, chunkSize, dataShards, parityShards, shardSize);
    var dataOffset := DataOffset(dataShards + parityShards);
    var data, availableShards, recoveryNeeded := CollectShards(codec, stored, dataShards, parityShards, shardSize);
    if !recoveryNeeded {
      AllGood(codec, stored, |data|, shardSize, dataShards);
      GoodGrows(codec, stored, |data|, shardSize, dataShards, |data|);
      if matching { AllDataGood(codec, content, stored); }
      if dataOffset + chunkSize > |stored| { return Panicked, false; }
      return Recovered(stored[dataOffset..dataOffset + chunkSize]), false;
    }
    if availableShards < dataShards { return Failed, true; }
    if matching { EnoughAvailable(codec, content, stored, data); }
    var word := codec.reconstruct(data);
    if |word| < dataShards || |Flatten(word[..dataShards])| < chunkSize { return Panicked, true; }
    return Recovered(Flatten(word[..dataShards])[..chunkSize]), true;
  }

  /** Enough of the slices of this length that are taken for shards have the hashes stored for them. */
  ghost predicate Enough(codec: Codec, stored: Bytes, n: nat) {
    |stored| > DataOffset(codec.Shards()) + Place(n, codec.dataShards) &&
    GoodShards(codec, stored, codec.Shards(), n, codec.Shards()) >= codec.dataShards
  }

  /** For this the slice of some shard must have its hash. */
  lemma {:induction false} NoneGood(codec: Codec, stored: Bytes, shards: nat, n: nat, i: nat)
    requires DataOffset(shards) <= |stored| && i <= shards
    requires forall k :: 0 <= k < i ==> !Good(codec, stored, shards, n, k)
    ensures GoodShards(codec, stored, shards, n, i) == 0
  {
    if i > 0 { NoneGood(codec, stored, shards, n, i - 1); }
  }

  /**
   Read a chunk back; `configDataShards` is the number of data shards the storage is configured with, from which the
   size of the shards is computed.  If it gives the size the chunk was stored with, the contents come back exactly when
   enough shards are good, and wrong contents never do. With any other size the read fails, unless enough slices of that
   size have the hashes of shards by chance; and with none configured, it ends in a panic.  A file that is not marked is
   not decoded, and one with a broken header fails.
   */
  method Decode(codec: Codec, configDataShards: nat, stored: Bytes, ghost content: Bytes)
    returns (r: Outcome, rewriteNeeded: bool)
    ensures StoredFor(codec, content, stored) && configDataShards > 0 ==>
      var n, n' := ShardSize(|content|, codec.dataShards), ShardSize(|content|, configDataShards);
      (n' == n ==> Decoded(codec, content, stored, r, rewriteNeeded)) &&
      (r == Failed <==> !Enough(codec, stored, n')) &&
      ((forall i :: 0 <= i < codec.Shards() ==> !Good(codec, stored, codec.Shards(), n', i)) ==> r == Failed)
    ensures !HeaderBroken(stored) && Marked(stored) && configDataShards == 0 ==> r == Panicked
    ensures r.NotEncoded? <==> !Marked(stored)
    ensures HeaderBroken(stored) ==> r == Failed
    ensures StoredFor(codec, content, stored) ==> Marked(stored) && !HeaderBroken(stored)
  {
    if StoredFor(codec, content, stored) { StoredBanner(codec, content, stored); }
    if |stored| <= |BANNER| || stored[..|BANNER|] != BANNER { return NotEncoded, false; }
    if |stored| < |BANNER| + HeaderLength { return Failed, false; }
    var ok, chunkSize, dataShards, parityShards := ReadHeader(stored, codec, content);
    if !ok { return Failed, false; }
    if configDataShards == 0 { return Panicked, false; }
    var shardSize := ShardSize(chunkSize, configDataShards);
    var minimumLength := MinimumLength(dataShards, parityShards, shardSize);
    if |stored| <= minimumLength { return Failed, false; }
    if dataShards == 0 {
      var dataOffset := DataOffset(parityShards);
      if dataOffset + chunkSize > |stored| { return Panicked, false; }
      return Recovered(stored[dataOffset..dataOffset + chunkSize]), false;
    }
    r, rewriteNeeded := Recover(codec, stored, chunkSize, dataShards, parityShards, shardSize, content);
    if StoredFor(codec, content, stored) &&
       forall i :: 0 <= i < codec.Shards() ==> !Good(codec, stored, codec.Shards(), shardSize, i)
    {
      NoneGood(codec, stored, codec.Shards(), shardSize, codec.Shards());
    }
  }

  /** Up to this length there is nothing to recover from. */
  function MinimumLength(dataShards: nat, parityShards: nat, shardSize: nat): (n: nat)
    ensures n == DataOffset(dataShards + parityShards) + Place(shardSize, dataShards)
  {
    PlaceIs(HashLength, dataShards + parityShards);
    PlaceIs(shardSize, dataShards);
    |BANNER| + HeaderLength + (dataShards + parityShards) * HashLength + dataShards * shardSize
  }

  /** The contents are what the data shards begin with. */
  lemma ContentOfShards(content: Bytes, dataShards: nat)
    requires dataShards > 0
    ensures var n := ShardSize(|content|, dataShards);
      Equal(DataShards(content, dataShards), dataShards, n) &&
      |Flatten(DataShards(content, dataShards))| == Place(n, dataShards) >= |content| &&
      Flatten(DataShards(content, dataShards))[..|content|] == content
  {
    SplitShards(Filled(content, dataShards), ShardSize(|content|, dataShards), dataShards);
  }

  lemma GoodDataShard(codec: Codec, content: Bytes, stored: Bytes, i: nat)
    requires StoredFor(codec, content, stored) && i < codec.dataShards
    requires Good(codec, stored, codec.Shards(), ShardSize(|content|, codec.dataShards), i)
    ensures |DataShards(content, codec.dataShards)| == codec.dataShards
    ensures ShardAt(stored, codec.Shards(), ShardSize(|content|, codec.dataShards), i) ==
            DataShards(content, codec.dataShards)[i]
  {
    ContentOfShards(content, codec.dataShards);
  }

  lemma ContentLies(stored: Bytes, offset: nat, n: nat, data: Bytes, content: Bytes)
    requires offset + n <= |stored| && stored[offset..offset + n] == data && |content| <= |data|
    requires data[..|content|] == content
    ensures offset + |content| <= |stored| && stored[offset..offset + |content|] == content
  {
    assert stored[offset..offset + n][..|content|] == stored[offset..offset + |content|];
  }

  /** One more shard in front. */
  lemma NextLies(stored: Bytes, j: nat, k: nat, l: nat, shards: seq<Bytes>, i: nat)
    requires j <= k <= l <= |stored| && i < |shards|
    requires stored[j..k] == shards[i] && stored[k..l] == Flatten(shards[i + 1..])
    ensures stored[j..l] == Flatten(shards[i..])
  {
    JoinSlices(stored, j, k, l);
    assert shards[i..][0] == shards[i] && shards[i..][1..] == shards[i + 1..];
  }

  /** The data shards lie one behind the other. */
  lemma {:induction false} DataLies(codec: Codec, content: Bytes, stored: Bytes, n: nat, i: nat)
    requires StoredFor(codec, content, stored) && n == ShardSize(|content|, codec.dataShards) && i <= codec.dataShards
    requires forall k :: 0 <= k < codec.dataShards ==> Good(codec, stored, codec.Shards(), n, k)
    ensures |DataShards(content, codec.dataShards)| == codec.dataShards
    ensures Place(n, i) <= Place(n, codec.dataShards)
    ensures DataOffset(codec.Shards()) + Place(n, codec.dataShards) <= |stored|
    ensures stored[DataOffset(codec.Shards()) + Place(n, i)..DataOffset(codec.Shards()) + Place(n, codec.dataShards)] ==
            Flatten(DataShards(content, codec.dataShards)[i..])
    decreases codec.dataShards - i
  {
    var shards, offset := DataShards(content, codec.dataShards), DataOffset(codec.Shards());
    ContentOfShards(content, codec.dataShards);
    if i < codec.dataShards {
      DataLies(codec, content, stored, n, i + 1);
      GoodDataShard(codec, content, stored, i);
      NextLies(stored, offset + Place(n, i), offset + Place(n, i + 1), offset + Place(n, codec.dataShards), shards, i);
    } else {
      assert shards[i..] == [];
    }
  }

  lemma JoinSlices(b: Bytes, i: nat, j: nat, k: nat)
    requires i <= j <= k <= |b|
    ensures b[i..k] == b[i..j] + b[j..k]
  {
  }

  /** If no data shard is damaged, the contents lie behind the hashes. */
  lemma AllDataGood(codec: Codec, content: Bytes, stored: Bytes)
    requires StoredFor(codec, content, stored)
    requires forall i :: 0 <= i < codec.dataShards ==>
      Good(codec, stored, codec.Shards(), ShardSize(|content|, codec.dataShards), i)
    ensures DataOffset(codec.Shards()) + |content| <= |stored|
    ensures stored[DataOffset(codec.Shards())..DataOffset(codec.Shards()) + |content|] == content
    ensures codec.dataShards <=
            GoodShards(codec, stored, codec.Shards(), ShardSize(|content|, codec.dataShards), codec.Shards())
  {
    var n, count := ShardSize(|content|, codec.dataShards), codec.dataShards;
    DataLies(codec, content, stored, n, 0);
    assert DataShards(content, count)[0..] == DataShards(content, count);
    ContentOfShards(content, count);
    ContentLies(stored, DataOffset(codec.Shards()), Place(n, count), Flatten(DataShards(content, count)), content);
    AllGood(codec, stored, codec.Shards(), n, count);
    GoodGrows(codec, stored, codec.Shards(), n, count, codec.Shards());
  }

  lemma {:induction false} AllGood(codec: Codec, stored: Bytes, shards: nat, n: nat, count: nat)
    requires DataOffset(shards) <= |stored| && count <= shards
    requires forall i :: 0 <= i < count ==> Good(codec, stored, shards, n, i)
    ensures GoodShards(codec, stored, shards, n, count) == count
  {
    if count > 0 { AllGood(codec, stored, shards, n, count - 1); }
  }

  /** If no more shards are damaged than there are parity shards, enough are good. */
  lemma {:induction false} FewDamaged(codec: Codec, stored: Bytes, shards: nat, n: nat, i: nat, damaged: set<nat>)
    requires DataOffset(shards) <= |stored| && i <= shards
    requires forall k :: 0 <= k < i && k !in damaged ==> Good(codec, stored, shards, n, k)
    ensures GoodShards(codec, stored, shards, n, i) + |damaged| >= i
  {
    if i > 0 {
      if i - 1 in damaged {
        FewDamaged(codec, stored, shards, n, i - 1, damaged - {i - 1});
      } else {
        FewDamaged(codec, stored, shards, n, i - 1, damaged);
      }
    }
  }

  /** With enough good shards the others are restored. */
  lemma EnoughAvailable(codec: Codec, content: Bytes, stored: Bytes, data: seq<Option<Bytes>>)
    requires StoredFor(codec, content, stored) && |data| == codec.Shards()
    requires Available(data, |data|) >= codec.dataShards
    requires var n := ShardSize(|content|, codec.dataShards);
      forall i :: 0 <= i < |data| && data[i].Some? ==>
        Good(codec, stored, |data|, n, i) && data[i].value == ShardAt(stored, |data|, n, i)
    ensures var word := codec.reconstruct(data);
      |word| >= codec.dataShards && |Flatten(word[..codec.dataShards])| >= |content| &&
      Flatten(word[..codec.dataShards])[..|content|] == content
  {
    var shards := DataShards(content, codec.dataShards);
    ContentOfShards(content, codec.dataShards);
    assert Equal(codec.parity(shards), codec.parityShards, ShardSize(|content|, codec.dataShards));
    assert SomeOf(data, codec.Word(shards));
    assert codec.Word(shards)[..codec.dataShards] == shards;
  }

  // ------------------------------------------------------------------ what is stored undamaged

  /** Everything between the headers. */
  lemma StoredParts(front: Bytes, hashes: seq<Bytes>, word: seq<Bytes>, back: Bytes, n: nat, i: nat)
    requires Equal(hashes, |word|, HashLength) && Equal(word, |word|, n) && |front| == HashOffset && i < |word|
    ensures var stored := front + Flatten(hashes) + Flatten(word) + back;
      Complete(stored, |word|, n, i) && ShardAt(stored, |word|, n, i) == word[i] &&
      HashAt(stored, |word|, i) == hashes[i]
  {
    FlattenAt(hashes, HashLength, i);
    FlattenAt(word, n, i);
    InParts(front, Flatten(hashes), Flatten(word), back, Place(HashLength, i), HashLength, Place(n, i), n);
  }

  lemma InParts(a: Bytes, b: Bytes, c: Bytes, d: Bytes, i: nat, m: nat, j: nat, n: nat)
    requires i + m <= |b| && j + n <= |c|
    ensures (a + b + c + d)[|a| + i..|a| + i + m] == b[i..i + m]
    ensures (a + b + c + d)[|a| + |b| + j..|a| + |b| + j + n] == c[j..j + n]
  {
    Within(a, b, c + d, i, m);
    assert a + b + c + d == a + b + (c + d);
    Within(a + b, c, d, j, n);
  }

  /** What has just been stored can be read back: every shard is good. */
  lemma StoredIsStored(codec: Codec, content: Bytes)
    requires codec.Valid() && |content| < Power256(8)
    ensures StoredFor(codec, content, Stored(codec, content))
    ensures forall i :: 0 <= i < codec.Shards() ==>
      Good(codec, Stored(codec, content), codec.Shards(), ShardSize(|content|, codec.dataShards), i)
  {
    var n, shards := ShardSize(|content|, codec.dataShards), DataShards(content, codec.dataShards);
    ContentOfShards(content, codec.dataShards);
    var word, header := codec.Word(shards), Header(|content|, codec.dataShards, codec.parityShards);
    assert Equal(codec.parity(shards), codec.parityShards, n);
    assert Equal(word, codec.Shards(), n);
    var hashes := Hashes(codec, word);
    StoredFront(BANNER + header, hashes, word, header, n, codec.dataShards);
    forall i | 0 <= i < codec.Shards()
      ensures Good(codec, Stored(codec, content), codec.Shards(), n, i)
      ensures ShardAt(Stored(codec, content), codec.Shards(), n, i) == word[i]
    {
      StoredParts(BANNER + header, hashes, word, header, n, i);
    }
  }

  lemma StoredFront(front: Bytes, hashes: seq<Bytes>, word: seq<Bytes>, back: Bytes, n: nat, dataShards: nat)
    requires Equal(hashes, |word|, HashLength) && Equal(word, |word|, n) && |front| == HashOffset
    requires dataShards <= |word| && |back| > 0
    ensures var stored := front + Flatten(hashes) + Flatten(word) + back;
      |stored| > DataOffset(|word|) + Place(n, dataShards) && stored[..HashOffset] == front
  {
    FlattenAt(hashes, HashLength, 0);
    FlattenAt(word, n, 0);
    Ahead(n, dataShards, |word|);
  }

  /**
   What is stored, byte by byte: the marked header, 32 bytes for the hash of each shard, the shards, and the header.
   */
  lemma StoredLayout(codec: Codec, content: Bytes)
    requires codec.Valid() && |content| < Power256(8)
    ensures var stored, n, shards := Stored(codec, content), ShardSize(|content|, codec.dataShards), codec.Shards();
      var word := codec.Word(DataShards(content, codec.dataShards));
      |stored| == 38 + shards * 32 + shards * n && |word| == shards && Marked(stored) && !HeaderBroken(stored) &&
      stored[|stored| - 14..] == stored[10..24] &&
      forall i :: 0 <= i < shards ==> LaidOut(codec, stored, shards, n, word[i], i)
  {
    var n, shards := ShardSize(|content|, codec.dataShards), DataShards(content, codec.dataShards);
    ContentOfShards(content, codec.dataShards);
    var word, header := codec.Word(shards), Header(|content|, codec.dataShards, codec.parityShards);
    assert Equal(codec.parity(shards), codec.parityShards, n);
    var hashes := Hashes(codec, word);
    StoredIsStored(codec, content);
    StoredBanner(codec, content, Stored(codec, content));
    HeaderLies(BANNER, header, Flatten(hashes), Flatten(word));
    FlattenAt(hashes, HashLength, 0);
    FlattenAt(word, n, 0);
    PlaceIs(HashLength, |word|);
    PlaceIs(n, |word|);
    forall i | 0 <= i < |word| ensures LaidOut(codec, Stored(codec, content), |word|, n, word[i], i) {
      ShardLies(codec, BANNER + header, hashes, word, header, n, i);
    }
  }

  lemma ShardLies(codec: Codec, front: Bytes, hashes: seq<Bytes>, word: seq<Bytes>, back: Bytes, n: nat, i: nat)
    requires Equal(hashes, |word|, HashLength) && Equal(word, |word|, n) && |front| == HashOffset && i < |word|
    requires hashes[i] == codec.hash(word[i])
    ensures LaidOut(codec, front + Flatten(hashes) + Flatten(word) + back, |word|, n, word[i], i)
  {
    StoredParts(front, hashes, word, back, n, i);
    LiesThere(codec, front + Flatten(hashes) + Flatten(word) + back, |word|, n, word[i], i);
  }

  lemma LiesThere(codec: Codec, stored: Bytes, shards: nat, n: nat, shard: Bytes, i: nat)
    requires i < shards && Complete(stored, shards, n, i)
    requires ShardAt(stored, shards, n, i) == shard && HashAt(stored, shards, i) == codec.hash(shard)
    ensures LaidOut(codec, stored, shards, n, shard, i)
  {
    PlaceIs(HashLength, i);
    PlaceIs(HashLength, i + 1);
    PlaceIs(HashLength, shards);
    PlaceIs(n, i);
    Ahead(HashLength, i + 1, shards);
  }

  /** The data shards are the contents, filled up with zeros. */
  lemma ZerosFollow(content: Bytes, dataShards: nat)
    requires dataShards > 0
    ensures var data := Flatten(DataShards(content, dataShards));
      |content| <= |data| && data[..|content|] == content && forall i :: |content| <= i < |data| ==> data[i] == 0
  {
    ContentOfShards(content, dataShards);
    SplitShards(Filled(content, dataShards), ShardSize(|content|, dataShards), dataShards);
  }

  ghost predicate LaidOut(codec: Codec, stored: Bytes, shards: nat, n: nat, shard: Bytes, i: nat) {
    24 + 32 * i + 32 <= |stored| && stored[24 + 32 * i..24 + 32 * i + 32] == codec.hash(shard) &&
    24 + 32 * shards + n * i + n <= |stored| && stored[24 + 32 * shards + n * i..24 + 32 * shards + n * i + n] == shard
  }

  lemma HeaderLies(banner: Bytes, header: Bytes, hashes: Bytes, word: Bytes)
    requires |banner| == 10 && |header| == 14
    ensures var stored := banner + header + hashes + word + header;
      stored[..10] == banner && stored[10..24] == header && stored[|stored| - 14..] == header
  {
  }

  lemma Within(a: Bytes, b: Bytes, c: Bytes, k: nat, n: nat)
    requires k + n <= |b|
    ensures (a + b + c)[|a| + k..|a| + k + n] == b[k..k + n]
  {
  }

  /** Store a chunk and read it back, damaged or not. */
  method RoundTrip(codec: Codec, content: Bytes) returns (r: Outcome)
    requires codec.Valid() && |content| < Power256(8)
    ensures r == Recovered(content)
  {
    var stored := Encode(codec, content);
    StoredIsStored(codec, content);
    AllGood(codec, stored, codec.Shards(), ShardSize(|content|, codec.dataShards), codec.Shards());
    var outcome, _ := Decode(codec, codec.dataShards, stored, content);
    r := outcome;
  }
}
