/** The rolling hash of the chunk maker, on 64-bit words written as their bits. */
module Buzhash {

  type Byte = b: nat | b < 256

  /** An unsigned 64-bit word as its bits, least significant first. */
  datatype Bits = Bits(at: seq<bool>)

  type Word = w: Bits | |w.at| == 64 witness Bits(seq(64, _ => false))

  function Zero(): Word { Bits(seq(64, _ => false)) }

  /** The random table of the hash: one word per byte value. */
  type Table = t: seq<Word> | |t| == 256 witness seq(256, _ => Zero())

  function ShiftLeft(w: Word, k: nat): Word { Bits(seq(64, i requires 0 <= i < 64 => i >= k && w.at[i - k])) }

  function ShiftRight(w: Word, k: nat): Word { Bits(seq(64, i requires 0 <= i < 64 => i + k < 64 && w.at[i + k])) }

  function Or(v: Word, w: Word): Word { Bits(seq(64, i requires 0 <= i < 64 => v.at[i] || w.at[i])) }

  function And(v: Word, w: Word): Word { Bits(seq(64, i requires 0 <= i < 64 => v.at[i] && w.at[i])) }

  function Xor(v: Word, w: Word): Word { Bits(seq(64, i requires 0 <= i < 64 => v.at[i] != w.at[i])) }

  predicate Same(v: Word, w: Word) { forall i :: 0 <= i < 64 ==> v.at[i] == w.at[i] }

  lemma SameIsEqual(v: Word, w: Word)
    requires Same(v, w)
    ensures v == w
  {
    assert v.at == w.at;
  }

  function RotateLeft(value: Word, bits: nat): Word {
    Or(ShiftLeft(value, bits % 64), ShiftRight(value, 64 - bits % 64))
  }

  function RotateLeftByOne(value: Word): Word { Or(ShiftLeft(value, 1), ShiftRight(value, 63)) }

  function Sum(table: Table, sum: Word, data: seq<Byte>): Word {
    if data == [] then sum
    else Xor(RotateLeftByOne(Sum(table, sum, data[..|data| - 1])), table[data[|data| - 1]])
  }

  function Update(table: Table, sum: Word, out: Byte, incoming: Byte, length: nat): Word {
    Xor(Xor(RotateLeftByOne(sum), RotateLeft(table[out], length)), table[incoming])
  }

  method BuzhashSum(table: Table, sum: Word, data: seq<Byte>) returns (r: Word)
    ensures r == Sum(table, sum, data)
  {
    r := sum;
    for i := 0 to |data|
      invariant r == Sum(table, sum, data[..i])
    {
      assert data[..i + 1][..i] == data[..i];
      r := Xor(RotateLeftByOne(r), table[data[i]]);
    }
    assert data[..|data|] == data;
  }

  // ------------------------------------------------------------------ rotations

  lemma RotateAt(w: Word, bits: nat, i: nat)
    requires i < 64
    ensures RotateLeft(w, bits).at[i] == w.at[(i - bits) % 64]
  {
    var k := bits % 64;
    assert (i - bits) % 64 == if i >= k then i - k else i - k + 64 by { assert bits == bits / 64 * 64 + k; }
  }

  lemma RotateNext(w: Word, bits: nat)
    ensures RotateLeftByOne(RotateLeft(w, bits)) == RotateLeft(w, bits + 1)
  {
    forall i | 0 <= i < 64 ensures RotateLeftByOne(RotateLeft(w, bits)).at[i] == RotateLeft(w, bits + 1).at[i] {
      var j := if i == 0 then 63 else i - 1;
      RotateAt(w, bits, j);
      RotateAt(w, bits + 1, i);
      assert (j - bits) % 64 == (i - 1 - bits) % 64;
    }
    SameIsEqual(RotateLeftByOne(RotateLeft(w, bits)), RotateLeft(w, bits + 1));
  }

  lemma RotateNothing(w: Word)
    ensures RotateLeft(w, 0) == w && RotateLeftByOne(Zero()) == Zero() && Xor(w, Zero()) == w && Xor(Zero(), w) == w
  {
    SameIsEqual(RotateLeft(w, 0), w);
    SameIsEqual(RotateLeftByOne(Zero()), Zero());
    SameIsEqual(Xor(w, Zero()), w);
    SameIsEqual(Xor(Zero(), w), w);
  }

  /** What the starting value contributes to a hash. */
  lemma {:induction false} SumSeed(table: Table, sum: Word, data: seq<Byte>)
    ensures Sum(table, sum, data) == Xor(RotateLeft(sum, |data|), Sum(table, Zero(), data))
  {
    if data == [] {
      RotateNothing(sum);
    } else {
      var front := data[..|data| - 1];
      SumSeed(table, sum, front);
      RotateNext(sum, |front|);
      Distributes(RotateLeft(sum, |front|), Sum(table, Zero(), front), table[data[|data| - 1]]);
    }
  }

  lemma Distributes(a: Word, b: Word, t: Word)
    ensures Xor(RotateLeftByOne(Xor(a, b)), t) == Xor(RotateLeftByOne(a), Xor(RotateLeftByOne(b), t))
  {
    SameIsEqual(Xor(RotateLeftByOne(Xor(a, b)), t), Xor(RotateLeftByOne(a), Xor(RotateLeftByOne(b), t)));
  }

  lemma {:induction false} SumAppend(table: Table, sum: Word, a: seq<Byte>, b: seq<Byte>)
    ensures Sum(table, sum, a + b) == Sum(table, Sum(table, sum, a), b)
  {
    if b == [] {
      assert a + b == a;
    } else {
      assert (a + b)[..|a + b| - 1] == a + b[..|b| - 1];
      SumAppend(table, sum, a, b[..|b| - 1]);
    }
  }

  /** The byte that leaves the window cancels. */
  lemma Cancel(s: Word, t: Word, u: Word)
    ensures Xor(Xor(RotateLeftByOne(Xor(t, s)), RotateLeftByOne(t)), u) == Xor(RotateLeftByOne(s), u)
  {
    SameIsEqual(Xor(Xor(RotateLeftByOne(Xor(t, s)), RotateLeftByOne(t)), u), Xor(RotateLeftByOne(s), u));
  }

  /** Sliding a window of any length by one byte: the update equals the hash computed from nothing. */
  lemma Roll(table: Table, window: seq<Byte>, incoming: Byte)
    requires window != []
    ensures Update(table, Sum(table, Zero(), window), window[0], incoming, |window|) ==
            Sum(table, Zero(), window[1..] + [incoming])
  {
    var first, rest := window[0], window[1..];
    var s, t := Sum(table, Zero(), rest), RotateLeft(table[first], |rest|);
    assert window == [first] + rest;
    SumAppend(table, Zero(), [first], rest);
    OneByte(table, first);
    SumSeed(table, table[first], rest);
    RotateNext(table[first], |rest|);
    assert (rest + [incoming])[..|rest|] == rest;
    Cancel(s, t, table[incoming]);
  }

  lemma OneByte(table: Table, b: Byte)
    ensures Sum(table, Zero(), [b]) == table[b]
  {
    assert [b][..0] == [];
    RotateNothing(table[b]);
  }
}
