/** NACK words: the packet identifier and the bitmap of following lost packets,
    and which missing numbers a word requests. */
module NackWords {
  import opened Basics
  import opened JitterNodes

  const RENACK_TIME := 100000

  /** The byte swap of htons and ntohs on a little-endian machine. */
  function Swap16(x: U16): U16 { x % 256 * 256 + x / 256 }

  lemma SwapTwice(x: U16)
    ensures Swap16(Swap16(x)) == x
    ensures Swap16(x) == 0 <==> x == 0
  {
  }

  /** Whether bit i of n is set. */
  predicate BitAt(n: nat, i: nat) { if i == 0 then n % 2 == 1 else BitAt(n / 2, i - 1) }

  /** n with bit i set. */
  function SetBit(n: nat, i: nat): nat { if BitAt(n, i) then n else n + Pow2(i) }

  /** The number whose bits, the lowest first, are given. */
  ghost function FromBits(bits: seq<bool>): nat {
    if bits == [] then 0 else (if bits[0] then 1 else 0) + 2 * FromBits(bits[1..])
  }

  lemma {:induction false} BitsOf(bits: seq<bool>, i: nat)
    ensures BitAt(FromBits(bits), i) == (i < |bits| && bits[i])
  {
    if bits == [] {
      ZeroBits(i);
    } else if i > 0 {
      BitsOf(bits[1..], i - 1);
      assert FromBits(bits) / 2 == FromBits(bits[1..]);
    }
  }

  lemma {:induction false} ZeroBits(i: nat)
    ensures !BitAt(0, i)
  {
    if i > 0 { ZeroBits(i - 1); }
  }

  lemma {:induction false} FromBitsAppend(bits: seq<bool>, b: bool)
    ensures FromBits(bits + [b]) == FromBits(bits) + (if b then Pow2(|bits|) else 0)
  {
    if bits == [] {
      assert [] + [b] == [b];
      assert FromBits([b]) == (if b then 1 else 0) + 2 * FromBits([b][1..]);
    } else {
      FromBitsAppend(bits[1..], b);
      assert (bits + [b])[1..] == bits[1..] + [b];
    }
  }

  lemma {:induction false} FromBitsBound(bits: seq<bool>)
    ensures FromBits(bits) < Pow2(|bits|)
  {
    if bits != [] { FromBitsBound(bits[1..]); }
  }

  /** Setting the next bit up appends a one. */
  lemma SetNextBit(bits: seq<bool>)
    ensures SetBit(FromBits(bits), |bits|) == FromBits(bits + [true])
    ensures FromBits(bits) == FromBits(bits + [false])
  {
    BitsOf(bits, |bits|);
    FromBitsAppend(bits, true);
    FromBitsAppend(bits, false);
  }

  /** The i-th number after least, modulo 2^16. */
  function Following(least: U16, i: nat): U16 { (least + i + 1) % 0x1_0000 }

  /** Which of the sixteen numbers after least are missing. */
  ghost function LostBits(keys: set<U16>, least: U16, n: nat): (r: seq<bool>)
    ensures |r| == n
  {
    seq(n, i requires 0 <= i => Following(least, i) in keys)
  }

  /** The word that asks for least and whatever of the next sixteen is missing. */
  ghost function Word(keys: set<U16>, least: U16): nat {
    BlpBound(keys, least);
    Swap16(least) + 0x1_0000 * Swap16(FromBits(LostBits(keys, least, 16)))
  }

  lemma BlpBound(keys: set<U16>, least: U16)
    ensures FromBits(LostBits(keys, least, 16)) < 0x1_0000
  {
    FromBitsBound(LostBits(keys, least, 16));
    assert Pow2(4) == 16 && Pow2(8) == 0x100 && Pow2(12) == 0x1000;
    assert Pow2(16) == 0x1_0000;
  }

  function Pid(word: nat): U16 { Swap16(word % 0x1_0000) }

  function Blp(word: nat): U16 { Swap16(word / 0x1_0000 % 0x1_0000) }

  /** The numbers the receiver of a word looks up. */
  ghost function Asked(word: nat): set<U16> {
    {Pid(word)} + AskedAfter(Pid(word), Blp(word), 16)
  }

  ghost function AskedAfter(least: U16, blp: nat, n: nat): set<U16> {
    if n == 0 then {}
    else AskedAfter(least, blp, n - 1) + if BitAt(blp, n - 1) then {Following(least, n - 1)} else {}
  }

  /** The numbers the sender of a word for least means to request. */
  ghost predicate Requests(keys: set<U16>, least: U16, k: U16) {
    k == least || (k in keys && exists i :: 0 <= i < 16 && k == Following(least, i))
  }

  /** The word says exactly what it was meant to. */
  lemma WordRoundTrip(keys: set<U16>, least: U16)
    ensures Pid(Word(keys, least)) == least
    ensures forall k :: k in Asked(Word(keys, least)) <==> Requests(keys, least, k)
  {
    WordParts(keys, least);
    AskedBits(keys, least, 16);
  }

  lemma WordParts(keys: set<U16>, least: U16)
    ensures Pid(Word(keys, least)) == least && Blp(Word(keys, least)) == FromBits(LostBits(keys, least, 16))
    ensures Word(keys, least) < 0x1_0000_0000 && (Word(keys, least) == 0 ==> least == 0)
  {
    hide Swap16, FromBits, LostBits;
    BlpBound(keys, least);
    var blp := FromBits(LostBits(keys, least, 16));
    SwapTwice(least);
    SwapTwice(blp);
    Halves(Swap16(least), Swap16(blp));
  }

  lemma Halves(lo: U16, hi: U16)
    ensures (lo + 0x1_0000 * hi) % 0x1_0000 == lo && (lo + 0x1_0000 * hi) / 0x1_0000 == hi
  {
  }

  lemma {:induction false} AskedBits(keys: set<U16>, least: U16, n: nat)
    requires n <= 16
    ensures forall k :: k in AskedAfter(least, FromBits(LostBits(keys, least, 16)), n) <==>
      k in keys && exists i :: 0 <= i < n && k == Following(least, i)
  {
    if n > 0 {
      var bits := LostBits(keys, least, 16);
      AskedBits(keys, least, n - 1);
      BitsOf(bits, n - 1);
      var blp, last := FromBits(bits), Following(least, n - 1);
      forall k
        ensures k in AskedAfter(least, blp, n) <==> k in keys && exists i :: 0 <= i < n && k == Following(least, i)
      {
        if k == last {
          assert k in keys ==> bits[n - 1];
        }
      }
    }
  }
}
