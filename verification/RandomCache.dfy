/** The growing cache of random bytes behind BufferContentsHelper::fillWithRandomBytes. */
module RandomCache {
  import opened Basics
  import opened LinearIndex

  /** Little-endian bytes of a 64-bit word. */
  function WordBytes(word: nat, n: nat): (s: seq<Byte>)
    ensures |s| == n
  {
    if n == 0 then [] else [(word % 256) as Byte] + WordBytes(word / 256, n - 1)
  }

  /** The first n words of the generator's output, as bytes. */
  function Stream(words: nat -> nat, n: nat): (s: seq<Byte>)
    ensures |s| == 8 * n
  {
    if n == 0 then [] else Stream(words, n - 1) + WordBytes(words(n - 1), 8)
  }

  /** The number whose base-256 digits, least significant first, are these bytes. */
  function LittleEndian(s: seq<Byte>): nat {
    if s == [] then 0 else s[0] as nat + 256 * LittleEndian(s[1..])
  }

  /** Every complete eight bytes of s are the word of their position, modulo 2^64. */
  ghost predicate HoldsWords(words: nat -> nat, s: seq<Byte>) {
    forall i: nat | 8 * i + 8 <= |s| :: LittleEndian(s[8 * i..8 * i + 8]) == words(i) % 0x1_0000_0000_0000_0000
  }

  function Pow256(n: nat): (p: nat)
    ensures p > 0
  {
    if n == 0 then 1 else 256 * Pow256(n - 1)
  }

  lemma {:induction false} WordBytesValue(word: nat, n: nat)
    ensures LittleEndian(WordBytes(word, n)) == word % Pow256(n)
  {
    if n > 0 {
      var p := Pow256(n - 1);
      WordBytesValue(word / 256, n - 1);
      assert WordBytes(word, n)[1..] == WordBytes(word / 256, n - 1);
      var q, r := word / 256 / p, word / 256 % p;
      assert word / 256 == q * p + r;
      assert q * p * 256 == q * (256 * p);
      assert word == q * (256 * p) + (256 * r + word % 256);
      DivModUnique(q, 256 * p, 256 * r + word % 256);
    }
  }

  lemma {:induction false} EightBytes(word: nat)
    ensures LittleEndian(WordBytes(word, 8)) == word % 0x1_0000_0000_0000_0000
  {
    WordBytesValue(word, 8);
    assert Pow256(4) == 0x1_0000_0000 by {
      assert Pow256(1) == 256 && Pow256(2) == 0x1_0000 && Pow256(3) == 0x100_0000;
    }
    assert Pow256(8) == 0x1_0000_0000_0000_0000 by {
      assert Pow256(5) == 0x100_0000_0000 && Pow256(6) == 0x1_0000_0000_0000 && Pow256(7) == 0x100_0000_0000_0000;
    }
  }

  /** The generator's words, in order. */
  lemma {:induction false} StreamHoldsWords(words: nat -> nat, n: nat)
    ensures HoldsWords(words, Stream(words, n))
  {
    hide WordBytes, LittleEndian;
    if n > 0 {
      StreamHoldsWords(words, n - 1);
      EightBytes(words(n - 1));
      var s, front := Stream(words, n), Stream(words, n - 1);
      forall i: nat | 8 * i + 8 <= |s|
        ensures LittleEndian(s[8 * i..8 * i + 8]) == words(i) % 0x1_0000_0000_0000_0000
      {
        if i < n - 1 {
          assert s[8 * i..8 * i + 8] == front[8 * i..8 * i + 8];
        } else {
          assert s[8 * i..8 * i + 8] == WordBytes(words(n - 1), 8);
        }
      }
    }
  }

  lemma {:induction false} PrefixHoldsWords(words: nat -> nat, s: seq<Byte>, n: nat)
    requires n <= |s| && HoldsWords(words, s)
    ensures HoldsWords(words, s[..n])
  {
    hide LittleEndian;
    forall i: nat | 8 * i + 8 <= n
      ensures LittleEndian(s[..n][8 * i..8 * i + 8]) == words(i) % 0x1_0000_0000_0000_0000
    {
      assert s[..n][8 * i..8 * i + 8] == s[8 * i..8 * i + 8];
    }
  }

  lemma {:induction false} StreamGrows(words: nat -> nat, n: nat, m: nat)
    requires n <= m
    ensures Stream(words, n) <= Stream(words, m)
  {
    if n < m {
      StreamGrows(words, n, m - 1);
    }
  }

  function CeilDiv8(size: nat): nat {
    (size + 7) / 8
  }

  function Max(a: nat, b: nat): nat {
    if a < b then b else a
  }

  /** Words drawn after filling buffers of these sizes, starting from a cache of `drawn` words. */
  function DrawnAfter(drawn: nat, sizes: seq<nat>): nat {
    if sizes == [] then drawn else Max(DrawnAfter(drawn, sizes[..|sizes| - 1]), CeilDiv8(sizes[|sizes| - 1]))
  }

  class Cache {
    const words: nat -> nat
    var cachedRandomData: seq<Byte>
    ghost var drawn: nat

    /** The cache is exactly the output of the words drawn so far; in particular its length is a
        multiple of 8. */
    ghost predicate Valid()
      reads this
    {
      cachedRandomData == Stream(words, drawn)
    }

    constructor (generator: nat -> nat)
      ensures Valid() && drawn == 0 && words == generator
    {
      words, cachedRandomData, drawn := generator, [], 0;
    }

    /** The loop counter is a uint32, so the loop ends only if fewer than 2^32 words are missing. */
    method FillWithRandomBytes(buffer: array<Byte>, size: nat)
      requires Valid() && size <= buffer.Length && CeilDiv8(size) - |cachedRandomData| / 8 < TWO_32
      modifies this, buffer
      ensures Valid() && drawn == Max(old(drawn), CeilDiv8(size))
      ensures old(cachedRandomData) <= cachedRandomData
      ensures size <= |cachedRandomData| && buffer[..size] == cachedRandomData[..size]
              && buffer[size..] == old(buffer[size..])
      ensures |cachedRandomData| == 8 * drawn && HoldsWords(words, cachedRandomData)
      ensures HoldsWords(words, buffer[..size])
    {
      hide Stream, WordBytes, HoldsWords;
      var alignedSize := (size + (8 - 1)) / 8 * 8;
      var oldSize := |cachedRandomData|;
      if alignedSize > oldSize {
        Grow((alignedSize - oldSize) / 8);
      }
      forall k | 0 <= k < size {
        buffer[k] := cachedRandomData[k];
      }
      StreamHoldsWords(words, drawn);
      PrefixHoldsWords(words, cachedRandomData, size);
    }

    /** A sequence of fills on a fresh cache: fill k leaves Filled(k) in its buffer, exactly the words
        of DrawnAfter are drawn, and the cache is their output. */
    method FillAll(buffers: seq<array<Byte>>, sizes: seq<nat>)
      requires Valid() && drawn == 0 && |buffers| == |sizes|
      requires forall k :: 0 <= k < |sizes| ==>
                 sizes[k] <= buffers[k].Length && CeilDiv8(sizes[k]) - DrawnAfter(0, sizes[..k]) < TWO_32
      requires forall j, k :: 0 <= j < k < |buffers| ==> buffers[j] != buffers[k]
      modifies this, buffers
      ensures Valid() && drawn == DrawnAfter(0, sizes) && cachedRandomData == Stream(words, drawn)
      ensures forall k :: 0 <= k < |sizes| ==> buffers[k][..sizes[k]] == Filled(words, sizes, k) <= cachedRandomData
      ensures HoldsWords(words, cachedRandomData)
      ensures forall k :: 0 <= k < |sizes| ==> HoldsWords(words, buffers[k][..sizes[k]])
    {
      hide Stream, WordBytes, CeilDiv8, HoldsWords, Max, DrawnAfter, Filled;
      var k := 0;
      FillStep(words, sizes, 0);
      while k < |buffers|
        invariant 0 <= k <= |buffers| && Valid() && drawn == DrawnAfter(0, sizes[..k])
        invariant forall j :: 0 <= j < k ==> buffers[j][..sizes[j]] == Filled(words, sizes, j)
      {
        FillStep(words, sizes, k);
        FillWithRandomBytes(buffers[k], sizes[k]);
        k := k + 1;
      }
      assert sizes[..k] == sizes;
      StreamHoldsWords(words, drawn);
      forall j | 0 <= j < |sizes|
        ensures Filled(words, sizes, j) <= cachedRandomData && HoldsWords(words, Filled(words, sizes, j))
      {
        FillsArePrefixes(words, sizes, j);
        PrefixHoldsWords(words, cachedRandomData, sizes[j]);
        assert Filled(words, sizes, j) == cachedRandomData[..sizes[j]];
      }
    }

    /** Appends the bytes of n more words. */
    method Grow(n: nat)
      requires Valid()
      modifies this
      ensures Valid() && drawn == old(drawn) + n && old(cachedRandomData) <= cachedRandomData
    {
      hide WordBytes;
      ghost var start := drawn;
      StreamGrows(words, start, start + n);
      var i := 0;
      while i < n
        invariant 0 <= i <= n && drawn == start + i && Valid()
      {
        cachedRandomData := cachedRandomData + WordBytes(words(|cachedRandomData| / 8), 8);
        drawn := drawn + 1;
        i := i + 1;
      }
    }
  }

  lemma {:induction false} DrawnGrows(drawn: nat, sizes: seq<nat>, k: nat)
    requires k <= |sizes|
    ensures DrawnAfter(drawn, sizes[..k]) <= DrawnAfter(drawn, sizes)
    ensures k < |sizes| ==> CeilDiv8(sizes[k]) <= DrawnAfter(drawn, sizes)
    decreases |sizes|
  {
    if k < |sizes| {
      var front := sizes[..|sizes| - 1];
      if k < |front| {
        DrawnGrows(drawn, front, k);
        assert front[..k] == sizes[..k];
      } else {
        assert sizes[..k] == front;
      }
    } else {
      assert sizes[..k] == sizes;
    }
  }

  /** What the k-th of a sequence of fills writes. */
  function Filled(words: nat -> nat, sizes: seq<nat>, k: nat): (s: seq<Byte>)
    requires k < |sizes|
  {
    var n := DrawnAfter(0, sizes[..k + 1]);
    if sizes[k] <= 8 * n then Stream(words, n)[..sizes[k]] else []
  }

  lemma {:induction false} FillStep(words: nat -> nat, sizes: seq<nat>, k: nat)
    requires k <= |sizes|
    ensures DrawnAfter(0, sizes[..0]) == 0
    ensures k < |sizes| ==>
              var n := DrawnAfter(0, sizes[..k + 1]);
              && n == Max(DrawnAfter(0, sizes[..k]), CeilDiv8(sizes[k]))
              && sizes[k] <= 8 * n && Filled(words, sizes, k) == Stream(words, n)[..sizes[k]]
  {
    if k < |sizes| {
      assert sizes[..k + 1][..k] == sizes[..k];
    }
  }

  /** Over any sequence of fills every filled buffer is a prefix of the final cache, so any two agree
      on their common length; and exactly the words of the largest request are ever drawn. */
  lemma {:induction false} FillsArePrefixes(words: nat -> nat, sizes: seq<nat>, k: nat)
    requires k < |sizes|
    ensures |Filled(words, sizes, k)| == sizes[k]
    ensures Filled(words, sizes, k) <= Stream(words, DrawnAfter(0, sizes))
  {
    var prefix := sizes[..k + 1];
    DrawnGrows(0, prefix, k);
    DrawnGrows(0, sizes, k + 1);
    StreamGrows(words, DrawnAfter(0, prefix), DrawnAfter(0, sizes));
  }

  lemma {:induction false} FillsAgree(words: nat -> nat, sizes: seq<nat>, j: nat, k: nat)
    requires j < |sizes| && k < |sizes| && sizes[j] <= sizes[k]
    ensures Filled(words, sizes, j) <= Filled(words, sizes, k)
  {
    FillsArePrefixes(words, sizes, j);
    FillsArePrefixes(words, sizes, k);
  }

  lemma {:induction false} DrawsOnlyTheLargest(sizes: seq<nat>, largest: nat)
    requires largest in sizes && forall k :: 0 <= k < |sizes| ==> sizes[k] <= largest
    ensures DrawnAfter(0, sizes) == CeilDiv8(largest) && largest <= 8 * DrawnAfter(0, sizes) < largest + 8
  {
    var k :| 0 <= k < |sizes| && sizes[k] == largest;
    DrawnGrows(0, sizes, k);
    DrawnBounded(sizes, CeilDiv8(largest));
  }

  lemma {:induction false} DrawnBounded(sizes: seq<nat>, bound: nat)
    requires forall k :: 0 <= k < |sizes| ==> CeilDiv8(sizes[k]) <= bound
    ensures DrawnAfter(0, sizes) <= bound
  {
    if sizes != [] {
      DrawnBounded(sizes[..|sizes| - 1], bound);
    }
  }
}
