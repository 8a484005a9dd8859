/** Random ids by rejection sampling (pkg/redis_lock/random.go lines 62-78). The random source is a
    stream of 63-bit words. */
module Randn {
  const LETTERS := "abcdefghijklmnopqrstuvwxyzABCDEFGHIJKLMNOPQRSTUVWXYZ0123456789"
  const PER_WORD: nat := 10  // letterIdxMax

  type Source = nat -> nat

  /** x >> (6 * k). */
  function Shifted(x: nat, k: nat): nat { if k == 0 then x else Shifted(x, k - 1) / 64 }

  /** Chunk number j of the stream: ten to a word, low bits first. */
  function Chunk(words: Source, j: nat): (c: nat)
    ensures c < 64
  {
    Shifted(words(j / PER_WORD), j % PER_WORD) % 64
  }

  /** The stream as chunks. */
  type Chunks = nat -> nat

  ghost predicate IsChunks(words: Source, chunks: Chunks) {
    forall j: nat {:trigger Chunk(words, j)} :: chunks(j) == Chunk(words, j)
  }

  /** The letters that the first k chunks stand for, in order; a chunk past the end of the alphabet stands for none. */
  function Picked(letters: string, chunks: Chunks, k: nat): (s: string)
    ensures |s| <= k
  {
    if k == 0 then "" else
      Picked(letters, chunks, k - 1) + if chunks(k - 1) < |letters| then [letters[chunks(k - 1)]] else ""
  }

  lemma {:induction false} PickedGrows(letters: string, chunks: Chunks, k: nat, k': nat)
    requires k <= k'
    ensures Picked(letters, chunks, k) <= Picked(letters, chunks, k')
  {
    if k < k' { PickedGrows(letters, chunks, k, k' - 1); }
  }

  function Pow64(k: nat): nat { if k == 0 then 1 else 64 * Pow64(k - 1) }

  function Recomposed(x: nat, k: nat): nat {
    if k == 0 then 0 else Recomposed(x, k - 1) + Pow64(k - 1) * (Shifted(x, k - 1) % 64)
  }

  lemma StepOfDivision(p: nat, y: nat)
    ensures p * (y % 64) + 64 * p * (y / 64) == p * y
  {
    assert y == 64 * (y / 64) + y % 64;
    assert p * y == p * (64 * (y / 64) + y % 64);
  }

  /** The chunks of a word are different bits of it: they and the unused top make up the word again. */
  lemma {:induction false} ChunksAreDigits(x: nat, k: nat)
    ensures x == Recomposed(x, k) + Pow64(k) * Shifted(x, k)
  {
    if k > 0 {
      ChunksAreDigits(x, k - 1);
      StepOfDivision(Pow64(k - 1), Shifted(x, k - 1));
    }
  }

  /** s is made of the first n letters of the stream, the first of them at its end. */
  ghost predicate IsRandn(letters: string, chunks: Chunks, n: nat, s: string) {
    |s| == n && exists k: nat :: IsReverse(s, Picked(letters, chunks, k))
  }

  predicate IsReverse(s: string, t: string) { |s| == |t| && forall i | 0 <= i < |t| :: s[|t| - 1 - i] == t[i] }

  /** So the first n letters of the stream determine the result, however many more it has. */
  lemma RandnDetermined(letters: string, chunks: Chunks, n: nat, s: string, t: string)
    requires IsRandn(letters, chunks, n, s) && IsRandn(letters, chunks, n, t)
    ensures s == t
  {
    var k: nat :| IsReverse(s, Picked(letters, chunks, k));
    var m: nat :| IsReverse(t, Picked(letters, chunks, m));
    if k <= m { PickedGrows(letters, chunks, k, m); } else { PickedGrows(letters, chunks, m, k); }
    assert Picked(letters, chunks, k) == Picked(letters, chunks, m);
    SameReverse(s, t, Picked(letters, chunks, k));
  }

  lemma SameReverse(s: string, t: string, picked: string)
    requires IsReverse(s, picked) && IsReverse(t, picked)
    ensures s == t
  {
    forall j | 0 <= j < |s| ensures s[j] == t[j] {
      var i := |s| - 1 - j;
      assert picked[i] == s[|picked| - 1 - i] && picked[i] == t[|picked| - 1 - i];
    }
  }

  function LetterOf(letters: string, c: nat): string { if c < |letters| then [letters[c]] else "" }

  lemma Alphabet()
    ensures LETTERS == "abcdefghijklmnopqrstuvwxyz" + "ABCDEFGHIJKLMNOPQRSTUVWXYZ" + "0123456789"
  {
  }

  /** Chunks below 62 stand for the letters and digits in order, the other two for none; and ten chunks are all that
      fit into 63 bits. */
  lemma LettersExact(chunks: Chunks, k: nat)
    ensures |LETTERS| == 62
    ensures Picked(LETTERS, chunks, k + 1) ==
              Picked(LETTERS, chunks, k) + if chunks(k) < 62 then [LETTERS[chunks(k)]] else ""
    ensures 6 * PER_WORD <= 63 < 6 * (PER_WORD + 1)
  {
  }

  /** What the loop has filled in after k chunks. */
  function Filled(letters: string, chunks: Chunks, k: nat): (s: string) {
    if k == 0 then "" else LetterOf(letters, chunks(k - 1)) + Filled(letters, chunks, k - 1)
  }

  lemma {:induction false} FilledIsReverse(letters: string, chunks: Chunks, k: nat)
    ensures IsReverse(Filled(letters, chunks, k), Picked(letters, chunks, k))
  {
    if k > 0 { FilledIsReverse(letters, chunks, k - 1); }
  }

  /** Where the next chunk is, and what shifting it out leaves. */
  lemma ChunkHere(words: Source, j: nat, used: nat, taken: nat)
    requires used >= 1 && taken < PER_WORD && j == PER_WORD * (used - 1) + taken
    ensures Chunk(words, j) == Shifted(words(used - 1), taken) % 64
    ensures Shifted(words(used - 1), taken + 1) == Shifted(words(used - 1), taken) / 64
  {
    assert j / PER_WORD == used - 1 && j % PER_WORD == taken;
  }

  /** The part of the loop body that fills in a byte: b has before from i + 1 on, and gets after. */
  method FillByte(letters: string, b: array<char>, i: int, idx: nat, ghost before: string, ghost after: string)
    returns (i': int)
    requires 0 <= i < b.Length && b[i + 1..] == before && after == LetterOf(letters, idx) + before
    modifies b
    ensures -1 <= i' <= i && b[i' + 1..] == after
  {
    i' := i;
    if idx < |letters| {
      b[i] := letters[idx];
      i' := i - 1;
      assert b[i..] == [letters[idx]] + before;
    }
  }

  lemma FilledNext(letters: string, chunks: Chunks, j: nat, idx: nat)
    requires idx == chunks(j)
    ensures Filled(letters, chunks, j + 1) == LetterOf(letters, idx) + Filled(letters, chunks, j)
  {
  }

  /** cache holds what is left of word number used - 1 after j chunks of the stream. */
  ghost predicate Caches(words: Source, cache: nat, remain: nat, used: nat, j: nat) {
    && remain <= PER_WORD && used >= 1 && j == PER_WORD * (used - 1) + (PER_WORD - remain)
    && cache == Shifted(words(used - 1), PER_WORD - remain)
  }

  lemma Refilled(words: Source, cache: nat, used: nat, j: nat)
    requires Caches(words, cache, 0, used, j)
    ensures Caches(words, words(used), PER_WORD, used + 1, j) && j == PER_WORD * used
  {
  }

  lemma ShiftedOut(words: Source, chunks: Chunks, cache: nat, remain: nat, used: nat, j: nat)
    requires IsChunks(words, chunks) && Caches(words, cache, remain, used, j) && remain > 0
    ensures cache % 64 == chunks(j) && Caches(words, cache / 64, remain - 1, used, j + 1)
  {
    ChunkHere(words, j, used, PER_WORD - remain);
  }

  lemma MoreToCome(letters: string, chunks: Chunks, enough: nat, j: nat, n: nat)
    requires |Picked(letters, chunks, j)| < n <= |Picked(letters, chunks, enough)|
    ensures j < enough
  {
    if enough <= j { PickedGrows(letters, chunks, enough, j); }
  }

  lemma Finished(letters: string, chunks: Chunks, s: string, j: nat, end: nat)
    requires s == Filled(letters, chunks, j) && j <= end
    ensures IsRandn(letters, chunks, |s|, s) && |Picked(letters, chunks, end)| >= |s|
  {
    FilledIsReverse(letters, chunks, j);
    PickedGrows(letters, chunks, j, end);
  }

  /** The last word read was needed. */
  ghost predicate Needed(letters: string, chunks: Chunks, used: nat, n: nat) {
    used <= 1 || |Picked(letters, chunks, PER_WORD * (used - 1))| < n
  }

  /** After j chunks: what is left of the current word, and what b holds from i + 1 on. */
  ghost predicate Filling(letters: string, words: Source, b: array<char>, chunks: Chunks, i: int, cache: nat,
                          remain: nat, used: nat, j: nat)
    reads b
  {
    && Caches(words, cache, remain, used, j) && Needed(letters, chunks, used, b.Length)
    && -1 <= i < b.Length && b[i + 1..] == Filled(letters, chunks, j)
  }

  /** One iteration of the loop of Randn. */
  method FillNext(letters: string, words: Source, b: array<char>, ghost chunks: Chunks, i: int, cache: nat, remain: nat,
                  used: nat, ghost j: nat, ghost enough: nat)
    returns (i': int, cache': nat, remain': nat, used': nat)
    requires IsChunks(words, chunks) && Filling(letters, words, b, chunks, i, cache, remain, used, j) && i >= 0
    requires |Picked(letters, chunks, enough)| >= b.Length
    modifies b
    ensures Filling(letters, words, b, chunks, i', cache', remain', used', j + 1) && j < enough
  {
    FilledIsReverse(letters, chunks, j);
    MoreToCome(letters, chunks, enough, j, b.Length);
    cache', remain', used' := cache, remain, used;
    if remain == 0 {
      Refilled(words, cache, used, j);
      cache', remain' := words(used), PER_WORD;
      used' := used + 1;
    }
    ShiftedOut(words, chunks, cache', remain', used', j);
    FilledNext(letters, chunks, j, cache' % 64);
    i' := FillByte(letters, b, i, cache' % 64, Filled(letters, chunks, j), Filled(letters, chunks, j + 1));
    cache' := cache' / 64;
    remain' := remain' - 1;
  }

  /** The loop of Randn over any alphabet, reading words(0), words(1), …; it ends if the stream has n letters
      at all. used is the number of words read, j the number of chunks looked at. */
  method FillBytes(letters: string, words: Source, b: array<char>, ghost chunks: Chunks, ghost enough: nat)
    returns (used: nat, ghost j: nat)
    requires IsChunks(words, chunks) && |Picked(letters, chunks, enough)| >= b.Length
    modifies b
    ensures b[0..] == Filled(letters, chunks, j)
    ensures used >= 1 && j <= PER_WORD * used && Needed(letters, chunks, used, b.Length)
  {
    var i: int, cache, remain := b.Length - 1, words(0), PER_WORD;
    used, j := 1, 0;
    while i >= 0
      invariant Filling(letters, words, b, chunks, i, cache, remain, used, j)
      decreases enough - j
    {
      i, cache, remain, used := FillNext(letters, words, b, chunks, i, cache, remain, used, j, enough);
      j := j + 1;
    }
  }

  function ChunksOf(words: Source): Chunks { (j: nat) => Chunk(words, j) }

  /** How many of the first k chunks are below size. */
  function CountBelow(size: nat, chunks: Chunks, k: nat): nat {
    if k == 0 then 0 else CountBelow(size, chunks, k - 1) + if chunks(k - 1) < size then 1 else 0
  }

  lemma {:induction false} PickedCount(letters: string, chunks: Chunks, k: nat)
    ensures |Picked(letters, chunks, k)| == CountBelow(|letters|, chunks, k)
  {
    if k > 0 { PickedCount(letters, chunks, k - 1); }
  }

  /** Randn, for a stream with n chunks below 62 among its first enough. */
  method Randn(words: Source, n: nat, ghost enough: nat) returns (s: string, used: nat)
    requires CountBelow(62, ChunksOf(words), enough) >= n
    ensures IsRandn(LETTERS, ChunksOf(words), n, s)
    ensures used >= 1 && |Picked(LETTERS, ChunksOf(words), PER_WORD * used)| >= n
            && Needed(LETTERS, ChunksOf(words), used, n)
  {
    PickedCount(LETTERS, ChunksOf(words), enough);
    var b := new char[n];
    ghost var j;
    used, j := FillBytes(LETTERS, words, b, ChunksOf(words), enough);
    s := b[0..];
    Finished(LETTERS, ChunksOf(words), s, j, PER_WORD * used);
  }
}
