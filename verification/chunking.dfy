/**
 Splitting a text into overlapping windows of words before embedding: the
 windows start every `size - overlap` words (at least one) and hold up to
 `size` words each.
*/
module Chunking {
  import opened Text

  /** Python's `xs[a:b]` on a list: negative bounds count from the end, and
      both bounds are clamped to the list. */
  function SliceBound(n: nat, b: int): (r: nat)
    ensures r <= n
    ensures 0 <= b <= n ==> r == b
    ensures b > n ==> r == n
  {
    var b' := if b < 0 then b + n else b;
    if b' < 0 then 0 else if b' > n then n else b'
  }

  function PySlice<T>(xs: seq<T>, a: int, b: int): (r: seq<T>)
    ensures |r| <= |xs|
  {
    var lo := SliceBound(|xs|, a);
    var hi := SliceBound(|xs|, b);
    if hi <= lo then [] else xs[lo..hi]
  }

  /** A slice from a valid start is the run of words from there, cut at
      the end of the list. */
  lemma PySliceForward<T>(xs: seq<T>, a: int, size: int)
    requires 0 <= a <= |xs| && size >= 0
    ensures PySlice(xs, a, a + size) == xs[a..if a + size <= |xs| then a + size else |xs|]
  {
  }

  /** The distance between window starts: `max(1, size - overlap)`. */
  function Step(size: int, overlap: int): (step: nat)
    ensures step >= 1
    ensures step >= size - overlap
    ensures size - overlap >= 1 ==> step == size - overlap
  {
    if size - overlap > 1 then size - overlap else 1
  }

  /** The window of `words` that chunk `k` joins. */
  function Window(words: seq<string>, size: int, overlap: int, k: nat): seq<string> {
    var start := k * Step(size, overlap);
    PySlice(words, start, start + size)
  }

  /** What `chunk_text(text, size, overlap)` returns: no chunks for a text
      without words; otherwise as many chunks as window starts below the
      word count, chunk `k` joining the words of window `k`. */
  predicate IsChunking(text: string, size: int, overlap: int, chunks: seq<string>) {
    && (Words(text) == [] <==> chunks == [])
    && (chunks != [] ==>
          (|chunks| - 1) * Step(size, overlap) < |Words(text)| <= |chunks| * Step(size, overlap))
    && (forall k :: 0 <= k < |chunks| ==>
          chunks[k] == JoinSpaces(Window(Words(text), size, overlap, k)))
  }

  /** The chunking of a text is unique: the two bounds fix the count and
      the windows fix every chunk. */
  lemma ChunkingUnique(text: string, size: int, overlap: int, a: seq<string>, b: seq<string>)
    requires IsChunking(text, size, overlap, a) && IsChunking(text, size, overlap, b)
    ensures a == b
  {
    if a != [] {
      var step := Step(size, overlap);
      MulCancel(|b| - 1, |a|, step);
      MulCancel(|a| - 1, |b|, step);
      assert |a| == |b|;
    }
  }

  /** `chunk_text(text, size, overlap)`: one chunk per window start below the
      word count, each the window's words joined by single spaces. */
  method ChunkText(text: string, size: int, overlap: int) returns (chunks: seq<string>)
    ensures Words(text) == [] <==> chunks == []
    ensures chunks != [] ==>
              (|chunks| - 1) * Step(size, overlap) < |Words(text)| <= |chunks| * Step(size, overlap)
    ensures forall k :: 0 <= k < |chunks| ==>
              chunks[k] == JoinSpaces(Window(Words(text), size, overlap, k))
  {
    var words := Words(text);
    if words == [] {
      return [];
    }
    var step := Step(size, overlap);
    chunks := [];
    var i := 0;
    while i < |words|
      invariant i == |chunks| * step
      invariant chunks != [] ==> (|chunks| - 1) * step < |words|
      invariant JoinsWindows(words, size, overlap, chunks)
      decreases |words| - i
    {
      assert Window(words, size, overlap, |chunks|) == PySlice(words, i, i + size);
      JoinsWindowsAppend(words, size, overlap, chunks);
      chunks := chunks + [JoinSpaces(PySlice(words, i, i + size))];
      i := i + step;
      MulSucc(|chunks| - 1, step);
    }
  }

  /** Chunk `k` of `chunks` joins the words of window `k`, for every `k`. */
  predicate JoinsWindows(words: seq<string>, size: int, overlap: int, chunks: seq<string>) {
    forall k :: 0 <= k < |chunks| ==> chunks[k] == JoinSpaces(Window(words, size, overlap, k))
  }

  lemma JoinsWindowsAppend(words: seq<string>, size: int, overlap: int, chunks: seq<string>)
    requires JoinsWindows(words, size, overlap, chunks)
    ensures JoinsWindows(words, size, overlap, chunks + [JoinSpaces(Window(words, size, overlap, |chunks|))])
  {
  }

  lemma MulSucc(n: nat, step: nat)
    ensures (n + 1) * step == n * step + step
  {
  }

  lemma MulLe(a: nat, b: nat, c: nat)
    requires a <= b
    ensures a * c <= b * c
  {
  }

  /** When the windows overlap or touch (the step is at most the size),
      every word lies in the window of some chunk: window `j / step` holds
      word `j`, at its offset from the window's start. */
  lemma {:induction false} WindowsCoverWords(words: seq<string>, size: int, overlap: int, count: nat, j: nat)
    requires Step(size, overlap) <= size
    requires count * Step(size, overlap) >= |words|
    requires j < |words|
    ensures var k := j / Step(size, overlap);
            var start := k * Step(size, overlap);
            && k < count
            && start <= j < start + size
            && j - start < |Window(words, size, overlap, k)|
            && Window(words, size, overlap, k)[j - start] == words[j]
  {
    var step := Step(size, overlap);
    var k := j / step;
    QuotientBounds(j, step);
    MulCancel(k, count, step);
    WindowHolds(words, size, overlap, k, j);
  }

  /** The quotient by the step brackets the dividend. */
  lemma QuotientBounds(j: nat, step: nat)
    requires step >= 1
    ensures (j / step) * step <= j < (j / step) * step + step
  {
    assert (j / step) * step + j % step == j;
  }

  lemma MulCancel(a: nat, b: nat, c: nat)
    requires c >= 1 && a * c < b * c
    ensures a < b
  {
  }

  /** Word `j` lies in window `k`, at its offset from the window's start,
      when window `k` starts within one step before it and the step is at
      most the size. */
  lemma WindowHolds(words: seq<string>, size: int, overlap: int, k: nat, j: nat)
    requires Step(size, overlap) <= size && j < |words|
    requires k * Step(size, overlap) <= j < k * Step(size, overlap) + Step(size, overlap)
    ensures j - k * Step(size, overlap) < |Window(words, size, overlap, k)|
    ensures Window(words, size, overlap, k)[j - k * Step(size, overlap)] == words[j]
  {
    var lo := k * Step(size, overlap);
    var hi := if lo + size <= |words| then lo + size else |words|;
    assert Window(words, size, overlap, k) == words[lo..hi] by {
      PySliceForward(words, lo, size);
    }
    assert lo <= j < hi;
    IndexInSlice(words, lo, hi, j);
  }

  lemma IndexInSlice<T>(xs: seq<T>, lo: nat, hi: nat, j: nat)
    requires lo <= j < hi <= |xs|
    ensures j - lo < |xs[lo..hi]| && xs[lo..hi][j - lo] == xs[j]
  {
  }

  /** No window holds more than `size` words. */
  lemma WindowAtMostSize(words: seq<string>, size: int, overlap: int, k: nat)
    ensures |Window(words, size, overlap, k)| <= if size < 0 then |words| else size
  {
    var a := k * Step(size, overlap);
    if size >= 0 && a <= |words| {
      PySliceForward(words, a, size);
    } else if size >= 0 {
      assert SliceBound(|words|, a) == |words|;
    }
  }

  /** Joining two nonempty word lists with a space between them. */
  lemma {:induction false} JoinSpacesAppend(a: seq<string>, b: seq<string>)
    requires a != [] && b != []
    ensures JoinSpaces(a + b) == JoinSpaces(a) + " " + JoinSpaces(b)
    decreases |a|
  {
    if |a| == 1 {
      assert (a + b)[1..] == b;
    } else {
      assert (a + b)[1..] == a[1..] + b;
      JoinSpacesAppend(a[1..], b);
    }
  }

  /** A window with no overlap: the `size` words from `k * size`, cut at
      the end of the list. */
  lemma WindowNoOverlap(words: seq<string>, size: int, k: nat)
    requires size >= 1 && k * size <= |words|
    ensures Window(words, size, 0, k) ==
            words[k * size..if k * size + size <= |words| then k * size + size else |words|]
  {
    assert Step(size, 0) == size;
    PySliceForward(words, k * size, size);
  }

  /** One step of rejoining: a chunk joined from `seg` in front of chunks
      that rejoin `more`. */
  lemma RejoinStep(c: string, rest: seq<string>, seg: seq<string>, more: seq<string>)
    requires rest != [] && seg != [] && more != []
    requires c == JoinSpaces(seg) && JoinSpaces(rest) == JoinSpaces(more)
    ensures JoinSpaces([c] + rest) == JoinSpaces(seg + more)
  {
    JoinSpacesAppend([c], rest);
    JoinSpacesAppend(seg, more);
  }

  /** The last chunk rejoins the words from its window's start to the end. */
  lemma LastChunk(words: seq<string>, size: int, chunks: seq<string>, k: nat)
    requires size >= 1 && k * size < |words| <= k * size + size
    requires k + 1 == |chunks| && chunks[k] == JoinSpaces(Window(words, size, 0, k))
    ensures JoinSpaces(chunks[k..]) == JoinSpaces(words[k * size..])
  {
    var lo := k * size;
    WindowNoOverlap(words, size, k);
    assert Window(words, size, 0, k) == words[lo..|words|];
    assert words[lo..|words|] == words[lo..];
    assert chunks[k..] == [chunks[k]];
  }

  /** A chunk before the last one, in front of chunks that rejoin the words
      after its window, rejoins the words from its window's start. */
  lemma MidChunk(words: seq<string>, size: int, chunks: seq<string>, k: nat)
    requires size >= 1 && k * size + size < |words| && k + 1 < |chunks|
    requires chunks[k] == JoinSpaces(Window(words, size, 0, k))
    requires JoinSpaces(chunks[k + 1..]) == JoinSpaces(words[k * size + size..])
    ensures JoinSpaces(chunks[k..]) == JoinSpaces(words[k * size..])
  {
    WindowNoOverlap(words, size, k);
    var lo := k * size;
    var hi := lo + size;
    assert words[lo..] == words[lo..hi] + words[hi..];
    assert chunks[k..] == [chunks[k]] + chunks[k + 1..];
    RejoinStep(chunks[k], chunks[k + 1..], words[lo..hi], words[hi..]);
  }

  /** The chunks from `k` on, with no overlap, rejoin the words from window
      `k`'s start on. */
  lemma {:induction false} ChunksRejoin(words: seq<string>, size: int, chunks: seq<string>, k: nat)
    requires size >= 1 && k < |chunks|
    requires (|chunks| - 1) * size < |words| <= |chunks| * size
    requires forall i :: 0 <= i < |chunks| ==> chunks[i] == JoinSpaces(Window(words, size, 0, i))
    ensures k * size < |words|
    ensures JoinSpaces(chunks[k..]) == JoinSpaces(words[k * size..])
    decreases |chunks| - k
  {
    StartInside(k, |chunks|, size, |words|);
    if k + 1 == |chunks| {
      LastChunk(words, size, chunks, k);
    } else {
      ChunksRejoin(words, size, chunks, k + 1);
      MidChunk(words, size, chunks, k);
    }
  }

  /** Window `k` of `count` starts inside the list, the next one starts
      `size` later, and the last one reaches the end. */
  lemma StartInside(k: nat, count: nat, size: int, n: nat)
    requires size >= 1 && k < count
    requires (count - 1) * size < n <= count * size
    ensures k * size < n
    ensures (k + 1) * size == k * size + size
    ensures k + 1 == count ==> k * size + size >= n
    ensures k + 1 < count ==> (k + 1) * size < n
  {
    MulLe(k, count - 1, size);
    if k + 1 < count {
      MulLe(k + 1, count - 1, size);
    }
  }

  /** With no overlap, chunks as `ChunkText` builds them, joined back with
      spaces, give exactly the text's words joined by single spaces. */
  lemma ChunksRejoinWords(words: seq<string>, size: int, chunks: seq<string>)
    requires size >= 1 && chunks != []
    requires (|chunks| - 1) * Step(size, 0) < |words| <= |chunks| * Step(size, 0)
    requires forall k :: 0 <= k < |chunks| ==> chunks[k] == JoinSpaces(Window(words, size, 0, k))
    ensures JoinSpaces(chunks) == JoinSpaces(words)
  {
    var step := Step(size, 0);
    assert step == size;
    ChunksRejoin(words, size, chunks, 0);
    ZeroStart(words, chunks, size);
  }

  lemma ZeroStart(words: seq<string>, chunks: seq<string>, size: int)
    ensures 0 * size == 0 && chunks[0..] == chunks && words[0..] == words
  {
  }
}
