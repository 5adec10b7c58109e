/**
 * Token-window chunking (backend/app/rag/chunker.py, `chunk_text`).
 *
 * The tokenizer is abstract: `encode` and `decode` are parameters standing for the
 * `cl100k_base` encoding. The overlap is given as the integer `overlapTokens`, the
 * value the source computes as `int(chunk_size * overlap_percent)`. When the caller
 * leaves `overlap_percent` out, the source reads `settings.CHUNK_OVERLAP_PERCENT`,
 * which the settings class does not define (it has `CHUNK_OVERLAP = 200`); that path
 * raises before any chunking and is not part of this model.
 */
module Chunker {
  import opened Text

  function Min(a: int, b: int): int {
    if a <= b then a else b
  }

  /**
   * The token windows the chunking loop visits from position `start` on: one window
   * per loop pass, starting `stride` tokens after the previous one, each the slice
   * `tokens[start:start + size]` (Python clamps the end to the length).
   */
  function Windows<T>(tokens: seq<T>, start: nat, size: nat, stride: nat): seq<seq<T>>
    requires 0 < stride
    decreases |tokens| - start
  {
    if start >= |tokens| then []
    else [tokens[start..Min(start + size, |tokens|)]] + Windows(tokens, start + stride, size, stride)
  }

  /** The successive values of `start` in the chunking loop, from `start` on. */
  function WindowStarts(n: nat, start: nat, stride: nat): seq<nat>
    requires 0 < stride
    decreases n - start
  {
    if start >= n then [] else [start] + WindowStarts(n, start + stride, stride)
  }

  /**
   * The loop's starts: the first is `start`, each next one is `stride` further, every
   * start lies below the token count `n` and the one after the last does not.
   */
  lemma {:induction false} StartsShape(n: nat, start: nat, stride: nat)
    requires 0 < stride
    ensures var s := WindowStarts(n, start, stride);
      && (s == [] <==> n <= start)
      && (s != [] ==> s[0] == start && n <= s[|s| - 1] + stride)
      && (forall i :: 0 <= i < |s| - 1 ==> s[i + 1] == s[i] + stride)
      && (forall i :: 0 <= i < |s| ==> s[i] < n)
    decreases n - start
  {
    if start < n {
      StartsShape(n, start + stride, stride);
      var s, s' := WindowStarts(n, start, stride), WindowStarts(n, start + stride, stride);
      assert s == [start] + s';
      forall i | 0 <= i < |s| - 1 ensures s[i + 1] == s[i] + stride {
        if 0 < i { assert s[i + 1] == s'[i] && s[i] == s'[i - 1]; }
      }
    }
  }

  /** There is one window per loop start. */
  lemma {:induction false} WindowsLength<T>(tokens: seq<T>, start: nat, size: nat, stride: nat)
    requires 0 < stride
    ensures |Windows(tokens, start, size, stride)| == |WindowStarts(|tokens|, start, stride)|
    decreases |tokens| - start
  {
    if start < |tokens| {
      WindowsLength(tokens, start + stride, size, stride);
    }
  }

  /** Window `i` is the slice of at most `size` tokens at the loop's `i`-th start. */
  lemma {:induction false} WindowAt<T>(tokens: seq<T>, start: nat, size: nat, stride: nat, i: nat)
    requires 0 < stride && i < |WindowStarts(|tokens|, start, stride)|
    ensures WindowStarts(|tokens|, start, stride)[i] < |tokens|
    ensures i < |Windows(tokens, start, size, stride)|
    ensures Windows(tokens, start, size, stride)[i]
            == tokens[WindowStarts(|tokens|, start, stride)[i]..Min(WindowStarts(|tokens|, start, stride)[i] + size, |tokens|)]
    decreases i
  {
    WindowsLength(tokens, start, size, stride);
    if 0 < i {
      WindowAt(tokens, start + stride, size, stride, i - 1);
      assert Windows(tokens, start, size, stride)[i] == Windows(tokens, start + stride, size, stride)[i - 1];
      assert WindowStarts(|tokens|, start, stride)[i] == WindowStarts(|tokens|, start + stride, stride)[i - 1];
    }
  }

  /**
   * Window `i` is the slice of at most `size` tokens at the loop's `i`-th start, and
   * holds between 1 and `size` tokens.
   */
  lemma WindowsShape<T>(tokens: seq<T>, start: nat, size: nat, stride: nat)
    requires 0 < stride && 0 < size
    ensures |Windows(tokens, start, size, stride)| == |WindowStarts(|tokens|, start, stride)|
    ensures forall i :: 0 <= i < |Windows(tokens, start, size, stride)| ==>
              && WindowStarts(|tokens|, start, stride)[i] < |tokens|
              && Windows(tokens, start, size, stride)[i]
                 == tokens[WindowStarts(|tokens|, start, stride)[i]..Min(WindowStarts(|tokens|, start, stride)[i] + size, |tokens|)]
              && 1 <= |Windows(tokens, start, size, stride)[i]| <= size
  {
    WindowsLength(tokens, start, size, stride);
    forall i | 0 <= i < |Windows(tokens, start, size, stride)|
      ensures WindowStarts(|tokens|, start, stride)[i] < |tokens|
      ensures Windows(tokens, start, size, stride)[i]
              == tokens[WindowStarts(|tokens|, start, stride)[i]..Min(WindowStarts(|tokens|, start, stride)[i] + size, |tokens|)]
      ensures 1 <= |Windows(tokens, start, size, stride)[i]| <= size
    {
      WindowAt(tokens, start, size, stride, i);
    }
  }

  /** The `i`-th start is `start + i * stride`. */
  lemma {:induction false} StartsAreMultiples(n: nat, start: nat, stride: nat, i: nat)
    requires 0 < stride && i < |WindowStarts(n, start, stride)|
    ensures WindowStarts(n, start, stride)[i] == start + i * stride
    decreases i
  {
    if 0 < i {
      StartsAreMultiples(n, start + stride, stride, i - 1);
      assert start + stride + (i - 1) * stride == start + i * stride;
    }
  }

  /** Ceiling division: `c` is the smallest natural number with `n <= c * d`. */
  lemma CeilingDivision(n: nat, d: nat, c: nat)
    requires 0 < d
    requires n <= c * d
    requires 0 < c ==> (c - 1) * d < n
    ensures c == (n + d - 1) / d
  {
    var m := n + d - 1;
    if c == 0 {
      assert n == 0;
      assert m < d;
    } else {
      assert (c - 1) * d == c * d - d;
      assert c * d <= m < c * d + d;
      DivisionUnique(m, d, c);
    }
  }

  /** `q` is `m / d` as soon as `q * d <= m < q * d + d`. */
  lemma DivisionUnique(m: nat, d: nat, q: nat)
    requires 0 < d && q * d <= m < q * d + d
    ensures m / d == q
  {
    var k := m / d;
    assert k * d <= m < k * d + d;
    if k < q {
      MulMonotone(k + 1, q, d);
    } else if q < k {
      MulMonotone(q + 1, k, d);
    }
  }

  lemma MulMonotone(a: nat, b: nat, d: nat)
    requires a <= b
    ensures a * d <= b * d
  {
  }

  /** The chunk strings: each window decoded and stripped of surrounding whitespace. */
  function DecodeWindows<T>(windows: seq<seq<T>>, decode: seq<T> -> string): (r: seq<string>)
    ensures |r| == |windows|
  {
    seq(|windows|, i requires 0 <= i < |windows| => Strip(decode(windows[i])))
  }

  lemma DecodeCons<T>(w: seq<T>, ws: seq<seq<T>>, decode: seq<T> -> string)
    ensures DecodeWindows([w] + ws, decode) == [Strip(decode(w))] + DecodeWindows(ws, decode)
  {
  }

  /**
   * What `chunk_text(text, chunkSize, p)` returns when `int(chunkSize * p)` is
   * `overlapTokens`: nothing for blank text, the text itself (unstripped) when it
   * fits in one window, and otherwise the decoded, stripped windows with stride
   * `chunkSize - overlapTokens`.
   */
  function Chunks<T>(text: string, chunkSize: nat, overlapTokens: int,
                     encode: string -> seq<T>, decode: seq<T> -> string): seq<string>
    requires 0 < chunkSize && overlapTokens < chunkSize
  {
    if IsBlank(text) then []
    else
      var tokens := encode(text);
      if |tokens| <= chunkSize then [text]
      else DecodeWindows(Windows(tokens, 0, chunkSize, chunkSize - overlapTokens), decode)
  }

  /**
   * The windowing loop of `chunk_text`. It terminates because the stride
   * `chunkSize - overlapTokens` is positive; `NonPositiveStrideNeverEnds` shows the
   * loop runs forever otherwise, and nothing in the source rules that out.
   */
  method ChunkText<T>(text: string, chunkSize: nat, overlapTokens: int,
                      encode: string -> seq<T>, decode: seq<T> -> string)
    returns (chunks: seq<string>)
    requires 0 < chunkSize && overlapTokens < chunkSize
    ensures chunks == Chunks(text, chunkSize, overlapTokens, encode, decode)
  {
    if IsBlank(text) {
      return [];
    }
    var tokens := encode(text);
    if |tokens| <= chunkSize {
      return [text];
    }
    ghost var stride: nat := chunkSize - overlapTokens;
    ghost var all := DecodeWindows(Windows(tokens, 0, chunkSize, stride), decode);
    assert all == Chunks(text, chunkSize, overlapTokens, encode, decode);
    chunks := [];
    var start := 0;
    while start < |tokens|
      invariant 0 <= start
      invariant chunks + DecodeWindows(Windows(tokens, start, chunkSize, stride), decode) == all
      decreases |tokens| - start
    {
      var end := start + chunkSize;
      var chunkTokens := tokens[start..Min(end, |tokens|)];
      var next := end - overlapTokens;
      LoopStep(chunks, tokens, chunkTokens, start, next, chunkSize, stride, decode);
      chunks := chunks + [Strip(decode(chunkTokens))];
      start := next;
      if start >= |tokens| {
        assert chunks + [] == chunks;
        break;
      }
    }
  }

  /** One pass of the loop: the first window decoded, then the windows after it. */
  lemma DecodeStep<T>(tokens: seq<T>, start: nat, next: nat, size: nat, stride: nat, decode: seq<T> -> string)
    requires 0 < stride && start < |tokens| && next == start + stride
    ensures DecodeWindows(Windows(tokens, start, size, stride), decode)
            == [Strip(decode(tokens[start..Min(start + size, |tokens|)]))] + DecodeWindows(Windows(tokens, next, size, stride), decode)
  {
    DecodeCons(tokens[start..Min(start + size, |tokens|)], Windows(tokens, start + stride, size, stride), decode);
  }

  /** The loop invariant survives one pass. */
  lemma LoopStep<T>(chunks: seq<string>, tokens: seq<T>, window: seq<T>, start: nat, next: nat, size: nat,
                    stride: nat, decode: seq<T> -> string)
    requires 0 < stride && start < |tokens| && next == start + stride
    requires window == tokens[start..Min(start + size, |tokens|)]
    requires chunks + DecodeWindows(Windows(tokens, start, size, stride), decode)
             == DecodeWindows(Windows(tokens, 0, size, stride), decode)
    ensures (chunks + [Strip(decode(window))]) + DecodeWindows(Windows(tokens, next, size, stride), decode)
            == DecodeWindows(Windows(tokens, 0, size, stride), decode)
  {
    DecodeStep(tokens, start, next, size, stride, decode);
    AppendAssoc(chunks, Strip(decode(window)), DecodeWindows(Windows(tokens, next, size, stride), decode));
  }

  lemma AppendAssoc<X>(xs: seq<X>, x: X, ys: seq<X>)
    ensures xs + ([x] + ys) == (xs + [x]) + ys
  {
  }

  /** From position 0 there are `ceil(n / stride)` windows. */
  lemma WindowCount(n: nat, stride: nat)
    requires 0 < stride
    ensures |WindowStarts(n, 0, stride)| == (n + stride - 1) / stride
  {
    var s := WindowStarts(n, 0, stride);
    StartsShape(n, 0, stride);
    var c := |s|;
    if 0 < c {
      StartsAreMultiples(n, 0, stride, c - 1);
      assert (c - 1) * stride + stride == c * stride;
    }
    CeilingDivision(n, stride, c);
  }

  /**
   * The three outcomes of `chunk_text`: blank text gives no chunks, text of at most
   * `chunkSize` tokens gives itself, and longer text gives one chunk per loop start
   * (`ceil(n / stride)` of them, `WindowCount`), chunk `i` being the stripped
   * decoding of the slice of at most `chunkSize` tokens at the `i`-th start, which is
   * `i * stride` (`StartsAreMultiples`).
   */
  lemma ChunksShape<T>(text: string, chunkSize: nat, overlapTokens: int,
                       encode: string -> seq<T>, decode: seq<T> -> string)
    requires 0 < chunkSize && overlapTokens < chunkSize
    ensures IsBlank(text) ==> Chunks(text, chunkSize, overlapTokens, encode, decode) == []
    ensures !IsBlank(text) && |encode(text)| <= chunkSize ==> Chunks(text, chunkSize, overlapTokens, encode, decode) == [text]
    ensures !IsBlank(text) && chunkSize < |encode(text)| ==>
              |Chunks(text, chunkSize, overlapTokens, encode, decode)| == |WindowStarts(|encode(text)|, 0, chunkSize - overlapTokens)|
    ensures !IsBlank(text) && chunkSize < |encode(text)| ==>
              forall i :: 0 <= i < |WindowStarts(|encode(text)|, 0, chunkSize - overlapTokens)| ==>
                && WindowStarts(|encode(text)|, 0, chunkSize - overlapTokens)[i] < |encode(text)|
                && Chunks(text, chunkSize, overlapTokens, encode, decode)[i]
                   == Strip(decode(encode(text)[WindowStarts(|encode(text)|, 0, chunkSize - overlapTokens)[i]
                                                ..Min(WindowStarts(|encode(text)|, 0, chunkSize - overlapTokens)[i] + chunkSize, |encode(text)|)]))
  {
    var tokens := encode(text);
    if !IsBlank(text) && chunkSize < |tokens| {
      DecodedAtStarts(tokens, chunkSize, chunkSize - overlapTokens, decode);
      assert Chunks(text, chunkSize, overlapTokens, encode, decode)
             == DecodeWindows(Windows(tokens, 0, chunkSize, chunkSize - overlapTokens), decode);
    }
  }

  /** The decoded window `i` is the stripped decoding of the slice at the `i`-th start. */
  lemma DecodedAtStarts<T>(tokens: seq<T>, size: nat, stride: nat, decode: seq<T> -> string)
    requires 0 < stride
    ensures |DecodeWindows(Windows(tokens, 0, size, stride), decode)| == |WindowStarts(|tokens|, 0, stride)|
    ensures forall i :: 0 <= i < |WindowStarts(|tokens|, 0, stride)| ==>
              && WindowStarts(|tokens|, 0, stride)[i] < |tokens|
              && DecodeWindows(Windows(tokens, 0, size, stride), decode)[i]
                 == Strip(decode(tokens[WindowStarts(|tokens|, 0, stride)[i]..Min(WindowStarts(|tokens|, 0, stride)[i] + size, |tokens|)]))
  {
    WindowsLength(tokens, 0, size, stride);
    forall i | 0 <= i < |WindowStarts(|tokens|, 0, stride)|
      ensures WindowStarts(|tokens|, 0, stride)[i] < |tokens|
      ensures DecodeWindows(Windows(tokens, 0, size, stride), decode)[i]
              == Strip(decode(tokens[WindowStarts(|tokens|, 0, stride)[i]..Min(WindowStarts(|tokens|, 0, stride)[i] + size, |tokens|)]))
    {
      WindowAt(tokens, 0, size, stride, i);
      var w := Windows(tokens, 0, size, stride);
      assert DecodeWindows(w, decode)[i] == Strip(decode(w[i]));
    }
  }

  /** Every text that is not blank yields at least one chunk. */
  lemma ChunksEmptyIffBlank<T>(text: string, chunkSize: nat, overlapTokens: int,
                               encode: string -> seq<T>, decode: seq<T> -> string)
    requires 0 < chunkSize && overlapTokens < chunkSize
    ensures Chunks(text, chunkSize, overlapTokens, encode, decode) == [] <==> IsBlank(text)
  {
    var tokens := encode(text);
    if !IsBlank(text) && chunkSize < |tokens| {
      assert Windows(tokens, 0, chunkSize, chunkSize - overlapTokens) != [];
    }
  }

  /**
   * With a stride no larger than the window size, a token position `j` at or after
   * `start` lies in the window at the start the lemma returns.
   */
  lemma {:induction false} WindowsCover(n: nat, start: nat, size: nat, stride: nat, j: nat)
    returns (i: nat)
    requires 0 < stride <= size
    requires start <= j < n
    ensures i < |WindowStarts(n, start, stride)|
    ensures WindowStarts(n, start, stride)[i] <= j < WindowStarts(n, start, stride)[i] + size
    decreases n - start
  {
    if j < start + size {
      i := 0;
    } else {
      var k := WindowsCover(n, start + stride, size, stride, j);
      i := k + 1;
    }
  }

  /**
   * Coverage: for text longer than one window and an overlap of at least zero
   * tokens, token `j` of the text lies in the window of the chunk the lemma returns,
   * so the windows leave no gap.
   */
  lemma ChunkCoverage<T>(text: string, chunkSize: nat, overlapTokens: nat,
                         encode: string -> seq<T>, decode: seq<T> -> string, j: nat)
    returns (i: nat)
    requires overlapTokens < chunkSize
    requires !IsBlank(text) && chunkSize < |encode(text)| && j < |encode(text)|
    ensures var s := WindowStarts(|encode(text)|, 0, chunkSize - overlapTokens);
            && i < |s|
            && s[i] <= j < s[i] + chunkSize
            && i < |Chunks(text, chunkSize, overlapTokens, encode, decode)|
  {
    var stride: nat := chunkSize - overlapTokens;
    i := WindowsCover(|encode(text)|, 0, chunkSize, stride, j);
    ChunksShape(text, chunkSize, overlapTokens, encode, decode);
  }

  /**
   * Consecutive windows share tokens: window `i` minus its first `stride` tokens is a
   * prefix of window `i + 1`, and when window `i` is full (not cut short by the end
   * of the text) that shared part is exactly the first `overlapTokens` tokens of
   * window `i + 1`.
   */
  lemma ConsecutiveWindowsOverlap<T>(tokens: seq<T>, size: nat, overlapTokens: nat, i: nat)
    requires overlapTokens < size
    requires i + 1 < |Windows(tokens, 0, size, size - overlapTokens)|
    ensures var w, stride := Windows(tokens, 0, size, size - overlapTokens), size - overlapTokens;
            && stride <= |w[i]|
            && w[i][stride..] <= w[i + 1]
            && (|w[i]| == size ==> overlapTokens <= |w[i + 1]| && w[i][stride..] == w[i + 1][..overlapTokens])
  {
    var stride: nat := size - overlapTokens;
    var w, s := Windows(tokens, 0, size, stride), WindowStarts(|tokens|, 0, stride);
    StartsShape(|tokens|, 0, stride);
    WindowsShape(tokens, 0, size, stride);
    assert s[i + 1] == s[i] + stride;
    assert w[i] == tokens[s[i]..Min(s[i] + size, |tokens|)];
    assert w[i + 1] == tokens[s[i] + stride..Min(s[i] + stride + size, |tokens|)];
  }

  /**
   * Fifty tokens, windows of 30 and an overlap of 6 (stride 24): the windows are
   * [0, 30), [24, 50) and [48, 50), three chunks, and the last window lies entirely
   * inside its predecessor.
   */
  lemma FiftyTokenScenario<T>(tokens: seq<T>)
    requires |tokens| == 50
    ensures var w := Windows(tokens, 0, 30, 24);
            && |w| == 3
            && w[0] == tokens[0..30] && w[1] == tokens[24..50] && w[2] == tokens[48..50]
            && w[2] == w[1][24..]
  {
    assert Windows(tokens, 72, 30, 24) == [];
    assert Windows(tokens, 48, 30, 24) == [tokens[48..50]];
    assert Windows(tokens, 24, 30, 24) == [tokens[24..50], tokens[48..50]];
  }

  /** The value of `start` after `k` passes of the chunking loop. */
  function StartAfter(k: nat, chunkSize: int, overlapTokens: int): int {
    if k == 0 then 0 else StartAfter(k - 1, chunkSize, overlapTokens) + chunkSize - overlapTokens
  }

  /**
   * With a stride `chunkSize - overlapTokens` of zero or less, `start` never grows,
   * so both the loop test `start < len(tokens)` and the break test keep `start`
   * below the (non-zero) token count on every pass: the loop never ends.
   */
  lemma {:induction false} NonPositiveStrideNeverEnds(k: nat, chunkSize: int, overlapTokens: int, n: nat)
    requires chunkSize - overlapTokens <= 0 && 0 < n
    ensures StartAfter(k, chunkSize, overlapTokens) <= 0
    ensures StartAfter(k, chunkSize, overlapTokens) < n
  {
    if 0 < k {
      NonPositiveStrideNeverEnds(k - 1, chunkSize, overlapTokens, n);
    }
  }
}
