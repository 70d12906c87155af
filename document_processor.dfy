/**
 * utils/documentProcessor.ts: the batch runner that feeds documents to the
 * summariser a few at a time, and the preprocessor that normalises white
 * space and caps a document's length.
 */
module DocumentProcessor {
  import opened Common
  import opened Text

  // ---------------------------------------------------------------------
  // preprocessDocument
  // ---------------------------------------------------------------------

  /** The length budget of a preprocessed document, in characters. */
  const MaxLength: nat := 10000

  /** Appended to a document cut at the length budget. */
  const TruncationMarker: string := "... [document truncated]"

  /** No white space other than a plain space, and never two white-space characters in a row. */
  predicate Collapsed(s: string) {
    && (forall i :: 0 <= i < |s| && IsSpace(s[i]) ==> s[i] == ' ')
    && (forall i :: 0 <= i < |s| - 1 ==> !(IsSpace(s[i]) && IsSpace(s[i + 1])))
  }

  /** `s.replace(/\s+/g, ' ')`: every maximal run of white space becomes one space. */
  function CollapseWhitespace(s: string): (r: string)
    ensures |r| <= |s|
    ensures (r == []) == (s == [])
    ensures s != [] && IsSpace(s[0]) ==> r[0] == ' '
    ensures s != [] && !IsSpace(s[0]) ==> r[0] == s[0]
    decreases |s|
  {
    if s == [] then []
    else if IsSpace(s[0]) then [' '] + CollapseWhitespace(TrimStart(s[1..]))
    else [s[0]] + CollapseWhitespace(s[1..])
  }

  /** Joining two collapsed pieces stays collapsed unless white space meets white space. */
  lemma CollapsedConcat(a: string, b: string)
    requires Collapsed(a) && Collapsed(b)
    requires a == [] || b == [] || !IsSpace(a[|a| - 1]) || !IsSpace(b[0])
    ensures Collapsed(a + b)
  {
    var r := a + b;
    forall i | 0 <= i < |r| && IsSpace(r[i]) ensures r[i] == ' ' {
      if i < |a| { assert r[i] == a[i]; } else { assert r[i] == b[i - |a|]; }
    }
    forall i | 0 <= i < |r| - 1 ensures !(IsSpace(r[i]) && IsSpace(r[i + 1])) {
      if i + 1 < |a| {
        assert r[i] == a[i] && r[i + 1] == a[i + 1];
      } else if i + 1 == |a| {
        assert r[i] == a[|a| - 1] && r[i + 1] == b[0];
      } else {
        assert r[i] == b[i - |a|] && r[i + 1] == b[i + 1 - |a|];
      }
    }
  }

  /** The collapsed text has no white space but single plain spaces. */
  lemma {:induction false} CollapseNormalises(s: string)
    ensures Collapsed(CollapseWhitespace(s))
    decreases |s|
  {
    if s != [] {
      if IsSpace(s[0]) {
        var rest := TrimStart(s[1..]);
        CollapseNormalises(rest);
        CollapsedConcat([' '], CollapseWhitespace(rest));
      } else {
        CollapseNormalises(s[1..]);
        CollapsedConcat([s[0]], CollapseWhitespace(s[1..]));
      }
    }
  }

  /** The characters of `s` that are not white space, in order. */
  function NonSpace(s: string): string
  {
    if s == [] then [] else (if IsSpace(s[0]) then [] else [s[0]]) + NonSpace(s[1..])
  }

  lemma {:induction false} NonSpaceAppend(a: string, b: string)
    ensures NonSpace(a + b) == NonSpace(a) + NonSpace(b)
  {
    if a == [] {
      assert a + b == b;
    } else {
      assert (a + b)[0] == a[0];
      assert (a + b)[1..] == a[1..] + b;
      NonSpaceAppend(a[1..], b);
    }
  }

  lemma {:induction false} NonSpaceOfSpaces(s: string)
    requires AllSpace(s)
    ensures NonSpace(s) == []
  {
    if s != [] {
      NonSpaceOfSpaces(s[1..]);
    }
  }

  /** Collapsing white space keeps every other character, in order. */
  lemma {:induction false} CollapseKeepsText(s: string)
    ensures NonSpace(CollapseWhitespace(s)) == NonSpace(s)
    decreases |s|
  {
    if s != [] {
      var r := CollapseWhitespace(s);
      if IsSpace(s[0]) {
        var rest := TrimStart(s[1..]);
        CollapseKeepsText(rest);
        NonSpaceAppend([' '], CollapseWhitespace(rest));
        var cut := s[1..][..|s| - 1 - |rest|];
        assert s[1..] == cut + rest;
        NonSpaceAppend(cut, rest);
        NonSpaceOfSpaces(cut);
      } else {
        CollapseKeepsText(s[1..]);
        NonSpaceAppend([s[0]], CollapseWhitespace(s[1..]));
      }
    }
  }

  /** A string whose white space is already collapsed is left as it is. */
  lemma {:induction false} CollapseFixpoint(s: string)
    requires Collapsed(s)
    ensures CollapseWhitespace(s) == s
    decreases |s|
  {
    if s != [] {
      assert Collapsed(s[1..]);
      if IsSpace(s[0]) {
        assert s[1..] == [] || !IsSpace(s[1..][0]);
        assert TrimStart(s[1..]) == s[1..];
      }
      CollapseFixpoint(s[1..]);
    }
  }

  /** Collapsing white space twice is collapsing it once. */
  lemma CollapseIdempotent(s: string)
    ensures CollapseWhitespace(CollapseWhitespace(s)) == CollapseWhitespace(s)
  {
    CollapseNormalises(s);
    CollapseFixpoint(CollapseWhitespace(s));
  }

  /** A run made only of white space collapses to one plain space: it is never deleted. */
  lemma CollapseAllSpace(w: string)
    requires w != [] && AllSpace(w)
    ensures CollapseWhitespace(w) == " "
  {
    TrimStartAt(w[1..], |w| - 1);
  }

  /**
   * Collapsing works piece by piece when the cut does not fall inside a
   * white-space run; with `CollapseAllSpace` this says that each maximal
   * run becomes exactly one space and the text around it is kept.
   */
  lemma {:induction false} CollapseConcat(a: string, b: string)
    requires a == [] || b == [] || !IsSpace(a[|a| - 1]) || !IsSpace(b[0])
    ensures CollapseWhitespace(a + b) == CollapseWhitespace(a) + CollapseWhitespace(b)
    decreases |a|
  {
    if a == [] {
      assert a + b == b;
    } else if !IsSpace(a[0]) {
      var x := a[1..];
      assert x != [] ==> x[|x| - 1] == a[|a| - 1];
      CollapseConcat(x, b);
      ConcatAfterText(a, b);
    } else if AllSpace(a[1..]) {
      SpaceRunThenText(a, b);
      ConcatAfterRun(a, b);
    } else {
      var t := SkipSpaceRun(a, b);
      CollapseConcat(t, b);
      ConcatAfterSkip(a, b, t);
    }
  }

  /** A leading non-space character is copied, so the split carries over from the rest of `a`. */
  lemma ConcatAfterText(a: string, b: string)
    requires a != [] && !IsSpace(a[0])
    requires CollapseWhitespace(a[1..] + b) == CollapseWhitespace(a[1..]) + CollapseWhitespace(b)
    ensures CollapseWhitespace(a + b) == CollapseWhitespace(a) + CollapseWhitespace(b)
  {
    CollapseHead(a, b);
    Regroup([a[0]], CollapseWhitespace(a[1..]), CollapseWhitespace(b));
  }

  /** A leading run that is all of `a` becomes the one space before `b`'s collapse. */
  lemma ConcatAfterRun(a: string, b: string)
    requires a != [] && IsSpace(a[0])
    requires TrimStart(a[1..]) == [] && TrimStart(a[1..] + b) == b
    ensures CollapseWhitespace(a + b) == CollapseWhitespace(a) + CollapseWhitespace(b)
  {
    CollapseHead(a, b);
    assert CollapseWhitespace(a) == [' '] + CollapseWhitespace([]) == [' '];
    assert CollapseWhitespace(a + b) == [' '] + CollapseWhitespace(b);
  }

  /** A leading run that stops inside `a` becomes one space, and the split carries over from the rest. */
  lemma ConcatAfterSkip(a: string, b: string, t: string)
    requires a != [] && IsSpace(a[0])
    requires t == TrimStart(a[1..]) && TrimStart(a[1..] + b) == t + b
    requires CollapseWhitespace(t + b) == CollapseWhitespace(t) + CollapseWhitespace(b)
    ensures CollapseWhitespace(a + b) == CollapseWhitespace(a) + CollapseWhitespace(b)
  {
    CollapseHead(a, b);
    Regroup([' '], CollapseWhitespace(t), CollapseWhitespace(b));
  }

  lemma Regroup(h: string, u: string, w: string)
    ensures h + (u + w) == (h + u) + w
  {
  }

  /** One step of `CollapseWhitespace` on `a` and on `a + b`. */
  lemma CollapseHead(a: string, b: string)
    requires a != []
    ensures IsSpace(a[0]) ==>
      && CollapseWhitespace(a) == [' '] + CollapseWhitespace(TrimStart(a[1..]))
      && CollapseWhitespace(a + b) == [' '] + CollapseWhitespace(TrimStart(a[1..] + b))
    ensures !IsSpace(a[0]) ==>
      && CollapseWhitespace(a) == [a[0]] + CollapseWhitespace(a[1..])
      && CollapseWhitespace(a + b) == [a[0]] + CollapseWhitespace(a[1..] + b)
  {
    assert (a + b)[0] == a[0] && (a + b)[1..] == a[1..] + b;
  }

  /** A leading run that is all of `a`: the white space after it is skipped and `b` is reached. */
  lemma SpaceRunThenText(a: string, b: string)
    requires a != [] && AllSpace(a)
    requires b == [] || !IsSpace(a[|a| - 1]) || !IsSpace(b[0])
    ensures TrimStart(a[1..]) == [] && TrimStart(a[1..] + b) == b
  {
    var x := a[1..];
    assert IsSpace(a[|a| - 1]);
    TrimStartAt(x, |x|);
    assert (x + b)[..|x|] == x;
    assert (x + b)[|x|..] == b;
    TrimStartAt(x + b, |x|);
  }

  /** A leading run that stops inside `a`: skipping it in `a + b` leaves the rest of `a`, then `b`. */
  lemma SkipSpaceRun(a: string, b: string) returns (t: string)
    requires a != [] && !AllSpace(a[1..])
    ensures t == TrimStart(a[1..]) && TrimStart(a[1..] + b) == t + b
    ensures |t| < |a| && t != [] && t[|t| - 1] == a[|a| - 1]
  {
    var x := a[1..];
    t := TrimStart(x);
    TrimStartAppend(x, b);
    assert t[|t| - 1] == x[|x| - 1];
  }

  /**
   * `preprocessDocument`: the empty document stays empty; otherwise white
   * space is collapsed and a result longer than the budget is cut to the
   * budget and marked. (`extractKeySections` runs in between, but its
   * result is never used.)
   */
  function PreprocessDocument(content: string): (r: string)
    ensures content == [] ==> r == []
    ensures |r| <= MaxLength + |TruncationMarker|
  {
    if content == [] then []
    else
      var processed := CollapseWhitespace(content);
      if |processed| > MaxLength then processed[..MaxLength] + TruncationMarker else processed
  }

  /** A result within the budget is the collapsed text; a longer one is its first 10000 characters and the marker. */
  lemma PreprocessCases(content: string)
    ensures var c := CollapseWhitespace(content);
      && (|c| <= MaxLength ==> PreprocessDocument(content) == c)
      && (|c| > MaxLength ==> PreprocessDocument(content) == c[..MaxLength] + TruncationMarker)
  {
  }

  lemma CollapsedPrefix(s: string, n: nat)
    requires Collapsed(s) && n <= |s|
    ensures Collapsed(s[..n])
  {
    assert forall i :: 0 <= i < n ==> s[..n][i] == s[i];
  }

  lemma MarkerCollapsed()
    ensures Collapsed(TruncationMarker) && !IsSpace(TruncationMarker[0])
  {
    var m := TruncationMarker;
    forall i | 0 <= i < |m| ensures if i == 3 || i == 13 then m[i] == ' ' else 0x21 <= m[i] as int <= 0x7E {
    }
    forall i | 0 <= i < |m| ensures IsSpace(m[i]) <==> i == 3 || i == 13 {
      if i != 3 && i != 13 { VisibleAsciiNotSpace(m[i]); }
    }
  }

  /** Printable ASCII other than the space is not white space. */
  lemma VisibleAsciiNotSpace(c: char)
    requires 0x21 <= c as int <= 0x7E
    ensures !IsSpace(c)
  {
  }

  /** The preprocessed text, marker included, has no white space but single plain spaces. */
  lemma PreprocessCollapsed(content: string)
    ensures Collapsed(PreprocessDocument(content))
  {
    var c := CollapseWhitespace(content);
    CollapseNormalises(content);
    if content != [] && |c| > MaxLength {
      CollapsedPrefix(c, MaxLength);
      MarkerCollapsed();
      CollapsedConcat(c[..MaxLength], TruncationMarker);
    }
  }

  /** Preprocessing a preprocessed document changes nothing. */
  lemma PreprocessIdempotent(content: string)
    ensures PreprocessDocument(PreprocessDocument(content)) == PreprocessDocument(content)
  {
    var r := PreprocessDocument(content);
    if content != [] {
      PreprocessCollapsed(content);
      CollapseFixpoint(r);
      var c := CollapseWhitespace(content);
      if |c| > MaxLength {
        assert r[..MaxLength] == c[..MaxLength];
      }
    }
  }

  // ---------------------------------------------------------------------
  // processInBatches
  // ---------------------------------------------------------------------

  /**
   * One observable step of the batch runner: the processor invoked on an
   * item, the settle barrier of `Promise.allSettled` over a chunk, or the
   * rate-limiting delay.
   */
  datatype Step<T> = Invoke(item: T) | AllSettled | Pause

  /** The contiguous chunks `items.slice(i, i + size)` for i = 0, size, 2*size, ... */
  function Chunks<T>(items: seq<T>, size: nat): (r: seq<seq<T>>)
    requires size > 0
    ensures forall k :: 0 <= k < |r| ==> 0 < |r[k]| <= size
    decreases |items|
  {
    if items == [] then []
    else if |items| <= size then [items]
    else [items[..size]] + Chunks(items[size..], size)
  }

  function Concat<T>(parts: seq<seq<T>>): seq<T>
  {
    if parts == [] then [] else parts[0] + Concat(parts[1..])
  }

  /** ceil(m / n). */
  function CeilDiv(m: nat, n: nat): nat
    requires n > 0
  {
    (m + n - 1) / n
  }

  /** The chunks, in order, make up the items. */
  lemma {:induction false} ChunksConcat<T>(items: seq<T>, size: nat)
    requires size > 0
    ensures Concat(Chunks(items, size)) == items
    decreases |items|
  {
    if |items| > size {
      ChunksConcat(items[size..], size);
      assert items == items[..size] + items[size..];
    }
  }

  lemma DivStep(m: nat, n: nat)
    requires n > 0
    ensures (m + n) / n == m / n + 1
  {
    var q, r := m / n, m % n;
    assert m == q * n + r;
    assert m + n == (q + 1) * n + r;
    DivUnique(m + n, n, q + 1, r);
  }

  lemma DivUnique(a: int, n: int, q: int, r: int)
    requires n > 0 && 0 <= r < n && a == q * n + r
    ensures a / n == q
  {
    var q', r' := a / n, a % n;
    assert a == q' * n + r';
    if q' < q {
      assert (q - q') * n == r' - r;
      MulAtLeast(q - q', n);
    } else if q' > q {
      assert (q' - q) * n == r - r';
      MulAtLeast(q' - q, n);
    }
  }

  lemma MulAtLeast(k: int, n: int)
    requires k >= 1 && n > 0
    ensures k * n >= n
  {
  }

  lemma MulSucc(k: int, n: int)
    ensures (k + 1) * n == k * n + n
  {
  }

  /** The number of chunks counted the way `Chunks` cuts them. */
  function ChunkCount(m: nat, n: nat): nat
    requires n > 0
    decreases m
  {
    if m == 0 then 0 else if m <= n then 1 else 1 + ChunkCount(m - n, n)
  }

  lemma {:induction false} ChunkCountIsCeilDiv(m: nat, n: nat)
    requires n > 0
    ensures ChunkCount(m, n) == CeilDiv(m, n)
    decreases m
  {
    if m == 0 {
      DivUnique(n - 1, n, 0, n - 1);
    } else if m <= n {
      DivUnique(m + n - 1, n, 1, m - 1);
    } else {
      ChunkCountIsCeilDiv(m - n, n);
      DivStep(m - 1, n);
    }
  }

  lemma {:induction false} ChunksLength<T>(items: seq<T>, size: nat)
    requires size > 0
    ensures |Chunks(items, size)| == ChunkCount(|items|, size)
    decreases |items|
  {
    if |items| > size {
      ChunksLength(items[size..], size);
    }
  }

  /** There are ceil(M / N) chunks. */
  lemma ChunksCount<T>(items: seq<T>, size: nat)
    requires size > 0
    ensures |Chunks(items, size)| == CeilDiv(|items|, size)
  {
    ChunksLength(items, size);
    ChunkCountIsCeilDiv(|items|, size);
  }

  /** Where chunk k starts: k * n, counted by repeated addition. */
  function Offset(k: nat, n: nat): nat
  {
    if k == 0 then 0 else Offset(k - 1, n) + n
  }

  lemma {:induction false} OffsetIsProduct(k: nat, n: nat)
    ensures Offset(k, n) == k * n
  {
    if k > 0 {
      OffsetIsProduct(k - 1, n);
      MulSucc(k - 1, n);
    }
  }

  lemma {:induction false} ChunkAtOffset<T>(items: seq<T>, size: nat, k: nat)
    requires size > 0 && k < |Chunks(items, size)|
    ensures Offset(k, size) < |items|
    ensures Chunks(items, size)[k] == items[Offset(k, size) .. Min(Offset(k, size) + size, |items|)]
    decreases |items|
  {
    ChunksFirst(items, size);
    if k > 0 {
      var rest := items[size..];
      ChunkAtOffset(rest, size, k - 1);
      var lo := Offset(k - 1, size);
      var hi := Min(lo + size, |rest|);
      assert Min(lo + size + size, |items|) == hi + size;
      SliceOfSuffix(items, size, lo, hi);
    }
  }

  /** The first chunk is the first `size` items, or all of them; the others are the chunks of the rest. */
  lemma ChunksFirst<T>(items: seq<T>, size: nat)
    requires size > 0
    ensures |items| <= size ==> |Chunks(items, size)| <= 1
    ensures 0 < |items| <= size ==> Chunks(items, size) == [items[..Min(size, |items|)]]
    ensures |items| > size ==> Chunks(items, size) == [items[..size]] + Chunks(items[size..], size)
  {
    assert items[..|items|] == items;
  }

  lemma SliceOfSuffix<T>(s: seq<T>, d: nat, i: nat, j: nat)
    requires d <= |s| && i <= j <= |s| - d
    ensures s[d..][i..j] == s[d + i..d + j]
  {
  }

  /** Chunk k is items[k*N .. min((k+1)*N, M)]. */
  lemma ChunkAt<T>(items: seq<T>, size: nat, k: nat)
    requires size > 0 && k < |Chunks(items, size)|
    ensures k * size < |items|
    ensures Chunks(items, size)[k] == items[k * size .. Min((k + 1) * size, |items|)]
  {
    ChunkAtOffset(items, size, k);
    OffsetIsProduct(k, size);
    MulSucc(k, size);
  }

  /** What the processor's promise settles to for each item: `None` when it rejects. */
  function Outcomes<T, R>(items: seq<T>, process: T -> Option<R>): (r: seq<Option<R>>)
    ensures |r| == |items|
  {
    seq(|items|, i requires 0 <= i < |items| => process(items[i]))
  }

  /** The values of the fulfilled outcomes, in order. */
  function Fulfilled<R>(outcomes: seq<Option<R>>): seq<R>
  {
    if outcomes == [] then []
    else
      var last := outcomes[|outcomes| - 1];
      Fulfilled(outcomes[..|outcomes| - 1]) + (if last.Some? then [last.value] else [])
  }

  lemma {:induction false} FulfilledAppend<R>(a: seq<Option<R>>, b: seq<Option<R>>)
    ensures Fulfilled(a + b) == Fulfilled(a) + Fulfilled(b)
    decreases |b|
  {
    if b == [] {
      assert a + b == a;
    } else {
      assert (a + b)[..|a + b| - 1] == a + b[..|b| - 1];
      assert (a + b)[|a + b| - 1] == b[|b| - 1];
      FulfilledAppend(a, b[..|b| - 1]);
    }
  }

  /** There are no more results than outcomes, and each result is the value of a fulfilled outcome. */
  lemma {:induction false} FulfilledBounds<R>(outcomes: seq<Option<R>>)
    ensures |Fulfilled(outcomes)| <= |outcomes|
    ensures forall v :: v in Fulfilled(outcomes) ==> Some(v) in outcomes
    decreases |outcomes|
  {
    if outcomes != [] {
      FulfilledBounds(outcomes[..|outcomes| - 1]);
    }
  }

  /** A chunk whose every item fails contributes no results. */
  lemma {:induction false} FulfilledAllRejected<R>(outcomes: seq<Option<R>>)
    requires forall i :: 0 <= i < |outcomes| ==> outcomes[i].None?
    ensures Fulfilled(outcomes) == []
    decreases |outcomes|
  {
    if outcomes != [] {
      FulfilledAllRejected(outcomes[..|outcomes| - 1]);
    }
  }

  /** When nothing fails, every item yields its result. */
  lemma {:induction false} FulfilledAllSucceeded<R>(outcomes: seq<Option<R>>)
    requires forall i :: 0 <= i < |outcomes| ==> outcomes[i].Some?
    ensures |Fulfilled(outcomes)| == |outcomes|
    decreases |outcomes|
  {
    if outcomes != [] {
      FulfilledAllSucceeded(outcomes[..|outcomes| - 1]);
    }
  }

  /** One invocation per item, in order. */
  function Invocations<T>(chunk: seq<T>): (r: seq<Step<T>>)
    ensures |r| == |chunk|
    ensures forall i :: 0 <= i < |r| ==> r[i] == Invoke(chunk[i])
  {
    if chunk == [] then [] else Invocations(chunk[..|chunk| - 1]) + [Invoke(chunk[|chunk| - 1])]
  }

  /** The invocations of a chunk followed by its settle barrier. */
  function ChunkSteps<T>(chunk: seq<T>): (r: seq<Step<T>>)
  {
    Invocations(chunk) + [AllSettled]
  }

  /** The steps of running the chunks in order, with a pause after each chunk that is not the last. */
  function BatchTrace<T>(chunks: seq<seq<T>>): seq<Step<T>>
  {
    if chunks == [] then []
    else if |chunks| == 1 then ChunkSteps(chunks[0])
    else BatchTrace(chunks[..|chunks| - 1]) + [Pause] + ChunkSteps(chunks[|chunks| - 1])
  }

  /**
   * `processInBatches`: the items are taken in chunks of `batchSize`; the
   * processor is invoked on every item of a chunk, the chunk's outcomes are
   * awaited together and the fulfilled ones appended to the results, and
   * the delay is taken when more items remain. With a batch size of 0 the
   * source never advances its index, so only the empty list is accepted then.
   */
  method ProcessInBatches<T, R>(items: seq<T>, process: T -> Option<R>, batchSize: nat)
    returns (results: seq<R>, trace: seq<Step<T>>)
    requires batchSize > 0 || items == []
    ensures results == Fulfilled(Outcomes(items, process))
    ensures batchSize > 0 ==> trace == BatchTrace(Chunks(items, batchSize))
    ensures items == [] ==> trace == []
  {
    results, trace := [], [];
    var i: nat := 0;
    ghost var batches: seq<seq<T>> := [];
    ghost var done: nat := 0;  // how many items the chunks so far cover
    while i < |items|
      invariant Progress(items, process, batchSize, i, done, batches, results, trace)
      decreases |items| - i
    {
      var end := Min(i + batchSize, |items|);
      var batch := items[i..end];
      var settled, calls := SettleChunk(batch, process);
      var values := KeepFulfilled(settled);
      ghost var trace0, results0 := trace, results;
      trace := trace + calls + [AllSettled];
      results := results + values;
      if i + batchSize < |items| {
        trace := trace + [Pause];
      }
      ProgressStep(items, process, batchSize, i, done, batches, results0, trace0, values, trace);
      batches := batches + [batch];
      i := i + batchSize;
      done := end;
    }
    ProgressDone(items, process, batchSize, i, done, batches, results, trace);
  }

  /** The loop invariant of `ProcessInBatches` after the chunks in `batches`, which cover `items[..done]`. */
  ghost predicate Progress<T, R>(items: seq<T>, process: T -> Option<R>, size: nat, i: nat, done: nat,
                                 batches: seq<seq<T>>, results: seq<R>, trace: seq<Step<T>>)
  {
    && done == Min(i, |items|)
    && (size > 0 ==> batches + Chunks(items[done..], size) == Chunks(items, size))
    && results == Fulfilled(Outcomes(items[..done], process))
    && trace == (if batches == [] then [] else BatchTrace(batches) + (if i < |items| then [Pause] else []))
    && (batches == [] <==> i == 0)
    && (items == [] ==> i == 0)
    && (size == 0 ==> items == [])
  }

  lemma ProgressStep<T, R>(items: seq<T>, process: T -> Option<R>, size: nat, i: nat, done: nat,
                           batches: seq<seq<T>>, results: seq<R>, trace: seq<Step<T>>,
                           values: seq<R>, trace': seq<Step<T>>)
    requires i < |items| && Progress(items, process, size, i, done, batches, results, trace)
    requires values == Fulfilled(Outcomes(items[i..Min(i + size, |items|)], process))
    requires trace' == trace + Invocations(items[i..Min(i + size, |items|)]) + [AllSettled]
                       + (if i + size < |items| then [Pause] else [])
    ensures Progress(items, process, size, i + size, Min(i + size, |items|),
                     batches + [items[i..Min(i + size, |items|)]], results + values, trace')
  {
    var end := Min(i + size, |items|);
    var batch := items[i..end];
    assert size > 0 && done == i;
    assert (batches + [batch]) + Chunks(items[end..], size) == Chunks(items, size) by {
      ChunksStep(items, i, size, batches);
    }
    assert results + values == Fulfilled(Outcomes(items[..end], process)) by {
      OutcomesStep(items, i, end, process);
    }
    assert trace + Invocations(batch) + [AllSettled] == BatchTrace(batches + [batch]) by {
      TraceStep(batches, batch);
    }
  }

  lemma ProgressDone<T, R>(items: seq<T>, process: T -> Option<R>, size: nat, i: nat, done: nat,
                           batches: seq<seq<T>>, results: seq<R>, trace: seq<Step<T>>)
    requires i >= |items| && Progress(items, process, size, i, done, batches, results, trace)
    ensures results == Fulfilled(Outcomes(items, process))
    ensures size > 0 ==> trace == BatchTrace(Chunks(items, size))
    ensures items == [] ==> trace == []
  {
    assert items[..done] == items;
    assert items[done..] == [];
    if size > 0 {
      assert batches + [] == batches;
    }
  }

  /**
   * `batch.map(item => processor(item))` awaited with `Promise.allSettled`:
   * the processor is invoked on each item in order and the outcomes are
   * collected in the same order.
   */
  method SettleChunk<T, R>(batch: seq<T>, process: T -> Option<R>)
    returns (settled: seq<Option<R>>, calls: seq<Step<T>>)
    ensures settled == Outcomes(batch, process)
    ensures calls == Invocations(batch)
  {
    settled, calls := [], [];
    var j := 0;
    while j < |batch|
      invariant 0 <= j <= |batch|
      invariant settled == Outcomes(batch[..j], process)
      invariant calls == Invocations(batch[..j])
    {
      assert batch[..j + 1][..j] == batch[..j];
      calls := calls + [Invoke(batch[j])];
      settled := settled + [process(batch[j])];
      j := j + 1;
    }
    assert batch[..j] == batch;
  }

  /** `batchResults.forEach(...)`: the values of the fulfilled outcomes, in order. */
  method KeepFulfilled<R>(settled: seq<Option<R>>) returns (values: seq<R>)
    ensures values == Fulfilled(settled)
  {
    values := [];
    var k := 0;
    while k < |settled|
      invariant 0 <= k <= |settled|
      invariant values == Fulfilled(settled[..k])
    {
      assert settled[..k + 1][..k] == settled[..k];
      if settled[k].Some? {
        values := values + [settled[k].value];
      }
      k := k + 1;
    }
    assert settled[..k] == settled;
  }

  /** Taking the chunk at `i` off the front of the remaining items. */
  lemma ChunksStep<T>(items: seq<T>, i: nat, size: nat, done: seq<seq<T>>)
    requires size > 0 && i < |items|
    requires done + Chunks(items[i..], size) == Chunks(items, size)
    ensures (done + [items[i..Min(i + size, |items|)]]) + Chunks(items[Min(i + size, |items|)..], size)
         == Chunks(items, size)
  {
    var rest := items[i..];
    var end := Min(i + size, |items|);
    if |rest| > size {
      assert rest[..size] == items[i..i + size] && rest[size..] == items[i + size..];
    } else {
      assert rest == items[i..|items|] && items[|items|..] == [];
    }
    assert Chunks(rest, size) == [items[i..end]] + Chunks(items[end..], size);
  }

  lemma OutcomesStep<T, R>(items: seq<T>, i: nat, end: nat, process: T -> Option<R>)
    requires i <= end <= |items|
    ensures Fulfilled(Outcomes(items[..end], process))
         == Fulfilled(Outcomes(items[..i], process)) + Fulfilled(Outcomes(items[i..end], process))
  {
    assert Outcomes(items[..end], process) == Outcomes(items[..i], process) + Outcomes(items[i..end], process);
    FulfilledAppend(Outcomes(items[..i], process), Outcomes(items[i..end], process));
  }

  lemma TraceStep<T>(batches: seq<seq<T>>, batch: seq<T>)
    ensures BatchTrace(batches + [batch])
         == (if batches == [] then [] else BatchTrace(batches) + [Pause]) + ChunkSteps(batch)
  {
    assert (batches + [batch])[..|batches|] == batches;
  }

  /** The Invoke steps of a trace, in order. */
  function Invoked<T>(trace: seq<Step<T>>): seq<T>
  {
    if trace == [] then []
    else Invoked(trace[..|trace| - 1]) + (if trace[|trace| - 1].Invoke? then [trace[|trace| - 1].item] else [])
  }

  function Pauses<T>(trace: seq<Step<T>>): nat
  {
    if trace == [] then 0 else Pauses(trace[..|trace| - 1]) + (if trace[|trace| - 1].Pause? then 1 else 0)
  }

  function Barriers<T>(trace: seq<Step<T>>): nat
  {
    if trace == [] then 0 else Barriers(trace[..|trace| - 1]) + (if trace[|trace| - 1].AllSettled? then 1 else 0)
  }

  lemma {:induction false} CountsAppend<T>(a: seq<Step<T>>, b: seq<Step<T>>)
    ensures Invoked(a + b) == Invoked(a) + Invoked(b)
    ensures Pauses(a + b) == Pauses(a) + Pauses(b)
    ensures Barriers(a + b) == Barriers(a) + Barriers(b)
    decreases |b|
  {
    if b == [] {
      assert a + b == a;
    } else {
      assert (a + b)[..|a + b| - 1] == a + b[..|b| - 1];
      assert (a + b)[|a + b| - 1] == b[|b| - 1];
      CountsAppend(a, b[..|b| - 1]);
    }
  }

  lemma {:induction false} InvocationsCounts<T>(chunk: seq<T>)
    ensures Invoked(Invocations(chunk)) == chunk
    ensures Pauses(Invocations(chunk)) == 0
    ensures Barriers(Invocations(chunk)) == 0
    decreases |chunk|
  {
    if chunk != [] {
      var init := chunk[..|chunk| - 1];
      InvocationsCounts(init);
      assert Invocations(chunk)[..|chunk| - 1] == Invocations(init);
      assert chunk == init + [chunk[|chunk| - 1]];
    }
  }

  lemma ChunkStepsCounts<T>(chunk: seq<T>)
    ensures Invoked(ChunkSteps(chunk)) == chunk
    ensures Pauses(ChunkSteps(chunk)) == 0
    ensures Barriers(ChunkSteps(chunk)) == 1
  {
    InvocationsCounts(chunk);
    assert ChunkSteps(chunk)[..|chunk|] == Invocations(chunk);
  }

  function ConcatEnd<T>(parts: seq<seq<T>>): seq<T>
  {
    if parts == [] then [] else ConcatEnd(parts[..|parts| - 1]) + parts[|parts| - 1]
  }

  lemma {:induction false} ConcatEndIsConcat<T>(parts: seq<seq<T>>)
    ensures ConcatEnd(parts) == Concat(parts)
    decreases |parts|
  {
    if parts != [] {
      ConcatEndIsConcat(parts[1..]);
      if |parts| > 1 {
        ConcatEndIsConcat(parts[..|parts| - 1]);
        assert parts[..|parts| - 1][1..] == parts[1..][..|parts| - 2];
        ConcatEndIsConcat(parts[1..][..|parts| - 2]);
        assert ConcatEnd(parts[1..]) == ConcatEnd(parts[1..][..|parts| - 2]) + parts[|parts| - 1];
      } else {
        assert parts[..0] == [];
      }
    }
  }

  /**
   * The trace of a run over chunks: the chunks' items are invoked in order,
   * there is one settle barrier per chunk and one pause fewer.
   */
  lemma {:induction false} BatchTraceCounts<T>(chunks: seq<seq<T>>)
    ensures Invoked(BatchTrace(chunks)) == ConcatEnd(chunks)
    ensures Barriers(BatchTrace(chunks)) == |chunks|
    ensures Pauses(BatchTrace(chunks)) == if chunks == [] then 0 else |chunks| - 1
    decreases |chunks|
  {
    if |chunks| == 1 {
      ChunkStepsCounts(chunks[0]);
      assert chunks[..0] == [];
      assert ConcatEnd(chunks) == ConcatEnd(chunks[..0]) + chunks[0];
    } else if |chunks| > 1 {
      var init := chunks[..|chunks| - 1];
      var last := chunks[|chunks| - 1];
      var head := BatchTrace(init);
      BatchTraceCounts(init);
      ChunkStepsCounts(last);
      var pause: seq<Step<T>> := [Pause];
      assert pause[..0] == [];
      CountsAppend(head, pause);
      CountsAppend(head + pause, ChunkSteps(last));
      assert BatchTrace(chunks) == head + [Pause] + ChunkSteps(last);
      assert ConcatEnd(chunks) == ConcatEnd(init) + last;
    }
  }

  /**
   * The pauses fall only between chunks: every pause comes right after a
   * settle barrier and right before an invocation, so none is first or last.
   */
  lemma {:induction false} PausesBetweenChunks<T>(chunks: seq<seq<T>>, j: nat)
    requires forall k :: 0 <= k < |chunks| ==> chunks[k] != []
    requires j < |BatchTrace(chunks)| && BatchTrace(chunks)[j].Pause?
    ensures 0 < j < |BatchTrace(chunks)| - 1
    ensures BatchTrace(chunks)[j - 1].AllSettled? && BatchTrace(chunks)[j + 1].Invoke?
    decreases |chunks|
  {
    if |chunks| > 1 {
      var init := chunks[..|chunks| - 1];
      var head := BatchTrace(init);
      LastStepIsBarrier(init);
      if j < |head| {
        PausesBetweenChunks(init, j);
      }
    }
  }

  /** A non-empty run ends with a settle barrier. */
  lemma LastStepIsBarrier<T>(chunks: seq<seq<T>>)
    requires chunks != []
    ensures |BatchTrace(chunks)| > 0 && BatchTrace(chunks)[|BatchTrace(chunks)| - 1].AllSettled?
  {
  }

  /**
   * The properties of `processInBatches` over M items in chunks of N: the
   * processor is invoked exactly once per item and in input order, there are
   * ceil(M/N) settle barriers and ceil(M/N) - 1 delays, the last step is a
   * barrier, and there are never more results than items.
   */
  lemma BatchRunProperties<T, R>(items: seq<T>, process: T -> Option<R>, size: nat)
    requires size > 0
    ensures Invoked(BatchTrace(Chunks(items, size))) == items
    ensures Barriers(BatchTrace(Chunks(items, size))) == CeilDiv(|items|, size)
    ensures Pauses(BatchTrace(Chunks(items, size))) == if items == [] then 0 else CeilDiv(|items|, size) - 1
    ensures items != [] ==> BatchTrace(Chunks(items, size))[|BatchTrace(Chunks(items, size))| - 1].AllSettled?
    ensures |Fulfilled(Outcomes(items, process))| <= |items|
  {
    var chunks := Chunks(items, size);
    BatchTraceCounts(chunks);
    ConcatEndIsConcat(chunks);
    ChunksConcat(items, size);
    ChunksCount(items, size);
    FulfilledBounds(Outcomes(items, process));
    if items != [] {
      LastStepIsBarrier(chunks);
    }
  }

  /**
   * The results are those of the chunks, chunk by chunk: a chunk whose every
   * item fails adds nothing and the later chunks still contribute theirs.
   */
  lemma {:induction false} ResultsByChunk<T, R>(chunks: seq<seq<T>>, process: T -> Option<R>)
    ensures Fulfilled(Outcomes(Concat(chunks), process))
         == Concat(seq(|chunks|, k requires 0 <= k < |chunks| => Fulfilled(Outcomes(chunks[k], process))))
    decreases |chunks|
  {
    if chunks != [] {
      ResultsByChunk(chunks[1..], process);
      assert Outcomes(Concat(chunks), process) == Outcomes(chunks[0], process) + Outcomes(Concat(chunks[1..]), process);
      FulfilledAppend(Outcomes(chunks[0], process), Outcomes(Concat(chunks[1..]), process));
      var per := seq(|chunks|, k requires 0 <= k < |chunks| => Fulfilled(Outcomes(chunks[k], process)));
      assert per[1..] == seq(|chunks[1..]|, k requires 0 <= k < |chunks[1..]| => Fulfilled(Outcomes(chunks[1..][k], process)));
    }
  }
}
