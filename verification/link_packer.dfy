/**
 * Packing of external font-family query segments into stylesheet URLs.
 *
 * `Pack` follows the accumulator loop of `injectFontLinks` step by step,
 * including its test `current === base`. `Greedy` is an independent
 * description of the same result ("each URL takes the longest run of
 * families that still fits"), and `PackIsGreedy` proves the two agree.
 * Coverage, order, the length bound and the split points are then
 * properties of `Greedy`.
 */
module LinkPacker {

  /** Stylesheet endpoint of the font service with the swap directive and the first family key. */
  const Base: string := "https://fonts.googleapis.com/css2?display=swap&family="

  /** Separator placed between two families of the same URL. */
  const Sep: string := "&family="

  /** The length ceiling the shipped code uses for one URL. */
  const MaxUrlLength: nat := 1800

  /** Every family is a non-empty query segment, as every catalog entry's is. */
  predicate NonEmptyFamilies(fams: seq<string>) {
    forall i :: 0 <= i < |fams| ==> |fams[i]| > 0
  }

  /** Every URL in `urls` starts with the service prefix. */
  predicate AllStartWithBase(urls: seq<string>) {
    forall i :: 0 <= i < |urls| ==> Base <= urls[i]
  }

  /** The families of one batch, in order, separated by `Sep`. */
  function Join(batch: seq<string>): string
  {
    if |batch| == 0 then ""
    else if |batch| == 1 then batch[0]
    else Join(batch[..|batch| - 1]) + Sep + batch[|batch| - 1]
  }

  /** The URL that requests exactly the families of `batch`. */
  function Url(batch: seq<string>): string {
    Base + Join(batch)
  }

  /** The URLs of a list of batches, one per batch, in order. */
  function Urls(bs: seq<seq<string>>): seq<string>
  {
    if |bs| == 0 then [] else [Url(bs[0])] + Urls(bs[1..])
  }

  /** All families of a list of batches, batch after batch. */
  function Flatten(bs: seq<seq<string>>): seq<string>
  {
    if |bs| == 0 then [] else bs[0] + Flatten(bs[1..])
  }

  // ---------------------------------------------------------------------
  // The loop as written
  // ---------------------------------------------------------------------

  /**
   * One pass of the accumulator loop over the families still to visit.
   * `current` is the URL being grown and `urls` those already flushed; the
   * URL being grown is flushed when the last family has been visited.
   */
  function PackLoop(fams: seq<string>, current: string, urls: seq<string>, max: nat): (r: seq<string>)
    requires Base <= current
    requires AllStartWithBase(urls)
    ensures |fams| == 0 ==> r == urls
    ensures |fams| > 0 ==> |r| > |urls|
    ensures urls <= r
    ensures AllStartWithBase(r)
    decreases |fams|
  {
    if |fams| == 0 then urls
    else
      var test := current + (if current == Base then "" else Sep) + fams[0];
      var (urls', current') :=
        if |test| > max then (urls + [current], Base + fams[0]) else (urls, test);
      if |fams| == 1 then urls' + [current']
      else PackLoop(fams[1..], current', urls', max)
  }

  /** The stylesheet URLs `injectFontLinks` builds for `fams` under the ceiling `max`. */
  function Pack(fams: seq<string>, max: nat): (urls: seq<string>)
    ensures |fams| == 0 <==> |urls| == 0
    ensures AllStartWithBase(urls)
  {
    PackLoop(fams, Base, [], max)
  }

  /** The same loop, written imperatively over an index, as the source's `forEach` is. */
  method PackUrls(fams: seq<string>, max: nat) returns (urls: seq<string>)
    ensures urls == Pack(fams, max)
  {
    var current := Base;
    urls := [];
    var idx := 0;
    while idx < |fams|
      invariant 0 <= idx <= |fams|
      invariant Base <= current
      invariant AllStartWithBase(urls)
      invariant idx < |fams| ==> PackLoop(fams[idx..], current, urls, max) == Pack(fams, max)
      invariant idx == |fams| ==> urls == Pack(fams, max)
    {
      var fam := fams[idx];
      var test := current + (if current == Base then "" else Sep) + fam;
      if |test| > max {
        urls := urls + [current];
        current := Base + fam;
      } else {
        current := test;
      }
      if idx == |fams| - 1 {
        urls := urls + [current];
      }
      assert fams[idx..][1..] == fams[idx + 1..];
      idx := idx + 1;
    }
  }

  // ---------------------------------------------------------------------
  // The greedy reference
  // ---------------------------------------------------------------------

  /** A batch may stand as one URL: it is within the ceiling or holds a single family. */
  predicate Fits(batch: seq<string>, max: nat) {
    |batch| == 1 || |Url(batch)| <= max
  }

  /** The prefix of `s` of length `j` is within the ceiling as one URL. */
  predicate PrefixFits(s: seq<string>, j: nat, max: nat)
    requires j <= |s|
  {
    |Url(s[..j])| <= max
  }

  /** Every prefix of `batch` with at least two families is within the ceiling. */
  predicate PrefixesFit(batch: seq<string>, max: nat) {
    forall j :: 1 < j <= |batch| ==> PrefixFits(batch, j, max)
  }

  /**
   * Batch `i` of `bs` could not also have taken the first family of batch
   * `i + 1`: the split between them is forced by the ceiling.
   */
  predicate SplitForced(bs: seq<seq<string>>, i: nat, max: nat) {
    i + 1 < |bs| && |bs[i + 1]| > 0 && |Url(bs[i] + [bs[i + 1][0]])| > max
  }

  /**
   * Scanning from a prefix of length `k`, the length of the longest prefix
   * of `s` each of whose extensions up to it stayed within the ceiling.
   */
  function FitFrom(s: seq<string>, k: nat, max: nat): (m: nat)
    requires 1 <= k <= |s|
    ensures k <= m <= |s|
    ensures m == |s| || !PrefixFits(s, m + 1, max)
    ensures forall j :: k < j <= m ==> PrefixFits(s, j, max)
    decreases |s| - k
  {
    if k < |s| && PrefixFits(s, k + 1, max) then FitFrom(s, k + 1, max) else k
  }

  /** Length of the first batch of `s`: the longest non-empty prefix that fits. */
  function FitLength(s: seq<string>, max: nat): (m: nat)
    requires |s| > 0
    ensures 1 <= m <= |s|
    ensures Fits(s[..m], max)
    ensures m == |s| || !Fits(s[..m + 1], max)
  {
    var m := FitFrom(s, 1, max);
    assert m == 1 || PrefixFits(s, m, max);
    m
  }

  /** Cuts `s` into batches, each the longest non-empty prefix of the rest that fits. */
  function Chunks(s: seq<string>, max: nat): seq<seq<string>>
    decreases |s|
  {
    if |s| == 0 then []
    else
      var m := FitLength(s, max);
      [s[..m]] + Chunks(s[m..], max)
  }

  /**
   * The batches behind the emitted URLs: the greedy cut of `fams`, preceded
   * by an empty batch (the bare `Base` URL) when the first family alone
   * already overflows the ceiling.
   */
  function Greedy(fams: seq<string>, max: nat): seq<seq<string>>
  {
    if |fams| == 0 then []
    else if |Url([fams[0]])| > max then [[]] + Chunks(fams, max)
    else Chunks(fams, max)
  }

  /** The chunks hold every family exactly once, in order. */
  lemma {:induction false} ChunksCover(s: seq<string>, max: nat)
    ensures Flatten(Chunks(s, max)) == s
    decreases |s|
  {
    if |s| > 0 {
      var m := FitLength(s, max);
      var r := Chunks(s, max);
      ChunksCover(s[m..], max);
      assert r[1..] == Chunks(s[m..], max);
      assert s[..m] + s[m..] == s;
    }
  }

  /** No chunk is empty. */
  lemma {:induction false} ChunksNonEmpty(s: seq<string>, max: nat)
    ensures forall i :: 0 <= i < |Chunks(s, max)| ==> |Chunks(s, max)[i]| > 0
    decreases |s|
  {
    if |s| > 0 {
      var m := FitLength(s, max);
      var r := Chunks(s, max);
      ChunksNonEmpty(s[m..], max);
      forall i | 0 < i < |r|
        ensures |r[i]| > 0
      {
        assert r[i] == Chunks(s[m..], max)[i - 1];
      }
    }
  }

  /** Every chunk fits: it is within the ceiling or holds a single family. */
  lemma {:induction false} ChunksFit(s: seq<string>, max: nat)
    ensures forall i :: 0 <= i < |Chunks(s, max)| ==> Fits(Chunks(s, max)[i], max)
    decreases |s|
  {
    if |s| > 0 {
      var m := FitLength(s, max);
      var r := Chunks(s, max);
      ChunksFit(s[m..], max);
      assert r[1..] == Chunks(s[m..], max);
      forall i | 0 < i < |r|
        ensures Fits(r[i], max)
      {
        assert r[i] == Chunks(s[m..], max)[i - 1];
      }
    }
  }

  /** Every split between two chunks is forced: the earlier one cannot take the next family. */
  lemma {:induction false} ChunksSplit(s: seq<string>, max: nat)
    ensures forall i :: 0 <= i < |Chunks(s, max)| - 1 ==> SplitForced(Chunks(s, max), i, max)
    decreases |s|
  {
    if |s| > 0 {
      var m := FitLength(s, max);
      var r := Chunks(s, max);
      var rest := Chunks(s[m..], max);
      ChunksSplit(s[m..], max);
      assert r[1..] == rest;
      forall i | 0 <= i < |r| - 1
        ensures SplitForced(r, i, max)
      {
        if i == 0 {
          assert rest[0] == s[m..][..FitLength(s[m..], max)];
          assert rest[0][0] == s[m];
          assert s[..m] + [s[m]] == s[..m + 1];
        } else {
          assert SplitForced(rest, i - 1, max);
          assert r[i] == rest[i - 1] && r[i + 1] == rest[i];
        }
      }
    }
  }

  /** The greedy batches hold every family exactly once, in order; none is empty but a leading bare one. */
  lemma GreedyCovers(fams: seq<string>, max: nat)
    ensures Flatten(Greedy(fams, max)) == fams
    ensures |fams| == 0 <==> |Greedy(fams, max)| == 0
    ensures forall i :: 0 < i < |Greedy(fams, max)| ==> |Greedy(fams, max)[i]| > 0
  {
    ChunksCover(fams, max);
    ChunksNonEmpty(fams, max);
    var bs := Greedy(fams, max);
    if |fams| > 0 && |Url([fams[0]])| > max {
      assert bs[1..] == Chunks(fams, max);
    }
  }

  /** Every greedy batch is within the ceiling, or holds at most one family. */
  lemma GreedyWithinBound(fams: seq<string>, max: nat)
    ensures forall i :: 0 <= i < |Greedy(fams, max)| ==>
      |Greedy(fams, max)[i]| <= 1 || |Url(Greedy(fams, max)[i])| <= max
  {
    ChunksFit(fams, max);
    var bs := Greedy(fams, max);
    if |fams| > 0 && |Url([fams[0]])| > max {
      forall i | 0 < i < |bs|
        ensures |bs[i]| <= 1 || |Url(bs[i])| <= max
      {
        assert bs[i] == Chunks(fams, max)[i - 1];
      }
    }
  }

  /** Every split between adjacent greedy batches is forced by the ceiling. */
  lemma GreedySplits(fams: seq<string>, max: nat)
    ensures forall i :: 0 <= i < |Greedy(fams, max)| - 1 ==> SplitForced(Greedy(fams, max), i, max)
  {
    ChunksSplit(fams, max);
    var bs := Greedy(fams, max);
    if |fams| > 0 && |Url([fams[0]])| > max {
      var cs := Chunks(fams, max);
      assert bs[1..] == cs;
      forall i | 0 <= i < |bs| - 1
        ensures SplitForced(bs, i, max)
      {
        if i == 0 {
          assert cs[0] == fams[..FitLength(fams, max)];
          assert [] + [cs[0][0]] == [fams[0]];
        } else {
          assert SplitForced(cs, i - 1, max);
          assert bs[i] == cs[i - 1] && bs[i + 1] == cs[i];
        }
      }
    }
  }

  // ---------------------------------------------------------------------
  // The loop agrees with the greedy reference
  // ---------------------------------------------------------------------

  /** A non-empty batch of non-empty families joins to a non-empty string, so its URL is longer than the bare base. */
  lemma JoinNotEmpty(batch: seq<string>)
    requires |batch| > 0 && NonEmptyFamilies(batch)
    ensures |Join(batch)| > 0
  {
    assert |batch[|batch| - 1]| > 0;
  }

  /** Appending a family to a batch extends its URL by the separator (if needed) and the family. */
  lemma UrlAppend(batch: seq<string>, fam: string)
    ensures Url(batch + [fam]) == Url(batch) + (if batch == [] then "" else Sep) + fam
  {
    var b := batch + [fam];
    assert b[..|b| - 1] == batch;
    if batch == [] {
      assert b == [fam];
    }
  }

  /** A batch of `n` families of at most `k` characters joins to at most `n * (k + |Sep|)` characters. */
  lemma {:induction false} JoinLengthBound(batch: seq<string>, k: nat)
    requires forall i :: 0 <= i < |batch| ==> |batch[i]| <= k
    ensures |Join(batch)| <= |batch| * (k + |Sep|)
    decreases |batch|
  {
    if |batch| > 1 {
      var n := |batch|;
      JoinLengthBound(batch[..n - 1], k);
      assert (n - 1) * (k + |Sep|) + (k + |Sep|) == n * (k + |Sep|);
    }
  }

  /** A shorter prefix of a batch never has a longer URL. */
  lemma {:induction false} JoinPrefixShorter(s: seq<string>, j: nat)
    requires j <= |s|
    ensures |Join(s[..j])| <= |Join(s)|
    decreases |s|
  {
    if j == |s| {
      assert s[..j] == s;
    } else if |s| == 1 {
      assert s[..j] == [];
    } else {
      var init := s[..|s| - 1];
      assert init[..j] == s[..j];
      JoinPrefixShorter(init, j);
    }
  }

  /** The scan stops exactly at `m` when every step up to `m` fits and the next does not. */
  lemma {:induction false} FitFromStopsAt(s: seq<string>, k: nat, m: nat, max: nat)
    requires 1 <= k <= m <= |s|
    requires forall j :: k < j <= m ==> PrefixFits(s, j, max)
    requires m == |s| || !PrefixFits(s, m + 1, max)
    ensures FitFrom(s, k, max) == m
    decreases m - k
  {
    if k < m {
      assert PrefixFits(s, k + 1, max);
      FitFromStopsAt(s, k + 1, m, max);
    }
  }

  /** When the first `m` families are the longest prefix that fits, they form the first chunk. */
  lemma ChunksStep(s: seq<string>, m: nat, max: nat)
    requires 1 <= m <= |s|
    requires forall j :: 1 < j <= m ==> PrefixFits(s, j, max)
    requires m == |s| || !PrefixFits(s, m + 1, max)
    ensures Chunks(s, max) == [s[..m]] + Chunks(s[m..], max)
  {
    FitFromStopsAt(s, 1, m, max);
  }

  /** `Urls` gives one URL per batch, the URL of that batch. */
  lemma {:induction false} UrlsIndex(bs: seq<seq<string>>)
    ensures |Urls(bs)| == |bs|
    ensures forall i :: 0 <= i < |bs| ==> Urls(bs)[i] == Url(bs[i])
    decreases |bs|
  {
    if |bs| > 0 {
      UrlsIndex(bs[1..]);
    }
  }

  /** `Urls` distributes over a leading batch. */
  lemma UrlsCons(b: seq<string>, bs: seq<seq<string>>)
    ensures Urls([b] + bs) == [Url(b)] + Urls(bs)
  {
    assert ([b] + bs)[1..] == bs;
  }

  /** The test string of one step is the URL of the batch grown by the next family. */
  lemma PackLoopTest(fams: seq<string>, cur: seq<string>)
    requires |fams| > 0
    requires |cur| > 0 && NonEmptyFamilies(cur)
    ensures Url(cur) != Base
    ensures Url(cur) + (if Url(cur) == Base then "" else Sep) + fams[0] == Url(cur + [fams[0]])
    ensures Base + fams[0] == Url([fams[0]])
  {
    var f := fams[0];
    JoinNotEmpty(cur);
    UrlAppend(cur, f);
    UrlAppend([], f);
    assert [] + [f] == [f];
  }

  /** One step of the loop that flushes the batch `cur` because the next family overflows it. */
  lemma PackLoopFlushStep(fams: seq<string>, cur: seq<string>, urls: seq<string>, max: nat)
    requires |fams| > 0
    requires |cur| > 0 && NonEmptyFamilies(cur)
    requires AllStartWithBase(urls)
    requires |Url(cur + [fams[0]])| > max
    ensures AllStartWithBase(urls + [Url(cur)])
    ensures |fams| == 1 ==> PackLoop(fams, Url(cur), urls, max) == urls + [Url(cur), Url([fams[0]])]
    ensures |fams| > 1 ==>
      PackLoop(fams, Url(cur), urls, max) == PackLoop(fams[1..], Url([fams[0]]), urls + [Url(cur)], max)
  {
    PackLoopTest(fams, cur);
  }

  /** One step of the loop that grows the batch `cur` by the next family. */
  lemma PackLoopGrowStep(fams: seq<string>, cur: seq<string>, urls: seq<string>, max: nat)
    requires |fams| > 0
    requires |cur| > 0 && NonEmptyFamilies(cur)
    requires AllStartWithBase(urls)
    requires |Url(cur + [fams[0]])| <= max
    ensures |fams| == 1 ==> PackLoop(fams, Url(cur), urls, max) == urls + [Url(cur + [fams[0]])]
    ensures |fams| > 1 ==>
      PackLoop(fams, Url(cur), urls, max) == PackLoop(fams[1..], Url(cur + [fams[0]]), urls, max)
  {
    PackLoopTest(fams, cur);
  }

  /** The first step of the loop, from the bare base URL. */
  lemma PackLoopFirst(fams: seq<string>, max: nat)
    requires |fams| > 0
    ensures Base <= Url([fams[0]])
    ensures Pack(fams, max) ==
      var urls := if |Url([fams[0]])| > max then [Base] else [];
      if |fams| == 1 then urls + [Url([fams[0]])]
      else PackLoop(fams[1..], Url([fams[0]]), urls, max)
  {
    var f := fams[0];
    UrlAppend([], f);
    assert [] + [f] == [f];
    assert Url([]) == Base;
    assert Url([f]) == Base + f;
    var test := Base + "" + f;
    assert test == Url([f]);
    assert PackLoop(fams, Base, [], max) ==
      var (urls', current') := if |test| > max then ([] + [Base], Base + f) else ([], test);
      if |fams| == 1 then urls' + [current'] else PackLoop(fams[1..], current', urls', max);
    assert [] + [Base] == [Base];
  }

  /** Prefixes of `cur` that fit are prefixes of `cur + rest` that fit. */
  lemma PrefixesFitExtend(cur: seq<string>, rest: seq<string>, max: nat)
    requires PrefixesFit(cur, max)
    ensures forall j :: 1 < j <= |cur| ==> PrefixFits(cur + rest, j, max)
  {
    forall j | 1 < j <= |cur|
      ensures PrefixFits(cur + rest, j, max)
    {
      assert (cur + rest)[..j] == cur[..j];
      assert PrefixFits(cur, j, max);
    }
  }

  /** A batch all of whose prefixes fit keeps that property when grown by a family that fits. */
  lemma PrefixesFitGrow(cur: seq<string>, f: string, max: nat)
    requires PrefixesFit(cur, max)
    requires |Url(cur + [f])| <= max
    ensures forall j :: 1 < j <= |cur + [f]| ==> PrefixFits(cur + [f], j, max)
  {
    var next := cur + [f];
    PrefixesFitExtend(cur, [f], max);
    assert next[..|next|] == next;
  }

  /** When the next family overflows the batch `cur`, `cur` is the first chunk. */
  lemma ChunksCut(cur: seq<string>, fams: seq<string>, max: nat)
    requires |cur| > 0 && |fams| > 0
    requires PrefixesFit(cur, max)
    requires |Url(cur + [fams[0]])| > max
    ensures Chunks(cur + fams, max) == [cur] + Chunks(fams, max)
  {
    var s := cur + fams;
    PrefixesFitExtend(cur, fams, max);
    assert s[..|cur| + 1] == cur + [fams[0]];
    assert s[..|cur|] == cur && s[|cur|..] == fams;
    ChunksStep(s, |cur|, max);
  }

  /** A batch all of whose prefixes fit is a single chunk. */
  lemma ChunksWhole(s: seq<string>, max: nat)
    requires |s| > 0
    requires forall j :: 1 < j <= |s| ==> PrefixFits(s, j, max)
    ensures Chunks(s, max) == [s]
  {
    ChunksStep(s, |s|, max);
    assert s[|s|..] == [] && s[..|s|] == s;
  }

  /**
   * From any point where the URL being grown holds the batch `cur` (all of
   * whose prefixes fit), the loop emits the greedy cut of `cur` followed by
   * the families still to visit.
   */
  lemma {:induction false} PackLoopChunks(fams: seq<string>, cur: seq<string>, urls: seq<string>, max: nat)
    requires |fams| > 0 && NonEmptyFamilies(fams)
    requires |cur| > 0 && NonEmptyFamilies(cur)
    requires PrefixesFit(cur, max)
    requires AllStartWithBase(urls)
    ensures PackLoop(fams, Url(cur), urls, max) == urls + Urls(Chunks(cur + fams, max))
    decreases |fams|, 2
  {
    if |Url(cur + [fams[0]])| > max {
      PackLoopFlush(fams, cur, urls, max);
    } else {
      PackLoopGrow(fams, cur, urls, max);
    }
  }

  /** `PackLoopChunks` when the next family overflows `cur`: `cur` is flushed. */
  lemma {:induction false} PackLoopFlush(fams: seq<string>, cur: seq<string>, urls: seq<string>, max: nat)
    requires |fams| > 0 && NonEmptyFamilies(fams)
    requires |cur| > 0 && NonEmptyFamilies(cur)
    requires PrefixesFit(cur, max)
    requires AllStartWithBase(urls)
    requires |Url(cur + [fams[0]])| > max
    ensures PackLoop(fams, Url(cur), urls, max) == urls + Urls(Chunks(cur + fams, max))
    decreases |fams|, 1
  {
    ChunksCut(cur, fams, max);
    UrlsCons(cur, Chunks(fams, max));
    PackLoopFlushStep(fams, cur, urls, max);
    if |fams| == 1 {
      var f := fams[0];
      assert fams == [f];
      ChunksWhole(fams, max);
      UrlsCons([f], []);
      assert [[f]] + [] == [[f]];
    } else {
      PackLoopAfterFlush(fams, cur, urls, max);
    }
  }

  /** After a flush with families left, the loop restarts from the single family that overflowed. */
  lemma {:induction false} PackLoopAfterFlush(fams: seq<string>, cur: seq<string>, urls: seq<string>, max: nat)
    requires |fams| > 1 && NonEmptyFamilies(fams)
    requires AllStartWithBase(urls + [Url(cur)])
    ensures PackLoop(fams[1..], Url([fams[0]]), urls + [Url(cur)], max)
         == urls + ([Url(cur)] + Urls(Chunks(fams, max)))
    decreases |fams|, 0
  {
    var f := fams[0];
    var urls' := urls + [Url(cur)];
    assert [f] + fams[1..] == fams;
    PackLoopChunks(fams[1..], [f], urls', max);
    assert urls' + Urls(Chunks(fams, max)) == urls + ([Url(cur)] + Urls(Chunks(fams, max)));
  }

  /** `PackLoopChunks` when the next family still fits: the batch grows. */
  lemma {:induction false} PackLoopGrow(fams: seq<string>, cur: seq<string>, urls: seq<string>, max: nat)
    requires |fams| > 0 && NonEmptyFamilies(fams)
    requires |cur| > 0 && NonEmptyFamilies(cur)
    requires PrefixesFit(cur, max)
    requires AllStartWithBase(urls)
    requires |Url(cur + [fams[0]])| <= max
    ensures PackLoop(fams, Url(cur), urls, max) == urls + Urls(Chunks(cur + fams, max))
    decreases |fams|, 0
  {
    var next := cur + [fams[0]];
    PackLoopGrowStep(fams, cur, urls, max);
    PrefixesFitGrow(cur, fams[0], max);
    if |fams| == 1 {
      assert cur + fams == next;
      ChunksWhole(next, max);
      UrlsCons(next, []);
    } else {
      assert next + fams[1..] == cur + fams;
      assert NonEmptyFamilies(next);
      PackLoopChunks(fams[1..], next, urls, max);
    }
  }

  /** The URLs the loop emits are exactly the URLs of the greedy batches. */
  lemma PackIsGreedy(fams: seq<string>, max: nat)
    requires NonEmptyFamilies(fams)
    ensures Pack(fams, max) == Urls(Greedy(fams, max))
  {
    if |fams| > 0 {
      var f := fams[0];
      var cs := Chunks(fams, max);
      var urls := if |Url([f])| > max then [Base] else [];
      PackLoopFirst(fams, max);
      if |fams| == 1 {
        assert fams == [f];
        ChunksWhole(fams, max);
        assert Urls(cs) == [Url([f])] + Urls([]);
      } else {
        assert [f] + fams[1..] == fams;
        PackLoopChunks(fams[1..], [f], urls, max);
      }
      assert Pack(fams, max) == urls + Urls(cs);
      UrlsCons([], cs);
      assert Url([]) == Base;
    }
  }

  // ---------------------------------------------------------------------
  // Properties of the emitted URLs
  // ---------------------------------------------------------------------

  /** Every family carried by a batch is one of the families that were packed. */
  lemma {:induction false} FlattenHas(bs: seq<seq<string>>, i: nat, j: nat)
    requires i < |bs| && j < |bs[i]|
    ensures bs[i][j] in Flatten(bs)
    decreases i
  {
    if i > 0 {
      FlattenHas(bs[1..], i - 1, j);
      assert bs[1..][i - 1] == bs[i];
    }
  }

  /** The batch behind an emitted URL holds only non-empty families. */
  lemma GreedyBatchNonEmptyFamilies(fams: seq<string>, max: nat, i: nat)
    requires NonEmptyFamilies(fams)
    requires i < |Greedy(fams, max)|
    ensures NonEmptyFamilies(Greedy(fams, max)[i])
  {
    var bs := Greedy(fams, max);
    GreedyCovers(fams, max);
    forall j | 0 <= j < |bs[i]|
      ensures |bs[i][j]| > 0
    {
      FlattenHas(bs, i, j);
    }
  }

  /**
   * Coverage and format: there is one URL per greedy batch, each the base
   * prefix followed by its batch's families joined by `Sep`, and the batches
   * together hold every family exactly once, in order.
   */
  lemma PackCoverage(fams: seq<string>, max: nat)
    requires NonEmptyFamilies(fams)
    ensures |Pack(fams, max)| == |Greedy(fams, max)|
    ensures forall i :: 0 <= i < |Pack(fams, max)| ==>
      Pack(fams, max)[i] == Base + Join(Greedy(fams, max)[i])
    ensures Flatten(Greedy(fams, max)) == fams
  {
    PackIsGreedy(fams, max);
    UrlsIndex(Greedy(fams, max));
    GreedyCovers(fams, max);
  }

  /**
   * The length bound: every URL is within the ceiling, unless it carries a
   * single family that alone overflows it, or is the bare base flushed ahead
   * of such a family (which can only be the first URL).
   */
  lemma PackLengthBound(fams: seq<string>, max: nat)
    requires NonEmptyFamilies(fams)
    ensures forall i :: 0 <= i < |Pack(fams, max)| ==>
      |Pack(fams, max)[i]| <= max || Pack(fams, max)[i] == Base ||
      exists f :: f in fams && Pack(fams, max)[i] == Base + f
    ensures forall i :: 0 < i < |Pack(fams, max)| ==> Pack(fams, max)[i] != Base
  {
    var urls := Pack(fams, max);
    var bs := Greedy(fams, max);
    PackCoverage(fams, max);
    GreedyCovers(fams, max);
    GreedyWithinBound(fams, max);
    forall i | 0 <= i < |urls|
      ensures |urls[i]| <= max || urls[i] == Base || exists f :: f in fams && urls[i] == Base + f
      ensures i > 0 ==> urls[i] != Base
    {
      if i > 0 {
        GreedyBatchNonEmptyFamilies(fams, max, i);
        JoinNotEmpty(bs[i]);
      }
      if |bs[i]| == 1 {
        FlattenHas(bs, i, 0);
        assert urls[i] == Base + bs[i][0];
      }
    }
  }

  /**
   * URL `i` of the packing of `fams` and the first family of URL `i + 1`
   * (joined by `Sep`, or directly after a bare base) together overflow the ceiling.
   */
  predicate SplitAfter(fams: seq<string>, max: nat, i: nat) {
    var urls := Pack(fams, max);
    var bs := Greedy(fams, max);
    i + 1 < |urls| && i + 1 < |bs| && |bs[i + 1]| > 0 &&
    |urls[i]| + (if urls[i] == Base then 0 else |Sep|) + |bs[i + 1][0]| > max
  }

  /**
   * The split points are greedy: a URL and the first family of the next URL
   * (joined by `Sep`, or directly after a bare base) would overflow the ceiling.
   */
  lemma PackSplitPoints(fams: seq<string>, max: nat)
    requires NonEmptyFamilies(fams)
    ensures |Pack(fams, max)| == |Greedy(fams, max)|
    ensures forall i :: 0 <= i < |Pack(fams, max)| - 1 ==> SplitAfter(fams, max, i)
  {
    var urls := Pack(fams, max);
    var bs := Greedy(fams, max);
    PackCoverage(fams, max);
    GreedySplits(fams, max);
    forall i | 0 <= i < |urls| - 1
      ensures SplitAfter(fams, max, i)
    {
      assert SplitForced(bs, i, max);
      var x := bs[i + 1][0];
      UrlAppend(bs[i], x);
      assert urls[i] == Url(bs[i]);
      if bs[i] != [] {
        GreedyBatchNonEmptyFamilies(fams, max, i);
        JoinNotEmpty(bs[i]);
        assert urls[i] != Base;
        assert |Url(bs[i] + [x])| == |urls[i]| + |Sep| + |x|;
      } else {
        assert urls[i] == Base;
        assert |Url(bs[i] + [x])| == |urls[i]| + |x|;
      }
    }
  }

  /** When all families fit in one URL, exactly that one URL is emitted. */
  lemma PackFitsInOne(fams: seq<string>, max: nat)
    requires |fams| > 0 && NonEmptyFamilies(fams)
    requires |Url(fams)| <= max
    ensures Pack(fams, max) == [Url(fams)]
  {
    forall j | 1 <= j <= |fams|
      ensures PrefixFits(fams, j, max)
    {
      JoinPrefixShorter(fams, j);
    }
    assert fams[..1] == [fams[0]];
    assert PrefixFits(fams, 1, max);
    assert Greedy(fams, max) == Chunks(fams, max);
    ChunksWhole(fams, max);
    PackIsGreedy(fams, max);
    assert Urls([fams]) == [Url(fams)] + Urls([]);
  }

  // ---------------------------------------------------------------------
  // The bare base URL, and the packing without it
  // ---------------------------------------------------------------------

  /**
   * As written, a first family that alone overflows the ceiling makes the
   * loop flush the untouched accumulator: the first emitted URL is the bare
   * base, which requests no family at all.
   */
  lemma OversizedFirstFamilyEmitsBareBase(fams: seq<string>, max: nat)
    requires |fams| > 0 && |Url([fams[0]])| > max
    ensures |Pack(fams, max)| >= 2
    ensures Pack(fams, max)[0] == Base
    ensures Pack(fams, max)[1] == Url([fams[0]])
  {
    PackLoopFirst(fams, max);
    if |fams| > 1 {
      var r := PackLoop(fams[1..], Url([fams[0]]), [Base], max);
      assert [Base] <= r;
      PackLoopFirstGrown(fams[1..], fams[0], max);
    }
  }

  /** Started from the URL of one family with that URL flushed before it, the loop keeps both at its head. */
  lemma PackLoopFirstGrown(rest: seq<string>, f: string, max: nat)
    requires |rest| > 0 && |Url([f])| > max
    ensures Base <= Url([f])
    ensures PackLoop(rest, Url([f]), [Base], max)[1] == Url([f])
  {
    UrlAppend([], f);
    assert [] + [f] == [f];
    assert Url([]) == Base;
    assert Url([f] + [rest[0]]) == Url([f]) + Sep + rest[0];
    var test := Url([f]) + Sep + rest[0];
    assert |test| > max;
    var urls' := [Base] + [Url([f])];
    assert urls' <= PackLoop(rest, Url([f]), [Base], max);
  }

  /**
   * The packing as evidently intended: the first family always starts the
   * first URL (a flush happens only once the accumulator holds a family), so
   * no bare base URL is emitted.
   */
  function PackCorrected(fams: seq<string>, max: nat): (urls: seq<string>)
    ensures |fams| == 0 <==> |urls| == 0
    ensures AllStartWithBase(urls)
  {
    if |fams| == 0 then []
    else
      assert Base <= Base + fams[0];
      if |fams| == 1 then [Base + fams[0]]
      else PackLoop(fams[1..], Base + fams[0], [], max)
  }

  /** The corrected packing emits exactly the URLs of the greedy chunks, with no leading bare base. */
  lemma PackCorrectedIsChunks(fams: seq<string>, max: nat)
    requires NonEmptyFamilies(fams)
    ensures PackCorrected(fams, max) == Urls(Chunks(fams, max))
  {
    if |fams| > 0 {
      var f := fams[0];
      UrlAppend([], f);
      assert [] + [f] == [f];
      assert Url([]) == Base;
      assert Url([f]) == Base + f;
      if |fams| == 1 {
        assert fams == [f];
        ChunksWhole(fams, max);
        assert Urls([[f]]) == [Url([f])] + Urls([]);
      } else {
        assert [f] + fams[1..] == fams;
        PackLoopChunks(fams[1..], [f], [], max);
        assert [] + Urls(Chunks(fams, max)) == Urls(Chunks(fams, max));
      }
    }
  }

  /** The batch behind a chunk holds only non-empty families. */
  lemma ChunkNonEmptyFamilies(fams: seq<string>, max: nat, i: nat)
    requires NonEmptyFamilies(fams)
    requires i < |Chunks(fams, max)|
    ensures |Chunks(fams, max)[i]| > 0 && NonEmptyFamilies(Chunks(fams, max)[i])
  {
    var bs := Chunks(fams, max);
    ChunksCover(fams, max);
    ChunksNonEmpty(fams, max);
    forall j | 0 <= j < |bs[i]|
      ensures |bs[i][j]| > 0
    {
      FlattenHas(bs, i, j);
    }
  }

  /**
   * The intended guarantees of the corrected packing: every URL requests at
   * least one family, every URL is within the ceiling or carries a single
   * family, and the URLs carry every family exactly once, in order.
   */
  lemma PackCorrectedProperties(fams: seq<string>, max: nat)
    requires NonEmptyFamilies(fams)
    ensures |PackCorrected(fams, max)| == |Chunks(fams, max)|
    ensures forall i :: 0 <= i < |PackCorrected(fams, max)| ==>
      PackCorrected(fams, max)[i] != Base &&
      (|PackCorrected(fams, max)[i]| <= max || exists f :: f in fams && PackCorrected(fams, max)[i] == Base + f)
    ensures Flatten(Chunks(fams, max)) == fams
  {
    var urls := PackCorrected(fams, max);
    var bs := Chunks(fams, max);
    PackCorrectedIsChunks(fams, max);
    UrlsIndex(bs);
    ChunksCover(fams, max);
    ChunksFit(fams, max);
    forall i | 0 <= i < |urls|
      ensures urls[i] != Base
      ensures |urls[i]| <= max || exists f :: f in fams && urls[i] == Base + f
    {
      ChunkNonEmptyFamilies(fams, max, i);
      JoinNotEmpty(bs[i]);
      assert urls[i] == Url(bs[i]);
      if |bs[i]| == 1 {
        FlattenHas(bs, i, 0);
        assert bs[i] == [bs[i][0]];
        assert urls[i] == Base + bs[i][0];
      }
    }
  }

  /** Whenever the first family fits on its own, the code as written and the corrected packing agree. */
  lemma PackCorrectedAgrees(fams: seq<string>, max: nat)
    requires NonEmptyFamilies(fams)
    requires |fams| == 0 || |Url([fams[0]])| <= max
    ensures Pack(fams, max) == PackCorrected(fams, max)
  {
    PackIsGreedy(fams, max);
    PackCorrectedIsChunks(fams, max);
  }
}
