/** What a query of deepseekv4's Attention gathers: a sliding window of raw KV rows kept in a
    ring, followed by compressed rows, all in one cache tensor.  The scores and the softmax
    of `sparse_attn` are not modelled, only the sequence of rows it is handed. */
module SlidingAttention {
  import opened Counting
  import opened DivMod
  import opened KvCompression
  import opened Results

  /** `comp` is the layer's compressor, if it has one; its entries start at row `win`. */
  datatype Layer = Layer(win: nat, comp: Option<Config>) {
    ghost predicate Fits<T>(b: Buffers<T>, n: nat) {
      && 0 < win <= |b.cache|
      && (comp.Some? ==> comp.value.base == win && Room(b, comp.value, n))
    }
  }

  // ----- What the query at the last position of a history sees -----

  /** The raw rows of positions `lo` to `hi`. */
  function Tokens<T>(h: seq<T>, lo: nat, hi: nat): (r: seq<Slot<T>>)
    requires lo <= hi <= |h|
    ensures |r| == hi - lo
  {
    seq(hi - lo, j requires 0 <= j < hi - lo => Token(h[lo + j], lo + j))
  }

  function WindowOf<T>(h: seq<T>, win: nat): seq<Slot<T>> {
    Tokens(h, if |h| < win then 0 else |h| - win, |h|)
  }

  /** The entries that `picks` names among the completed ones, in the order of `picks`. */
  function Select<V>(entries: seq<V>, picks: seq<nat>): seq<V> {
    if picks == [] then []
    else (if picks[0] < |entries| then [entries[picks[0]]] else []) + Select(entries, picks[1..])
  }

  function CompletedEntries<T>(h: seq<T>, c: Config, lead: Lead<T>): seq<Slot<T>>
    requires c.ratio > 0
  {
    Entries(h, c.ratio, c.overlap, lead, |h| - Rem(|h|, c.ratio))
  }

  /** The last min(win, |h|) positions in order, then the picked completed groups. */
  function Seen<T>(h: seq<T>, l: Layer, lead: Lead<T>, picks: seq<nat>): seq<Slot<T>>
    requires l.comp.Some? ==> l.comp.value.ratio > 0
  {
    WindowOf(h, l.win) + if l.comp.Some? then Select(CompletedEntries(h, l.comp.value, lead), picks) else []
  }

  /** A query sees the last min(win, |h|) positions, in order and each with its own token, ... */
  lemma WindowAt<T>(h: seq<T>, win: nat, j: nat)
    ensures |WindowOf(h, win)| == if |h| < win then |h| else win
    ensures j < |WindowOf(h, win)| ==>
      var p := |h| - |WindowOf(h, win)| + j; 0 <= p < |h| && WindowOf(h, win)[j] == Token(h[p], p)
  {
  }

  /** ... and the entries of completed picks, in the order of the picks. */
  lemma {:induction false} SelectAt<V>(entries: seq<V>, picks: seq<nat>, k: nat)
    requires forall i :: 0 <= i < |picks| ==> picks[i] < |entries|
    ensures |Select(entries, picks)| == |picks| && (k < |picks| ==> Select(entries, picks)[k] == entries[picks[k]])
  {
    if picks != [] { SelectAt(entries, picks[1..], if k > 0 then k - 1 else 0); }
  }

  // ----- The index builders -----

  function Range(lo: int, hi: int): (r: seq<int>)
    ensures |r| == if lo <= hi then hi - lo else 0
  {
    if lo <= hi then seq(hi - lo, j => lo + j) else []
  }

  function Min(a: int, b: int): int { if a < b then a else b }

  function Max(a: int, b: int): int { if a < b then b else a }

  /** `get_window_topk_idxs`, one batch row: a matrix with one row per query. */
  function WindowIdxs(win: nat, seqlen: nat, startPos: nat): seq<seq<int>>
    requires win > 0
  {
    if startPos >= win - 1 then
      var s := Rem(startPos, win);
      [Range(s + 1, win) + Range(0, s + 1)]
    else if startPos > 0 then
      [Range(0, startPos + 1) + Repeat(win - startPos - 1, -1)]
    else
      seq(seqlen, i requires 0 <= i < seqlen => PromptWindow(win, seqlen, i))
  }

  /** `(base - window_size + 1).clamp(0) + arange(min(seqlen, window_size))`, masked past `base`. */
  function PromptWindow(win: nat, seqlen: nat, i: nat): seq<int> {
    seq(Min(seqlen, win), j requires 0 <= j < Min(seqlen, win) =>
      var v := Max(i - win + 1, 0) + j; if v > i then -1 else v)
  }

  /** One row of `get_compress_topk_idxs` (every group picked) or of the index masking of
      `Indexer.forward` (the top-k groups picked) in a prompt: not completed means -1. */
  function Masked(picks: seq<nat>, done: nat, offset: nat): seq<int> {
    seq(|picks|, k requires 0 <= k < |picks| => if picks[k] >= done then -1 else picks[k] + offset)
  }

  /** The same in decoding, where only completed groups are picked. */
  function Shifted(picks: seq<nat>, offset: nat): seq<int> {
    seq(|picks|, k requires 0 <= k < |picks| => picks[k] + offset)
  }

  // ----- Gathering -----

  predicate InMemory(idxs: seq<int>, n: nat) {
    forall k :: 0 <= k < |idxs| ==> -1 <= idxs[k] < n
  }

  /** The rows of `mem` that the indices other than -1 name. */
  function Gather<V>(idxs: seq<int>, mem: seq<V>): seq<V>
    requires InMemory(idxs, |mem|)
  {
    if idxs == [] then []
    else (if idxs[0] == -1 then [] else [mem[idxs[0]]]) + Gather(idxs[1..], mem)
  }

  lemma GatherNext<V>(k: int, idxs: seq<int>, mem: seq<V>)
    requires InMemory(idxs, |mem|) && -1 <= k < |mem|
    ensures InMemory([k] + idxs, |mem|)
    ensures Gather([k] + idxs, mem) == (if k == -1 then [] else [mem[k]]) + Gather(idxs, mem)
  {
    assert ([k] + idxs)[1..] == idxs;
  }

  lemma {:induction false} GatherConcat<V>(a: seq<int>, b: seq<int>, mem: seq<V>)
    requires InMemory(a, |mem|) && InMemory(b, |mem|)
    ensures InMemory(a + b, |mem|) && Gather(a + b, mem) == Gather(a, mem) + Gather(b, mem)
  {
    if a == [] {
      assert a + b == b;
    } else {
      assert (a + b)[1..] == a[1..] + b;
      GatherConcat(a[1..], b, mem);
      GatherNext(a[0], a[1..], mem);
      GatherNext(a[0], a[1..] + b, mem);
      hide Gather, InMemory;
      assert [a[0]] + a[1..] == a && [a[0]] + (a[1..] + b) == a + b;
    }
  }

  lemma {:induction false} GatherRange<V>(lo: nat, hi: nat, mem: seq<V>)
    requires lo <= hi <= |mem|
    ensures InMemory(Range(lo, hi), |mem|) && Gather(Range(lo, hi), mem) == mem[lo..hi]
    decreases hi - lo
  {
    if lo < hi {
      assert Range(lo, hi)[1..] == Range(lo + 1, hi);
      GatherRange(lo + 1, hi, mem);
    }
  }

  lemma {:induction false} GatherNothing<V>(n: nat, mem: seq<V>)
    ensures InMemory(Repeat(n, -1), |mem|) && Gather(Repeat(n, -1), mem) == []
  {
    if n > 0 {
      assert Repeat(n, -1)[1..] == Repeat(n - 1, -1);
      GatherNothing(n - 1, mem);
    }
  }

  /** Masked picks gather exactly the picked completed entries. */
  lemma {:induction false} GatherMasked<V>(picks: seq<nat>, entries: seq<V>, offset: nat, mem: seq<V>)
    requires offset + |entries| <= |mem| && mem[offset..offset + |entries|] == entries
    ensures InMemory(Masked(picks, |entries|, offset), |mem|)
    ensures Gather(Masked(picks, |entries|, offset), mem) == Select(entries, picks)
  {
    if picks != [] {
      assert Masked(picks, |entries|, offset)[1..] == Masked(picks[1..], |entries|, offset);
      GatherMasked(picks[1..], entries, offset, mem);
      assert picks[0] < |entries| ==> mem[offset..offset + |entries|][picks[0]] == mem[offset + picks[0]];
    }
  }

  /** With every group picked, every completed entry is seen, in order. */
  lemma {:induction false} SelectAll<V>(entries: seq<V>, n: nat)
    requires |entries| <= n
    ensures Select(entries, Iota(n)) == entries
  {
    SelectFrom(entries, n, 0);
    assert Iota(n)[0..] == Iota(n);
  }

  lemma {:induction false} SelectFrom<V>(entries: seq<V>, n: nat, k: nat)
    requires k <= n && |entries| <= n
    ensures Select(entries, Iota(n)[k..]) == if k < |entries| then entries[k..] else []
    decreases n - k
  {
    if k < n {
      assert Iota(n)[k..][1..] == Iota(n)[k + 1..];
      SelectFrom(entries, n, k + 1);
    }
  }

  // ----- The ring of raw rows -----

  /** The prompt's write: one slice, or the last `win` rows split at `seqlen % win`. */
  function RingPrompt<T>(cache: seq<Slot<T>>, win: nat, x: seq<T>): (r: seq<Slot<T>>)
    requires 0 < win <= |cache|
    ensures |r| == |cache| && r[win..] == cache[win..]
  {
    var n := |x|;
    if n <= win then
      var r := Splice(cache, 0, Tokens(x, 0, n));
      assert r[win..] == cache[win..];
      r
    else
      var cutoff := Rem(n, win);
      var r := Splice(Splice(cache, cutoff, Tokens(x, n - win, n - cutoff)), 0, Tokens(x, n - cutoff, n));
      assert r[win..] == cache[win..];
      r
  }

  /** The ring after `h`: read from slot `|h| % win` around, it is the last `win` positions. */
  ghost predicate Ring<T>(cache: seq<Slot<T>>, win: nat, h: seq<T>)
    requires 0 < win <= |cache|
  {
    var s := Rem(|h|, win);
    && cache[..s] == Tokens(h, |h| - s, |h|)
    && (|h| >= win ==> cache[s..win] == Tokens(h, |h| - win, |h| - s))
  }

  /** Slot `q % win` holds position `q`, for each of the last `win` positions. */
  lemma RingSlot<T>(cache: seq<Slot<T>>, win: nat, h: seq<T>, q: nat)
    requires 0 < win <= |cache| && Ring(cache, win, h)
    requires q < |h| <= q + win
    ensures cache[q % win] == Token(h[q], q)
  {
    hide Rem, Quot;
    var s, m := Rem(|h|, win), Quot(|h|, win);
    QuotRem(|h|, win);
    if q >= |h| - s {
      Unique(m, q - (|h| - s), win);
      assert cache[..s][q - (|h| - s)] == Token(h[q], q);
    } else {
      assert m > 0;
      assert (m - 1) * win == m * win - win;
      var j := q - (|h| - win);
      Unique(m - 1, s + j, win);
      assert cache[s..win][j] == Token(h[q], q);
    }
  }

  lemma RingPromptHolds<T>(cache: seq<Slot<T>>, win: nat, x: seq<T>)
    requires 0 < win <= |cache|
    ensures Ring(RingPrompt(cache, win, x), win, x)
  {
  }

  lemma TokensGrow<T>(h: seq<T>, t: T, lo: nat, hi: nat)
    requires lo <= hi <= |h|
    ensures Tokens(h + [t], lo, hi) == Tokens(h, lo, hi)
    ensures Tokens(h + [t], lo, |h| + 1) == Tokens(h, lo, |h|) + [Token(t, |h|)]
  {
  }

  lemma RingDecodeHolds<T>(cache: seq<Slot<T>>, win: nat, h: seq<T>, t: T)
    requires 0 < win <= |cache| && Ring(cache, win, h)
    ensures Ring(cache[Rem(|h|, win) := Token(t, |h|)], win, h + [t])
  {
    hide Tokens, Rem;
    var s, n := Rem(|h|, win), |h|;
    var cache' := cache[s := Token(t, n)];
    NextQuotRem(n, win);
    TokensGrow(h, t, n - s, n);
    assert cache'[..s + 1] == cache[..s] + [Token(t, n)];
    if s + 1 == win {
      assert cache'[..win] == cache'[0..win];
    } else if n + 1 >= win {
      RemSmall(n, win);
      TokensTail(h, n - win, n - s);
      TokensGrow(h, t, n + 1 - win, n - s);
      assert cache'[s + 1..win] == cache[s..win][1..];
    }
  }

  lemma RemSmall(n: nat, d: nat)
    requires d > 0
    ensures n < d ==> Rem(n, d) == n
  {
  }

  lemma TokensTail<T>(h: seq<T>, lo: nat, hi: nat)
    requires lo < hi <= |h|
    ensures Tokens(h, lo, hi)[1..] == Tokens(h, lo + 1, hi)
  {
  }

  // ----- Window indices find the window -----

  /** In a prompt of which the query at position `i` is part. */
  lemma PromptWindowGathers<T>(x: seq<T>, win: nat, i: nat, mem: seq<Slot<T>>)
    requires win > 0 && i < |x| <= |mem| && mem[..|x|] == Tokens(x, 0, |x|)
    ensures InMemory(PromptWindow(win, |x|, i), |mem|)
    ensures Gather(PromptWindow(win, |x|, i), mem) == WindowOf(x[..i + 1], win)
  {
    hide PromptWindow, Tokens, Repeat, Gather;
    var lo := Max(i - win + 1, 0);
    var pads := PromptWindowShape(win, |x|, i);
    GatherRange(lo, i + 1, mem);
    GatherNothing(pads, mem);
    GatherConcat(Range(lo, i + 1), Repeat(pads, -1), mem);
    TokensSlice(x, lo, i + 1, mem);
  }

  lemma TokensSlice<T>(x: seq<T>, lo: nat, hi: nat, mem: seq<Slot<T>>)
    requires lo <= hi <= |x| <= |mem| && mem[..|x|] == Tokens(x, 0, |x|)
    ensures mem[lo..hi] == Tokens(x[..hi], lo, hi)
  {
    forall j | 0 <= j < hi - lo ensures mem[lo..hi][j] == Tokens(x[..hi], lo, hi)[j] {
      assert mem[lo + j] == mem[..|x|][lo + j];
    }
  }

  /** A prompt's window row: the positions of the window in order, then padding. */
  lemma PromptWindowShape(win: nat, n: nat, i: nat) returns (pads: nat)
    requires win > 0 && i < n
    ensures PromptWindow(win, n, i) == Range(Max(i - win + 1, 0), i + 1) + Repeat(pads, -1)
  {
    pads := Min(n, win) - (i + 1 - Max(i - win + 1, 0));
    RepeatAt(pads, -1);
  }

  /** In decoding, from the ring that already holds the query's own position. */
  lemma RingWindowGathers<T>(cache: seq<Slot<T>>, win: nat, h: seq<T>)
    requires 0 < win <= |cache| && Ring(cache, win, h) && |h| > 1
    ensures |WindowIdxs(win, 1, |h| - 1)| == 1 && InMemory(WindowIdxs(win, 1, |h| - 1)[0], |cache|)
    ensures Gather(WindowIdxs(win, 1, |h| - 1)[0], cache) == WindowOf(h, win)
  {
    hide Ring, Gather, WindowOf, Rem, Repeat, Range;
    if |h| >= win { FullRingGathers(cache, win, h); } else { PartRingGathers(cache, win, h); }
  }

  lemma FullRingGathers<T>(cache: seq<Slot<T>>, win: nat, h: seq<T>)
    requires 0 < win <= |cache| && Ring(cache, win, h) && |h| > 1 && |h| >= win
    ensures var s := Rem(|h| - 1, win);
      && InMemory(Range(s + 1, win) + Range(0, s + 1), |cache|)
      && Gather(Range(s + 1, win) + Range(0, s + 1), cache) == WindowOf(h, win)
  {
    hide Ring, Tokens, Gather, Rem, WindowOf, Range;
    var s := Rem(|h| - 1, win);
    NextQuotRem(|h| - 1, win);
    GatherRange(s + 1, win, cache);
    GatherRange(0, s + 1, cache);
    GatherConcat(Range(s + 1, win), Range(0, s + 1), cache);
    RingUnrolls(cache, win, h, s);
  }

  lemma PartRingGathers<T>(cache: seq<Slot<T>>, win: nat, h: seq<T>)
    requires 0 < win <= |cache| && Ring(cache, win, h) && |h| < win
    ensures InMemory(Range(0, |h|) + Repeat(win - |h|, -1), |cache|)
    ensures Gather(Range(0, |h|) + Repeat(win - |h|, -1), cache) == WindowOf(h, win)
  {
    hide Tokens, Gather, Rem, Range;
    GatherRange(0, |h|, cache);
    GatherNothing(win - |h|, cache);
    GatherConcat(Range(0, |h|), Repeat(win - |h|, -1), cache);
    RemSmall(|h|, win);
    assert cache[0..|h|] == cache[..|h|];
  }

  lemma RingUnrolls<T>(cache: seq<Slot<T>>, win: nat, h: seq<T>, s: nat)
    requires 0 < win <= |cache| && Ring(cache, win, h) && |h| >= win
    requires s < win && Rem(|h|, win) == if s + 1 == win then 0 else s + 1
    ensures cache[s + 1..win] + cache[0..s + 1] == WindowOf(h, win)
  {
    hide Rem;
    var n := |h|;
    if s + 1 == win {
      assert cache[s + 1..win] + cache[0..s + 1] == cache[0..win];
    } else {
      assert cache[0..s + 1] == cache[..s + 1];
      assert Tokens(h, n - win, n) == Tokens(h, n - win, n - s - 1) + Tokens(h, n - s - 1, n);
    }
  }

  // ----- The two branches of `Attention.forward` -----

  /** The caches after a prompt. */
  function PrefillLayer<T>(b: Buffers<T>, l: Layer, x: seq<T>): (r: Buffers<T>)
    requires l.Fits(b, |x|)
    ensures |r.cache| == |b.cache| && (l.comp.Some? ==> r.Fits(l.comp.value))
  {
    var b1 := b.(cache := RingPrompt(b.cache, l.win, x));
    if l.comp.Some? then Prefilled(b1, l.comp.value, x) else b1
  }

  /** The caches after one more token at position `p`. */
  function DecodeLayer<T>(b: Buffers<T>, l: Layer, t: T, p: nat): (r: Buffers<T>)
    requires l.Fits(b, p + 1)
    ensures |r.cache| == |b.cache| && (l.comp.Some? ==> r.Fits(l.comp.value))
  {
    var b1 := b.(cache := b.cache[Rem(p, l.win) := Token(t, p)]);
    if l.comp.Some? then Decoded(b1, l.comp.value, t, p) else b1
  }

  /** What `kv` holds in a prompt when `sparse_attn` reads it. */
  function PromptMemory<T>(x: seq<T>, l: Layer): seq<Slot<T>>
    requires l.comp.Some? ==> l.comp.value.ratio > 0
  {
    Tokens(x, 0, |x|) +
    if l.comp.Some? && |x| >= l.comp.value.ratio
    then CompletedEntries(x, l.comp.value, Padding(l.comp.value.ratio)) else []
  }

  /** The row of `topk_idxs` for the query at position `i` of a prompt of `n`. */
  function PromptRow(l: Layer, n: nat, i: nat, window: seq<int>, picks: seq<nat>): seq<int>
    requires l.comp.Some? ==> l.comp.value.ratio > 0
  {
    window + if l.comp.Some? then Masked(picks, Quot(i + 1, l.comp.value.ratio), n) else []
  }

  /** One more token adds at most one entry. */
  lemma PrefixGrows<T>(h: seq<T>, t: T, c: Config, lead: Lead<T>)
    requires c.ratio > 0
    ensures CompletedEntries(h, c, lead) <= CompletedEntries(h + [t], c, lead)
  {
    NextQuotRem(|h|, c.ratio);
    var n, n' := |h| - Rem(|h|, c.ratio), |h| + 1 - Rem(|h| + 1, c.ratio);
    hide Quot, Rem, Entries;
    assert n' == n || n' == n + c.ratio;
    EntriesAreFinal(h, t, c.ratio, c.overlap, lead, n);
    if n' == n + c.ratio { NextEntry(h + [t], c.ratio, c.overlap, lead, n); }
  }

  lemma QuotGrows(n: nat, d: nat)
    requires d > 0
    ensures Quot(n, d) <= Quot(n + 1, d)
  {
    NextQuotRem(n, d);
    hide Quot;
  }

  lemma NextEntry<T>(h: seq<T>, ratio: nat, overlap: bool, lead: Lead<T>, end: nat)
    requires ratio > 0 && end + ratio <= |h|
    ensures Entries(h, ratio, overlap, lead, end) <= Entries(h, ratio, overlap, lead, end + ratio)
  {
    hide Entry;
  }

  /** The entries of a prefix come first. */
  lemma {:induction false} EntriesOfPrefix<T>(h: seq<T>, k: nat, c: Config, lead: Lead<T>)
    requires c.ratio > 0 && k <= |h|
    ensures Quot(k, c.ratio) <= |CompletedEntries(h, c, lead)|
    ensures CompletedEntries(h, c, lead)[..Quot(k, c.ratio)] == CompletedEntries(h[..k], c, lead)
    decreases |h| - k
  {
    hide CompletedEntries, Quot, Rem;
    LayerEntriesCount(h, c, lead);
    if k == |h| {
      assert h[..k] == h;
    } else {
      EntriesOfPrefix(h, k + 1, c, lead);
      assert h[..k + 1] == h[..k] + [h[k]];
      QuotGrows(k, c.ratio);
      PrefixGrows(h[..k], h[k], c, lead);
      LayerEntriesCount(h[..k], c, lead);
    }
  }

  lemma LayerEntriesCount<T>(h: seq<T>, c: Config, lead: Lead<T>)
    requires c.ratio > 0
    ensures |CompletedEntries(h, c, lead)| == Quot(|h|, c.ratio)
  {
    EntriesCount(h, c, |h|, lead);
  }

  /** A query in a prompt sees what the definition says, from the tokens up to its own. */
  lemma PromptRowSees<T>(x: seq<T>, l: Layer, i: nat, picks: seq<nat>)
    requires l.win > 0 && i < |x| && (l.comp.Some? ==> l.comp.value.ratio > 0)
    ensures var mem := PromptMemory(x, l);
      var row := PromptRow(l, |x|, i, PromptWindow(l.win, |x|, i), picks);
      InMemory(row, |mem|) && Gather(row, mem)
        == Seen(x[..i + 1], l, if l.comp.Some? then Padding(l.comp.value.ratio) else Lead([], []), picks)
  {
    hide PromptWindow, Tokens, Gather, Masked, Select, Quot, Rem, Entries;
    var mem := PromptMemory(x, l);
    var window := PromptWindow(l.win, |x|, i);
    PromptWindowGathers(x, l.win, i, mem);
    if l.comp.Some? {
      var c := l.comp.value;
      var done := PromptEntries(x, c, i + 1, mem);
      GatherMasked(picks, done, |x|, mem);
      GatherConcat(window, Masked(picks, |done|, |x|), mem);
    } else {
      assert window + [] == window;
    }
  }

  lemma PromptEntries<T>(x: seq<T>, c: Config, k: nat, mem: seq<Slot<T>>) returns (done: seq<Slot<T>>)
    requires c.ratio > 0 && k <= |x|
    requires mem == Tokens(x, 0, |x|) + if |x| >= c.ratio then CompletedEntries(x, c, Padding(c.ratio)) else []
    ensures done == CompletedEntries(x[..k], c, Padding(c.ratio)) && |done| == Quot(k, c.ratio)
    ensures |x| + |done| <= |mem| && mem[|x|..|x| + |done|] == done
  {
    hide Quot, Tokens;
    var lead := Padding<T>(c.ratio);
    done := CompletedEntries(x[..k], c, lead);
    EntriesOfPrefix(x, k, c, lead);
    EntriesCount(x[..k], c, k, lead);
    assert |x| < c.ratio ==> CompletedEntries(x, c, lead) == [];
    assert mem == Tokens(x, 0, |x|) + CompletedEntries(x, c, lead);
  }

  // ----- Whole runs -----

  /** A prompt followed by the decoding of `tail`. */
  function RanLayer<T>(b: Buffers<T>, l: Layer, prompt: seq<T>, tail: seq<T>): (r: Buffers<T>)
    requires l.Fits(b, |prompt| + |tail|)
    ensures |r.cache| == |b.cache| && (l.comp.Some? ==> r.Fits(l.comp.value))
    decreases |tail|
  {
    if tail == [] then PrefillLayer(b, l, prompt)
    else
      var n := |tail| - 1;
      LayerRoomShrinks(b, l, |prompt| + n);
      var r := RanLayer(b, l, prompt, tail[..n]);
      DecodeLayer(r, l, tail[n], |prompt| + n)
  }

  lemma LayerRoomShrinks<T>(b: Buffers<T>, l: Layer, n: nat)
    requires l.Fits(b, n + 1)
    ensures l.Fits(b, n)
  {
    if l.comp.Some? { RoomShrinks(b, l.comp.value, n); }
  }

  /** A compressor writes no row of the ring. */
  lemma PrefilledKeepsRing<T>(b: Buffers<T>, c: Config, x: seq<T>)
    requires Room(b, c, |x|)
    ensures Prefilled(b, c, x).cache[..c.base] == b.cache[..c.base]
  {
    hide Quot, Rem, PoolPrompt;
  }

  lemma DecodedKeepsRing<T>(b: Buffers<T>, c: Config, t: T, p: nat)
    requires Room(b, c, p + 1)
    ensures Decoded(b, c, t, p).cache[..c.base] == b.cache[..c.base]
  {
    hide Quot, Rem, PoolWindow, Splice;
    NextQuotRem(p, c.ratio);
  }

  /** The caches hold the whole history. */
  ghost predicate LayerTracks<T>(b: Buffers<T>, l: Layer, h: seq<T>, lead: Lead<T>)
    requires 0 < l.win <= |b.cache| && (l.comp.Some? ==> b.Fits(l.comp.value))
  {
    Ring(b.cache, l.win, h) && (l.comp.Some? ==> Tracks(b, l.comp.value, h, lead))
  }

  function LayerLead<T>(b: Buffers<T>, l: Layer, n: nat): Lead<T>
    requires l.comp.Some? ==> |b.kv| >= l.comp.value.ratio && |b.score| >= l.comp.value.ratio
  {
    if l.comp.Some? then LeadAfter(b, l.comp.value, n) else Lead([], [])
  }

  lemma RingCongruence<T>(a: seq<Slot<T>>, b: seq<Slot<T>>, win: nat, h: seq<T>)
    requires 0 < win <= |a| && win <= |b| && a[..win] == b[..win] && Ring(a, win, h)
    ensures Ring(b, win, h)
  {
    hide Tokens, Rem;
    var s := Rem(|h|, win);
    assert a[..s] == a[..win][..s] && b[..s] == b[..win][..s];
    assert a[s..win] == a[..win][s..] && b[s..win] == b[..win][s..];
  }

  /** The compressor looks only at its own part of the cache. */
  lemma TracksCongruence<T>(a: Buffers<T>, b: Buffers<T>, c: Config, h: seq<T>, lead: Lead<T>)
    requires a.Fits(c) && b.Fits(c) && a.kv == b.kv && a.score == b.score && a.cache[c.base..] == b.cache[c.base..]
    requires Tracks(a, c, h, lead)
    ensures Tracks(b, c, h, lead)
  {
    hide HoldsRows, Entries, Rem;
    var entries := Entries(h, c.ratio, c.overlap, lead, |h| - Rem(|h|, c.ratio));
    assert a.cache[c.base..c.base + |entries|] == a.cache[c.base..][..|entries|];
    assert b.cache[c.base..c.base + |entries|] == b.cache[c.base..][..|entries|];
  }

  lemma PrefillLayerTracks<T>(b: Buffers<T>, l: Layer, x: seq<T>)
    requires l.Fits(b, |x|)
    ensures LayerTracks(PrefillLayer(b, l, x), l, x, LayerLead(b, l, |x|))
  {
    hide Ring, RingPrompt, Tracks, Prefilled, Quot;
    var b1 := b.(cache := RingPrompt(b.cache, l.win, x));
    RingPromptHolds(b.cache, l.win, x);
    if l.comp.Some? {
      PrefilledTracks(b1, l.comp.value, x);
      PrefilledKeepsRing(b1, l.comp.value, x);
      RingCongruence(b1.cache, PrefillLayer(b, l, x).cache, l.win, x);
    }
  }

  lemma DecodeLayerTracks<T>(b: Buffers<T>, l: Layer, h: seq<T>, t: T, lead: Lead<T>)
    requires l.Fits(b, |h| + 1) && LayerTracks(b, l, h, lead)
    ensures LayerTracks(DecodeLayer(b, l, t, |h|), l, h + [t], lead)
  {
    hide Ring, Tracks, Decoded, Quot;
    var b1 := b.(cache := b.cache[Rem(|h|, l.win) := Token(t, |h|)]);
    RingDecodeHolds(b.cache, l.win, h, t);
    if l.comp.Some? {
      TracksCongruence(b, b1, l.comp.value, h, lead);
      DecodedTracks(b1, l.comp.value, t, h, lead);
      DecodedKeepsRing(b1, l.comp.value, t, |h|);
      RingCongruence(b1.cache, DecodeLayer(b, l, t, |h|).cache, l.win, h + [t]);
    }
  }

  /** After any prompt and any decodes, ring and compressor hold the whole history. */
  lemma {:induction false} RanLayerTracks<T>(b: Buffers<T>, l: Layer, prompt: seq<T>, tail: seq<T>)
    requires l.Fits(b, |prompt| + |tail|)
    ensures LayerTracks(RanLayer(b, l, prompt, tail), l, prompt + tail, LayerLead(b, l, |prompt|))
    decreases |tail|
  {
    hide LayerTracks, PrefillLayer, DecodeLayer, LayerLead, Quot;
    if tail == [] {
      PrefillLayerTracks(b, l, prompt);
      assert prompt + tail == prompt;
    } else {
      var n := |tail| - 1;
      LayerRoomShrinks(b, l, |prompt| + n);
      RanLayerTracks(b, l, prompt, tail[..n]);
      DecodeLayerTracks(RanLayer(b, l, prompt, tail[..n]), l, prompt + tail[..n], tail[n], LayerLead(b, l, |prompt|));
      assert prompt + tail[..n] + [tail[n]] == prompt + tail;
    }
  }

  // ----- What is seen -----

  /** The query of a decode step at position `p`: `picks` are the groups the indexer picked,
      or all completed ones. */
  function DecodeRowOf(l: Layer, p: nat, picks: seq<nat>): (r: seq<int>)
    requires l.win > 0 && p > 0
  {
    WindowIdxs(l.win, 1, p)[0] + if l.comp.Some? then Shifted(picks, l.win) else []
  }

  ghost predicate Pickable(l: Layer, n: nat, picks: seq<nat>) {
    l.comp.Some? ==> l.comp.value.ratio > 0 && forall k :: 0 <= k < |picks| ==> picks[k] < Quot(n, l.comp.value.ratio)
  }

  lemma DecodeSees<T>(b: Buffers<T>, l: Layer, h: seq<T>, lead: Lead<T>, picks: seq<nat>)
    requires l.Fits(b, |h|) && LayerTracks(b, l, h, lead) && |h| > 1 && Pickable(l, |h|, picks)
    ensures InMemory(DecodeRowOf(l, |h| - 1, picks), |b.cache|)
    ensures Gather(DecodeRowOf(l, |h| - 1, picks), b.cache) == Seen(h, l, lead, picks)
  {
    hide Ring, WindowIdxs, WindowOf, Gather, Tracks, Quot, Rem, Entries, Select, InMemory;
    RingWindowGathers(b.cache, l.win, h);
    var window := WindowIdxs(l.win, 1, |h| - 1)[0];
    if l.comp.Some? {
      var c := l.comp.value;
      var done := CompletedEntries(h, c, lead);
      TracksEntries(b, c, h, lead);
      EntriesCount(h, c, |h|, lead);
      assert Shifted(picks, l.win) == Masked(picks, |done|, l.win);
      GatherMasked(picks, done, l.win, b.cache);
      GatherConcat(window, Shifted(picks, l.win), b.cache);
    } else {
      assert window + [] == window;
    }
  }

  /** What every query of a prompt sees; None stands for the shape mismatch that follows when
      the window matrix does not have one row per query. */
  function PromptSees<T>(x: seq<T>, l: Layer, picks: seq<seq<nat>>): Option<seq<seq<Slot<T>>>>
    requires l.win > 0 && |picks| == |x| && (l.comp.Some? ==> l.comp.value.ratio > 0)
  {
    var window := WindowIdxs(l.win, |x|, 0);
    if |window| != |x| then None
    else
      Some(seq(|x|, i requires 0 <= i < |x| =>
        (PromptMatrix(l.win, |x|); PromptRowSees(x, l, i, picks[i]);
         Gather(PromptRow(l, |x|, i, window[i], picks[i]), PromptMemory(x, l)))))
  }

  lemma OnlyPosition(row: seq<int>)
    requires row == PromptWindow(1, 1, 0)
    ensures row == [0]
  {
    assert Max(0 - 1 + 1, 0) == 0 && Min(1, 1) == 1;
    assert |row| == 1;
  }

  /** With a window of one position the first branch of `get_window_topk_idxs` also takes
      prompts and builds a single row. */
  lemma PromptMatrix(win: nat, n: nat)
    requires win > 0 && n > 0
    ensures |WindowIdxs(win, n, 0)| == n <==> win > 1 || n == 1
    ensures win > 1 || n == 1 ==> forall i :: 0 <= i < n ==> WindowIdxs(win, n, 0)[i] == PromptWindow(win, n, i)
  {
    if win == 1 {
      RemSmall(0, 1);
      assert Range(1, 1) + Range(0, 1) == [0];
      if n == 1 { OnlyPosition(PromptWindow(win, n, 0)); }
    }
  }

  /** A prompt is served exactly when the window is wider than one position or the prompt is
      one token, and then every query sees the window and the completed groups as of its own
      position. */
  lemma PromptSeesExactly<T>(x: seq<T>, l: Layer, picks: seq<seq<nat>>)
    requires |x| > 0 && l.win > 0 && |picks| == |x| && (l.comp.Some? ==> l.comp.value.ratio > 0)
    ensures PromptSees(x, l, picks).Some? <==> l.win > 1 || |x| == 1
    ensures PromptSees(x, l, picks).Some? ==> |PromptSees(x, l, picks).value| == |x|
    ensures PromptSees(x, l, picks).Some? ==> forall i :: 0 <= i < |x| ==>
      PromptSees(x, l, picks).value[i]
        == Seen(x[..i + 1], l, if l.comp.Some? then Padding(l.comp.value.ratio) else Lead([], []), picks[i])
  {
    hide WindowIdxs, PromptWindow, Gather, PromptMemory, PromptRow, Seen;
    PromptMatrix(l.win, |x|);
    forall i | 0 <= i < |x|
      ensures InMemory(PromptRow(l, |x|, i, PromptWindow(l.win, |x|, i), picks[i]), |PromptMemory(x, l)|)
      ensures Gather(PromptRow(l, |x|, i, PromptWindow(l.win, |x|, i), picks[i]), PromptMemory(x, l))
        == Seen(x[..i + 1], l, if l.comp.Some? then Padding(l.comp.value.ratio) else Lead([], []), picks[i])
    {
      PromptRowSees(x, l, i, picks[i]);
    }
  }

  /** Picks show a difference in the first entry exactly when they name it. */
  lemma {:induction false} SelectDecides<V>(x: seq<V>, y: seq<V>, picks: seq<nat>)
    requires |x| == |y| && forall g :: 0 < g < |x| ==> x[g] == y[g]
    ensures |Select(x, picks)| == |Select(y, picks)|
    ensures Select(x, picks) == Select(y, picks) <==> (0 in picks && |x| > 0 ==> x[0] == y[0])
  {
    if picks != [] {
      var k, xs, ys := picks[0], Select(x, picks[1..]), Select(y, picks[1..]);
      SelectDecides(x, y, picks[1..]);
      assert 0 in picks <==> k == 0 || 0 in picks[1..];
      hide Select;
      if k < |x| { SameConcat([x[k]], [y[k]], xs, ys); } else { assert [] + xs == xs && [] + ys == ys; }
    }
  }

  lemma SameConcat<V>(a: seq<V>, b: seq<V>, x: seq<V>, y: seq<V>)
    requires |a| == |b|
    ensures a + x == b + y <==> a == b && x == y
  {
    assert (a + x)[..|a|] == a && (a + x)[|a|..] == x;
    assert (b + y)[..|b|] == b && (b + y)[|b|..] == y;
  }

  /** With another lead a query sees the same unless group 0 is complete, picked and different. */
  lemma SeenDecides<T>(h: seq<T>, l: Layer, c: Config, a: Lead<T>, b: Lead<T>, picks: seq<nat>)
    requires l.comp == Some(c) && c.ratio > 0 && |a.kv| == |a.score| == |b.kv| == |b.score| == c.ratio
    ensures Seen(h, l, a, picks) == Seen(h, l, b, picks) <==> (c.overlap && |h| >= c.ratio && 0 in picks ==> a == b)
  {
    Cutoff(|h|, c.ratio);
    LeadsCompared(h, c.ratio, c.overlap, a, b, Quot(|h|, c.ratio));
    hide Entries, Select, WindowOf, Quot, Rem;
    var x, y := CompletedEntries(h, c, a), CompletedEntries(h, c, b);
    SelectDecides(x, y, picks);
    SameConcat(WindowOf(h, l.win), WindowOf(h, l.win), Select(x, picks), Select(y, picks));
  }

  /** The one case in which decoding shows something else than a prompt: group 0 overlaps what
      stood before it, was completed by decoding, and is picked. */
  ghost predicate ShowsLead(l: Layer, n: nat, total: nat, picks: seq<nat>) {
    l.comp.Some? && l.comp.value.overlap && n < l.comp.value.ratio <= total && 0 in picks
  }

  /** Cached attention sees what uncached attention sees: the query of the last decode step,
      reading the caches after a prompt and any decodes, gathers the same rows as the last
      query of one prompt of the whole history, unless group 0 shows rows of an earlier
      sequence.  `picks` is any choice of completed groups; layers without an indexer pick all. */
  lemma CachedSeesUncached<T>(b: Buffers<T>, l: Layer, prompt: seq<T>, tail: seq<T>, picks: seq<nat>,
                  others: seq<seq<nat>>)
    requires |prompt| > 0 && |tail| > 0 && l.Fits(b, |prompt| + |tail|)
    requires Pickable(l, |prompt| + |tail|, picks)
    requires |others| == |prompt| + |tail| && others[|prompt| + |tail| - 1] == picks
    ensures var n, r := |prompt| + |tail|, RanLayer(b, l, prompt, tail);
      var uncached := PromptSees(prompt + tail, l, others);
      && InMemory(DecodeRowOf(l, n - 1, picks), |r.cache|)
      && (uncached.Some? <==> l.win > 1)
      && (uncached.Some? ==>
            && |uncached.value| == n
            && (Gather(DecodeRowOf(l, n - 1, picks), r.cache) == uncached.value[n - 1]
                <==> (ShowsLead(l, |prompt|, n, picks) ==> b.LeadRows(l.comp.value) == Padding(l.comp.value.ratio))))
  {
    hide LayerTracks, RanLayer, PromptSees, DecodeRowOf, Gather, InMemory, Seen, Quot;
    var h := prompt + tail;
    RanLayerTracks(b, l, prompt, tail);
    DecodeSees(RanLayer(b, l, prompt, tail), l, h, LayerLead(b, l, |prompt|), picks);
    PromptSeesExactly(h, l, others);
    assert h[..|h|] == h;
    if l.comp.Some? {
      var c := l.comp.value;
      RepeatAt<Kv<T>>(c.ratio, Zero);
      RepeatAt<Score<T>>(c.ratio, NegInf);
      SeenDecides(h, l, c, LayerLead(b, l, |prompt|), Padding(c.ratio), picks);
    }
  }

  /** Without an indexer all groups are picked, so all completed ones are seen, in order. */
  lemma EveryGroupSeen<T>(h: seq<T>, l: Layer, lead: Lead<T>, m: nat)
    requires l.comp.Some? && l.comp.value.ratio > 0 && m >= Quot(|h|, l.comp.value.ratio)
    ensures Seen(h, l, lead, Iota(m)) == WindowOf(h, l.win) + CompletedEntries(h, l.comp.value, lead)
  {
    hide Quot, WindowOf, Entries;
    EntriesCount(h, l.comp.value, |h|, lead);
    SelectAll(CompletedEntries(h, l.comp.value, lead), m);
  }

  // ----- The module object -----

  class Attention<T> {
    const win: nat
    const kvCache: array<Slot<T>>
    /** Shares `kvCache`, of which it writes the rows from `win` on. */
    const compressor: Compressor?<T>

    /** `compressRatio` is 0 for a layer without compression. */
    constructor (win: nat, compressRatio: nat, maxSeqLen: nat)
      requires win > 0
      ensures Valid() && fresh(this) && fresh(Repr())
      ensures L() == Layer(win, if compressRatio == 0 then None
                                else Some(Config(compressRatio, compressRatio == 4, win)))
      ensures L().Fits(State(), maxSeqLen)
      ensures L().comp.Some? ==> State().LeadRows(L().comp.value) == Padding(compressRatio)
    {
      var size := win + if compressRatio == 0 then 0 else Quot(maxSeqLen, compressRatio);
      var cache := new Slot<T>[size](_ => Unset);
      this.win, this.kvCache := win, cache;
      if compressRatio == 0 {
        this.compressor := null;
      } else {
        var c := new Compressor<T>(compressRatio, cache, win);
        this.compressor := c;
      }
    }

    ghost function Repr(): set<object> {
      {kvCache as object} +
      if compressor == null then {} else {compressor.kvState as object, compressor.scoreState as object}
    }

    ghost predicate Valid()
      reads Repr()
    {
      && 0 < win <= kvCache.Length
      && (compressor != null ==> compressor.cache == kvCache && compressor.base == win && compressor.Valid())
    }

    function L(): Layer {
      Layer(win, if compressor == null then None else Some(compressor.Conf()))
    }

    ghost function State(): Buffers<T>
      reads Repr()
    {
      if compressor == null then Buffers([], [], kvCache[..])
      else Buffers(compressor.kvState[..], compressor.scoreState[..], kvCache[..])
    }

    /** `forward` with `start_pos == 0`: the rows each query of the prompt gathers.  With a
        compressor a shape mismatch shows when the index rows are joined, before any write. */
    method Prefill(x: seq<T>, picks: seq<seq<nat>>) returns (seen: Option<seq<seq<Slot<T>>>>)
      requires Valid() && |x| > 0 && |picks| == |x| && L().Fits(State(), |x|)
      modifies Repr()
      ensures Valid()
      ensures State() == if seen.Some? || compressor == null then PrefillLayer(old(State()), L(), x) else old(State())
      ensures seen == PromptSees(x, L(), picks)
    {
      hide Quot, Rem, WindowIdxs, Gather, InMemory, Tokens, Splice, PromptRow, Entries;
      var n := |x|;
      if compressor != null && |WindowIdxs(win, n, 0)| != n { return None; }
      var kv := Tokens(x, 0, n);
      if n <= win {
        SetRows(kvCache, 0, Tokens(x, 0, n));
      } else {
        var cutoff := Rem(n, win);
        SetRows(kvCache, cutoff, Tokens(x, n - win, n - cutoff));
        SetRows(kvCache, 0, Tokens(x, n - cutoff, n));
      }
      if compressor != null {
        var kvCompress := compressor.Prefill(x);
        if kvCompress.Some? { kv := kv + kvCompress.value; }
      }
      seen := GatherPrompt(x, kv, picks);
    }

    method GatherPrompt(x: seq<T>, kv: seq<Slot<T>>, picks: seq<seq<nat>>) returns (seen: Option<seq<seq<Slot<T>>>>)
      requires |x| > 0 && |picks| == |x| && win > 0 && (compressor != null ==> compressor.ratio > 0)
      requires kv == PromptMemory(x, L())
      ensures seen == PromptSees(x, L(), picks)
    {
      hide WindowIdxs, Gather, InMemory, PromptRow, PromptMemory;
      var n, window := |x|, WindowIdxs(win, |x|, 0);
      if |window| != n { return None; }
      PromptMatrix(win, n);
      forall i | 0 <= i < n ensures InMemory(PromptRow(L(), n, i, window[i], picks[i]), |kv|) {
        PromptRowSees(x, L(), i, picks[i]);
      }
      var rows := seq(n, i requires 0 <= i < n && InMemory(PromptRow(L(), n, i, window[i], picks[i]), |kv|) =>
        Gather(PromptRow(L(), n, i, window[i], picks[i]), kv));
      assert PromptSees(x, L(), picks).value == rows;
      return Some(rows);
    }

    /** `forward` with one token at `start_pos == p > 0`: the rows its query gathers. */
    method Decode(t: T, p: nat, picks: seq<nat>) returns (seen: seq<Slot<T>>)
      requires Valid() && p > 0 && L().Fits(State(), p + 1) && Pickable(L(), p + 1, picks)
      modifies Repr()
      ensures Valid() && State() == DecodeLayer(old(State()), L(), t, p)
      ensures InMemory(DecodeRowOf(L(), p, picks), |State().cache|)
      ensures seen == Gather(DecodeRowOf(L(), p, picks), State().cache)
    {
      hide Quot, Rem, WindowIdxs, Gather, DecodeRowOf, InMemory;
      DecodeRowInMemory(State(), L(), p, picks);
      var topkIdxs := DecodeRowOf(L(), p, picks);
      kvCache[Rem(p, win)] := Token(t, p);
      if compressor != null { compressor.Decode(t, p); }
      seen := Gather(topkIdxs, kvCache[..]);
    }
  }

  lemma DecodeRowInMemory<T>(b: Buffers<T>, l: Layer, p: nat, picks: seq<nat>)
    requires p > 0 && l.Fits(b, p + 1) && Pickable(l, p + 1, picks)
    ensures InMemory(DecodeRowOf(l, p, picks), |b.cache|)
  {
    hide Quot, Rem;
    if p < l.win - 1 { RepeatAt(l.win - p - 1, -1); }
  }
}
