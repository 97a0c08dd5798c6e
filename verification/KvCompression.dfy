/** The KV compressor of deepseekv4/model.py: learned pooling over groups of `ratio`
    consecutive tokens, computed for a whole prompt at once or one token at a time.

    Numbers are free terms.  A pooled entry records which projected rows, biased scores
    and rotary position went into it, so entries that are equal here are equal under
    every choice of projection, softmax pooling, norm, rotation and quantisation. */
module KvCompression {
  import opened DivMod
  import opened Results

  /** One row of `kv_state`: the initial zeros, or a token's projection. */
  datatype Kv<+T> = Zero | Proj(token: T)

  /** One row of `score_state`: the initial -inf, or a token's gate plus row `ape` of the bias. */
  datatype Score<+T> = NegInf | Gate(token: T, ape: nat)

  /** The channels of a row that enter a pool: all, the first `d`, or the last `d`. */
  datatype Part = Whole | Low | High

  /** One row of a layer's KV cache. */
  datatype Slot<+T> =
    | Unset
    | Token(token: T, pos: nat)
    | Pooled(kvs: seq<(Kv<T>, Part)>, scores: seq<(Score<T>, Part)>, ropePos: nat)

  /** The rows that stand before group 0 when windows overlap. */
  datatype Lead<+T> = Lead(kv: seq<Kv<T>>, score: seq<Score<T>>)

  function Repeat<V>(n: nat, v: V): seq<V> {
    if n == 0 then [] else [v] + Repeat(n - 1, v)
  }

  lemma {:induction false} RepeatAt<V>(n: nat, v: V)
    ensures |Repeat(n, v)| == n
    ensures forall j :: 0 <= j < n ==> Repeat(n, v)[j] == v
  {
    if n > 0 { RepeatAt(n - 1, v); }
  }

  function Padding<T>(ratio: nat): Lead<T> {
    Lead(Repeat(ratio, Zero), Repeat(ratio, NegInf))
  }

  // ----- What one pass over the whole history writes -----

  function KvRows<T>(h: seq<T>, lo: nat, n: nat): (r: seq<Kv<T>>)
    requires lo + n <= |h|
    ensures |r| == n
  {
    seq(n, j requires 0 <= j < n => Proj(h[lo + j]))
  }

  function ScoreRows<T>(h: seq<T>, lo: nat, n: nat): (r: seq<Score<T>>)
    requires lo + n <= |h|
    ensures |r| == n
  {
    seq(n, j requires 0 <= j < n => Gate(h[lo + j], j))
  }

  function Tag<V>(rows: seq<V>, part: Part): seq<(V, Part)> {
    seq(|rows|, j requires 0 <= j < |rows| => (rows[j], part))
  }

  /** What stands before the group that starts at `at`. */
  function Before<T>(h: seq<T>, ratio: nat, lead: Lead<T>, at: nat): Lead<T>
    requires at <= |h|
  {
    if at < ratio then lead else Lead(KvRows(h, at - ratio, ratio), ScoreRows(h, at - ratio, ratio))
  }

  /** The group of history `h` that starts at position `at`, pooled directly: with overlap,
      the first-half channels of the group before it and its own last-half channels;
      otherwise all its channels. */
  function Entry<T>(h: seq<T>, ratio: nat, overlap: bool, lead: Lead<T>, at: nat): Slot<T>
    requires at + ratio <= |h|
  {
    var before := Before(h, ratio, lead, at);
    if overlap then
      Pooled(Tag(before.kv, Low) + Tag(KvRows(h, at, ratio), High),
             Tag(before.score, Low) + Tag(ScoreRows(h, at, ratio), High), at)
    else
      Pooled(Tag(KvRows(h, at, ratio), Whole), Tag(ScoreRows(h, at, ratio), Whole), at)
  }

  /** The groups of `h` that end at `end`, `end - ratio`, and so on, in order of position. */
  function Entries<T>(h: seq<T>, ratio: nat, overlap: bool, lead: Lead<T>, end: nat): seq<Slot<T>>
    requires ratio > 0 && end <= |h|
  {
    if end < ratio then []
    else Entries(h, ratio, overlap, lead, end - ratio) + [Entry(h, ratio, overlap, lead, end - ratio)]
  }

  /** There is one entry per completed group, each for its own group. */
  lemma {:induction false} EntriesAre<T>(h: seq<T>, ratio: nat, overlap: bool, lead: Lead<T>, m: nat)
    requires ratio > 0 && m * ratio <= |h|
    ensures |Entries(h, ratio, overlap, lead, m * ratio)| == m
    ensures forall g :: 0 <= g < m ==>
      && g * ratio + ratio <= |h|
      && Entries(h, ratio, overlap, lead, m * ratio)[g] == Entry(h, ratio, overlap, lead, g * ratio)
  {
    if m > 0 {
      assert (m - 1) * ratio == m * ratio - ratio;
      MulMono(1, m, ratio);
      EntriesAre(h, ratio, overlap, lead, m - 1);
    }
  }

  /** What entry `g` pools, row by row: without overlap all channels of the tokens of group g, each
      gated with its own bias row; with overlap the last-half channels of group g, and before
      them the first-half channels of group g-1, or of the lead rows for group 0. */
  lemma EntriesAt<T>(h: seq<T>, ratio: nat, overlap: bool, lead: Lead<T>, m: nat, g: nat, j: nat)
    requires m * ratio <= |h| && g < m && j < ratio && |lead.kv| == |lead.score| == ratio
    ensures |Entries(h, ratio, overlap, lead, m * ratio)| == m
    ensures g * ratio + ratio <= |h| && (g > 0 ==> (g - 1) * ratio + ratio == g * ratio)
    ensures var e := Entries(h, ratio, overlap, lead, m * ratio)[g];
      && e.Pooled? && e.ropePos == g * ratio
      && |e.kvs| == |e.scores| == (if overlap then 2 * ratio else ratio)
      && (!overlap ==> e.kvs[j] == (Proj(h[g * ratio + j]), Whole) && e.scores[j] == (Gate(h[g * ratio + j], j), Whole))
      && (overlap ==>
            && e.kvs[ratio + j] == (Proj(h[g * ratio + j]), High)
            && e.scores[ratio + j] == (Gate(h[g * ratio + j], j), High))
      && (overlap && g > 0 ==>
            && e.kvs[j] == (Proj(h[(g - 1) * ratio + j]), Low)
            && e.scores[j] == (Gate(h[(g - 1) * ratio + j], j), Low))
      && (overlap && g == 0 ==> e.kvs[j] == (lead.kv[j], Low) && e.scores[j] == (lead.score[j], Low))
  {
    EntriesAre(h, ratio, overlap, lead, m);
    if g > 0 {
      MulMono(1, g, ratio);
      assert (g - 1) * ratio + ratio == g * ratio;
    }
    EntryAt(h, ratio, overlap, lead, g * ratio, j);
    hide Entries, Entry;
  }

  lemma EntryAt<T>(h: seq<T>, ratio: nat, overlap: bool, lead: Lead<T>, at: nat, j: nat)
    requires at + ratio <= |h| && j < ratio && |lead.kv| == |lead.score| == ratio
    ensures var e := Entry(h, ratio, overlap, lead, at);
      && e.Pooled? && e.ropePos == at && |e.kvs| == |e.scores| == (if overlap then 2 * ratio else ratio)
      && (!overlap ==> e.kvs[j] == (Proj(h[at + j]), Whole) && e.scores[j] == (Gate(h[at + j], j), Whole))
      && (overlap ==> e.kvs[ratio + j] == (Proj(h[at + j]), High) && e.scores[ratio + j] == (Gate(h[at + j], j), High))
      && (overlap && at >= ratio ==>
            e.kvs[j] == (Proj(h[at - ratio + j]), Low) && e.scores[j] == (Gate(h[at - ratio + j], j), Low))
      && (overlap && at < ratio ==> e.kvs[j] == (lead.kv[j], Low) && e.scores[j] == (lead.score[j], Low))
  {
  }

  /** On fresh buffers, group 0 pools zeros and -inf before its own tokens. */
  lemma PaddingAt<T>(ratio: nat, j: nat)
    requires j < ratio
    ensures |Padding<T>(ratio).kv| == |Padding<T>(ratio).score| == ratio
    ensures Padding<T>(ratio).kv[j] == Zero && Padding<T>(ratio).score[j] == NegInf
  {
    RepeatAt<Kv<T>>(ratio, Zero);
    RepeatAt<Score<T>>(ratio, NegInf);
  }

  /** Later tokens do not touch completed groups. */
  lemma {:induction false} EntriesAreFinal<T>(h: seq<T>, t: T, ratio: nat, overlap: bool, lead: Lead<T>, end: nat)
    requires ratio > 0 && end <= |h|
    ensures Entries(h + [t], ratio, overlap, lead, end) == Entries(h, ratio, overlap, lead, end)
  {
    if end >= ratio {
      EntriesAreFinal(h, t, ratio, overlap, lead, end - ratio);
      EntryIsFinal(h, t, ratio, overlap, lead, end - ratio);
    }
  }

  lemma EntryIsFinal<T>(h: seq<T>, t: T, ratio: nat, overlap: bool, lead: Lead<T>, at: nat)
    requires at + ratio <= |h|
    ensures Entry(h + [t], ratio, overlap, lead, at) == Entry(h, ratio, overlap, lead, at)
  {
    BeforeIsFinal(h, t, ratio, lead, at);
    assert KvRows(h + [t], at, ratio) == KvRows(h, at, ratio);
    assert ScoreRows(h + [t], at, ratio) == ScoreRows(h, at, ratio);
  }

  lemma BeforeIsFinal<T>(h: seq<T>, t: T, ratio: nat, lead: Lead<T>, at: nat)
    requires at <= |h|
    ensures Before(h + [t], ratio, lead, at) == Before(h, ratio, lead, at)
  {
    if at >= ratio {
      assert KvRows(h + [t], at - ratio, ratio) == KvRows(h, at - ratio, ratio);
      assert ScoreRows(h + [t], at - ratio, ratio) == ScoreRows(h, at - ratio, ratio);
    }
  }

  lemma RowsGrow<T>(h: seq<T>, t: T, from: nat)
    requires from <= |h|
    ensures KvRows(h + [t], from, |h| + 1 - from) == KvRows(h, from, |h| - from) + [Proj(t)]
    ensures ScoreRows(h + [t], from, |h| + 1 - from) == ScoreRows(h, from, |h| - from) + [Gate(t, |h| - from)]
  {
  }

  /** With overlap, group 0 shows what stood before it. */
  lemma LeadShows<T>(h: seq<T>, ratio: nat, a: Lead<T>, b: Lead<T>)
    requires 0 < ratio <= |h|
    requires |a.kv| == |a.score| == |b.kv| == |b.score| == ratio
    ensures Entry(h, ratio, true, a, 0) == Entry(h, ratio, true, b, 0) <==> a == b
  {
    var x, y := Entry(h, ratio, true, a, 0), Entry(h, ratio, true, b, 0);
    if x == y {
      forall j | 0 <= j < ratio ensures a.kv[j] == b.kv[j] && a.score[j] == b.score[j] {
        assert x.kvs[j] == (a.kv[j], Low) && y.kvs[j] == (b.kv[j], Low);
        assert x.scores[j] == (a.score[j], Low) && y.scores[j] == (b.score[j], Low);
      }
    }
  }

  // ----- The prompt branch's tensor reshaping -----

  /** The window pooled for group `g`.  With overlap this is row g of `overlap_transform`:
      the first halves of group g-1 (or `pad` before group 0), then the last halves of group g. */
  function Window<V>(groups: seq<seq<V>>, ratio: nat, overlap: bool, pad: V, g: nat): seq<(V, Part)>
    requires g < |groups|
  {
    if overlap then Tag(if g == 0 then Repeat(ratio, pad) else groups[g - 1], Low) + Tag(groups[g], High)
    else Tag(groups[g], Whole)
  }

  lemma GroupFits(n: nat, ratio: nat, g: nat)
    requires ratio > 0 && g < Quot(n, ratio)
    ensures g * ratio + ratio <= n
    ensures g > 0 ==> (g - 1) * ratio == g * ratio - ratio >= 0
  {
    QuotIs(n, ratio);
    MulStep(g, Quot(n, ratio), ratio);
    if g > 0 { MulMono(1, g, ratio); }
  }

  /** `unflatten(1, (-1, ratio))`. */
  function Unflatten<V>(rows: seq<V>, ratio: nat): seq<seq<V>>
    requires ratio > 0
  {
    seq(Quot(|rows|, ratio), g requires 0 <= g < Quot(|rows|, ratio) =>
      (GroupFits(|rows|, ratio, g); rows[g * ratio .. g * ratio + ratio]))
  }

  /** `self.ape` broadcast over groups: row j of every group gets bias row j. */
  function AddApe<T>(groups: seq<seq<T>>): seq<seq<Score<T>>> {
    seq(|groups|, g requires 0 <= g < |groups| => ScoreRows(groups[g], 0, |groups[g]|))
  }

  /** The pools of the prompt branch, one per group of rows. */
  function PoolGroups<T>(kv: seq<seq<Kv<T>>>, score: seq<seq<Score<T>>>, ratio: nat, overlap: bool): (r: seq<Slot<T>>)
    requires |kv| == |score|
    ensures |r| == |kv|
    ensures forall g :: 0 <= g < |kv| ==>
      r[g] == Pooled(Window(kv, ratio, overlap, Zero, g), Window(score, ratio, overlap, NegInf, g), g * ratio)
  {
    seq(|kv|, g requires 0 <= g < |kv| =>
      Pooled(Window(kv, ratio, overlap, Zero, g), Window(score, ratio, overlap, NegInf, g), g * ratio))
  }

  /** The prompt branch of `forward` from `unflatten` to the pooled entries. */
  function PoolPrompt<T>(x: seq<T>, cutoff: nat, ratio: nat, overlap: bool): seq<Slot<T>>
    requires ratio > 0 && cutoff <= |x|
  {
    PoolGroups(Unflatten(KvRows(x, 0, cutoff), ratio), AddApe(Unflatten(x[..cutoff], ratio)), ratio, overlap)
  }

  lemma PoolAt<T>(x: seq<T>, cutoff: nat, ratio: nat, overlap: bool, g: nat)
    requires ratio > 0 && cutoff <= |x| && g < Quot(cutoff, ratio)
    ensures |PoolPrompt(x, cutoff, ratio, overlap)| == Quot(cutoff, ratio) && g * ratio + ratio <= |x|
    ensures PoolPrompt(x, cutoff, ratio, overlap)[g] == Entry(x, ratio, overlap, Padding(ratio), g * ratio)
  {
    UnflattenShape(x, cutoff, ratio);
    hide Unflatten, AddApe, Entry, Window, KvRows, ScoreRows, Quot;
    UnflattenRows(x, cutoff, ratio, g);
    GroupFits(cutoff, ratio, g);
    if g > 0 { UnflattenRows(x, cutoff, ratio, g - 1); }
    var kv, score := Unflatten(KvRows(x, 0, cutoff), ratio), AddApe(Unflatten(x[..cutoff], ratio));
    WindowIsEntry(x, ratio, overlap, kv, score, g, g * ratio);
  }

  /** The reshaping pools exactly the completed groups, each as if on its own. */
  lemma PoolPromptIsEntries<T>(x: seq<T>, cutoff: nat, ratio: nat, overlap: bool)
    requires ratio > 0 && cutoff <= |x| && cutoff == Quot(cutoff, ratio) * ratio
    ensures PoolPrompt(x, cutoff, ratio, overlap) == Entries(x, ratio, overlap, Padding(ratio), cutoff)
    ensures |PoolPrompt(x, cutoff, ratio, overlap)| == Quot(cutoff, ratio)
  {
    var m := Quot(cutoff, ratio);
    assert |PoolPrompt(x, cutoff, ratio, overlap)| == m;
    EntriesAre(x, ratio, overlap, Padding(ratio), m);
    hide Entries, Entry, PoolPrompt, Quot;
    forall g | 0 <= g < m
      ensures PoolPrompt(x, cutoff, ratio, overlap)[g] == Entries(x, ratio, overlap, Padding(ratio), cutoff)[g]
    {
      PoolAt(x, cutoff, ratio, overlap, g);
    }
  }

  lemma UnflattenShape<T>(x: seq<T>, cutoff: nat, ratio: nat)
    requires ratio > 0 && cutoff <= |x|
    ensures |Unflatten(KvRows(x, 0, cutoff), ratio)| == Quot(cutoff, ratio)
    ensures |AddApe(Unflatten(x[..cutoff], ratio))| == Quot(cutoff, ratio)
  {
  }

  lemma UnflattenRows<T>(x: seq<T>, cutoff: nat, ratio: nat, g: nat)
    requires ratio > 0 && cutoff <= |x| && g < Quot(cutoff, ratio)
    ensures g * ratio + ratio <= cutoff && (g > 0 ==> g * ratio >= ratio)
    ensures Unflatten(KvRows(x, 0, cutoff), ratio)[g] == KvRows(x, g * ratio, ratio)
    ensures AddApe(Unflatten(x[..cutoff], ratio))[g] == ScoreRows(x, g * ratio, ratio)
  {
    GroupFits(cutoff, ratio, g);
    hide Quot;
    var group := x[..cutoff][g * ratio .. g * ratio + ratio];
    assert AddApe(Unflatten(x[..cutoff], ratio))[g] == ScoreRows(group, 0, ratio);
    assert ScoreRows(group, 0, ratio) == ScoreRows(x, g * ratio, ratio);
  }

  lemma WindowIsEntry<T>(x: seq<T>, ratio: nat, overlap: bool, kv: seq<seq<Kv<T>>>, score: seq<seq<Score<T>>>,
                         g: nat, at: nat)
    requires g < |kv| == |score| && at + ratio <= |x|
    requires kv[g] == KvRows(x, at, ratio) && score[g] == ScoreRows(x, at, ratio)
    requires if g == 0 then at < ratio
             else at >= ratio && kv[g - 1] == KvRows(x, at - ratio, ratio)
                  && score[g - 1] == ScoreRows(x, at - ratio, ratio)
    ensures Pooled(Window(kv, ratio, overlap, Zero, g), Window(score, ratio, overlap, NegInf, g), at)
         == Entry(x, ratio, overlap, Padding(ratio), at)
  {
  }

  lemma Cutoff(n: nat, ratio: nat)
    requires ratio > 0
    ensures n >= ratio <==> n - Rem(n, ratio) >= ratio
    ensures n >= ratio <==> Quot(n, ratio) > 0
    ensures n - Rem(n, ratio) == Quot(n, ratio) * ratio && Quot(n - Rem(n, ratio), ratio) == Quot(n, ratio)
  {
    assert n >= ratio ==> Rem(n, ratio) == Rem(n - ratio, ratio);
    QuotIs(n, ratio);
    QuotRemOf(Quot(n, ratio), 0, ratio);
  }

  // ----- The state buffers as values -----

  /** `base` is where the compressed part of the layer's cache starts. */
  datatype Config = Config(ratio: nat, overlap: bool, base: nat) {
    /** Where the current window starts in the state buffers. */
    function Offset(): nat {
      if overlap then ratio else 0
    }
  }

  datatype Buffers<+T> = Buffers(kv: seq<Kv<T>>, score: seq<Score<T>>, cache: seq<Slot<T>>) {
    ghost predicate Fits(c: Config) {
      c.ratio > 0 && c.base <= |cache| && |kv| == |score| == c.Offset() + c.ratio
    }

    function LeadRows(c: Config): Lead<T>
      requires |kv| >= c.ratio && |score| >= c.ratio
    {
      Lead(kv[..c.ratio], score[..c.ratio])
    }

    /** Slice assignment into both state buffers. */
    function Set(at: nat, kvRows: seq<Kv<T>>, scoreRows: seq<Score<T>>): Buffers<T>
      requires at + |kvRows| <= |kv| && at + |scoreRows| <= |score|
    {
      Buffers(Splice(kv, at, kvRows), Splice(score, at, scoreRows), cache)
    }
  }

  /** `s[at : at + |rows|] = rows`. */
  function Splice<V>(s: seq<V>, at: nat, rows: seq<V>): (r: seq<V>)
    requires at + |rows| <= |s|
    ensures |r| == |s| && r[at..at + |rows|] == rows && r[..at] == s[..at]
    ensures forall i :: at + |rows| <= i < |s| ==> r[i] == s[i]
  {
    s[..at] + rows + s[at + |rows|..]
  }

  /** `forward` with `start_pos == 0`: the state buffers. */
  function StorePrompt<T>(b: Buffers<T>, c: Config, x: seq<T>, cutoff: nat): Buffers<T>
    requires b.Fits(c) && cutoff <= |x| < cutoff + c.ratio
  {
    var b1 := if c.overlap && cutoff >= c.ratio
              then b.Set(0, KvRows(x, cutoff - c.ratio, c.ratio), ScoreRows(x, cutoff - c.ratio, c.ratio)) else b;
    if |x| > cutoff
    then b1.Set(c.Offset(), KvRows(x, cutoff, |x| - cutoff), ScoreRows(x, cutoff, |x| - cutoff)) else b1
  }

  /** The pool of a full window, and the shift that follows it with overlap. */
  function PoolWindow<T>(b: Buffers<T>, c: Config, ropePos: nat): Slot<T>
    requires b.Fits(c)
  {
    if c.overlap
    then Pooled(Tag(b.kv[..c.ratio], Low) + Tag(b.kv[c.ratio..], High),
                Tag(b.score[..c.ratio], Low) + Tag(b.score[c.ratio..], High), ropePos)
    else Pooled(Tag(b.kv, Whole), Tag(b.score, Whole), ropePos)
  }

  /** `forward` with one token at position `p`, which is row `row` of group `g`. */
  function DecodeRow<T>(b: Buffers<T>, c: Config, t: T, p: nat, row: nat, g: nat): Buffers<T>
    requires b.Fits(c) && row < c.ratio && row <= p && (row + 1 == c.ratio ==> c.base + g < |b.cache|)
  {
    var b1 := b.Set(c.Offset() + row, [Proj(t)], [Gate(t, row)]);
    if row + 1 < c.ratio then b1 else CloseGroup(b1, c, p + 1 - c.ratio, g)
  }

  function CloseGroup<T>(b: Buffers<T>, c: Config, ropePos: nat, g: nat): Buffers<T>
    requires b.Fits(c) && c.base + g < |b.cache|
  {
    var b1 := if c.overlap then b.Set(0, b.kv[c.ratio..], b.score[c.ratio..]) else b;
    b1.(cache := b1.cache[c.base + g := PoolWindow(b, c, ropePos)])
  }

  // ----- What the buffers hold after a history -----

  /** The buffers hold history `h`: the entries of its groups up to `cutoff`, the rows after
      that, and with overlap the rows of the group before. */
  ghost predicate Holds<T>(b: Buffers<T>, c: Config, h: seq<T>, cutoff: nat, lead: Lead<T>)
    requires b.Fits(c) && cutoff <= |h| <= cutoff + c.ratio
  {
    HoldsEntries(b, c, h, cutoff, lead) && HoldsRows(b.kv, b.score, c, h, cutoff, lead)
  }

  ghost predicate HoldsEntries<T>(b: Buffers<T>, c: Config, h: seq<T>, cutoff: nat, lead: Lead<T>)
    requires b.Fits(c) && cutoff <= |h|
  {
    var entries := Entries(h, c.ratio, c.overlap, lead, cutoff);
    c.base + |entries| <= |b.cache| && b.cache[c.base..c.base + |entries|] == entries
  }

  ghost predicate HoldsRows<T>(kv: seq<Kv<T>>, score: seq<Score<T>>, c: Config, h: seq<T>, cutoff: nat, lead: Lead<T>)
    requires |kv| == |score| == c.Offset() + c.ratio && cutoff <= |h| <= cutoff + c.ratio
  {
    var n := |h| - cutoff;
    && kv[c.Offset()..c.Offset() + n] == KvRows(h, cutoff, n)
    && score[c.Offset()..c.Offset() + n] == ScoreRows(h, cutoff, n)
    && (c.overlap ==> Lead(kv[..c.ratio], score[..c.ratio]) == Before(h, c.ratio, lead, cutoff))
  }

  /** Whatever the buffers held, a prompt of a full group or more sets them up as a fresh
      run would; a shorter prompt keeps the rows that stood before. */
  lemma StorePromptHolds<T>(b: Buffers<T>, c: Config, x: seq<T>, cutoff: nat, lead: Lead<T>)
    requires b.Fits(c) && cutoff <= |x| < cutoff + c.ratio
    requires cutoff < c.ratio ==> lead == b.LeadRows(c)
    ensures StorePrompt(b, c, x, cutoff).Fits(c)
    ensures var b1 := StorePrompt(b, c, x, cutoff); HoldsRows(b1.kv, b1.score, c, x, cutoff, lead)
    ensures StorePrompt(b, c, x, cutoff).cache == b.cache
  {
    hide KvRows, ScoreRows;
    var b1 := if c.overlap && cutoff >= c.ratio
              then b.Set(0, KvRows(x, cutoff - c.ratio, c.ratio), ScoreRows(x, cutoff - c.ratio, c.ratio)) else b;
    var b2 := StorePrompt(b, c, x, cutoff);
    if c.overlap {
      assert b1.LeadRows(c) == Before(x, c.ratio, lead, cutoff);
      assert b2.kv[..c.ratio] == b1.kv[..c.ratio] && b2.score[..c.ratio] == b1.score[..c.ratio];
    }
  }

  /** A token inside a group adds its row. */
  lemma RowIsStored<T>(b: Buffers<T>, c: Config, t: T, row: nat, h: seq<T>, lead: Lead<T>)
    requires b.Fits(c) && row < c.ratio && row <= |h| && HoldsRows(b.kv, b.score, c, h, |h| - row, lead)
    ensures var b1 := b.Set(c.Offset() + row, [Proj(t)], [Gate(t, row)]);
      HoldsRows(b1.kv, b1.score, c, h + [t], |h| - row, lead)
  {
    hide Splice, KvRows, ScoreRows, Before;
    SpliceOne(b.kv, c.Offset(), row, Proj(t));
    SpliceOne(b.score, c.Offset(), row, Gate(t, row));
    RowsGrow(h, t, |h| - row);
    BeforeIsFinal(h, t, c.ratio, lead, |h| - row);
  }

  lemma SpliceOne<V>(s: seq<V>, at: nat, row: nat, v: V)
    requires at + row < |s|
    ensures Splice(s, at + row, [v])[at..at + row + 1] == s[at..at + row] + [v]
    ensures Splice(s, at + row, [v])[..at] == s[..at]
  {
  }

  /** The last token of a group turns the full window into that group's entry. */
  lemma WindowPools<T>(b: Buffers<T>, c: Config, h: seq<T>, lead: Lead<T>)
    requires b.Fits(c) && |h| >= c.ratio && HoldsRows(b.kv, b.score, c, h, |h| - c.ratio, lead)
    ensures PoolWindow(b, c, |h| - c.ratio) == Entry(h, c.ratio, c.overlap, lead, |h| - c.ratio)
  {
    assert b.kv[c.Offset()..] == b.kv[c.Offset()..c.Offset() + c.ratio];
    assert b.score[c.Offset()..] == b.score[c.Offset()..c.Offset() + c.ratio];
    assert !c.overlap ==> b.kv[0..] == b.kv && b.score[0..] == b.score;
  }

  /** The window that is left is empty; with overlap, the full one stands before it. */
  lemma WindowShifts<T>(b: Buffers<T>, c: Config, h: seq<T>, lead: Lead<T>)
    requires b.Fits(c) && |h| >= c.ratio && HoldsRows(b.kv, b.score, c, h, |h| - c.ratio, lead)
    ensures var b1 := if c.overlap then b.Set(0, b.kv[c.ratio..], b.score[c.ratio..]) else b;
      HoldsRows(b1.kv, b1.score, c, h, |h|, lead)
  {
    assert c.overlap ==>
      b.kv[c.ratio..] == b.kv[c.ratio..2 * c.ratio] && b.score[c.ratio..] == b.score[c.ratio..2 * c.ratio];
  }

  /** One decode step carries the buffers from `h` to `h + [t]`. */
  lemma DecodeRowHolds<T>(b: Buffers<T>, c: Config, t: T, row: nat, g: nat, h: seq<T>, lead: Lead<T>)
    requires b.Fits(c) && row < c.ratio && row <= |h| && (row + 1 == c.ratio ==> c.base + g < |b.cache|)
    requires Holds(b, c, h, |h| - row, lead)
    requires |Entries(h, c.ratio, c.overlap, lead, |h| - row)| == g
    ensures Holds(DecodeRow(b, c, t, |h|, row, g), c, h + [t],
                  if row + 1 == c.ratio then |h| + 1 else |h| - row, lead)
  {
    hide HoldsRows, PoolWindow, Entries;
    var h1 := h + [t];
    var b1 := b.Set(c.Offset() + row, [Proj(t)], [Gate(t, row)]);
    EntriesAreFinal(h, t, c.ratio, c.overlap, lead, |h| - row);
    RowIsStored(b, c, t, row, h, lead);
    assert HoldsEntries(b1, c, h1, |h| - row, lead);
    if row + 1 == c.ratio { GroupCloses(b1, c, h1, g, lead); }
  }

  lemma GroupCloses<T>(b: Buffers<T>, c: Config, h: seq<T>, g: nat, lead: Lead<T>)
    requires b.Fits(c) && |h| >= c.ratio && c.base + g < |b.cache|
    requires Holds(b, c, h, |h| - c.ratio, lead)
    requires |Entries(h, c.ratio, c.overlap, lead, |h| - c.ratio)| == g
    ensures Holds(CloseGroup(b, c, |h| - c.ratio, g), c, h, |h|, lead)
  {
    hide HoldsRows, PoolWindow;
    WindowPools(b, c, h, lead);
    WindowShifts(b, c, h, lead);
  }

  // ----- Whole calls and whole runs -----

  /** The cache has room for the groups of `n` tokens. */
  ghost predicate Room<T>(b: Buffers<T>, c: Config, n: nat) {
    b.Fits(c) && c.base + Quot(n, c.ratio) <= |b.cache|
  }

  /** `forward` with `start_pos == 0`. */
  function Prefilled<T>(b: Buffers<T>, c: Config, x: seq<T>): (r: Buffers<T>)
    requires Room(b, c, |x|)
    ensures r.Fits(c) && |r.cache| == |b.cache|
  {
    var cutoff := |x| - Rem(|x|, c.ratio);
    var b1 := StorePrompt(b, c, x, cutoff);
    Cutoff(|x|, c.ratio);
    PoolPromptIsEntries(x, cutoff, c.ratio, c.overlap);
    if |x| < c.ratio then b1
    else b1.(cache := Splice(b1.cache, c.base, PoolPrompt(x, cutoff, c.ratio, c.overlap)))
  }

  /** `forward` with one token at `start_pos == p > 0`. */
  function Decoded<T>(b: Buffers<T>, c: Config, t: T, p: nat): (r: Buffers<T>)
    requires Room(b, c, p + 1)
    ensures r.Fits(c) && |r.cache| == |b.cache|
  {
    NextQuotRem(p, c.ratio);
    DecodeRow(b, c, t, p, Rem(p, c.ratio), Quot(p, c.ratio))
  }

  /** A prompt followed by the decoding of `tail`, one token at a time. */
  function Ran<T>(b: Buffers<T>, c: Config, prompt: seq<T>, tail: seq<T>): (r: Buffers<T>)
    requires Room(b, c, |prompt| + |tail|)
    ensures r.Fits(c) && |r.cache| == |b.cache|
    decreases |tail|
  {
    if tail == [] then Prefilled(b, c, prompt)
    else
      var n := |tail| - 1;
      RoomShrinks(b, c, |prompt| + n);
      Decoded(Ran(b, c, prompt, tail[..n]), c, tail[n], |prompt| + n)
  }

  lemma RoomShrinks<T>(b: Buffers<T>, c: Config, n: nat)
    requires Room(b, c, n + 1)
    ensures Room(b, c, n)
  {
    NextQuotRem(n, c.ratio);
  }

  /** The buffers are those of a run that has consumed `h`. */
  ghost predicate Tracks<T>(b: Buffers<T>, c: Config, h: seq<T>, lead: Lead<T>)
    requires b.Fits(c)
  {
    Holds(b, c, h, |h| - Rem(|h|, c.ratio), lead)
  }

  /** What stands before group 0 after a prompt of `n` tokens. */
  function LeadAfter<T>(b: Buffers<T>, c: Config, n: nat): Lead<T>
    requires |b.kv| >= c.ratio && |b.score| >= c.ratio
  {
    if n < c.ratio then b.LeadRows(c) else Padding(c.ratio)
  }

  lemma {:induction false} EntriesCount<T>(h: seq<T>, c: Config, n: nat, lead: Lead<T>)
    requires c.ratio > 0 && n <= |h|
    ensures |Entries(h, c.ratio, c.overlap, lead, n - Rem(n, c.ratio))| == Quot(n, c.ratio)
  {
    if n >= c.ratio { EntriesCount(h, c, n - c.ratio, lead); }
  }

  lemma PrefilledTracks<T>(b: Buffers<T>, c: Config, x: seq<T>)
    requires Room(b, c, |x|)
    ensures Tracks(Prefilled(b, c, x), c, x, LeadAfter(b, c, |x|))
  {
    hide HoldsRows, StorePrompt, PoolPrompt, Quot, Rem;
    var cutoff := |x| - Rem(|x|, c.ratio);
    Cutoff(|x|, c.ratio);
    StorePromptHolds(b, c, x, cutoff, LeadAfter(b, c, |x|));
    PoolPromptIsEntries(x, cutoff, c.ratio, c.overlap);
  }

  lemma DecodedTracks<T>(b: Buffers<T>, c: Config, t: T, h: seq<T>, lead: Lead<T>)
    requires Room(b, c, |h| + 1) && Tracks(b, c, h, lead)
    ensures Tracks(Decoded(b, c, t, |h|), c, h + [t], lead)
  {
    hide HoldsRows, HoldsEntries, Entries, DecodeRow, Quot, Rem;
    NextQuotRem(|h|, c.ratio);
    EntriesCount(h, c, |h|, lead);
    DecodeRowHolds(b, c, t, Rem(|h|, c.ratio), Quot(|h|, c.ratio), h, lead);
  }

  /** After any prompt and any decodes the buffers hold the whole history. */
  lemma {:induction false} RanTracks<T>(b: Buffers<T>, c: Config, prompt: seq<T>, tail: seq<T>)
    requires Room(b, c, |prompt| + |tail|)
    ensures Tracks(Ran(b, c, prompt, tail), c, prompt + tail, LeadAfter(b, c, |prompt|))
    decreases |tail|
  {
    hide Tracks, HoldsRows, HoldsEntries, Decoded, Prefilled, LeadAfter;
    if tail == [] {
      PrefilledTracks(b, c, prompt);
      assert prompt + tail == prompt;
    } else {
      var n := |tail| - 1;
      RoomShrinks(b, c, |prompt| + n);
      RanTracks(b, c, prompt, tail[..n]);
      DecodedTracks(Ran(b, c, prompt, tail[..n]), c, tail[n], prompt + tail[..n], LeadAfter(b, c, |prompt|));
      assert prompt + tail[..n] + [tail[n]] == prompt + tail;
    }
  }

  lemma TracksEntries<T>(b: Buffers<T>, c: Config, h: seq<T>, lead: Lead<T>)
    requires b.Fits(c) && Tracks(b, c, h, lead)
    ensures c.base + Quot(|h|, c.ratio) <= |b.cache|
    ensures b.cache[c.base..c.base + Quot(|h|, c.ratio)]
         == Entries(h, c.ratio, c.overlap, lead, |h| - Rem(|h|, c.ratio))
  {
    hide HoldsRows, Quot, Rem, Entries;
    EntriesCount(h, c, |h|, lead);
  }

  /** The completed part of the cache. */
  function Completed<T>(b: Buffers<T>, c: Config, n: nat): seq<Slot<T>>
    requires Room(b, c, n)
  {
    b.cache[c.base..c.base + Quot(n, c.ratio)]
  }

  /** Incremental compression is batch compression: after a prompt and any decodes, the
      entries are those that one prefill of the whole history writes into any buffers.  It
      fails exactly when windows overlap, group 0 is completed by decoding, and the buffers
      still held rows of an earlier sequence. */
  lemma IncrementalIsBatch<T>(b: Buffers<T>, b': Buffers<T>, c: Config, prompt: seq<T>, tail: seq<T>)
    requires Room(b, c, |prompt| + |tail|) && Room(b', c, |prompt + tail|)
    ensures (Completed(Ran(b, c, prompt, tail), c, |prompt| + |tail|)
               == Completed(Prefilled(b', c, prompt + tail), c, |prompt| + |tail|))
        <==> (c.overlap && |prompt| < c.ratio <= |prompt| + |tail| ==> b.LeadRows(c) == Padding(c.ratio))
  {
    hide Tracks, Ran, Prefilled, Quot, Rem, Entries;
    var h := prompt + tail;
    var lead, lead' := LeadAfter(b, c, |prompt|), LeadAfter(b', c, |h|);
    RanTracks(b, c, prompt, tail);
    PrefilledTracks(b', c, h);
    TracksEntries(Ran(b, c, prompt, tail), c, h, lead);
    TracksEntries(Prefilled(b', c, h), c, h, lead');
    RepeatAt<Kv<T>>(c.ratio, Zero);
    RepeatAt<Score<T>>(c.ratio, NegInf);
    LeadDecides(h, c, lead, lead');
  }

  /** Groups after the first do not show what stood before the first. */
  lemma LaterEntry<T>(h: seq<T>, ratio: nat, overlap: bool, a: Lead<T>, b: Lead<T>, g: nat)
    requires g > 0 && g * ratio + ratio <= |h|
    ensures Entry(h, ratio, overlap, a, g * ratio) == Entry(h, ratio, overlap, b, g * ratio)
  {
    MulMono(1, g, ratio);
    hide KvRows, ScoreRows, Tag;
  }

  lemma LeadHidden<T>(h: seq<T>, ratio: nat, a: Lead<T>, b: Lead<T>)
    requires ratio <= |h|
    ensures Entry(h, ratio, false, a, 0) == Entry(h, ratio, false, b, 0)
  {
  }

  /** What two leads change in the entries: nothing after group 0, and group 0 with overlap. */
  lemma LeadsCompared<T>(h: seq<T>, ratio: nat, overlap: bool, a: Lead<T>, b: Lead<T>, m: nat)
    requires ratio > 0 && |a.kv| == |a.score| == |b.kv| == |b.score| == ratio && m * ratio <= |h|
    ensures var x, y := Entries(h, ratio, overlap, a, m * ratio), Entries(h, ratio, overlap, b, m * ratio);
      && |x| == |y| == m && (forall g :: 0 < g < m ==> x[g] == y[g])
      && (m > 0 ==> (x[0] == y[0] <==> (overlap ==> a == b)))
  {
    EntriesAre(h, ratio, overlap, a, m);
    EntriesAre(h, ratio, overlap, b, m);
    if m > 0 {
      assert 0 * ratio + ratio <= |h|;
      if overlap { LeadShows(h, ratio, a, b); } else { LeadHidden(h, ratio, a, b); }
    }
    hide Entries, Entry;
    var x, y := Entries(h, ratio, overlap, a, m * ratio), Entries(h, ratio, overlap, b, m * ratio);
    forall g | 0 < g < m ensures x[g] == y[g] { LaterEntry(h, ratio, overlap, a, b, g); }
    assert m > 0 ==> x[0] == Entry(h, ratio, overlap, a, 0) && y[0] == Entry(h, ratio, overlap, b, 0);
  }

  /** Two leads give the same entries unless group 0 is complete and shows the difference. */
  lemma LeadDecides<T>(h: seq<T>, c: Config, a: Lead<T>, b: Lead<T>)
    requires c.ratio > 0 && |a.kv| == |a.score| == |b.kv| == |b.score| == c.ratio
    ensures (Entries(h, c.ratio, c.overlap, a, |h| - Rem(|h|, c.ratio))
               == Entries(h, c.ratio, c.overlap, b, |h| - Rem(|h|, c.ratio)))
        <==> (c.overlap && |h| >= c.ratio ==> a == b)
  {
    hide Entries;
    Cutoff(|h|, c.ratio);
    hide Quot, Rem;
    LeadsCompared(h, c.ratio, c.overlap, a, b, Quot(|h|, c.ratio));
  }

  // ----- A second sequence on used buffers -----

  /** Once a group is complete, its rows, which are not padding, stand before the next. */
  lemma UsedLead<T>(b: Buffers<T>, c: Config, h: seq<T>, lead: Lead<T>)
    requires b.Fits(c) && Tracks(b, c, h, lead) && c.overlap && |lead.kv| == |lead.score| == c.ratio
    ensures |h| < c.ratio ==> b.LeadRows(c) == lead
    ensures |h| >= c.ratio ==> b.LeadRows(c) != Padding(c.ratio)
  {
    Cutoff(|h|, c.ratio);
    hide HoldsEntries, Rem, Quot, ScoreRows;
    RepeatAt<Kv<T>>(c.ratio, Zero);
    var cutoff := |h| - Rem(|h|, c.ratio);
    if |h| >= c.ratio {
      assert b.kv[..c.ratio][0] == KvRows(h, cutoff - c.ratio, c.ratio)[0] == Proj(h[cutoff - c.ratio]);
    }
  }

  /** A run leaves padding before group 0 exactly when it found it there and completed no group. */
  lemma RanLead<T>(b: Buffers<T>, c: Config, prompt: seq<T>, tail: seq<T>)
    requires Room(b, c, |prompt| + |tail|) && c.overlap
    ensures Ran(b, c, prompt, tail).LeadRows(c) == Padding(c.ratio)
       <==> |prompt| + |tail| < c.ratio && b.LeadRows(c) == Padding(c.ratio)
  {
    RanTracks(b, c, prompt, tail);
    RepeatAt<Kv<T>>(c.ratio, Zero);
    RepeatAt<Score<T>>(c.ratio, NegInf);
    hide Tracks, Ran, Quot;
    UsedLead(Ran(b, c, prompt, tail), c, prompt + tail, LeadAfter(b, c, |prompt|));
  }

  /** A second sequence, on the buffers that a first has left, is compressed as if alone, except
      when windows overlap, the first completed a group, and the second completes its group 0
      by decoding: then that group shows the first sequence's rows. */
  lemma SecondSequence<T>(b: Buffers<T>, b': Buffers<T>, c: Config, prompt: seq<T>, tail: seq<T>,
                          prompt2: seq<T>, tail2: seq<T>)
    requires Room(b, c, |prompt| + |tail|) && Room(b, c, |prompt2| + |tail2|) && Room(b', c, |prompt2 + tail2|)
    requires b.LeadRows(c) == Padding(c.ratio)
    ensures var used := Ran(b, c, prompt, tail);
      (Completed(Ran(used, c, prompt2, tail2), c, |prompt2| + |tail2|)
         == Completed(Prefilled(b', c, prompt2 + tail2), c, |prompt2| + |tail2|))
        <==> !(c.overlap && c.ratio <= |prompt| + |tail| && |prompt2| < c.ratio <= |prompt2| + |tail2|)
  {
    hide Ran, Prefilled, Completed, Quot;
    if c.overlap { RanLead(b, c, prompt, tail); }
    IncrementalIsBatch(Ran(b, c, prompt, tail), b', c, prompt2, tail2);
  }

  // ----- The module object, whose buffers are updated in place -----

  method SetRows<V>(a: array<V>, at: nat, rows: seq<V>)
    requires at + |rows| <= a.Length
    modifies a
    ensures a[..] == Splice(old(a[..]), at, rows)
  {
    forall i | 0 <= i < |rows| { a[at + i] := rows[i]; }
  }

  class Compressor<T> {
    const ratio: nat
    const overlap: bool
    const base: nat
    const kvState: array<Kv<T>>
    const scoreState: array<Score<T>>
    /** The layer's whole cache; `self.kv_cache` is its part from `base` on. */
    const cache: array<Slot<T>>

    constructor (ratio: nat, cache: array<Slot<T>>, base: nat)
      requires ratio > 0 && base <= cache.Length
      ensures Valid() && this.cache == cache
      ensures Conf() == Config(ratio, ratio == 4, base)
      ensures State().LeadRows(Conf()) == Padding(ratio) && State().cache == cache[..]
      ensures fresh(this) && fresh(kvState) && fresh(scoreState)
    {
      var n := if ratio == 4 then 2 * ratio else ratio;
      this.ratio, this.overlap, this.cache, this.base := ratio, ratio == 4, cache, base;
      this.kvState := new Kv<T>[n](_ => Zero);
      this.scoreState := new Score<T>[n](_ => NegInf);
      new;
      RepeatAt<Kv<T>>(ratio, Zero);
      RepeatAt<Score<T>>(ratio, NegInf);
    }

    ghost predicate Valid()
      reads kvState, scoreState, cache
    {
      && State().Fits(Conf())
      && kvState as object != scoreState as object
      && kvState as object != cache as object
      && scoreState as object != cache as object
    }

    function Conf(): Config {
      Config(ratio, overlap, base)
    }

    ghost function State(): Buffers<T>
      reads kvState, scoreState, cache
    {
      Buffers(kvState[..], scoreState[..], cache[..])
    }

    /** `forward` with `start_pos == 0`; returns the new entries, if any. */
    method Prefill(x: seq<T>) returns (out: Option<seq<Slot<T>>>)
      requires Valid() && Room(State(), Conf(), |x|)
      modifies kvState, scoreState, cache
      ensures Valid() && State() == Prefilled(old(State()), Conf(), x)
      ensures out == if |x| < ratio then None
                     else Some(Entries(x, ratio, overlap, Padding(ratio), |x| - Rem(|x|, ratio)))
    {
      hide KvRows, ScoreRows, PoolPrompt, Entries, Quot, Rem, Splice;
      var shouldCompress := |x| >= ratio;
      var remainder := Rem(|x|, ratio);
      var cutoff := |x| - remainder;
      Cutoff(|x|, ratio);
      PoolPromptIsEntries(x, cutoff, ratio, overlap);
      if overlap && cutoff >= ratio {
        SetRows(kvState, 0, KvRows(x, cutoff - ratio, ratio));
        SetRows(scoreState, 0, ScoreRows(x, cutoff - ratio, ratio));
      }
      if remainder > 0 {
        SetRows(kvState, if overlap then ratio else 0, KvRows(x, cutoff, remainder));
        SetRows(scoreState, if overlap then ratio else 0, ScoreRows(x, cutoff, remainder));
      }
      if !shouldCompress { return None; }
      var pooled := PoolPrompt(x, cutoff, ratio, overlap);
      SetRows(cache, base, pooled);
      return Some(pooled);
    }

    /** `forward` with one token at `start_pos == p > 0`. */
    method Decode(t: T, p: nat)
      requires Valid() && p > 0 && Room(State(), Conf(), p + 1)
      modifies kvState, scoreState, cache
      ensures Valid() && State() == Decoded(old(State()), Conf(), t, p)
    {
      hide Tag, Quot, Rem, Splice, CloseGroup;
      NextQuotRem(p, ratio);
      var shouldCompress := Rem(p + 1, ratio) == 0;
      var row := Rem(p, ratio);
      SetRows(kvState, (if overlap then ratio else 0) + row, [Proj(t)]);
      SetRows(scoreState, (if overlap then ratio else 0) + row, [Gate(t, row)]);
      if shouldCompress { Close(p + 1 - ratio, Quot(p, ratio)); }
    }

    /** The `should_compress` part of the decode branch. */
    method Close(ropePos: nat, g: nat)
      requires Valid() && base + g < cache.Length
      modifies kvState, scoreState, cache
      ensures Valid() && State() == CloseGroup(old(State()), Conf(), ropePos, g)
    {
      hide Tag, Splice;
      var kvs, scores;
      if overlap {
        kvs := Tag(kvState[..ratio], Low) + Tag(kvState[ratio..], High);
        scores := Tag(scoreState[..ratio], Low) + Tag(scoreState[ratio..], High);
        SetRows(kvState, 0, kvState[ratio..]);
        SetRows(scoreState, 0, scoreState[ratio..]);
      } else {
        kvs := Tag(kvState[..], Whole);
        scores := Tag(scoreState[..], Whole);
      }
      cache[base + g] := Pooled(kvs, scores, ropePos);
    }
  }
}
