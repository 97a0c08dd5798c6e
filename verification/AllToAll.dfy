/** Dispatch and combine of Triton-distributed/tutorials/04-deepseek-infer-all2all.py (without
    quantisation): every rank sends its expert-sorted rows to the ranks that own the experts,
    these compute on the rows, and send them back to where they came from. */
module AllToAll {
  import opened DivMod

  // ----- `splits_to_cumsum` -----

  function Cumsum(splits: seq<nat>): (c: seq<nat>)
    ensures |c| == |splits| + 1
  {
    if splits == [] then [0]
    else
      var n := |splits| - 1;
      var c := Cumsum(splits[..n]);
      c + [c[n] + splits[n]]
  }

  /** The sums start at 0 and go up by each split. */
  lemma {:induction false} CumsumStep(splits: seq<nat>, k: nat)
    requires k < |splits|
    ensures Cumsum(splits)[0] == 0 && Cumsum(splits)[k + 1] == Cumsum(splits)[k] + splits[k]
  {
    var n := |splits| - 1;
    if k < n {
      CumsumStep(splits[..n], k);
    } else if n > 0 {
      CumsumStep(splits[..n], 0);
    }
  }

  lemma {:induction false} CumsumMono(splits: seq<nat>, j: nat, k: nat)
    requires j <= k <= |splits|
    ensures Cumsum(splits)[j] <= Cumsum(splits)[k]
    decreases k - j
  {
    if j < k {
      CumsumStep(splits, j);
      CumsumMono(splits, j + 1, k);
    }
  }

  function Sum(s: seq<nat>): nat {
    if s == [] then 0 else Sum(s[..|s| - 1]) + s[|s| - 1]
  }

  /** A stretch of splits adds up to the difference of its bounds. */
  lemma {:induction false} CumsumDifference(splits: seq<nat>, j: nat, k: nat)
    requires j <= k <= |splits|
    ensures Cumsum(splits)[k] == Cumsum(splits)[j] + Sum(splits[j..k])
    decreases k - j
  {
    if j < k {
      CumsumDifference(splits, j, k - 1);
      CumsumStep(splits, k - 1);
      assert splits[j..k][..k - 1 - j] == splits[j..k - 1];
    }
  }

  lemma {:induction false} CumsumConcat(a: seq<nat>, b: seq<nat>)
    ensures Cumsum(a + b)[..|a| + 1] == Cumsum(a)
    ensures Cumsum(a + b)[|a| + |b|] == Cumsum(a)[|a|] + Sum(b)
    decreases |b|
  {
    if b == [] {
      assert a + b == a;
    } else {
      var n := |b| - 1;
      assert (a + b)[..|a| + n] == a + b[..n];
      CumsumConcat(a, b[..n]);
    }
  }

  // ----- Buffers -----

  /** `experts` experts per rank; at most `maxM` rows leave a rank.  `tokens[r]` are rank r's
      rows sorted by expert and `splits[r]` says how many there are per expert. */
  datatype Config<T> = Config(world: nat, experts: nat, maxM: nat, tokens: seq<seq<T>>, splits: seq<seq<nat>>)

  /** The symmetric buffers of every rank. */
  datatype Buffers<T> = Buffers(send: seq<seq<T>>, recv: seq<seq<T>>,
                                splitSend: seq<seq<nat>>, splitRecv: seq<seq<nat>>)

  ghost predicate Valid<T>(cfg: Config<T>) {
    && |cfg.tokens| == |cfg.splits| == cfg.world
    && forall r :: 0 <= r < cfg.world ==>
         && |cfg.splits[r]| == cfg.world * cfg.experts
         && Cumsum(cfg.splits[r])[cfg.world * cfg.experts] == |cfg.tokens[r]| <= cfg.maxM
  }

  ghost predicate Shape<T>(cfg: Config<T>, b: Buffers<T>) {
    && |b.send| == |b.recv| == |b.splitSend| == |b.splitRecv| == cfg.world
    && forall r :: 0 <= r < cfg.world ==>
         && |b.send[r]| == cfg.maxM && |b.recv[r]| == 2 * (cfg.world * cfg.maxM)
         && |b.splitSend[r]| == cfg.world * (cfg.experts + 1) && |b.splitRecv[r]| == 2 * (cfg.world * (cfg.experts + 1))
  }

  lemma {:induction false} SumStep(s: seq<nat>, x: nat)
    ensures Sum([]) == 0 && Sum(s + [x]) == Sum(s) + x
  {
    assert (s + [x])[..|s|] == s;
  }

  /** A copy of `data` to `s` at `off`. */
  function Write<T>(s: seq<T>, off: nat, data: seq<T>): (r: seq<T>)
    requires off + |data| <= |s|
    ensures |r| == |s|
  {
    s[..off] + data + s[off + |data|..]
  }

  lemma WriteRead<T>(s: seq<T>, off: nat, data: seq<T>)
    requires off + |data| <= |s|
    ensures Write(s, off, data)[off..off + |data|] == data
  {
  }

  lemma WriteAside<T>(s: seq<T>, off: nat, data: seq<T>, from: nat, to: nat)
    requires off + |data| <= |s| && from <= to <= |s| && (to <= off || off + |data| <= from)
    ensures Write(s, off, data)[from..to] == s[from..to]
  {
  }

  // ----- Layout -----

  /** Rows of rank r for the experts of rank p: `m_st` and `m_ed`. */
  function Start<T>(cfg: Config<T>, r: nat, p: nat): nat
    requires Valid(cfg) && r < cfg.world && p <= cfg.world
  {
    MulMono(p, cfg.world, cfg.experts);
    Cumsum(cfg.splits[r])[p * cfg.experts]
  }

  lemma StartMono<T>(cfg: Config<T>, r: nat, p: nat, q: nat)
    requires Valid(cfg) && r < cfg.world && p <= q <= cfg.world
    ensures Start(cfg, r, p) <= Start(cfg, r, q) <= |cfg.tokens[r]| <= cfg.maxM
  {
    MulMono(p, q, cfg.experts);
    MulMono(q, cfg.world, cfg.experts);
    CumsumMono(cfg.splits[r], p * cfg.experts, q * cfg.experts);
    CumsumMono(cfg.splits[r], q * cfg.experts, cfg.world * cfg.experts);
  }

  /** The rows from rank r to rank p. */
  function Part<T>(cfg: Config<T>, r: nat, p: nat): (rows: seq<T>)
    requires Valid(cfg) && r < cfg.world && p < cfg.world
    ensures |rows| <= cfg.maxM
  {
    StartMono(cfg, r, p, p + 1);
    cfg.tokens[r][Start(cfg, r, p)..Start(cfg, r, p + 1)]
  }

  /** Source r's region in half `act` of a receive buffer. */
  function Region<T>(cfg: Config<T>, act: nat, r: nat): nat {
    act * (cfg.world * cfg.maxM) + r * cfg.maxM
  }

  /** Source r's record in half `act` of a received split buffer. */
  function Record<T>(cfg: Config<T>, act: nat, r: nat): nat {
    act * (cfg.world * (cfg.experts + 1)) + r * (cfg.experts + 1)
  }

  /** Regions and records lie in their buffers and do not overlap. */
  lemma Layout<T>(cfg: Config<T>, act: nat, r: nat)
    requires act < 2 && r < cfg.world
    ensures Region(cfg, act, r) + cfg.maxM <= 2 * (cfg.world * cfg.maxM)
    ensures Record(cfg, act, r) + cfg.experts + 1 <= 2 * (cfg.world * (cfg.experts + 1))
    ensures r * (cfg.experts + 1) + cfg.experts + 1 <= cfg.world * (cfg.experts + 1)
    ensures (r + 1) * cfg.experts == r * cfg.experts + cfg.experts <= cfg.world * cfg.experts
  {
    MulStep(r, cfg.world, cfg.maxM);
    MulStep(r, cfg.world, cfg.experts + 1);
    MulMono(r + 1, cfg.world, cfg.experts);
    assert (r + 1) * cfg.experts == r * cfg.experts + cfg.experts;
  }

  lemma Apart<T>(cfg: Config<T>, act: nat, r: nat, q: nat)
    ensures r < q ==> Region(cfg, act, r) + cfg.maxM <= Region(cfg, act, q)
    ensures r < q ==> Record(cfg, act, r) + cfg.experts + 1 <= Record(cfg, act, q)
  {
    MulStep(r, q, cfg.maxM);
    MulStep(r, q, cfg.experts + 1);
  }

  // ----- One dispatch program -----

  /** Splits got back from their cumulative sums. */
  function Differences(splits: seq<nat>, from: nat, n: nat): (d: seq<nat>)
    requires from + n <= |splits|
    ensures |d| == n
  {
    if n == 0 then []
    else
      CumsumStep(splits, from + n - 1);
      Differences(splits, from, n - 1) + [Cumsum(splits)[from + n] - Cumsum(splits)[from + n - 1]]
  }

  lemma {:induction false} DifferencesAre(splits: seq<nat>, from: nat, n: nat)
    requires from + n <= |splits|
    ensures Differences(splits, from, n) == splits[from..from + n]
  {
    if n > 0 {
      DifferencesAre(splits, from, n - 1);
      CumsumStep(splits, from + n - 1);
      assert splits[from..from + n] == splits[from..from + n - 1] + [splits[from + n - 1]];
    }
  }

  /** The split record from rank r to rank p: rows per expert, and where the rows came from. */
  function SplitRecord<T>(cfg: Config<T>, r: nat, p: nat): (rec: seq<nat>)
    requires Valid(cfg) && r < cfg.world && p < cfg.world
    ensures |rec| == cfg.experts + 1
  {
    Layout(cfg, 0, p);
    Differences(cfg.splits[r], p * cfg.experts, cfg.experts) + [Start(cfg, r, p)]
  }

  /** The record counts the rows, and its extra word is where they came from. */
  lemma SplitRecordIs<T>(cfg: Config<T>, r: nat, p: nat)
    requires Valid(cfg) && r < cfg.world && p < cfg.world
    ensures var rec := SplitRecord(cfg, r, p);
      rec[cfg.experts] == Start(cfg, r, p) && Sum(rec[..cfg.experts]) == |Part(cfg, r, p)|
  {
    Layout(cfg, 0, p);
    StartMono(cfg, r, p, p + 1);
    var from := p * cfg.experts;
    DifferencesAre(cfg.splits[r], from, cfg.experts);
    assert SplitRecord(cfg, r, p)[..cfg.experts] == cfg.splits[r][from..from + cfg.experts];
    CumsumDifference(cfg.splits[r], from, from + cfg.experts);
    hide Cumsum, Sum, Differences;
  }

  /** Expert by expert, the record counts what goes to rank p. */
  lemma RecordCounts<T>(cfg: Config<T>, r: nat, p: nat, e: nat)
    requires Valid(cfg) && r < cfg.world && p < cfg.world && e < cfg.experts
    ensures p * cfg.experts + e < |cfg.splits[r]| && SplitRecord(cfg, r, p)[e] == cfg.splits[r][p * cfg.experts + e]
  {
    Layout(cfg, 0, p);
    DifferencesAre(cfg.splits[r], p * cfg.experts, cfg.experts);
    hide Differences, Cumsum;
  }

  /** The send buffer after the copy of the rows for rank p. */
  function SendRows<T>(cfg: Config<T>, send: seq<T>, r: nat, p: nat): (s: seq<T>)
    requires Valid(cfg) && r < cfg.world && p < cfg.world && |send| == cfg.maxM
    ensures |s| == |send| && Start(cfg, r, p) + |Part(cfg, r, p)| <= |s|
    ensures s[Start(cfg, r, p)..Start(cfg, r, p) + |Part(cfg, r, p)|] == Part(cfg, r, p)
  {
    StartMono(cfg, r, p, p + 1);
    WriteRead(send, Start(cfg, r, p), Part(cfg, r, p));
    Write(send, Start(cfg, r, p), Part(cfg, r, p))
  }

  function SplitAt<T>(cfg: Config<T>, p: nat): nat {
    p * cfg.experts + p
  }

  /** The split buffer after the record for rank p was stored. */
  function SendSplits<T>(cfg: Config<T>, splitSend: seq<nat>, r: nat, p: nat): (s: seq<nat>)
    requires Valid(cfg) && r < cfg.world && p < cfg.world && |splitSend| == cfg.world * (cfg.experts + 1)
    ensures |s| == |splitSend| && SplitAt(cfg, p) + cfg.experts + 1 <= |s|
    ensures s[SplitAt(cfg, p)..SplitAt(cfg, p) + cfg.experts + 1] == SplitRecord(cfg, r, p)
  {
    Layout(cfg, 0, p);
    assert SplitAt(cfg, p) == p * (cfg.experts + 1);
    WriteRead(splitSend, SplitAt(cfg, p), SplitRecord(cfg, r, p));
    Write(splitSend, SplitAt(cfg, p), SplitRecord(cfg, r, p))
  }

  /** A put of rows into source r's region, and of a split record into its record. */
  function PutRows<T>(cfg: Config<T>, act: nat, recv: seq<T>, r: nat, rows: seq<T>): (s: seq<T>)
    requires act < 2 && r < cfg.world && |rows| <= cfg.maxM && |recv| == 2 * (cfg.world * cfg.maxM)
    ensures |s| == |recv|
  {
    Layout(cfg, act, r);
    Write(recv, Region(cfg, act, r), rows)
  }

  function PutRecord<T>(cfg: Config<T>, act: nat, recv: seq<nat>, r: nat, rec: seq<nat>): (s: seq<nat>)
    requires act < 2 && r < cfg.world && |rec| == cfg.experts + 1 && |recv| == 2 * (cfg.world * (cfg.experts + 1))
    ensures |s| == |recv|
  {
    Layout(cfg, act, r);
    Write(recv, Record(cfg, act, r), rec)
  }

  /** What a receive buffer holds of source r. */
  function Rows<T>(cfg: Config<T>, act: nat, recv: seq<T>, r: nat, n: nat): (rows: seq<T>)
    requires act < 2 && r < cfg.world && n <= cfg.maxM && |recv| == 2 * (cfg.world * cfg.maxM)
    ensures |rows| == n
  {
    Layout(cfg, act, r);
    recv[Region(cfg, act, r)..Region(cfg, act, r) + n]
  }

  function RecordOf<T>(cfg: Config<T>, act: nat, recv: seq<nat>, r: nat): (rec: seq<nat>)
    requires act < 2 && r < cfg.world && |recv| == 2 * (cfg.world * (cfg.experts + 1))
    ensures |rec| == cfg.experts + 1
  {
    Layout(cfg, act, r);
    recv[Record(cfg, act, r)..Record(cfg, act, r) + cfg.experts + 1]
  }

  /** A put is read back from its region and from no other. */
  lemma PutRowsRead<T>(cfg: Config<T>, act: nat, recv: seq<T>, r: nat, rows: seq<T>, q: nat, n: nat)
    requires act < 2 && r < cfg.world && |rows| <= cfg.maxM && |recv| == 2 * (cfg.world * cfg.maxM)
    requires q < cfg.world && n <= cfg.maxM
    ensures Rows(cfg, act, PutRows(cfg, act, recv, r, rows), r, |rows|) == rows
    ensures q != r ==> Rows(cfg, act, PutRows(cfg, act, recv, r, rows), q, n) == Rows(cfg, act, recv, q, n)
  {
    Layout(cfg, act, r);
    Layout(cfg, act, q);
    Apart(cfg, act, r, q);
    Apart(cfg, act, q, r);
    hide Region, Record;
    WriteRead(recv, Region(cfg, act, r), rows);
    if q != r { WriteAside(recv, Region(cfg, act, r), rows, Region(cfg, act, q), Region(cfg, act, q) + n); }
    hide Write;
  }

  lemma PutRecordRead<T>(cfg: Config<T>, act: nat, recv: seq<nat>, r: nat, rec: seq<nat>, q: nat)
    requires act < 2 && r < cfg.world && |rec| == cfg.experts + 1 && |recv| == 2 * (cfg.world * (cfg.experts + 1))
    requires q < cfg.world
    ensures RecordOf(cfg, act, PutRecord(cfg, act, recv, r, rec), r) == rec
    ensures q != r ==> RecordOf(cfg, act, PutRecord(cfg, act, recv, r, rec), q) == RecordOf(cfg, act, recv, q)
  {
    Layout(cfg, act, r);
    Layout(cfg, act, q);
    Apart(cfg, act, r, q);
    Apart(cfg, act, q, r);
    hide Region, Record;
    WriteRead(recv, Record(cfg, act, r), rec);
    if q != r {
      WriteAside(recv, Record(cfg, act, r), rec, Record(cfg, act, q), Record(cfg, act, q) + cfg.experts + 1);
    }
    hide Write;
  }

  /** Rank p has what rank r sent it. */
  ghost predicate Received<T>(cfg: Config<T>, act: nat, b: Buffers<T>, r: nat, p: nat)
    requires Valid(cfg) && Shape(cfg, b) && act < 2 && r < cfg.world && p < cfg.world
  {
    && Rows(cfg, act, b.recv[p], r, |Part(cfg, r, p)|) == Part(cfg, r, p)
    && RecordOf(cfg, act, b.splitRecv[p], r) == SplitRecord(cfg, r, p)
  }

  // ----- After the dispatch -----

  ghost predicate AllReceived<T>(cfg: Config<T>, act: nat, b: Buffers<T>, p: nat)
    requires Valid(cfg) && Shape(cfg, b) && act < 2 && p < cfg.world
  {
    forall r :: 0 <= r < cfg.world ==> Received(cfg, act, b, r, p)
  }

  /** `num_tokens_from_each_rank`. */
  function Count<T>(cfg: Config<T>, act: nat, splitRecv: seq<nat>, r: nat): nat
    requires act < 2 && r < cfg.world && |splitRecv| == 2 * (cfg.world * (cfg.experts + 1))
  {
    Sum(RecordOf(cfg, act, splitRecv, r)[..cfg.experts])
  }

  /** `combine_send_splits`, from the first `w` sources. */
  function CombineSplits<T>(cfg: Config<T>, act: nat, splitRecv: seq<nat>, w: nat): seq<nat>
    requires act < 2 && w <= cfg.world && |splitRecv| == 2 * (cfg.world * (cfg.experts + 1))
  {
    if w == 0 then []
    else CombineSplits(cfg, act, splitRecv, w - 1) + RecordOf(cfg, act, splitRecv, w - 1)[..cfg.experts]
  }

  /** `dispatched_tokens`, from the first `w` sources. */
  function Dispatched<T>(cfg: Config<T>, act: nat, recv: seq<T>, splitRecv: seq<nat>, w: nat): seq<T>
    requires act < 2 && w <= cfg.world
    requires |recv| == 2 * (cfg.world * cfg.maxM) && |splitRecv| == 2 * (cfg.world * (cfg.experts + 1))
    requires forall r :: 0 <= r < w ==> Count(cfg, act, splitRecv, r) <= cfg.maxM
  {
    if w == 0 then []
    else Dispatched(cfg, act, recv, splitRecv, w - 1) + Rows(cfg, act, recv, w - 1, Count(cfg, act, splitRecv, w - 1))
  }

  lemma CountIs<T>(cfg: Config<T>, act: nat, b: Buffers<T>, p: nat, r: nat)
    requires Valid(cfg) && Shape(cfg, b) && act < 2 && p < cfg.world && r < cfg.world
    ensures Received(cfg, act, b, r, p) ==>
      && Count(cfg, act, b.splitRecv[p], r) == |Part(cfg, r, p)| <= cfg.maxM
      && Rows(cfg, act, b.recv[p], r, Count(cfg, act, b.splitRecv[p], r)) == Part(cfg, r, p)
      && RecordOf(cfg, act, b.splitRecv[p], r)[cfg.experts] == Start(cfg, r, p)
  {
    SplitRecordIs(cfg, r, p);
    hide Rows, RecordOf, Part, SplitRecord, Start;
  }

  lemma CountsFit<T>(cfg: Config<T>, act: nat, b: Buffers<T>, p: nat)
    requires Valid(cfg) && Shape(cfg, b) && act < 2 && p < cfg.world && AllReceived(cfg, act, b, p)
    ensures forall r :: 0 <= r < cfg.world ==> Count(cfg, act, b.splitRecv[p], r) <= cfg.maxM
  {
    forall r | 0 <= r < cfg.world ensures Count(cfg, act, b.splitRecv[p], r) <= cfg.maxM { CountIs(cfg, act, b, p, r); }
    hide Received, Count;
  }

  /** One more source adds its splits and its rows. */
  lemma NextSource<T>(cfg: Config<T>, act: nat, b: Buffers<T>, p: nat, w: nat)
    requires Valid(cfg) && Shape(cfg, b) && act < 2 && p < cfg.world && 0 < w <= cfg.world
    requires forall r :: 0 <= r < cfg.world ==> Count(cfg, act, b.splitRecv[p], r) <= cfg.maxM
    ensures var splits := CombineSplits(cfg, act, b.splitRecv[p], w - 1);
      var rec := RecordOf(cfg, act, b.splitRecv[p], w - 1)[..cfg.experts];
      && CombineSplits(cfg, act, b.splitRecv[p], w) == splits + rec
      && Cumsum(splits + rec)[|splits| + |rec|] == Cumsum(splits)[|splits|] + Count(cfg, act, b.splitRecv[p], w - 1)
      && |Dispatched(cfg, act, b.recv[p], b.splitRecv[p], w)|
         == |Dispatched(cfg, act, b.recv[p], b.splitRecv[p], w - 1)| + Count(cfg, act, b.splitRecv[p], w - 1)
  {
    CumsumConcat(CombineSplits(cfg, act, b.splitRecv[p], w - 1),
                 RecordOf(cfg, act, b.splitRecv[p], w - 1)[..cfg.experts]);
    hide Cumsum, Sum, RecordOf, Rows, Valid;
  }

  /** Where source w's rows begin among the dispatched ones. */
  lemma {:induction false} CombineStarts<T>(cfg: Config<T>, act: nat, b: Buffers<T>, p: nat, w: nat)
    requires Valid(cfg) && Shape(cfg, b) && act < 2 && p < cfg.world && w <= cfg.world && AllReceived(cfg, act, b, p)
    ensures forall r :: 0 <= r < cfg.world ==> Count(cfg, act, b.splitRecv[p], r) <= cfg.maxM
    ensures var splits := CombineSplits(cfg, act, b.splitRecv[p], w);
      |splits| == w * cfg.experts && Cumsum(splits)[|splits|] == |Dispatched(cfg, act, b.recv[p], b.splitRecv[p], w)|
  {
    CountsFit(cfg, act, b, p);
    hide Rows, RecordOf, Received, Count, Cumsum, AllReceived, Valid;
    if w == 0 {
      NoSources(cfg, act, b, p);
    } else {
      CombineStarts(cfg, act, b, p, w - 1);
      NextSource(cfg, act, b, p, w);
      hide CombineSplits, Dispatched;
      assert w * cfg.experts == (w - 1) * cfg.experts + cfg.experts;
    }
  }

  lemma NoSources<T>(cfg: Config<T>, act: nat, b: Buffers<T>, p: nat)
    requires Shape(cfg, b) && act < 2 && p < cfg.world
    ensures CombineSplits(cfg, act, b.splitRecv[p], 0) == [] && Cumsum([])[0] == 0
    ensures Dispatched(cfg, act, b.recv[p], b.splitRecv[p], 0) == []
  {
  }

  /** Longer lists of sources only extend the splits and the rows. */
  lemma {:induction false} SourcesExtend<T>(cfg: Config<T>, act: nat, b: Buffers<T>, p: nat, r: nat, w: nat)
    requires Valid(cfg) && Shape(cfg, b) && act < 2 && p < cfg.world && r <= w <= cfg.world
    requires forall q :: 0 <= q < cfg.world ==> Count(cfg, act, b.splitRecv[p], q) <= cfg.maxM
    ensures CombineSplits(cfg, act, b.splitRecv[p], r) <= CombineSplits(cfg, act, b.splitRecv[p], w)
    ensures Dispatched(cfg, act, b.recv[p], b.splitRecv[p], r) <= Dispatched(cfg, act, b.recv[p], b.splitRecv[p], w)
    decreases w - r
  {
    hide Rows, RecordOf, Count, Valid;
    if r < w { SourcesExtend(cfg, act, b, p, r, w - 1); }
  }

  lemma {:induction false} CumsumPrefix(a: seq<nat>, b: seq<nat>)
    requires a <= b
    ensures Cumsum(b)[|a|] == Cumsum(a)[|a|]
    decreases |b|
  {
    if a != b {
      assert b[..|b| - 1][..|a|] == a;
      CumsumPrefix(a, b[..|b| - 1]);
    }
  }

  /** What a rank takes from its buffers after the dispatch: `combine_offset`, the cumulative
      `combine_send_splits`, and the dispatched rows. */
  datatype Post<T> = Post(offsets: seq<nat>, cumsum: seq<nat>, tokens: seq<T>)

  function Offsets<T>(cfg: Config<T>, act: nat, splitRecv: seq<nat>, w: nat): (offsets: seq<nat>)
    requires act < 2 && w <= cfg.world && |splitRecv| == 2 * (cfg.world * (cfg.experts + 1))
    ensures |offsets| == w
  {
    if w == 0 then []
    else Offsets(cfg, act, splitRecv, w - 1) + [RecordOf(cfg, act, splitRecv, w - 1)[cfg.experts]]
  }

  lemma {:induction false} OffsetsAt<T>(cfg: Config<T>, act: nat, splitRecv: seq<nat>, w: nat, r: nat)
    requires act < 2 && r < w <= cfg.world && |splitRecv| == 2 * (cfg.world * (cfg.experts + 1))
    ensures Offsets(cfg, act, splitRecv, w)[r] == RecordOf(cfg, act, splitRecv, r)[cfg.experts]
  {
    hide RecordOf;
    if r < w - 1 { OffsetsAt(cfg, act, splitRecv, w - 1, r); }
  }

  /** The compute step: `f` is applied to every row. */
  function Compute<T>(f: (nat, T) -> T, p: nat, rows: seq<T>): (r: seq<T>)
    ensures |r| == |rows| && forall i :: 0 <= i < |rows| ==> r[i] == f(p, rows[i])
  {
    seq(|rows|, i requires 0 <= i < |rows| => f(p, rows[i]))
  }

  function PostProcess<T>(cfg: Config<T>, act: nat, b: Buffers<T>, p: nat, f: (nat, T) -> T): Post<T>
    requires Valid(cfg) && Shape(cfg, b) && act < 2 && p < cfg.world
    requires forall r :: 0 <= r < cfg.world ==> Count(cfg, act, b.splitRecv[p], r) <= cfg.maxM
  {
    Post(Offsets(cfg, act, b.splitRecv[p], cfg.world), Cumsum(CombineSplits(cfg, act, b.splitRecv[p], cfg.world)),
         Compute(f, p, Dispatched(cfg, act, b.recv[p], b.splitRecv[p], cfg.world)))
  }

  /** What the combine kernel on rank p finds for rank r: the computed rows that came from r,
      and the offset they came from. */
  ghost predicate Prepared<T>(cfg: Config<T>, post: Post<T>, f: (nat, T) -> T, r: nat, p: nat)
    requires Valid(cfg) && r < cfg.world && p < cfg.world
  {
    && |post.offsets| == cfg.world && |post.cumsum| == cfg.world * cfg.experts + 1
    && r * cfg.experts + cfg.experts < |post.cumsum|
    && post.cumsum[r * cfg.experts] <= post.cumsum[r * cfg.experts + cfg.experts] <= |post.tokens|
    && post.offsets[r] == Start(cfg, r, p)
    && post.tokens[post.cumsum[r * cfg.experts]..post.cumsum[r * cfg.experts + cfg.experts]]
       == Compute(f, p, Part(cfg, r, p))
  }

  /** The sums of the splits point at each source's rows. */
  lemma CombineSums<T>(cfg: Config<T>, act: nat, b: Buffers<T>, p: nat, r: nat)
    requires Valid(cfg) && Shape(cfg, b) && act < 2 && p < cfg.world && r <= cfg.world && AllReceived(cfg, act, b, p)
    ensures forall q :: 0 <= q < cfg.world ==> Count(cfg, act, b.splitRecv[p], q) <= cfg.maxM
    ensures var splits := CombineSplits(cfg, act, b.splitRecv[p], cfg.world);
      && |splits| == cfg.world * cfg.experts && r * cfg.experts <= |splits|
      && Cumsum(splits)[r * cfg.experts] == |Dispatched(cfg, act, b.recv[p], b.splitRecv[p], r)|
    ensures Dispatched(cfg, act, b.recv[p], b.splitRecv[p], r)
         <= Dispatched(cfg, act, b.recv[p], b.splitRecv[p], cfg.world)
  {
    hide Dispatched, CombineSplits, Cumsum, Received, Count, RecordOf, Rows;
    CombineStarts(cfg, act, b, p, r);
    CombineStarts(cfg, act, b, p, cfg.world);
    SourcesExtend(cfg, act, b, p, r, cfg.world);
    CumsumPrefix(CombineSplits(cfg, act, b.splitRecv[p], r), CombineSplits(cfg, act, b.splitRecv[p], cfg.world));
  }

  lemma DispatchedNext<T>(cfg: Config<T>, act: nat, b: Buffers<T>, p: nat, r: nat)
    requires Valid(cfg) && Shape(cfg, b) && act < 2 && p < cfg.world && r < cfg.world && AllReceived(cfg, act, b, p)
    requires forall q :: 0 <= q < cfg.world ==> Count(cfg, act, b.splitRecv[p], q) <= cfg.maxM
    ensures Dispatched(cfg, act, b.recv[p], b.splitRecv[p], r + 1)
         == Dispatched(cfg, act, b.recv[p], b.splitRecv[p], r) + Part(cfg, r, p)
  {
    CountIs(cfg, act, b, p, r);
    hide Rows, RecordOf, Part, Start, Received, Count;
  }

  lemma SliceOfCompute<T>(f: (nat, T) -> T, p: nat, all: seq<T>, here: seq<T>, part: seq<T>)
    requires here + part <= all
    ensures Compute(f, p, all)[|here|..|here| + |part|] == Compute(f, p, part)
  {
    forall i | 0 <= i < |part| ensures all[|here| + i] == part[i] {
      assert all[..|here| + |part|][|here| + i] == (here + part)[|here| + i];
    }
    hide Compute;
  }

  lemma PostProcessPrepares<T>(cfg: Config<T>, act: nat, b: Buffers<T>, p: nat, f: (nat, T) -> T, r: nat)
    requires Valid(cfg) && Shape(cfg, b) && act < 2 && p < cfg.world && r < cfg.world && AllReceived(cfg, act, b, p)
    ensures forall q :: 0 <= q < cfg.world ==> Count(cfg, act, b.splitRecv[p], q) <= cfg.maxM
    ensures Prepared(cfg, PostProcess(cfg, act, b, p, f), f, r, p)
  {
    hide Rows, RecordOf, Part, Start, Count, CombineSplits, Dispatched, Offsets, Cumsum, Valid, Compute, Received;
    Layout(cfg, act, r);
    CombineSums(cfg, act, b, p, r);
    CombineSums(cfg, act, b, p, r + 1);
    CountIs(cfg, act, b, p, r);
    DispatchedNext(cfg, act, b, p, r);
    OffsetsAt(cfg, act, b.splitRecv[p], cfg.world, r);
    SliceOfCompute(f, p, Dispatched(cfg, act, b.recv[p], b.splitRecv[p], cfg.world),
                   Dispatched(cfg, act, b.recv[p], b.splitRecv[p], r), Part(cfg, r, p));
  }

  // ----- Owners -----

  /** Every row goes to exactly one rank. */
  lemma {:induction false} RowOwner<T>(cfg: Config<T>, r: nat, i: nat, w: nat) returns (p: nat)
    requires Valid(cfg) && r < cfg.world && w <= cfg.world && i < Start(cfg, r, w)
    ensures p < w && Start(cfg, r, p) <= i < Start(cfg, r, p + 1)
    ensures forall q: nat :: q < cfg.world && Start(cfg, r, q) <= i < Start(cfg, r, q + 1) ==> q == p
  {
    hide Valid;
    if w == 0 {
      StartsAtZero(cfg, r);
      assert false;
    } else if Start(cfg, r, w - 1) <= i {
      p := w - 1;
      forall q: nat | q < cfg.world && Start(cfg, r, q) <= i < Start(cfg, r, q + 1) ensures q == p {
        if q < p { StartMono(cfg, r, q + 1, p); }
        if p < q { StartMono(cfg, r, p + 1, q); }
      }
    } else {
      p := RowOwner(cfg, r, i, w - 1);
    }
  }

  lemma StartsAtZero<T>(cfg: Config<T>, r: nat)
    requires Valid(cfg) && r < cfg.world
    ensures Start(cfg, r, 0) == 0 && Start(cfg, r, cfg.world) == |cfg.tokens[r]|
  {
    if |cfg.splits[r]| > 0 { CumsumStep(cfg.splits[r], 0); }
  }
}
