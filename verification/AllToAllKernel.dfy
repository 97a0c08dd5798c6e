/** The kernel and host code of Triton-distributed/tutorials/04-deepseek-infer-all2all.py on the
    symmetric arrays, one program at a time, as AllToAll describes it. */
module AllToAllKernel {
  import opened DivMod
  import opened AllToAll

  /** The symmetric arrays of one rank. */
  class Peer<T> {
    const send: array<T>
    const recv: array<T>
    const splitSend: array<nat>
    const splitRecv: array<nat>

    ghost predicate Sized(cfg: Config<T>) {
      && send.Length == cfg.maxM && recv.Length == 2 * (cfg.world * cfg.maxM)
      && splitSend.Length == cfg.world * (cfg.experts + 1) && splitRecv.Length == 2 * (cfg.world * (cfg.experts + 1))
    }

    constructor (cfg: Config<T>, blank: T)
      ensures Sized(cfg) && fresh(send) && fresh(recv) && fresh(splitSend) && fresh(splitRecv)
    {
      send := new T[cfg.maxM](_ => blank);
      recv := new T[2 * (cfg.world * cfg.maxM)](_ => blank);
      splitSend := new nat[cfg.world * (cfg.experts + 1)](_ => 0);
      splitRecv := new nat[2 * (cfg.world * (cfg.experts + 1))](_ => 0);
    }
  }

  /** Four different arrays. */
  ghost predicate Apart4<T>(a: array<T>, b: array<T>, c: array<nat>, d: array<nat>) {
    var rows: set<object> := {a, b};
    var words: set<object> := {c, d};
    a != b && c != d && rows !! words
  }

  lemma WriteNext<T>(s: seq<T>, off: nat, data: seq<T>, n: nat)
    requires off + |data| <= |s| && n < |data|
    ensures Write(s, off, data[..n + 1]) == Write(s, off, data[..n])[off + n := data[n]]
  {
  }

  /** The copy loop: blocks of `bm` rows, the last one masked. */
  method CopyRows<T>(dst: array<T>, off: nat, rows: seq<T>, bm: nat)
    requires off + |rows| <= dst.Length && bm > 0
    modifies dst
    ensures dst[..] == Write(old(dst[..]), off, rows)
  {
    hide Write;
    ghost var was := dst[..];
    var blocks := (|rows| + bm - 1) / bm;
    var done := 0;
    assert Write(was, off, rows[..0]) == was by { NothingWritten(was, off, rows); }
    for i := 0 to blocks
      invariant done == if i * bm < |rows| then i * bm else |rows|
      invariant dst[..] == Write(was, off, rows[..done])
    {
      assert (i + 1) * bm == i * bm + bm;
      for m := 0 to bm
        invariant done == if i * bm + m < |rows| then i * bm + m else |rows|
        invariant dst[..] == Write(was, off, rows[..done])
      {
        if i * bm + m < |rows| {
          WriteNext(was, off, rows, done);
          dst[off + (i * bm + m)] := rows[i * bm + m];
          done := done + 1;
        }
      }
    }
    CeilCovers(|rows|, bm);
    assert rows[..done] == rows;
  }

  /** A put of `n` rows from one rank's array to another's; `rows` is what it carries. */
  method Put<T>(dst: array<T>, dstOff: nat, src: array<T>, srcOff: nat, ghost rows: seq<T>, n: nat)
    requires dst != src && dstOff + n <= dst.Length && srcOff + n <= src.Length
    requires rows == src[srcOff..srcOff + n]
    modifies dst
    ensures dst[..] == Write(old(dst[..]), dstOff, rows)
  {
    forall i | 0 <= i < n { dst[dstOff + i] := src[srcOff + i]; }
    assert dst[..] == old(dst[..dstOff]) + rows + old(dst[dstOff + n..]);
  }

  /** A slice that was just written. */
  lemma WrittenSlice<T>(dst: array<T>, was: seq<T>, off: nat, rows: seq<T>)
    requires off + |rows| <= |was| && dst.Length == |was| && dst[..] == Write(was, off, rows)
    ensures dst[off..off + |rows|] == rows
  {
    WriteRead(was, off, rows);
    assert dst[off..off + |rows|] == dst[..][off..off + |rows|];
  }

  lemma NothingWritten<T>(s: seq<T>, off: nat, rows: seq<T>)
    requires off + |rows| <= |s|
    ensures Write(s, off, rows[..0]) == s
  {
  }

  lemma SplitOffset<T>(cfg: Config<T>, pid: nat)
    requires pid < cfg.world
    ensures pid * cfg.experts + pid == SplitAt(cfg, pid)
    ensures SplitAt(cfg, pid) + cfg.experts + 1 <= cfg.world * (cfg.experts + 1)
  {
    Layout(cfg, 0, pid);
    assert SplitAt(cfg, pid) == pid * (cfg.experts + 1);
  }

  /** The row offsets that the kernel computes. */
  lemma RowOffsets<T>(cfg: Config<T>, rank: nat, pid: nat)
    requires Valid(cfg) && rank < cfg.world && pid < cfg.world
    ensures var expSt, cumsum := pid * cfg.experts, Cumsum(cfg.splits[rank]);
      && expSt + cfg.experts < |cumsum| == |cfg.splits[rank]| + 1
      && cumsum[expSt] == Start(cfg, rank, pid) <= cumsum[expSt + cfg.experts] <= |cfg.tokens[rank]| <= cfg.maxM
      && cfg.tokens[rank][cumsum[expSt]..cumsum[expSt + cfg.experts]] == Part(cfg, rank, pid)
      && Differences(cfg.splits[rank], expSt, cfg.experts) + [cumsum[expSt]] == SplitRecord(cfg, rank, pid)
  {
    Layout(cfg, 0, pid);
    StartMono(cfg, rank, pid, pid + 1);
    hide Cumsum, Differences, Region, Record;
  }

  lemma SendRowsIs<T>(cfg: Config<T>, send: seq<T>, r: nat, p: nat)
    requires Valid(cfg) && r < cfg.world && p < cfg.world && |send| == cfg.maxM
    ensures Start(cfg, r, p) + |Part(cfg, r, p)| <= |send|
    ensures SendRows(cfg, send, r, p) == Write(send, Start(cfg, r, p), Part(cfg, r, p))
  {
    var _ := SendRows(cfg, send, r, p);
    hide Write, Start, Part;
  }

  lemma SendSplitsIs<T>(cfg: Config<T>, splitSend: seq<nat>, r: nat, p: nat)
    requires Valid(cfg) && r < cfg.world && p < cfg.world && |splitSend| == cfg.world * (cfg.experts + 1)
    ensures SplitAt(cfg, p) + |SplitRecord(cfg, r, p)| <= |splitSend|
    ensures SendSplits(cfg, splitSend, r, p) == Write(splitSend, SplitAt(cfg, p), SplitRecord(cfg, r, p))
  {
    SplitOffset(cfg, p);
    hide Write, SplitRecord, SplitAt;
  }

  /** Program `pid` of the dispatch kernel on rank `rank`. */
  method DispatchKernel<T>(cfg: Config<T>, act: nat, rank: nat, pid: nat, self: Peer<T>, peer: Peer<T>, bm: nat)
    requires Valid(cfg) && act < 2 && rank < cfg.world && pid < cfg.world && bm > 0
    requires self.Sized(cfg) && peer.Sized(cfg) && Apart4(self.send, peer.recv, self.splitSend, peer.splitRecv)
    modifies self.send, self.splitSend, peer.recv, peer.splitRecv
    ensures self.send[..] == SendRows(cfg, old(self.send[..]), rank, pid)
    ensures self.splitSend[..] == SendSplits(cfg, old(self.splitSend[..]), rank, pid)
    ensures peer.recv[..] == PutRows(cfg, act, old(peer.recv[..]), rank, Part(cfg, rank, pid))
    ensures peer.splitRecv[..] == PutRecord(cfg, act, old(peer.splitRecv[..]), rank, SplitRecord(cfg, rank, pid))
  {
    hide Start, Part, SplitRecord, Write, SplitAt, Cumsum, Differences, SendRows, SendSplits, Region, Record;
    Layout(cfg, act, rank);
    SplitOffset(cfg, pid);
    RowOffsets(cfg, rank, pid);
    SendRowsIs(cfg, self.send[..], rank, pid);
    SendSplitsIs(cfg, self.splitSend[..], rank, pid);
    var cumsum := Cumsum(cfg.splits[rank]);
    var expSt := pid * cfg.experts;
    var expEd := expSt + cfg.experts;
    var mSt, mEd := cumsum[expSt], cumsum[expEd];
    var record := Differences(cfg.splits[rank], expSt, cfg.experts) + [mSt];
    var splitAt := expSt + pid;
    var rows := cfg.tokens[rank][mSt..mEd];
    hide Valid;
    CopyRows(self.splitSend, splitAt, record, 1);
    CopyRows(self.send, mSt, rows, bm);
    WrittenSlice(self.send, old(self.send[..]), mSt, rows);
    WrittenSlice(self.splitSend, old(self.splitSend[..]), splitAt, record);
    Put(peer.recv, Region(cfg, act, rank), self.send, mSt, rows, mEd - mSt);
    Put(peer.splitRecv, Record(cfg, act, rank), self.splitSend, splitAt, record, cfg.experts + 1);
  }

  /** The host loop over `num_tokens_from_each_rank`: takes the received rows out of their
      regions, one region apart. */
  method GatherDispatched<T>(cfg: Config<T>, act: nat, self: Peer<T>) returns (tokens: seq<T>)
    requires act < 2 && self.Sized(cfg)
    requires forall r :: 0 <= r < cfg.world ==> Count(cfg, act, self.splitRecv[..], r) <= cfg.maxM
    ensures tokens == Dispatched(cfg, act, self.recv[..], self.splitRecv[..], cfg.world)
  {
    hide Count, Rows, RecordOf;
    tokens := [];
    var off := 0;
    for r := 0 to cfg.world
      invariant off == r * cfg.maxM
      invariant tokens == Dispatched(cfg, act, self.recv[..], self.splitRecv[..], r)
    {
      var ntk := Count(cfg, act, self.splitRecv[..], r);
      RegionRows(cfg, act, self.recv[..], r, ntk);
      Layout(cfg, act, r);
      tokens := tokens + self.recv[act * (cfg.world * cfg.maxM) + off..act * (cfg.world * cfg.maxM) + off + ntk];
      assert (r + 1) * cfg.maxM == r * cfg.maxM + cfg.maxM;
      off := off + cfg.maxM;
    }
  }

  lemma RegionRows<T>(cfg: Config<T>, act: nat, recv: seq<T>, r: nat, n: nat)
    requires act < 2 && r < cfg.world && n <= cfg.maxM && |recv| == 2 * (cfg.world * cfg.maxM)
    ensures act * (cfg.world * cfg.maxM) + r * cfg.maxM + n <= |recv|
    ensures var at := act * (cfg.world * cfg.maxM) + r * cfg.maxM; Rows(cfg, act, recv, r, n) == recv[at..at + n]
  {
    Layout(cfg, act, r);
  }

  lemma CombineOffsets<T>(cfg: Config<T>, act: nat, rank: nat, pid: nat, post: Post<T>, f: (nat, T) -> T)
    requires Valid(cfg) && act < 2 && rank < cfg.world && pid < cfg.world && Prepared(cfg, post, f, pid, rank)
    ensures var mSt, mEd := post.cumsum[pid * cfg.experts], post.cumsum[pid * cfg.experts + cfg.experts];
      && mEd - mSt == |Part(cfg, pid, rank)| && Start(cfg, pid, rank) + |Part(cfg, pid, rank)| <= cfg.maxM
      && Region(cfg, act, pid) + cfg.maxM <= 2 * (cfg.world * cfg.maxM)
  {
    hide Compute, Start, Region, Valid;
    Layout(cfg, act, pid);
    StartMono(cfg, pid, rank, rank + 1);
  }

  /** Program `pid` of the combine kernel on rank `rank`. */
  method CombineKernel<T>(cfg: Config<T>, act: nat, rank: nat, pid: nat, self: Peer<T>, peer: Peer<T>,
                          post: Post<T>, ghost f: (nat, T) -> T, bm: nat)
    requires Valid(cfg) && act < 2 && rank < cfg.world && pid < cfg.world && bm > 0
    requires self.Sized(cfg) && peer.Sized(cfg) && self.recv != peer.send && Prepared(cfg, post, f, pid, rank)
    modifies self.recv, peer.send
    ensures self.recv[..] == PutRows(cfg, act, old(self.recv[..]), pid, Compute(f, rank, Part(cfg, pid, rank)))
    ensures Start(cfg, pid, rank) + |Part(cfg, pid, rank)| <= peer.send.Length
    ensures peer.send[..] == Write(old(peer.send[..]), Start(cfg, pid, rank), Compute(f, rank, Part(cfg, pid, rank)))
  {
    hide Part, Start, Write, Compute, Valid, Region;
    CombineOffsets(cfg, act, rank, pid, post, f);
    var mSt, mEd := post.cumsum[pid * cfg.experts], post.cumsum[pid * cfg.experts + cfg.experts];
    var rows := post.tokens[mSt..mEd];
    assert rows == Compute(f, rank, Part(cfg, pid, rank)) && post.offsets[pid] == Start(cfg, pid, rank);
    hide Prepared;
    var srcOff := Region(cfg, act, pid);
    CopyRows(self.recv, srcOff, rows, bm);
    WrittenSlice(self.recv, old(self.recv[..]), srcOff, rows);
    Put(peer.send, post.offsets[pid], self.recv, srcOff, rows, mEd - mSt);
  }
}
