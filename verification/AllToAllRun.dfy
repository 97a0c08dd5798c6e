/** Runs of the all-to-all of Triton-distributed/tutorials/04-deepseek-infer-all2all.py: the
    programs, puts and host code of all ranks step in any order, dispatch and combine of
    different ranks overlapping.  A rank goes on from dispatch to combine once everything sent
    to it has arrived; no rank waits for any other. */
module AllToAllRun {
  import opened AllToAll
  import opened Cells
  import opened Results

  /** A put reads its source some time after it is issued, and writes its destination later. */
  datatype Put<D> = Waiting | Carrying(data: D) | Landed

  /** What goes on between source rank r and expert rank p: program p of the dispatch kernel on
      r stores a split record, copies rows, and puts both to p; program r of the combine kernel
      on p copies the computed rows, and puts them back to r. */
  datatype Pair<T> = Pair(stored: bool, copied: bool, rows: Put<seq<T>>, record: Put<seq<nat>>,
                          returned: bool, back: Put<seq<T>>)

  datatype State<T> = State(b: Buffers<T>, pair: (nat, nat) -> Pair<T>, post: nat -> Option<Post<T>>)

  datatype Step =
    | Store(r: nat, p: nat)
    | Copy(r: nat, p: nat)
    | ReadRows(r: nat, p: nat)
    | LandRows(r: nat, p: nat)
    | ReadRecord(r: nat, p: nat)
    | LandRecord(r: nat, p: nat)
    | Host(p: nat)
    | CopyBack(r: nat, p: nat)
    | ReadBack(r: nat, p: nat)
    | LandBack(r: nat, p: nat)

  // ----- What the buffers hold of one pair -----

  function SendSlice<T>(cfg: Config<T>, send: seq<T>, r: nat, p: nat): (rows: seq<T>)
    requires Valid(cfg) && r < cfg.world && p < cfg.world && |send| == cfg.maxM
    ensures |rows| == |Part(cfg, r, p)|
  {
    StartMono(cfg, r, p, p + 1);
    send[Start(cfg, r, p)..Start(cfg, r, p) + |Part(cfg, r, p)|]
  }

  function SplitSlice<T>(cfg: Config<T>, splitSend: seq<nat>, p: nat): (rec: seq<nat>)
    requires p < cfg.world && |splitSend| == cfg.world * (cfg.experts + 1)
    ensures |rec| == cfg.experts + 1
  {
    Layout(cfg, 0, p);
    assert SplitAt(cfg, p) == p * (cfg.experts + 1);
    splitSend[SplitAt(cfg, p)..SplitAt(cfg, p) + cfg.experts + 1]
  }

  function RecvRows<T>(cfg: Config<T>, act: nat, recv: seq<T>, r: nat, p: nat): seq<T>
    requires Valid(cfg) && act < 2 && r < cfg.world && p < cfg.world && |recv| == 2 * (cfg.world * cfg.maxM)
  {
    Rows(cfg, act, recv, r, |Part(cfg, r, p)|)
  }

  /** A write to one pair's rows of a send buffer. */
  function PutBack<T>(cfg: Config<T>, send: seq<T>, off: nat, rows: seq<T>): (s: seq<T>)
    requires off + |rows| <= |send|
    ensures |s| == |send|
  {
    Write(send, off, rows)
  }

  lemma SendSliceRead<T>(cfg: Config<T>, send: seq<T>, r: nat, p: nat, rows: seq<T>, q: nat)
    requires Valid(cfg) && r < cfg.world && p < cfg.world && q < cfg.world && |send| == cfg.maxM
    requires |rows| == |Part(cfg, r, p)|
    ensures Start(cfg, r, p) + |rows| <= |send|
    ensures SendSlice(cfg, PutBack(cfg, send, Start(cfg, r, p), rows), r, p) == rows
    ensures q != p ==> SendSlice(cfg, PutBack(cfg, send, Start(cfg, r, p), rows), r, q) == SendSlice(cfg, send, r, q)
  {
    StartMono(cfg, r, p, p + 1);
    StartMono(cfg, r, q, q + 1);
    WriteRead(send, Start(cfg, r, p), rows);
    if q < p { StartMono(cfg, r, q + 1, p); }
    if p < q { StartMono(cfg, r, p + 1, q); }
    if q != p { WriteAside(send, Start(cfg, r, p), rows, Start(cfg, r, q), Start(cfg, r, q + 1)); }
    hide Write, Start;
  }

  lemma CopiedRows<T>(cfg: Config<T>, send: seq<T>, r: nat, p: nat)
    requires Valid(cfg) && r < cfg.world && p < cfg.world && |send| == cfg.maxM
    ensures Start(cfg, r, p) + |Part(cfg, r, p)| <= |send|
    ensures SendRows(cfg, send, r, p) == PutBack(cfg, send, Start(cfg, r, p), Part(cfg, r, p))
  {
    StartMono(cfg, r, p, p + 1);
  }

  lemma SplitSliceRead<T>(cfg: Config<T>, splitSend: seq<nat>, r: nat, p: nat, q: nat)
    requires Valid(cfg) && r < cfg.world && p < cfg.world && q < cfg.world
    requires |splitSend| == cfg.world * (cfg.experts + 1)
    ensures SplitSlice(cfg, SendSplits(cfg, splitSend, r, p), p) == SplitRecord(cfg, r, p)
    ensures q != p ==> SplitSlice(cfg, SendSplits(cfg, splitSend, r, p), q) == SplitSlice(cfg, splitSend, q)
  {
    Layout(cfg, 0, p);
    Layout(cfg, 0, q);
    SplitsApart(cfg, p, q);
    SplitsApart(cfg, q, p);
    if q != p {
      WriteAside(splitSend, SplitAt(cfg, p), SplitRecord(cfg, r, p),
                 SplitAt(cfg, q), SplitAt(cfg, q) + cfg.experts + 1);
    }
    hide Write, SplitRecord, SplitAt;
  }

  lemma SplitsApart<T>(cfg: Config<T>, p: nat, q: nat)
    ensures p < q ==> SplitAt(cfg, p) + cfg.experts + 1 <= SplitAt(cfg, q)
    ensures SplitAt(cfg, p) == p * (cfg.experts + 1)
  {
    Apart(cfg, 0, p, q);
    assert SplitAt(cfg, p) == p * (cfg.experts + 1);
    assert SplitAt(cfg, q) == q * (cfg.experts + 1);
  }

  // ----- Steps -----

  ghost predicate InRange<T>(cfg: Config<T>, r: nat, p: nat) {
    r < cfg.world && p < cfg.world
  }

  /** The rows that rank p's combine returns to rank r, if `post` says where they are. */
  function BackRows<T>(cfg: Config<T>, post: Post<T>, r: nat): seq<T> {
    if r * cfg.experts + cfg.experts < |post.cumsum|
      && post.cumsum[r * cfg.experts] <= post.cumsum[r * cfg.experts + cfg.experts] <= |post.tokens|
    then post.tokens[post.cumsum[r * cfg.experts]..post.cumsum[r * cfg.experts + cfg.experts]]
    else []
  }

  /** When a step's turn has come. */
  ghost predicate Guard<T>(cfg: Config<T>, s: State<T>, step: Step) {
    match step
    case Store(r, p) => InRange(cfg, r, p) && !s.pair(r, p).stored
    case Copy(r, p) => InRange(cfg, r, p) && s.pair(r, p).stored && !s.pair(r, p).copied
    case ReadRows(r, p) => InRange(cfg, r, p) && s.pair(r, p).copied && s.pair(r, p).rows.Waiting?
    case LandRows(r, p) => InRange(cfg, r, p) && s.pair(r, p).rows.Carrying?
    case ReadRecord(r, p) => InRange(cfg, r, p) && s.pair(r, p).copied && s.pair(r, p).record.Waiting?
    case LandRecord(r, p) => InRange(cfg, r, p) && s.pair(r, p).record.Carrying?
    case Host(p) => p < cfg.world && s.post(p).None? && forall r: nat :: r < cfg.world ==> Arrived(s, r, p)
    case CopyBack(r, p) => InRange(cfg, r, p) && s.post(p).Some? && !s.pair(r, p).returned
    case ReadBack(r, p) => InRange(cfg, r, p) && s.pair(r, p).returned && s.pair(r, p).back.Waiting?
    case LandBack(r, p) => InRange(cfg, r, p) && s.post(p).Some? && s.pair(r, p).back.Carrying?
  }

  /** Rows and record from r are in p's buffers: p's wait for r's signal can end. */
  predicate Arrived<T>(s: State<T>, r: nat, p: nat) {
    s.pair(r, p).rows.Landed? && s.pair(r, p).record.Landed?
  }

  /** The step stays inside its buffers. */
  ghost predicate InBounds<T>(cfg: Config<T>, act: nat, s: State<T>, step: Step)
    requires Valid(cfg) && Shape(cfg, s.b) && act < 2 && Guard(cfg, s, step)
  {
    match step
    case LandRows(r, p) => |s.pair(r, p).rows.data| <= cfg.maxM
    case LandRecord(r, p) => |s.pair(r, p).record.data| == cfg.experts + 1
    case Host(p) => forall r :: 0 <= r < cfg.world ==> Count(cfg, act, s.b.splitRecv[p], r) <= cfg.maxM
    case CopyBack(r, p) => |BackRows(cfg, s.post(p).value, r)| <= cfg.maxM
    case LandBack(r, p) =>
      r < |s.post(p).value.offsets| && s.post(p).value.offsets[r] + |s.pair(r, p).back.data| <= cfg.maxM
    case _ => true
  }

  ghost predicate CanStep<T>(cfg: Config<T>, act: nat, s: State<T>, step: Step) {
    Valid(cfg) && Shape(cfg, s.b) && act < 2 && Guard(cfg, s, step) && InBounds(cfg, act, s, step)
  }

  ghost function Next<T>(cfg: Config<T>, act: nat, f: (nat, T) -> T, s: State<T>, step: Step): (s': State<T>)
    requires CanStep(cfg, act, s, step)
    ensures Shape(cfg, s'.b)
  {
    var b := s.b;
    match step
    case Store(r, p) =>
      s.(pair := Put2(s.pair, r, p, s.pair(r, p).(stored := true)),
         b := b.(splitSend := b.splitSend[r := SendSplits(cfg, b.splitSend[r], r, p)]))
    case Copy(r, p) =>
      s.(pair := Put2(s.pair, r, p, s.pair(r, p).(copied := true)),
         b := b.(send := b.send[r := SendRows(cfg, b.send[r], r, p)]))
    case ReadRows(r, p) =>
      s.(pair := Put2(s.pair, r, p, s.pair(r, p).(rows := Carrying(SendSlice(cfg, b.send[r], r, p)))))
    case LandRows(r, p) =>
      s.(pair := Put2(s.pair, r, p, s.pair(r, p).(rows := Landed)),
         b := b.(recv := b.recv[p := PutRows(cfg, act, b.recv[p], r, s.pair(r, p).rows.data)]))
    case ReadRecord(r, p) =>
      s.(pair := Put2(s.pair, r, p, s.pair(r, p).(record := Carrying(SplitSlice(cfg, b.splitSend[r], p)))))
    case LandRecord(r, p) =>
      s.(pair := Put2(s.pair, r, p, s.pair(r, p).(record := Landed)),
         b := b.(splitRecv := b.splitRecv[p := PutRecord(cfg, act, b.splitRecv[p], r, s.pair(r, p).record.data)]))
    case Host(p) => s.(post := Put1(s.post, p, Some(PostProcess(cfg, act, b, p, f))))
    case CopyBack(r, p) =>
      s.(pair := Put2(s.pair, r, p, s.pair(r, p).(returned := true)),
         b := b.(recv := b.recv[p := PutRows(cfg, act, b.recv[p], r, BackRows(cfg, s.post(p).value, r))]))
    case ReadBack(r, p) =>
      s.(pair := Put2(s.pair, r, p, s.pair(r, p).(back := Carrying(RecvRows(cfg, act, b.recv[p], r, p)))))
    case LandBack(r, p) =>
      s.(pair := Put2(s.pair, r, p, s.pair(r, p).(back := Landed)),
         b := b.(send := b.send[r := PutBack(cfg, b.send[r], s.post(p).value.offsets[r], s.pair(r, p).back.data)]))
  }

  ghost predicate Initial<T>(cfg: Config<T>, s: State<T>) {
    && Valid(cfg) && Shape(cfg, s.b) && (forall p: nat :: s.post(p) == None)
    && (forall r: nat, p: nat :: s.pair(r, p) == Pair(false, false, Waiting, Waiting, false, Waiting))
  }

  // ----- Invariant -----

  /** What holds of the pair (r, p): `sent`, `splits`, `rows` and `record` are what the four
      buffers hold of it, `part` and `rec` what is to be sent, `computed` what is to return. */
  ghost predicate PairAt<T>(x: Pair<T>, posted: bool, prepared: bool, sent: seq<T>, splits: seq<nat>, rows: seq<T>,
                            record: seq<nat>, part: seq<T>, rec: seq<nat>, computed: seq<T>)
  {
    && (x.stored ==> splits == rec) && (x.copied ==> x.stored)
    && (x.copied && !x.back.Landed? ==> sent == part) && (x.back.Landed? ==> sent == computed)
    && (!x.rows.Waiting? ==> x.copied) && (x.rows.Carrying? ==> x.rows.data == part)
    && (!x.record.Waiting? ==> x.copied) && (x.record.Carrying? ==> x.record.data == rec)
    && (x.rows.Landed? && !x.returned ==> rows == part) && (x.record.Landed? ==> record == rec)
    && (posted ==> x.rows.Landed? && x.record.Landed? && prepared)
    && (x.returned ==> posted && rows == computed)
    && (!x.back.Waiting? ==> x.returned) && (x.back.Carrying? ==> x.back.data == computed)
  }

  ghost predicate Here<T>(cfg: Config<T>, act: nat, f: (nat, T) -> T, s: State<T>, r: nat, p: nat)
    requires Valid(cfg) && Shape(cfg, s.b) && act < 2 && InRange(cfg, r, p)
  {
    PairAt(s.pair(r, p), s.post(p).Some?, s.post(p).Some? && Prepared(cfg, s.post(p).value, f, r, p),
           SendSlice(cfg, s.b.send[r], r, p), SplitSlice(cfg, s.b.splitSend[r], p),
           RecvRows(cfg, act, s.b.recv[p], r, p), RecordOf(cfg, act, s.b.splitRecv[p], r),
           Part(cfg, r, p), SplitRecord(cfg, r, p), Compute(f, p, Part(cfg, r, p)))
  }

  ghost predicate Inv<T>(cfg: Config<T>, act: nat, f: (nat, T) -> T, s: State<T>) {
    && Valid(cfg) && Shape(cfg, s.b) && act < 2
    && forall r: nat, p: nat :: InRange(cfg, r, p) ==> Here(cfg, act, f, s, r, p)
  }

  lemma InitialInv<T>(cfg: Config<T>, act: nat, f: (nat, T) -> T, s: State<T>)
    requires Initial(cfg, s) && act < 2
    ensures Inv(cfg, act, f, s)
  {
    hide SendSlice, SplitSlice, RecvRows, RecordOf, Part, SplitRecord, Compute, Valid, Shape;
  }

  /** What has arrived is what was sent, until combine reuses its place. */
  lemma DispatchDelivers<T>(cfg: Config<T>, act: nat, f: (nat, T) -> T, s: State<T>, r: nat, p: nat)
    requires Inv(cfg, act, f, s) && InRange(cfg, r, p) && Arrived(s, r, p) && !s.pair(r, p).returned
    ensures Received(cfg, act, s.b, r, p)
  {
    hide SendSlice, SplitSlice, RecordOf, Part, SplitRecord, Compute, Valid, Rows, Prepared;
    assert Here(cfg, act, f, s, r, p);
  }

  /** What has come back is the computed rows, in the place they came from. */
  lemma CombineDelivers<T>(cfg: Config<T>, act: nat, f: (nat, T) -> T, s: State<T>, r: nat, p: nat)
    requires Inv(cfg, act, f, s) && InRange(cfg, r, p) && s.pair(r, p).back.Landed?
    ensures SendSlice(cfg, s.b.send[r], r, p) == Compute(f, p, Part(cfg, r, p))
  {
    hide SendSlice, SplitSlice, RecordOf, Part, SplitRecord, Compute, Valid, Rows, Prepared;
    assert Here(cfg, act, f, s, r, p);
  }

  /** What a rank's host code makes of its buffers once everything has arrived. */
  lemma HostPrepares<T>(cfg: Config<T>, act: nat, f: (nat, T) -> T, s: State<T>, p: nat)
    requires Inv(cfg, act, f, s) && Guard(cfg, s, Host(p))
    ensures InBounds(cfg, act, s, Host(p))
    ensures forall r: nat :: r < cfg.world ==> Prepared(cfg, PostProcess(cfg, act, s.b, p, f), f, r, p)
  {
    hide SendSlice, SplitSlice, RecordOf, Part, SplitRecord, Compute, Valid, Rows, PostProcess, Prepared, Count;
    assert Valid(cfg) && Shape(cfg, s.b);
    forall r: nat | r < cfg.world ensures Received(cfg, act, s.b, r, p) {
      assert Here(cfg, act, f, s, r, p) && Arrived(s, r, p);
      DispatchDelivers(cfg, act, f, s, r, p);
    }
    assert AllReceived(cfg, act, s.b, p);
    hide Received, Inv, Guard;
    forall r: nat | r < cfg.world
      ensures Count(cfg, act, s.b.splitRecv[p], r) <= cfg.maxM
    {
      PostProcessPrepares(cfg, act, s.b, p, f, r);
    }
    forall r: nat | r < cfg.world ensures Prepared(cfg, PostProcess(cfg, act, s.b, p, f), f, r, p) {
      PostProcessPrepares(cfg, act, s.b, p, f, r);
    }
  }

  /** What combine takes from the computed rows, and where it returns them. */
  lemma BackIs<T>(cfg: Config<T>, post: Post<T>, f: (nat, T) -> T, r: nat, p: nat)
    requires Valid(cfg) && InRange(cfg, r, p) && Prepared(cfg, post, f, r, p)
    ensures BackRows(cfg, post, r) == Compute(f, p, Part(cfg, r, p))
    ensures r < |post.offsets| && post.offsets[r] == Start(cfg, r, p)
    ensures Start(cfg, r, p) + |Part(cfg, r, p)| <= cfg.maxM
  {
    StartMono(cfg, r, p, p + 1);
    hide Compute, Start;
  }

  /** No step ever leaves its buffers. */
  lemma StaysInBounds<T>(cfg: Config<T>, act: nat, f: (nat, T) -> T, s: State<T>, step: Step)
    requires Inv(cfg, act, f, s) && Guard(cfg, s, step)
    ensures InBounds(cfg, act, s, step)
  {
    hide SendSlice, SplitSlice, RecordOf, SplitRecord, Compute, Valid, Shape, Prepared, BackRows, Start, RecvRows, Part;
    if step.Host? {
      HostPrepares(cfg, act, f, s, step.p);
    } else {
      assert Here(cfg, act, f, s, step.r, step.p);
      if step.CopyBack? || step.LandBack? { BackIs(cfg, s.post(step.p).value, f, step.r, step.p); }
    }
  }

  // ----- Every step keeps the invariant -----

  /** What a step does to the buffers of the pair (r, p). */
  ghost predicate Same<T>(cfg: Config<T>, act: nat, a: Buffers<T>, b: Buffers<T>, r: nat, p: nat)
    requires Valid(cfg) && Shape(cfg, a) && Shape(cfg, b) && act < 2 && InRange(cfg, r, p)
  {
    && SendSlice(cfg, a.send[r], r, p) == SendSlice(cfg, b.send[r], r, p)
    && SplitSlice(cfg, a.splitSend[r], p) == SplitSlice(cfg, b.splitSend[r], p)
    && RecvRows(cfg, act, a.recv[p], r, p) == RecvRows(cfg, act, b.recv[p], r, p)
    && RecordOf(cfg, act, a.splitRecv[p], r) == RecordOf(cfg, act, b.splitRecv[p], r)
  }

  /** Steps of one pair leave the buffers of other pairs alone. */
  lemma OthersSame<T>(cfg: Config<T>, act: nat, f: (nat, T) -> T, s: State<T>, step: Step, r: nat, p: nat)
    requires Inv(cfg, act, f, s) && CanStep(cfg, act, s, step) && InRange(cfg, r, p)
    requires !step.Host? && (step.r, step.p) != (r, p)
    ensures Same(cfg, act, s.b, Next(cfg, act, f, s, step).b, r, p)
  {
    var b, q, t := s.b, step.r, step.p;
    if step.Store? && q == r { SplitSliceRead(cfg, b.splitSend[r], q, t, p); }
    if step.Copy? && q == r {
      CopiedRows(cfg, b.send[r], q, t);
      SendSliceRead(cfg, b.send[r], q, t, Part(cfg, q, t), p);
    }
    if step.LandRows? && t == p { PutRowsRead(cfg, act, b.recv[p], q, s.pair(q, t).rows.data, r, |Part(cfg, r, p)|); }
    if step.LandRecord? && t == p { PutRecordRead(cfg, act, b.splitRecv[p], q, s.pair(q, t).record.data, r); }
    if step.CopyBack? && t == p {
      PutRowsRead(cfg, act, b.recv[p], q, BackRows(cfg, s.post(t).value, q), r, |Part(cfg, r, p)|);
    }
    if step.LandBack? && q == r {
      assert Here(cfg, act, f, s, q, t);
      BackIs(cfg, s.post(t).value, f, q, t);
      SendSliceRead(cfg, b.send[r], q, t, s.pair(q, t).back.data, p);
    }
    hide SendSlice, SplitSlice, RecordOf, SplitRecord, Compute, Valid, Prepared, BackRows, Start, Rows, Part, PutRows,
         PutRecord, SendRows, SendSplits, PutBack, SplitAt, PostProcess, Count, Inv;
  }

  /** A step of the pair itself. */
  lemma StepHere<T>(cfg: Config<T>, act: nat, f: (nat, T) -> T, s: State<T>, step: Step)
    requires Inv(cfg, act, f, s) && CanStep(cfg, act, s, step) && !step.Host?
    ensures Here(cfg, act, f, Next(cfg, act, f, s, step), step.r, step.p)
  {
    var b, r, p := s.b, step.r, step.p;
    assert Here(cfg, act, f, s, r, p);
    if step.Store? { SplitSliceRead(cfg, b.splitSend[r], r, p, p); }
    if step.Copy? {
      CopiedRows(cfg, b.send[r], r, p);
      SendSliceRead(cfg, b.send[r], r, p, Part(cfg, r, p), p);
    }
    if step.LandRows? { PutRowsRead(cfg, act, b.recv[p], r, s.pair(r, p).rows.data, r, 0); }
    if step.LandRecord? { PutRecordRead(cfg, act, b.splitRecv[p], r, s.pair(r, p).record.data, r); }
    if step.CopyBack? {
      BackIs(cfg, s.post(p).value, f, r, p);
      PutRowsRead(cfg, act, b.recv[p], r, BackRows(cfg, s.post(p).value, r), r, 0);
    }
    if step.LandBack? {
      BackIs(cfg, s.post(p).value, f, r, p);
      SendSliceRead(cfg, b.send[r], r, p, s.pair(r, p).back.data, p);
    }
    hide SendSlice, SplitSlice, RecordOf, SplitRecord, Compute, Valid, Prepared, BackRows, Start, Rows, Part, PutRows,
         PutRecord, SendRows, SendSplits, PutBack, SplitAt, PostProcess, Count, Inv;
  }

  lemma HostHere<T>(cfg: Config<T>, act: nat, f: (nat, T) -> T, s: State<T>, q: nat, r: nat, p: nat)
    requires Inv(cfg, act, f, s) && CanStep(cfg, act, s, Host(q)) && InRange(cfg, r, p)
    ensures Here(cfg, act, f, Next(cfg, act, f, s, Host(q)), r, p)
  {
    HostPrepares(cfg, act, f, s, q);
    assert Here(cfg, act, f, s, r, p);
    hide SendSlice, SplitSlice, RecordOf, SplitRecord, Compute, Valid, Prepared, RecvRows, Part, PostProcess, Count,
         Inv;
    if q == p { assert Arrived(s, r, p); }
  }

  lemma StepAside<T>(cfg: Config<T>, act: nat, f: (nat, T) -> T, s: State<T>, step: Step, r: nat, p: nat)
    requires Inv(cfg, act, f, s) && CanStep(cfg, act, s, step) && InRange(cfg, r, p)
    requires !step.Host? && (step.r, step.p) != (r, p)
    ensures Here(cfg, act, f, Next(cfg, act, f, s, step), r, p)
  {
    OthersSame(cfg, act, f, s, step, r, p);
    assert Here(cfg, act, f, s, r, p);
    hide SendSlice, SplitSlice, RecordOf, SplitRecord, Compute, Valid, Prepared, RecvRows, Part, PostProcess, Count,
         Inv, BackRows, PutRows, PutRecord, SendRows, SendSplits, PutBack, PairAt;
  }

  lemma StepInv<T>(cfg: Config<T>, act: nat, f: (nat, T) -> T, s: State<T>, step: Step)
    requires Inv(cfg, act, f, s) && CanStep(cfg, act, s, step)
    ensures Inv(cfg, act, f, Next(cfg, act, f, s, step))
  {
    hide Here, CanStep, Next;
    forall r: nat, p: nat | InRange(cfg, r, p) ensures Here(cfg, act, f, Next(cfg, act, f, s, step), r, p) {
      if step.Host? {
        HostHere(cfg, act, f, s, step.p, r, p);
      } else if (step.r, step.p) == (r, p) {
        StepHere(cfg, act, f, s, step);
      } else {
        StepAside(cfg, act, f, s, step, r, p);
      }
    }
  }

  // ----- Every run ends -----

  function PutLeft<D>(x: Put<D>): nat {
    match x case Waiting => 2 case Carrying(_) => 1 case Landed => 0
  }

  function One(open: bool): nat {
    if open then 1 else 0
  }

  /** The steps that a pair has left. */
  function PairLeft<T>(x: Pair<T>): nat {
    One(!x.stored) + One(!x.copied) + PutLeft(x.rows) + PutLeft(x.record) + One(!x.returned) + PutLeft(x.back)
  }

  function RowLeft<T>(pair: (nat, nat) -> Pair<T>, r: nat, n: nat): nat {
    if n == 0 then 0 else RowLeft(pair, r, n - 1) + PairLeft(pair(r, n - 1))
  }

  function PairsLeft<T>(pair: (nat, nat) -> Pair<T>, m: nat, n: nat): nat {
    if m == 0 then 0 else PairsLeft(pair, m - 1, n) + RowLeft(pair, m - 1, n)
  }

  function HostsLeft<T>(post: nat -> Option<Post<T>>, n: nat): nat {
    if n == 0 then 0 else HostsLeft(post, n - 1) + One(post(n - 1).None?)
  }

  function Left<T>(cfg: Config<T>, s: State<T>): nat {
    PairsLeft(s.pair, cfg.world, cfg.world) + HostsLeft(s.post, cfg.world)
  }

  lemma {:induction false} RowLeftPut<T>(pair: (nat, nat) -> Pair<T>, q: nat, t: nat, x: Pair<T>, r: nat, n: nat)
    ensures RowLeft(Put2(pair, q, t, x), r, n)
         == RowLeft(pair, r, n) + if r == q && t < n then PairLeft(x) - PairLeft(pair(q, t)) else 0
  {
    if n > 0 { RowLeftPut(pair, q, t, x, r, n - 1); }
  }

  lemma {:induction false} PairsLeftPut<T>(pair: (nat, nat) -> Pair<T>, q: nat, t: nat, x: Pair<T>, m: nat, n: nat)
    ensures PairsLeft(Put2(pair, q, t, x), m, n)
         == PairsLeft(pair, m, n) + if q < m && t < n then PairLeft(x) - PairLeft(pair(q, t)) else 0
  {
    if m > 0 {
      PairsLeftPut(pair, q, t, x, m - 1, n);
      RowLeftPut(pair, q, t, x, m - 1, n);
      hide RowLeft, PairLeft;
    }
  }

  lemma {:induction false} HostsLeftPut<T>(post: nat -> Option<Post<T>>, p: nat, x: Post<T>, n: nat)
    requires post(p).None?
    ensures HostsLeft(post, n) == HostsLeft(Put1(post, p, Some(x)), n) + One(p < n)
  {
    if n > 0 { HostsLeftPut(post, p, x, n - 1); }
  }

  lemma StepDecreases<T>(cfg: Config<T>, act: nat, f: (nat, T) -> T, s: State<T>, step: Step)
    requires Inv(cfg, act, f, s) && CanStep(cfg, act, s, step)
    ensures Left(cfg, Next(cfg, act, f, s, step)) + 1 == Left(cfg, s)
  {
    var s' := Next(cfg, act, f, s, step);
    if step.Host? {
      HostsLeftPut(s.post, step.p, s'.post(step.p).value, cfg.world);
    } else {
      assert Here(cfg, act, f, s, step.r, step.p);
      var x, x' := s.pair(step.r, step.p), s'.pair(step.r, step.p);
      assert s'.pair == Put2(s.pair, step.r, step.p, x');
      assert PairLeft(x') + 1 == PairLeft(x);
      PairsLeftPut(s.pair, step.r, step.p, x', cfg.world, cfg.world);
    }
    hide Valid, Shape, Inv, PairsLeft, HostsLeft, PairLeft, InBounds;
  }

  // ----- Every run -----

  ghost predicate IsRun<T(!new)>(cfg: Config<T>, act: nat, f: (nat, T) -> T, states: seq<State<T>>, run: seq<Step>) {
    && |states| == |run| + 1 && Initial(cfg, states[0]) && act < 2
    && forall k :: 0 <= k < |run| ==>
         CanStep(cfg, act, states[k], run[k]) && states[k + 1] == Next(cfg, act, f, states[k], run[k])
  }

  lemma {:induction false} RunInv<T(!new)>(cfg: Config<T>, act: nat, f: (nat, T) -> T, states: seq<State<T>>,
                  run: seq<Step>)
    requires IsRun(cfg, act, f, states, run)
    ensures Inv(cfg, act, f, states[|run|]) && |run| + Left(cfg, states[|run|]) == Left(cfg, states[0])
    decreases |run|
  {
    var n := |run| - 1;
    hide Inv, CanStep, Next, Initial, Left;
    if run == [] {
      InitialInv(cfg, act, f, states[0]);
    } else {
      RunInv(cfg, act, f, states[..n + 1], run[..n]);
      StepInv(cfg, act, f, states[n], run[n]);
      StepDecreases(cfg, act, f, states[n], run[n]);
    }
  }

  /** Everything has come back to rank r: its combine kernel can end. */
  ghost predicate AllBack<T>(cfg: Config<T>, s: State<T>, r: nat) {
    forall p: nat :: p < cfg.world ==> s.pair(r, p).back.Landed?
  }

  /** Until everything is back everywhere, something can step. */
  lemma NeverStuck<T>(cfg: Config<T>, act: nat, f: (nat, T) -> T, s: State<T>, r: nat, p: nat) returns (step: Step)
    requires Inv(cfg, act, f, s) && InRange(cfg, r, p) && !s.pair(r, p).back.Landed?
    ensures CanStep(cfg, act, s, step)
  {
    if q: nat :| q < cfg.world && !Arrived(s, q, p) {
      var x := s.pair(q, p);
      step := if !x.stored then Store(q, p) else if !x.copied then Copy(q, p)
              else match x.rows
                case Waiting => ReadRows(q, p)
                case Carrying(_) => LandRows(q, p)
                case Landed => if x.record.Waiting? then ReadRecord(q, p) else LandRecord(q, p);
      assert Guard(cfg, s, step);
    } else if s.post(p).None? {
      step := Host(p);
      assert Guard(cfg, s, step);
    } else {
      var x := s.pair(r, p);
      step := if !x.returned then CopyBack(r, p) else if x.back.Waiting? then ReadBack(r, p) else LandBack(r, p);
      assert Guard(cfg, s, step);
    }
    StaysInBounds(cfg, act, f, s, step);
  }

  /** In every run, whatever the order in which programs, puts and hosts of all ranks step: once
      everything has come back to a rank, row i of its send buffer is the compute step of the
      rank that owns the row's expert, applied to its original row i; until then something can
      step, and no run takes more steps than are left at its start. */
  lemma RoundTrip<T(!new)>(cfg: Config<T>, act: nat, f: (nat, T) -> T, states: seq<State<T>>, run: seq<Step>,
                           r: nat, i: nat) returns (p: nat)
    requires IsRun(cfg, act, f, states, run) && r < cfg.world
    requires i < |cfg.tokens[r]|
    ensures p < cfg.world && Start(cfg, r, p) <= i < Start(cfg, r, p + 1)
    ensures Shape(cfg, states[|run|].b) && |cfg.tokens[r]| <= cfg.maxM
    ensures if AllBack(cfg, states[|run|], r) then states[|run|].b.send[r][i] == f(p, cfg.tokens[r][i])
            else exists step :: CanStep(cfg, act, states[|run|], step)
    ensures |run| <= Left(cfg, states[0])
  {
    var s := states[|run|];
    RunInv(cfg, act, f, states, run);
    StartsAtZero(cfg, r);
    p := RowOwner(cfg, r, i, cfg.world);
    StartMono(cfg, r, p, p + 1);
    hide IsRun, CanStep, Start, Valid, Left, SplitSlice, RecordOf, SplitRecord, Prepared, RecvRows;
    if AllBack(cfg, s, r) {
      CombineDelivers(cfg, act, f, s, r, p);
      assert SendSlice(cfg, s.b.send[r], r, p)[i - Start(cfg, r, p)] == s.b.send[r][i];
      assert Part(cfg, r, p)[i - Start(cfg, r, p)] == cfg.tokens[r][i];
    } else {
      var q: nat :| q < cfg.world && !s.pair(r, q).back.Landed?;
      var step := NeverStuck(cfg, act, f, s, r, q);
    }
  }
}
