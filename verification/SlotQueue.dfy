/** The bounded slot queue of Triton-distributed/tutorials/01-distributed-notify-wait.py.
    The producer programs of each rank send its input blocks through a queue of slots on the
    next rank, whose consumer programs copy them to that rank's output.  Programs run
    concurrently, one memory operation at a time; a block is one value. */
module SlotQueue {
  import opened DivMod

  datatype Config = Config(ranks: nat, producers: nat, consumers: nat, size: nat, n: nat)

  predicate Positive(cfg: Config) {
    cfg.ranks > 0 && cfg.producers > 0 && cfg.consumers > 0 && cfg.size > 0
  }

  /** Where a program is in the loop body for item `i`; it has ended once `i >= num_inputs`. */
  datatype Producer = Producer(i: nat, at: ProducerAt)
  datatype ProducerAt = PWait | PStore | PNotify
  datatype Consumer<T> = Consumer(i: nat, at: ConsumerAt<T>)
  datatype ConsumerAt<T> = CWait | CLoad | CStore(data: T) | CNotify

  /** The producers of one rank, and the queue, signals, output and consumers of the next. */
  datatype Link<T> = Link(producers: seq<Producer>, consumers: seq<Consumer<T>>,
                          queue: seq<T>, signal: seq<nat>, output: seq<T>)

  datatype Step = Produce(p: nat) | Consume(c: nat)

  // ----- One step of one program -----

  predicate CanStep<T>(cfg: Config, l: Link<T>, step: Step)
    requires Positive(cfg) && |l.signal| == cfg.size
  {
    match step
    case Produce(p) =>
      && p < |l.producers| && l.producers[p].i < cfg.n
      && var i := l.producers[p].i;
         l.producers[p].at == PWait ==> l.signal[Rem(i, cfg.size)] == 2 * Quot(i, cfg.size)
    case Consume(c) =>
      && c < |l.consumers| && l.consumers[c].i < cfg.n
      && var i := l.consumers[c].i;
         l.consumers[c].at.CWait? ==> l.signal[Rem(i, cfg.size)] == 2 * Quot(i, cfg.size) + 1
  }

  ghost predicate Shape<T>(cfg: Config, input: seq<T>, l: Link<T>) {
    && Positive(cfg) && |input| == |l.output| == cfg.n && |l.queue| == |l.signal| == cfg.size
    && |l.producers| == cfg.producers && |l.consumers| == cfg.consumers
  }

  function Next<T>(cfg: Config, input: seq<T>, l: Link<T>, step: Step): (l': Link<T>)
    requires Shape(cfg, input, l) && CanStep(cfg, l, step)
    ensures Shape(cfg, input, l')
  {
    match step
    case Produce(p) =>
      var i := l.producers[p].i;
      var slot := Rem(i, cfg.size);
      (match l.producers[p].at
       case PWait => l.(producers := l.producers[p := Producer(i, PStore)])
       case PStore => l.(producers := l.producers[p := Producer(i, PNotify)], queue := l.queue[slot := input[i]])
       case PNotify => l.(producers := l.producers[p := Producer(i + cfg.producers, PWait)],
                          signal := l.signal[slot := Quot(i, cfg.size) * 2 + 1]))
    case Consume(c) =>
      var i := l.consumers[c].i;
      var slot := Rem(i, cfg.size);
      match l.consumers[c].at
      case CWait => l.(consumers := l.consumers[c := Consumer(i, CLoad)])
      case CLoad => l.(consumers := l.consumers[c := Consumer(i, CStore(l.queue[slot]))])
      case CStore(data) => l.(consumers := l.consumers[c := Consumer(i, CNotify)], output := l.output[i := data])
      case CNotify => l.(consumers := l.consumers[c := Consumer(i + cfg.consumers, CWait)],
                         signal := l.signal[slot := Quot(i, cfg.size) * 2 + 2])
  }

  /** Fresh signals; queue and output may hold anything. */
  ghost predicate Initial<T>(cfg: Config, input: seq<T>, l: Link<T>) {
    && Shape(cfg, input, l)
    && (forall p :: 0 <= p < cfg.producers ==> l.producers[p] == Producer(p, PWait))
    && (forall c :: 0 <= c < cfg.consumers ==> l.consumers[c] == Consumer(c, CWait))
    && (forall s :: 0 <= s < cfg.size ==> l.signal[s] == 0)
  }

  ghost predicate Final<T>(cfg: Config, l: Link<T>) {
    && (forall p :: 0 <= p < |l.producers| ==> l.producers[p].i >= cfg.n)
    && (forall c :: 0 <= c < |l.consumers| ==> l.consumers[c].i >= cfg.n)
  }

  // ----- Invariant -----

  /** Item `j` is repeat `k` of its slot.  `p` and `c` are the programs that handle it, `sig`
      and `held` the signal and content of its slot, `x` its input block and `out` the output. */
  ghost predicate ItemAt<T>(j: nat, k: nat, p: Producer, c: Consumer<T>, sig: nat, held: T, x: T, out: T) {
    && (p.i < j || (p.i == j && p.at == PWait) ==> sig <= 2 * k)
    && (p.i == j && p.at != PWait ==> sig == 2 * k)
    && (p.i == j && p.at == PNotify ==> held == x)
    && (p.i > j ==> sig >= 2 * k + 1)
    && (c.i < j || (c.i == j && c.at.CWait?) ==> sig <= 2 * k + 1)
    && (c.i == j && !c.at.CWait? ==> sig == 2 * k + 1)
    && (c.i == j && c.at.CStore? ==> c.at.data == x)
    && (c.i == j && c.at.CNotify? ==> out == x)
    && (c.i > j ==> sig >= 2 * k + 2 && out == x)
    && (sig == 2 * k + 1 ==> held == x)
  }

  ghost predicate Item<T>(cfg: Config, input: seq<T>, l: Link<T>, j: nat)
    requires Shape(cfg, input, l) && j < cfg.n
  {
    var s := Rem(j, cfg.size);
    ItemAt(j, Quot(j, cfg.size), l.producers[Rem(j, cfg.producers)], l.consumers[Rem(j, cfg.consumers)],
           l.signal[s], l.queue[s], input[j], l.output[j])
  }

  /** Every program is at an item of its own stride. */
  ghost predicate Strides<T>(cfg: Config, l: Link<T>)
    requires Positive(cfg)
  {
    && (forall p :: 0 <= p < |l.producers| ==>
          Rem(l.producers[p].i, cfg.producers) == p && l.producers[p].i < cfg.n + cfg.producers + p)
    && (forall c :: 0 <= c < |l.consumers| ==>
          Rem(l.consumers[c].i, cfg.consumers) == c && l.consumers[c].i < cfg.n + cfg.consumers + c)
  }

  ghost predicate Inv<T>(cfg: Config, input: seq<T>, l: Link<T>) {
    && Shape(cfg, input, l) && Strides(cfg, l)
    && forall j :: 0 <= j < cfg.n ==> Item(cfg, input, l, j)
  }

  // ----- Facts about strides and slots -----

  lemma {:induction false} NextInStride(i: nat, j: nat, d: nat)
    requires d > 0
    ensures Rem(i + d, d) == Rem(i, d)
    ensures Rem(i, d) == Rem(j, d) && i < j ==> i + d <= j
  {
    if i >= d { if j >= d { NextInStride(i - d, j - d, d); } }
  }

  lemma SameItem(i: nat, j: nat, d: nat)
    requires d > 0 && Rem(i, d) == Rem(j, d) && Quot(i, d) == Quot(j, d)
    ensures i == j
  {
    QuotRem(i, d);
    QuotRem(j, d);
  }

  // ----- The invariant holds in every reachable state -----

  lemma InitialInv<T>(cfg: Config, input: seq<T>, l: Link<T>)
    requires Initial(cfg, input, l)
    ensures Inv(cfg, input, l)
  {
    forall p | 0 <= p < cfg.producers ensures Rem(l.producers[p].i, cfg.producers) == p { }
    forall j | 0 <= j < cfg.n ensures Item(cfg, input, l, j) { }
  }

  /** A step on another item `i`, with repeat `ki`, seen from item `j`. */
  lemma ProduceAside<T>(cfg: Config, input: seq<T>, l: Link<T>, p: nat, j: nat)
    requires Inv(cfg, input, l) && CanStep(cfg, l, Produce(p)) && j < cfg.n && j != l.producers[p].i
    ensures Item(cfg, input, Next(cfg, input, l, Produce(p)), j)
  {
    var i := l.producers[p].i;
    assert Item(cfg, input, l, i) && Item(cfg, input, l, j);
    NextInStride(i, j, cfg.producers);
    if Rem(i, cfg.size) == Rem(j, cfg.size) && Quot(i, cfg.size) == Quot(j, cfg.size) { SameItem(i, j, cfg.size); }
    hide Rem, Quot, Inv, Strides;
  }

  lemma ConsumeAside<T>(cfg: Config, input: seq<T>, l: Link<T>, c: nat, j: nat)
    requires Inv(cfg, input, l) && CanStep(cfg, l, Consume(c)) && j < cfg.n && j != l.consumers[c].i
    ensures Item(cfg, input, Next(cfg, input, l, Consume(c)), j)
  {
    if l.consumers[c].at.CNotify? {
      ConsumedAside(cfg, input, l, c, j);
    } else {
      assert Item(cfg, input, l, j);
      hide Rem, Quot, Inv, Strides;
    }
  }

  lemma ConsumedAside<T>(cfg: Config, input: seq<T>, l: Link<T>, c: nat, j: nat)
    requires Inv(cfg, input, l) && CanStep(cfg, l, Consume(c)) && j < cfg.n && j != l.consumers[c].i
    requires l.consumers[c].at.CNotify?
    ensures Item(cfg, input, Next(cfg, input, l, Consume(c)), j)
  {
    var i, s := l.consumers[c].i, Rem(j, cfg.size);
    NextInStride(i, j, cfg.consumers);
    assert Item(cfg, input, l, i) && Item(cfg, input, l, j) && Rem(i, cfg.consumers) == c;
    if Rem(i, cfg.size) == Rem(j, cfg.size) {
      if i < j { QuotMono(i, j, cfg.size); } else { QuotMono(j, i, cfg.size); }
      hide Rem, Quot, Inv, Strides, ItemAt;
      SignalAside(i, Quot(i, cfg.size), j, Quot(j, cfg.size), l.producers[Rem(i, cfg.producers)], l.consumers[c],
                  l.producers[Rem(j, cfg.producers)], l.consumers[Rem(j, cfg.consumers)], l.signal[s], l.queue[s],
                  input[i], l.output[i], input[j], l.output[j], cfg.consumers, c == Rem(j, cfg.consumers));
    } else {
      hide Rem, Quot, Inv, Strides;
    }
  }

  /** Consumer `c` has read item i; signalling so does not disturb item j of the same slot. */
  lemma SignalAside<T>(i: nat, ki: nat, j: nat, kj: nat, pi: Producer, ci: Consumer<T>, pj: Producer, cj: Consumer<T>,
                       sig: nat, held: T, xi: T, oi: T, xj: T, oj: T, consumers: nat, same: bool)
    requires ItemAt(i, ki, pi, ci, sig, held, xi, oi) && ItemAt(j, kj, pj, cj, sig, held, xj, oj)
    requires ki != kj && ci.i == i && ci.at.CNotify? && (same ==> cj == ci && (i < j ==> i + consumers <= j))
    requires i < j <==> ki < kj
    ensures ItemAt(j, kj, pj, if same then Consumer(i + consumers, CWait) else cj, 2 * ki + 2, held, xj, oj)
  {
  }

  lemma StepHere<T>(cfg: Config, input: seq<T>, l: Link<T>, step: Step)
    requires Inv(cfg, input, l) && CanStep(cfg, l, step)
    ensures var i := if step.Produce? then l.producers[step.p].i else l.consumers[step.c].i;
      i < cfg.n && Item(cfg, input, Next(cfg, input, l, step), i)
  {
    var i := if step.Produce? then l.producers[step.p].i else l.consumers[step.c].i;
    assert Item(cfg, input, l, i);
    assert step.Produce? ==> Rem(i, cfg.producers) == step.p;
    assert step.Consume? ==> Rem(i, cfg.consumers) == step.c;
    hide Rem, Quot, Inv, Strides;
  }

  lemma StepStrides<T>(cfg: Config, input: seq<T>, l: Link<T>, step: Step)
    requires Inv(cfg, input, l) && CanStep(cfg, l, step)
    ensures Strides(cfg, Next(cfg, input, l, step))
  {
    if step.Produce? { NextInStride(l.producers[step.p].i, 0, cfg.producers); }
    if step.Consume? { NextInStride(l.consumers[step.c].i, 0, cfg.consumers); }
    hide Rem, Quot, Item;
  }

  lemma StepInv<T>(cfg: Config, input: seq<T>, l: Link<T>, step: Step)
    requires Inv(cfg, input, l) && CanStep(cfg, l, step)
    ensures Inv(cfg, input, Next(cfg, input, l, step))
  {
    var l' := Next(cfg, input, l, step);
    StepStrides(cfg, input, l, step);
    StepHere(cfg, input, l, step);
    forall j | 0 <= j < cfg.n ensures Item(cfg, input, l', j) {
      match step
      case Produce(p) => if j != l.producers[p].i { ProduceAside(cfg, input, l, p, j); }
      case Consume(c) => if j != l.consumers[c].i { ConsumeAside(cfg, input, l, c, j); }
    }
  }

  // ----- What the invariant gives -----

  /** No signal passes the value that a waiting program expects. */
  lemma NoSignalPasses<T>(cfg: Config, input: seq<T>, l: Link<T>)
    requires Inv(cfg, input, l)
    ensures forall p :: 0 <= p < cfg.producers && l.producers[p].i < cfg.n && l.producers[p].at == PWait ==>
      l.signal[Rem(l.producers[p].i, cfg.size)] <= 2 * Quot(l.producers[p].i, cfg.size)
    ensures forall c :: 0 <= c < cfg.consumers && l.consumers[c].i < cfg.n && l.consumers[c].at.CWait? ==>
      l.signal[Rem(l.consumers[c].i, cfg.size)] <= 2 * Quot(l.consumers[c].i, cfg.size) + 1
  {
    forall p | 0 <= p < cfg.producers && l.producers[p].i < cfg.n ensures Item(cfg, input, l, l.producers[p].i) { }
    forall c | 0 <= c < cfg.consumers && l.consumers[c].i < cfg.n ensures Item(cfg, input, l, l.consumers[c].i) { }
    hide Rem, Quot;
  }

  lemma {:induction false} QuotMono(i: nat, j: nat, d: nat)
    requires d > 0 && i < j
    ensures Quot(i, d) <= Quot(j, d)
    ensures Rem(i, d) == Rem(j, d) ==> Quot(i, d) < Quot(j, d)
  {
    if i >= d { QuotMono(i - d, j - d, d); }
  }

  /** When a producer stores item `i`, every earlier item of the slot is in the output already,
      and no other program is storing into the slot or reading from it. */
  lemma NoOverwrite<T>(cfg: Config, input: seq<T>, l: Link<T>, p: nat, j: nat)
    requires Inv(cfg, input, l) && p < cfg.producers && l.producers[p].i < cfg.n && l.producers[p].at == PStore
    requires j < cfg.n && j != l.producers[p].i && Rem(j, cfg.size) == Rem(l.producers[p].i, cfg.size)
    ensures j < l.producers[p].i ==> l.consumers[Rem(j, cfg.consumers)].i > j && l.output[j] == input[j]
    ensures l.producers[Rem(j, cfg.producers)].i == j ==> l.producers[Rem(j, cfg.producers)].at == PWait
    ensures l.consumers[Rem(j, cfg.consumers)].i == j ==> l.consumers[Rem(j, cfg.consumers)].at.CWait?
  {
    var i := l.producers[p].i;
    assert Item(cfg, input, l, i) && Item(cfg, input, l, j);
    if j < i { QuotMono(j, i, cfg.size); } else { QuotMono(i, j, cfg.size); }
    hide Rem, Quot, Inv;
  }

  /** When every program has ended, the output is a copy of the input. */
  lemma FinalOutput<T>(cfg: Config, input: seq<T>, l: Link<T>)
    requires Inv(cfg, input, l) && Final(cfg, l)
    ensures l.output == input
  {
    forall j | 0 <= j < cfg.n ensures l.output[j] == input[j] {
      assert Item(cfg, input, l, j);
      assert l.consumers[Rem(j, cfg.consumers)].i >= cfg.n;
    }
  }

  // ----- Progress -----

  ghost predicate Consumed<T>(cfg: Config, l: Link<T>, j: nat)
    requires Positive(cfg) && |l.consumers| == cfg.consumers
  {
    l.consumers[Rem(j, cfg.consumers)].i > j
  }

  /** The first item that is not consumed yet. */
  lemma {:induction false} FirstUnconsumed<T>(cfg: Config, input: seq<T>, l: Link<T>, from: nat) returns (m: nat)
    requires Shape(cfg, input, l) && from <= cfg.n && forall j :: 0 <= j < from ==> Consumed(cfg, l, j)
    ensures m <= cfg.n && forall j :: 0 <= j < m ==> Consumed(cfg, l, j)
    ensures m < cfg.n ==> !Consumed(cfg, l, m)
    decreases cfg.n - from
  {
    if from < cfg.n && Consumed(cfg, l, from) {
      m := FirstUnconsumed(cfg, input, l, from + 1);
    } else {
      m := from;
    }
  }

  lemma ConsumedIsProduced<T>(cfg: Config, input: seq<T>, l: Link<T>, j: nat)
    requires Inv(cfg, input, l) && j < cfg.n && Consumed(cfg, l, j)
    ensures l.producers[Rem(j, cfg.producers)].i > j
  {
    assert Item(cfg, input, l, j);
  }

  /** The programs that handle the first unconsumed item are at that item. */
  lemma OwnersAt<T>(cfg: Config, input: seq<T>, l: Link<T>, m: nat)
    requires Inv(cfg, input, l) && m < cfg.n && !Consumed(cfg, l, m)
    requires forall j :: 0 <= j < m ==> Consumed(cfg, l, j)
    ensures l.consumers[Rem(m, cfg.consumers)].i == m && l.producers[Rem(m, cfg.producers)].i >= m
  {
    forall j | 0 <= j < m ensures l.producers[Rem(j, cfg.producers)].i > j { ConsumedIsProduced(cfg, input, l, j); }
    assert l.consumers[Rem(m, cfg.consumers)].i >= m;
  }

  lemma CurrentIsUnconsumed<T>(cfg: Config, input: seq<T>, l: Link<T>, c: nat)
    requires Inv(cfg, input, l) && c < cfg.consumers
    ensures !Consumed(cfg, l, l.consumers[c].i)
  {
  }

  lemma AllConsumedIsFinal<T>(cfg: Config, input: seq<T>, l: Link<T>)
    requires Inv(cfg, input, l) && forall j :: 0 <= j < cfg.n ==> Consumed(cfg, l, j)
    ensures Final(cfg, l)
  {
    forall j | 0 <= j < cfg.n ensures l.producers[Rem(j, cfg.producers)].i > j { ConsumedIsProduced(cfg, input, l, j); }
    forall c | 0 <= c < cfg.consumers ensures l.consumers[c].i >= cfg.n { CurrentIsUnconsumed(cfg, input, l, c); }
  }

  /** The slot of the first unconsumed item is not behind. */
  lemma SlotReady<T>(cfg: Config, input: seq<T>, l: Link<T>, m: nat)
    requires Inv(cfg, input, l) && m < cfg.n && forall j :: 0 <= j < m ==> Consumed(cfg, l, j)
    ensures l.signal[Rem(m, cfg.size)] >= 2 * Quot(m, cfg.size)
  {
    if m >= cfg.size {
      assert Consumed(cfg, l, m - cfg.size) && Item(cfg, input, l, m - cfg.size);
    }
  }

  /** Whatever the interleaving, while some program has not ended some program can step. */
  lemma NeverStuck<T>(cfg: Config, input: seq<T>, l: Link<T>) returns (step: Step)
    requires Inv(cfg, input, l) && !Final(cfg, l)
    ensures CanStep(cfg, l, step)
  {
    var m := FirstUnconsumed(cfg, input, l, 0);
    if m < cfg.n {
      OwnersAt(cfg, input, l, m);
      SlotReady(cfg, input, l, m);
      assert Item(cfg, input, l, m);
      var p := Rem(m, cfg.producers);
      var free := l.signal[Rem(m, cfg.size)] == 2 * Quot(m, cfg.size);
      step := if l.producers[p].i == m && (l.producers[p].at != PWait || free)
              then Produce(p) else Consume(Rem(m, cfg.consumers));
    } else {
      AllConsumedIsFinal(cfg, input, l);
      assert false;
    }
  }

  // ----- Every run ends -----

  function ProducerLeft(cfg: Config, p: Producer): int {
    4 * (cfg.n + 2 * cfg.producers - p.i) - match p.at case PWait => 0 case PStore => 1 case PNotify => 2
  }

  function ConsumerLeft<T>(cfg: Config, c: Consumer<T>): int {
    4 * (cfg.n + 2 * cfg.consumers - c.i) -
      match c.at case CWait => 0 case CLoad => 1 case CStore(_) => 2 case CNotify => 3
  }

  function ProducersLeft(cfg: Config, ps: seq<Producer>): int {
    if ps == [] then 0 else ProducersLeft(cfg, ps[..|ps| - 1]) + ProducerLeft(cfg, ps[|ps| - 1])
  }

  function ConsumersLeft<T>(cfg: Config, cs: seq<Consumer<T>>): int {
    if cs == [] then 0 else ConsumersLeft(cfg, cs[..|cs| - 1]) + ConsumerLeft(cfg, cs[|cs| - 1])
  }

  function Left<T>(cfg: Config, l: Link<T>): int {
    ProducersLeft(cfg, l.producers) + ConsumersLeft(cfg, l.consumers)
  }

  lemma {:induction false} ProducersLeftUpdate(cfg: Config, ps: seq<Producer>, p: nat, v: Producer)
    requires p < |ps|
    ensures ProducersLeft(cfg, ps[p := v]) == ProducersLeft(cfg, ps) - ProducerLeft(cfg, ps[p]) + ProducerLeft(cfg, v)
  {
    var n := |ps| - 1;
    if p < n {
      ProducersLeftUpdate(cfg, ps[..n], p, v);
      assert ps[p := v][..n] == ps[..n][p := v];
    } else {
      assert ps[p := v][..n] == ps[..n];
    }
  }

  lemma {:induction false} ConsumersLeftUpdate<T>(cfg: Config, cs: seq<Consumer<T>>, c: nat, v: Consumer<T>)
    requires c < |cs|
    ensures ConsumersLeft(cfg, cs[c := v]) == ConsumersLeft(cfg, cs) - ConsumerLeft(cfg, cs[c]) + ConsumerLeft(cfg, v)
  {
    var n := |cs| - 1;
    if c < n {
      ConsumersLeftUpdate(cfg, cs[..n], c, v);
      assert cs[c := v][..n] == cs[..n][c := v];
    } else {
      assert cs[c := v][..n] == cs[..n];
    }
  }

  lemma {:induction false} ProducersLeftNonNegative(cfg: Config, ps: seq<Producer>)
    requires forall p :: 0 <= p < |ps| ==> ps[p].i < cfg.n + 2 * cfg.producers
    ensures ProducersLeft(cfg, ps) >= 0
  {
    if ps != [] { ProducersLeftNonNegative(cfg, ps[..|ps| - 1]); }
  }

  lemma {:induction false} ConsumersLeftNonNegative<T>(cfg: Config, cs: seq<Consumer<T>>)
    requires forall c :: 0 <= c < |cs| ==> cs[c].i < cfg.n + 2 * cfg.consumers
    ensures ConsumersLeft(cfg, cs) >= 0
  {
    if cs != [] { ConsumersLeftNonNegative(cfg, cs[..|cs| - 1]); }
  }

  lemma ProducerAdvances<T>(cfg: Config, input: seq<T>, l: Link<T>, p: nat)
    requires Shape(cfg, input, l) && CanStep(cfg, l, Produce(p))
    ensures var l' := Next(cfg, input, l, Produce(p));
      && l'.consumers == l.consumers && l'.producers == l.producers[p := l'.producers[p]]
      && ProducerLeft(cfg, l'.producers[p]) < ProducerLeft(cfg, l.producers[p])
  {
    hide Rem, Quot;
  }

  lemma ConsumerAdvances<T>(cfg: Config, input: seq<T>, l: Link<T>, c: nat)
    requires Shape(cfg, input, l) && CanStep(cfg, l, Consume(c))
    ensures var l' := Next(cfg, input, l, Consume(c));
      && l'.producers == l.producers && l'.consumers == l.consumers[c := l'.consumers[c]]
      && ConsumerLeft(cfg, l'.consumers[c]) < ConsumerLeft(cfg, l.consumers[c])
  {
    hide Rem, Quot;
  }

  lemma LeftNonNegative<T>(cfg: Config, input: seq<T>, l: Link<T>)
    requires Inv(cfg, input, l)
    ensures Left(cfg, l) >= 0
  {
    ProducersLeftNonNegative(cfg, l.producers);
    ConsumersLeftNonNegative(cfg, l.consumers);
  }

  /** The remaining work goes down in every step. */
  lemma StepDecreases<T>(cfg: Config, input: seq<T>, l: Link<T>, step: Step)
    requires Shape(cfg, input, l) && CanStep(cfg, l, step)
    ensures Left(cfg, Next(cfg, input, l, step)) < Left(cfg, l)
  {
    hide ProducersLeft, ConsumersLeft, ProducerLeft, ConsumerLeft, Next, Rem, Quot;
    var l' := Next(cfg, input, l, step);
    match step
    case Produce(p) =>
      ProducerAdvances(cfg, input, l, p);
      ProducersLeftUpdate(cfg, l.producers, p, l'.producers[p]);
    case Consume(c) =>
      ConsumerAdvances(cfg, input, l, c);
      ConsumersLeftUpdate(cfg, l.consumers, c, l'.consumers[c]);
  }

  // ----- All ranks together -----

  /** `inputs[r]` is what rank r sends, `links[r]` the link from rank r to the next rank. */
  ghost predicate SystemInv<T>(cfg: Config, inputs: seq<seq<T>>, links: seq<Link<T>>) {
    |inputs| == |links| == cfg.ranks && forall r :: 0 <= r < cfg.ranks ==> Inv(cfg, inputs[r], links[r])
  }

  ghost predicate SystemInitial<T>(cfg: Config, inputs: seq<seq<T>>, links: seq<Link<T>>) {
    |inputs| == |links| == cfg.ranks && forall r :: 0 <= r < cfg.ranks ==> Initial(cfg, inputs[r], links[r])
  }

  ghost predicate SystemFinal<T>(cfg: Config, links: seq<Link<T>>) {
    forall r :: 0 <= r < |links| ==> Final(cfg, links[r])
  }

  /** `states` is a run: each state follows from the one before by one step of one program. */
  ghost predicate IsRun<T>(cfg: Config, inputs: seq<seq<T>>, states: seq<seq<Link<T>>>, moves: seq<(nat, Step)>) {
    && |states| == |moves| + 1 && SystemInitial(cfg, inputs, states[0])
    && forall k :: 0 <= k < |moves| ==> SystemStep(cfg, inputs, states[k], moves[k], states[k + 1])
  }

  ghost predicate SystemStep<T>(cfg: Config, inputs: seq<seq<T>>, links: seq<Link<T>>, move: (nat, Step),
                  links': seq<Link<T>>) {
    && |inputs| == |links| == cfg.ranks && move.0 < cfg.ranks
    && Shape(cfg, inputs[move.0], links[move.0]) && CanStep(cfg, links[move.0], move.1)
    && links' == links[move.0 := Next(cfg, inputs[move.0], links[move.0], move.1)]
  }

  function TotalLeft<T>(cfg: Config, links: seq<Link<T>>): int {
    if links == [] then 0 else TotalLeft(cfg, links[..|links| - 1]) + Left(cfg, links[|links| - 1])
  }

  lemma {:induction false} TotalLeftUpdate<T>(cfg: Config, links: seq<Link<T>>, r: nat, l: Link<T>)
    requires r < |links|
    ensures TotalLeft(cfg, links[r := l]) == TotalLeft(cfg, links) - Left(cfg, links[r]) + Left(cfg, l)
  {
    var n := |links| - 1;
    if r < n {
      TotalLeftUpdate(cfg, links[..n], r, l);
      assert links[r := l][..n] == links[..n][r := l];
    } else {
      assert links[r := l][..n] == links[..n];
    }
  }

  lemma {:induction false} TotalLeftNonNegative<T>(cfg: Config, inputs: seq<seq<T>>, links: seq<Link<T>>)
    requires |inputs| == |links| && forall r :: 0 <= r < |links| ==> Inv(cfg, inputs[r], links[r])
    ensures TotalLeft(cfg, links) >= 0
  {
    if links != [] {
      var n := |links| - 1;
      TotalLeftNonNegative(cfg, inputs[..n], links[..n]);
      LeftNonNegative(cfg, inputs[n], links[n]);
    }
  }

  /** Every state of every run satisfies the invariant, and the run is no longer than the work
      at its start. */
  lemma {:induction false} RunInv<T>(cfg: Config, inputs: seq<seq<T>>, states: seq<seq<Link<T>>>,
                  moves: seq<(nat, Step)>)
    requires IsRun(cfg, inputs, states, moves)
    ensures SystemInv(cfg, inputs, states[|moves|])
    ensures TotalLeft(cfg, states[|moves|]) >= 0
    ensures |moves| + TotalLeft(cfg, states[|moves|]) <= TotalLeft(cfg, states[0])
    decreases |moves|
  {
    var n := |moves| - 1;
    hide Inv, Initial, TotalLeft, Left, Next, CanStep, Shape;
    if moves == [] {
      forall r | 0 <= r < cfg.ranks ensures Inv(cfg, inputs[r], states[0][r]) {
        InitialInv(cfg, inputs[r], states[0][r]);
      }
    } else {
      RunInv(cfg, inputs, states[..n + 1], moves[..n]);
      var links, r, step := states[n], moves[n].0, moves[n].1;
      assert states[..n + 1][n] == links && SystemStep(cfg, inputs, links, moves[n], states[n + 1]);
      StepInv(cfg, inputs[r], links[r], step);
      StepDecreases(cfg, inputs[r], links[r], step);
      TotalLeftUpdate(cfg, links, r, Next(cfg, inputs[r], links[r], step));
    }
    TotalLeftNonNegative(cfg, inputs, states[|moves|]);
  }

  function Peer(rank: nat, ranks: nat): nat
    requires rank < ranks
  {
    (rank + 1) % ranks
  }

  function Predecessor(rank: nat, ranks: nat): nat
    requires rank < ranks
  {
    (rank - 1 + ranks) % ranks
  }

  /** Each rank's queue is fed by exactly one rank, its predecessor. */
  lemma PeerOfPredecessor(rank: nat, ranks: nat)
    requires rank < ranks
    ensures Peer(rank, ranks) < ranks && Predecessor(Peer(rank, ranks), ranks) == rank
    ensures Predecessor(rank, ranks) < ranks && Peer(Predecessor(rank, ranks), ranks) == rank
  {
    if rank + 1 == ranks { Unique(1, 0, ranks); } else { Unique(0, rank + 1, ranks); Unique(1, rank, ranks); }
    if rank == 0 {
      Unique(0, ranks - 1, ranks);
      Unique(1, 0, ranks);
    } else {
      Unique(1, rank - 1, ranks);
      Unique(0, rank, ranks);
    }
  }

  /** A system has ended when every program is past its last item. */
  lemma SystemFinalIs<T>(cfg: Config, inputs: seq<seq<T>>, links: seq<Link<T>>)
    requires SystemInv(cfg, inputs, links)
    ensures SystemFinal(cfg, links) <==> forall rank: nat, q: nat :: rank < cfg.ranks ==>
      && (q < cfg.producers ==> links[rank].producers[q].i >= cfg.n)
      && (q < cfg.consumers ==> links[rank].consumers[q].i >= cfg.n)
  {
    hide Strides, Item;
    forall rank | 0 <= rank < cfg.ranks ensures Shape(cfg, inputs[rank], links[rank]) {
    }
    hide Inv;
    if !SystemFinal(cfg, links) {
      var r :| 0 <= r < cfg.ranks && !Final(cfg, links[r]);
      if forall p :: 0 <= p < cfg.producers ==> links[r].producers[p].i >= cfg.n {
        var c :| 0 <= c < cfg.consumers && links[r].consumers[c].i < cfg.n;
      }
    }
  }

  lemma EndedCopies<T>(cfg: Config, inputs: seq<seq<T>>, links: seq<Link<T>>, rank: nat)
    requires SystemInv(cfg, inputs, links) && SystemFinal(cfg, links) && rank < cfg.ranks
    ensures Predecessor(rank, cfg.ranks) < cfg.ranks
    ensures links[Predecessor(rank, cfg.ranks)].output == inputs[Predecessor(rank, cfg.ranks)]
  {
    PeerOfPredecessor(rank, cfg.ranks);
    FinalOutput(cfg, inputs[Predecessor(rank, cfg.ranks)], links[Predecessor(rank, cfg.ranks)]);
  }

  lemma GoesOn<T>(cfg: Config, inputs: seq<seq<T>>, links: seq<Link<T>>) returns (move: (nat, Step))
    requires SystemInv(cfg, inputs, links) && !SystemFinal(cfg, links)
    ensures move.0 < cfg.ranks && Shape(cfg, inputs[move.0], links[move.0]) && CanStep(cfg, links[move.0], move.1)
  {
    hide CanStep, Item, Strides;
    var r :| 0 <= r < cfg.ranks && !Final(cfg, links[r]);
    var step := NeverStuck(cfg, inputs[r], links[r]);
    move := (r, step);
  }

  /** In whatever order the programs of all ranks step: a run is either still going, and then
      some program can step, or it has ended, and then each rank's output is a copy of its
      predecessor's input. */
  lemma RunsCopy<T>(cfg: Config, inputs: seq<seq<T>>, states: seq<seq<Link<T>>>, moves: seq<(nat, Step)>)
    requires IsRun(cfg, inputs, states, moves)
    ensures |moves| <= TotalLeft(cfg, states[0])
    ensures var links := states[|moves|];
      && SystemInv(cfg, inputs, links)
      && if forall rank: nat, q: nat :: rank < cfg.ranks ==>
              && (q < cfg.producers ==> links[rank].producers[q].i >= cfg.n)
              && (q < cfg.consumers ==> links[rank].consumers[q].i >= cfg.n)
         then forall rank :: 0 <= rank < cfg.ranks ==>
                links[Predecessor(rank, cfg.ranks)].output == inputs[Predecessor(rank, cfg.ranks)]
         else exists move: (nat, Step) :: move.0 < cfg.ranks && CanStep(cfg, links[move.0], move.1)
  {
    RunInv(cfg, inputs, states, moves);
    var links := states[|moves|];
    assert forall r :: 0 <= r < cfg.ranks ==> Shape(cfg, inputs[r], links[r]);
    SystemFinalIs(cfg, inputs, links);
    hide IsRun, TotalLeft, Predecessor, Inv, CanStep, Final;
    if SystemFinal(cfg, links) {
      forall rank | 0 <= rank < cfg.ranks
        ensures Predecessor(rank, cfg.ranks) < cfg.ranks
        ensures links[Predecessor(rank, cfg.ranks)].output == inputs[Predecessor(rank, cfg.ranks)]
      {
        EndedCopies(cfg, inputs, links, rank);
      }
    } else {
      var move := GoesOn(cfg, inputs, links);
    }
  }
}
