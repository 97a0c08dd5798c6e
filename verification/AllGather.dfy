/** The push all-gathers of Triton-distributed/tutorials/03-inter-node-allgather.py, called again
    and again on every rank.  Ranks, their programs and the network step concurrently. */
module AllGather {
  import opened Cells
  import opened DivMod

  /** `nodes` nodes of `local` ranks each; `base` is the signal value before the first call. */
  datatype Config = Config(nodes: nat, local: nat, base: nat)

  function World(cfg: Config): nat {
    cfg.nodes * cfg.local
  }

  // ----- Which program sends what where -----

  function Node(cfg: Config, rank: nat): nat
    requires cfg.local > 0
  {
    Quot(rank, cfg.local)
  }

  function Local(cfg: Config, rank: nat): nat
    requires cfg.local > 0
  {
    Rem(rank, cfg.local)
  }

  function Rank(cfg: Config, node: nat, local: nat): nat {
    node * cfg.local + local
  }

  /** `r` and `pid` name one sending program of one rank. */
  ghost predicate Program(cfg: Config, r: nat, pid: nat) {
    cfg.local > 0 && r < World(cfg) && pid < World(cfg) && r != pid
  }

  /** Sends to the same local rank of another node (the branch that puts without blocking). */
  predicate CrossNode(cfg: Config, r: nat, pid: nat)
    requires cfg.local > 0
  {
    Local(cfg, pid) == Local(cfg, r)
  }

  /** Forwards a segment that must first arrive from another node. */
  predicate Forwards(cfg: Config, r: nat, pid: nat)
    requires cfg.local > 0
  {
    !CrossNode(cfg, r, pid) && Node(cfg, pid) != Node(cfg, r)
  }

  function Dst(cfg: Config, r: nat, pid: nat): nat
    requires cfg.local > 0
  {
    if CrossNode(cfg, r, pid) then Rank(cfg, Node(cfg, pid), Local(cfg, r))
    else Rank(cfg, Node(cfg, r), Local(cfg, pid))
  }

  function Seg(cfg: Config, r: nat, pid: nat): nat
    requires cfg.local > 0
  {
    if CrossNode(cfg, r, pid) then r else Rank(cfg, Node(cfg, pid), Local(cfg, r))
  }

  /** The only program that writes segment `g` of rank `d`. */
  function Writer(cfg: Config, d: nat, g: nat): (nat, nat)
    requires cfg.local > 0
  {
    if Local(cfg, d) == Local(cfg, g) then (g, d)
    else (Rank(cfg, Node(cfg, d), Local(cfg, g)), Rank(cfg, Node(cfg, g), Local(cfg, d)))
  }

  lemma RankSplit(cfg: Config, rank: nat)
    requires cfg.local > 0
    ensures Rank(cfg, Node(cfg, rank), Local(cfg, rank)) == rank && Local(cfg, rank) < cfg.local
    ensures rank < World(cfg) <==> Node(cfg, rank) < cfg.nodes
  {
    QuotRem(rank, cfg.local);
    MulStep(Node(cfg, rank), cfg.nodes, cfg.local);
    if cfg.nodes <= Node(cfg, rank) { MulMono(cfg.nodes, Node(cfg, rank), cfg.local); }
  }

  lemma RankMake(cfg: Config, node: nat, local: nat)
    requires local < cfg.local
    ensures var rank := Rank(cfg, node, local);
      Node(cfg, rank) == node && Local(cfg, rank) == local && (node < cfg.nodes ==> rank < World(cfg))
  {
    QuotRemOf(node, local, cfg.local);
    RankSplit(cfg, Rank(cfg, node, local));
  }

  /** Where a program sends, and that no other program sends there. */
  lemma ProgramSends(cfg: Config, r: nat, pid: nat)
    requires Program(cfg, r, pid)
    ensures var d, g := Dst(cfg, r, pid), Seg(cfg, r, pid);
      d < World(cfg) && g < World(cfg) && d != g && d != r && Writer(cfg, d, g) == (r, pid)
    ensures !Forwards(cfg, r, pid) ==> Seg(cfg, r, pid) == r
  {
    RankSplit(cfg, r);
    RankSplit(cfg, pid);
    RankMake(cfg, Node(cfg, pid), Local(cfg, r));
    RankMake(cfg, Node(cfg, r), Local(cfg, pid));
    hide Rank, Node, Local, World;
  }

  /** What a program sends where, in the kernel's own numbers. */
  lemma SendsWhere(cfg: Config, r: nat, pid: nat)
    requires Program(cfg, r, pid)
    ensures r % cfg.local == pid % cfg.local ==>
      Dst(cfg, r, pid) == pid && Seg(cfg, r, pid) == r && !Forwards(cfg, r, pid)
    ensures r % cfg.local != pid % cfg.local ==>
      && Dst(cfg, r, pid) == r / cfg.local * cfg.local + pid % cfg.local
      && Seg(cfg, r, pid) == pid / cfg.local * cfg.local + r % cfg.local
      && (Forwards(cfg, r, pid) <==> pid / cfg.local != r / cfg.local)
  {
    QuotRem(r, cfg.local);
    QuotRem(pid, cfg.local);
    RankSplit(cfg, pid);
    hide Quot, Rem, World;
  }

  /** Every foreign segment of every rank has exactly one writer. */
  lemma WriterIsUnique(cfg: Config, d: nat, g: nat)
    requires cfg.local > 0 && d < World(cfg) && g < World(cfg) && d != g
    ensures var w := Writer(cfg, d, g);
      && Program(cfg, w.0, w.1) && Dst(cfg, w.0, w.1) == d && Seg(cfg, w.0, w.1) == g
      && forall r: nat, pid: nat ::
           Program(cfg, r, pid) && Dst(cfg, r, pid) == d && Seg(cfg, r, pid) == g ==> (r, pid) == w
  {
    RankSplit(cfg, d);
    RankSplit(cfg, g);
    RankMake(cfg, Node(cfg, d), Local(cfg, g));
    RankMake(cfg, Node(cfg, g), Local(cfg, d));
    forall r: nat, pid: nat | Program(cfg, r, pid) && Dst(cfg, r, pid) == d && Seg(cfg, r, pid) == g
      ensures (r, pid) == Writer(cfg, d, g)
    {
      ProgramSends(cfg, r, pid);
    }
    hide Rank, Node, Local, World;
  }

  /** A forwarded segment comes straight from the rank that owns it. */
  lemma ForwardedFrom(cfg: Config, r: nat, pid: nat)
    requires Program(cfg, r, pid) && Forwards(cfg, r, pid)
    ensures var g := Seg(cfg, r, pid);
      Program(cfg, g, r) && !Forwards(cfg, g, r) && Dst(cfg, g, r) == r && Seg(cfg, g, r) == g
  {
    RankSplit(cfg, r);
    RankSplit(cfg, pid);
    RankMake(cfg, Node(cfg, pid), Local(cfg, r));
    hide Rank, Node, Local, World;
  }

  /** On one node the two-level kernel is the one-level kernel: each program sends its rank's
      own segment to the rank of its program id, and none waits. */
  lemma OneNode(cfg: Config, r: nat, pid: nat)
    requires Program(cfg, r, pid) && cfg.nodes == 1
    ensures Dst(cfg, r, pid) == pid && Seg(cfg, r, pid) == r && !Forwards(cfg, r, pid) && !CrossNode(cfg, r, pid)
  {
    RankSplit(cfg, r);
    RankSplit(cfg, pid);
  }

  /** Flag `g` is set by a put, waited for before forwarding, or waited for at the end of a call. */
  ghost predicate FlagUsed(cfg: Config, g: nat)
    requires cfg.local > 0
  {
    || (exists r: nat, pid: nat :: Program(cfg, r, pid) && Seg(cfg, r, pid) == g)
    || (exists r: nat :: Awaits(cfg, r, g))
  }

  /** Thread g of the waiting program of rank r waits for segment g. */
  ghost predicate Awaits(cfg: Config, r: nat, g: nat) {
    r < World(cfg) && g < World(cfg) && g != r
  }

  /** The flag array needs a cell per rank, unless there is only one rank. */
  lemma FlagArraySize(cfg: Config, cells: nat)
    requires cfg.local > 0
    ensures (forall g: nat :: FlagUsed(cfg, g) ==> g < cells) <==> cells >= World(cfg) || World(cfg) <= 1
  {
    hide World, Seg;
    forall g: nat | FlagUsed(cfg, g) ensures g < World(cfg) && World(cfg) > 1 {
      if r: nat, pid: nat :| Program(cfg, r, pid) && Seg(cfg, r, pid) == g { ProgramSends(cfg, r, pid); }
    }
    if World(cfg) > 1 {
      assert Awaits(cfg, 0, World(cfg) - 1);
      assert FlagUsed(cfg, World(cfg) - 1);
    }
  }

  // ----- State -----

  /** A sending program of one call.  A put first reads its source, then writes the
      destination, then sets the flag there; it is `Issued` until it has read its source. */
  datatype Prog<T> = Start | Ready | Issued | Carrying(data: T) | Landed | Signalled

  /** `begun(r)` and `ended(r)` count the calls rank r has begun and ended; calls are numbered
      from 1.  `seen(n, r, g)`: in call n at rank r the thread that waits for segment g has
      passed.  `prog(n, r, pid)` is a program of call n.  `flag(r, h, g)` and `buf(r, h, g)`
      are the flag and the content of segment g in half h of rank r's memory. */
  datatype State<T> = State(begun: nat -> nat, ended: nat -> nat,
                            seen: (nat, nat, nat) -> bool, prog: (nat, nat, nat) -> Prog<T>,
                            flag: (nat, nat, nat) -> int, buf: (nat, nat, nat) -> T)

  function SignalValue(cfg: Config, n: nat): nat {
    cfg.base + n
  }

  /** The flags of a call are those of its signal value's parity. */
  function FlagHalf(cfg: Config, n: nat): nat {
    SignalValue(cfg, n) % 2
  }

  /** The buffer of a call is picked before the signal value is bumped. */
  function BufHalf(cfg: Config, n: nat): nat
    requires n > 0
  {
    (SignalValue(cfg, n) - 1) % 2
  }

  predicate Running<T>(s: State<T>, r: nat) {
    s.ended(r) < s.begun(r)
  }

  /** A program has returned: its put has been issued and, unless it is of the kind that does
      not block, has read its source. */
  predicate Returned<T>(cfg: Config, r: nat, pid: nat, p: Prog<T>)
    requires cfg.local > 0
  {
    p.Carrying? || p.Landed? || p.Signalled? || (CrossNode(cfg, r, pid) && p.Issued?)
  }

  // ----- Steps -----

  datatype Step =
    | Begin(r: nat)
    | PassWait(r: nat, pid: nat)
    | Issue(r: nat, pid: nat)
    | Capture(n: nat, r: nat, pid: nat)
    | Land(n: nat, r: nat, pid: nat)
    | Signal(n: nat, r: nat, pid: nat)
    | See(r: nat, g: nat)
    | End(r: nat)

  ghost predicate CanStep<T>(cfg: Config, s: State<T>, step: Step) {
    cfg.local > 0 &&
    match step
    case Begin(r) => r < World(cfg) && !Running(s, r)
    case PassWait(r, pid) =>
      && Program(cfg, r, pid) && Running(s, r) && Forwards(cfg, r, pid) && s.prog(s.begun(r), r, pid).Start?
      && s.flag(r, FlagHalf(cfg, s.begun(r)), Seg(cfg, r, pid)) == SignalValue(cfg, s.begun(r))
    case Issue(r, pid) =>
      && Program(cfg, r, pid) && Running(s, r)
      && var p := s.prog(s.begun(r), r, pid); p.Ready? || (!Forwards(cfg, r, pid) && p.Start?)
    case Capture(n, r, pid) => n > 0 && Program(cfg, r, pid) && s.prog(n, r, pid).Issued?
    case Land(n, r, pid) => n > 0 && Program(cfg, r, pid) && s.prog(n, r, pid).Carrying?
    case Signal(n, r, pid) => n > 0 && Program(cfg, r, pid) && s.prog(n, r, pid).Landed?
    case See(r, g) =>
      && Awaits(cfg, r, g) && Running(s, r) && !s.seen(s.begun(r), r, g)
      && s.flag(r, FlagHalf(cfg, s.begun(r)), g) == SignalValue(cfg, s.begun(r))
    case End(r) =>
      && r < World(cfg) && Running(s, r)
      && (forall pid: nat :: Program(cfg, r, pid) ==> Returned(cfg, r, pid, s.prog(s.begun(r), r, pid)))
      && (forall g: nat :: g < World(cfg) && g != r ==> s.seen(s.begun(r), r, g))
  }

  /** `data(n, r)` is what rank r contributes to its n-th call; the caller writes it to the
      rank's own segment before the call. */
  ghost function Next<T>(cfg: Config, data: (nat, nat) -> T, s: State<T>, step: Step): State<T>
    requires CanStep(cfg, s, step)
  {
    match step
    case Begin(r) =>
      var n := s.begun(r) + 1;
      s.(begun := Put1<nat>(s.begun, r, n), buf := Put3(s.buf, r, BufHalf(cfg, n), r, data(n, r)))
    case PassWait(r, pid) => s.(prog := Put3(s.prog, s.begun(r), r, pid, Ready))
    case Issue(r, pid) => s.(prog := Put3(s.prog, s.begun(r), r, pid, Issued))
    case Capture(n, r, pid) =>
      s.(prog := Put3(s.prog, n, r, pid, Carrying(s.buf(r, BufHalf(cfg, n), Seg(cfg, r, pid)))))
    case Land(n, r, pid) =>
      s.(prog := Put3(s.prog, n, r, pid, Landed),
         buf := Put3(s.buf, Dst(cfg, r, pid), BufHalf(cfg, n), Seg(cfg, r, pid), s.prog(n, r, pid).data))
    case Signal(n, r, pid) =>
      s.(prog := Put3(s.prog, n, r, pid, Signalled),
         flag := Put3(s.flag, Dst(cfg, r, pid), FlagHalf(cfg, n), Seg(cfg, r, pid), SignalValue(cfg, n)))
    case See(r, g) => s.(seen := Put3(s.seen, s.begun(r), r, g, true))
    case End(r) => s.(ended := Put1<nat>(s.ended, r, s.begun(r)))
  }

  ghost predicate Initial<T>(cfg: Config, s: State<T>) {
    && cfg.local > 0
    && (forall r: nat :: s.begun(r) == 0 && s.ended(r) == 0)
    && (forall n: nat, r: nat, g: nat :: !s.seen(n, r, g))
    && (forall n: nat, r: nat, pid: nat :: s.prog(n, r, pid) == Start)
    && (forall r: nat, h: nat, g: nat :: s.flag(r, h, g) <= cfg.base)
  }

  // ----- Invariant -----

  /** No rank ends a call that some rank has not begun. */
  ghost predicate Calls<T>(cfg: Config, s: State<T>) {
    && (forall r: nat :: r < World(cfg) ==> s.ended(r) <= s.begun(r) <= s.ended(r) + 1)
    && (forall r: nat, q: nat :: r < World(cfg) && q < World(cfg) ==> s.ended(r) <= s.begun(q))
  }

  /** What holds of the program (r, pid) of call n, which sends segment g to rank d. */
  ghost predicate Message<T>(cfg: Config, data: (nat, nat) -> T, s: State<T>, n: nat, r: nat, pid: nat, d: nat, g: nat)
    requires cfg.local > 0 && n > 0
  {
    var p := s.prog(n, r, pid);
    && (n > s.begun(r) ==> p == Start)
    && (n <= s.ended(r) ==> Returned(cfg, r, pid, p))
    && (n <= s.ended(d) ==> s.seen(n, d, g))
    && (s.seen(n, d, g) ==> p == Signalled)
    && (Forwards(cfg, r, pid) && p != Start ==> s.prog(n, g, r) == Signalled)
    && (p == Ready ==> Forwards(cfg, r, pid))
    && (p.Carrying? ==> p.data == data(n, g))
    && ((p == Landed || p == Signalled) && s.begun(r) <= n + 1 ==> s.buf(d, BufHalf(cfg, n), g) == data(n, g))
    && (p == Signalled ==> s.flag(d, FlagHalf(cfg, n), g) >= SignalValue(cfg, n))
  }

  ghost predicate Messages<T>(cfg: Config, data: (nat, nat) -> T, s: State<T>)
    requires cfg.local > 0
  {
    forall n: nat, r: nat, pid: nat :: n > 0 && Program(cfg, r, pid) ==>
      Message(cfg, data, s, n, r, pid, Dst(cfg, r, pid), Seg(cfg, r, pid))
  }

  /** A flag holds an old value or that of a call whose put has arrived. */
  ghost predicate Flag<T>(cfg: Config, s: State<T>, r: nat, pid: nat, d: nat, g: nat, h: nat) {
    var m := s.flag(d, h, g) - cfg.base;
    m > 0 ==> FlagHalf(cfg, m) == h && s.prog(m, r, pid) == Signalled
  }

  ghost predicate Flags<T>(cfg: Config, s: State<T>)
    requires cfg.local > 0
  {
    forall r: nat, pid: nat, h: nat ::
      Program(cfg, r, pid) ==> Flag(cfg, s, r, pid, Dst(cfg, r, pid), Seg(cfg, r, pid), h)
  }

  ghost predicate Own<T>(cfg: Config, data: (nat, nat) -> T, s: State<T>, r: nat, n: nat)
    requires n > 0
  {
    n <= s.begun(r) <= n + 1 ==> s.buf(r, BufHalf(cfg, n), r) == data(n, r)
  }

  ghost predicate Owns<T>(cfg: Config, data: (nat, nat) -> T, s: State<T>) {
    forall r: nat, n: nat :: r < World(cfg) && n > 0 ==> Own(cfg, data, s, r, n)
  }

  ghost predicate Inv<T>(cfg: Config, data: (nat, nat) -> T, s: State<T>) {
    cfg.local > 0 && Calls(cfg, s) && Messages(cfg, data, s) && Flags(cfg, s) && Owns(cfg, data, s)
  }

  lemma InitialInv<T>(cfg: Config, data: (nat, nat) -> T, s: State<T>)
    requires Initial(cfg, s)
    ensures Inv(cfg, data, s)
  {
    hide Dst, Seg, Forwards, CrossNode, FlagHalf, BufHalf, World;
  }

  /** Once some rank has begun call n + 2, every put of call n has arrived. */
  lemma Settled<T>(cfg: Config, data: (nat, nat) -> T, s: State<T>, n: nat, late: nat, r: nat, pid: nat)
    requires Inv(cfg, data, s) && n > 0 && late < World(cfg) && s.begun(late) >= n + 2 && Program(cfg, r, pid)
    ensures s.prog(n, r, pid) == Signalled
  {
    ProgramSends(cfg, r, pid);
    hide Dst, Seg, Forwards, CrossNode, FlagHalf, BufHalf, World, Writer;
    assert Message(cfg, data, s, n, r, pid, Dst(cfg, r, pid), Seg(cfg, r, pid));
  }

  // ----- Every step keeps the invariant -----

  /** The facts about one program that its proofs use. */
  lemma About<T>(cfg: Config, data: (nat, nat) -> T, s: State<T>, n: nat, r: nat, pid: nat)
    requires Inv(cfg, data, s) && n > 0 && Program(cfg, r, pid)
    ensures var d, g := Dst(cfg, r, pid), Seg(cfg, r, pid);
      && d < World(cfg) && g < World(cfg) && d != g && Writer(cfg, d, g) == (r, pid)
      && Message(cfg, data, s, n, r, pid, d, g)
      && (!Forwards(cfg, r, pid) ==> g == r)
      && (Forwards(cfg, r, pid) ==>
            Program(cfg, g, r) && Dst(cfg, g, r) == r && Seg(cfg, g, r) == g && Message(cfg, data, s, n, g, r, r, g))
  {
    ProgramSends(cfg, r, pid);
    if Forwards(cfg, r, pid) { ForwardedFrom(cfg, r, pid); }
    hide Dst, Seg, Forwards, CrossNode, FlagHalf, BufHalf, World, Writer, Message, Flag, Program, Calls, Owns;
  }

  /** A flag with the call's value means that the call's put has arrived. */
  lemma Arrived<T>(cfg: Config, data: (nat, nat) -> T, s: State<T>, n: nat, r: nat, pid: nat)
    requires Inv(cfg, data, s) && n > 0 && Program(cfg, r, pid)
    requires s.flag(Dst(cfg, r, pid), FlagHalf(cfg, n), Seg(cfg, r, pid)) == SignalValue(cfg, n)
    ensures s.prog(n, r, pid) == Signalled
  {
    hide Dst, Seg, Forwards, CrossNode, BufHalf, FlagHalf, World, Writer, Message, Program, Calls, Owns;
    assert Flag(cfg, s, r, pid, Dst(cfg, r, pid), Seg(cfg, r, pid), FlagHalf(cfg, n));
  }

  lemma NobodyAhead<T>(cfg: Config, data: (nat, nat) -> T, s: State<T>, n: nat, r: nat, pid: nat, q: nat)
    requires Inv(cfg, data, s) && n > 0 && Program(cfg, r, pid) && s.prog(n, r, pid) != Signalled && q < World(cfg)
    ensures s.begun(q) <= n + 1
  {
    hide Dst, Seg, Forwards, CrossNode, FlagHalf, BufHalf, World, Inv, Program;
    if s.begun(q) >= n + 2 {
      Settled(cfg, data, s, n, q, r, pid);
    }
  }

  /** A segment that has been seen comes from a rank that has begun the call. */
  lemma SeenIsBegun<T>(cfg: Config, data: (nat, nat) -> T, s: State<T>, n: nat, d: nat, g: nat)
    requires Inv(cfg, data, s) && n > 0 && d < World(cfg) && g < World(cfg) && d != g && s.seen(n, d, g)
    ensures s.begun(g) >= n
  {
    WriterIsUnique(cfg, d, g);
    var w := Writer(cfg, d, g);
    About(cfg, data, s, n, w.0, w.1);
    hide Dst, Seg, Forwards, CrossNode, FlagHalf, BufHalf, World, Writer, Inv, Flag;
  }

  /** What a put reads is the segment of its own call. */
  lemma SourceHolds<T>(cfg: Config, data: (nat, nat) -> T, s: State<T>, n: nat, r: nat, pid: nat)
    requires Inv(cfg, data, s) && n > 0 && Program(cfg, r, pid) && s.prog(n, r, pid).Issued?
    ensures s.buf(r, BufHalf(cfg, n), Seg(cfg, r, pid)) == data(n, Seg(cfg, r, pid))
  {
    About(cfg, data, s, n, r, pid);
    var g := Seg(cfg, r, pid);
    if s.begun(g) >= n + 2 { Settled(cfg, data, s, n, g, r, pid); }
    assert Own(cfg, data, s, r, n);
    hide Dst, Seg, Forwards, CrossNode, FlagHalf, BufHalf, World, Writer, Inv, Flag;
  }

  lemma CallsKept<T>(cfg: Config, data: (nat, nat) -> T, s: State<T>, step: Step)
    requires Inv(cfg, data, s) && CanStep(cfg, s, step)
    ensures Calls(cfg, Next(cfg, data, s, step))
  {
    if step.End? {
      var n := s.begun(step.r);
      forall g: nat | g < World(cfg) ensures s.begun(g) >= n {
        if g != step.r { SeenIsBegun(cfg, data, s, n, step.r, g); }
      }
    }
    hide Dst, Seg, Forwards, CrossNode, FlagHalf, BufHalf, World, Writer, Messages, Flags, Owns;
  }

  /** Two calls that share a half are at least two calls apart. */
  lemma Halves(cfg: Config, m: nat, n: nat)
    requires m > 0 && n > 0
    ensures BufHalf(cfg, m) == BufHalf(cfg, n) <==> FlagHalf(cfg, m) == FlagHalf(cfg, n)
    ensures FlagHalf(cfg, m) == FlagHalf(cfg, n) ==> m == n || m >= n + 2 || n >= m + 2
  {
  }

  lemma BeginKeeps<T>(cfg: Config, data: (nat, nat) -> T, s: State<T>, r0: nat, n: nat, r: nat, pid: nat)
    requires Inv(cfg, data, s) && CanStep(cfg, s, Begin(r0)) && n > 0 && Program(cfg, r, pid)
    ensures Message(cfg, data, Next(cfg, data, s, Begin(r0)), n, r, pid, Dst(cfg, r, pid), Seg(cfg, r, pid))
  {
    About(cfg, data, s, n, r, pid);
    hide Dst, Seg, Forwards, CrossNode, FlagHalf, BufHalf, World, Writer, Inv, Flag, Program;
  }

  lemma PassWaitKeeps<T>(cfg: Config, data: (nat, nat) -> T, s: State<T>, r0: nat, pid0: nat, n: nat, r: nat, pid: nat)
    requires Inv(cfg, data, s) && CanStep(cfg, s, PassWait(r0, pid0)) && n > 0 && Program(cfg, r, pid)
    ensures Message(cfg, data, Next(cfg, data, s, PassWait(r0, pid0)), n, r, pid, Dst(cfg, r, pid), Seg(cfg, r, pid))
  {
    About(cfg, data, s, n, r, pid);
    ForwardedFrom(cfg, r0, pid0);
    Arrived(cfg, data, s, s.begun(r0), Seg(cfg, r0, pid0), r0);
    hide Dst, Seg, Forwards, CrossNode, FlagHalf, BufHalf, World, Writer, Inv, Flag, Program;
  }

  lemma IssueKeeps<T>(cfg: Config, data: (nat, nat) -> T, s: State<T>, r0: nat, pid0: nat, n: nat, r: nat, pid: nat)
    requires Inv(cfg, data, s) && CanStep(cfg, s, Issue(r0, pid0)) && n > 0 && Program(cfg, r, pid)
    ensures Message(cfg, data, Next(cfg, data, s, Issue(r0, pid0)), n, r, pid, Dst(cfg, r, pid), Seg(cfg, r, pid))
  {
    About(cfg, data, s, n, r, pid);
    hide Dst, Seg, Forwards, CrossNode, FlagHalf, BufHalf, World, Writer, Inv, Flag, Program;
  }

  lemma CaptureKeeps<T>(cfg: Config, data: (nat, nat) -> T, s: State<T>, n0: nat, r0: nat, pid0: nat, n: nat, r: nat,
                  pid: nat)
    requires Inv(cfg, data, s) && CanStep(cfg, s, Capture(n0, r0, pid0)) && n > 0 && Program(cfg, r, pid)
    ensures Message(cfg, data, Next(cfg, data, s, Capture(n0, r0, pid0)), n, r, pid, Dst(cfg, r, pid), Seg(cfg, r, pid))
  {
    About(cfg, data, s, n, r, pid);
    SourceHolds(cfg, data, s, n0, r0, pid0);
    hide Dst, Seg, Forwards, CrossNode, FlagHalf, BufHalf, World, Writer, Inv, Flag, Program;
  }

  lemma LandHere<T>(cfg: Config, data: (nat, nat) -> T, s: State<T>, n: nat, r: nat, pid: nat)
    requires Inv(cfg, data, s) && CanStep(cfg, s, Land(n, r, pid))
    ensures Message(cfg, data, Next(cfg, data, s, Land(n, r, pid)), n, r, pid, Dst(cfg, r, pid), Seg(cfg, r, pid))
  {
    About(cfg, data, s, n, r, pid);
    hide Dst, Seg, Forwards, CrossNode, FlagHalf, BufHalf, World, Writer, Inv, Flag, Program;
  }

  /** A put of call n0 that arrives late cannot hit the segment of a later call. */
  lemma LandBuf<T>(cfg: Config, data: (nat, nat) -> T, s: State<T>, n0: nat, r0: nat, pid0: nat, n: nat, r: nat,
                  pid: nat)
    requires Inv(cfg, data, s) && CanStep(cfg, s, Land(n0, r0, pid0)) && n > 0 && Program(cfg, r, pid)
    requires (n, r, pid) != (n0, r0, pid0) && n <= s.begun(r) <= n + 1
    ensures var s', d, g := Next(cfg, data, s, Land(n0, r0, pid0)), Dst(cfg, r, pid), Seg(cfg, r, pid);
      s'.buf(d, BufHalf(cfg, n), g) == s.buf(d, BufHalf(cfg, n), g)
  {
    ProgramSends(cfg, r, pid);
    ProgramSends(cfg, r0, pid0);
    Halves(cfg, n, n0);
    NobodyAhead(cfg, data, s, n0, r0, pid0, r);
    assert Message(cfg, data, s, n0, r0, pid0, Dst(cfg, r0, pid0), Seg(cfg, r0, pid0));
    hide Dst, Seg, Forwards, CrossNode, FlagHalf, BufHalf, World, Writer, Inv, Flag;
  }

  lemma LandKeeps<T>(cfg: Config, data: (nat, nat) -> T, s: State<T>, n0: nat, r0: nat, pid0: nat, n: nat, r: nat,
                  pid: nat)
    requires Inv(cfg, data, s) && CanStep(cfg, s, Land(n0, r0, pid0)) && n > 0 && Program(cfg, r, pid)
    ensures Message(cfg, data, Next(cfg, data, s, Land(n0, r0, pid0)), n, r, pid, Dst(cfg, r, pid), Seg(cfg, r, pid))
  {
    if (n, r, pid) == (n0, r0, pid0) {
      LandHere(cfg, data, s, n, r, pid);
    } else {
      About(cfg, data, s, n, r, pid);
      if n <= s.begun(r) <= n + 1 { LandBuf(cfg, data, s, n0, r0, pid0, n, r, pid); }
      hide Dst, Seg, Forwards, CrossNode, FlagHalf, BufHalf, World, Writer, Inv, Flag, Program;
    }
  }

  /** Signalling a put leaves the flag of every put that has arrived at its call or a later one. */
  lemma SignalAside<T>(cfg: Config, data: (nat, nat) -> T, s: State<T>, n0: nat, r0: nat, pid0: nat, n: nat, r: nat,
                  pid: nat)
    requires Inv(cfg, data, s) && CanStep(cfg, s, Signal(n0, r0, pid0)) && n > 0 && Program(cfg, r, pid)
    ensures var s', d, g := Next(cfg, data, s, Signal(n0, r0, pid0)), Dst(cfg, r, pid), Seg(cfg, r, pid);
      (s.prog(n, r, pid) == Signalled ==> s'.flag(d, FlagHalf(cfg, n), g) >= SignalValue(cfg, n))
  {
    About(cfg, data, s, n, r, pid);
    ProgramSends(cfg, r0, pid0);
    Halves(cfg, n, n0);
    NobodyAhead(cfg, data, s, n0, r0, pid0, r);
    hide Dst, Seg, Forwards, CrossNode, FlagHalf, BufHalf, World, Writer, Inv, Flag, Program;
  }

  lemma SignalKeeps<T>(cfg: Config, data: (nat, nat) -> T, s: State<T>, n0: nat, r0: nat, pid0: nat, n: nat, r: nat,
                  pid: nat)
    requires Inv(cfg, data, s) && CanStep(cfg, s, Signal(n0, r0, pid0)) && n > 0 && Program(cfg, r, pid)
    ensures Message(cfg, data, Next(cfg, data, s, Signal(n0, r0, pid0)), n, r, pid, Dst(cfg, r, pid), Seg(cfg, r, pid))
  {
    About(cfg, data, s, n, r, pid);
    SignalAside(cfg, data, s, n0, r0, pid0, n, r, pid);
    hide Dst, Seg, Forwards, CrossNode, FlagHalf, BufHalf, World, Writer, Inv, Flag, Program;
    var s' := Next(cfg, data, s, Signal(n0, r0, pid0));
    assert forall a: nat, b: nat, c: nat ::
      s'.prog(a, b, c) == if (a, b, c) == (n0, r0, pid0) then Signalled else s.prog(a, b, c);
    hide Put3;
  }

  lemma SeeKeeps<T>(cfg: Config, data: (nat, nat) -> T, s: State<T>, r0: nat, g0: nat, n: nat, r: nat, pid: nat)
    requires Inv(cfg, data, s) && CanStep(cfg, s, See(r0, g0)) && n > 0 && Program(cfg, r, pid)
    ensures Message(cfg, data, Next(cfg, data, s, See(r0, g0)), n, r, pid, Dst(cfg, r, pid), Seg(cfg, r, pid))
  {
    About(cfg, data, s, n, r, pid);
    if n == s.begun(r0) && Dst(cfg, r, pid) == r0 && Seg(cfg, r, pid) == g0 { Arrived(cfg, data, s, n, r, pid); }
    hide Dst, Seg, Forwards, CrossNode, FlagHalf, BufHalf, World, Writer, Inv, Flag, Program;
  }

  lemma EndKeeps<T>(cfg: Config, data: (nat, nat) -> T, s: State<T>, r0: nat, n: nat, r: nat, pid: nat)
    requires Inv(cfg, data, s) && CanStep(cfg, s, End(r0)) && n > 0 && Program(cfg, r, pid)
    ensures Message(cfg, data, Next(cfg, data, s, End(r0)), n, r, pid, Dst(cfg, r, pid), Seg(cfg, r, pid))
  {
    About(cfg, data, s, n, r, pid);
    assert Calls(cfg, s);
    hide Dst, Seg, Forwards, CrossNode, FlagHalf, BufHalf, World, Writer, Inv, Flag;
  }

  lemma MessagesKept<T>(cfg: Config, data: (nat, nat) -> T, s: State<T>, step: Step)
    requires Inv(cfg, data, s) && CanStep(cfg, s, step)
    ensures Messages(cfg, data, Next(cfg, data, s, step))
  {
    hide Inv, Next, Message, Dst, Seg;
    forall n: nat, r: nat, pid: nat | n > 0 && Program(cfg, r, pid)
      ensures Message(cfg, data, Next(cfg, data, s, step), n, r, pid, Dst(cfg, r, pid), Seg(cfg, r, pid))
    {
      match step
      case Begin(r0) => BeginKeeps(cfg, data, s, r0, n, r, pid);
      case Land(n0, r0, pid0) => LandKeeps(cfg, data, s, n0, r0, pid0, n, r, pid);
      case Signal(n0, r0, pid0) => SignalKeeps(cfg, data, s, n0, r0, pid0, n, r, pid);
      case PassWait(r0, pid0) => PassWaitKeeps(cfg, data, s, r0, pid0, n, r, pid);
      case Issue(r0, pid0) => IssueKeeps(cfg, data, s, r0, pid0, n, r, pid);
      case Capture(n0, r0, pid0) => CaptureKeeps(cfg, data, s, n0, r0, pid0, n, r, pid);
      case See(r0, g0) => SeeKeeps(cfg, data, s, r0, g0, n, r, pid);
      case End(r0) => EndKeeps(cfg, data, s, r0, n, r, pid);
    }
  }

  lemma FlagKept<T>(cfg: Config, data: (nat, nat) -> T, s: State<T>, step: Step, r: nat, pid: nat, h: nat)
    requires Inv(cfg, data, s) && CanStep(cfg, s, step) && Program(cfg, r, pid)
    ensures Flag(cfg, Next(cfg, data, s, step), r, pid, Dst(cfg, r, pid), Seg(cfg, r, pid), h)
  {
    assert Flag(cfg, s, r, pid, Dst(cfg, r, pid), Seg(cfg, r, pid), h);
    if step.Signal? {
      SignalFlagKept(cfg, data, s, step, r, pid, h);
    } else {
      hide Dst, Seg, Forwards, CrossNode, FlagHalf, BufHalf, World, Writer, Inv, Program;
    }
  }

  lemma SignalFlagKept<T>(cfg: Config, data: (nat, nat) -> T, s: State<T>, step: Step, r: nat, pid: nat, h: nat)
    requires Inv(cfg, data, s) && CanStep(cfg, s, step) && step.Signal? && Program(cfg, r, pid)
    requires Flag(cfg, s, r, pid, Dst(cfg, r, pid), Seg(cfg, r, pid), h)
    ensures Flag(cfg, Next(cfg, data, s, step), r, pid, Dst(cfg, r, pid), Seg(cfg, r, pid), h)
  {
    ProgramSends(cfg, r, pid);
    ProgramSends(cfg, step.r, step.pid);
    hide Dst, Seg, Forwards, CrossNode, FlagHalf, BufHalf, World, Writer, Inv, Program;
  }

  lemma FlagsKept<T>(cfg: Config, data: (nat, nat) -> T, s: State<T>, step: Step)
    requires Inv(cfg, data, s) && CanStep(cfg, s, step)
    ensures Flags(cfg, Next(cfg, data, s, step))
  {
    hide Inv, Next, Flag, Dst, Seg;
    forall r: nat, pid: nat, h: nat | Program(cfg, r, pid)
      ensures Flag(cfg, Next(cfg, data, s, step), r, pid, Dst(cfg, r, pid), Seg(cfg, r, pid), h)
    {
      FlagKept(cfg, data, s, step, r, pid, h);
    }
  }

  lemma OwnsKept<T>(cfg: Config, data: (nat, nat) -> T, s: State<T>, step: Step)
    requires Inv(cfg, data, s) && CanStep(cfg, s, step)
    ensures Owns(cfg, data, Next(cfg, data, s, step))
  {
    var s' := Next(cfg, data, s, step);
    forall r: nat, n: nat | r < World(cfg) && n > 0 ensures Own(cfg, data, s', r, n) {
      assert Own(cfg, data, s, r, n);
      if step.Land? { ProgramSends(cfg, step.r, step.pid); }
      if step.Begin? { Halves(cfg, n, s.begun(step.r) + 1); }
      hide Dst, Seg, Forwards, CrossNode, FlagHalf, BufHalf, World, Writer, Inv;
    }
  }

  lemma StepInv<T>(cfg: Config, data: (nat, nat) -> T, s: State<T>, step: Step)
    requires Inv(cfg, data, s) && CanStep(cfg, s, step)
    ensures Inv(cfg, data, Next(cfg, data, s, step))
  {
    CallsKept(cfg, data, s, step);
    MessagesKept(cfg, data, s, step);
    FlagsKept(cfg, data, s, step);
    OwnsKept(cfg, data, s, step);
    hide Calls, Messages, Flags, Owns;
  }

  // ----- Every reachable state -----

  /** A run: each state follows from the one before by one step. */
  ghost predicate IsRun<T(!new)>(cfg: Config, data: (nat, nat) -> T, states: seq<State<T>>, steps: seq<Step>) {
    && |states| == |steps| + 1 && Initial(cfg, states[0])
    && forall k :: 0 <= k < |steps| ==>
      CanStep(cfg, states[k], steps[k]) && states[k + 1] == Next(cfg, data, states[k], steps[k])
  }

  lemma {:induction false} RunInv<T(!new)>(cfg: Config, data: (nat, nat) -> T, states: seq<State<T>>, steps: seq<Step>)
    requires IsRun(cfg, data, states, steps)
    ensures Inv(cfg, data, states[|steps|])
    decreases |steps|
  {
    var n := |steps| - 1;
    hide Inv, CanStep, Next, Initial;
    if steps == [] {
      InitialInv(cfg, data, states[0]);
    } else {
      RunInv(cfg, data, states[..n + 1], steps[..n]);
      StepInv(cfg, data, states[n], steps[n]);
    }
  }

  /** Double buffering is safe: no rank begins call n + 2 before every rank has ended call n and
      begun call n + 1. */
  lemma TwoCallsApart<T>(cfg: Config, data: (nat, nat) -> T, s: State<T>, r: nat, q: nat, n: nat)
    requires Inv(cfg, data, s) && r < World(cfg) && q < World(cfg) && s.begun(r) >= n + 2
    ensures s.begun(q) >= n + 1 && s.ended(q) >= n
  {
  }

  /** No equality wait misses its value: while rank d runs call n, the flag of a segment that
      has arrived holds exactly the call's signal value. */
  lemma WaitHits<T>(cfg: Config, data: (nat, nat) -> T, s: State<T>, n: nat, r: nat, pid: nat)
    requires Inv(cfg, data, s) && n > 0 && Program(cfg, r, pid) && s.prog(n, r, pid) == Signalled
    requires s.begun(Dst(cfg, r, pid)) == n
    ensures s.flag(Dst(cfg, r, pid), (cfg.base + n) % 2, Seg(cfg, r, pid)) == cfg.base + n
  {
    About(cfg, data, s, n, r, pid);
    var d, g := Dst(cfg, r, pid), Seg(cfg, r, pid);
    assert Flag(cfg, s, r, pid, d, g, FlagHalf(cfg, n));
    var m: nat := s.flag(d, FlagHalf(cfg, n), g) - cfg.base;
    Halves(cfg, m, n);
    assert Message(cfg, data, s, m, r, pid, d, g);
    assert Calls(cfg, s);
    assert FlagHalf(cfg, n) == (cfg.base + n) % 2;
    hide Dst, Seg, Forwards, CrossNode, FlagHalf, BufHalf, World, Writer, Inv;
  }

  /** From the end of a rank's n-th call until it begins another, its buffer of that call, the one
      of the signal value's parity before the call, holds every rank's segment. */
  lemma Gathered<T>(cfg: Config, data: (nat, nat) -> T, s: State<T>, d: nat, g: nat, n: nat)
    requires Inv(cfg, data, s) && d < World(cfg) && g < World(cfg) && n > 0
    requires s.ended(d) == n && s.begun(d) == n
    ensures s.buf(d, (cfg.base + n - 1) % 2, g) == data(n, g)
  {
    assert BufHalf(cfg, n) == (cfg.base + n - 1) % 2;
    if d == g {
      assert Own(cfg, data, s, d, n);
    } else {
      WriterIsUnique(cfg, d, g);
      var w := Writer(cfg, d, g);
      About(cfg, data, s, n, w.0, w.1);
      assert s.ended(w.0) <= s.begun(d) && s.begun(w.0) <= s.ended(w.0) + 1;
    }
    hide Dst, Seg, Forwards, CrossNode, FlagHalf, BufHalf, World, Writer, Inv;
  }

  /** No program forwards a segment before it has it. */
  lemma ForwarderHasSegment<T>(cfg: Config, data: (nat, nat) -> T, s: State<T>, n: nat, r: nat, pid: nat)
    requires Inv(cfg, data, s) && n > 0 && Program(cfg, r, pid) && s.prog(n, r, pid).Issued?
    ensures s.buf(r, BufHalf(cfg, n), Seg(cfg, r, pid)) == data(n, Seg(cfg, r, pid))
    ensures Forwards(cfg, r, pid) ==> s.prog(n, Seg(cfg, r, pid), r) == Signalled
  {
    SourceHolds(cfg, data, s, n, r, pid);
    About(cfg, data, s, n, r, pid);
  }

  // ----- No state is stuck -----

  /** A program whose turn has come can step. */
  lemma ProgramMoves<T>(cfg: Config, data: (nat, nat) -> T, s: State<T>, n: nat, r: nat, pid: nat) returns (step: Step)
    requires Inv(cfg, data, s) && n > 0 && Program(cfg, r, pid) && s.prog(n, r, pid) != Signalled && s.begun(r) >= n
    requires Forwards(cfg, r, pid) ==> s.prog(n, Seg(cfg, r, pid), r) == Signalled
    ensures !step.Begin? && CanStep(cfg, s, step)
  {
    About(cfg, data, s, n, r, pid);
    assert s.ended(r) <= s.begun(r) <= s.ended(r) + 1;
    var p := s.prog(n, r, pid);
    if p.Start? && Forwards(cfg, r, pid) && s.begun(r) == n { WaitHits(cfg, data, s, n, Seg(cfg, r, pid), r); }
    hide Dst, Seg, Forwards, CrossNode, FlagHalf, BufHalf, World, Writer, Inv;
    step :=
      match p
      case Start => if Forwards(cfg, r, pid) then PassWait(r, pid) else Issue(r, pid)
      case Ready => Issue(r, pid)
      case Issued => Capture(n, r, pid)
      case Carrying(_) => Land(n, r, pid)
      case _ => Signal(n, r, pid);
  }

  /** When all puts of its call have arrived, a running rank can finish its waits and end. */
  lemma RankMoves<T>(cfg: Config, data: (nat, nat) -> T, s: State<T>, q: nat) returns (step: Step)
    requires Inv(cfg, data, s) && q < World(cfg) && Running(s, q)
    requires forall r: nat, pid: nat :: Program(cfg, r, pid) ==> s.prog(s.begun(q), r, pid) == Signalled
    ensures !step.Begin? && CanStep(cfg, s, step)
  {
    var n := s.begun(q);
    if g: nat :| g < World(cfg) && g != q && !s.seen(n, q, g) {
      WriterIsUnique(cfg, q, g);
      WaitHits(cfg, data, s, n, Writer(cfg, q, g).0, Writer(cfg, q, g).1);
      step := See(q, g);
    } else {
      step := End(q);
    }
  }

  /** A rank that has ended the fewest calls. */
  lemma {:induction false} Slowest<T>(s: State<T>, w: nat) returns (q: nat)
    requires w > 0
    ensures q < w && forall r: nat :: r < w ==> s.ended(q) <= s.ended(r)
  {
    q := w - 1;
    if w > 1 {
      var p := Slowest(s, w - 1);
      if s.ended(p) < s.ended(q) { q := p; }
    }
  }

  /** No reachable state is stuck: as long as some rank has not ended its `limit` calls, some
      program, put or rank can step, and no rank has to begin more than `limit` calls for it. */
  lemma NeverStuck<T(!new)>(cfg: Config, data: (nat, nat) -> T, s: State<T>, limit: nat) returns (step: Step)
    requires Inv(cfg, data, s) && exists r: nat :: r < World(cfg) && s.ended(r) < limit
    ensures CanStep(cfg, s, step) && (step.Begin? ==> s.begun(step.r) < limit)
  {
    var q := Slowest(s, World(cfg));
    var n := s.ended(q) + 1;
    assert forall r: nat :: r < World(cfg) ==> s.ended(q) <= s.ended(r) <= s.begun(r) <= s.ended(r) + 1;
    if r: nat :| r < World(cfg) && s.begun(r) < n {
      step := Begin(r);
    } else if r: nat, pid: nat :| Program(cfg, r, pid) && s.prog(n, r, pid) != Signalled && !Forwards(cfg, r, pid) {
      step := ProgramMoves(cfg, data, s, n, r, pid);
    } else if r: nat, pid: nat :| Program(cfg, r, pid) && s.prog(n, r, pid) != Signalled {
      ForwardedFrom(cfg, r, pid);
      step := ProgramMoves(cfg, data, s, n, r, pid);
    } else {
      step := RankMoves(cfg, data, s, q);
    }
  }

  /** The flag of every segment that has arrived is the one that its rank waits for. */
  lemma FlagsMatch<T(!new)>(cfg: Config, data: (nat, nat) -> T, s: State<T>)
    requires Inv(cfg, data, s)
    ensures cfg.local > 0 && forall n: nat, r: nat, pid: nat ::
      n > 0 && Program(cfg, r, pid) && s.prog(n, r, pid) == Signalled && s.begun(Dst(cfg, r, pid)) == n ==>
        s.flag(Dst(cfg, r, pid), (cfg.base + n) % 2, Seg(cfg, r, pid)) == cfg.base + n
  {
    assert cfg.local > 0;
    hide Inv, Dst, Seg, FlagHalf, BufHalf;
    forall n: nat, r: nat, pid: nat
      | n > 0 && Program(cfg, r, pid) && s.prog(n, r, pid) == Signalled && s.begun(Dst(cfg, r, pid)) == n
      ensures s.flag(Dst(cfg, r, pid), (cfg.base + n) % 2, Seg(cfg, r, pid)) == cfg.base + n
    {
      WaitHits(cfg, data, s, n, r, pid);
    }
  }

  /** Every put that has not read its source yet will find the segment of its call there. */
  lemma SourcesHold<T(!new)>(cfg: Config, data: (nat, nat) -> T, s: State<T>)
    requires Inv(cfg, data, s)
    ensures cfg.local > 0 && forall n: nat, r: nat, pid: nat ::
      n > 0 && Program(cfg, r, pid) && s.prog(n, r, pid).Issued? ==>
        s.buf(r, BufHalf(cfg, n), Seg(cfg, r, pid)) == data(n, Seg(cfg, r, pid))
  {
    assert cfg.local > 0;
    hide Inv, Dst, Seg, FlagHalf, BufHalf;
    forall n: nat, r: nat, pid: nat | n > 0 && Program(cfg, r, pid) && s.prog(n, r, pid).Issued?
      ensures s.buf(r, BufHalf(cfg, n), Seg(cfg, r, pid)) == data(n, Seg(cfg, r, pid))
    {
      ForwarderHasSegment(cfg, data, s, n, r, pid);
    }
  }

  /** Whatever the interleaving of ranks, programs and puts, over any number of calls: a rank
      between two calls holds every rank's segment of the last one, ranks are never two calls
      apart, no wait misses its value, no program sends a segment before it has it, and no run
      gets stuck before every rank has ended any number of calls. */
  lemma EveryRun<T(!new)>(cfg: Config, data: (nat, nat) -> T, states: seq<State<T>>, steps: seq<Step>, limit: nat)
    requires IsRun(cfg, data, states, steps)
    ensures var s := states[|steps|];
      && cfg.local > 0
      && (forall n: nat, r: nat, pid: nat ::
            n > 0 && Program(cfg, r, pid) && s.prog(n, r, pid) == Signalled && s.begun(Dst(cfg, r, pid)) == n ==>
              s.flag(Dst(cfg, r, pid), (cfg.base + n) % 2, Seg(cfg, r, pid)) == cfg.base + n)
      && (forall n: nat, r: nat, pid: nat :: n > 0 && Program(cfg, r, pid) && s.prog(n, r, pid).Issued? ==>
            s.buf(r, BufHalf(cfg, n), Seg(cfg, r, pid)) == data(n, Seg(cfg, r, pid)))
      && (forall d: nat, g: nat :: d < World(cfg) && g < World(cfg) && s.ended(d) == s.begun(d) > 0 ==>
            s.buf(d, (cfg.base + s.begun(d) - 1) % 2, g) == data(s.begun(d), g))
      && (forall r: nat, q: nat :: r < World(cfg) && q < World(cfg) ==> s.begun(r) <= s.ended(q) + 2)
      && ((exists r: nat :: r < World(cfg) && s.ended(r) < limit) ==>
            exists step :: CanStep(cfg, s, step) && (step.Begin? ==> s.begun(step.r) < limit))
  {
    RunInv(cfg, data, states, steps);
    var s := states[|steps|];
    FlagsMatch(cfg, data, s);
    SourcesHold(cfg, data, s);
    hide IsRun, CanStep, Inv, BufHalf, Dst, Seg, Program;
    forall d: nat, g: nat | d < World(cfg) && g < World(cfg) && s.ended(d) == s.begun(d) > 0
      ensures s.buf(d, (cfg.base + s.begun(d) - 1) % 2, g) == data(s.begun(d), g)
    {
      Gathered(cfg, data, s, d, g, s.begun(d));
    }
    forall r: nat, q: nat | r < World(cfg) && q < World(cfg) ensures s.begun(r) <= s.ended(q) + 2 {
      if s.begun(r) >= 2 { TwoCallsApart(cfg, data, s, r, q, s.begun(r) - 2); }
    }
    if exists r: nat :: r < World(cfg) && s.ended(r) < limit { var step := NeverStuck(cfg, data, s, limit); }
  }
}
