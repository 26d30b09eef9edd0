/** The mutex pool against a reference: a stack of buffer sizes. Idle buffers are zeroed, so their sizes
    are all that distinguishes them. */
module StandardPoolStack {
  import opened Bytes
  import opened Buffers
  import opened StandardPool
  import opened Runs
  import opened Sums

  /** The sizes of the idle buffers, the last of which goes first, and the live buffers. */
  datatype Stack = Stack(idle: seq<nat>, live: seq<Buf>)

  function Repeat(x: nat, n: nat): (r: seq<nat>)
    ensures |r| == n && forall i :: 0 <= i < n ==> r[i] == x
  {
    seq(n, _ => x)
  }

  predicate CanStep(s: Stack, e: Event) {
    match e
    case Drop(i) => i < |s.live|
    case Leak(i) => i < |s.live|
    case DropNow(i) => i < |s.live|
    case Use(i, _) => i < |s.live|
    case _ => true
  }

  function StackStep(s: Stack, e: Event, c: PoolConfigs.Config): Stack
    requires CanStep(s, e)
  {
    match e
    case Acquire =>
      if s.idle == [] then s.(live := s.live + [New(c.bufferSize)])
      else Stack(s.idle[..|s.idle| - 1], s.live + [New(s.idle[|s.idle| - 1])])
    case Drop(i) =>
      Stack(if |s.idle| < c.maxPool then s.idle + [|s.live[i].data|] else s.idle, Without(s.live, i))
    case Leak(i) => s.(live := Without(s.live, i))
    case DropNow(i) => s.(live := Without(s.live, i))
    case Use(i, content) => s.(live := s.live[i := content])
    case Shrink => if |s.idle| <= c.minPool then s else s.(idle := s.idle[..c.minPool])
    case Clear => s.(idle := [])
    case Grow(target) => s.(idle := s.idle + Repeat(c.bufferSize, Excess(Min(target, c.maxPool), |s.idle|)))
  }

  function Sizes(bs: seq<Buf>): (r: seq<nat>)
    ensures |r| == |bs| && forall i :: 0 <= i < |bs| ==> r[i] == |bs[i].data|
  {
    seq(|bs|, i requires 0 <= i < |bs| => |bs[i].data|)
  }

  function Abs(w: World): Stack {
    Stack(Sizes(w.pool.buffers), w.live)
  }

  /** One critical section: the pool still stands for the stack. */
  lemma StepRefines(w: World, e: Event)
    requires IdleClean(w.pool) && Possible(w, e)
    ensures Abs(Next(w, e)) == StackStep(Abs(w), e, w.pool.config)
  {
    var bs := w.pool.buffers;
    var w' := Next(w, e);
    match e
    case Acquire =>
      if bs != [] {
        CleanIsNew(bs[|bs| - 1]);
        assert Sizes(bs[..|bs| - 1]) == Sizes(bs)[..|bs| - 1];
      }
    case Drop(i) =>
      assert Sizes(bs + [w.live[i].Burn()]) == Sizes(bs) + [|w.live[i].data|];
    case Shrink => assert Sizes(w'.pool.buffers) == Sizes(bs)[..|w'.pool.buffers|];
    case Clear =>
    case Grow(target) =>
      var n := Excess(Min(target, w.pool.config.maxPool), |bs|);
      assert Sizes(w'.pool.buffers) == Sizes(bs) + Repeat(w.pool.config.bufferSize, n);
    case _ =>
  }

  ghost function StackRun(s: Stack, es: seq<Event>, c: PoolConfigs.Config): Stack
    decreases |es|
  {
    if es == [] || !CanStep(s, es[0]) then s else StackRun(StackStep(s, es[0], c), es[1..], c)
  }

  lemma {:induction false} RunRefines(w: World, es: seq<Event>)
    requires Ledger(w) && Valid(PoolSystem(), w, es)
    ensures Abs(After(PoolSystem(), w, es)) == StackRun(Abs(w), es, w.pool.config)
    decreases |es|
  {
    if es != [] {
      StepRefines(w, es[0]);
      LedgerKept(w, es[0]);
      RunRefines(Next(w, es[0]), es[1..]);
    }
  }

  /** After every sequence of critical sections the pool stands for the stack: which buffers are idle, in
      what order, of what size, and what was handed out. */
  lemma PoolRefinesStack(c: PoolConfigs.Config, es: seq<Event>, w: World)
    requires Reaches(c, es, w)
    ensures Abs(w) == StackRun(Stack(Repeat(c.bufferSize, c.minPool), []), es, c)
  {
    assert Sizes(Start(c).pool.buffers) == Repeat(c.bufferSize, c.minPool);
    RunRefines(Start(c), es);
  }
}
