/** ClientPool: a bounded pool of clients shared by threads, as the interleaved steps of Pop, Push and Remove.

    A client is known by the number of its allocation. What happens under the mutex is one step; Pop releases the
    mutex while it waits and before it connects. Pushing a client back after a failed connect happens
    without the mutex in the source and is one step here. */
module ClientPool {
  type Client = nat

  /** A thread: not in Pop, waiting for a client with the mutex released, or connecting the client it took. */
  datatype Thread = Free | Waiting | Connecting(client: Client)

  /** `held` are the clients that Pop took or made and that were neither pushed back nor removed. */
  datatype Pool = Pool(
    idle: seq<Client>, curr: int, min: int, max: int,
    threads: seq<Thread>, held: set<Client>, made: nat)

  datatype Step =
    | Take(t: nat) | Create(t: nat) | CreateFails(t: nat) | Wait(t: nat) | TakeAfterWait(t: nat) | Timeout(t: nat)
    | Connects(t: nat) | ConnectFails(t: nat) | Push(client: Client) | Remove(client: Client)

  /** In the hands of a caller, and not of Pop any more. */
  predicate Lent(p: Pool, c: Client) {
    c in p.held && Connecting(c) !in p.threads
  }

  predicate Enabled(p: Pool, e: Step) {
    match e
    case Take(t) => t < |p.threads| && p.threads[t].Free? && p.idle != []
    case Create(t) => t < |p.threads| && p.threads[t].Free? && p.idle == [] && p.curr < p.max
    case CreateFails(t) => t < |p.threads| && p.threads[t].Free? && p.idle == [] && p.curr < p.max
    case Wait(t) => t < |p.threads| && p.threads[t].Free? && p.idle == [] && p.curr >= p.max
    case TakeAfterWait(t) => t < |p.threads| && p.threads[t].Waiting? && p.idle != []
    case Timeout(t) => t < |p.threads| && p.threads[t].Waiting? && p.idle == []
    case Connects(t) => t < |p.threads| && p.threads[t].Connecting?
    case ConnectFails(t) => t < |p.threads| && p.threads[t].Connecting?
    case Push(c) => Lent(p, c)
    case Remove(c) => Lent(p, c)
  }

  function Next(p: Pool, e: Step): Pool
    requires Enabled(p, e)
  {
    match e
    case Take(t) => Taken(p, t)
    case Create(t) =>
      p.(threads := p.threads[t := Connecting(p.made)], held := p.held + {p.made}, made := p.made + 1, curr := p.curr + 1)
    case CreateFails(t) => p
    case Wait(t) => p.(threads := p.threads[t := Waiting])
    case TakeAfterWait(t) => Taken(p, t)
    case Timeout(t) => p.(threads := p.threads[t := Free])
    case Connects(t) => p.(threads := p.threads[t := Free])
    case ConnectFails(t) =>
      var c := p.threads[t].client;
      p.(threads := p.threads[t := Free], idle := p.idle + [c], held := p.held - {c})
    case Push(c) => p.(idle := p.idle + [c], held := p.held - {c})
    case Remove(c) => p.(held := p.held - {c}, curr := p.curr - 1)
  }

  /** The front of the deque, for thread `t` to connect. */
  function Taken(p: Pool, t: nat): Pool
    requires t < |p.threads| && p.idle != []
  {
    p.(idle := p.idle[1..], threads := p.threads[t := Connecting(p.idle[0])], held := p.held + {p.idle[0]})
  }

  /** The constructor: the loop makes min clients, none if min is negative; the count is set to min. */
  function New(min: int, max: int, threads: nat): Pool {
    var n := if min > 0 then min else 0;
    Pool(seq(n, i => i), min, min, max, seq(threads, _ => Free), {}, n)
  }

  predicate Runs(p: Pool, es: seq<Step>)
    decreases |es|
  {
    es == [] || (Enabled(p, es[0]) && Runs(Next(p, es[0]), es[1..]))
  }

  function After(p: Pool, es: seq<Step>): Pool
    requires Runs(p, es)
    decreases |es|
  {
    if es == [] then p else After(Next(p, es[0]), es[1..])
  }

  /** No client twice: not idle twice, not idle and held, not connected by two threads. */
  predicate NoneTwice(p: Pool) {
    && (forall i, j :: 0 <= i < j < |p.idle| ==> p.idle[i] != p.idle[j])
    && (forall i :: 0 <= i < |p.idle| ==> p.idle[i] !in p.held && p.idle[i] < p.made)
    && (forall c :: c in p.held ==> c < p.made)
    && (forall t :: 0 <= t < |p.threads| && p.threads[t].Connecting? ==> p.threads[t].client in p.held)
    && (forall t, u :: 0 <= t < u < |p.threads| && p.threads[t].Connecting? ==> p.threads[t] != p.threads[u])
  }

  function Clients(p: Pool): nat {
    |p.idle| + |p.held|
  }

  /** The count is the number of clients, but for what a negative min took off it. */
  predicate Counted(p: Pool) {
    p.curr == Clients(p) + (if p.min < 0 then p.min else 0) && (p.curr <= p.min || p.curr <= p.max)
  }

  predicate Good(p: Pool) {
    NoneTwice(p) && Counted(p)
  }

  lemma NewGood(min: int, max: int, threads: nat)
    ensures Good(New(min, max, threads))
  {
  }

  lemma NoneTwiceKept(p: Pool, e: Step)
    requires NoneTwice(p) && Enabled(p, e)
    ensures NoneTwice(Next(p, e))
  {
    if e.Push? || e.Remove? {
      assert forall t :: 0 <= t < |p.threads| && p.threads[t].Connecting? ==> p.threads[t].client != e.client;
    }
  }

  lemma CountKept(p: Pool, e: Step)
    requires NoneTwice(p) && Counted(p) && Enabled(p, e)
    ensures Counted(Next(p, e))
  {
  }

  /** Conservation, in every interleaving. */
  lemma {:induction false} Conserved(p: Pool, es: seq<Step>)
    requires Good(p) && Runs(p, es)
    ensures Good(After(p, es)) && After(p, es).min == p.min && After(p, es).max == p.max
    decreases |es|
  {
    if es != [] {
      hide Counted, NoneTwice;
      NoneTwiceKept(p, es[0]);
      CountKept(p, es[0]);
      Conserved(Next(p, es[0]), es[1..]);
    }
  }

  /** In every interleaving no client is handed out twice, and the count is the number of idle and held
      clients exactly when min is not negative. */
  lemma PoolConserved(min: int, max: int, threads: nat, es: seq<Step>)
    requires Runs(New(min, max, threads), es)
    ensures var p := After(New(min, max, threads), es);
            NoneTwice(p) && (p.curr == Clients(p) <==> min >= 0) && (min <= max ==> p.curr <= max)
  {
    NewGood(min, max, threads);
    Conserved(New(min, max, threads), es);
  }

  lemma {:induction false} RunsOn(p: Pool, es: seq<Step>, fs: seq<Step>)
    requires Runs(p, es) && Runs(After(p, es), fs)
    ensures Runs(p, es + fs) && After(p, es + fs) == After(After(p, es), fs)
    decreases |es|
  {
    if es == [] {
      assert es + fs == fs;
    } else {
      assert (es + fs)[0] == es[0] && (es + fs)[1..] == es[1..] + fs;
      RunsOn(Next(p, es[0]), es[1..], fs);
    }
  }

  lemma OneMore(p: Pool) returns (es: seq<Step>)
    requires Good(p) && |p.threads| > 0 && p.threads[0].Free? && p.idle == [] && p.curr < p.max
    ensures Runs(p, es)
    ensures var q := After(p, es);
            |q.threads| == |p.threads| && q.threads[0].Free? && q.idle == [] && q.curr == p.curr + 1
  {
    es := [Create(0), Connects(0)];
    var q := Next(p, Create(0));
    assert es[1..] == [Connects(0)] && es[1..][1..] == [];
    assert Runs(Next(q, Connects(0)), es[1..][1..]);
    assert Runs(q, es[1..]);
    assert After(p, es) == After(q, es[1..]);
  }

  /** With a negative min one thread alone can bring the count up to max. */
  lemma {:induction false} Grow(min: int, max: int, threads: nat, k: nat) returns (es: seq<Step>)
    requires min < 0 && min + k <= max && threads > 0
    ensures Runs(New(min, max, threads), es)
    ensures var p := After(New(min, max, threads), es);
            |p.threads| == threads && p.threads[0].Free? && p.idle == [] && p.curr == min + k
    decreases k
  {
    var p := New(min, max, threads);
    if k == 0 {
      es := [];
    } else {
      es := Grow(min, max, threads, k - 1);
      NewGood(min, max, threads);
      Conserved(p, es);
      hide Runs, After, Good;
      var fs := OneMore(After(p, es));
      RunsOn(p, es, fs);
      es := es + fs;
    }
  }

  ghost predicate StaysWithin(min: int, max: int, threads: nat) {
    forall es :: Runs(New(min, max, threads), es) ==> Clients(After(New(min, max, threads), es)) <= max
  }

  /** The pool never has more than max clients exactly when 0 <= min <= max. */
  lemma BoundExactly(min: int, max: int, threads: nat)
    requires threads > 0
    ensures StaysWithin(min, max, threads) <==> 0 <= min <= max
  {
    var p := New(min, max, threads);
    NewGood(min, max, threads);
    if 0 <= min <= max {
      forall es | Runs(p, es) ensures Clients(After(p, es)) <= max { Conserved(p, es); }
    } else if min < 0 <= max {
      var es := Grow(min, max, threads, max - min);
      Conserved(p, es);
      assert Clients(After(p, es)) > max;
    } else {
      assert Runs(p, []) && After(p, []) == p && Clients(p) > max;
    }
  }
}
