/**
 * The futures of the vines demo: a deferred call is queued with the address
 * of its creation point, and `finishAllFutures` keeps picking a queued
 * future, by the current policy, and running it until none is left.
 *
 * A future stands for its closure by an identifier, its address and its
 * depth. What running a future does is a parameter: the futures its body
 * creates, which are queued in order. The random index the two uniform
 * policies and the depth-weighted one draw is a parameter too.
 */
module VinesFutures {
  import opened Wrappers

  // ---------------------------------------------------------------------
  // Addresses

  /** `a.split('_')`: the pieces between underscores, the first and last possibly empty. */
  function Split(a: string): (r: seq<string>)
    ensures |r| >= 1
  {
    if a == [] then [""]
    else
      var init := Split(a[..|a| - 1]);
      if a[|a| - 1] == '_' then init + [""]
      else init[..|init| - 1] + [init[|init| - 1] + [a[|a| - 1]]]
  }

  /** The pieces joined back with underscores. */
  function Join(pieces: seq<string>): string
    requires |pieces| >= 1
  {
    if |pieces| == 1 then pieces[0] else Join(pieces[..|pieces| - 1]) + "_" + pieces[|pieces| - 1]
  }

  function Underscores(a: string): nat {
    if a == [] then 0 else Underscores(a[..|a| - 1]) + (if a[|a| - 1] == '_' then 1 else 0)
  }

  /** Splitting gives one more piece than there are underscores, no piece holds one, and joining the pieces gives the address back. */
  lemma {:induction false} SplitJoin(a: string)
    ensures |Split(a)| == Underscores(a) + 1
    ensures forall i :: 0 <= i < |Split(a)| ==> '_' !in Split(a)[i]
    ensures Join(Split(a)) == a
  {
    if a != [] {
      var b, c := a[..|a| - 1], a[|a| - 1];
      assert a == b + [c];
      SplitJoin(b);
      if c == '_' {
        SplitJoinUnderscore(b);
      } else {
        SplitJoinOther(b, c);
      }
    }
  }

  /** An address ending in an underscore: a new empty piece, given the pieces of the rest. */
  lemma {:induction false} SplitJoinUnderscore(b: string)
    requires |Split(b)| == Underscores(b) + 1
    requires forall i :: 0 <= i < |Split(b)| ==> '_' !in Split(b)[i]
    requires Join(Split(b)) == b
    ensures |Split(b + "_")| == Underscores(b + "_") + 1
    ensures forall i :: 0 <= i < |Split(b + "_")| ==> '_' !in Split(b + "_")[i]
    ensures Join(Split(b + "_")) == b + "_"
  {
    var a := b + "_";
    assert a[..|a| - 1] == b;
    var init := Split(b);
    assert Split(a) == init + [""];
    assert (init + [""])[..|init|] == init;
  }

  /** An address ending in another character: it joins the last piece, given the pieces of the rest. */
  lemma {:induction false} SplitJoinOther(b: string, c: char)
    requires c != '_'
    requires |Split(b)| == Underscores(b) + 1
    requires forall i :: 0 <= i < |Split(b)| ==> '_' !in Split(b)[i]
    requires Join(Split(b)) == b
    ensures |Split(b + [c])| == Underscores(b + [c]) + 1
    ensures forall i :: 0 <= i < |Split(b + [c])| ==> '_' !in Split(b + [c])[i]
    ensures Join(Split(b + [c])) == b + [c]
  {
    var a := b + [c];
    assert a[..|a| - 1] == b && a[|a| - 1] == c;
    var init := Split(b);
    var r := init[..|init| - 1] + [init[|init| - 1] + [c]];
    assert Split(a) == r;
    assert Underscores(a) == Underscores(b);
    forall i | 0 <= i < |r|
      ensures '_' !in r[i]
    {
      if i < |init| - 1 {
        assert r[i] == init[i];
      } else {
        assert r[i] == init[i] + [c];
      }
    }
    JoinExtendLast(init, c);
  }

  /** A character added to the last piece is added to the end of the joined pieces. */
  lemma {:induction false} JoinExtendLast(pieces: seq<string>, c: char)
    requires |pieces| >= 1
    ensures Join(pieces[..|pieces| - 1] + [pieces[|pieces| - 1] + [c]]) == Join(pieces) + [c]
  {
    var pre := pieces[..|pieces| - 1];
    var last := pieces[|pieces| - 1];
    var r := pre + [last + [c]];
    assert r[..|r| - 1] == pre && r[|r| - 1] == last + [c];
    if |pieces| > 1 {
      assert Join(pieces) == Join(pre) + "_" + last;
      assert Join(r) == Join(pre) + "_" + (last + [c]);
    }
  }

  // ---------------------------------------------------------------------
  // The queue

  datatype Future = Future(id: nat, addr: string, depth: nat)

  /** The closure `makeFuture` builds for a call at address a: its depth is the number of address pieces. */
  function NewFuture(id: nat, a: string): (f: Future)
    ensures f.addr == a && f.depth == Underscores(a) + 1
  {
    SplitJoin(a);
    Future(id, a, |Split(a)|)
  }

  datatype Policy = Immediate | Lifo | Fifo | UniformFromAll | UniformFromDeepest | DepthWeighted

  /** The store fields the futures use: `__futures` and `__futurePolicy`, each possibly undefined. */
  datatype Store = Store(futures: Option<seq<Future>>, policy: Option<Policy>)

  function Queued(s: Store): seq<Future> {
    if s.futures.Some? then s.futures.value else []
  }

  /** `makeFuture`: a new list, the old one with f appended; the old list itself is left as it was. */
  function MakeFuture(s: Store, f: Future): (r: Store)
    ensures r.futures.Some? && Queued(r) == Queued(s) + [f] && r.policy == s.policy
  {
    s.(futures := Some(Queued(s) + [f]))
  }

  /** Queuing keeps every earlier future at its place and adds exactly one. */
  lemma {:induction false} MakeFutureExtends(s: Store, f: Future)
    ensures |Queued(MakeFuture(s, f))| == |Queued(s)| + 1
    ensures Queued(MakeFuture(s, f))[..|Queued(s)|] == Queued(s)
    ensures multiset(Queued(MakeFuture(s, f))) == multiset(Queued(s)) + multiset{f}
  {
    assert Queued(MakeFuture(s, f)) == Queued(s) + [f];
  }

  /** The policy names `setFuturePolicy` accepts. */
  function PolicyNamed(name: string): (r: Option<Policy>)
    ensures r.Some? <==> name in {"immediate", "lifo", "fifo", "uniformFromAll", "uniformFromDeepest", "depthWeighted"}
  {
    if name == "immediate" then Some(Immediate)
    else if name == "lifo" then Some(Lifo)
    else if name == "fifo" then Some(Fifo)
    else if name == "uniformFromAll" then Some(UniformFromAll)
    else if name == "uniformFromDeepest" then Some(UniformFromDeepest)
    else if name == "depthWeighted" then Some(DepthWeighted)
    else None
  }

  /** `setFuturePolicy`: an error for an unknown name, else the store with that policy. */
  function SetFuturePolicy(s: Store, name: string): (r: Result<Store>)
    ensures r.Err? <==> PolicyNamed(name).None?
    ensures r.Err? ==> r.msg == "no future policy named " + name
    ensures r.Ok? ==> r.value == s.(policy := PolicyNamed(name))
  {
    match PolicyNamed(name)
    case None => Err("no future policy named " + name)
    case Some(p) => Ok(s.(policy := Some(p)))
  }

  /** `ensurePolicy`: a store without a policy gets the immediate one; otherwise nothing changes. */
  function EnsurePolicy(s: Store): (r: Store)
    ensures r.policy.Some? && r.futures == s.futures
    ensures s.policy.None? ==> r.policy == Some(Immediate)
    ensures s.policy.Some? ==> r == s
  {
    if s.policy.None? then s.(policy := Some(Immediate)) else s
  }

  /** What `future` does with a call: the immediate policy runs it at once, every other policy queues it. */
  datatype Scheduled = RunNow(s: Store) | Queue(s: Store)

  function ScheduleFuture(s: Store, f: Future): (r: Scheduled)
    ensures EnsurePolicy(s).policy == Some(Immediate) <==> r.RunNow?
    ensures r.RunNow? ==> r.s == EnsurePolicy(s)
    ensures r.Queue? ==> r.s == MakeFuture(EnsurePolicy(s), f)
  {
    var s' := EnsurePolicy(s);
    if s'.policy == Some(Immediate) then RunNow(s') else Queue(MakeFuture(s', f))
  }

  /** Ensuring a policy twice is ensuring it once, and the queue is never touched. */
  lemma {:induction false} EnsurePolicyIdempotent(s: Store)
    ensures EnsurePolicy(EnsurePolicy(s)) == EnsurePolicy(s)
    ensures Queued(EnsurePolicy(s)) == Queued(s)
  {
  }

  /** `future` either leaves the queue as it was or puts the call at its end, never anything else. */
  lemma {:induction false} ScheduleFutureQueues(s: Store, f: Future)
    ensures Queued(ScheduleFuture(s, f).s) == Queued(s) + (if ScheduleFuture(s, f).Queue? then [f] else [])
    ensures ScheduleFuture(s, f).s.policy.Some?
  {
  }

  /**
   * After `setFuturePolicy(name)` succeeds, `ensurePolicy` keeps that policy,
   * and `future` queues a call exactly when the name is not `immediate`.
   */
  lemma {:induction false} PolicyIsKept(s: Store, name: string, f: Future)
    requires SetFuturePolicy(s, name).Ok?
    ensures EnsurePolicy(SetFuturePolicy(s, name).value) == SetFuturePolicy(s, name).value
    ensures ScheduleFuture(SetFuturePolicy(s, name).value, f).Queue? <==> name != "immediate"
  {
  }

  // ---------------------------------------------------------------------
  // Choosing

  /** The largest depth among fs, starting from 0 as the `Math.max` loop does. */
  function MaxDepth(fs: seq<Future>): (m: nat)
    ensures forall i :: 0 <= i < |fs| ==> fs[i].depth <= m
    ensures |fs| > 0 ==> exists i :: 0 <= i < |fs| && fs[i].depth == m
  {
    if fs == [] then 0
    else
      var m := MaxDepth(fs[..|fs| - 1]);
      var d := fs[|fs| - 1].depth;
      assert forall i :: 0 <= i < |fs| - 1 ==> fs[i] == fs[..|fs| - 1][i];
      if d > m then d else m
  }

  /** The futures of maximum depth, in queue order. */
  function Deepest(fs: seq<Future>, m: nat): (r: seq<Future>)
    ensures forall f :: f in r <==> f in fs && f.depth == m
  {
    if fs == [] then []
    else
      var init := Deepest(fs[..|fs| - 1], m);
      var last := fs[|fs| - 1];
      assert fs == fs[..|fs| - 1] + [last];
      init + (if last.depth == m then [last] else [])
  }

  /** Some future has the maximum depth, so there is always one to choose when the queue is not empty. */
  lemma {:induction false} DeepestNonEmpty(fs: seq<Future>)
    requires |fs| > 0
    ensures |Deepest(fs, MaxDepth(fs))| > 0
  {
    var i :| 0 <= i < |fs| && fs[i].depth == MaxDepth(fs);
    assert fs[i] in Deepest(fs, MaxDepth(fs));
  }

  /**
   * The future a queueing policy picks from a non-empty queue: lifo the
   * last, fifo the first, and the random policies the candidate at the drawn
   * index (taken modulo the number of candidates).
   */
  function Choose(p: Policy, fs: seq<Future>, draw: nat): (f: Future)
    requires |fs| > 0 && p != Immediate
    ensures f in fs
  {
    match p
    case Lifo => fs[|fs| - 1]
    case Fifo => fs[0]
    case UniformFromAll => fs[draw % |fs|]
    case DepthWeighted => fs[draw % |fs|]
    case UniformFromDeepest =>
      var deepest := Deepest(fs, MaxDepth(fs));
      DeepestNonEmpty(fs);
      assert deepest[draw % |deepest|] in deepest;
      deepest[draw % |deepest|]
  }

  /** uniformFromDeepest only ever picks a future of maximum depth. */
  lemma {:induction false} ChooseDeepest(fs: seq<Future>, draw: nat)
    requires |fs| > 0
    ensures Choose(UniformFromDeepest, fs, draw).depth == MaxDepth(fs)
    ensures forall g :: g in fs ==> g.depth <= Choose(UniformFromDeepest, fs, draw).depth
  {
    var deepest := Deepest(fs, MaxDepth(fs));
    DeepestNonEmpty(fs);
    assert deepest[draw % |deepest|] in deepest;
  }

  /** Every future of maximum depth can be the one uniformFromDeepest picks. */
  lemma {:induction false} DeepestReachable(fs: seq<Future>, j: nat)
    requires j < |fs| && fs[j].depth == MaxDepth(fs)
    ensures exists draw: nat :: Choose(UniformFromDeepest, fs, draw) == fs[j]
  {
    var deepest := Deepest(fs, MaxDepth(fs));
    assert fs[j] in deepest;
    var k :| 0 <= k < |deepest| && deepest[k] == fs[j];
    ModSmall(k, |deepest|);
    assert Choose(UniformFromDeepest, fs, k) == deepest[k % |deepest|];
  }

  lemma {:induction false} ModSmall(k: nat, n: nat)
    requires k < n
    ensures k % n == k
  {
  }

  /** The first index holding f, as `indexOf` finds it. */
  function IndexOf(fs: seq<Future>, f: Future): (i: nat)
    requires f in fs
    ensures i < |fs| && fs[i] == f && forall j :: 0 <= j < i ==> fs[j] != f
  {
    if fs[0] == f then 0 else IndexOf(fs[1..], f) + 1
  }

  /** `slice` then `splice(i, 1)`: a copy of the queue without the chosen future. */
  function Remove(fs: seq<Future>, f: Future): (r: seq<Future>)
    requires f in fs
    ensures |r| == |fs| - 1 && multiset(r) + multiset{f} == multiset(fs)
  {
    var i := IndexOf(fs, f);
    assert fs == fs[..i] + [f] + fs[i + 1..];
    fs[..i] + fs[i + 1..]
  }

  /** Futures are distinct closures, so removing the future at position i removes exactly that position. */
  lemma {:induction false} RemoveAt(fs: seq<Future>, i: nat)
    requires i < |fs| && forall j, k :: 0 <= j < k < |fs| ==> fs[j].id != fs[k].id
    ensures Remove(fs, fs[i]) == fs[..i] + fs[i + 1..]
  {
    var k := IndexOf(fs, fs[i]);
    assert k == i;
  }

  // ---------------------------------------------------------------------
  // finishAllFutures

  /** One turn of `finishAllFutures`: the chosen future is taken out of a copy of the queue, then run, queuing what its body creates. */
  function Turn(p: Policy, fs: seq<Future>, draw: nat, spawn: Future -> seq<Future>): seq<Future>
    requires |fs| > 0 && p != Immediate
  {
    var f := Choose(p, fs, draw);
    Remove(fs, f) + spawn(f)
  }

  /** The queue after running turns with the given draws, stopping once it is empty. */
  function Drain(p: Policy, fs: seq<Future>, draws: seq<nat>, spawn: Future -> seq<Future>): seq<Future>
    requires p != Immediate
    decreases |draws|
  {
    if fs == [] || draws == [] then fs else Drain(p, Turn(p, fs, draws[0], spawn), draws[1..], spawn)
  }

  /** The futures run, in order, by those turns. */
  function Ran(p: Policy, fs: seq<Future>, draws: seq<nat>, spawn: Future -> seq<Future>): seq<Future>
    requires p != Immediate
    decreases |draws|
  {
    if fs == [] || draws == [] then []
    else [Choose(p, fs, draws[0])] + Ran(p, Turn(p, fs, draws[0], spawn), draws[1..], spawn)
  }

  /** A turn with the first draw, then the rest: how both functions unfold on a non-empty queue. */
  lemma {:induction false} DrainUnfold(p: Policy, fs: seq<Future>, draws: seq<nat>, spawn: Future -> seq<Future>)
    requires p != Immediate && |fs| > 0 && |draws| > 0
    ensures Drain(p, fs, draws, spawn) == Drain(p, Turn(p, fs, draws[0], spawn), draws[1..], spawn)
    ensures Ran(p, fs, draws, spawn) == [Choose(p, fs, draws[0])] + Ran(p, Turn(p, fs, draws[0], spawn), draws[1..], spawn)
  {
  }

  lemma {:induction false} Associative<T>(a: seq<T>, b: seq<T>, c: seq<T>)
    ensures (a + b) + c == a + (b + c)
  {
  }

  /** The turn with draw i, then the draws after it. */
  lemma {:induction false} DrainAt(p: Policy, fs: seq<Future>, draws: seq<nat>, i: nat, spawn: Future -> seq<Future>)
    requires p != Immediate && |fs| > 0 && i < |draws|
    ensures Drain(p, fs, draws[i..], spawn) == Drain(p, Turn(p, fs, draws[i], spawn), draws[i + 1..], spawn)
    ensures Ran(p, fs, draws[i..], spawn) == [Choose(p, fs, draws[i])] + Ran(p, Turn(p, fs, draws[i], spawn), draws[i + 1..], spawn)
  {
    assert draws[i..][0] == draws[i] && draws[i..][1..] == draws[i + 1..];
    DrainUnfold(p, fs, draws[i..], spawn);
  }

  /** An empty queue, or no draws left: nothing more runs. */
  lemma {:induction false} DrainDone(p: Policy, fs: seq<Future>, draws: seq<nat>, spawn: Future -> seq<Future>)
    requires p != Immediate && (fs == [] || draws == [])
    ensures Drain(p, fs, draws, spawn) == fs && Ran(p, fs, draws, spawn) == []
  {
  }

  /** Draining that runs fewer futures than there are draws has emptied the queue. */
  lemma {:induction false} DrainStopsEarlyOnlyWhenEmpty(p: Policy, fs: seq<Future>, draws: seq<nat>, spawn: Future -> seq<Future>)
    requires p != Immediate
    ensures |Ran(p, fs, draws, spawn)| < |draws| ==> Drain(p, fs, draws, spawn) == []
    decreases |draws|
  {
    if fs != [] && draws != [] {
      DrainUnfold(p, fs, draws, spawn);
      DrainStopsEarlyOnlyWhenEmpty(p, Turn(p, fs, draws[0], spawn), draws[1..], spawn);
    }
  }

  /** When no future creates others, draining runs each queued future exactly once and leaves the queue empty, given a draw per future. */
  lemma {:induction false} DrainRunsAll(p: Policy, fs: seq<Future>, draws: seq<nat>, spawn: Future -> seq<Future>)
    requires p != Immediate && |draws| >= |fs|
    requires forall f :: spawn(f) == []
    ensures Drain(p, fs, draws, spawn) == []
    ensures multiset(Ran(p, fs, draws, spawn)) == multiset(fs)
    decreases |fs|
  {
    if fs != [] {
      DrainRunsAll(p, Remove(fs, Choose(p, fs, draws[0])), draws[1..], spawn);
      DrainRunsAllStep(p, fs, draws, spawn);
    }
  }

  /** One turn of draining with nothing spawned, given what the rest of the draws do to the queue without the chosen future. */
  lemma {:induction false} DrainRunsAllStep(p: Policy, fs: seq<Future>, draws: seq<nat>, spawn: Future -> seq<Future>)
    requires p != Immediate && |fs| > 0 && |draws| > 0
    requires forall f :: spawn(f) == []
    requires Drain(p, Remove(fs, Choose(p, fs, draws[0])), draws[1..], spawn) == []
    requires multiset(Ran(p, Remove(fs, Choose(p, fs, draws[0])), draws[1..], spawn)) == multiset(Remove(fs, Choose(p, fs, draws[0])))
    ensures Drain(p, fs, draws, spawn) == []
    ensures multiset(Ran(p, fs, draws, spawn)) == multiset(fs)
  {
    var f := Choose(p, fs, draws[0]);
    var rest := Remove(fs, f);
    assert spawn(f) == [];
    assert Turn(p, fs, draws[0], spawn) == rest + [] == rest;
    DrainUnfold(p, fs, draws, spawn);
    assert multiset(Ran(p, fs, draws, spawn)) == multiset{f} + multiset(Ran(p, rest, draws[1..], spawn));
  }

  /** Under lifo with nothing spawned, futures run last-queued first. */
  lemma {:induction false} LifoRunsReversed(fs: seq<Future>, draws: seq<nat>, spawn: Future -> seq<Future>)
    requires |draws| >= |fs| && forall f :: spawn(f) == []
    requires forall j, k :: 0 <= j < k < |fs| ==> fs[j].id != fs[k].id
    ensures |Ran(Lifo, fs, draws, spawn)| == |fs|
    ensures forall i :: 0 <= i < |fs| ==> Ran(Lifo, fs, draws, spawn)[i] == fs[|fs| - 1 - i]
  {
    if fs != [] {
      var init := fs[..|fs| - 1];
      assert forall j, k :: 0 <= j < k < |init| ==> init[j].id != init[k].id by {
        assert forall j :: 0 <= j < |init| ==> init[j] == fs[j];
      }
      LifoRunsReversed(init, draws[1..], spawn);
      LifoRunsReversedStep(fs, init, draws, spawn);
    }
  }

  /** One lifo turn with nothing spawned runs the last future, given the order the rest of the queue runs in. */
  lemma {:induction false} LifoRunsReversedStep(fs: seq<Future>, init: seq<Future>, draws: seq<nat>, spawn: Future -> seq<Future>)
    requires |fs| > 0 && |draws| > 0 && forall f :: spawn(f) == []
    requires forall j, k :: 0 <= j < k < |fs| ==> fs[j].id != fs[k].id
    requires init == fs[..|fs| - 1] && |Ran(Lifo, init, draws[1..], spawn)| == |init|
    requires forall i :: 0 <= i < |init| ==> Ran(Lifo, init, draws[1..], spawn)[i] == init[|init| - 1 - i]
    ensures |Ran(Lifo, fs, draws, spawn)| == |fs|
    ensures forall i :: 0 <= i < |fs| ==> Ran(Lifo, fs, draws, spawn)[i] == fs[|fs| - 1 - i]
  {
    LifoTurn(fs, init, draws[0], spawn);
    DrainUnfold(Lifo, fs, draws, spawn);
    var r := Ran(Lifo, init, draws[1..], spawn);
    assert Ran(Lifo, fs, draws, spawn) == [fs[|fs| - 1]] + r;
    forall i | 0 <= i < |fs|
      ensures Ran(Lifo, fs, draws, spawn)[i] == fs[|fs| - 1 - i]
    {
      if i > 0 {
        assert Ran(Lifo, fs, draws, spawn)[i] == r[i - 1] == init[|fs| - 1 - i];
      }
    }
  }

  /** A lifo turn with nothing spawned takes the last future off the queue. */
  lemma {:induction false} LifoTurn(fs: seq<Future>, init: seq<Future>, draw: nat, spawn: Future -> seq<Future>)
    requires |fs| > 0 && spawn(fs[|fs| - 1]) == [] && init == fs[..|fs| - 1]
    requires forall j, k :: 0 <= j < k < |fs| ==> fs[j].id != fs[k].id
    ensures Choose(Lifo, fs, draw) == fs[|fs| - 1] && Turn(Lifo, fs, draw, spawn) == init
  {
    RemoveAt(fs, |fs| - 1);
    assert fs[..|fs| - 1] + fs[|fs|..] == init;
    assert Turn(Lifo, fs, draw, spawn) == init + [];
  }

  /** Under fifo with nothing spawned, futures run in the order they were queued. */
  lemma {:induction false} FifoRunsInOrder(fs: seq<Future>, draws: seq<nat>, spawn: Future -> seq<Future>)
    requires |draws| >= |fs| && forall f :: spawn(f) == []
    ensures Ran(Fifo, fs, draws, spawn) == fs
  {
    if fs != [] {
      assert Turn(Fifo, fs, draws[0], spawn) == fs[1..];
      FifoRunsInOrder(fs[1..], draws[1..], spawn);
    }
  }

  /** One turn: take the chosen future off the queue, run it, and queue what its body creates. */
  method RunTurn(p: Policy, fs: seq<Future>, draw: nat, spawn: Future -> seq<Future>) returns (queue: seq<Future>, fut: Future)
    requires p != Immediate && |fs| > 0
    ensures fut == Choose(p, fs, draw) && queue == Turn(p, fs, draw, spawn)
  {
    fut := Choose(p, fs, draw);
    queue := Remove(fs, fut);
    queue := queue + spawn(fut);
  }

  /** One pass of the loop below: the turn with draw i, with the futures run so far. */
  method DrainTurn(p: Policy, ghost fs: seq<Future>, queue: seq<Future>, ran: seq<Future>, draws: seq<nat>, i: nat, spawn: Future -> seq<Future>)
    returns (queue': seq<Future>, ran': seq<Future>)
    requires p != Immediate && |queue| > 0 && i < |draws|
    requires Drain(p, queue, draws[i..], spawn) == Drain(p, fs, draws, spawn)
    requires ran + Ran(p, queue, draws[i..], spawn) == Ran(p, fs, draws, spawn)
    ensures |ran'| == |ran| + 1
    ensures Drain(p, queue', draws[i + 1..], spawn) == Drain(p, fs, draws, spawn)
    ensures ran' + Ran(p, queue', draws[i + 1..], spawn) == Ran(p, fs, draws, spawn)
  {
    DrainAt(p, queue, draws, i, spawn);
    var fut;
    queue', fut := RunTurn(p, queue, draws[i], spawn);
    ran' := ran + [fut];
    Associative(ran, [fut], Ran(p, queue', draws[i + 1..], spawn));
  }

  /** The loop `finishAllFutures` runs: one turn per draw until the queue is empty or the draws run out. */
  method DrainQueue(p: Policy, fs: seq<Future>, draws: seq<nat>, spawn: Future -> seq<Future>) returns (queue: seq<Future>, ran: seq<Future>)
    requires p != Immediate
    ensures queue == Drain(p, fs, draws, spawn) && ran == Ran(p, fs, draws, spawn)
    ensures |ran| < |draws| ==> queue == []
  {
    queue := fs;
    ran := [];
    var i := 0;
    while |queue| > 0 && i < |draws|
      invariant 0 <= i <= |draws| && |ran| == i
      invariant Drain(p, queue, draws[i..], spawn) == Drain(p, fs, draws, spawn)
      invariant ran + Ran(p, queue, draws[i..], spawn) == Ran(p, fs, draws, spawn)
      decreases |draws| - i
    {
      queue, ran := DrainTurn(p, fs, queue, ran, draws, i, spawn);
      i := i + 1;
    }
    if queue != [] {
      assert i == |draws| && draws[i..] == [];
    }
    DrainDone(p, queue, draws[i..], spawn);
    assert ran + [] == ran;
    DrainStopsEarlyOnlyWhenEmpty(p, fs, draws, spawn);
  }

  /**
   * `finishAllFutures`: under the immediate policy nothing is queued and
   * nothing happens; otherwise the loop written as a recursive
   * continuation runs turns until the queue is empty. The draws bound the
   * number of turns; when they run out first, the queue is returned as it is.
   */
  method FinishAllFutures(s: Store, draws: seq<nat>, spawn: Future -> seq<Future>) returns (s': Store, ran: seq<Future>)
    ensures EnsurePolicy(s).policy == Some(Immediate) ==> s' == EnsurePolicy(s) && ran == []
    ensures EnsurePolicy(s).policy != Some(Immediate) ==>
      Queued(s') == Drain(EnsurePolicy(s).policy.value, Queued(s), draws, spawn) &&
      ran == Ran(EnsurePolicy(s).policy.value, Queued(s), draws, spawn) &&
      s'.policy == EnsurePolicy(s).policy
    ensures (EnsurePolicy(s).policy != Some(Immediate) && |ran| < |draws|) ==> Queued(s') == []
  {
    s' := EnsurePolicy(s);
    ran := [];
    var p := s'.policy.value;
    if p == Immediate {
      return;
    }
    var queue;
    queue, ran := DrainQueue(p, Queued(s'), draws, spawn);
    if ran != [] {
      s' := s'.(futures := Some(queue));
    }
  }
}
