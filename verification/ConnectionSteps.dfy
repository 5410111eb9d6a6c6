// The connection lists under their mutexes, one lock or one access at a time: any number of
// lists and threads (src/connection.hpp:79-103, 135-203, 233-245; src/acceptor.cpp:147-158).
module ConnectionSteps {
  import opened Wrappers
  import opened ConnectionLists

  // A connection and the list it is made for
  datatype Conn = Conn(id: nat, home: nat)

  // What a thread executes: push, unregister with remove, or the loop of handleStop with pop
  datatype Task = Push(conn: Conn) | Remove(conn: Conn) | Drain(list: nat, taken: Option<Conn>)

  // How far it is.  From Locked to End or Failing it holds the mutex of the list, and from
  // Holds to Refused or Counted that of the global list, too.
  datatype Stage =
    | Start      // waits for the mutex of the list
    | Locked
    | Waits      // waits for the mutex of the global list
    | Holds
    | Refused    // the global limit is reached
    | Counted    // the global count is changed
    | Alone      // the global mutex is given back
    | Listed     // a pushed connection is in the list
    | Failing    // push returns false
    | End
    | After      // the mutex of the list is given back

  datatype Thread = Idle | Busy(task: Task, stage: Stage)

  datatype List = List(max: nat, count: int, conns: seq<Conn>, owner: Option<nat>,
                       stale: nat)  // how many removals have not found their connection

  datatype State = State(max: nat, count: int, owner: Option<nat>, lists: seq<List>, threads: seq<Thread>,
                         pushed: set<Conn>,         // push has been called
                         admitted: set<Conn>,       // push has returned true
                         drained: set<Conn>,        // pop has taken them
                         unregistered: set<Conn>)   // their pointer to the list is null

  function ListOf(task: Task): nat {
    match task
    case Push(c) => c.home
    case Remove(c) => c.home
    case Drain(l, _) => l
  }

  // --------------------------------------------------------------------- the steps

  predicate InRange(s: State, t: nat) {
    t < |s.threads| && s.threads[t].Busy? && ListOf(s.threads[t].task) < |s.lists|
  }

  // Only taking a mutex can block.
  predicate Enabled(s: State, t: nat) {
    && InRange(s, t)
    && (s.threads[t].stage == Start ==> s.lists[ListOf(s.threads[t].task)].owner == None)
    && (s.threads[t].stage == Waits ==> s.owner == None)
  }

  function Goes(s: State, t: nat, task: Task, stage: Stage): State
    requires t < |s.threads|
  {
    s.(threads := s.threads[t := Busy(task, stage)])
  }

  function WithList(s: State, l: nat, x: List): State
    requires l < |s.lists|
  {
    s.(lists := s.lists[l := x])
  }

  // What the holder of the list's mutex does first
  function Look(s: State, t: nat): State
    requires InRange(s, t)
  {
    var task := s.threads[t].task;
    var l := ListOf(task);
    var x := s.lists[l];
    match task
    case Push(_) =>
      Goes(s, t, task, if x.max > 0 && x.count >= x.max then Failing else Waits)
    case Remove(c) =>
      if x.conns == [] then Goes(s, t, task, End)
      else
        var late := if c in x.conns then 0 else 1;
        Goes(WithList(s, l, x.(conns := Removed(x.conns, c), stale := x.stale + late)), t, task, Waits)
    case Drain(_, _) =>
      if x.conns == [] then Goes(s, t, Drain(l, None), End)
      else
        Goes(WithList(s.(drained := s.drained + {x.conns[0]}), l, x.(conns := x.conns[1..])),
             t, Drain(l, Some(x.conns[0])), Waits)
  }

  function Advance(s: State, t: nat): State
    requires Enabled(s, t)
  {
    var task := s.threads[t].task;
    var l := ListOf(task);
    var x := s.lists[l];
    match s.threads[t].stage
    case Start => Goes(WithList(s, l, x.(owner := Some(t))), t, task, Locked)
    case Locked => Look(s, t)
    case Waits => Goes(s.(owner := Some(t)), t, task, Holds)
    case Holds =>
      if task.Push? then
        if s.max > 0 && s.count >= s.max then Goes(s, t, task, Refused)
        else Goes(s.(count := s.count + 1), t, task, Counted)
      else Goes(s.(count := s.count - 1), t, task, Counted)
    case Refused => Goes(s.(owner := None), t, task, Failing)
    case Counted => Goes(s.(owner := None), t, task, Alone)
    case Alone =>
      if task.Push? then Goes(WithList(s, l, x.(conns := x.conns + [task.conn])), t, task, Listed)
      else Goes(WithList(s, l, x.(count := x.count - 1)), t, task, End)
    case Listed => Goes(WithList(s, l, x.(count := x.count + 1)), t, task, End)
    case Failing => WithList(s, l, x.(owner := None)).(threads := s.threads[t := Idle])
    case End => Goes(WithList(s, l, x.(owner := None)), t, task, After)
    case After => Leave(s, t)
  }

  // unregister sets the pointer to null at its end; handleStop goes on until the list is empty.
  function Leave(s: State, t: nat): State
    requires InRange(s, t)
  {
    match s.threads[t].task
    case Push(c) => s.(threads := s.threads[t := Idle], admitted := s.admitted + {c})
    case Remove(c) => s.(threads := s.threads[t := Idle], unregistered := s.unregistered + {c})
    case Drain(l, None) => s.(threads := s.threads[t := Idle])
    case Drain(l, Some(c)) =>
      s.(threads := s.threads[t := Busy(Drain(l, None), Start)], unregistered := s.unregistered + {c})
  }

  predicate Removing(s: State, c: Conn) {
    exists u :: 0 <= u < |s.threads| && s.threads[u].Busy? && s.threads[u].task == Remove(c)
  }

  // A connection is pushed once.  It unregisters itself later, one call at a time on its
  // strand, and only if its pointer is not null.
  predicate CanBegin(s: State, t: nat, task: Task) {
    && t < |s.threads| && s.threads[t] == Idle && ListOf(task) < |s.lists|
    && (task.Push? ==> task.conn !in s.pushed)
    && (task.Remove? ==> task.conn in s.admitted && task.conn !in s.unregistered && !Removing(s, task.conn))
    && (task.Drain? ==> task.taken == None)
  }

  function Begin(s: State, t: nat, task: Task): State
    requires CanBegin(s, t, task)
  {
    s.(threads := s.threads[t := Busy(task, Start)],
       pushed := s.pushed + if task.Push? then {task.conn} else {})
  }

  ghost predicate Step(s: State, s': State) {
    || (exists t: nat :: Enabled(s, t) && s' == Advance(s, t))
    || (exists t: nat, task :: CanBegin(s, t, task) && s' == Begin(s, t, task))
  }

  predicate Init(s: State) {
    && s.count == 0 && s.owner == None && s.pushed == {} && s.admitted == {} && s.drained == {} && s.unregistered == {}
    && (forall l :: 0 <= l < |s.lists| ==>
          s.lists[l].count == 0 && s.lists[l].conns == [] && s.lists[l].owner == None && s.lists[l].stale == 0)
    && (forall t :: 0 <= t < |s.threads| ==> s.threads[t] == Idle)
  }

  // s is reached from s0 in n steps.
  ghost predicate Path(s0: State, s: State, n: nat)
    decreases n
  {
    if n == 0 then s0 == s else exists m :: Path(s0, m, n - 1) && Step(m, s)
  }

  // --------------------------------------------------------------------- locks

  predicate HasList(th: Thread) {
    th.Busy? && th.stage != Start && th.stage != After
  }

  predicate HasGlobal(th: Thread) {
    th.Busy? && (th.stage == Holds || th.stage == Refused || th.stage == Counted)
  }

  predicate Fits(th: Thread) {
    th.Busy? ==>
      && (th.stage == Refused || th.stage == Failing || th.stage == Listed ==> th.task.Push?)
      && (th.task.Drain? && (th.stage == Waits || th.stage == Holds || th.stage == Counted || th.stage == Alone) ==>
            th.task.taken.Some?)
  }

  // The mutexes belong to the threads that are between taking and giving them back.
  predicate Locks(s: State) {
    && (forall t :: 0 <= t < |s.threads| && s.threads[t].Busy? ==> ListOf(s.threads[t].task) < |s.lists|)
    && (forall t :: 0 <= t < |s.threads| ==> Fits(s.threads[t]))
    && (forall t :: 0 <= t < |s.threads| && HasList(s.threads[t]) ==> OwnsList(s, t))
    && (forall t :: 0 <= t < |s.threads| && HasGlobal(s.threads[t]) ==> s.owner == Some(t))
    && (forall l :: 0 <= l < |s.lists| ==> OwnerIsIn(s, l))
    && (s.owner.Some? ==> s.owner.value < |s.threads| && HasGlobal(s.threads[s.owner.value]))
  }

  predicate OwnsList(s: State, t: nat)
    requires t < |s.threads| && s.threads[t].Busy?
  {
    ListOf(s.threads[t].task) < |s.lists| && s.lists[ListOf(s.threads[t].task)].owner == Some(t)
  }

  predicate OwnerIsIn(s: State, l: nat)
    requires l < |s.lists|
  {
    s.lists[l].owner.Some? ==>
      var t := s.lists[l].owner.value;
      t < |s.threads| && HasList(s.threads[t]) && ListOf(s.threads[t].task) == l
  }

  // What a step of thread t leaves alone, and who holds the mutexes after it
  predicate Shape(s: State, t: nat, s': State) {
    && InRange(s, t) && |s'.lists| == |s.lists| && |s'.threads| == |s.threads| && s'.max == s.max
    && (forall u :: 0 <= u < |s.threads| && u != t ==> s'.threads[u] == s.threads[u])
    && Fits(s'.threads[t])
    && (s'.threads[t].Busy? ==> ListOf(s'.threads[t].task) == ListOf(s.threads[t].task))
    && var l := ListOf(s.threads[t].task);
    && (forall k :: 0 <= k < |s.lists| && k != l ==> s'.lists[k] == s.lists[k])
    && s'.lists[l].max == s.lists[l].max
    && s'.lists[l].owner == (if HasList(s'.threads[t]) then Some(t)
                             else if HasList(s.threads[t]) then None else s.lists[l].owner)
    && s'.owner == (if HasGlobal(s'.threads[t]) then Some(t)
                    else if HasGlobal(s.threads[t]) then None else s.owner)
    && (HasList(s'.threads[t]) && !HasList(s.threads[t]) ==> s.lists[l].owner == None)
    && (HasGlobal(s'.threads[t]) && !HasGlobal(s.threads[t]) ==> s.owner == None)
  }

  lemma AdvanceShape(s: State, t: nat)
    requires Locks(s) && Enabled(s, t)
    ensures Shape(s, t, Advance(s, t))
  {
    assert Fits(s.threads[t]);
    assert HasList(s.threads[t]) ==> OwnsList(s, t);
    assert HasGlobal(s.threads[t]) ==> s.owner == Some(t);
    LookShape(s, t);
    OuterShape(s, t);
    GlobalShape(s, t);
    ListShape(s, t);
    hide *;
  }

  lemma LookShape(s: State, t: nat)
    requires Enabled(s, t) && Fits(s.threads[t]) && (HasList(s.threads[t]) ==> OwnsList(s, t))
    ensures s.threads[t].stage == Locked ==> Shape(s, t, Advance(s, t))
  {
  }

  lemma OuterShape(s: State, t: nat)
    requires Enabled(s, t) && Fits(s.threads[t]) && (HasList(s.threads[t]) ==> OwnsList(s, t))
    ensures (var g := s.threads[t].stage; g == Start || g == Failing || g == End || g == After) ==>
              Shape(s, t, Advance(s, t))
  {
    hide Look;
  }

  lemma GlobalShape(s: State, t: nat)
    requires Enabled(s, t) && Fits(s.threads[t]) && (HasList(s.threads[t]) ==> OwnsList(s, t))
    requires HasGlobal(s.threads[t]) ==> s.owner == Some(t)
    ensures (var g := s.threads[t].stage; g == Waits || g == Holds || g == Refused || g == Counted) ==>
              Shape(s, t, Advance(s, t))
  {
    hide Look, Leave;
  }

  lemma ListShape(s: State, t: nat)
    requires Enabled(s, t) && Fits(s.threads[t]) && (HasList(s.threads[t]) ==> OwnsList(s, t))
    ensures s.threads[t].stage == Alone || s.threads[t].stage == Listed ==> Shape(s, t, Advance(s, t))
  {
    hide Look, Leave;
  }

  lemma LocksKept(s: State, t: nat, s': State)
    requires Locks(s) && Shape(s, t, s')
    ensures Locks(s')
  {
    var l := ListOf(s.threads[t].task);
    forall u | 0 <= u < |s'.threads| && HasList(s'.threads[u]) ensures OwnsList(s', u) {
      if u != t {
        assert OwnsList(s, u);
        assert HasList(s.threads[t]) ==> OwnsList(s, t);
      }
    }
    forall k | 0 <= k < |s'.lists| ensures OwnerIsIn(s', k) {
      assert OwnerIsIn(s, k);
    }
  }

  lemma LocksBegin(s: State, t: nat, task: Task)
    requires Locks(s) && CanBegin(s, t, task)
    ensures Locks(Begin(s, t, task))
  {
    var s' := Begin(s, t, task);
    forall u | 0 <= u < |s'.threads| && HasList(s'.threads[u]) ensures OwnsList(s', u) {
      assert OwnsList(s, u);
    }
    forall k | 0 <= k < |s'.lists| ensures OwnerIsIn(s', k) {
      assert OwnerIsIn(s, k);
    }
  }

  // While a thread is busy some thread can go on: the mutex of a list is always taken before
  // the global one.
  lemma NoDeadlock(s: State, t: nat)
    requires Locks(s) && t < |s.threads| && s.threads[t].Busy?
    ensures exists u :: Enabled(s, u)
  {
    if !Enabled(s, t) {
      var l := ListOf(s.threads[t].task);
      if s.threads[t].stage == Waits {
        assert Enabled(s, s.owner.value);
      } else {
        assert OwnerIsIn(s, l);
        var u := s.lists[l].owner.value;
        if !Enabled(s, u) {
          assert Enabled(s, s.owner.value);
        }
      }
    }
  }

  // --------------------------------------------------------------------- what is in the lists

  predicate NoTwice(xs: seq<Conn>) {
    forall i, j :: 0 <= i < j < |xs| ==> xs[i] != xs[j]
  }

  // The push of the connection has not reached the list.
  predicate Ahead(th: Thread) {
    && th.Busy? && th.task.Push?
    && th.stage in {Start, Locked, Waits, Holds, Refused, Counted, Alone, Failing}
  }

  predicate Holding(s: State, l: nat)
    requires l < |s.lists|
  {
    NoTwice(s.lists[l].conns) && forall c :: c in s.lists[l].conns ==> c.home == l && c in s.pushed
  }

  predicate AheadIsNew(s: State, t: nat)
    requires t < |s.threads|
  {
    Ahead(s.threads[t]) ==>
      var c := s.threads[t].task.conn;
      && c in s.pushed && c.home < |s.lists| && c !in s.lists[c.home].conns
      && forall u :: 0 <= u < |s.threads| && u != t && Ahead(s.threads[u]) ==> s.threads[u].task.conn != c
  }

  predicate Contents(s: State) {
    && (forall l :: 0 <= l < |s.lists| ==> Holding(s, l))
    && (forall t :: 0 <= t < |s.threads| ==> AheadIsNew(s, t))
  }

  lemma ConsTwice(x: Conn, xs: seq<Conn>)
    requires NoTwice(xs) && x !in xs
    ensures NoTwice([x] + xs)
  {
  }

  lemma {:induction false} RemovedIs(xs: seq<Conn>, c: Conn)
    requires NoTwice(xs)
    ensures NoTwice(Removed(xs, c)) && forall d :: d in Removed(xs, c) <==> d in xs && d != c
    ensures |Removed(xs, c)| == |xs| - if c in xs then 1 else 0
  {
    if xs != [] {
      RemovedIs(xs[1..], c);
      assert xs == [xs[0]] + xs[1..];
      ConsTwice(xs[0], Removed(xs[1..], c));
    }
  }

  // What a step does to the connections of its list
  lemma ListChange(s: State, t: nat)
    requires Enabled(s, t)
    ensures
      var l, s' := ListOf(s.threads[t].task), Advance(s, t);
      var x, y := s.lists[l].conns, s'.lists[l].conns;
      && s'.pushed == s.pushed
      && (if s.threads[t].stage == Locked && s.threads[t].task.Remove? then y == Removed(x, s.threads[t].task.conn)
          else if s.threads[t].stage == Locked && s.threads[t].task.Drain? && x != [] then y == x[1..]
          else if s.threads[t].stage == Alone && s.threads[t].task.Push? then y == x + [s.threads[t].task.conn]
          else y == x)
      && (Ahead(s'.threads[t]) ==> Ahead(s.threads[t]) && s'.threads[t].task == s.threads[t].task)
      && (s.threads[t].stage == Alone ==> !Ahead(s'.threads[t]))
  {
  }

  lemma HoldingKept(s: State, t: nat, k: nat)
    requires Locks(s) && Contents(s) && Enabled(s, t) && k < |s.lists|
    ensures Holding(Advance(s, t), k)
  {
    var l := ListOf(s.threads[t].task);
    AdvanceShape(s, t);
    ListChange(s, t);
    assert Holding(s, l) && Holding(s, k) && AheadIsNew(s, t);
    if s.threads[t].task.Remove? {
      RemovedIs(s.lists[l].conns, s.threads[t].task.conn);
    }
    hide Advance, Removed;
  }

  lemma AheadKept(s: State, t: nat, u: nat)
    requires Locks(s) && Contents(s) && Enabled(s, t) && u < |s.threads|
    ensures AheadIsNew(Advance(s, t), u)
  {
    var l := ListOf(s.threads[t].task);
    AdvanceShape(s, t);
    ListChange(s, t);
    assert Holding(s, l) && AheadIsNew(s, t) && AheadIsNew(s, u);
    if s.threads[t].task.Remove? {
      RemovedIs(s.lists[l].conns, s.threads[t].task.conn);
    }
    hide Advance, Removed;
  }

  lemma ContentsKept(s: State, t: nat)
    requires Locks(s) && Contents(s) && Enabled(s, t)
    ensures Contents(Advance(s, t))
  {
    var s' := Advance(s, t);
    AdvanceShape(s, t);
    hide Advance, Holding, AheadIsNew;
    forall k | 0 <= k < |s'.lists| ensures Holding(s', k) {
      HoldingKept(s, t, k);
    }
    forall u | 0 <= u < |s'.threads| ensures AheadIsNew(s', u) {
      AheadKept(s, t, u);
    }
  }

  lemma ContentsBegin(s: State, t: nat, task: Task)
    requires Locks(s) && Contents(s) && CanBegin(s, t, task)
    ensures Contents(Begin(s, t, task))
  {
    var s' := Begin(s, t, task);
    forall k | 0 <= k < |s'.lists| ensures Holding(s', k) {
      assert Holding(s, k);
    }
    forall u | 0 <= u < |s'.threads| ensures AheadIsNew(s', u) {
      assert AheadIsNew(s, u);
      if task.Push? {
        assert Holding(s, task.conn.home);
      }
      if Ahead(s'.threads[u]) {
        forall w | 0 <= w < |s'.threads| && w != u && Ahead(s'.threads[w])
          ensures s'.threads[w].task.conn != s'.threads[u].task.conn
        {
          assert AheadIsNew(s, w);
          assert w != t ==> s'.threads[w] == s.threads[w];
          assert u != t ==> s'.threads[u] == s.threads[u];
        }
      }
    }
  }

  // --------------------------------------------------------------------- the counts

  // A push that has counted globally but not in its list, or the reverse for a removal
  function Flight(th: Thread): int {
    if th == Idle then 0
    else if th.task.Push? then if th.stage in {Counted, Alone, Listed} then 1 else 0
    else if th.stage in {Counted, Alone} then -1 else 0
  }

  // How far the list is ahead of its count
  function Lead(th: Thread): int {
    if th == Idle then 0
    else if th.task.Push? then if th.stage == Listed then 1 else 0
    else if th.stage in {Waits, Holds, Counted, Alone} then -1 else 0
  }

  function Sum(xs: seq<int>): int {
    if xs == [] then 0 else Sum(xs[..|xs| - 1]) + xs[|xs| - 1]
  }

  lemma {:induction false} SumChange(xs: seq<int>, ys: seq<int>, k: nat)
    requires |xs| == |ys| && k < |xs| && forall i :: 0 <= i < |xs| && i != k ==> xs[i] == ys[i]
    ensures Sum(ys) == Sum(xs) + ys[k] - xs[k]
  {
    var n := |xs| - 1;
    if k == n {
      assert xs[..n] == ys[..n];
    } else {
      SumChange(xs[..n], ys[..n], k);
    }
  }

  lemma {:induction false} SumSame(xs: seq<int>, ys: seq<int>)
    requires xs == ys
    ensures Sum(xs) == Sum(ys)
  {
  }

  lemma {:induction false} SumZero(xs: seq<int>)
    requires forall i :: 0 <= i < |xs| ==> xs[i] == 0
    ensures Sum(xs) == 0
  {
    if xs != [] {
      SumZero(xs[..|xs| - 1]);
    }
  }

  lemma {:induction false} SumAtLeast(xs: seq<int>, k: nat)
    requires k < |xs| && forall i :: 0 <= i < |xs| ==> xs[i] >= 0
    ensures Sum(xs) >= xs[k] >= 0
    decreases |xs|
  {
    var n := |xs| - 1;
    if k < n {
      SumAtLeast(xs[..n], k);
    } else if n > 0 {
      SumAtLeast(xs[..n], 0);
    }
  }

  function Counts(s: State): seq<int> {
    seq(|s.lists|, l requires 0 <= l < |s.lists| => s.lists[l].count)
  }

  function Flights(s: State): seq<int> {
    seq(|s.threads|, t requires 0 <= t < |s.threads| => Flight(s.threads[t]))
  }

  // The global count is the sum of the local ones and of what is on the way.
  predicate Balanced(s: State) {
    s.count == Sum(Counts(s)) + Sum(Flights(s))
  }

  // How a step changes the counts
  lemma CountChange(s: State, t: nat)
    requires Enabled(s, t) && Fits(s.threads[t])
    ensures
      var l, s' := ListOf(s.threads[t].task), Advance(s, t);
      var x, y := s.lists[l], s'.lists[l];
      && s'.count - s.count == (y.count - x.count) + (Flight(s'.threads[t]) - Flight(s.threads[t]))
  {
  }

  lemma BalancedKept(s: State, t: nat)
    requires Locks(s) && Balanced(s) && Enabled(s, t)
    ensures Balanced(Advance(s, t))
  {
    var l, s' := ListOf(s.threads[t].task), Advance(s, t);
    AdvanceShape(s, t);
    CountChange(s, t);
    hide Advance, Sum, Flight, Locks;
    SumChange(Counts(s), Counts(s'), l);
    SumChange(Flights(s), Flights(s'), t);
  }

  lemma BalancedBegin(s: State, t: nat, task: Task)
    requires Balanced(s) && CanBegin(s, t, task)
    ensures Balanced(Begin(s, t, task))
  {
    SumChange(Flights(s), Flights(Begin(s, t, task)), t);
    SumSame(Counts(s), Counts(Begin(s, t, task)));
    hide Sum;
  }

  // --------------------------------------------------------------------- the sizes

  // What the holder of the mutex of a list has not yet made good
  function Pending(s: State, l: nat): int
    requires l < |s.lists|
  {
    match s.lists[l].owner
    case None => 0
    case Some(t) => if t < |s.threads| then Lead(s.threads[t]) else 0
  }

  // A list has as many connections as counted, and one more for every removal that came too late.
  predicate Sized(s: State, l: nat)
    requires l < |s.lists|
  {
    |s.lists[l].conns| == s.lists[l].count + Pending(s, l) + s.lists[l].stale
  }

  predicate Sizes(s: State) {
    forall l :: 0 <= l < |s.lists| ==> Sized(s, l)
  }

  lemma SizeChange(s: State, t: nat)
    requires Enabled(s, t) && Fits(s.threads[t])
    requires s.threads[t].task.Remove? ==> NoTwice(s.lists[ListOf(s.threads[t].task)].conns)
    ensures
      var l, s' := ListOf(s.threads[t].task), Advance(s, t);
      var x, y := s.lists[l], s'.lists[l];
      && |y.conns| - |x.conns| ==
         (y.count - x.count) + (Lead(s'.threads[t]) - Lead(s.threads[t])) + (y.stale - x.stale)
      && (!HasList(s.threads[t]) ==> Lead(s.threads[t]) == 0)
      && (!HasList(s'.threads[t]) ==> Lead(s'.threads[t]) == 0)
  {
    if s.threads[t].task.Remove? {
      RemovedIs(s.lists[ListOf(s.threads[t].task)].conns, s.threads[t].task.conn);
    }
  }

  lemma SizesKept(s: State, t: nat)
    requires Locks(s) && Contents(s) && Sizes(s) && Enabled(s, t)
    ensures Sizes(Advance(s, t))
  {
    var l, s' := ListOf(s.threads[t].task), Advance(s, t);
    AdvanceShape(s, t);
    assert Holding(s, l);
    SizeChange(s, t);
    assert HasList(s.threads[t]) ==> OwnsList(s, t);
    hide Advance, Lead;
    forall k | 0 <= k < |s'.lists| ensures Sized(s', k) {
      assert Sized(s, k) && OwnerIsIn(s, k);
    }
  }

  lemma SizesBegin(s: State, t: nat, task: Task)
    requires Locks(s) && Sizes(s) && CanBegin(s, t, task)
    ensures Sizes(Begin(s, t, task))
  {
    var s' := Begin(s, t, task);
    forall k | 0 <= k < |s'.lists| ensures Sized(s', k) {
      assert Sized(s, k) && OwnerIsIn(s, k);
    }
  }

  // --------------------------------------------------------------------- the limits

  // A push that has passed the test of the local limit and will count
  predicate Passed(th: Thread) {
    th.Busy? && th.task.Push? && th.stage in {Waits, Holds, Counted, Alone, Listed}
  }

  predicate Within(s: State, l: nat)
    requires l < |s.lists|
  {
    var x := s.lists[l];
    x.max > 0 ==>
      && x.count <= x.max
      && (x.owner.Some? && x.owner.value < |s.threads| && Passed(s.threads[x.owner.value]) ==> x.count < x.max)
  }

  predicate Limits(s: State) {
    && (s.max > 0 ==> s.count <= s.max)
    && forall l :: 0 <= l < |s.lists| ==> Within(s, l)
  }

  lemma LimitsKept(s: State, t: nat)
    requires Locks(s) && Limits(s) && Enabled(s, t)
    ensures Limits(Advance(s, t))
  {
    var l, s' := ListOf(s.threads[t].task), Advance(s, t);
    AdvanceShape(s, t);
    assert HasList(s.threads[t]) ==> OwnsList(s, t);
    forall k | 0 <= k < |s'.lists| ensures Within(s', k) {
      assert Within(s, k) && OwnerIsIn(s, k);
    }
  }

  lemma LimitsBegin(s: State, t: nat, task: Task)
    requires Locks(s) && Limits(s) && CanBegin(s, t, task)
    ensures Limits(Begin(s, t, task))
  {
    var s' := Begin(s, t, task);
    forall k | 0 <= k < |s'.lists| ensures Within(s', k) {
      assert Within(s, k) && OwnerIsIn(s, k);
    }
  }

  // --------------------------------------------------------------------- late removals

  predicate Drained(s: State, l: nat) {
    exists c :: c in s.drained && c.home == l
  }

  // In its list, or taken by pop
  predicate Present(s: State, c: Conn) {
    c.home < |s.lists| && (c in s.lists[c.home].conns || c in s.drained)
  }

  // The connection of the thread must be present: its push has put it into the list, or its
  // removal has not looked yet.
  predicate Expects(th: Thread) {
    && th.Busy?
    && ((th.task.Push? && (th.stage == Listed || th.stage == End || th.stage == After))
        || (th.task.Remove? && (th.stage == Start || th.stage == Locked)))
  }

  predicate Expected(s: State, t: nat)
    requires t < |s.threads|
  {
    Expects(s.threads[t]) ==> Present(s, s.threads[t].task.conn)
  }

  predicate IsRemoving(th: Thread, c: Conn) {
    th.Busy? && th.task == Remove(c)
  }

  predicate OneRemover(s: State, t: nat)
    requires t < |s.threads|
  {
    s.threads[t].Busy? && s.threads[t].task.Remove? ==>
      forall u :: 0 <= u < |s.threads| && u != t ==> !IsRemoving(s.threads[u], s.threads[t].task.conn)
  }

  predicate IsPushing(th: Thread, c: Conn) {
    th.Busy? && th.task == Push(c)
  }

  // A connection is admitted behind its only push, and removed behind that.
  predicate Ordered(s: State, t: nat)
    requires t < |s.threads|
  {
    s.threads[t].Busy? ==>
      match s.threads[t].task
      case Push(c) =>
        && c in s.pushed && c !in s.admitted
        && forall u :: 0 <= u < |s.threads| && u != t ==> !IsPushing(s.threads[u], c)
      case Remove(c) => c in s.admitted
      case Drain(_, _) => true
  }

  predicate Accounted(s: State) {
    && s.admitted <= s.pushed
    && (forall t :: 0 <= t < |s.threads| ==> Expected(s, t) && OneRemover(s, t) && Ordered(s, t))
    && (forall c :: c in s.admitted ==> c in s.unregistered || Removing(s, c) || Present(s, c))
    && (forall l :: 0 <= l < |s.lists| && s.lists[l].stale > 0 ==> Drained(s, l))
  }

  // What a step does to the sets and to a late removal
  lemma SetChange(s: State, t: nat)
    requires Enabled(s, t) && Fits(s.threads[t])
    ensures
      var th, s' := s.threads[t], Advance(s, t);
      var l := ListOf(th.task);
      var x, y := s.lists[l], s'.lists[l];
      && s'.drained == s.drained + (if th.stage == Locked && th.task.Drain? && x.conns != [] then {x.conns[0]} else {})
      && s'.admitted == s.admitted + (if th.stage == After && th.task.Push? then {th.task.conn} else {})
      && s.unregistered <= s'.unregistered
      && (th.stage == After && th.task.Remove? ==> th.task.conn in s'.unregistered)
      && y.stale == x.stale + (if th.stage == Locked && th.task.Remove? && x.conns != [] && th.task.conn !in x.conns
                               then 1 else 0)
      && s'.pushed == s.pushed
      && (!th.task.Drain? && s'.threads[t].Busy? ==> s'.threads[t].task == th.task)
      && (th.task.Drain? && s'.threads[t].Busy? ==> s'.threads[t].task.Drain?)
      && (th.stage == After && th.task.Push? ==> s'.threads[t] == Idle)
      && (th.task.Remove? && th.stage != After ==> s'.threads[t].Busy? && s'.threads[t].task == th.task)
      && (th.task.Remove? && th.stage == After ==> s'.threads[t] == Idle)
      && (!th.task.Remove? && s'.threads[t].Busy? ==> !s'.threads[t].task.Remove?)
      && (Expects(s'.threads[t]) ==> s'.threads[t].task == th.task && (Expects(th) || th.stage == Alone))
      && (th.stage == After && th.task.Push? ==> Expects(th))
      && (th.stage == Locked && th.task.Remove? ==> Expects(th) && !Expects(s'.threads[t]))
  {
  }

  lemma PresentKept(s: State, t: nat, c: Conn)
    requires Locks(s) && Contents(s) && Enabled(s, t) && Present(s, c)
    requires s.threads[t].task == Remove(c) ==> s.threads[t].stage != Locked
    ensures Present(Advance(s, t), c)
  {
    var l, s' := ListOf(s.threads[t].task), Advance(s, t);
    AdvanceShape(s, t);
    ListChange(s, t);
    SetChange(s, t);
    assert Holding(s, l);
    if s.threads[t].task.Remove? {
      RemovedIs(s.lists[l].conns, s.threads[t].task.conn);
    }
    hide Advance, Removed;
  }

  lemma ExpectedKept(s: State, t: nat, u: nat)
    requires Locks(s) && Contents(s) && Accounted(s) && Enabled(s, t) && u < |s.threads|
    ensures |Advance(s, t).threads| == |s.threads| && Expected(Advance(s, t), u) && OneRemover(Advance(s, t), u)
  {
    var s' := Advance(s, t);
    AdvanceShape(s, t);
    SetChange(s, t);
    ListChange(s, t);
    assert Expected(s, u) && OneRemover(s, u) && OneRemover(s, t);
    assert Ordered(s, u) && Ordered(s, t);
    hide Advance;
    if Expects(s'.threads[u]) {
      var c := s'.threads[u].task.conn;
      if u == t && s.threads[t].stage == Alone {
        assert c in s'.lists[c.home].conns;
      } else {
        assert IsRemoving(s.threads[u], c) <==> s.threads[u].task.Remove?;
        PresentKept(s, t, c);
      }
    }
    forall w | 0 <= w < |s'.threads| && w != u && s'.threads[u].Busy? && s'.threads[u].task.Remove?
      ensures !IsRemoving(s'.threads[w], s'.threads[u].task.conn)
    {
      assert !IsRemoving(s.threads[w], s'.threads[u].task.conn);
    }
  }

  lemma OrderedKept(s: State, t: nat, u: nat)
    requires Locks(s) && Accounted(s) && Enabled(s, t) && u < |s.threads|
    ensures |Advance(s, t).threads| == |s.threads| && Ordered(Advance(s, t), u)
    ensures Advance(s, t).admitted <= Advance(s, t).pushed
  {
    var s' := Advance(s, t);
    AdvanceShape(s, t);
    SetChange(s, t);
    assert Ordered(s, u) && Ordered(s, t);
    hide Advance;
    if s'.threads[u].Busy? && s'.threads[u].task.Push? {
      var c := s'.threads[u].task.conn;
      forall w | 0 <= w < |s'.threads| && w != u ensures !IsPushing(s'.threads[w], c) {
        assert !IsPushing(s.threads[w], c);
      }
      assert u != t ==> !IsPushing(s.threads[t], c);
    }
  }

  lemma RemovingAfter(s: State, t: nat, c: Conn)
    requires Locks(s) && Enabled(s, t) && Removing(s, c) && c !in Advance(s, t).unregistered
    ensures Removing(Advance(s, t), c)
  {
    var u :| 0 <= u < |s.threads| && s.threads[u].Busy? && s.threads[u].task == Remove(c);
    AdvanceShape(s, t);
    SetChange(s, t);
    hide Advance;
    assert Advance(s, t).threads[u].Busy? && Advance(s, t).threads[u].task == Remove(c);
  }

  lemma AccountedKept(s: State, t: nat)
    requires Locks(s) && Contents(s) && Accounted(s) && Enabled(s, t)
    ensures Accounted(Advance(s, t))
  {
    var th, s' := s.threads[t], Advance(s, t);
    AdvanceShape(s, t);
    SetChange(s, t);
    assert Expected(s, t) && OneRemover(s, t);
    hide Advance, Present, Locks, Contents, Expects;
    forall u | 0 <= u < |s'.threads| ensures Expected(s', u) && OneRemover(s', u) && Ordered(s', u) {
      ExpectedKept(s, t, u);
      OrderedKept(s, t, u);
    }
    OrderedKept(s, t, t);
    forall c | c in s'.admitted ensures c in s'.unregistered || Removing(s', c) || Present(s', c) {
      AdmittedKept(s, t, c);
    }
    forall l | 0 <= l < |s'.lists| && s'.lists[l].stale > 0 ensures Drained(s', l) {
      StaleKept(s, t, l);
    }
  }

  lemma AdmittedKept(s: State, t: nat, c: Conn)
    requires Locks(s) && Contents(s) && Accounted(s) && Enabled(s, t) && c in Advance(s, t).admitted
    ensures c in Advance(s, t).unregistered || Removing(Advance(s, t), c) || Present(Advance(s, t), c)
  {
    var th := s.threads[t];
    SetChange(s, t);
    assert Expected(s, t);
    if c in s.unregistered {
    } else if Removing(s, c) {
      if c !in Advance(s, t).unregistered {
        RemovingAfter(s, t, c);
      }
    } else {
      assert th.task != Remove(c);
      PresentKept(s, t, c);
    }
  }

  lemma StaleKept(s: State, t: nat, l: nat)
    requires Locks(s) && Accounted(s) && Enabled(s, t) && l < |Advance(s, t).lists| && Advance(s, t).lists[l].stale > 0
    ensures Drained(Advance(s, t), l)
  {
    var th, s' := s.threads[t], Advance(s, t);
    AdvanceShape(s, t);
    SetChange(s, t);
    assert Expected(s, t);
    hide Advance;
    if s.lists[l].stale > 0 {
      var c :| c in s.drained && c.home == l;
      assert c in s'.drained;
    } else {
      assert th.task.conn in s'.drained && th.task.conn.home == l;
    }
  }

  lemma AccountedBegin(s: State, t: nat, task: Task)
    requires Accounted(s) && CanBegin(s, t, task)
    ensures Accounted(Begin(s, t, task))
  {
    var s' := Begin(s, t, task);
    forall u | 0 <= u < |s'.threads| ensures Expected(s', u) && OneRemover(s', u) && Ordered(s', u) {
      assert Expected(s, u) && OneRemover(s, u) && Ordered(s, u);
      if u == t {
        forall w | 0 <= w < |s.threads| && w != t && !task.Drain?
          ensures !IsPushing(s.threads[w], task.conn) || !task.Push?
          ensures !IsRemoving(s.threads[w], task.conn) || !task.Remove?
        {
          assert Ordered(s, w);
        }
      }
    }
    forall c | c in s'.admitted ensures c in s'.unregistered || Removing(s', c) || Present(s', c) {
      if Removing(s, c) {
        var u :| 0 <= u < |s.threads| && s.threads[u].Busy? && s.threads[u].task == Remove(c);
        assert s'.threads[u].Busy? && s'.threads[u].task == Remove(c);
      }
    }
    forall l | 0 <= l < |s'.lists| && s'.lists[l].stale > 0 ensures Drained(s', l) {
      var c :| c in s.drained && c.home == l;
    }
  }

  // --------------------------------------------------------------------- by list

  // What the holder of the mutex of a list has on the way
  function OnTheWay(s: State, l: nat): int
    requires l < |s.lists|
  {
    match s.lists[l].owner
    case None => 0
    case Some(t) => if t < |s.threads| then Flight(s.threads[t]) else 0
  }

  function Shares(s: State): seq<int> {
    seq(|s.lists|, l requires 0 <= l < |s.lists| => s.lists[l].count + OnTheWay(s, l))
  }

  // The global count is made up of the shares of the lists.
  predicate Shared(s: State) {
    s.count == Sum(Shares(s))
  }

  lemma FlightsInside(s: State, t: nat)
    requires Enabled(s, t)
    ensures !HasList(s.threads[t]) ==> Flight(s.threads[t]) == 0
    ensures !HasList(Advance(s, t).threads[t]) ==> Flight(Advance(s, t).threads[t]) == 0
  {
  }

  lemma SharedKept(s: State, t: nat)
    requires Locks(s) && Shared(s) && Enabled(s, t)
    ensures Shared(Advance(s, t))
  {
    var l, s' := ListOf(s.threads[t].task), Advance(s, t);
    AdvanceShape(s, t);
    CountChange(s, t);
    FlightsInside(s, t);
    assert HasList(s.threads[t]) ==> OwnsList(s, t);
    hide Advance, Sum, Flight;
    forall k | 0 <= k < |s.lists| && k != l ensures OnTheWay(s', k) == OnTheWay(s, k) {
      assert OwnerIsIn(s, k);
    }
    assert OwnerIsIn(s, l);
    SumChange(Shares(s), Shares(s'), l);
  }

  lemma SharedBegin(s: State, t: nat, task: Task)
    requires Locks(s) && Shared(s) && CanBegin(s, t, task)
    ensures Shared(Begin(s, t, task))
  {
    var s' := Begin(s, t, task);
    forall k | 0 <= k < |s.lists| ensures OnTheWay(s', k) == OnTheWay(s, k) {
      assert OwnerIsIn(s, k);
    }
    SumSame(Shares(s), Shares(s'));
  }

  // --------------------------------------------------------------------- the end of draining

  // handleStop has found the list empty and still holds its mutex.
  predicate FoundEmpty(th: Thread) {
    th.Busy? && th.task.Drain? && th.task.taken == None && th.stage == End
  }

  predicate Empty(s: State, t: nat)
    requires t < |s.threads| && s.threads[t].Busy?
  {
    ListOf(s.threads[t].task) < |s.lists| && s.lists[ListOf(s.threads[t].task)].conns == []
  }

  predicate Emptied(s: State) {
    forall t :: 0 <= t < |s.threads| && FoundEmpty(s.threads[t]) ==> Empty(s, t)
  }

  lemma FindsEmpty(s: State, t: nat)
    requires Enabled(s, t) && Fits(s.threads[t]) && FoundEmpty(Advance(s, t).threads[t])
    ensures Empty(Advance(s, t), t)
  {
  }

  lemma EmptiedKept(s: State, t: nat)
    requires Locks(s) && Emptied(s) && Enabled(s, t)
    ensures Emptied(Advance(s, t))
  {
    var l, s' := ListOf(s.threads[t].task), Advance(s, t);
    AdvanceShape(s, t);
    ListChange(s, t);
    if FoundEmpty(s'.threads[t]) {
      FindsEmpty(s, t);
    }
    assert HasList(s.threads[t]) ==> OwnsList(s, t);
    hide Advance, Removed;
    forall u | 0 <= u < |s'.threads| && FoundEmpty(s'.threads[u]) ensures Empty(s', u) {
      if u != t {
        assert FoundEmpty(s.threads[u]) && Empty(s, u) && OwnsList(s, u);
      }
    }
  }

  // An empty list stays empty in a step unless it is the step of a push that appends to it.
  lemma EmptyStays(s: State, s': State, l: nat)
    requires Locks(s) && Step(s, s') && l < |s.lists| && s.lists[l].conns == []
    requires forall t :: 0 <= t < |s.threads| && s.threads[t].Busy? && s.threads[t].task.Push? ==>
               s.threads[t].task.conn.home != l || s.threads[t].stage != Alone
    ensures l < |s'.lists| && s'.lists[l].conns == []
  {
    if t: nat :| Enabled(s, t) && s' == Advance(s, t) {
      AdvanceShape(s, t);
      ListChange(s, t);
      hide Advance;
    }
  }

  // --------------------------------------------------------------------- every run

  // What every state of every run keeps
  predicate Invariant(s: State) {
    Locks(s) && Contents(s) && Sizes(s) && Balanced(s) && Shared(s) && Limits(s) && Accounted(s) && Emptied(s)
  }

  lemma InitIsFine(s: State)
    requires Init(s)
    ensures Invariant(s)
  {
    SumZero(Counts(s));
    SumZero(Flights(s));
    SumZero(Shares(s));
    hide Sum;
    forall l | 0 <= l < |s.lists| ensures OwnerIsIn(s, l) && Holding(s, l) && Sized(s, l) && Within(s, l) {
    }
    forall t | 0 <= t < |s.threads| ensures AheadIsNew(s, t) && Expected(s, t) && OneRemover(s, t) && Ordered(s, t) {
    }
  }

  lemma StepKeeps(s: State, s': State)
    requires Invariant(s) && Step(s, s')
    ensures Invariant(s')
  {
    if t: nat :| Enabled(s, t) && s' == Advance(s, t) {
      AdvanceShape(s, t);
      LocksKept(s, t, s');
      ContentsKept(s, t);
      SizesKept(s, t);
      BalancedKept(s, t);
      SharedKept(s, t);
      LimitsKept(s, t);
      AccountedKept(s, t);
      EmptiedKept(s, t);
    } else {
      var t: nat, task :| CanBegin(s, t, task) && s' == Begin(s, t, task);
      LocksBegin(s, t, task);
      ContentsBegin(s, t, task);
      SizesBegin(s, t, task);
      BalancedBegin(s, t, task);
      SharedBegin(s, t, task);
      LimitsBegin(s, t, task);
      AccountedBegin(s, t, task);
    }
    hide *;
  }

  lemma {:induction false} EveryRun(s0: State, s: State, n: nat)
    requires Init(s0) && Path(s0, s, n)
    ensures Invariant(s)
    decreases n
  {
    hide Init, Invariant, Step;
    if n == 0 {
      InitIsFine(s);
    } else {
      var m :| Path(s0, m, n - 1) && Step(m, s);
      EveryRun(s0, m, n - 1);
      StepKeeps(m, s);
    }
  }

  // --------------------------------------------------------------------- the assertions

  // The thread is at an assertion about its list.
  predicate AtListAssertion(s: State, t: nat) {
    && InRange(s, t)
    && var th, x := s.threads[t], s.lists[ListOf(s.threads[t].task)];
    || (th.stage == Locked && !th.task.Push? && x.conns == [])
    || th.stage == Listed
    || (th.stage == Alone && !th.task.Push?)
  }

  // The assertion, after the count has been changed if it is
  predicate ListAssertion(s: State, t: nat)
    requires AtListAssertion(s, t)
  {
    var th, x := s.threads[t], s.lists[ListOf(s.threads[t].task)];
    if th.stage == Locked then x.count == 0
    else x.count + (if th.stage == Listed then 1 else -1) == |x.conns|
  }

  // The assertions about a list hold exactly as long as no removal has come too late.
  lemma ListAssertionsExactly(s: State, t: nat)
    requires Invariant(s) && AtListAssertion(s, t)
    ensures ListAssertion(s, t) <==> s.lists[ListOf(s.threads[t].task)].stale == 0
  {
    var l := ListOf(s.threads[t].task);
    assert OwnsList(s, t) && Sized(s, l);
  }

  // A removal comes too late only if pop has taken a connection from the list: as long as a
  // list is not drained, its assertions hold.
  lemma NotDrainedNotStale(s: State, l: nat)
    requires Invariant(s) && l < |s.lists| && !Drained(s, l)
    ensures s.lists[l].stale == 0
  {
  }

  // The thread is at the assertion of decConnCount.
  predicate AtGlobalAssertion(s: State, t: nat) {
    InRange(s, t) && s.threads[t].stage == Holds && !s.threads[t].task.Push?
  }

  // A step of a program that ends where an assertion about a list fails
  ghost predicate CheckedStep(s: State, s': State) {
    || (exists t: nat :: Enabled(s, t) && (AtListAssertion(s, t) ==> ListAssertion(s, t)) && s' == Advance(s, t))
    || (exists t: nat, task :: CanBegin(s, t, task) && s' == Begin(s, t, task))
  }

  // s is reached from s0 in n steps, and no assertion about a list has failed.
  ghost predicate CheckedPath(s0: State, s: State, n: nat)
    decreases n
  {
    if n == 0 then s0 == s else exists m :: CheckedPath(s0, m, n - 1) && CheckedStep(m, s)
  }

  // Before an assertion about it has failed, a list has seen no late removal but one that is
  // still going on, and that has found other connections.
  predicate Whole(s: State, l: nat)
    requires l < |s.lists|
  {
    || s.lists[l].stale == 0
    || (s.lists[l].stale == 1 && s.lists[l].conns != [] && s.lists[l].owner.Some?
        && s.lists[l].owner.value < |s.threads| && IsDropping(s.threads[s.lists[l].owner.value]))
  }

  // The removal has looked at the list and has not counted there.
  predicate IsDropping(th: Thread) {
    th.Busy? && th.task.Remove? && th.stage in {Waits, Holds, Counted, Alone}
  }

  predicate AllWhole(s: State) {
    forall l :: 0 <= l < |s.lists| ==> Whole(s, l)
  }

  // How a removal goes on
  lemma DroppingGoesOn(s: State, t: nat)
    requires Enabled(s, t)
    ensures IsDropping(s.threads[t]) && s.threads[t].stage != Alone ==> IsDropping(Advance(s, t).threads[t])
    ensures s.threads[t].stage == Locked && s.threads[t].task.Remove? && s.lists[ListOf(s.threads[t].task)].conns != [] ==>
      IsDropping(Advance(s, t).threads[t])
  {
  }

  lemma WholeKept(s: State, t: nat)
    requires Invariant(s) && AllWhole(s) && Enabled(s, t)
    requires AtListAssertion(s, t) ==> ListAssertion(s, t)
    ensures AllWhole(Advance(s, t))
  {
    var l, s' := ListOf(s.threads[t].task), Advance(s, t);
    AdvanceShape(s, t);
    ListChange(s, t);
    SetChange(s, t);
    DroppingGoesOn(s, t);
    assert HasList(s.threads[t]) ==> OwnsList(s, t);
    assert Whole(s, l) && Holding(s, l);
    if s.threads[t].task.Remove? {
      RemovedIs(s.lists[l].conns, s.threads[t].task.conn);
    }
    if AtListAssertion(s, t) {
      ListAssertionsExactly(s, t);
    }
    hide Advance, Removed, Invariant;
    forall k | 0 <= k < |s'.lists| ensures Whole(s', k) {
      assert Whole(s, k) && OwnerIsIn(s, k);
    }
  }

  lemma WholeBegin(s: State, t: nat, task: Task)
    requires AllWhole(s) && CanBegin(s, t, task)
    ensures AllWhole(Begin(s, t, task))
  {
    var s' := Begin(s, t, task);
    forall k | 0 <= k < |s'.lists| ensures Whole(s', k) {
      assert Whole(s, k);
    }
  }

  lemma CheckedStepKeeps(s: State, s': State)
    requires Invariant(s) && AllWhole(s) && CheckedStep(s, s')
    ensures Step(s, s') && AllWhole(s')
  {
    hide Invariant, AllWhole, Advance, Begin;
    if t: nat :| Enabled(s, t) && (AtListAssertion(s, t) ==> ListAssertion(s, t)) && s' == Advance(s, t) {
      WholeKept(s, t);
    } else {
      var t: nat, task :| CanBegin(s, t, task) && s' == Begin(s, t, task);
      WholeBegin(s, t, task);
    }
  }

  lemma {:induction false} EveryCheckedRun(s0: State, s: State, n: nat)
    requires Init(s0) && CheckedPath(s0, s, n)
    ensures Path(s0, s, n) && Invariant(s) && AllWhole(s)
    decreases n
  {
    hide Invariant, Step, CheckedStep;
    if n == 0 {
      InitIsFine(s);
    } else {
      hide Init, AllWhole;
      var m :| CheckedPath(s0, m, n - 1) && CheckedStep(m, s);
      EveryCheckedRun(s0, m, n - 1);
      CheckedStepKeeps(m, s);
      StepKeeps(m, s);
    }
  }

  // A whole list has a share in the global count, and one that is to be counted down is not zero.
  lemma WholeShare(s: State, l: nat)
    requires Invariant(s) && l < |s.lists| && Whole(s, l)
    ensures Shares(s)[l] >= 0
    ensures forall t: nat :: AtGlobalAssertion(s, t) && ListOf(s.threads[t].task) == l ==> Shares(s)[l] > 0
  {
    assert Sized(s, l) && OwnerIsIn(s, l);
    forall t: nat | AtGlobalAssertion(s, t) && ListOf(s.threads[t].task) == l ensures Shares(s)[l] > 0 {
      assert OwnsList(s, t);
    }
  }

  // The assertion of decConnCount never fails: in a program that ends at the first assertion
  // about a list that fails, decConnCount never finds a count of zero.
  lemma GlobalAssertion(s0: State, s: State, n: nat, t: nat)
    requires Init(s0) && CheckedPath(s0, s, n) && AtGlobalAssertion(s, t)
    ensures s.count > 0
  {
    EveryCheckedRun(s0, s, n);
    var l := ListOf(s.threads[t].task);
    forall k | 0 <= k < |s.lists| ensures Shares(s)[k] >= 0 {
      WholeShare(s, k);
    }
    WholeShare(s, l);
    SumAtLeast(Shares(s), l);
    hide Sum, CheckedPath, Path;
  }

  // The connections in the lists, and one more for a holder that has counted only globally or
  // has yet to count globally
  function Owed(s: State): seq<int> {
    seq(|s.lists|, l requires 0 <= l < |s.lists| => |s.lists[l].conns| - Pending(s, l) + OnTheWay(s, l))
  }

  function Stales(s: State): seq<int> {
    seq(|s.lists|, l requires 0 <= l < |s.lists| => s.lists[l].stale)
  }

  lemma {:induction false} SumMinus(xs: seq<int>, ys: seq<int>, zs: seq<int>)
    requires |xs| == |ys| == |zs| && forall i :: 0 <= i < |xs| ==> xs[i] == ys[i] - zs[i]
    ensures Sum(xs) == Sum(ys) - Sum(zs)
  {
    if xs != [] {
      var n := |xs| - 1;
      SumMinus(xs[..n], ys[..n], zs[..n]);
    }
  }

  // In every run, whatever has failed, the assertion of decConnCount holds exactly as long as
  // there have been fewer late removals than there are connections to count down.
  lemma GlobalAssertionExactly(s0: State, s: State, n: nat, t: nat)
    requires Init(s0) && Path(s0, s, n) && AtGlobalAssertion(s, t)
    ensures s.count > 0 <==> Sum(Stales(s)) < Sum(Owed(s))
    ensures forall l :: 0 <= l < |s.lists| ==> Owed(s)[l] >= 0
  {
    EveryRun(s0, s, n);
    forall k | 0 <= k < |s.lists| ensures Shares(s)[k] == Owed(s)[k] - Stales(s)[k] && Owed(s)[k] >= 0 {
      assert Sized(s, k) && OwnerIsIn(s, k);
      OwedIsNatural(s, k);
    }
    SumMinus(Shares(s), Owed(s), Stales(s));
    hide Sum, Path;
  }

  lemma OwedIsNatural(s: State, l: nat)
    requires Locks(s) && l < |s.lists|
    ensures Owed(s)[l] >= 0
  {
    assert OwnerIsIn(s, l);
    if s.lists[l].owner.Some? && Lead(s.threads[s.lists[l].owner.value]) == 1 {
      assert Flight(s.threads[s.lists[l].owner.value]) == 1;
    }
  }

  // A thread that is busy leaves no deadlock, whatever has happened.
  lemma RunsGoOn(s0: State, s: State, n: nat, t: nat)
    requires Init(s0) && Path(s0, s, n) && t < |s.threads| && s.threads[t].Busy?
    ensures exists u :: Enabled(s, u)
  {
    EveryRun(s0, s, n);
    NoDeadlock(s, t);
  }

  // When handleStop has found the list empty, the list has no share in the global count,
  // unless a removal has come too late.
  lemma DrainGivesBack(s: State, t: nat)
    requires Invariant(s) && t < |s.threads| && FoundEmpty(s.threads[t])
    ensures Empty(s, t)
    ensures var l := ListOf(s.threads[t].task); Shares(s)[l] + s.lists[l].stale == 0
  {
    var l := ListOf(s.threads[t].task);
    assert Empty(s, t) && OwnsList(s, t) && Sized(s, l);
  }

  // --------------------------------------------------------------------- a late removal

  function Single(count: int, conns: seq<Conn>, owner: Option<nat>, stale: nat): seq<List> {
    [List(0, count, conns, owner, stale)]
  }

  lemma AdvanceReached(s0: State, s: State, n: nat, t: nat)
    requires Path(s0, s, n) && Enabled(s, t)
    ensures Path(s0, Advance(s, t), n + 1)
  {
    assert Step(s, Advance(s, t));
  }

  lemma BeginReached(s0: State, s: State, n: nat, t: nat, task: Task)
    requires Path(s0, s, n) && CanBegin(s, t, task)
    ensures Path(s0, Begin(s, t, task), n + 1)
  {
    assert Step(s, Begin(s, t, task));
  }

  // Two threads and one list without limits, nothing going on
  function Quiet(conns: seq<Conn>, admitted: set<Conn>): State {
    State(0, |conns|, None, Single(|conns|, conns, None, 0), [Idle, Idle], admitted, admitted, {}, {})
  }

  // --- a push that nobody disturbs

  function PushStage(conns: seq<Conn>, admitted: set<Conn>, c: Conn, stage: Stage): State {
    var counted := stage == Counted || stage == Alone || stage == Listed || stage == End || stage == After;
    var listed := stage == Listed || stage == End || stage == After;
    State(0, |conns| + (if counted then 1 else 0),
          if stage == Holds || stage == Counted then Some(0) else None,
          Single(|conns| + (if stage == End || stage == After then 1 else 0),
                 if listed then conns + [c] else conns,
                 if stage == Start || stage == After then None else Some(0), 0),
          [Busy(Push(c), stage), Idle], admitted + {c}, admitted, {}, {})
  }

  lemma PushStep(s0: State, n: nat, conns: seq<Conn>, admitted: set<Conn>, c: Conn, stage: Stage, next: Stage)
    requires Path(s0, PushStage(conns, admitted, c, stage), n) && c.home == 0
    requires (stage == Start && next == Locked) || (stage == Locked && next == Waits)
    ensures Path(s0, PushStage(conns, admitted, c, next), n + 1)
  {
    hide Path;
    var s := PushStage(conns, admitted, c, stage);
    assert Enabled(s, 0);
    assert Advance(s, 0) == PushStage(conns, admitted, c, next);
    AdvanceReached(s0, s, n, 0);
  }

  lemma PushDone(s0: State, n: nat, conns: seq<Conn>, admitted: set<Conn>, c: Conn, stage: Stage, next: Stage)
    requires Path(s0, PushStage(conns, admitted, c, stage), n) && c.home == 0
    requires (stage == Listed && next == End) || (stage == End && next == After)
    ensures Path(s0, PushStage(conns, admitted, c, next), n + 1)
  {
    hide Path;
    var s := PushStage(conns, admitted, c, stage);
    assert Enabled(s, 0);
    assert Advance(s, 0) == PushStage(conns, admitted, c, next);
    AdvanceReached(s0, s, n, 0);
  }

  lemma PushCount(s0: State, n: nat, conns: seq<Conn>, admitted: set<Conn>, c: Conn, stage: Stage, next: Stage)
    requires Path(s0, PushStage(conns, admitted, c, stage), n) && c.home == 0
    requires (stage == Waits && next == Holds) || (stage == Holds && next == Counted)
          || (stage == Counted && next == Alone) || (stage == Alone && next == Listed)
    ensures Path(s0, PushStage(conns, admitted, c, next), n + 1)
  {
    hide Path;
    var s := PushStage(conns, admitted, c, stage);
    assert Enabled(s, 0);
    assert Advance(s, 0) == PushStage(conns, admitted, c, next);
    AdvanceReached(s0, s, n, 0);
  }

  lemma PushAlone(s0: State, n: nat, conns: seq<Conn>, admitted: set<Conn>, c: Conn)
    requires Path(s0, Quiet(conns, admitted), n) && c !in admitted && c.home == 0
    ensures Path(s0, Quiet(conns + [c], admitted + {c}), n + 10)
  {
    PushBegins(s0, n, conns, admitted, c);
    hide *;
    PushStep(s0, n + 1, conns, admitted, c, Start, Locked);
    PushStep(s0, n + 2, conns, admitted, c, Locked, Waits);
    PushCount(s0, n + 3, conns, admitted, c, Waits, Holds);
    PushCount(s0, n + 4, conns, admitted, c, Holds, Counted);
    PushCount(s0, n + 5, conns, admitted, c, Counted, Alone);
    PushCount(s0, n + 6, conns, admitted, c, Alone, Listed);
    PushDone(s0, n + 7, conns, admitted, c, Listed, End);
    PushDone(s0, n + 8, conns, admitted, c, End, After);
    PushLeaves(s0, n + 9, conns, admitted, c);
  }

  lemma PushBegins(s0: State, n: nat, conns: seq<Conn>, admitted: set<Conn>, c: Conn)
    requires Path(s0, Quiet(conns, admitted), n) && c !in admitted && c.home == 0
    ensures Path(s0, PushStage(conns, admitted, c, Start), n + 1)
  {
    var s := Quiet(conns, admitted);
    hide Path;
    assert Begin(s, 0, Push(c)) == PushStage(conns, admitted, c, Start);
    BeginReached(s0, s, n, 0, Push(c));
  }

  lemma PushLeaves(s0: State, n: nat, conns: seq<Conn>, admitted: set<Conn>, c: Conn)
    requires Path(s0, PushStage(conns, admitted, c, After), n) && c.home == 0
    ensures Path(s0, Quiet(conns + [c], admitted + {c}), n + 1)
  {
    var s := PushStage(conns, admitted, c, After);
    hide Path;
    assert Advance(s, 0) == Quiet(conns + [c], admitted + {c});
    AdvanceReached(s0, s, n, 0);
  }

  // --- pop takes c while its unregister waits

  const C := Conn(1, 0)
  const D := Conn(2, 0)

  // Thread 0 drains the list of C and D; thread 1 has seen that the pointer of C is not null.
  function DrainStage(stage: Stage, taken: bool): State {
    var counted := taken && (stage == Counted || stage == Alone || stage == End || stage == After || stage == Start);
    var given := taken && (stage == End || stage == After || stage == Start);
    State(0, if counted then 1 else 2,
          if stage == Holds || stage == Counted then Some(0) else None,
          Single(if given then 1 else 2, if taken then [D] else [C, D],
                 if stage == Start || stage == After then None else Some(0), 0),
          [Busy(Drain(0, if taken && stage != Start then Some(C) else None), stage), Busy(Remove(C), Start)],
          {C, D}, {C, D}, if taken then {C} else {}, if taken && stage == Start then {C} else {})
  }

  lemma DrainTakes(s0: State, n: nat, stage: Stage, next: Stage)
    requires Path(s0, DrainStage(stage, false), n)
    requires (stage, next) == (Start, Locked) || (stage, next) == (Locked, Waits)
    ensures Path(s0, DrainStage(next, next == Waits), n + 1)
  {
    hide Path;
    var s := DrainStage(stage, false);
    assert Enabled(s, 0);
    assert [C, D][1..] == [D] && {} + {C} == {C};
    assert Advance(s, 0) == DrainStage(next, next == Waits);
    AdvanceReached(s0, s, n, 0);
  }

  lemma DrainGivesUp(s0: State, n: nat, stage: Stage, next: Stage)
    requires Path(s0, DrainStage(stage, true), n)
    requires (stage, next) == (End, After) || (stage, next) == (After, Start)
    ensures Path(s0, DrainStage(next, true), n + 1)
  {
    hide Path;
    var s := DrainStage(stage, true);
    assert Enabled(s, 0);
    assert Advance(s, 0) == DrainStage(next, true);
    AdvanceReached(s0, s, n, 0);
  }

  lemma DrainCounts(s0: State, n: nat, stage: Stage, next: Stage)
    requires Path(s0, DrainStage(stage, true), n)
    requires (stage, next) == (Waits, Holds) || (stage, next) == (Holds, Counted)
          || (stage, next) == (Counted, Alone) || (stage, next) == (Alone, End)
    ensures Path(s0, DrainStage(next, true), n + 1)
  {
    hide Path;
    var s := DrainStage(stage, true);
    assert Enabled(s, 0);
    assert Advance(s, 0) == DrainStage(next, true);
    AdvanceReached(s0, s, n, 0);
  }

  // --- then unregister goes on

  function RemoveStage(stage: Stage): State {
    var late := stage == Waits || stage == Holds || stage == Counted || stage == Alone;
    State(0, if stage == Counted || stage == Alone then 0 else 1,
          if stage == Holds || stage == Counted then Some(1) else None,
          Single(1, [D], if stage == Start then None else Some(1), if late then 1 else 0),
          [Busy(Drain(0, None), Start), Busy(Remove(C), stage)], {C, D}, {C, D}, {C}, {C})
  }

  lemma RemoveStep(s0: State, n: nat, stage: Stage, next: Stage)
    requires Path(s0, RemoveStage(stage), n)
    requires (stage, next) in {(Start, Locked), (Locked, Waits), (Waits, Holds), (Holds, Counted), (Counted, Alone)}
    ensures Path(s0, RemoveStage(next), n + 1)
  {
    var s := RemoveStage(stage);
    hide Path;
    assert Enabled(s, 1);
    assert Removed([D], C) == [D] by { assert [D][1..] == []; }
    assert Advance(s, 1) == RemoveStage(next);
    AdvanceReached(s0, s, n, 1);
  }

  function Unregistering(): State {
    State(0, 2, None, Single(2, [C, D], None, 0), [Idle, Busy(Remove(C), Start)], {C, D}, {C, D}, {}, {})
  }

  lemma UnregisterBegins(s0: State, n: nat)
    requires Path(s0, Quiet([C, D], {C, D}), n)
    ensures Path(s0, Unregistering(), n + 1)
  {
    var s := Quiet([C, D], {C, D});
    hide Path;
    assert !Removing(s, C);
    assert CanBegin(s, 1, Remove(C));
    assert Begin(s, 1, Remove(C)) == Unregistering();
    BeginReached(s0, s, n, 1, Remove(C));
  }

  lemma DrainBegins(s0: State, n: nat)
    requires Path(s0, Unregistering(), n)
    ensures Path(s0, DrainStage(Start, false), n + 1)
  {
    hide Path;
    assert CanBegin(Unregistering(), 0, Drain(0, None));
    assert Begin(Unregistering(), 0, Drain(0, None)) == DrainStage(Start, false);
    BeginReached(s0, Unregistering(), n, 0, Drain(0, None));
  }

  lemma DrainIsRemove()
    ensures DrainStage(Start, true) == RemoveStage(Start)
  {
  }

  // A run that breaks the assertion at the end of remove: between the test of the pointer and
  // the mutex, handleStop has popped the connection and set its pointer to null, step by step
  // without a break.  The count is then one short of the list.
  lemma LateRemovalHappens()
    ensures Init(Quiet([], {})) && Path(Quiet([], {}), RemoveStage(Alone), 35)
    ensures AtListAssertion(RemoveStage(Alone), 1) && !ListAssertion(RemoveStage(Alone), 1)
  {
    PathStarts(Quiet([], {}));
    AssertionFails();
    hide *;
    TwoPushed(Quiet([], {}));
    UnregisterBegins(Quiet([], {}), 20);
    DrainBegins(Quiet([], {}), 21);
    CDrained(Quiet([], {}));
    CRemoved(Quiet([], {}));
  }

  lemma PathStarts(s: State)
    ensures Path(s, s, 0)
  {
  }

  lemma TwoPushed(s0: State)
    requires Path(s0, Quiet([], {}), 0)
    ensures Path(s0, Quiet([C, D], {C, D}), 20)
  {
    hide Path, Quiet;
    assert [] + [C] + [D] == [C, D] && {} + {C} + {D} == {C, D};
    PushAlone(s0, 0, [], {}, C);
    PushAlone(s0, 10, [] + [C], {} + {C}, D);
  }

  lemma CDrained(s0: State)
    requires Path(s0, DrainStage(Start, false), 22)
    ensures Path(s0, DrainStage(Start, true), 30)
  {
    hide *;
    DrainTakes(s0, 22, Start, Locked);
    DrainTakes(s0, 23, Locked, Waits);
    DrainCounts(s0, 24, Waits, Holds);
    DrainCounts(s0, 25, Holds, Counted);
    DrainCounts(s0, 26, Counted, Alone);
    DrainCounts(s0, 27, Alone, End);
    DrainGivesUp(s0, 28, End, After);
    DrainGivesUp(s0, 29, After, Start);
  }

  lemma CRemoved(s0: State)
    requires Path(s0, DrainStage(Start, true), 30)
    ensures Path(s0, RemoveStage(Alone), 35)
  {
    DrainIsRemove();
    hide *;
    RemoveStep(s0, 30, Start, Locked);
    RemoveStep(s0, 31, Locked, Waits);
    RemoveStep(s0, 32, Waits, Holds);
    RemoveStep(s0, 33, Holds, Counted);
    RemoveStep(s0, 34, Counted, Alone);
  }

  // --- and if a failed assertion does not end the program

  // The removal of C comes to its end, and thread 0 goes on to drain the list of D.
  function EmptyingStage(removal: Stage, drain: Stage): State {
    var taken := drain == Waits || drain == Holds;
    State(0, 0, if drain == Holds then Some(0) else None,
          Single(0, if taken then [] else [D],
                 if removal == End then Some(1) else if drain == Start then None else Some(0), 1),
          [Busy(Drain(0, if taken then Some(D) else None), drain),
           if removal == Start then Idle else Busy(Remove(C), removal)],
          {C, D}, {C, D}, if taken then {C, D} else {C}, {C})
  }

  lemma RemovalEnds(s0: State, n: nat)
    requires Path(s0, RemoveStage(Alone), n)
    ensures Path(s0, EmptyingStage(Start, Start), n + 3)
  {
    hide Path;
    assert Advance(RemoveStage(Alone), 1) == EmptyingStage(End, Start);
    AdvanceReached(s0, RemoveStage(Alone), n, 1);
    assert Advance(EmptyingStage(End, Start), 1) == EmptyingStage(After, Start);
    AdvanceReached(s0, EmptyingStage(End, Start), n + 1, 1);
    assert Advance(EmptyingStage(After, Start), 1) == EmptyingStage(Start, Start);
    AdvanceReached(s0, EmptyingStage(After, Start), n + 2, 1);
  }

  lemma DrainGoesOn(s0: State, n: nat, stage: Stage, next: Stage)
    requires Path(s0, EmptyingStage(Start, stage), n)
    requires (stage, next) == (Start, Locked) || (stage, next) == (Locked, Waits) || (stage, next) == (Waits, Holds)
    ensures Path(s0, EmptyingStage(Start, next), n + 1)
  {
    hide Path;
    var s := EmptyingStage(Start, stage);
    assert Enabled(s, 0);
    assert [D][1..] == [] && {C} + {D} == {C, D};
    assert Advance(s, 0) == EmptyingStage(Start, next);
    AdvanceReached(s0, s, n, 0);
  }

  lemma ZeroIsFound()
    ensures AtGlobalAssertion(EmptyingStage(Start, Holds), 0) && EmptyingStage(Start, Holds).count == 0
  {
  }

  // Six steps after the assertion at the end of remove, which has failed but has not ended the
  // program, decConnCount is called with a count of zero.
  lemma ZeroCountHappens()
    ensures Init(Quiet([], {})) && Path(Quiet([], {}), EmptyingStage(Start, Holds), 41)
    ensures AtGlobalAssertion(EmptyingStage(Start, Holds), 0) && EmptyingStage(Start, Holds).count == 0
  {
    hide *;
    ZeroIsFound();
    LateRemovalHappens();
    RemovalEnds(Quiet([], {}), 35);
    DrainGoesOn(Quiet([], {}), 38, Start, Locked);
    DrainGoesOn(Quiet([], {}), 39, Locked, Waits);
    DrainGoesOn(Quiet([], {}), 40, Waits, Holds);
  }

  lemma AssertionFails()
    ensures Init(Quiet([], {}))
    ensures AtListAssertion(RemoveStage(Alone), 1) && !ListAssertion(RemoveStage(Alone), 1)
  {
  }
}
