// What push, remove and pop do when no other thread comes in between: the steps of
// ConnectionSteps, one after another, are the operations of ConnectionLists
// (src/connection.hpp:79-103, 135-203; src/acceptor.cpp:147-158).
module ConnectionAlone {
  import opened Wrappers
  import opened ConnectionLists
  import opened ConnectionSteps

  // Thread t gets from s to s' by n steps of its own.
  ghost predicate Runs(s: State, t: nat, s': State, n: nat)
    decreases n
  {
    if n == 0 then s == s' else Enabled(s, t) && Runs(Advance(s, t), t, s', n - 1)
  }

  lemma {:induction false} RunsOn(s: State, t: nat, s1: State, n: nat, s2: State, k: nat)
    requires Runs(s, t, s1, n) && Runs(s1, t, s2, k)
    ensures Runs(s, t, s2, n + k)
    decreases n
  {
    hide Advance;
    if n > 0 {
      RunsOn(Advance(s, t), t, s1, n - 1, s2, k);
    }
  }

  // Nobody has the mutexes that the thread needs.
  predicate Free(s: State, t: nat, l: nat) {
    t < |s.threads| && l < |s.lists| && s.owner == None && s.lists[l].owner == None
  }

  predicate Full(max: nat, count: int) {
    max > 0 && count >= max
  }

  // --------------------------------------------------------------------- push

  // Between the beginning of a push in s and its end
  function PushAt(s: State, t: nat, c: Conn, stage: Stage): State
    requires Free(s, t, c.home)
  {
    var x := s.lists[c.home];
    var counted := stage == Counted || stage == Alone || stage == Listed || stage == End || stage == After;
    var listed := stage == Listed || stage == End || stage == After;
    var done := stage == End || stage == After;
    s.(count := s.count + (if counted then 1 else 0),
       owner := if stage == Holds || stage == Refused || stage == Counted then Some(t) else None,
       lists := s.lists[c.home := x.(count := x.count + (if done then 1 else 0),
                                     conns := if listed then x.conns + [c] else x.conns,
                                     owner := if stage == Start || stage == After then None else Some(t))],
       threads := s.threads[t := Busy(Push(c), stage)],
       pushed := s.pushed + {c})
  }

  // What a push does in one piece
  function Pushed(s: State, c: Conn): State
    requires c.home < |s.lists|
  {
    var x := s.lists[c.home];
    if Full(x.max, x.count) || Full(s.max, s.count) then s.(pushed := s.pushed + {c})
    else
      s.(count := s.count + 1, lists := s.lists[c.home := x.(count := x.count + 1, conns := x.conns + [c])],
         pushed := s.pushed + {c}, admitted := s.admitted + {c})
  }

  predicate PushFollows(s: State, c: Conn, g: Stage, h: Stage)
    requires c.home < |s.lists|
  {
    var x := s.lists[c.home];
    match g
    case Start => h == Locked
    case Locked => h == if Full(x.max, x.count) then Failing else Waits
    case Waits => h == Holds
    case Holds => h == if Full(s.max, s.count) then Refused else Counted
    case Refused => h == Failing
    case Counted => h == Alone
    case Alone => h == Listed
    case Listed => h == End
    case End => h == After
    case _ => false
  }

  // Two states that are the same but for nothing
  lemma Same(a: State, b: State, l: nat)
    requires a.max == b.max && a.count == b.count && a.owner == b.owner && a.threads == b.threads
    requires |a.lists| == |b.lists| && l < |a.lists| && a.lists[l] == b.lists[l]
    requires forall k :: 0 <= k < |a.lists| && k != l ==> a.lists[k] == b.lists[k]
    requires a.pushed == b.pushed && a.admitted == b.admitted && a.drained == b.drained && a.unregistered == b.unregistered
    ensures a == b
  {
    assert a.lists == b.lists;
  }

  lemma RunsOne(s: State, t: nat, s': State)
    requires Enabled(s, t) && Advance(s, t) == s'
    ensures Runs(s, t, s', 1)
  {
    hide Advance;
    assert Runs(s', t, s', 0);
  }

  lemma PushStep(s: State, t: nat, c: Conn, g: Stage, h: Stage)
    requires Free(s, t, c.home) && PushFollows(s, c, g, h)
    ensures Runs(PushAt(s, t, c, g), t, PushAt(s, t, c, h), 1)
  {
    hide Runs;
    var m := PushAt(s, t, c, g);
    Same(Advance(m, t), PushAt(s, t, c, h), c.home);
    RunsOne(m, t, PushAt(s, t, c, h));
  }

  lemma PushEnds(s: State, t: nat, c: Conn)
    requires Free(s, t, c.home) && s.threads[t] == Idle
    ensures
      var x := s.lists[c.home];
      var g := if Full(x.max, x.count) || Full(s.max, s.count) then Failing else After;
      Runs(PushAt(s, t, c, g), t, Pushed(s, c), 1)
  {
    hide Runs;
    var x := s.lists[c.home];
    var g := if Full(x.max, x.count) || Full(s.max, s.count) then Failing else After;
    var m := PushAt(s, t, c, g);
    Same(Advance(m, t), Pushed(s, c), c.home);
    RunsOne(m, t, Pushed(s, c));
  }

  lemma PushBegins(s: State, t: nat, c: Conn)
    requires Free(s, t, c.home) && CanBegin(s, t, Push(c))
    ensures Begin(s, t, Push(c)) == PushAt(s, t, c, Start)
  {
    Same(Begin(s, t, Push(c)), PushAt(s, t, c, Start), c.home);
  }

  // The stages up to the end
  lemma {:induction false} PushFrom(s: State, t: nat, c: Conn, gs: seq<Stage>)
    requires Free(s, t, c.home) && gs != []
    requires forall i :: 0 <= i < |gs| - 1 ==> PushFollows(s, c, gs[i], gs[i + 1])
    ensures Runs(PushAt(s, t, c, gs[0]), t, PushAt(s, t, c, gs[|gs| - 1]), |gs| - 1)
    decreases |gs|
  {
    hide Free, PushAt, Advance;
    if |gs| > 1 {
      PushStep(s, t, c, gs[0], gs[1]);
      PushFrom(s, t, c, gs[1..]);
      RunsOn(PushAt(s, t, c, gs[0]), t, PushAt(s, t, c, gs[1]), 1, PushAt(s, t, c, gs[|gs| - 1]), |gs| - 2);
    }
  }

  // A push that is not disturbed counts and appends the connection, and is admitted, unless one
  // of the limits is reached: then nothing is changed.
  lemma PushRuns(s: State, t: nat, c: Conn) returns (n: nat)
    requires Free(s, t, c.home) && CanBegin(s, t, Push(c))
    ensures Runs(Begin(s, t, Push(c)), t, Pushed(s, c), n)
  {
    var x := s.lists[c.home];
    var gs :=
      if Full(x.max, x.count) then [Start, Locked, Failing]
      else if Full(s.max, s.count) then [Start, Locked, Waits, Holds, Refused, Failing]
      else [Start, Locked, Waits, Holds, Counted, Alone, Listed, End, After];
    PushBegins(s, t, c);
    hide PushAt, Advance, Runs, Pushed;
    PushFrom(s, t, c, gs);
    PushEnds(s, t, c);
    RunsOn(PushAt(s, t, c, Start), t, PushAt(s, t, c, gs[|gs| - 1]), |gs| - 1, Pushed(s, c), 1);
    n := |gs|;
  }

  // --------------------------------------------------------------------- remove

  function RemoveAt(s: State, t: nat, c: Conn, stage: Stage): State
    requires Free(s, t, c.home)
  {
    var x := s.lists[c.home];
    var found := x.conns != [];
    var counted := found && (stage == Counted || stage == Alone || stage == End || stage == After);
    var removed := found && stage != Start && stage != Locked;
    var done := found && (stage == End || stage == After);
    s.(count := s.count - (if counted then 1 else 0),
       owner := if stage == Holds || stage == Counted then Some(t) else None,
       lists := s.lists[c.home := x.(count := x.count - (if done then 1 else 0),
                                     conns := if removed then Removed(x.conns, c) else x.conns,
                                     stale := x.stale + (if removed && c !in x.conns then 1 else 0),
                                     owner := if stage == Start || stage == After then None else Some(t))],
       threads := s.threads[t := Busy(Remove(c), stage)])
  }

  // What a removal does in one piece
  function Taken(s: State, c: Conn): State
    requires c.home < |s.lists|
  {
    var x := s.lists[c.home];
    if x.conns == [] then s.(unregistered := s.unregistered + {c})
    else
      s.(count := s.count - 1,
         lists := s.lists[c.home := x.(count := x.count - 1, conns := Removed(x.conns, c),
                                       stale := x.stale + (if c in x.conns then 0 else 1))],
         unregistered := s.unregistered + {c})
  }

  predicate RemoveFollows(s: State, c: Conn, g: Stage, h: Stage)
    requires c.home < |s.lists|
  {
    match g
    case Start => h == Locked
    case Locked => h == if s.lists[c.home].conns == [] then End else Waits
    case Waits => h == Holds && s.lists[c.home].conns != []
    case Holds => h == Counted && s.lists[c.home].conns != []
    case Counted => h == Alone && s.lists[c.home].conns != []
    case Alone => h == End && s.lists[c.home].conns != []
    case End => h == After
    case _ => false
  }

  lemma RemoveGoes(s: State, t: nat, c: Conn, g: Stage, h: Stage)
    requires Free(s, t, c.home) && RemoveFollows(s, c, g, h)
    ensures Runs(RemoveAt(s, t, c, g), t, RemoveAt(s, t, c, h), 1)
  {
    hide Runs;
    var m := RemoveAt(s, t, c, g);
    Same(Advance(m, t), RemoveAt(s, t, c, h), c.home);
    RunsOne(m, t, RemoveAt(s, t, c, h));
  }

  lemma RemoveEnds(s: State, t: nat, c: Conn)
    requires Free(s, t, c.home) && s.threads[t] == Idle
    ensures Runs(RemoveAt(s, t, c, After), t, Taken(s, c), 1)
  {
    hide Runs;
    var m := RemoveAt(s, t, c, After);
    Same(Advance(m, t), Taken(s, c), c.home);
    RunsOne(m, t, Taken(s, c));
  }

  lemma {:induction false} RemoveFrom(s: State, t: nat, c: Conn, gs: seq<Stage>)
    requires Free(s, t, c.home) && gs != []
    requires forall i :: 0 <= i < |gs| - 1 ==> RemoveFollows(s, c, gs[i], gs[i + 1])
    ensures Runs(RemoveAt(s, t, c, gs[0]), t, RemoveAt(s, t, c, gs[|gs| - 1]), |gs| - 1)
    decreases |gs|
  {
    hide Free, RemoveAt, Advance;
    if |gs| > 1 {
      RemoveGoes(s, t, c, gs[0], gs[1]);
      RemoveFrom(s, t, c, gs[1..]);
      RunsOn(RemoveAt(s, t, c, gs[0]), t, RemoveAt(s, t, c, gs[1]), 1, RemoveAt(s, t, c, gs[|gs| - 1]), |gs| - 2);
    }
  }

  lemma RemoveBegins(s: State, t: nat, c: Conn)
    requires Free(s, t, c.home) && CanBegin(s, t, Remove(c))
    ensures Begin(s, t, Remove(c)) == RemoveAt(s, t, c, Start)
  {
    Same(Begin(s, t, Remove(c)), RemoveAt(s, t, c, Start), c.home);
  }

  // A removal that is not disturbed takes the connection out, if there is any in the list, and
  // both counts go down by one; at its end the connection is unregistered.
  lemma RemoveRuns(s: State, t: nat, c: Conn) returns (n: nat)
    requires Free(s, t, c.home) && CanBegin(s, t, Remove(c))
    ensures Runs(Begin(s, t, Remove(c)), t, Taken(s, c), n)
  {
    var gs :=
      if s.lists[c.home].conns == [] then [Start, Locked, End, After]
      else [Start, Locked, Waits, Holds, Counted, Alone, End, After];
    RemoveBegins(s, t, c);
    hide RemoveAt, Advance, Runs, Taken, Begin;
    RemoveFrom(s, t, c, gs);
    RemoveEnds(s, t, c);
    RunsOn(RemoveAt(s, t, c, Start), t, RemoveAt(s, t, c, After), |gs| - 1, Taken(s, c), 1);
    n := |gs|;
  }

  // --------------------------------------------------------------------- the drain

  function DrainAt(s: State, t: nat, l: nat, stage: Stage): State
    requires Free(s, t, l)
  {
    var x := s.lists[l];
    var found := x.conns != [];
    var counted := found && (stage == Counted || stage == Alone || stage == End || stage == After);
    var taken := found && stage != Start && stage != Locked;
    var done := found && (stage == End || stage == After);
    s.(count := s.count - (if counted then 1 else 0),
       owner := if stage == Holds || stage == Counted then Some(t) else None,
       lists := s.lists[l := x.(count := x.count - (if done then 1 else 0),
                                conns := if taken then x.conns[1..] else x.conns,
                                owner := if stage == Start || stage == After then None else Some(t))],
       threads := s.threads[t := Busy(Drain(l, if taken then Some(x.conns[0]) else None), stage)],
       drained := if taken then s.drained + {x.conns[0]} else s.drained)
  }

  // One round of the loop in handleStop in one piece
  function Popped(s: State, l: nat): State
    requires l < |s.lists| && s.lists[l].conns != []
  {
    var x := s.lists[l];
    s.(count := s.count - 1, lists := s.lists[l := x.(count := x.count - 1, conns := x.conns[1..])],
       drained := s.drained + {x.conns[0]}, unregistered := s.unregistered + {x.conns[0]})
  }

  // All of them
  function AllPopped(s: State, l: nat): State
    requires l < |s.lists|
    decreases if l < |s.lists| then |s.lists[l].conns| else 0
  {
    if s.lists[l].conns == [] then s else AllPopped(Popped(s, l), l)
  }

  predicate DrainFollows(s: State, l: nat, g: Stage, h: Stage)
    requires l < |s.lists|
  {
    match g
    case Start => h == Locked
    case Locked => h == if s.lists[l].conns == [] then End else Waits
    case Waits => h == Holds && s.lists[l].conns != []
    case Holds => h == Counted && s.lists[l].conns != []
    case Counted => h == Alone && s.lists[l].conns != []
    case Alone => h == End && s.lists[l].conns != []
    case End => h == After
    case _ => false
  }

  lemma DrainGoes(s: State, t: nat, l: nat, g: Stage, h: Stage)
    requires Free(s, t, l) && DrainFollows(s, l, g, h)
    ensures Runs(DrainAt(s, t, l, g), t, DrainAt(s, t, l, h), 1)
  {
    hide Runs;
    var m := DrainAt(s, t, l, g);
    Same(Advance(m, t), DrainAt(s, t, l, h), l);
    RunsOne(m, t, DrainAt(s, t, l, h));
  }

  lemma DrainTurns(s: State, t: nat, l: nat)
    requires Free(s, t, l)
    ensures s.lists[l].conns != [] ==>
      Free(Popped(s, l), t, l) && Runs(DrainAt(s, t, l, After), t, DrainAt(Popped(s, l), t, l, Start), 1)
    ensures s.lists[l].conns == [] && s.threads[t] == Idle ==> Runs(DrainAt(s, t, l, After), t, s, 1)
  {
    hide Runs;
    var m := DrainAt(s, t, l, After);
    if s.lists[l].conns != [] {
      Same(Advance(m, t), DrainAt(Popped(s, l), t, l, Start), l);
      RunsOne(m, t, DrainAt(Popped(s, l), t, l, Start));
    } else if s.threads[t] == Idle {
      Same(Advance(m, t), s, l);
      RunsOne(m, t, s);
    }
  }

  lemma {:induction false} DrainFrom(s: State, t: nat, l: nat, gs: seq<Stage>)
    requires Free(s, t, l) && gs != []
    requires forall i :: 0 <= i < |gs| - 1 ==> DrainFollows(s, l, gs[i], gs[i + 1])
    ensures Runs(DrainAt(s, t, l, gs[0]), t, DrainAt(s, t, l, gs[|gs| - 1]), |gs| - 1)
    decreases |gs|
  {
    hide Free, DrainAt, Advance;
    if |gs| > 1 {
      DrainGoes(s, t, l, gs[0], gs[1]);
      DrainFrom(s, t, l, gs[1..]);
      RunsOn(DrainAt(s, t, l, gs[0]), t, DrainAt(s, t, l, gs[1]), 1, DrainAt(s, t, l, gs[|gs| - 1]), |gs| - 2);
    }
  }

  lemma OneRound(s: State, t: nat, l: nat) returns (n: nat)
    requires Free(s, t, l) && s.lists[l].conns != []
    ensures Free(Popped(s, l), t, l) && Runs(DrainAt(s, t, l, Start), t, DrainAt(Popped(s, l), t, l, Start), n)
  {
    var gs := [Start, Locked, Waits, Holds, Counted, Alone, End, After];
    DrainTurns(s, t, l);
    hide DrainAt, Popped, Runs;
    DrainFrom(s, t, l, gs);
    RunsOn(DrainAt(s, t, l, Start), t, DrainAt(s, t, l, After), 7, DrainAt(Popped(s, l), t, l, Start), 1);
    n := 8;
  }

  lemma LastRound(s: State, t: nat, l: nat) returns (n: nat)
    requires Free(s, t, l) && s.lists[l].conns == [] && s.threads[t] == Idle
    ensures Runs(DrainAt(s, t, l, Start), t, s, n)
  {
    var gs := [Start, Locked, End, After];
    DrainTurns(s, t, l);
    hide DrainAt, Runs;
    DrainFrom(s, t, l, gs);
    RunsOn(DrainAt(s, t, l, Start), t, DrainAt(s, t, l, After), 3, s, 1);
    n := 4;
  }

  lemma {:induction false} DrainRounds(s: State, t: nat, l: nat) returns (n: nat)
    requires Free(s, t, l) && s.threads[t] == Idle
    ensures Runs(DrainAt(s, t, l, Start), t, AllPopped(s, l), n)
    decreases |s.lists[l].conns|
  {
    hide DrainAt, Runs;
    if s.lists[l].conns == [] {
      n := LastRound(s, t, l);
    } else {
      var k := OneRound(s, t, l);
      var rest := DrainRounds(Popped(s, l), t, l);
      RunsOn(DrainAt(s, t, l, Start), t, DrainAt(Popped(s, l), t, l, Start), k, AllPopped(s, l), rest);
      n := k + rest;
    }
  }

  // What is left of a list that has been drained, and what has become of the rest
  lemma {:induction false} DrainedIs(s: State, l: nat)
    requires l < |s.lists|
    ensures
      var d, x := AllPopped(s, l), s.lists[l];
      && d.count == s.count - |x.conns| && d.owner == s.owner && d.threads == s.threads
      && d.lists == s.lists[l := x.(count := x.count - |x.conns|, conns := [])]
      && d.drained == s.drained + (set c | c in x.conns) && d.unregistered == s.unregistered + (set c | c in x.conns)
      && d.pushed == s.pushed && d.admitted == s.admitted && d.max == s.max
    decreases if l < |s.lists| then |s.lists[l].conns| else 0
  {
    var x := s.lists[l];
    if x.conns != [] {
      DrainedIs(Popped(s, l), l);
      assert x.conns == [x.conns[0]] + x.conns[1..];
    } else {
      assert s.lists[l := x.(count := x.count - |x.conns|, conns := [])] == s.lists;
    }
  }

  // A drain that is not disturbed takes all connections out, uncounts and unregisters them.
  lemma DrainRuns(s: State, t: nat, l: nat) returns (n: nat)
    requires Free(s, t, l) && CanBegin(s, t, Drain(l, None))
    ensures Runs(Begin(s, t, Drain(l, None)), t, AllPopped(s, l), n)
    ensures AllPopped(s, l).lists == s.lists[l := s.lists[l].(count := s.lists[l].count - |s.lists[l].conns|, conns := [])]
    ensures AllPopped(s, l).count == s.count - |s.lists[l].conns|
  {
    Same(Begin(s, t, Drain(l, None)), DrainAt(s, t, l, Start), l);
    DrainedIs(s, l);
    n := DrainRounds(s, t, l);
  }
}
