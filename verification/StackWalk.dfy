/** What a depth-first walk with an explicit stack still has to deliver, and when such a walk halts. */
module StackWalk {
  import opened BomPaths

  /** A part waiting on the stack, with the quantity accumulated on the way to it. */
  datatype Frame = Frame(part: Part, qty: real)

  function FrameFor(e: Edge, q: real): Frame {
    Frame(e.child, e.weight * q)
  }

  /** The frames pushed for the first i edges out of a part reached with quantity q. */
  function Frames(edges: seq<Edge>, i: nat, q: real): seq<Frame>
    requires i <= |edges|
  {
    seq(i, k requires 0 <= k < i => FrameFor(edges[k], q))
  }

  function Levels(n: nat, d: nat): seq<nat> {
    seq(n, _ => d)
  }

  /** What the frames on the stack will still add to part t, given a depth bound for each frame. */
  ghost function Pending(net: Net, stack: seq<Frame>, depths: seq<nat>, t: Part): real
    requires |stack| == |depths|
  {
    if stack == [] then 0.0
    else
      var n := |stack| - 1;
      Pending(net, stack[..n], depths[..n], t) + Owed(net, stack[n], depths[n], t)
  }

  /** What one frame will still add to part t: itself, and everything below it. */
  ghost function Owed(net: Net, f: Frame, d: nat, t: Part): real {
    f.qty * (Hit(f.part, t) + Total(net, net(f.part), 0, t, d))
  }

  /** How many pops the stack still causes. */
  ghost function Work(net: Net, stack: seq<Frame>, depths: seq<nat>): nat
    requires |stack| == |depths|
  {
    if stack == [] then 0
    else
      var n := |stack| - 1;
      Work(net, stack[..n], depths[..n]) + 1 + Count(net, net(stack[n].part), 0, depths[n])
  }

  ghost predicate Within(net: Net, stack: seq<Frame>, depths: seq<nat>) {
    |stack| == |depths| && forall k :: 0 <= k < |stack| ==> Bounded(net, net(stack[k].part), depths[k])
  }

  /** Part t is on the stack or below something on it. */
  ghost predicate Ahead(net: Net, stack: seq<Frame>, t: Part) {
    exists k :: 0 <= k < |stack| && AtOrBelow(net, stack[k].part, t)
  }

  ghost predicate AtOrBelow(net: Net, p: Part, t: Part) {
    p == t || Reaches(net, net(p), t)
  }

  lemma PushOne(net: Net, stack: seq<Frame>, depths: seq<nat>, edges: seq<Edge>, i: nat, q: real, d: nat)
    requires |stack| == |depths| && 0 < i <= |edges| && d > 0
    ensures var f := FrameFor(edges[i - 1], q);
            && stack + Frames(edges, i, q) == stack + Frames(edges, i - 1, q) + [f]
            && depths + Levels(i, d - 1) == depths + Levels(i - 1, d - 1) + [d - 1]
  {
    assert Frames(edges, i, q) == Frames(edges, i - 1, q) + [FrameFor(edges[i - 1], q)];
    assert Levels(i, d - 1) == Levels(i - 1, d - 1) + [d - 1];
  }

  lemma PendingLast(net: Net, stack: seq<Frame>, depths: seq<nat>, f: Frame, d: nat, t: Part)
    requires |stack| == |depths|
    ensures Pending(net, stack + [f], depths + [d], t)
            == Pending(net, stack, depths, t) + Owed(net, f, d, t)
  {
    var all, allDepths := stack + [f], depths + [d];
    assert all[..|stack|] == stack && allDepths[..|stack|] == depths;
    assert all[|stack|] == f && allDepths[|stack|] == d;
  }

  lemma WorkLast(net: Net, stack: seq<Frame>, depths: seq<nat>, f: Frame, d: nat)
    requires |stack| == |depths|
    ensures Work(net, stack + [f], depths + [d]) == Work(net, stack, depths) + 1 + Count(net, net(f.part), 0, d)
  {
    assert (stack + [f])[..|stack|] == stack && (depths + [d])[..|stack|] == depths;
  }

  lemma MoveOneEdge(q: real, w: real, below: real, rest: real)
    ensures q * (w * below + rest) == (w * q) * below + q * rest
  {
    Distribute(q, w * below, rest);
  }

  lemma MoveTotal(net: Net, edges: seq<Edge>, i: nat, q: real, t: Part, d: nat)
    requires i < |edges| && d > 0
    ensures q * Total(net, edges, i, t, d)
            == Owed(net, FrameFor(edges[i], q), d - 1, t) + q * Total(net, edges, i + 1, t, d)
  {
    MoveOneEdge(q, edges[i].weight, Hit(edges[i].child, t) + Total(net, net(edges[i].child), 0, t, d - 1),
                Total(net, edges, i + 1, t, d));
  }

  /** What the frames for the edges from index i on will add. */
  ghost function OwedFrom(net: Net, edges: seq<Edge>, i: nat, q: real, t: Part, d: nat): real
    requires i <= |edges|
    decreases |edges| - i
  {
    if i == |edges| then 0.0 else Owed(net, FrameFor(edges[i], q), d, t) + OwedFrom(net, edges, i + 1, q, t, d)
  }

  lemma {:induction false} OwedIsTotal(net: Net, edges: seq<Edge>, i: nat, q: real, t: Part, d: nat)
    requires i <= |edges| && d > 0
    ensures OwedFrom(net, edges, i, q, t, d - 1) == q * Total(net, edges, i, t, d)
    decreases |edges| - i
  {
    if i < |edges| {
      OwedIsTotal(net, edges, i + 1, q, t, d);
      MoveTotal(net, edges, i, q, t, d);
    }
  }

  lemma {:induction false} PendingPushed(net: Net, stack: seq<Frame>, depths: seq<nat>, edges: seq<Edge>, i: nat,
                                         q: real, t: Part, d: nat)
    requires |stack| == |depths| && i <= |edges| && d > 0
    ensures Pending(net, stack + Frames(edges, i, q), depths + Levels(i, d - 1), t)
              + OwedFrom(net, edges, i, q, t, d - 1)
            == Pending(net, stack, depths, t) + OwedFrom(net, edges, 0, q, t, d - 1)
  {
    if i == 0 {
      assert stack + Frames(edges, 0, q) == stack && depths + Levels(0, d - 1) == depths;
    } else {
      PendingPushed(net, stack, depths, edges, i - 1, q, t, d);
      PendingOneMore(net, stack, depths, edges, i, q, t, d);
    }
  }

  lemma PendingOneMore(net: Net, stack: seq<Frame>, depths: seq<nat>, edges: seq<Edge>, i: nat, q: real, t: Part, d: nat)
    requires |stack| == |depths| && 0 < i <= |edges| && d > 0
    ensures Pending(net, stack + Frames(edges, i, q), depths + Levels(i, d - 1), t)
              + OwedFrom(net, edges, i, q, t, d - 1)
            == Pending(net, stack + Frames(edges, i - 1, q), depths + Levels(i - 1, d - 1), t)
                 + OwedFrom(net, edges, i - 1, q, t, d - 1)
  {
    PushOne(net, stack, depths, edges, i, q, d);
    PendingLast(net, stack + Frames(edges, i - 1, q), depths + Levels(i - 1, d - 1),
                FrameFor(edges[i - 1], q), d - 1, t);
  }

  lemma PendingPush(net: Net, stack: seq<Frame>, depths: seq<nat>, edges: seq<Edge>, q: real, t: Part, d: nat)
    requires |stack| == |depths| && d > 0
    ensures Pending(net, stack + Frames(edges, |edges|, q), depths + Levels(|edges|, d - 1), t)
            == Pending(net, stack, depths, t) + OwedFrom(net, edges, 0, q, t, d - 1)
  {
    PendingPushed(net, stack, depths, edges, |edges|, q, t, d);
  }

  /** A popped frame owes its own quantity, and what the frames pushed for its edges will owe. */
  lemma OwedOnPop(net: Net, f: Frame, t: Part, d: nat)
    ensures d == 0 ==> Owed(net, f, d, t) == if f.part == t then f.qty else 0.0
    ensures d > 0 ==> Owed(net, f, d, t) == (if f.part == t then f.qty else 0.0)
                                            + OwedFrom(net, net(f.part), 0, f.qty, t, d - 1)
  {
    Distribute(f.qty, Hit(f.part, t), Total(net, net(f.part), 0, t, d));
    if d > 0 {
      OwedIsTotal(net, net(f.part), 0, f.qty, t, d);
    }
  }

  lemma PendingSplit(net: Net, stack: seq<Frame>, depths: seq<nat>, t: Part)
    requires |stack| == |depths| && stack != []
    ensures var n := |stack| - 1;
            Pending(net, stack, depths, t) == Pending(net, stack[..n], depths[..n], t) + Owed(net, stack[n], depths[n], t)
  {
  }

  /** The stack and depth bounds after one round: pop the top, push the frames for its edges. */
  ghost function NextStack(net: Net, stack: seq<Frame>): seq<Frame>
    requires stack != []
  {
    var n := |stack| - 1;
    stack[..n] + Frames(net(stack[n].part), |net(stack[n].part)|, stack[n].qty)
  }

  ghost function NextDepths(net: Net, stack: seq<Frame>, depths: seq<nat>): seq<nat>
    requires |stack| == |depths| && stack != []
  {
    var n := |stack| - 1;
    if depths[n] == 0 then depths[..n] else depths[..n] + Levels(|net(stack[n].part)|, depths[n] - 1)
  }

  /** A round keeps the bounds and, for every part, moves exactly the popped quantity out of what is pending. */
  lemma RoundKeepsTotals(net: Net, stack: seq<Frame>, depths: seq<nat>, t: Part)
    requires Within(net, stack, depths) && stack != []
    ensures Within(net, NextStack(net, stack), NextDepths(net, stack, depths))
    ensures Pending(net, NextStack(net, stack), NextDepths(net, stack, depths), t)
              + (if stack[|stack| - 1].part == t then stack[|stack| - 1].qty else 0.0)
            == Pending(net, stack, depths, t)
  {
    var n := |stack| - 1;
    var edges := net(stack[n].part);
    var d := depths[n];
    RoundWithin(net, stack, depths);
    PendingSplit(net, stack, depths, t);
    OwedOnPop(net, stack[n], t, d);
    if d == 0 {
      assert NextStack(net, stack) == stack[..n];
    } else {
      PendingPush(net, stack[..n], depths[..n], edges, stack[n].qty, t, d);
    }
  }

  lemma RoundWithin(net: Net, stack: seq<Frame>, depths: seq<nat>)
    requires Within(net, stack, depths) && stack != []
    ensures Within(net, NextStack(net, stack), NextDepths(net, stack, depths))
    ensures depths[|stack| - 1] == 0 ==> net(stack[|stack| - 1].part) == []
  {
    var n := |stack| - 1;
    assert Within(net, stack[..n], depths[..n]);
    WithinPush(net, stack[..n], depths[..n], net(stack[n].part), stack[n].qty, depths[n]);
    if depths[n] == 0 {
      assert NextStack(net, stack) == stack[..n];
    }
  }

  lemma WorkSplit(net: Net, stack: seq<Frame>, depths: seq<nat>)
    requires |stack| == |depths| && stack != []
    ensures var n := |stack| - 1;
            Work(net, stack, depths) == Work(net, stack[..n], depths[..n]) + 1 + Count(net, net(stack[n].part), 0, depths[n])
  {
  }

  lemma WorkPushAll(net: Net, stack: seq<Frame>, depths: seq<nat>, edges: seq<Edge>, q: real, d: nat)
    requires |stack| == |depths| && d > 0
    ensures Work(net, stack + Frames(edges, |edges|, q), depths + Levels(|edges|, d - 1))
            == Work(net, stack, depths) + Count(net, edges, 0, d)
  {
    WorkPush(net, stack, depths, edges, |edges|, q, d);
  }

  lemma RoundUsesWork(net: Net, stack: seq<Frame>, depths: seq<nat>)
    requires Within(net, stack, depths) && stack != []
    ensures Within(net, NextStack(net, stack), NextDepths(net, stack, depths))
    ensures Work(net, NextStack(net, stack), NextDepths(net, stack, depths)) + 1 == Work(net, stack, depths)
  {
    RoundWithin(net, stack, depths);
    WorkPopped(net, stack, depths);
    WorkSplit(net, stack, depths);
  }

  /** Popping a frame and pushing what it leads to. */
  lemma WorkPopped(net: Net, stack: seq<Frame>, depths: seq<nat>)
    requires |stack| == |depths| && stack != [] && (depths[|stack| - 1] == 0 ==> net(stack[|stack| - 1].part) == [])
    requires |NextStack(net, stack)| == |NextDepths(net, stack, depths)|
    ensures var n := |stack| - 1;
            Work(net, NextStack(net, stack), NextDepths(net, stack, depths))
            == Work(net, stack[..n], depths[..n]) + Count(net, net(stack[n].part), 0, depths[n])
  {
    var n := |stack| - 1;
    if depths[n] == 0 {
      NothingPushed(net, stack);
    } else {
      WorkPushAll(net, stack[..n], depths[..n], net(stack[n].part), stack[n].qty, depths[n]);
    }
  }

  lemma NothingPushed(net: Net, stack: seq<Frame>)
    requires stack != [] && net(stack[|stack| - 1].part) == []
    ensures NextStack(net, stack) == stack[..|stack| - 1]
  {
  }

  lemma RoundIsStep(net: Net, stack: seq<Frame>)
    requires stack != []
    ensures StackParts(NextStack(net, stack)) == Step(net, StackParts(stack))
  {
  }

  /** A part is still to be visited before a round exactly when it is popped in it or still to be visited after. */
  lemma RoundKeepsAhead(net: Net, stack: seq<Frame>, t: Part)
    requires stack != []
    ensures Ahead(net, stack, t) <==> stack[|stack| - 1].part == t || Ahead(net, NextStack(net, stack), t)
  {
    var n := |stack| - 1;
    AheadPop(net, stack, t);
    AheadPush(net, stack[..n], net(stack[n].part), stack[n].qty, t);
  }

  lemma {:induction false} WorkPush(net: Net, stack: seq<Frame>, depths: seq<nat>, edges: seq<Edge>, i: nat,
                                    q: real, d: nat)
    requires |stack| == |depths| && i <= |edges| && d > 0
    ensures Work(net, stack + Frames(edges, i, q), depths + Levels(i, d - 1)) + Count(net, edges, i, d)
            == Work(net, stack, depths) + Count(net, edges, 0, d)
  {
    if i == 0 {
      assert stack + Frames(edges, 0, q) == stack && depths + Levels(0, d - 1) == depths;
    } else {
      WorkPush(net, stack, depths, edges, i - 1, q, d);
      WorkOneMore(net, stack, depths, edges, i, q, d);
    }
  }

  lemma WorkOneMore(net: Net, stack: seq<Frame>, depths: seq<nat>, edges: seq<Edge>, i: nat, q: real, d: nat)
    requires |stack| == |depths| && 0 < i <= |edges| && d > 0
    ensures Work(net, stack + Frames(edges, i, q), depths + Levels(i, d - 1)) + Count(net, edges, i, d)
            == Work(net, stack + Frames(edges, i - 1, q), depths + Levels(i - 1, d - 1)) + Count(net, edges, i - 1, d)
  {
    PushOne(net, stack, depths, edges, i, q, d);
    WorkLast(net, stack + Frames(edges, i - 1, q), depths + Levels(i - 1, d - 1),
             FrameFor(edges[i - 1], q), d - 1);
  }

  /** What is reached from a list of edges is a child of it or below such a child. */
  lemma ReachesStep(net: Net, edges: seq<Edge>, t: Part)
    ensures Reaches(net, edges, t) <==> exists k :: 0 <= k < |edges| && AtOrBelow(net, edges[k].child, t)
  {
    if Reaches(net, edges, t) {
      var path :| EndsAt(net, edges, path, t);
      assert |path| > 1 ==> EndsAt(net, net(edges[path[0]].child), path[1..], t);
      assert AtOrBelow(net, edges[path[0]].child, t);
    }
    if k :| 0 <= k < |edges| && AtOrBelow(net, edges[k].child, t) {
      PathStep(net, edges, k, []);
      if edges[k].child == t {
        assert EndsAt(net, edges, [k], t);
      } else {
        var path :| EndsAt(net, net(edges[k].child), path, t);
        PathStep(net, edges, k, path);
        assert EndsAt(net, edges, [k] + path, t);
      }
    }
  }

  lemma AheadPush(net: Net, stack: seq<Frame>, edges: seq<Edge>, q: real, t: Part)
    ensures Ahead(net, stack + Frames(edges, |edges|, q), t) <==> Ahead(net, stack, t) || Reaches(net, edges, t)
  {
    var now := stack + Frames(edges, |edges|, q);
    ReachesStep(net, edges, t);
    if k :| 0 <= k < |now| && AtOrBelow(net, now[k].part, t) {
      if k < |stack| {
        assert stack[k] == now[k];
      } else {
        assert AtOrBelow(net, edges[k - |stack|].child, t);
      }
    }
    if k :| 0 <= k < |stack| && AtOrBelow(net, stack[k].part, t) {
      assert now[k] == stack[k];
    }
    if k :| 0 <= k < |edges| && AtOrBelow(net, edges[k].child, t) {
      assert now[|stack| + k].part == edges[k].child;
    }
  }

  lemma AheadPop(net: Net, stack: seq<Frame>, t: Part)
    requires stack != []
    ensures var n := |stack| - 1;
            Ahead(net, stack, t) <==> Ahead(net, stack[..n], t) || AtOrBelow(net, stack[n].part, t)
  {
    var n := |stack| - 1;
    if k :| 0 <= k < |stack| && AtOrBelow(net, stack[k].part, t) {
      if k < n {
        assert stack[..n][k] == stack[k];
      }
    }
    if k :| 0 <= k < n && AtOrBelow(net, stack[..n][k].part, t) {
      assert stack[..n][k] == stack[k];
    }
  }

  lemma WithinPush(net: Net, stack: seq<Frame>, depths: seq<nat>, edges: seq<Edge>, q: real, d: nat)
    requires Within(net, stack, depths) && Bounded(net, edges, d)
    ensures d == 0 ==> edges == []
    ensures d > 0 ==> Within(net, stack + Frames(edges, |edges|, q), depths + Levels(|edges|, d - 1))
  {
    if edges != [] {
      BoundedStep(net, edges, d, 0);
    }
    forall k | 0 <= k < |edges| ensures d > 0 && Bounded(net, net(edges[k].child), d - 1) {
      BoundedStep(net, edges, d, k);
    }
  }

  // ----- Halting -----

  function ChildParts(edges: seq<Edge>): seq<Part> {
    seq(|edges|, k requires 0 <= k < |edges| => edges[k].child)
  }

  function StackParts(stack: seq<Frame>): seq<Part> {
    seq(|stack|, k requires 0 <= k < |stack| => stack[k].part)
  }

  /** One round of the walk: pop a part and push the children of its edges. */
  function Step(net: Net, stack: seq<Part>): seq<Part> {
    if stack == [] then [] else stack[..|stack| - 1] + ChildParts(net(stack[|stack| - 1]))
  }

  function Run(net: Net, stack: seq<Part>, rounds: nat): seq<Part> {
    if rounds == 0 then stack else Step(net, Run(net, stack, rounds - 1))
  }

  /** The walk empties its stack after some number of rounds. */
  ghost predicate Halts(net: Net, start: seq<Edge>) {
    exists rounds: nat :: Run(net, ChildParts(start), rounds) == []
  }

  ghost predicate HasPath(net: Net, p: Part, n: nat) {
    exists path :: IsPath(net, net(p), path) && |path| >= n
  }

  /** If something on the stack has a path of n steps below it, the next n rounds do not empty the stack. */
  lemma {:induction false} LongPathKeepsRunning(net: Net, stack: seq<Part>, n: nat, rounds: nat)
    requires rounds <= n
    requires exists k :: 0 <= k < |stack| && HasPath(net, stack[k], n)
    ensures exists k :: 0 <= k < |Run(net, stack, rounds)| && HasPath(net, Run(net, stack, rounds)[k], n - rounds)
  {
    if rounds == 0 {
      assert Run(net, stack, 0) == stack;
    } else {
      LongPathKeepsRunning(net, stack, n, rounds - 1);
      LongPathStep(net, Run(net, stack, rounds - 1), n - rounds);
      assert Run(net, stack, rounds) == Step(net, Run(net, stack, rounds - 1));
    }
  }

  /** One round leaves a path at most one edge shorter. */
  lemma LongPathStep(net: Net, before: seq<Part>, n: nat)
    requires exists k :: 0 <= k < |before| && HasPath(net, before[k], n + 1)
    ensures exists k :: 0 <= k < |Step(net, before)| && HasPath(net, Step(net, before)[k], n)
  {
    var after := Step(net, before);
    var top := |before| - 1;
    var k :| 0 <= k < |before| && HasPath(net, before[k], n + 1);
    var path :| IsPath(net, net(before[k]), path) && |path| >= n + 1;
    if k < top {
      assert after[k] == before[k];
      assert HasPath(net, after[k], n);
    } else {
      var edges := net(before[top]);
      var c := edges[path[0]].child;
      assert IsPath(net, net(c), path[1..]);
      assert HasPath(net, c, n);
      assert after[top + path[0]] == c;
    }
  }

  lemma {:induction false} RunShift(net: Net, stack: seq<Part>, rounds: nat)
    ensures Run(net, stack, rounds + 1) == Run(net, Step(net, stack), rounds)
  {
    if rounds > 0 {
      RunShift(net, stack, rounds - 1);
    }
  }

  lemma RunFirst(net: Net, stack: seq<Frame>, rounds: nat)
    requires stack != []
    ensures Run(net, StackParts(stack), rounds + 1) == Run(net, StackParts(NextStack(net, stack)), rounds)
  {
    RoundIsStep(net, stack);
    RunShift(net, StackParts(stack), rounds);
  }

  /** The walk takes exactly as many rounds as there is work on its stack. */
  lemma {:induction false} RunsOut(net: Net, stack: seq<Frame>, depths: seq<nat>, work: nat)
    requires Within(net, stack, depths) && Work(net, stack, depths) == work
    ensures Run(net, StackParts(stack), work) == []
    decreases work
  {
    if stack == [] {
      assert work == 0 && StackParts(stack) == [];
    } else {
      OneRoundLess(net, stack, depths, work);
      RunsOut(net, NextStack(net, stack), NextDepths(net, stack, depths), work - 1);
      RunOneMore(net, stack, work - 1);
    }
  }

  lemma OneRoundLess(net: Net, stack: seq<Frame>, depths: seq<nat>, work: nat)
    requires Within(net, stack, depths) && stack != [] && Work(net, stack, depths) == work
    ensures work > 0 && Within(net, NextStack(net, stack), NextDepths(net, stack, depths))
    ensures Work(net, NextStack(net, stack), NextDepths(net, stack, depths)) == work - 1
  {
    RoundUsesWork(net, stack, depths);
  }

  lemma RunOneMore(net: Net, stack: seq<Frame>, rounds: nat)
    requires stack != [] && Run(net, StackParts(NextStack(net, stack)), rounds) == []
    ensures Run(net, StackParts(stack), rounds + 1) == []
  {
    RunFirst(net, stack, rounds);
  }

  /** A walk without a visited set halts exactly on acyclic nets. */
  lemma HaltsIffAcyclic(net: Net, start: seq<Edge>, parents: set<Part>)
    requires ExpandsWithin(net, parents)
    ensures Halts(net, start) <==> Acyclic(net, start)
  {
    if Acyclic(net, start) {
      var d := |parents| + 1;
      AcyclicIsBounded(net, start, parents);
      WithinPush(net, [], [], start, 1.0, d);
      var stack := [] + Frames(start, |start|, 1.0);
      RunsOut(net, stack, [] + Levels(|start|, d - 1), Work(net, stack, [] + Levels(|start|, d - 1)));
      assert StackParts(stack) == ChildParts(start);
    } else {
      forall rounds: nat ensures Run(net, ChildParts(start), rounds) != [] {
        var long := CyclicIsUnbounded(net, start, rounds);
        var stack := ChildParts(start);
        assert IsPath(net, net(start[long[0]].child), long[1..]);
        assert HasPath(net, stack[long[0]], rounds);
        LongPathKeepsRunning(net, stack, rounds, rounds);
      }
    }
  }
}
