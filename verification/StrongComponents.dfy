/**
 Tarjan's strongly connected components, as app/router runs them over the balancer graph
 (fallback_chain.go, components) and over the loopback states (loops.go, stronglyConnected).
 */
module StrongComponents {
  import opened StringOrder
  import opened Digraphs

  /** c lists one class of mutual reachability, sorted. */
  ghost predicate IsComponent<L>(g: Digraph<L>, c: seq<string>) {
    && c != [] && Sorted(c) && Distinct(c)
    && forall x, y {:trigger Reaches(g, x, y)} :: x in c ==> (y in c <==> Reaches(g, x, y) && Reaches(g, y, x))
  }

  ghost predicate Disjoint(out: seq<seq<string>>) {
    forall k, l, v :: 0 <= k < l < |out| && v in out[k] ==> v !in out[l]
  }

  ghost predicate Covered(out: seq<seq<string>>, v: string) {
    exists k :: 0 <= k < |out| && v in out[k]
  }

  // The invariant. Gray vertices are those whose visit has not returned.

  /** Visit numbers are dense enough to grow, and increase along the stack. */
  ghost predicate Numbered(index: map<string, nat>, stack: seq<string>) {
    && (forall v :: v in index ==> index[v] < |index|)
    && (forall i :: 0 <= i < |stack| ==> stack[i] in index)
    && (forall i, j {:trigger index[stack[i]], index[stack[j]]} :: 0 <= i < j < |stack| ==> index[stack[i]] < index[stack[j]])
  }

  /** Finished vertices lead to seen ones only, and emitted vertices to emitted ones only. */
  ghost predicate Explored<L>(g: Digraph<L>, gray: set<string>, index: map<string, nat>, stack: seq<string>) {
    && (forall v :: v in gray ==> v in stack)
    && (forall v, w {:trigger Step(g, v, w)} :: v in index && v !in gray && Step(g, v, w) ==> w in index)
    && (forall v, w {:trigger Step(g, v, w)} :: v in index && v !in stack && Step(g, v, w) ==> w !in stack)
  }

  /** Down the stack everything is reachable, and from everywhere some gray vertex at or below. */
  ghost predicate Linked<L>(g: Digraph<L>, gray: set<string>, stack: seq<string>) {
    && (forall i, j {:trigger Reaches(g, stack[i], stack[j])} :: 0 <= i <= j < |stack| ==> Reaches(g, stack[i], stack[j]))
    && (forall j {:trigger ReachesGray(g, gray, stack, j)} :: 0 <= j < |stack| ==> ReachesGray(g, gray, stack, j))
  }

  ghost predicate ReachesGray<L>(g: Digraph<L>, gray: set<string>, stack: seq<string>, j: nat)
    requires j < |stack|
  {
    exists i :: 0 <= i <= j && stack[i] in gray && Reaches(g, stack[j], stack[i])
  }

  ghost predicate Emitted<L>(g: Digraph<L>, index: map<string, nat>, stack: seq<string>, out: seq<seq<string>>) {
    && (forall k {:trigger IsComponent(g, out[k])} :: 0 <= k < |out| ==> IsComponent(g, out[k]))
    && Disjoint(out)
    && (forall v {:trigger Covered(out, v)} :: v in index && v !in stack <==> Covered(out, v))
  }

  lemma StackDistinct(index: map<string, nat>, stack: seq<string>)
    requires Numbered(index, stack)
    ensures Distinct(stack)
  {}

  /** A stack without repetition is split at n into what is below and what is above. */
  lemma SplitStack(stack: seq<string>, n: nat, x: string)
    requires Distinct(stack) && n <= |stack|
    ensures x in stack[n..] <==> x in stack && x !in stack[..n]
  {
    assert stack == stack[..n] + stack[n..];
    assert forall j :: 0 <= j < |stack| - n ==> stack[n..][j] == stack[n + j];
  }

  lemma PositionAbove(stack: seq<string>, n: nat, i: nat)
    requires Distinct(stack) && n <= |stack| && i < |stack| && stack[i] in stack[n..]
    ensures i >= n
  {
    var j :| 0 <= j < |stack| - n && stack[n..][j] == stack[i];
    assert stack[n + j] == stack[i];
  }

  // Pushing a vertex that every gray one reaches.

  lemma PushNumbered(index: map<string, nat>, stack: seq<string>, v: string)
    requires Numbered(index, stack) && v !in index
    ensures Numbered(index[v := |index|], stack + [v])
  {
    assert index[v := |index|].Keys == index.Keys + {v};
  }

  lemma PushExplored<L>(g: Digraph<L>, gray: set<string>, index: map<string, nat>, stack: seq<string>, v: string)
    requires Explored(g, gray, index, stack) && v !in index
    ensures Explored(g, gray + {v}, index[v := |index|], stack + [v])
  {
    forall a, w | a in index[v := |index|] && a !in stack + [v] && Step(g, a, w) ensures w !in stack + [v] {
      assert a in index && a !in gray;
    }
  }

  lemma PushLinked<L>(g: Digraph<L>, gray: set<string>, stack: seq<string>, v: string)
    requires Linked(g, gray, stack)
    requires forall x :: x in gray ==> Reaches(g, x, v)
    ensures Linked(g, gray + {v}, stack + [v])
  {
    ReachesSelf(g, v);
    var stack' := stack + [v];
    forall j | 0 <= j < |stack| ensures Reaches(g, stack[j], v) && ReachesGray(g, gray + {v}, stack', j) {
      var k := GrayBelow(g, gray, stack, j);
      ReachesTransitive(g, stack[j], stack[k], v);
      assert stack'[k] in gray + {v} && Reaches(g, stack'[j], stack'[k]);
    }
    assert stack'[|stack|] in gray + {v};
  }

  lemma GrayBelow<L>(g: Digraph<L>, gray: set<string>, stack: seq<string>, j: nat) returns (k: nat)
    requires j < |stack| && Linked(g, gray, stack)
    ensures k <= j && stack[k] in gray && Reaches(g, stack[j], stack[k])
  {
    assert ReachesGray(g, gray, stack, j);
    k :| 0 <= k <= j && stack[k] in gray && Reaches(g, stack[j], stack[k]);
  }

  lemma PushEmitted<L>(g: Digraph<L>, index: map<string, nat>, stack: seq<string>, out: seq<seq<string>>, v: string)
    requires Emitted(g, index, stack, out) && v !in index
    ensures Emitted(g, index[v := |index|], stack + [v], out)
  {
    forall x ensures x in index[v := |index|] && x !in stack + [v] <==> Covered(out, x) {}
  }

  // A vertex at position n is finished and reaches a lower position: it turns black and stays.

  lemma BlackenLinked<L>(g: Digraph<L>, gray: set<string>, stack: seq<string>, n: nat, j: nat)
    requires Distinct(stack) && j < n < |stack|
    requires Linked(g, gray + {stack[n]}, stack) && Reaches(g, stack[n], stack[j])
    ensures Linked(g, gray, stack)
  {
    var v := stack[n];
    var h := GrayBelow(g, gray + {v}, stack, j);
    ReachesTransitive(g, v, stack[j], stack[h]);
    forall k | 0 <= k < |stack| ensures ReachesGray(g, gray, stack, k) {
      var i := GrayBelow(g, gray + {v}, stack, k);
      if i == n { ReachesTransitive(g, stack[k], v, stack[h]); }
    }
  }

  // No edge leads from position n on to the part below: position n on is a component.

  ghost predicate CutAt<L>(g: Digraph<L>, stack: seq<string>, n: nat)
    requires n <= |stack|
  {
    forall i, j :: n <= i < |stack| && 0 <= j < n ==> !Step(g, stack[i], stack[j])
  }

  /** From the part above a cut only that part and the emitted vertices can be reached. */
  lemma AboveCut<L>(g: Digraph<L>, gray: set<string>, index: map<string, nat>, stack: seq<string>, n: nat,
                    x: string, y: string)
    requires n < |stack| && Numbered(index, stack) && Explored(g, gray, index, stack) && CutAt(g, stack, n)
    requires forall v, w :: v in stack[n..] && Step(g, v, w) ==> w in index
    requires x in stack[n..] && Reaches(g, x, y)
    ensures y in index && (y in stack ==> y in stack[n..])
  {
    StackDistinct(index, stack);
    var s := set z | z in index.Keys && z !in stack[..n];
    forall a, b | a in s && Step(g, a, b) ensures b in s {
      SplitStack(stack, n, a);
    }
    SplitStack(stack, n, x);
    ReachStaysIn(g, s, x, y);
    SplitStack(stack, n, y);
  }

  lemma CutIsComponent<L>(g: Digraph<L>, gray: set<string>, index: map<string, nat>, stack: seq<string>, n: nat,
                          c: seq<string>)
    requires n < |stack| && Numbered(index, stack) && Explored(g, gray, index, stack) && CutAt(g, stack, n)
    requires Linked(g, gray, stack)
    requires forall i :: n < i < |stack| ==> stack[i] !in gray
    requires forall w :: Step(g, stack[n], w) ==> w in index
    requires Sorted(c) && Distinct(c) && forall x :: x in c <==> x in stack[n..]
    ensures IsComponent(g, c)
  {
    var v := stack[n];
    StackDistinct(index, stack);
    assert stack[n..][0] == v;
    assert v in c;
    forall x | x in c ensures Reaches(g, x, v) && Reaches(g, v, x) {
      var j :| n <= j < |stack| && stack[j] == x;
      var i := GrayBelow(g, gray, stack, j);
      AboveCut(g, gray, index, stack, n, x, stack[i]);
      PositionAbove(stack, n, i);
      assert Reaches(g, stack[n], stack[j]);
    }
    forall x, y | x in c ensures y in c <==> Reaches(g, x, y) && Reaches(g, y, x) {
      if y in c {
        ReachesTransitive(g, x, v, y);
        ReachesTransitive(g, y, v, x);
      } else if Reaches(g, x, y) {
        AboveCut(g, gray, index, stack, n, x, y);
        if Reaches(g, y, x) { EmittedReach(g, gray, index, stack, y, x); }
      }
    }
  }

  /** From an emitted vertex only emitted ones can be reached. */
  lemma EmittedReach<L>(g: Digraph<L>, gray: set<string>, index: map<string, nat>, stack: seq<string>, y: string,
                        x: string)
    requires Explored(g, gray, index, stack) && y in index && y !in stack && Reaches(g, y, x)
    ensures x !in stack
  {
    var s := set z | z in index.Keys && z !in stack;
    ReachStaysIn(g, s, y, x);
  }

  lemma PopExplored<L>(g: Digraph<L>, gray: set<string>, index: map<string, nat>, stack: seq<string>, n: nat)
    requires n < |stack| && Distinct(stack) && Explored(g, gray + {stack[n]}, index, stack) && CutAt(g, stack, n)
    requires forall i :: n <= i < |stack| ==> stack[i] !in gray
    requires forall w :: Step(g, stack[n], w) ==> w in index
    ensures Explored(g, gray, index, stack[..n])
  {
    forall v, w | v in index && v !in stack[..n] && Step(g, v, w) ensures w !in stack[..n] {
      SplitStack(stack, n, v);
    }
    forall v | v in gray ensures v in stack[..n] {
      assert v in stack;
      SplitStack(stack, n, v);
    }
  }

  lemma PopLinked<L>(g: Digraph<L>, gray: set<string>, stack: seq<string>, n: nat)
    requires n < |stack| && Distinct(stack) && Linked(g, gray + {stack[n]}, stack)
    ensures Linked(g, gray, stack[..n])
  {
    var below := stack[..n];
    forall j | 0 <= j < n ensures ReachesGray(g, gray, below, j) {
      var i := GrayBelow(g, gray + {stack[n]}, stack, j);
      assert below[i] in gray && Reaches(g, below[j], below[i]);
    }
  }

  lemma PopEmitted<L>(g: Digraph<L>, index: map<string, nat>, stack: seq<string>, out: seq<seq<string>>, n: nat,
                      c: seq<string>)
    requires n < |stack| && Numbered(index, stack) && Emitted(g, index, stack, out) && IsComponent(g, c)
    requires forall x :: x in c <==> x in stack[n..]
    ensures Emitted(g, index, stack[..n], out + [c])
  {
    StackDistinct(index, stack);
    var out' := out + [c];
    forall v ensures Covered(out', v) <==> Covered(out, v) || v in c {
      assert forall k :: 0 <= k < |out| ==> out'[k] == out[k];
      assert out'[|out|] == c;
    }
    forall v ensures v in index && v !in stack[..n] <==> Covered(out', v) { SplitStack(stack, n, v); }
    forall k, v | 0 <= k < |out| && v in out[k] ensures v !in c { assert Covered(out, v); }
  }

  // What a visit knows of the edges into the part of the stack it did not push.

  /** Every edge from position n on, exempt vertices aside, to a position below n leads to bound or above. */
  ghost predicate EdgesBounded<L>(g: Digraph<L>, index: map<string, nat>, stack: seq<string>, n: nat,
                                  exempt: set<string>, bound: nat)
    requires n <= |stack| && forall j :: 0 <= j < n ==> stack[j] in index
  {
    forall i, j {:trigger Step(g, stack[i], stack[j])} ::
      n <= i < |stack| && 0 <= j < n && stack[i] !in exempt && Step(g, stack[i], stack[j]) ==> bound <= index[stack[j]]
  }

  /** bound is the number of a vertex below position n that v reaches. */
  ghost predicate Lowlink<L>(g: Digraph<L>, index: map<string, nat>, stack: seq<string>, n: nat, v: string,
                             bound: nat)
    requires n <= |stack| && forall j :: 0 <= j < n ==> stack[j] in index
  {
    exists j {:trigger Reaches(g, v, stack[j])} :: 0 <= j < n && bound == index[stack[j]] && Reaches(g, v, stack[j])
  }

  function Min(a: nat, b: nat): nat { if a < b then a else b }

  /** What holds of v, at position n, while its edges are followed. */
  ghost predicate LowOk<L>(g: Digraph<L>, index: map<string, nat>, stack: seq<string>, n: nat, v: string, low: nat)
    requires n <= |stack| && (forall j :: 0 <= j < n ==> stack[j] in index) && v in index
  {
    && (low == index[v] || (low < index[v] && Lowlink(g, index, stack, n, v, low)))
    && EdgesBounded(g, index, stack, n, {v}, low)
  }

  ghost predicate Continues(index0: map<string, nat>, stack0: seq<string>, index: map<string, nat>, stack: seq<string>) {
    && (forall x {:trigger index[x]} {:trigger x in index} :: x in index0 ==> x in index && index[x] == index0[x])
    && stack0 <= stack
    && (forall i :: |stack0| <= i < |stack| ==> stack[i] !in index0)
  }

  lemma ContinuesThrough(index0: map<string, nat>, stack0: seq<string>, index1: map<string, nat>, stack1: seq<string>,
                         index2: map<string, nat>, stack2: seq<string>)
    requires Continues(index0, stack0, index1, stack1) && Continues(index1, stack1, index2, stack2)
    ensures Continues(index0, stack0, index2, stack2)
  {
    forall i | |stack0| <= i < |stack2| ensures stack2[i] !in index0 {
      if i < |stack1| { assert stack2[i] == stack1[i]; } else { assert stack2[i] !in index1; }
    }
  }

  lemma ContinuesAfterPush(index0: map<string, nat>, stack0: seq<string>, v: string, k: nat, index: map<string, nat>,
                           stack: seq<string>)
    requires v !in index0 && Continues(index0[v := k], stack0 + [v], index, stack)
    ensures Continues(index0, stack0, index, stack) && Continues(index0, stack0, index, stack[..|stack0|])
    ensures v in index && index[v] == k
  {
    assert index0[v := k][v] == k;
    assert stack[..|stack0|] == stack0;
    forall x | x in index0 ensures x in index && index[x] == index0[x] {
      assert x in index0[v := k];
    }
  }

  /** v, at position n, takes over the low link of its successor w, whose visit began at stack0. */
  lemma Inherit<L>(g: Digraph<L>, index0: map<string, nat>, stack0: seq<string>, index: map<string, nat>,
                   stack: seq<string>, n: nat, v: string, w: string, lowV: nat, lowW: nat)
    requires Numbered(index0, stack0) && Numbered(index, stack) && Continues(index0, stack0, index, stack)
    requires n < |stack0| && stack0[n] == v && LowOk(g, index0, stack0, n, v, lowV)
    requires Step(g, v, w) && w in index && index[w] >= |index0|
    requires if |stack0| == |stack| then lowW == index[w] else lowW < index[w] && Lowlink(g, index, stack, |stack0|, w, lowW)
    requires EdgesBounded(g, index, stack, |stack0|, {}, lowW)
    ensures LowOk(g, index, stack, n, v, Min(lowV, lowW))
  {
    var l := Min(lowV, lowW);
    assert stack[..|stack0|] == stack0;
    if lowV < index0[v] {
      var j :| 0 <= j < n && lowV == index0[stack0[j]] && Reaches(g, v, stack0[j]);
      assert Reaches(g, v, stack[j]) && lowV == index[stack[j]];
    }
    if |stack0| < |stack| {
      var j :| 0 <= j < |stack0| && lowW == index[stack[j]] && Reaches(g, w, stack[j]);
      ReachesStep(g, v, w);
      ReachesTransitive(g, v, w, stack[j]);
    }
    forall i, j | n <= i < |stack| && 0 <= j < n && stack[i] != v && Step(g, stack[i], stack[j])
      ensures l <= index[stack[j]]
    {
      if i < |stack0| { assert Step(g, stack0[i], stack0[j]); }
    }
  }

  /** The first i edges of a vertex at position n have been followed, and low is no higher than they allow. */
  ghost predicate Followed<L>(g: Digraph<L>, index: map<string, nat>, stack: seq<string>, n: nat, es: seq<Edge<L>>,
                              i: nat, low: nat)
    requires n <= |stack| && i <= |es|
  {
    forall k :: 0 <= k < i ==>
      es[k].to in index && (forall j :: 0 <= j < n && stack[j] == es[k].to ==> low <= index[es[k].to])
  }

  lemma FollowedNext<L>(g: Digraph<L>, index0: map<string, nat>, stack0: seq<string>, index: map<string, nat>,
                        stack: seq<string>, n: nat, es: seq<Edge<L>>, i: nat, low0: nat, low: nat)
    requires n <= |stack0| && i < |es| && Continues(index0, stack0, index, stack)
    requires Followed(g, index0, stack0, n, es, i, low0) && low <= low0 && es[i].to in index
    requires forall j :: 0 <= j < n && stack[j] == es[i].to ==> low <= index[es[i].to]
    ensures Followed(g, index, stack, n, es, i + 1, low)
  {
    assert stack[..|stack0|] == stack0;
  }

  lemma AllEdgesBounded<L>(g: Digraph<L>, index: map<string, nat>, stack: seq<string>, n: nat, v: string, low: nat)
    requires n <= |stack| && forall j :: 0 <= j < n ==> stack[j] in index
    requires EdgesBounded(g, index, stack, n, {v}, low)
    requires Followed(g, index, stack, n, Out(g, v), |Out(g, v)|, low)
    ensures EdgesBounded(g, index, stack, n, {}, low)
    ensures forall w :: Step(g, v, w) ==> w in index
  {}

  lemma GraysReach<L>(g: Digraph<L>, gray: set<string>, v: string, w: string)
    requires Step(g, v, w) && forall x :: x in gray ==> Reaches(g, x, v)
    ensures forall x :: x in gray + {v} ==> Reaches(g, x, w)
  {
    ReachesStep(g, v, w);
    forall x | x in gray ensures Reaches(g, x, w) { ReachesTransitive(g, x, v, w); }
  }

  /** The variables that the recursive visit closes over. */
  class Tarjan<L> {
    const g: Digraph<L>
    ghost const universe: set<string>
    var index: map<string, nat>
    var low: map<string, nat>
    var onStack: set<string>
    var stack: seq<string>
    var out: seq<seq<string>>

    constructor (g: Digraph<L>, ghost universe: set<string>)
      requires Within(g, universe)
      ensures this.g == g && this.universe == universe && Valid({})
      ensures index == map[] && stack == [] && out == []
    {
      this.g, this.universe := g, universe;
      index, low, onStack, stack, out := map[], map[], {}, [], [];
    }

    ghost predicate Valid(gray: set<string>)
      reads this
    {
      && Numbered(index, stack) && Explored(g, gray, index, stack) && Linked(g, gray, stack)
      && Emitted(g, index, stack, out)
      && Within(g, universe) && index.Keys <= universe && low.Keys == index.Keys
      && (forall v :: v in onStack <==> v in stack)
    }

    method Push(v: string, ghost gray: set<string>)
      requires Valid(gray) && v in universe && v !in index
      requires forall x :: x in gray ==> Reaches(g, x, v)
      modifies this
      ensures Valid(gray + {v})
      ensures index == old(index)[v := old(|index|)] && low == old(low)[v := old(|index|)]
      ensures stack == old(stack) + [v] && out == old(out)
    {
      PushNumbered(index, stack, v);
      PushExplored(g, gray, index, stack, v);
      PushLinked(g, gray, stack, v);
      PushEmitted(g, index, stack, out, v);
      index, low := index[v := |index|], low[v := |index|];
      stack, onStack := stack + [v], onStack + {v};
    }

    /** Pops the stack down to v, at position n, and returns what it popped, sorted. */
    method PopTo(v: string, ghost n: nat) returns (component: seq<string>)
      requires n < |stack| && stack[n] == v && Distinct(stack)
      requires forall x :: x in onStack <==> x in stack
      modifies this`stack, this`onStack
      ensures stack == old(stack)[..n]
      ensures forall x :: x in onStack <==> x in stack
      ensures Sorted(component) && Distinct(component) && forall x :: x in component <==> x in old(stack)[n..]
    {
      component := [];
      while true
        invariant n < |stack| && stack <= old(stack)
        invariant Distinct(component) && forall x :: x in component <==> x in old(stack)[|stack|..]
        invariant forall x :: x in onStack <==> x in stack
        decreases |stack|
      {
        ghost var whole, k := old(stack), |stack| - 1;
        var w := stack[|stack| - 1];
        assert whole[k..] == [w] + whole[k + 1..];
        SplitStack(whole, k + 1, w);
        forall x ensures x in stack[..k] <==> x in stack && x != w {
          assert stack == stack[..k] + [w];
          SplitStack(stack, k, x);
        }
        stack, onStack := stack[..|stack| - 1], onStack - {w};
        component := component + [w];
        if w == v { break; }
      }
      SortSorts(component);
      component := Sort(component);
    }

    /** v, at position n, is finished: it is emitted with what is above it, or left for a vertex below. */
    method Finish(v: string, ghost n: nat, ghost gray: set<string>)
      requires Valid(gray + {v}) && n < |stack| && stack[n] == v
      requires forall i :: n <= i < |stack| ==> stack[i] !in gray
      requires low[v] == index[v] || (low[v] < index[v] && Lowlink(g, index, stack, n, v, low[v]))
      requires EdgesBounded(g, index, stack, n, {v}, low[v])
      requires Followed(g, index, stack, n, Out(g, v), |Out(g, v)|, low[v])
      modifies this`stack, this`onStack, this`out
      ensures Valid(gray)
      ensures stack == old(stack) || (stack == old(stack)[..n] && low[v] == index[v])
      ensures low[v] == index[v] ==> stack == old(stack)[..n]
      ensures old(out) <= out && EdgesBounded(g, index, old(stack), n, {}, low[v])
    {
      StackDistinct(index, stack);
      AllEdgesBounded(g, index, stack, n, v, low[v]);
      if low[v] == index[v] {
        var component := PopTo(v, n);
        CutIsComponent(g, gray + {v}, index, old(stack), n, component);
        PopExplored(g, gray, index, old(stack), n);
        PopLinked(g, gray, old(stack), n);
        PopEmitted(g, index, old(stack), out, n, component);
        out := out + [component];
      } else {
        ghost var j :| 0 <= j < n && low[v] == index[stack[j]] && Reaches(g, v, stack[j]);
        BlackenLinked(g, gray, stack, n, j);
      }
    }

    /** What the visit of v, at position n, knows while it follows v's edges. */
    ghost predicate Exploring(v: string, n: nat, gray: set<string>)
      reads this
    {
      && Valid(gray + {v}) && n < |stack| && stack[n] == v && v !in gray
      && (forall i :: n <= i < |stack| ==> stack[i] !in gray)
      && LowOk(g, index, stack, n, v, low[v])
    }

    /** Low links given were kept. */
    ghost predicate Keeps(low0: map<string, nat>)
      reads this
    {
      forall x :: x in low0 ==> x in low && low[x] == low0[x]
    }

    /** One turn of the loop over v's edges, w not seen before. */
    method FollowUnseen(v: string, w: string, ghost n: nat, ghost gray: set<string>)
      requires Exploring(v, n, gray) && Step(g, v, w) && w !in index
      requires forall x :: x in gray ==> Reaches(g, x, v)
      modifies this
      ensures Exploring(v, n, gray) && Continues(old(index), old(stack), index, stack) && Keeps(old(low) - {v})
      ensures old(out) <= out && w in index && low[v] <= old(low[v])
      ensures forall j :: 0 <= j < n ==> stack[j] != w
      decreases universe - index.Keys, 1
    {
      GraysReach(g, gray, v, w);
      Visit(w, gray + {v});
      Inherit(g, old(index), old(stack), index, stack, n, v, w, low[v], low[w]);
      low := low[v := Min(low[v], low[w])];
    }

    /** One turn of the loop over v's edges. */
    method Follow(v: string, w: string, ghost n: nat, ghost gray: set<string>)
      requires Exploring(v, n, gray) && Step(g, v, w)
      requires forall x :: x in gray ==> Reaches(g, x, v)
      modifies this
      ensures Exploring(v, n, gray) && Continues(old(index), old(stack), index, stack) && Keeps(old(low) - {v})
      ensures old(out) <= out && w in index && low[v] <= old(low[v])
      ensures forall j :: 0 <= j < n && stack[j] == w ==> low[v] <= index[w]
      decreases universe - index.Keys, 2
    {
      if w !in index {
        FollowUnseen(v, w, n, gray);
      } else if w in onStack {
        ReachesStep(g, v, w);
        low := low[v := Min(low[v], index[w])];
      }
    }

    method Visit(v: string, ghost gray: set<string>)
      requires Valid(gray) && v in universe && v !in index
      requires forall x :: x in gray ==> Reaches(g, x, v)
      modifies this
      ensures Valid(gray) && Continues(old(index), old(stack), index, stack) && Keeps(old(low)) && old(out) <= out
      ensures v in index && index[v] == old(|index|)
      ensures if |stack| == old(|stack|) then low[v] == index[v]
              else low[v] < index[v] && Lowlink(g, index, stack, old(|stack|), v, low[v])
      ensures EdgesBounded(g, index, stack, old(|stack|), {}, low[v])
      decreases universe - index.Keys, 0
    {
      Push(v, gray);
      FollowAll(v, old(|stack|), gray);
      ContinuesAfterPush(old(index), old(stack), v, old(|index|), index, stack);
      Finish(v, old(|stack|), gray);
    }

    /** The loop over v's edges. */
    method FollowAll(v: string, ghost n: nat, ghost gray: set<string>)
      requires Exploring(v, n, gray) && low[v] == index[v] && n == |stack| - 1
      requires forall x :: x in gray ==> Reaches(g, x, v)
      modifies this
      ensures Exploring(v, n, gray) && Continues(old(index), old(stack), index, stack) && Keeps(old(low) - {v})
      ensures old(out) <= out
      ensures Followed(g, index, stack, n, Out(g, v), |Out(g, v)|, low[v])
      decreases universe - index.Keys, 3
    {
      var es, i := Out(g, v), 0;
      while i < |es|
        invariant 0 <= i <= |es|
        invariant Exploring(v, n, gray) && Continues(old(index), old(stack), index, stack) && Keeps(old(low) - {v})
        invariant old(out) <= out
        invariant Followed(g, index, stack, n, es, i, low[v])
      {
        ghost var index0, stack0, low0 := index, stack, low[v];
        assert Step(g, v, es[i].to);
        Follow(v, es[i].to, n, gray);
        FollowedNext(g, index0, stack0, index, stack, n, es, i, low0, low[v]);
        ContinuesThrough(old(index), old(stack), index0, stack0, index, stack);
        i := i + 1;
      }
    }
  }

  lemma NoGrayNoStack<L>(g: Digraph<L>, stack: seq<string>)
    requires Linked(g, {}, stack)
    ensures stack == []
  {
    if stack != [] {
      var k := GrayBelow(g, {}, stack, 0);
      assert false;
    }
  }

  /** components and stronglyConnected: the classes of mutual reachability, each listed once and sorted. */
  method Components<L>(g: Digraph<L>, tags: seq<string>) returns (out: seq<seq<string>>)
    requires Within(g, set t | t in tags)
    ensures forall k :: 0 <= k < |out| ==> IsComponent(g, out[k])
    ensures Disjoint(out)
    ensures forall v :: Covered(out, v) <==> v in tags
  {
    ghost var universe := set t | t in tags;
    var t := new Tarjan(g, universe);
    for i := 0 to |tags|
      invariant t.Valid({}) && t.g == g && t.universe == universe && t.stack == []
      invariant forall k :: 0 <= k < i ==> tags[k] in t.index
    {
      if tags[i] !in t.index {
        t.Visit(tags[i], {});
        NoGrayNoStack(g, t.stack);
      }
    }
    out := t.out;
  }
}
