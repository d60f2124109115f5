/** The two crossover operators (projekt.py:711-726). The cut point, which the source
    draws with `random.randrange`, is a parameter here, constrained to the range the
    draw can return. */
module Crossover {

  /** Python's `s[:i]` for `i >= 0`: it stops at the end of `s`. */
  function Head(s: seq<int>, i: nat): (r: seq<int>)
    ensures |r| == if i <= |s| then i else |s|
    ensures forall k :: 0 <= k < |r| ==> r[k] == s[k]
  {
    if i <= |s| then s[..i] else s
  }

  /** Python's `s[i:]` for `i >= 0`: empty past the end of `s`. */
  function Tail(s: seq<int>, i: nat): (r: seq<int>)
    ensures |r| == if i <= |s| then |s| - i else 0
    ensures forall k :: 0 <= k < |r| ==> r[k] == s[i + k]
  {
    if i <= |s| then s[i..] else []
  }

  /** Both children of a one-point crossover at `index`. */
  function Cross(p1: seq<int>, p2: seq<int>, index: nat): (seq<int>, seq<int>)
  {
    (Head(p1, index) + Tail(p2, index), Head(p2, index) + Tail(p1, index))
  }

  /** `cross_binary`: the cut `index` is `randrange(1, len(parent_1))`. */
  function CrossBinary(p1: seq<int>, p2: seq<int>, index: nat): (seq<int>, seq<int>)
    requires 1 <= index < |p1|
  {
    Cross(p1, p2, index)
  }

  /** `cross_steps`: `r` is `randrange(2, len(parent_1))`, lowered to an even cut. */
  function CrossSteps(p1: seq<int>, p2: seq<int>, r: nat): (seq<int>, seq<int>)
    requires 2 <= r < |p1|
  {
    Cross(p1, p2, StepCut(r))
  }

  function StepCut(r: nat): (c: nat)
    ensures c % 2 == 0 && c <= r && r - c <= 1
  {
    if r % 2 != 0 then r - 1 else r
  }

  /** Parents of one length: each child takes the first `index` genes of one parent and
      the rest of the other, and has the parents' length. */
  lemma CrossContents(p1: seq<int>, p2: seq<int>, index: nat)
    requires |p1| == |p2| && index <= |p1|
    ensures var (c1, c2) := Cross(p1, p2, index);
      && |c1| == |p1| && |c2| == |p1|
      && (forall k :: 0 <= k < |p1| ==> c1[k] == (if k < index then p1[k] else p2[k]))
      && (forall k :: 0 <= k < |p1| ==> c2[k] == (if k < index then p2[k] else p1[k]))
  {
  }

  /** No gene is lost or made up: the children hold the parents' genes between them. */
  lemma CrossConserves(p1: seq<int>, p2: seq<int>, index: nat)
    requires |p1| == |p2| && index <= |p1|
    ensures var (c1, c2) := Cross(p1, p2, index);
      multiset(c1) + multiset(c2) == multiset(p1) + multiset(p2)
  {
    assert p1 == p1[..index] + p1[index..];
    assert p2 == p2[..index] + p2[index..];
  }

  /** Crossing the children at the same point gives back the parents. */
  lemma CrossUndo(p1: seq<int>, p2: seq<int>, index: nat)
    requires |p1| == |p2| && index <= |p1|
    ensures var (c1, c2) := Cross(p1, p2, index);
      Cross(c1, c2, index) == (p1, p2)
  {
    var (c1, c2) := Cross(p1, p2, index);
    assert c1[..index] == p1[..index] && c1[index..] == p2[index..];
    assert c2[..index] == p2[..index] && c2[index..] == p1[index..];
    assert p1[..index] + p1[index..] == p1;
    assert p2[..index] + p2[index..] == p2;
  }

  /** `cross_binary` on parents of one length: each child starts with the first gene
      of its own parent and ends with the last gene of the other. */
  lemma CrossBinaryMixes(p1: seq<int>, p2: seq<int>, index: nat)
    requires |p1| == |p2| && 1 <= index < |p1|
    ensures var (c1, c2) := CrossBinary(p1, p2, index);
      && |c1| == |p1| && |c2| == |p1|
      && c1[0] == p1[0] && c1[|p1| - 1] == p2[|p1| - 1]
      && c2[0] == p2[0] && c2[|p1| - 1] == p1[|p1| - 1]
  {
    CrossContents(p1, p2, index);
  }

  /** `cross_steps` cuts between gene pairs: every pair of a child is a whole pair of one
      parent, the first pair from its own parent. */
  lemma CrossStepsKeepsPairs(p1: seq<int>, p2: seq<int>, r: nat)
    requires |p1| == |p2| && 2 <= r < |p1|
    ensures var (c1, c2) := CrossSteps(p1, p2, r);
      && |c1| == |p1| && |c2| == |p1|
      && c1[0] == p1[0] && c1[1] == p1[1] && c2[0] == p2[0] && c2[1] == p2[1]
      && forall k :: 0 <= k && 2 * k + 1 < |p1| ==>
           ((c1[2 * k], c1[2 * k + 1]) == (p1[2 * k], p1[2 * k + 1]) && (c2[2 * k], c2[2 * k + 1]) == (p2[2 * k], p2[2 * k + 1]))
           || ((c1[2 * k], c1[2 * k + 1]) == (p2[2 * k], p2[2 * k + 1]) && (c2[2 * k], c2[2 * k + 1]) == (p1[2 * k], p1[2 * k + 1]))
  {
    var c := StepCut(r);
    CrossContents(p1, p2, c);
    forall k | 0 <= k && 2 * k + 1 < |p1|
      ensures 2 * k < c <==> 2 * k + 1 < c
    {
    }
  }
}
