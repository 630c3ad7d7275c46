/** The fixed-size node bitmap of the compatibility interface. */
module NodeMasks {
  import opened Bits

  /** The value of a C int after the cast to unsigned. */
  function AsUnsigned(node: int): int {
    node % 0x1_0000_0000
  }

  lemma WordInRange(node: nat, width: nat, words: nat)
    requires width > 0 && node < words * width
    ensures node / width < words && node % width < width
  {
  }

  lemma SamePlace(j: nat, k: nat, width: nat)
    requires width > 0
    ensures j / width == k / width && j % width == k % width <==> j == k
  {
  }

  /** Setting or clearing bit k of a word adds or takes away 2^k, unless it is there already or not there. */
  lemma WordByValue(x: nat, k: nat)
    ensures Or(x, Pow2(k)) == if x / Pow2(k) % 2 == 1 then x else x + Pow2(k)
    ensures AndNot(x, Pow2(k)) == if x / Pow2(k) % 2 == 1 then x - Pow2(k) else x
  {
    BitIsDigit(x, k);
    OneBitByValue(x, k);
  }

  class NodeMask {
    /** Bits in an unsigned long, and their number in the mask. */
    const width: nat
    const numNodes: nat
    const n: array<nat>

    ghost predicate Valid()
      reads this, n
    {
      && width > 0 && numNodes == n.Length * width && numNodes < 0x8000_0000
      && forall w | 0 <= w < n.Length :: n[w] < Pow2(width)
    }

    predicate HasNode(node: nat)
      reads this, n
    {
      width > 0 && node / width < n.Length && Bit(n[node / width], node % width)
    }

    /** The mask as a mathematical set. */
    ghost function Nodes(): set<nat>
      reads this, n
    {
      set k | 0 <= k < numNodes && HasNode(k)
    }

    constructor (width: nat, words: array<nat>)
      requires width > 0 && words.Length * width < 0x8000_0000
      requires forall w | 0 <= w < words.Length :: words[w] < Pow2(width)
      ensures Valid() && this.width == width && n == words && numNodes == words.Length * width
    {
      this.width, n, numNodes := width, words, words.Length * width;
    }

    /** nodemask_set_compat */
    method Set(node: nat)
      requires Valid() && node < numNodes
      modifies n
      ensures Valid() && Nodes() == old(Nodes()) + {node}
      ensures node / width < n.Length
      ensures var w, p := node / width, Pow2(node % width);
              n[..] == old(n[..])[w := var x := old(n[..])[w]; if x / p % 2 == 1 then x else x + p]
    {
      WordInRange(node, width, n.Length);
      var w, b := node / width, node % width;
      StaysInWidth(n[w], b, width);
      WordByValue(n[w], b);
      label before:
      n[w] := Or(n[w], Pow2(b));
      forall k: nat | k < numNodes
        ensures HasNode(k) <==> old@before(HasNode(k)) || k == node
      {
        WordInRange(k, width, n.Length);
        SamePlace(k, node, width);
        OrBit(old@before(n[w]), Pow2(b), k % width);
        BitOfPow2(b, k % width);
      }
    }

    /** nodemask_clr_compat */
    method Clear(node: nat)
      requires Valid() && node < numNodes
      modifies n
      ensures Valid() && Nodes() == old(Nodes()) - {node}
      ensures node / width < n.Length
      ensures var w, p := node / width, Pow2(node % width);
              n[..] == old(n[..])[w := var x := old(n[..])[w]; if x / p % 2 == 1 then x - p else x]
    {
      WordInRange(node, width, n.Length);
      var w, b := node / width, node % width;
      StaysInWidth(n[w], b, width);
      WordByValue(n[w], b);
      label before:
      n[w] := AndNot(n[w], Pow2(b));
      forall k: nat | k < numNodes
        ensures HasNode(k) <==> old@before(HasNode(k)) && k != node
      {
        WordInRange(k, width, n.Length);
        SamePlace(k, node, width);
        AndNotBit(old@before(n[w]), Pow2(b), k % width);
        BitOfPow2(b, k % width);
      }
    }

    /** nodemask_isset_compat: any int may be asked about. */
    method IsSet(node: int) returns (r: bool)
      requires Valid() && -0x8000_0000 <= node < 0x8000_0000
      ensures r <==> node >= 0 && node in Nodes()
      ensures r <==> 0 <= node < n.Length * width && n[node / width] / Pow2(node % width) % 2 == 1
    {
      if AsUnsigned(node) >= numNodes {
        return false;
      }
      WordInRange(node, width, n.Length);
      TestBit(n[node / width], node % width);
      BitIsDigit(n[node / width], node % width);
      r := And(n[node / width], Pow2(node % width)) != 0;
    }

    /** Any sequence of calls on any starting mask. */
    method Apply(ops: seq<MaskOp>)
      requires Valid() && forall k | 0 <= k < |ops| :: ops[k].node < numNodes
      modifies n
      ensures Valid() && Nodes() == ApplyAll(old(Nodes()), ops)
    {
      for k := 0 to |ops|
        invariant Valid() && ApplyAll(Nodes(), ops[k..]) == ApplyAll(old(Nodes()), ops)
      {
        assert ops[k..][1..] == ops[k + 1..];
        match ops[k]
        case SetNode(node) => Set(node);
        case ClearNode(node) => Clear(node);
      }
    }
  }

  datatype MaskOp = SetNode(node: nat) | ClearNode(node: nat)

  function ApplyAll(nodes: set<nat>, ops: seq<MaskOp>): set<nat>
    decreases |ops|
  {
    if ops == [] then nodes
    else ApplyAll(if ops[0].SetNode? then nodes + {ops[0].node} else nodes - {ops[0].node}, ops[1..])
  }

  /** Call number k set the node, and no later call is about it. */
  predicate SetLast(ops: seq<MaskOp>, node: nat, k: nat) {
    k < |ops| && ops[k] == SetNode(node) && forall j | k < j < |ops| :: ops[j].node != node
  }

  predicate Untouched(ops: seq<MaskOp>, node: nat) {
    forall k | 0 <= k < |ops| :: ops[k].node != node
  }

  lemma SetLastInRest(ops: seq<MaskOp>, node: nat, k: nat)
    requires ops != []
    ensures SetLast(ops[1..], node, k) <==> SetLast(ops, node, k + 1)
  {
  }

  /** A node is in the mask at the end exactly when the last call about it set it, or there was none and
      it was in the mask at the start. */
  lemma {:induction false} LastCallDecides(nodes: set<nat>, ops: seq<MaskOp>, node: nat)
    ensures node in ApplyAll(nodes, ops) <==>
              (node in nodes && Untouched(ops, node)) || exists k: nat :: SetLast(ops, node, k)
    decreases |ops|
  {
    if ops == [] {
    } else {
      var rest := ops[1..];
      LastCallDecides(if ops[0].SetNode? then nodes + {ops[0].node} else nodes - {ops[0].node}, rest, node);
      if exists k: nat :: SetLast(rest, node, k) {
        var k: nat :| SetLast(rest, node, k);
        SetLastInRest(ops, node, k);
      }
      if exists k: nat :: k > 0 && SetLast(ops, node, k) {
        var k: nat :| k > 0 && SetLast(ops, node, k);
        SetLastInRest(ops, node, k - 1);
      }
      assert Untouched(ops, node) <==> Untouched(rest, node) && ops[0].node != node;
      assert SetLast(ops, node, 0) <==> ops[0] == SetNode(node) && Untouched(rest, node);
    }
  }
}
