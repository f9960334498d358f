/** The lane-mask stack of sample/shader.h, which emulates `if` when every
    "scalar" is a pack of SIMD lanes run in lockstep. Entering a conditional
    scope ANDs its condition into the current mask; leaving it restores the
    mask of the enclosing scope; a masked assignment writes only the lanes
    the current mask selects. One `MaskStack` object stands for the
    per-thread globals. */
module LaneMasks {

  /** One boolean per lane: lane `i` may commit side effects iff `m[i]`. */
  type Mask = seq<bool>

  /** `c_max_depth`: slots of the multiplied-mask stack. The single-condition
      history has one slot fewer. */
  const MaxDepth: nat := 16

  /** `mask_type(true)`: every lane set. */
  function Full(lanes: nat): (m: Mask)
    ensures |m| == lanes && forall i :: 0 <= i < lanes ==> m[i]
  {
    seq(lanes, _ => true)
  }

  /** A zero-initialised mask: no lane set. */
  function Clear(lanes: nat): (m: Mask)
    ensures |m| == lanes && forall i :: 0 <= i < lanes ==> !m[i]
  {
    seq(lanes, _ => false)
  }

  /** Lanewise `&` of two masks. */
  function And(a: Mask, b: Mask): (m: Mask)
    requires |a| == |b|
    ensures |m| == |a| && forall i :: 0 <= i < |a| ==> (m[i] <==> a[i] && b[i])
  {
    seq(|a|, i requires 0 <= i < |a| => a[i] && b[i])
  }

  /** Lanewise `!` of a mask. */
  function Not(a: Mask): (m: Mask)
    ensures |m| == |a| && forall i :: 0 <= i < |a| ==> (m[i] <==> !a[i])
  {
    seq(|a|, i requires 0 <= i < |a| => !a[i])
  }

  /** Stack slots `mult[0..d]` are each the AND of the slot below with the
      condition recorded for it. */
  ghost predicate Chained(mult: seq<Mask>, single: seq<Mask>, d: nat)
    requires d < |mult| && d <= |single|
  {
    forall k :: 0 <= k < d ==>
      |single[k]| == |mult[k]| && mult[k + 1] == And(single[k], mult[k])
  }

  /** In a chained stack, a lane is set at level `d` exactly when it is set
      at the bottom and in every condition recorded below `d`. */
  lemma {:induction false} ChainedIsConjunction(mult: seq<Mask>, single: seq<Mask>, d: nat, lane: nat)
    requires d < |mult| && d <= |single| && Chained(mult, single, d)
    requires lane < |mult[0]| && forall k :: 0 <= k < d ==> lane < |single[k]|
    ensures lane < |mult[d]|
    ensures mult[d][lane] <==> mult[0][lane] && forall k :: 0 <= k < d ==> single[k][lane]
  {
    if d > 0 {
      assert Chained(mult, single, d - 1);
      ChainedIsConjunction(mult, single, d - 1, lane);
      assert mult[d] == And(single[d - 1], mult[d - 1]);
    }
  }

  class MaskStack {
    /** Number of lanes in a mask. */
    const lanes: nat
    /** `g_multipliedMasks`: slot `k` is the mask in force at depth `k`. */
    const multiplied: array<Mask>
    /** `g_singleMasks`: slot `k` is the raw condition pushed at depth `k`. */
    const single: array<Mask>
    /** `g_currentMask`. */
    var current: Mask
    /** `g_masksCount`. */
    var depth: nat

    /** Shapes of the globals: their sizes, the depth bound and mask widths. */
    ghost predicate Valid()
      reads this, multiplied, single
    {
      multiplied.Length == MaxDepth && single.Length == MaxDepth - 1 &&
      depth < MaxDepth && |current| == lanes &&
      (forall k :: 0 <= k < MaxDepth ==> |multiplied[k]| == lanes) &&
      (forall k :: 0 <= k < MaxDepth - 1 ==> |single[k]| == lanes)
    }

    /** The stack discipline: the current mask is the top slot, and every
        slot up to the top is the slot below ANDed with its condition. */
    ghost predicate Consistent()
      reads this, multiplied, single
    {
      Valid() && current == multiplied[depth] &&
      Chained(multiplied[..], single[..], depth)
    }

    /** The thread-local globals before `init_for_thread`: static storage,
        so every mask is zero (no lane set) and the depth is 0. */
    constructor (lanes: nat)
      ensures this.lanes == lanes && depth == 0
      ensures Valid() && Consistent()
      ensures fresh(multiplied) && fresh(single)
      ensures current == Clear(lanes)
      ensures forall k :: 0 <= k < MaxDepth ==> multiplied[k] == Clear(lanes)
      ensures forall k :: 0 <= k < MaxDepth - 1 ==> single[k] == Clear(lanes)
    {
      this.lanes := lanes;
      multiplied := new Mask[MaxDepth](_ => Clear(lanes));
      single := new Mask[MaxDepth - 1](_ => Clear(lanes));
      current := Clear(lanes);
      depth := 0;
    }

    /** `init_for_thread`: the current mask and the bottom slot become all
        lanes. The depth counter is left as it is, so the stack discipline
        is established only when the depth is already 0. */
    method InitForThread()
      requires Valid()
      modifies this, multiplied
      ensures Valid() && depth == old(depth)
      ensures current == Full(lanes)
      ensures multiplied[..] == old(multiplied[..])[0 := Full(lanes)]
      ensures old(depth) == 0 ==> Consistent()
    {
      current := Full(lanes);
      multiplied[0] := current;
    }

    /** The `mask_pusher` constructor: records `condition` at the current
        depth, ANDs it into the current mask, stores that one level up and
        increments the depth. The assertion on the depth is the requires. */
    method Push(condition: Mask)
      requires Valid() && |condition| == lanes
      requires depth < MaxDepth - 1
      modifies this, multiplied, single
      ensures Valid() && depth == old(depth) + 1
      ensures single[..] == old(single[..])[old(depth) := condition]
      ensures current == And(condition, old(current))
      ensures multiplied[..] == old(multiplied[..])[depth := current]
      ensures forall i :: 0 <= i < lanes && current[i] ==> old(current)[i]
      ensures old(Consistent()) ==> Consistent()
    {
      single[depth] := condition;
      var newMask := And(condition, current);
      depth := depth + 1;
      multiplied[depth] := newMask;
      current := newMask;
      assert forall k :: 0 <= k < depth - 1 ==> single[k] == old(single[k]);
      assert forall k :: 0 <= k < depth ==> multiplied[k] == old(multiplied[k]);
    }

    /** The `mask_pusher` destructor: decrements the depth and takes the mask
        stored there. Under the stack discipline this is the mask that was
        current before the matching push. */
    method Pop()
      requires Valid() && depth > 0
      modifies this
      ensures Valid() && depth == old(depth) - 1
      ensures current == multiplied[depth]
      ensures old(Consistent()) ==> Consistent()
      ensures old(Consistent()) ==> old(current) == And(single[depth], current)
    {
      depth := depth - 1;
      current := multiplied[depth];
    }

    /** `push(invert)`: an ordinary push whose condition is the negation of
        the single-condition slot one ABOVE the current depth, exactly as
        written. */
    method PushInvert()
      requires Valid() && depth + 1 < MaxDepth - 1
      modifies this, multiplied, single
      ensures Valid() && depth == old(depth) + 1
      ensures single[..] == old(single[..])[old(depth) := Not(old(single[depth + 1]))]
      ensures current == And(Not(old(single[depth + 1])), old(current))
      ensures multiplied[..] == old(multiplied[..])[depth := current]
      ensures old(Consistent()) ==> Consistent()
    {
      Push(Not(single[depth + 1]));
    }

    /** Corrected `else` entry: a push of the negated condition that the
        scope just popped at this depth recorded, i.e. slot `depth`. */
    method PushElse()
      requires Valid() && depth < MaxDepth - 1
      modifies this, multiplied, single
      ensures Valid() && depth == old(depth) + 1
      ensures single[..] == old(single[..])[old(depth) := Not(old(single[depth]))]
      ensures current == And(Not(old(single[depth])), old(current))
      ensures multiplied[..] == old(multiplied[..])[depth := current]
      ensures old(Consistent()) ==> Consistent()
    {
      Push(Not(single[depth]));
    }

    /** `push(lask_mask_all_true)`: the break check, true iff every lane of
        the current mask is set. */
    method AllTrue() returns (r: bool)
      requires Valid()
      ensures r <==> forall i :: 0 <= i < lanes ==> current[i]
    {
      r := current == Full(lanes);
    }

    /** `operator bool`: true iff at least one lane of the current mask is set. */
    method Active() returns (r: bool)
      requires Valid()
      ensures r <==> exists i :: 0 <= i < lanes && current[i]
    {
      r := current != Clear(lanes);
    }

    /** `masked_assign_policy::assign`: writes `value` into exactly the lanes
        of `target` that the current mask selects; with every lane active it
        is a plain assignment. */
    method MaskedAssign(target: array<real>, value: seq<real>)
      requires Valid() && target.Length == lanes && |value| == lanes
      modifies target
      ensures forall i :: 0 <= i < lanes ==> target[i] == if current[i] then value[i] else old(target[i])
      ensures (forall i :: 0 <= i < lanes ==> current[i]) ==> target[..] == value
    {
      forall i | 0 <= i < target.Length {
        target[i] := if current[i] then value[i] else target[i];
      }
    }
  }

  /** Under the stack discipline, the current mask is the bottom mask ANDed
      with every condition on the stack. */
  lemma CurrentIsConjunction(s: MaskStack, lane: nat)
    requires s.Consistent() && lane < s.lanes
    ensures s.current[lane] <==>
      s.multiplied[0][lane] && forall k :: 0 <= k < s.depth ==> s.single[k][lane]
  {
    ChainedIsConjunction(s.multiplied[..], s.single[..], s.depth, lane);
  }

  /** A scope entered and left on a consistent stack leaves the depth and the
      current mask as they were. */
  method BalancedScope(s: MaskStack, condition: Mask)
    requires s.Consistent() && |condition| == s.lanes && s.depth < MaxDepth - 1
    modifies s, s.multiplied, s.single
    ensures s.Consistent()
    ensures s.depth == old(s.depth) && s.current == old(s.current)
  {
    s.Push(condition);
    s.Pop();
  }

  /** `if (a) { if (b) { ... } }` on a freshly initialised stack: inside,
      the current mask is `a AND b`; after the inner scope, `a` again; after
      both, all lanes at depth 0. */
  method NestedScopes(a: Mask, b: Mask) returns (inner: Mask, afterInner: Mask, afterBoth: Mask, depthAfter: nat)
    requires |a| == |b|
    ensures |inner| == |a| && forall i :: 0 <= i < |a| ==> (inner[i] <==> a[i] && b[i])
    ensures afterInner == a
    ensures afterBoth == Full(|a|) && depthAfter == 0
  {
    var s := new MaskStack(|a|);
    s.InitForThread();
    s.Push(a);
    assert s.current == a;
    s.Push(b);
    inner := s.current;
    s.Pop();
    afterInner := s.current;
    s.Pop();
    afterBoth := s.current;
    depthAfter := s.depth;
  }

  /** A masked assignment inside `if (condition)` on a freshly initialised
      stack: after the scope, exactly the selected lanes hold `value` and the
      others keep their previous contents. */
  method ScopedAssign(condition: Mask, target: seq<real>, value: seq<real>) returns (result: seq<real>)
    requires |condition| == |target| == |value|
    ensures |result| == |target|
    ensures forall i :: 0 <= i < |target| ==> result[i] == if condition[i] then value[i] else target[i]
  {
    var s := new MaskStack(|condition|);
    s.InitForThread();
    s.Push(condition);
    assert s.current == condition;
    var lanesValue := new real[|target|](i requires 0 <= i < |target| => target[i]);
    s.MaskedAssign(lanesValue, value);
    s.Pop();
    result := lanesValue[..];
  }

  /** `push(invert)` as written, after `if (condition)` on a freshly
      initialised stack: it reads a slot no push wrote, so the "else" mask is
      every lane, whatever the condition was. */
  method ElseAfterIfAsWritten(condition: Mask) returns (elseMask: Mask)
    ensures elseMask == Full(|condition|)
  {
    var s := new MaskStack(|condition|);
    s.InitForThread();
    s.Push(condition);
    s.Pop();
    s.PushInvert();
    elseMask := s.current;
  }

  /** The corrected `else` entry after `if (condition)` on a freshly
      initialised stack: the "then" mask is the condition and the "else"
      mask its negation. */
  method IfElse(condition: Mask) returns (thenMask: Mask, elseMask: Mask)
    ensures thenMask == condition
    ensures elseMask == Not(condition)
  {
    var s := new MaskStack(|condition|);
    s.InitForThread();
    s.Push(condition);
    thenMask := s.current;
    s.Pop();
    s.PushElse();
    elseMask := s.current;
  }
}
