/** The GLSL built-in vector functions of vector_functions_adapter.h, applied
    component by component over a vector of any width. A vector is a
    sequence of reals; a boolean vector a sequence of booleans. Every
    `call_*` wrapper fills its result slot by slot, as the adapter's
    `construct_static` and `construct` do. */
module GlslVector {
  import opened GlslScalar

  type Vector = seq<real>
  type BoolVector = seq<bool>

  // ---------------------------------------------------------------------------
  // Componentwise construction
  // ---------------------------------------------------------------------------

  /** `construct_static` / `construct`: a `size`-wide result whose slot `i`
      holds `f(i)`, filled in increasing order of `i`. */
  method Construct<T>(size: nat, f: nat --> T) returns (r: seq<T>)
    requires forall i :: 0 <= i < size ==> f.requires(i)
    ensures |r| == size
    ensures forall i :: 0 <= i < size ==> r[i] == f(i)
  {
    r := [];
    for i := 0 to size
      invariant |r| == i
      invariant forall j :: 0 <= j < i ==> r[j] == f(j)
    {
      r := r + [f(i)];
    }
  }

  /** A vector whose every component is `s`. */
  function Broadcast(size: nat, s: real): (v: Vector)
    ensures |v| == size && forall i :: 0 <= i < size ==> v[i] == s
  {
    seq(size, _ => s)
  }

  // ---------------------------------------------------------------------------
  // Common functions (componentwise)
  // ---------------------------------------------------------------------------

  /** `call_floor`: componentwise floor. */
  method CallFloor(x: Vector) returns (r: Vector)
    ensures |r| == |x|
    ensures forall i :: 0 <= i < |x| ==> r[i] == Floor(x[i]) as real
    ensures forall i :: 0 <= i < |x| ==> r[i] <= x[i] < r[i] + 1.0
  {
    r := Construct(|x|, (i: nat) requires i < |x| => Floor(x[i]) as real);
  }

  /** `call_ceil`: componentwise ceiling. */
  method CallCeil(x: Vector) returns (r: Vector)
    ensures |r| == |x|
    ensures forall i :: 0 <= i < |x| ==> r[i] == Ceil(x[i]) as real
    ensures forall i :: 0 <= i < |x| ==> x[i] <= r[i] < x[i] + 1.0
  {
    r := Construct(|x|, (i: nat) requires i < |x| => Ceil(x[i]) as real);
  }

  /** `call_fract`: componentwise `x - floor(x)`, each in `[0, 1)`. */
  method CallFract(x: Vector) returns (r: Vector)
    ensures |r| == |x|
    ensures forall i :: 0 <= i < |x| ==> r[i] == x[i] - Floor(x[i]) as real
    ensures forall i :: 0 <= i < |x| ==> 0.0 <= r[i] < 1.0
  {
    r := Construct(|x|, (i: nat) requires i < |x| => Fract(x[i]));
  }

  /** `call_mod(vector, vector)`: component `i` is the vector-scalar formula
      with `y[i]` as the divisor. */
  method CallModVector(x: Vector, y: Vector) returns (r: Vector)
    requires |x| == |y|
    requires forall i :: 0 <= i < |y| ==> y[i] != 0.0
    ensures |r| == |x|
    ensures forall i :: 0 <= i < |x| ==> r[i] == Mod(x[i], y[i])
    ensures forall i :: 0 <= i < |x| && y[i] > 0.0 ==> 0.0 <= r[i] < y[i]
  {
    r := Construct(|x|, (i: nat) requires i < |x| => Mod(x[i], y[i]));
  }

  /** `call_mod(vector, scalar)`: every component divided by the same `y`. */
  method CallModScalar(x: Vector, y: real) returns (r: Vector)
    requires y != 0.0
    ensures |r| == |x|
    ensures forall i :: 0 <= i < |x| ==> r[i] == Mod(x[i], y)
    ensures y > 0.0 ==> forall i :: 0 <= i < |x| ==> 0.0 <= r[i] < y
  {
    r := Construct(|x|, (i: nat) requires i < |x| => Mod(x[i], y));
  }

  /** `call_min(vector, vector)`. */
  method CallMinVector(x: Vector, y: Vector) returns (r: Vector)
    requires |x| == |y|
    ensures |r| == |x|
    ensures forall i :: 0 <= i < |x| ==> r[i] == Min(x[i], y[i])
  {
    r := Construct(|x|, (i: nat) requires i < |x| => Min(x[i], y[i]));
  }

  /** `call_min(vector, scalar)`. */
  method CallMinScalar(x: Vector, y: real) returns (r: Vector)
    ensures |r| == |x|
    ensures forall i :: 0 <= i < |x| ==> r[i] == Min(x[i], y)
  {
    r := Construct(|x|, (i: nat) requires i < |x| => Min(x[i], y));
  }

  /** `call_max(vector, vector)`. */
  method CallMaxVector(x: Vector, y: Vector) returns (r: Vector)
    requires |x| == |y|
    ensures |r| == |x|
    ensures forall i :: 0 <= i < |x| ==> r[i] == Max(x[i], y[i])
  {
    r := Construct(|x|, (i: nat) requires i < |x| => Max(x[i], y[i]));
  }

  /** `call_max(vector, scalar)`. */
  method CallMaxScalar(x: Vector, y: real) returns (r: Vector)
    ensures |r| == |x|
    ensures forall i :: 0 <= i < |x| ==> r[i] == Max(x[i], y)
  {
    r := Construct(|x|, (i: nat) requires i < |x| => Max(x[i], y));
  }

  /** `call_clamp(vector, vector, vector)`: each component clamped by its own
      pair of bounds, lying between them whenever they are ordered. */
  method CallClampVector(x: Vector, lo: Vector, hi: Vector) returns (r: Vector)
    requires |x| == |lo| == |hi|
    ensures |r| == |x|
    ensures forall i :: 0 <= i < |x| ==> r[i] == Clamp(x[i], lo[i], hi[i])
    ensures forall i :: 0 <= i < |x| && lo[i] <= hi[i] ==> lo[i] <= r[i] <= hi[i]
    ensures forall i :: 0 <= i < |x| && lo[i] > hi[i] ==> r[i] == lo[i]
  {
    r := Construct(|x|, (i: nat) requires i < |x| => Clamp(x[i], lo[i], hi[i]));
  }

  /** `call_clamp(vector, scalar, scalar)`. */
  method CallClampScalar(x: Vector, lo: real, hi: real) returns (r: Vector)
    ensures |r| == |x|
    ensures forall i :: 0 <= i < |x| ==> r[i] == Clamp(x[i], lo, hi)
    ensures lo <= hi ==> forall i :: 0 <= i < |x| ==> lo <= r[i] <= hi
    ensures lo > hi ==> r == Broadcast(|x|, lo)
  {
    r := Construct(|x|, (i: nat) requires i < |x| => Clamp(x[i], lo, hi));
  }

  /** `call_mix(vector, vector, vector)`: each component weighted by its own `a[i]`. */
  method CallMixVector(x: Vector, y: Vector, a: Vector) returns (r: Vector)
    requires |x| == |y| == |a|
    ensures |r| == |x|
    ensures forall i :: 0 <= i < |x| ==> r[i] == Mix(x[i], y[i], a[i])
    ensures forall i :: 0 <= i < |x| && a[i] == 0.0 ==> r[i] == x[i]
    ensures forall i :: 0 <= i < |x| && a[i] == 1.0 ==> r[i] == y[i]
  {
    r := Construct(|x|, (i: nat) requires i < |x| => Mix(x[i], y[i], a[i]));
  }

  /** `call_mix(vector, vector, scalar)`: weight 0 gives `x`, weight 1 gives `y`. */
  method CallMixScalar(x: Vector, y: Vector, a: real) returns (r: Vector)
    requires |x| == |y|
    ensures |r| == |x|
    ensures forall i :: 0 <= i < |x| ==> r[i] == Mix(x[i], y[i], a)
    ensures a == 0.0 ==> r == x
    ensures a == 1.0 ==> r == y
  {
    r := Construct(|x|, (i: nat) requires i < |x| => Mix(x[i], y[i], a));
  }

  /** `call_smoothstep(vector, vector, vector)`: component `i` uses the edges
      `edge0[i]` and `edge1[i]`. */
  method CallSmoothstepVector(edge0: Vector, edge1: Vector, x: Vector) returns (r: Vector)
    requires |edge0| == |edge1| == |x|
    requires forall i :: 0 <= i < |x| ==> edge0[i] != edge1[i]
    ensures |r| == |x|
    ensures forall i :: 0 <= i < |x| ==> r[i] == Smoothstep(edge0[i], edge1[i], x[i])
    ensures forall i :: 0 <= i < |x| ==> 0.0 <= r[i] <= 1.0
  {
    r := Construct(|x|, (i: nat) requires i < |x| => Smoothstep(edge0[i], edge1[i], x[i]));
  }

  /** `call_smoothstep(scalar, scalar, vector)`. */
  method CallSmoothstepScalar(edge0: real, edge1: real, x: Vector) returns (r: Vector)
    requires edge0 != edge1
    ensures |r| == |x|
    ensures forall i :: 0 <= i < |x| ==> r[i] == Smoothstep(edge0, edge1, x[i])
    ensures forall i :: 0 <= i < |x| ==> 0.0 <= r[i] <= 1.0
  {
    r := Construct(|x|, (i: nat) requires i < |x| => Smoothstep(edge0, edge1, x[i]));
  }

  /** `call_radians`: every component multiplied by `deg_to_rad`, so 180
      degrees become the adapter's pi. */
  method CallRadians(degrees: Vector) returns (r: Vector)
    ensures |r| == |degrees|
    ensures forall i :: 0 <= i < |degrees| ==> r[i] * 180.0 == degrees[i] * Pi
    ensures forall i :: 0 <= i < |degrees| && degrees[i] == 180.0 ==> r[i] == Pi
  {
    r := Construct(|degrees|, (i: nat) requires i < |degrees| => degrees[i] * DegToRad);
  }

  // ---------------------------------------------------------------------------
  // Geometric functions
  // ---------------------------------------------------------------------------

  /** Sum of `x[i] * y[i]`, accumulated from the first component on. */
  function Dot(x: Vector, y: Vector): real
    requires |x| == |y|
    decreases |x|
  {
    if |x| == 0 then 0.0
    else Dot(x[..|x| - 1], y[..|y| - 1]) + x[|x| - 1] * y[|y| - 1]
  }

  lemma {:induction false} DotSymmetric(x: Vector, y: Vector)
    requires |x| == |y|
    ensures Dot(x, y) == Dot(y, x)
    decreases |x|
  {
    if |x| > 0 {
      DotSymmetric(x[..|x| - 1], y[..|y| - 1]);
    }
  }

  lemma {:induction false} DotSelfNonNegative(x: Vector)
    ensures Dot(x, x) >= 0.0
    decreases |x|
  {
    if |x| > 0 {
      DotSelfNonNegative(x[..|x| - 1]);
      SquareNonNegative(x[|x| - 1]);
    }
  }

  /** `a + c * b`, componentwise. */
  function AddScaled(a: Vector, c: real, b: Vector): (r: Vector)
    requires |a| == |b|
    ensures |r| == |a| && forall i :: 0 <= i < |a| ==> r[i] == a[i] + c * b[i]
  {
    seq(|a|, i requires 0 <= i < |a| => a[i] + c * b[i])
  }

  /** The dot product is linear in its first argument. */
  lemma {:induction false} DotAddScaled(a: Vector, c: real, b: Vector, y: Vector)
    requires |a| == |b| == |y|
    ensures Dot(AddScaled(a, c, b), y) == Dot(a, y) + c * Dot(b, y)
    decreases |a|
  {
    if |a| > 0 {
      var n := |a| - 1;
      var whole, prefix := AddScaled(a, c, b), AddScaled(a[..n], c, b[..n]);
      assert whole[..n] == prefix by {
        forall i | 0 <= i < n ensures whole[..n][i] == prefix[i] {
        }
      }
      DotAddScaled(a[..n], c, b[..n], y[..n]);
      assert (a[n] + c * b[n]) * y[n] == a[n] * y[n] + c * (b[n] * y[n]);
    }
  }

  /** Dot product of two three-wide vectors, written out. */
  lemma Dot3(x: Vector, y: Vector)
    requires |x| == 3 && |y| == 3
    ensures Dot(x, y) == x[0] * y[0] + x[1] * y[1] + x[2] * y[2]
  {
    var x2, y2 := x[..2], y[..2];
    var x1, y1 := x2[..1], y2[..1];
    assert Dot(x1[..0], y1[..0]) == 0.0;
    assert Dot(x1, y1) == x[0] * y[0];
    assert Dot(x2, y2) == Dot(x1, y1) + x[1] * y[1];
    assert Dot(x, y) == Dot(x2, y2) + x[2] * y[2];
  }

  /** `call_dot`: accumulates `result += x[i] * y[i]` from 0. */
  method CallDot(x: Vector, y: Vector) returns (r: real)
    requires |x| == |y|
    ensures r == Dot(x, y)
    ensures r == Dot(y, x)
  {
    r := 0.0;
    for i := 0 to |x|
      invariant r == Dot(x[..i], y[..i])
    {
      assert x[..i + 1][..i] == x[..i] && y[..i + 1][..i] == y[..i];
      r := r + x[i] * y[i];
    }
    assert x[..|x|] == x && y[..|y|] == y;
    DotSymmetric(x, y);
  }

  /** GLSL's `reflect(I, N) = I - 2 * dot(N, I) * N`. */
  function Reflect(incident: Vector, normal: Vector): (r: Vector)
    requires |incident| == |normal|
    ensures |r| == |incident|
  {
    AddScaled(incident, -2.0 * Dot(incident, normal), normal)
  }

  /** For a unit normal, reflecting flips the component along the normal. */
  lemma ReflectFlipsNormalComponent(incident: Vector, normal: Vector)
    requires |incident| == |normal| && Dot(normal, normal) == 1.0
    ensures Dot(Reflect(incident, normal), normal) == -Dot(incident, normal)
  {
    DotAddScaled(incident, -2.0 * Dot(incident, normal), normal, normal);
  }

  /** For a unit normal, reflecting twice gives back the incident vector. */
  lemma ReflectInvolution(incident: Vector, normal: Vector)
    requires |incident| == |normal| && Dot(normal, normal) == 1.0
    ensures Reflect(Reflect(incident, normal), normal) == incident
  {
    var c := -2.0 * Dot(incident, normal);
    ReflectFlipsNormalComponent(incident, normal);
    assert -2.0 * Dot(Reflect(incident, normal), normal) == -c;
    AddScaledUndone(incident, c, normal);
  }

  /** Adding `c * b` and then `-c * b` gives back the starting vector. */
  lemma AddScaledUndone(a: Vector, c: real, b: Vector)
    requires |a| == |b|
    ensures AddScaled(AddScaled(a, c, b), -c, b) == a
  {
    var once := AddScaled(a, c, b);
    var twice := AddScaled(once, -c, b);
    forall i | 0 <= i < |a| ensures twice[i] == a[i] {
      assert twice[i] == (a[i] + c * b[i]) + (-c) * b[i];
    }
  }

  /** `call_reflect`: scales a copy of `N` by `2 * dot(I, N)` and subtracts it
      from a copy of `I`. */
  method CallReflect(incident: Vector, normal: Vector) returns (r: Vector)
    requires |incident| == |normal|
    ensures r == Reflect(incident, normal)
    ensures Dot(normal, normal) == 1.0 ==> Dot(r, normal) == -Dot(incident, normal)
  {
    var d := CallDot(incident, normal);
    var dot2 := 2.0 * d;
    var n := normal;
    for k := 0 to |n|
      invariant |n| == |normal|
      invariant forall j :: 0 <= j < k ==> n[j] == normal[j] * dot2
      invariant forall j :: k <= j < |n| ==> n[j] == normal[j]
    {
      n := n[k := n[k] * dot2];
    }
    var v := incident;
    for k := 0 to |v|
      invariant |v| == |incident|
      invariant forall j :: 0 <= j < k ==> v[j] == incident[j] - n[j]
      invariant forall j :: k <= j < |v| ==> v[j] == incident[j]
    {
      v := v[k := v[k] - n[k]];
    }
    r := v;
    forall j | 0 <= j < |r| ensures r[j] == Reflect(incident, normal)[j] {
      assert normal[j] * dot2 == -(-2.0 * d * normal[j]);
    }
    if Dot(normal, normal) == 1.0 {
      ReflectFlipsNormalComponent(incident, normal);
    }
  }

  /** `call_cross`, available only for three-wide vectors: the result is
      orthogonal to both operands. */
  function Cross(x: Vector, y: Vector): (r: Vector)
    requires |x| == 3 && |y| == 3
    ensures |r| == 3
    ensures Dot(x, r) == 0.0 && Dot(y, r) == 0.0
  {
    var r := [x[1] * y[2] - x[2] * y[1], x[2] * y[0] - x[0] * y[2], x[0] * y[1] - x[1] * y[0]];
    Dot3(x, r);
    Dot3(y, r);
    r
  }

  lemma CrossOfBasis()
    ensures Cross([1.0, 0.0, 0.0], [0.0, 1.0, 0.0]) == [0.0, 0.0, 1.0]
  {
  }

  lemma CrossAnticommutative(x: Vector, y: Vector)
    requires |x| == 3 && |y| == 3
    ensures Cross(x, y) == AddScaled(Broadcast(3, 0.0), -1.0, Cross(y, x))
  {
  }

  // ---------------------------------------------------------------------------
  // Vector relational functions
  // ---------------------------------------------------------------------------

  /** `call_lessThan`. */
  method CallLessThan(x: Vector, y: Vector) returns (r: BoolVector)
    requires |x| == |y|
    ensures |r| == |x| && forall i :: 0 <= i < |x| ==> (r[i] <==> x[i] < y[i])
  {
    r := Construct(|x|, (i: nat) requires i < |x| => x[i] < y[i]);
  }

  /** `call_lessThanEqual`. */
  method CallLessThanEqual(x: Vector, y: Vector) returns (r: BoolVector)
    requires |x| == |y|
    ensures |r| == |x| && forall i :: 0 <= i < |x| ==> (r[i] <==> x[i] <= y[i])
  {
    r := Construct(|x|, (i: nat) requires i < |x| => x[i] <= y[i]);
  }

  /** `call_greaterThan`. */
  method CallGreaterThan(x: Vector, y: Vector) returns (r: BoolVector)
    requires |x| == |y|
    ensures |r| == |x| && forall i :: 0 <= i < |x| ==> (r[i] <==> x[i] > y[i])
  {
    r := Construct(|x|, (i: nat) requires i < |x| => x[i] > y[i]);
  }

  /** `call_greaterThanEqual`. */
  method CallGreaterThanEqual(x: Vector, y: Vector) returns (r: BoolVector)
    requires |x| == |y|
    ensures |r| == |x| && forall i :: 0 <= i < |x| ==> (r[i] <==> x[i] >= y[i])
  {
    r := Construct(|x|, (i: nat) requires i < |x| => x[i] >= y[i]);
  }

  /** `call_equal`. */
  method CallEqual(x: Vector, y: Vector) returns (r: BoolVector)
    requires |x| == |y|
    ensures |r| == |x| && forall i :: 0 <= i < |x| ==> (r[i] <==> x[i] == y[i])
  {
    r := Construct(|x|, (i: nat) requires i < |x| => x[i] == y[i]);
  }

  /** `call_notEqual`. */
  method CallNotEqual(x: Vector, y: Vector) returns (r: BoolVector)
    requires |x| == |y|
    ensures |r| == |x| && forall i :: 0 <= i < |x| ==> (r[i] <==> x[i] != y[i])
  {
    r := Construct(|x|, (i: nat) requires i < |x| => x[i] != y[i]);
  }

  /** `call_any`: OR over all components, accumulated with `|=` from false. */
  method CallAny(x: BoolVector) returns (r: bool)
    ensures r <==> exists i :: 0 <= i < |x| && x[i]
  {
    r := false;
    for i := 0 to |x|
      invariant r <==> exists j :: 0 <= j < i && x[j]
    {
      r := r || x[i];
    }
  }

  /** `call_all`: AND over all components, accumulated with `&=` from true. */
  method CallAll(x: BoolVector) returns (r: bool)
    ensures r <==> forall i :: 0 <= i < |x| ==> x[i]
  {
    r := true;
    for i := 0 to |x|
      invariant r <==> forall j :: 0 <= j < i ==> x[j]
    {
      r := r && x[i];
    }
  }

  /** `call_not`: componentwise negation. */
  method CallNot(x: BoolVector) returns (r: BoolVector)
    ensures |r| == |x| && forall i :: 0 <= i < |x| ==> (r[i] <==> !x[i])
  {
    r := Construct(|x|, (i: nat) requires i < |x| => !x[i]);
  }

  // ---------------------------------------------------------------------------
  // Relations between the built-ins
  // ---------------------------------------------------------------------------

  /** `all(not(v))` holds exactly when `any(v)` does not. */
  method AllOfNotIsNotAny(v: BoolVector) returns (allOfNot: bool, anyOf: bool)
    ensures allOfNot == !anyOf
  {
    var negated := CallNot(v);
    allOfNot := CallAll(negated);
    anyOf := CallAny(v);
  }

  /** `notEqual(x, y)` is `not(equal(x, y))`. */
  method NotEqualIsNotOfEqual(x: Vector, y: Vector) returns (notEqual: BoolVector, notOfEqual: BoolVector)
    requires |x| == |y|
    ensures notEqual == notOfEqual
  {
    notEqual := CallNotEqual(x, y);
    var equal := CallEqual(x, y);
    notOfEqual := CallNot(equal);
  }

  /** `lessThan(x, y)` is `greaterThan(y, x)`, and `greaterThanEqual(x, y)`
      is `not(lessThan(x, y))` over a total order. */
  method OrderDualities(x: Vector, y: Vector) returns (lt: BoolVector, gtSwapped: BoolVector, ge: BoolVector, notLt: BoolVector)
    requires |x| == |y|
    ensures lt == gtSwapped
    ensures ge == notLt
  {
    lt := CallLessThan(x, y);
    gtSwapped := CallGreaterThan(y, x);
    ge := CallGreaterThanEqual(x, y);
    notLt := CallNot(lt);
  }

  /** The vector-vector clamp with broadcast bounds agrees with the
      vector-scalar clamp; a disordered pair of bounds yields `lo` everywhere. */
  method ClampBroadcastAgrees(x: Vector, lo: real, hi: real) returns (viaVectors: Vector, viaScalars: Vector)
    ensures viaVectors == viaScalars
    ensures lo > hi ==> viaScalars == Broadcast(|x|, lo)
  {
    viaVectors := CallClampVector(x, Broadcast(|x|, lo), Broadcast(|x|, hi));
    viaScalars := CallClampScalar(x, lo, hi);
  }

  /** The vector-vector mix with a broadcast weight agrees with the
      vector-scalar mix. */
  method MixBroadcastAgrees(x: Vector, y: Vector, a: real) returns (viaVector: Vector, viaScalar: Vector)
    requires |x| == |y|
    ensures viaVector == viaScalar
  {
    viaVector := CallMixVector(x, y, Broadcast(|x|, a));
    viaScalar := CallMixScalar(x, y, a);
  }
}
