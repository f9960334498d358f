# CxxSwizzle core in Dafny: lane-mask stack and GLSL vector built-ins

CxxSwizzle lets GLSL-style shader code run on a CPU, where each "scalar"
may be a pack of SIMD lanes that execute in lockstep. This project models
the two pieces that make that work and proves properties about them.

- **Lane-mask stack** (`lane_masks.dfy`, module `LaneMasks`). This is
  `sample/shader.h`. Class `MaskStack` holds the per-thread globals:
  - `current` is `g_currentMask`;
  - the array `multiplied` (16 slots) is `g_multipliedMasks`;
  - the array `single` (15 slots) is `g_singleMasks`;
  - `depth` is `g_masksCount`.

  Its methods are `init_for_thread`, the `mask_pusher` constructor (push)
  and destructor (pop), `push(invert)`, the all-lanes break check,
  `operator bool` and `masked_assign_policy::assign`. A mask is a
  `seq<bool>` with one entry per lane. A lane-packed value is an
  `array<real>` with one entry per lane. The predicate `Consistent()` is
  the stack discipline: the current mask is the top slot, and every slot
  is the slot below it ANDed with the condition pushed there. Push and pop
  preserve it. Client methods replay the nested-scope, masked-assignment
  and else-branch scenarios from a freshly initialised stack.
- **GLSL built-in functions** (`glsl_scalar.dfy` and `glsl_vector.dfy`,
  modules `GlslScalar` and `GlslVector`). This is
  `include/swizzle/glsl/detail/vector_functions_adapter.h`.
  - `GlslScalar` holds the per-component formulas of the functor structs
    as functions over exact reals. They cover section 8.3 (Common
    Functions) of the OpenGL Shading Language 1.10 specification.
  - `GlslVector` holds the `call_*` wrappers as methods. Each one fills
    its result slot by slot through `Construct`, which models
    `construct_static` and `construct`.
  - `call_dot`, `call_any` and `call_all` are accumulation loops.
  - `call_reflect` scales and subtracts local copies in loops.
  - `call_cross` is a function on three-wide vectors. A vector is a
    `seq<real>`, and a boolean vector is a `seq<bool>`.

## Model

| member | source | states |
|---|---|---|
| `LaneMasks.MaskStack.constructor` | sample/shader.h:15-28 | The globals before any call: depth 0 and every mask with no lane set (static storage is zero-initialised). The stack discipline already holds. |
| `LaneMasks.MaskStack.InitForThread` | sample/shader.h:36-40 | The current mask and slot 0 become all lanes, and nothing else changes. The depth is not reset, so the stack discipline holds afterwards exactly when the depth was 0. |
| `LaneMasks.MaskStack.Push` | sample/shader.h:61-71 | Requires depth < 15, which is the assertion. The raw condition goes into `single[depth]`. The new current mask is `condition AND current`, stored at `multiplied[depth+1]`. Depth grows by one, nothing else changes, every newly active lane was active before, and the stack discipline is preserved. |
| `LaneMasks.MaskStack.Pop` | sample/shader.h:73-78 | Requires depth > 0. Depth drops by one and the current mask becomes `multiplied[depth]`. Under the stack discipline that mask ANDed with the popped condition is the mask that was current. The discipline is preserved. |
| `LaneMasks.MaskStack.PushInvert` | sample/shader.h:49-52 | Exactly a push of `NOT single[depth + 1]`, the slot one above the current depth. It requires depth + 1 < 15 so that both that read and the push are in bounds. |
| `LaneMasks.MaskStack.PushElse` | sample/shader.h:49-52 | Corrected else entry: a push of `NOT single[depth]`, the condition recorded by the scope just closed at this depth. |
| `LaneMasks.MaskStack.AllTrue` | sample/shader.h:54-58 | The break check is true iff every lane of the current mask is set. |
| `LaneMasks.MaskStack.Active` | sample/shader.h:80-85 | `operator bool` is true iff at least one lane of the current mask is set. |
| `LaneMasks.MaskStack.MaskedAssign` | sample/shader.h:89-96 | Each target lane gets `value` where the current mask is set and keeps its old value elsewhere. With all lanes active the target equals `value`. |
| `LaneMasks.ChainedIsConjunction` | sample/shader.h:66-70 | In a stack whose slots are chained by AND, a lane is set at level d iff it is set at the bottom and in every condition recorded below d. |
| `LaneMasks.CurrentIsConjunction` | sample/shader.h:20-25 | Under the stack discipline, the current mask is slot 0 ANDed with every condition on the stack, lane by lane. |
| `LaneMasks.BalancedScope` | sample/shader.h:61-78 | A push followed by its pop on a consistent stack restores the depth and the current mask exactly, and keeps the discipline. |
| `LaneMasks.NestedScopes` | sample/shader.h:61-78 | From init: after pushing A and then B, current is A AND B lanewise; after popping B it is A again; after popping A it is all lanes at depth 0. |
| `LaneMasks.ScopedAssign` | sample/shader.h:92-95 | From init: a masked assignment inside `if (c)` leaves exactly the lanes selected by c holding the new value, and every other lane unchanged. |
| `LaneMasks.ElseAfterIfAsWritten` | sample/shader.h:51 | From init: after `Push(c)`, `Pop()` and `PushInvert()`, the else mask is all lanes, whatever c is. |
| `LaneMasks.IfElse` | sample/shader.h:49-52 | From init, with the corrected else entry: the then mask is c and the else mask is NOT c. |
| `GlslVector.Construct` | include/swizzle/glsl/detail/vector_functions_adapter.h:34-48 | The result has `size` slots, and slot i holds `f(i)`. So component i of every wrapper depends only on component i of its inputs. |
| `GlslScalar.Floor` | include/swizzle/glsl/detail/vector_functions_adapter.h:328-335 | The result is the integer n with n <= x < n + 1. |
| `GlslScalar.Ceil` | include/swizzle/glsl/detail/vector_functions_adapter.h:337-344 | The result is the integer n with x <= n < x + 1. |
| `GlslScalar.Fract` | include/swizzle/glsl/detail/vector_functions_adapter.h:208-216 | `x - floor(x)` lies in [0, 1), and x minus the result is an integer. |
| `GlslScalar.Mod` | include/swizzle/glsl/detail/vector_functions_adapter.h:225-230 | For the floored remainder `x - y*floor(x/y)`: it lies in [0, y) when y > 0 and in (y, 0] when y < 0, and x minus the result is a whole multiple of y. |
| `GlslScalar.Min` | include/swizzle/glsl/detail/vector_functions_adapter.h:240-244 | The result is one of the two operands and not above either. |
| `GlslScalar.Max` | include/swizzle/glsl/detail/vector_functions_adapter.h:254-258 | The result is one of the two operands and not below either. |
| `GlslScalar.Clamp` | include/swizzle/glsl/detail/vector_functions_adapter.h:268-272 | For `max(min(x, hi), lo)`: with lo <= hi the result lies in [lo, hi]; it is x when x is inside, lo below and hi above; with lo > hi it is lo. |
| `GlslScalar.Mix` | include/swizzle/glsl/detail/vector_functions_adapter.h:282-286 | For `x + a*(y - x)`: a = 0 gives x, a = 1 gives y, and a weight in [0, 1] gives a value between x and y. |
| `GlslScalar.HermiteBounds` | include/swizzle/glsl/detail/vector_functions_adapter.h:316 | `t*t*(3 - 2t)` maps [0, 1] into [0, 1]. |
| `GlslScalar.Smoothstep` | include/swizzle/glsl/detail/vector_functions_adapter.h:311-317 | Requires edge0 != edge1. The result lies in [0, 1]. For edge0 < edge1 it is 0 at or below edge0 and 1 at or above edge1. |
| `GlslVector.CallFloor` | include/swizzle/glsl/detail/vector_functions_adapter.h:397 | Component i is `floor(x[i])`, so it is at most x[i] and within 1 of it. |
| `GlslVector.CallCeil` | include/swizzle/glsl/detail/vector_functions_adapter.h:398 | Component i is `ceil(x[i])`, so it is at least x[i] and within 1 of it. |
| `GlslVector.CallFract` | include/swizzle/glsl/detail/vector_functions_adapter.h:396 | Component i is `x[i] - floor(x[i])`, which lies in [0, 1). |
| `GlslVector.CallModVector` | include/swizzle/glsl/detail/vector_functions_adapter.h:220-223 | Component i is the scalar mod with divisor `y[i]`, and it lies in [0, y[i]) when y[i] > 0. |
| `GlslVector.CallModScalar` | include/swizzle/glsl/detail/vector_functions_adapter.h:400 | Every component is mod with the same divisor y, and each lies in [0, y) when y > 0. |
| `GlslVector.CallMinVector` | include/swizzle/glsl/detail/vector_functions_adapter.h:235-238 | Component i is the scalar min with `y[i]`. |
| `GlslVector.CallMinScalar` | include/swizzle/glsl/detail/vector_functions_adapter.h:403 | Component i is the scalar min with the same y. |
| `GlslVector.CallMaxVector` | include/swizzle/glsl/detail/vector_functions_adapter.h:249-252 | Component i is the scalar max with `y[i]`. |
| `GlslVector.CallMaxScalar` | include/swizzle/glsl/detail/vector_functions_adapter.h:405 | Component i is the scalar max with the same y. |
| `GlslVector.CallClampVector` | include/swizzle/glsl/detail/vector_functions_adapter.h:263-266 | Component i is clamped by `lo[i]` and `hi[i]`. It lies between them when they are ordered, and it is `lo[i]` when they are not. |
| `GlslVector.CallClampScalar` | include/swizzle/glsl/detail/vector_functions_adapter.h:413-416 | Every component lies in [lo, hi] when lo <= hi. With lo > hi the whole result is lo broadcast. |
| `GlslVector.CallMixVector` | include/swizzle/glsl/detail/vector_functions_adapter.h:277-280 | Component i is mixed with weight `a[i]`. A weight of 0 gives `x[i]` and a weight of 1 gives `y[i]`. |
| `GlslVector.CallMixScalar` | include/swizzle/glsl/detail/vector_functions_adapter.h:423-426 | Every component uses weight a. a = 0 returns x and a = 1 returns y. |
| `GlslVector.CallSmoothstepVector` | include/swizzle/glsl/detail/vector_functions_adapter.h:306-309 | Component i uses edges `edge0[i]` and `edge1[i]`. Every component lies in [0, 1]. |
| `GlslVector.CallSmoothstepScalar` | include/swizzle/glsl/detail/vector_functions_adapter.h:443-446 | Every component uses the same two edges and lies in [0, 1]. |
| `GlslVector.CallRadians` | include/swizzle/glsl/detail/vector_functions_adapter.h:349-353 | Component i times 180 equals `degrees[i]` times the literal pi, so 180 degrees becomes pi. |
| `GlslVector.DotSymmetric` | include/swizzle/glsl/detail/vector_functions_adapter.h:320-326 | `dot(x, y) == dot(y, x)`. |
| `GlslVector.DotSelfNonNegative` | include/swizzle/glsl/detail/vector_functions_adapter.h:472-477 | `dot(x, x) >= 0`. |
| `GlslVector.DotAddScaled` | include/swizzle/glsl/detail/vector_functions_adapter.h:472-477 | The dot product is linear in its first argument. |
| `GlslVector.CallDot` | include/swizzle/glsl/detail/vector_functions_adapter.h:472-477 | Accumulating `x[i]*y[i]` from 0 gives the sum of the products, in either argument order. |
| `GlslVector.ReflectFlipsNormalComponent` | include/swizzle/glsl/detail/vector_functions_adapter.h:448-458 | For a unit normal N, `dot(reflect(I, N), N) == -dot(I, N)`. |
| `GlslVector.ReflectInvolution` | include/swizzle/glsl/detail/vector_functions_adapter.h:448-458 | For a unit normal N, reflecting twice gives back I. |
| `GlslVector.CallReflect` | include/swizzle/glsl/detail/vector_functions_adapter.h:448-458 | Scaling a copy of N by `2*dot(I, N)` and subtracting it from a copy of I gives `I - 2*dot(I, N)*N`. For a unit normal it flips the normal component. |
| `GlslVector.Cross` | include/swizzle/glsl/detail/vector_functions_adapter.h:486-492 | Only for three-wide vectors. The result is orthogonal to both operands. |
| `GlslVector.CrossOfBasis` | include/swizzle/glsl/detail/vector_functions_adapter.h:486-492 | `cross((1,0,0), (0,1,0)) == (0,0,1)`. |
| `GlslVector.CrossAnticommutative` | include/swizzle/glsl/detail/vector_functions_adapter.h:486-492 | `cross(x, y) == -cross(y, x)`. |
| `GlslVector.CallLessThan` | include/swizzle/glsl/detail/vector_functions_adapter.h:494-497 | Component i is `x[i] < y[i]`. |
| `GlslVector.CallLessThanEqual` | include/swizzle/glsl/detail/vector_functions_adapter.h:499-502 | Component i is `x[i] <= y[i]`. |
| `GlslVector.CallGreaterThan` | include/swizzle/glsl/detail/vector_functions_adapter.h:504-507 | Component i is `x[i] > y[i]`. |
| `GlslVector.CallGreaterThanEqual` | include/swizzle/glsl/detail/vector_functions_adapter.h:509-512 | Component i is `x[i] >= y[i]`. |
| `GlslVector.CallEqual` | include/swizzle/glsl/detail/vector_functions_adapter.h:514-517 | Component i is `x[i] == y[i]`. |
| `GlslVector.CallNotEqual` | include/swizzle/glsl/detail/vector_functions_adapter.h:519-522 | Component i is `x[i] != y[i]`. |
| `GlslVector.CallAny` | include/swizzle/glsl/detail/vector_functions_adapter.h:524-529 | OR-accumulating from false is true iff some component is true. |
| `GlslVector.CallAll` | include/swizzle/glsl/detail/vector_functions_adapter.h:531-536 | AND-accumulating from true is true iff every component is true. |
| `GlslVector.CallNot` | include/swizzle/glsl/detail/vector_functions_adapter.h:538-541 | Component i is the negation of `x[i]`. |
| `GlslVector.AllOfNotIsNotAny` | include/swizzle/glsl/detail/vector_functions_adapter.h:524-541 | `all(not(v))` holds iff `any(v)` does not. |
| `GlslVector.NotEqualIsNotOfEqual` | include/swizzle/glsl/detail/vector_functions_adapter.h:514-522 | `notEqual(x, y) == not(equal(x, y))`. |
| `GlslVector.OrderDualities` | include/swizzle/glsl/detail/vector_functions_adapter.h:494-512 | `lessThan(x, y) == greaterThan(y, x)` and `greaterThanEqual(x, y) == not(lessThan(x, y))`. |
| `GlslVector.ClampBroadcastAgrees` | include/swizzle/glsl/detail/vector_functions_adapter.h:261-273 | The vector-vector clamp with broadcast bounds equals the vector-scalar clamp. With lo > hi it is lo everywhere. |
| `GlslVector.MixBroadcastAgrees` | include/swizzle/glsl/detail/vector_functions_adapter.h:275-287 | The vector-vector mix with a broadcast weight equals the vector-scalar mix. |

## Left out

- Transcendental and other floating-point functions are not modelled: sin, cos, tan, asin, acos, atan and atan2, exp, log, exp2, log2, sqrt, inversesqrt, sign, abs and pow (vector_functions_adapter.h:53-206). So are length, distance and normalize (:461-484), which rest on sqrt. No real-number theory of them is proved here.
- `call_degrees` (:355-359) reads an undeclared `degrees` and multiplies by `deg_to_rad` instead of dividing. It is a copy-paste defect with no well-defined behaviour to model, so only `call_radians` is modelled.
- `functor_step` and `call_step` (:289-301, :428-436) are not modelled because they do not work as written:
  - the vector overload forwards four arguments to a three-argument overload;
  - the scalar overload compares the whole vector `x` instead of component i;
  - it uses `>` where GLSL 1.10 section 8.3 returns 1.0 at `x == edge`.
- include/swizzle/glsl/simd/Vc_support.h is not part of this model. It is trait glue and an `exp(y*log(x))` pow over the Vc library, which is not shown.
- Floating point in general: every value is an exact `real`. Rounding, NaN and infinities are not modelled. The same goes for the float rounding of `3.14159265358979323846 / 180`.
- GlslScalar.Mod: requires a non-zero divisor. Under IEEE 754 a zero divisor would give NaN instead.
- GlslVector.CallModVector: requires every divisor component to be non-zero, for the same reason.
- GlslScalar.Smoothstep: requires edge0 != edge1. Under IEEE 754 equal edges divide by zero instead.
- GlslVector.CallSmoothstepVector: requires each component's edges to differ, for the same reason.
- GlslScalar.Min: is `std::min` on reals. The SIMD back end's own min, and NaN ordering, are not modelled. The same holds for `GlslScalar.Max`.
- GlslVector.OrderDualities: the law `greaterThanEqual == not(lessThan)` holds over reals but fails for NaN components in floating point.
- Vector width: any width is allowed, with all operands of equal width. unit_test/setup.h only instantiates widths 1 to 4. The compile-time gating of `cross` to width 3 and of any/all/not to boolean vectors becomes `requires |x| == 3` and the `seq<bool>` parameter type.
- `static_for` and `static_for2` unroll at compile time. Here they are a bounded `for` loop in `Construct`. The swizzle vector container is a `seq`, and its `*=` and `-=` are loops in `CallReflect`.
- `thread_local` storage and the MSVC macro (shader.h:8-11, 102-104) are not modelled. One `MaskStack` object stands for one thread's globals.
- `raw_mask_type` and `mask_type` are not part of this model. A mask is a `seq<bool>` and its `&`, `!` and comparison with `true` work lanewise. `LaneMasks.MaskStack.Active` takes the "at least one lane" meaning that shader.h:82-83 describes.
- The `MASKED_IF`, `MASKED_ELSE` and `MASKED_BREAK` macros and C++ scope-exit destruction (shader.h:98-100) are not modelled. The model has the push and pop primitives they expand to. As written, `MASKED_ELSE` never calls `push`, so `push(invert)` has no caller in the modelled files.
- `assert` compiled out under `NDEBUG`: the depth assertions are `requires` clauses, so out-of-bounds array accesses cannot be expressed.

## Findings

| source | as written | input that shows it | evidently intended | confidence | as-written member | corrected member |
|---|---|---|---|---|---|---|
| sample/shader.h:51 | `push(invert)` negates `g_singleMasks[g_masksCount + 1]`. That is one slot above `g_singleMasks[g_masksCount]`, where the scope just closed stored its condition (:66). | From a freshly initialised stack with any condition c: `Push(c)`, `Pop()`, `PushInvert()` gives an else mask of all lanes (a slot nothing wrote, negated), not `NOT c`. | Negate `g_singleMasks[g_masksCount]`, so the else mask is `NOT c AND` the enclosing mask. | medium; not executed; `push(invert)` has no caller in the modelled files | `LaneMasks.ElseAfterIfAsWritten` | `LaneMasks.IfElse` |
