/** The vectors of an experience in collection_feedback.h, which are stored as 16-bit numbers.  The
    arithmetic of quantising is exact here. */
module Experience {

  import opened Common
  import opened Reachability

  const MAX_STATE_DIM := 78
  const MAX_ACTION_DIM := 18

  /** What `setCurrentExperience` leaves for the next experience. */
  datatype Given = Given(last: seq<real>, state: seq<real>, action: seq<real>)

  /** The dimensions stored beside the vectors are the lengths of `state` and `action`. */
  datatype Vectors = Vectors(state: seq<nat>, action: seq<nat>, nextState: seq<nat>)

  function Clamped(v: real): real { Max(-1.0, Min(1.0, v)) }

  /** `quantize`; the conversion drops the fraction. */
  function Quantize(v: real): (q: nat)
    ensures q <= 65535
  {
    ((Clamped(v) + 1.0) * 32767.5).Floor
  }

  /** `dequantize` */
  function Dequantize(q: nat): real { q as real / 32767.5 - 1.0 }

  /** Within [-1, 1] a number comes back less than one step, 1 / 32767.5, too small; beyond, as the end
      it lies behind. */
  lemma QuantizeRoundTrip(v: real)
    ensures -1.0 <= v <= 1.0 ==> Dequantize(Quantize(v)) <= v < Dequantize(Quantize(v)) + 1.0 / 32767.5
    ensures v > 1.0 ==> Dequantize(Quantize(v)) == 1.0
    ensures v < -1.0 ==> Dequantize(Quantize(v)) == -1.0
  {
    var scaled := (Clamped(v) + 1.0) * 32767.5;
    assert Quantize(v) as real <= scaled < Quantize(v) as real + 1.0;
  }

  /** A stored number is not changed by reading and storing it again. */
  lemma DequantizeRoundTrip(q: nat)
    requires q <= 65535
    ensures -1.0 <= Dequantize(q) <= 1.0 && Quantize(Dequantize(q)) == q
  {
    assert (Dequantize(q) + 1.0) * 32767.5 == q as real;
  }

  /** Storing keeps the order, so different stored numbers come from numbers in the same order. */
  lemma QuantizeMonotone(v: real, w: real)
    ensures v <= w ==> Quantize(v) <= Quantize(w)
  {
    if v <= w { assert (Clamped(v) + 1.0) * 32767.5 <= (Clamped(w) + 1.0) * 32767.5; }
  }

  /** A vector as it is stored: at most `dim` numbers of it. */
  function Quantized(v: seq<real>, dim: nat): (q: seq<nat>)
    ensures |q| == if |v| < dim then |v| else dim
    ensures forall i :: 0 <= i < |q| ==> q[i] == Quantize(v[i])
  {
    seq(if |v| < dim then |v| else dim, i requires 0 <= i < |v| => Quantize(v[i]))
  }

  /** The vectors that `generateMetadata` stores: without a state the end of the executed path stands in
      for it, and the next state is always the last one given. */
  function VectorsOf(g: Given, path: seq<Point>): Vectors {
    var fallback := if path == [] then [] else [path[|path| - 1].x, path[|path| - 1].y];
    Vectors(Quantized(if g.state != [] then g.state else fallback, MAX_STATE_DIM),
            Quantized(g.action, MAX_ACTION_DIM), Quantized(g.last, MAX_STATE_DIM))
  }

  /** `setCurrentExperience` */
  function Set(state: seq<real>, action: seq<real>): Given { Given(state, state, action) }

  /** The last state given is the current one, so an experience has one vector for both whenever a state
      was given.  `getNextStateVector` reads as many numbers of the next state as the state has: it stays
      inside exactly when a state was given or nothing stood in for it. */
  lemma NextStateIs(g: Given, path: seq<Point>)
    requires g.last == g.state
    ensures var v := VectorsOf(g, path);
            && (g.state != [] ==> v.nextState == v.state)
            && (|v.state| <= |v.nextState| <==> g.state != [] || path == [])
  {
    hide Quantize;
  }

  /** At most 78 numbers of a state and 18 of an action are stored, each quantised; without a state the end of the path
      stands in for it. */
  lemma VectorsAre(g: Given, path: seq<Point>)
    ensures var v := VectorsOf(g, path);
            && |v.action| == (if |g.action| < 18 then |g.action| else 18)
            && (g.state != [] ==> |v.state| == if |g.state| < 78 then |g.state| else 78)
            && (g.state == [] && path != [] ==>
                  v.state == [Quantize(path[|path| - 1].x), Quantize(path[|path| - 1].y)])
            && (g.state == [] && path == [] ==> v.state == [])
            && (forall i :: 0 <= i < |v.action| ==> v.action[i] == Quantize(g.action[i]))
            && (g.state != [] ==> forall i :: 0 <= i < |v.state| ==> v.state[i] == Quantize(g.state[i]))
  {
    hide Quantize;
  }

  // ---------------------------------------------------------------- the methods

  /** The loop of `setState`, `setNextState` and `setAction`. */
  method QuantizeAll(v: seq<real>, dim: nat) returns (q: seq<nat>)
    ensures q == Quantized(v, dim)
  {
    hide Quantize;
    var n := if |v| < dim then |v| else dim;
    q := [];
    for i := 0 to n
      invariant |q| == i && forall j :: 0 <= j < i ==> q[j] == Quantize(v[j])
    {
      q := q + [Quantize(v[i])];
    }
  }

  /** The vectors' part of `generateMetadata`, called with an empty next state. */
  method GenerateVectors(g: Given, path: seq<Point>) returns (v: Vectors)
    ensures v == VectorsOf(g, path)
  {
    hide Quantized;
    v := Vectors([], [], []);
    NothingStored();
    if g.state != [] {
      var state := QuantizeAll(g.state, MAX_STATE_DIM);
      v := v.(state := state);
    } else if path != [] {
      var back := path[|path| - 1];
      var state := QuantizeAll([back.x, back.y], MAX_STATE_DIM);
      v := v.(state := state);
    }
    if g.action != [] {
      var action := QuantizeAll(g.action, MAX_ACTION_DIM);
      v := v.(action := action);
    }
    if g.last != [] {
      var nextState := QuantizeAll(g.last, MAX_STATE_DIM);
      v := v.(nextState := nextState);
    }
  }

  lemma NothingStored()
    ensures forall dim :: Quantized([], dim) == []
  {
  }

  /** `getStateVector` and `getActionVector` */
  method DequantizeAll(q: seq<nat>) returns (v: seq<real>)
    ensures |v| == |q| && forall i :: 0 <= i < |q| ==> v[i] == Dequantize(q[i])
  {
    v := [];
    for i := 0 to |q|
      invariant |v| == i && forall j :: 0 <= j < i ==> v[j] == Dequantize(q[j])
    {
      v := v + [Dequantize(q[i])];
    }
  }

  /** `getNextStateVector`; None where it reads past the end of the next state. */
  method NextStateVector(e: Vectors) returns (v: Option<seq<real>>)
    ensures v.Some? <==> |e.state| <= |e.nextState|
    ensures v.Some? ==>
              |v.value| == |e.state| && forall i :: 0 <= i < |e.state| ==> v.value[i] == Dequantize(e.nextState[i])
  {
    var result := [];
    for i := 0 to |e.state|
      invariant |result| == i <= |e.nextState|
      invariant forall j :: 0 <= j < i ==> result[j] == Dequantize(e.nextState[j])
    {
      if i == |e.nextState| {
        return None;
      }
      result := result + [Dequantize(e.nextState[i])];
    }
    v := Some(result);
  }
}
