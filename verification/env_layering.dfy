/**
 * The environment context given to each step of a parallel group: the job's
 * global variables, overlaid by the step's existing `env` binding, overlaid by
 * the step's evaluated action `env` block. Keys are compared case-sensitively.
 */
module EnvLayering {
  import opened Wrappers
  import opened Execution

  type Layer = map<string, ContextData>

  /** A layer of string variables; a `null` value reads as the empty string. */
  function StringLayer(vars: map<string, Option<string>>): (r: Layer)
    ensures r.Keys == vars.Keys
    ensures forall k :: k in vars ==> r[k] == StringData(vars[k].GetOr(""))
  {
    map k | k in vars :: StringData(vars[k].GetOr(""))
  }

  /** Reference semantics of layering: the value given by the highest layer that defines `k`. */
  function Resolve(layers: seq<Layer>, k: string): Option<ContextData>
    decreases |layers|
  {
    if |layers| == 0 then None
    else if k in layers[|layers| - 1] then Some(layers[|layers| - 1][k])
    else Resolve(layers[..|layers| - 1], k)
  }

  /** With three layers, the top one is consulted first, then the middle one, then the bottom one. */
  lemma ResolveThree(a: Layer, b: Layer, c: Layer)
    ensures forall k :: Resolve([a, b, c], k) ==
                        (if k in c then Some(c[k]) else if k in b then Some(b[k]) else if k in a then Some(a[k]) else None)
  {
    assert [a, b, c][..2] == [a, b];
    assert [a, b][..1] == [a];
    assert [a][..0] == [];
    forall k
      ensures Resolve([a, b, c], k) ==
              (if k in c then Some(c[k]) else if k in b then Some(b[k]) else if k in a then Some(a[k]) else None)
    {
      if k !in c {
        assert Resolve([a, b, c], k) == Resolve([a, b], k);
        if k !in b {
          assert Resolve([a, b], k) == Resolve([a], k);
          assert Resolve([a], k) == if k in a then Some(a[k]) else Resolve([], k);
        }
      }
    }
  }

  /** The three layers, lowest first. An absent layer defines nothing. */
  function Layers(global: map<string, Option<string>>, outer: Option<Layer>,
                  action: Option<map<string, Option<string>>>): seq<Layer>
  {
    [StringLayer(global), outer.GetOr(map[]), StringLayer(action.GetOr(map[]))]
  }

  /** The environment context of a step: the three layers overlaid, lowest first. */
  function EnvContext(global: map<string, Option<string>>, outer: Option<Layer>,
                      action: Option<map<string, Option<string>>>): Layer
  {
    StringLayer(global) + outer.GetOr(map[]) + StringLayer(action.GetOr(map[]))
  }

  /** A key is defined exactly when some layer defines it, and takes the value of the highest such layer. */
  lemma EnvContextResolves(global: map<string, Option<string>>, outer: Option<Layer>,
                           action: Option<map<string, Option<string>>>)
    ensures forall k :: k in EnvContext(global, outer, action) <==> Resolve(Layers(global, outer, action), k).Some?
    ensures forall k :: k in EnvContext(global, outer, action) ==>
              Resolve(Layers(global, outer, action), k) == Some(EnvContext(global, outer, action)[k])
  {
    ResolveThree(StringLayer(global), outer.GetOr(map[]), StringLayer(action.GetOr(map[])));
  }

  /** The action block is laid over exactly what the evaluator of that block was shown. */
  lemma ActionLayerOnTop(global: map<string, Option<string>>, outer: Option<Layer>,
                         action: map<string, Option<string>>)
    ensures EnvContext(global, outer, Some(action)) == EnvContext(global, outer, None) + StringLayer(action)
    ensures forall k :: k in action ==> EnvContext(global, outer, Some(action))[k] == StringData(action[k].GetOr(""))
    ensures forall k :: k !in action && k in EnvContext(global, outer, None) ==>
              EnvContext(global, outer, Some(action))[k] == EnvContext(global, outer, None)[k]
  {
  }

  /** One `foreach` loop: every entry of `layer` is written into `env`, replacing any earlier value. */
  method WriteAll(env: Layer, layer: Layer) returns (r: Layer)
    ensures r == env + layer
  {
    r := env;
    var pending := layer.Keys;
    while pending != {}
      invariant pending <= layer.Keys
      invariant r.Keys == env.Keys + (layer.Keys - pending)
      invariant forall k :: k in layer && k !in pending ==> r[k] == layer[k]
      invariant forall k :: k in env && (k !in layer || k in pending) ==> r[k] == env[k]
      decreases pending
    {
      var k :| k in pending;
      r := r[k := layer[k]];
      pending := pending - {k};
    }
    assert r.Keys == (env + layer).Keys;
  }

  /**
   * The runner's three `foreach` loops: every global variable, then every
   * entry of the existing `env` binding, then every variable of the evaluated
   * action block is written into a fresh dictionary.
   */
  method BuildEnvContext(global: map<string, Option<string>>, outer: Option<Layer>,
                         action: Option<map<string, Option<string>>>) returns (env: Layer)
    ensures env == EnvContext(global, outer, action)
  {
    var bottom, middle, top := StringLayer(global), outer.GetOr(map[]), StringLayer(action.GetOr(map[]));
    env := WriteAll(map[], bottom);
    assert env == bottom;
    env := WriteAll(env, middle);
    env := WriteAll(env, top);
  }
}
