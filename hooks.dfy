/** The lifecycle-hook fold shared by the global read and token refresh operations:
    hooks of one phase run strictly in registration order, each awaited and each
    given the value the previous one left; a hook may throw (aborting the rest),
    return a falsy value (keep the current value: `hook(...) || value`) or return
    a replacement. */
module HookPipeline {
  import opened Common

  /** A hook: `None` is a falsy return (undefined, null, ...). */
  type Hook<!T> = T -> Outcome<Option<T>>

  /** One hook applied to the in-flight value: `(await hook(v)) || v`. */
  function Step<T>(hook: Hook<T>, v: T): Outcome<T> {
    match hook(v)
    case Thrown(e) => Thrown(e)
    case Ok(None) => Ok(v)
    case Ok(Some(w)) => Ok(w)
  }

  /** The value after the whole phase: the first hook that throws ends it. */
  function Fold<T>(hooks: seq<Hook<T>>, v: T): Outcome<T>
    decreases |hooks|
  {
    if hooks == [] then Ok(v)
    else
      match Step(hooks[0], v)
      case Thrown(e) => Thrown(e)
      case Ok(w) => Fold(hooks[1..], w)
  }

  /** Running `a` then `b` is running `a + b`: the registration order is the running order. */
  lemma {:induction false} FoldAppend<T>(a: seq<Hook<T>>, b: seq<Hook<T>>, v: T)
    ensures Fold(a + b, v) == match Fold(a, v) case Thrown(e) => Thrown(e) case Ok(w) => Fold(b, w)
    decreases |a|
  {
    if a != [] {
      assert (a + b)[0] == a[0];
      assert (a + b)[1..] == a[1..] + b;
      match Step(a[0], v)
      case Thrown(e) =>
      case Ok(w) => FoldAppend(a[1..], b, w);
    } else {
      assert a + b == b;
    }
  }

  /** The last hook of a phase sees exactly what all earlier hooks left. */
  lemma LastHookSeesPrefix<T>(hooks: seq<Hook<T>>, v: T)
    requires hooks != []
    ensures Fold(hooks, v) ==
      match Fold(hooks[..|hooks| - 1], v)
      case Thrown(e) => Thrown(e)
      case Ok(w) => Step(hooks[|hooks| - 1], w)
  {
    var n := |hooks| - 1;
    assert hooks == hooks[..n] + [hooks[n]];
    FoldAppend(hooks[..n], [hooks[n]], v);
  }

  /** Hooks that never return anything leave the value as it was. */
  lemma {:induction false} FoldFalsyKeeps<T>(hooks: seq<Hook<T>>, v: T)
    requires forall i, x :: 0 <= i < |hooks| ==> hooks[i](x) == Ok(None)
    ensures Fold(hooks, v) == Ok(v)
    decreases |hooks|
  {
    if hooks != [] {
      assert hooks[0](v) == Ok(None);
      FoldFalsyKeeps(hooks[1..], v);
    }
  }

  /** The result of a phase is the starting value or a value some hook returned. */
  lemma {:induction false} FoldResultOrigin<T>(hooks: seq<Hook<T>>, v: T)
    requires Fold(hooks, v).Ok?
    ensures Fold(hooks, v).value == v
         || exists i, x :: 0 <= i < |hooks| && hooks[i](x) == Ok(Some(Fold(hooks, v).value))
    decreases |hooks|
  {
    if hooks != [] {
      var w := Step(hooks[0], v).value;
      FoldResultOrigin(hooks[1..], w);
      var r := Fold(hooks, v).value;
      if r == w && w != v {
        assert hooks[0](v) == Ok(Some(r));
      } else if r != w {
        var i, x :| 0 <= i < |hooks[1..]| && hooks[1..][i](x) == Ok(Some(r));
        assert hooks[i + 1](x) == Ok(Some(r));
      }
    }
  }

  /** A phase that throws rethrows an error one of its hooks threw. */
  lemma {:induction false} FoldErrorOrigin<T>(hooks: seq<Hook<T>>, v: T)
    requires Fold(hooks, v).Thrown?
    ensures exists i, x :: 0 <= i < |hooks| && hooks[i](x) == Thrown(Fold(hooks, v).error)
    decreases |hooks|
  {
    var e := Fold(hooks, v).error;
    var first := Step(hooks[0], v);
    if first.Thrown? {
      assert hooks[0](v) == Thrown(e);
    } else {
      FoldErrorOrigin(hooks[1..], first.value);
      var i, x :| 0 <= i < |hooks[1..]| && hooks[1..][i](x) == Thrown(e);
      assert hooks[i + 1](x) == Thrown(e);
    }
  }

  /** Hooks that never throw give a phase that never throws. */
  lemma {:induction false} FoldNeverThrows<T>(hooks: seq<Hook<T>>, v: T)
    requires forall i, x :: 0 <= i < |hooks| ==> hooks[i](x).Ok?
    ensures Fold(hooks, v).Ok?
    decreases |hooks|
  {
    if hooks != [] {
      assert hooks[0](v).Ok?;
      FoldNeverThrows(hooks[1..], Step(hooks[0], v).value);
    }
  }

  /** The phase as the source runs it: a loop reassigning the in-flight value. */
  method RunHooks<T>(hooks: seq<Hook<T>>, v: T) returns (r: Outcome<T>)
    ensures r == Fold(hooks, v)
  {
    var current := v;
    var i := 0;
    while i < |hooks|
      invariant 0 <= i <= |hooks|
      invariant Fold(hooks, v) == Fold(hooks[i..], current)
    {
      assert hooks[i..][0] == hooks[i] && hooks[i..][1..] == hooks[i + 1..];
      var returned := hooks[i](current);
      match returned {
        case Thrown(e) =>
          return Thrown(e);
        case Ok(None) =>
        case Ok(Some(w)) =>
          current := w;
      }
      i := i + 1;
    }
    r := Ok(current);
  }
}
