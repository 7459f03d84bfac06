/**
 * `checkGlobalExists`: probing a dotted property path such as
 * `Example.init` on the page's global object.
 *
 * The global object is a tree of values. An object's properties are its
 * own and inherited ones, as `in` sees them; a property is either plain
 * data or a getter that throws when it is read.
 */
module Globals {
  import opened Wrappers
  import opened Strings

  /** A JavaScript value as far as the walk can tell them apart. */
  datatype Value =
    | Obj(props: map<string, Slot>)  // typeof 'object' and not null
    | Func                           // typeof 'function': not traversed
    | Prim                           // numbers, strings, booleans, undefined
    | Null

  /** A property slot: a readable value or a getter that throws. */
  datatype Slot = Data(v: Value) | ThrowingGetter

  /** Where a walk down a path ends: at a value, at a missing step, or at the segment whose getter threw. */
  datatype Lookup = Reached(v: Value) | Missing | Threw(segment: string)

  /** The exception a throwing getter raises, with the segment being read. */
  datatype GetterError = GetterThrew(segment: string)

  /**
   * Reference definition of the walk: each segment must be `in` the current
   * value, which must be a non-null object; reading it moves to the next value.
   */
  function Resolve(v: Value, path: seq<string>): (r: Lookup)
    ensures r.Threw? ==> r.segment in path
  {
    if |path| == 0 then Reached(v)
    else match v
      case Obj(props) =>
        if path[0] in props then
          match props[path[0]]
          case Data(w) => Resolve(w, path[1..])
          case ThrowingGetter => Threw(path[0])
        else Missing
      case _ => Missing
  }

  /** Walking `a + b` is walking `a` and then, from where it ended, `b`. */
  lemma {:induction false} ResolveAppend(v: Value, a: seq<string>, b: seq<string>)
    ensures Resolve(v, a + b) ==
      match Resolve(v, a)
      case Reached(w) => Resolve(w, b)
      case other => other
    decreases |a|
  {
    if |a| > 0 {
      assert (a + b)[0] == a[0];
      assert (a + b)[1..] == a[1..] + b;
      match v
      case Obj(props) =>
        if a[0] in props {
          match props[a[0]]
          case Data(w) => ResolveAppend(w, a[1..], b);
          case ThrowingGetter =>
        }
      case _ =>
    } else {
      assert a + b == b;
    }
  }

  /** Step `k` of the walk passes through a non-null object holding a readable `path[k]`. */
  predicate StepsThrough(v: Value, path: seq<string>, k: nat)
    requires k < |path|
  {
    var at := Resolve(v, path[..k]);
    && at.Reached?
    && at.v.Obj?
    && path[k] in at.v.props
    && at.v.props[path[k]].Data?
  }

  /** After a first step into `w`, the walk from `v` over `path[..k+1]` is the walk from `w`. */
  lemma ResolveFirstStep(v: Value, w: Value, path: seq<string>, k: nat)
    requires |path| > 0 && k < |path|
    requires v.Obj? && path[0] in v.props && v.props[path[0]] == Data(w)
    ensures Resolve(v, path[..k + 1]) == Resolve(w, path[1..][..k])
  {
    assert path[..k + 1][0] == path[0];
    assert path[..k + 1][1..] == path[1..][..k];
  }

  /**
   * A path resolves exactly when every step passes through a non-null
   * object that has the segment; the value finally reached is unconstrained.
   */
  lemma {:induction false} ResolvedIffEveryStep(v: Value, path: seq<string>)
    ensures Resolve(v, path).Reached? <==>
      forall k :: 0 <= k < |path| ==> StepsThrough(v, path, k)
    decreases |path|
  {
    if |path| > 0 {
      assert path[..0] == [];
      if v.Obj? && path[0] in v.props && v.props[path[0]].Data? {
        var w := v.props[path[0]].v;
        ResolvedIffEveryStep(w, path[1..]);
        forall k | 1 <= k < |path|
          ensures StepsThrough(v, path, k) == StepsThrough(w, path[1..], k - 1)
        {
          ResolveFirstStep(v, w, path, k - 1);
        }
        if Resolve(v, path).Reached? {
          forall k | 0 <= k < |path| ensures StepsThrough(v, path, k) {
            if k > 0 {
              assert StepsThrough(w, path[1..], k - 1);
            }
          }
        } else {
          var j :| 0 <= j < |path| - 1 && !StepsThrough(w, path[1..], j);
          assert !StepsThrough(v, path, j + 1);
        }
      } else {
        assert !StepsThrough(v, path, 0);
      }
    }
  }

  /** Every prefix of a resolving path resolves too. */
  lemma PrefixResolves(v: Value, path: seq<string>, k: nat)
    requires k <= |path|
    requires Resolve(v, path).Reached?
    ensures Resolve(v, path[..k]).Reached?
  {
    ResolveAppend(v, path[..k], path[k..]);
    assert path[..k] + path[k..] == path;
  }

  /**
   * `checkGlobalExists(pattern)`: true when the dotted path resolves from the
   * global object, false when a step is missing or not traversable, and the
   * getter's exception when reading a segment throws.
   */
  method CheckGlobalExists(window: Value, pattern: string) returns (r: Result<bool, GetterError>)
    ensures r == Ok(true) <==> Resolve(window, Split(pattern, '.')).Reached?
    ensures r == Ok(false) <==> Resolve(window, Split(pattern, '.')).Missing?
    ensures r.Err? <==> Resolve(window, Split(pattern, '.')).Threw?
    ensures r == GlobalExists(window, pattern)
  {
    var parts := Split(pattern, '.');
    var obj := window;
    var i := 0;
    while i < |parts|
      invariant 0 <= i <= |parts|
      invariant Resolve(window, parts) == Resolve(obj, parts[i..])
    {
      var part := parts[i];
      assert parts[i..][0] == part && parts[i..][1..] == parts[i + 1..];
      if obj.Obj? && part in obj.props {
        match obj.props[part]
        case ThrowingGetter =>
          return Err(GetterThrew(part));
        case Data(w) =>
          obj := w;
      } else {
        return Ok(false);
      }
      i := i + 1;
    }
    return Ok(true);
  }

  /** The path probe the detection pass uses, as a value; a throwing getter reports the segment it was reading. */
  function GlobalExists(window: Value, pattern: string): (r: Result<bool, GetterError>)
    ensures r.Err? ==> r.error.segment in Split(pattern, '.')
  {
    match Resolve(window, Split(pattern, '.'))
    case Reached(_) => Ok(true)
    case Missing => Ok(false)
    case Threw(segment) => Err(GetterThrew(segment))
  }

  /**
   * `window.Example = { init: function(){} }` makes `Example.init` exist:
   * the last value reached may be a function.
   */
  lemma NestedFunctionExists(name: string, field: string)
    requires '.' !in name && '.' !in field
    ensures GlobalExists(Obj(map[name := Data(Obj(map[field := Data(Func)]))]), name + "." + field) == Ok(true)
  {
    var parts := [name, field];
    SplitJoin(parts, '.');
    assert Join(parts, ['.']) == name + "." + field;
    assert parts[1..] == [field];
    var inner := Obj(map[field := Data(Func)]);
    assert Resolve(inner, [field]) == Resolve(Func, []);
  }

  /** A function is not traversed, even when the path names one of its properties. */
  lemma FunctionNotTraversed(name: string, field: string)
    requires '.' !in name && '.' !in field
    ensures GlobalExists(Obj(map[name := Data(Func)]), name + "." + field) == Ok(false)
  {
    var parts := [name, field];
    SplitJoin(parts, '.');
    assert Join(parts, ['.']) == name + "." + field;
    assert parts[1..] == [field];
    assert Resolve(Obj(map[name := Data(Func)]), parts) == Resolve(Func, [field]) == Missing;
  }
}
