/**
 Server errors inside replies: where they are, and what extracting them yields.
 */
module Replies {
  import opened Resp

  /** All server errors in a value, in the order extraction meets them. */
  function ErrorsIn(v: Value): seq<ServerError>
    decreases v, 0
  {
    match v
    case Error(e) => [e]
    case Array(items) => ErrorsInAll(items)
    case Set(members) => ErrorsInAll(members)
    case Push(_, payload) => ErrorsInAll(payload)
    case Map(pairs) => ErrorsInPairs(pairs)
    case Attribute(inner, attributes) => ErrorsIn(inner) + ErrorsInPairs(attributes)
    case _ => []
  }

  function ErrorsInAll(vs: seq<Value>): seq<ServerError>
    decreases vs, 1
  {
    if vs == [] then [] else ErrorsIn(vs[0]) + ErrorsInAll(vs[1..])
  }

  function ErrorsInPair(p: Pair): seq<ServerError>
    decreases p, 1
  {
    ErrorsIn(p.key) + ErrorsIn(p.value)
  }

  function ErrorsInPairs(ps: seq<Pair>): seq<ServerError>
    decreases ps, 1
  {
    if ps == [] then [] else ErrorsInPair(ps[0]) + ErrorsInPairs(ps[1..])
  }

  function ExtractError(v: Value): Result<Value, RedisError>
    decreases v, 0
  {
    match v
    case Error(e) => Err(Server(e))
    case Array(items) =>
      var r := ExtractErrorVec(items);
      if r.Err? then Err(r.error) else Ok(Array(r.value))
    case Set(members) =>
      var r := ExtractErrorVec(members);
      if r.Err? then Err(r.error) else Ok(Set(r.value))
    case Push(kind, payload) =>
      var r := ExtractErrorVec(payload);
      if r.Err? then Err(r.error) else Ok(Push(kind, r.value))
    case Map(pairs) =>
      var r := ExtractErrorPairs(pairs);
      if r.Err? then Err(r.error) else Ok(Map(r.value))
    case Attribute(inner, attributes) =>
      var d := ExtractError(inner);
      if d.Err? then Err(d.error)
      else
        var r := ExtractErrorPairs(attributes);
        if r.Err? then Err(r.error) else Ok(Attribute(d.value, r.value))
    case _ => Ok(v)
  }

  function ExtractErrorVec(vs: seq<Value>): Result<seq<Value>, RedisError>
    decreases vs, 1
  {
    if vs == [] then Ok([])
    else
      var first := ExtractError(vs[0]);
      if first.Err? then Err(first.error)
      else
        var others := ExtractErrorVec(vs[1..]);
        if others.Err? then others else Ok([first.value] + others.value)
  }

  function ExtractErrorPair(p: Pair): Result<Pair, RedisError>
    decreases p, 1
  {
    var k := ExtractError(p.key);
    if k.Err? then Err(k.error)
    else
      var v := ExtractError(p.value);
      if v.Err? then Err(v.error) else Ok(Pair(k.value, v.value))
  }

  function ExtractErrorPairs(ps: seq<Pair>): Result<seq<Pair>, RedisError>
    decreases ps, 1
  {
    if ps == [] then Ok([])
    else
      var first := ExtractErrorPair(ps[0]);
      if first.Err? then Err(first.error)
      else
        var others := ExtractErrorPairs(ps[1..]);
        if others.Err? then others else Ok([first.value] + others.value)
  }

  /** Either everything unchanged, or the first error met. */
  function FirstErrorOr<T>(errors: seq<ServerError>, value: T): Result<T, RedisError> {
    if errors == [] then Ok(value) else Err(Server(errors[0]))
  }

  /** Extraction succeeds, changing nothing, exactly when no server error sits at any depth. */
  lemma {:induction false} ExtractErrorExact(v: Value)
    ensures ExtractError(v) == FirstErrorOr(ErrorsIn(v), v)
    decreases v, 0
  {
    hide ErrorsInAll, ErrorsInPairs, ExtractErrorVec, ExtractErrorPairs;
    match v
    case Array(items) => ExtractVecExact(items);
    case Set(members) => ExtractVecExact(members);
    case Push(_, payload) => ExtractVecExact(payload);
    case Map(pairs) => ExtractPairsExact(pairs);
    case Attribute(inner, attributes) =>
      ExtractErrorExact(inner);
      ExtractPairsExact(attributes);
    case _ =>
  }

  lemma {:induction false} ExtractVecExact(vs: seq<Value>)
    ensures ExtractErrorVec(vs) == FirstErrorOr(ErrorsInAll(vs), vs)
    decreases vs, 1
  {
    hide ErrorsIn, ExtractError;
    if vs == [] {
    } else {
      ExtractErrorExact(vs[0]);
      ExtractVecExact(vs[1..]);
      assert [vs[0]] + vs[1..] == vs;
    }
  }

  lemma {:induction false} ExtractPairExact(p: Pair)
    ensures ExtractErrorPair(p) == FirstErrorOr(ErrorsInPair(p), p)
    decreases p, 1
  {
    ExtractErrorExact(p.key);
    ExtractErrorExact(p.value);
  }

  lemma {:induction false} ExtractPairsExact(ps: seq<Pair>)
    ensures ExtractErrorPairs(ps) == FirstErrorOr(ErrorsInPairs(ps), ps)
    decreases ps, 1
  {
    hide ErrorsInPair, ExtractErrorPair;
    if ps == [] {
    } else {
      ExtractPairExact(ps[0]);
      ExtractPairsExact(ps[1..]);
      assert [ps[0]] + ps[1..] == ps;
    }
  }

  lemma {:induction false} ErrorsInOneMore(ps: seq<Pair>, p: Pair)
    ensures ErrorsInPairs(ps + [p]) == ErrorsInPairs(ps) + ErrorsInPair(p)
  {
    hide ErrorsInPair;
    var qs := ps + [p];
    if ps == [] {
      assert qs[1..] == [];
    } else {
      ErrorsInOneMore(ps[1..], p);
      assert qs[1..] == ps[1..] + [p];
      assert ErrorsInPair(ps[0]) + (ErrorsInPairs(ps[1..]) + ErrorsInPair(p)) ==
             ErrorsInPair(ps[0]) + ErrorsInPairs(ps[1..]) + ErrorsInPair(p);
    }
  }

  /** The map loop: pairs are rebuilt one by one until an error turns up. */
  method ExtractErrorMap(ps: seq<Pair>) returns (r: Result<seq<Pair>, RedisError>)
    ensures r == FirstErrorOr(ErrorsInPairs(ps), ps)
  {
    hide ErrorsIn, ExtractError, ErrorsInPairs;
    var vec := [];
    NoPairs();
    for i := 0 to |ps|
      invariant vec == ps[..i] && ErrorsInPairs(ps[..i]) == []
    {
      ErrorsInOneMore(ps[..i], ps[i]);
      assert ps[..i] + [ps[i]] == ps[..i + 1];
      ExtractErrorExact(ps[i].key);
      ExtractErrorExact(ps[i].value);
      var k := ExtractError(ps[i].key);
      var v := ExtractError(ps[i].value);
      if k.Err? || v.Err? {
        ErrorsPrefix(ps, i + 1);
        return Err(if k.Err? then k.error else v.error);
      }
      vec := vec + [Pair(k.value, v.value)];
    }
    assert ps[..|ps|] == ps;
    r := Ok(vec);
  }

  lemma {:induction false} NoPairs()
    ensures ErrorsInPairs([]) == []
  {
  }

  /** The errors of the first pairs come first. */
  lemma {:induction false} ErrorsPrefix(ps: seq<Pair>, i: nat)
    requires i <= |ps|
    ensures ErrorsInPairs(ps[..i]) <= ErrorsInPairs(ps)
    decreases |ps| - i
  {
    hide ErrorsInPairs;
    if i < |ps| {
      ErrorsInOneMore(ps[..i], ps[i]);
      assert ps[..i] + [ps[i]] == ps[..i + 1];
      ErrorsPrefix(ps, i + 1);
    } else {
      assert ps[..i] == ps;
    }
  }
}
