/**
 The depth limit, for every frame that any limit would accept: whatever its leaves,
 headers and lengths look like, the client takes it or rejects it by its nesting alone.
 */
module Nesting {
  import opened Resp
  import opened Parser
  import opened Framing

  /** The client's parser with another depth limit. */
  function ParseWithin(lv: Leaves, s: bytes, limit: nat): Parsed<Value> {
    ParseValue(lv, s, MAX_RECURSE_DEPTH + 1 - limit)
  }

  /** How many levels of type bytes the reply at the start of `s` nests, as far as it has arrived. */
  function Levels(lv: Leaves, s: bytes, count: int): (n: nat)
    requires count <= MAX_RECURSE_DEPTH + 1
    ensures s != [] ==> n >= 1
    decreases MAX_RECURSE_DEPTH + 1 - count, |s|, 0
  {
    if s == [] then 0
    else if count > MAX_RECURSE_DEPTH || !IsAggregate(s[0]) then 1
    else 1 + LevelsBelow(lv, s[0], ParseInt(lv, s[1..]), count)
  }

  function LevelsBelow(lv: Leaves, tag: byte, header: Parsed<int>, count: int): nat
    requires count <= MAX_RECURSE_DEPTH && IsAggregate(tag) && ValidHeader(header)
    decreases MAX_RECURSE_DEPTH + 1 - count, 0, 0
  {
    if !header.Done? then 0
    else
      match PlanFor(tag, header.value)
      case Collect(n) => LevelsOfItems(lv, header.rest, n, count + 1)
      case _ => 0
  }

  function LevelsOfItems(lv: Leaves, s: bytes, n: nat, count: int): nat
    requires count <= MAX_RECURSE_DEPTH + 1
    decreases MAX_RECURSE_DEPTH + 1 - count, |s|, 1
  {
    if n == 0 then 0
    else
      var first := ParseValue(lv, s, count);
      Max(Levels(lv, s, count), if first.Done? then LevelsOfItems(lv, first.rest, n - 1, count) else 0)
  }

  /** What a parser with less room makes of it, given the verdict of one with more room. */
  ghost function Cut<T>(p: Parsed<T>, levels: nat, count: int): Parsed<T> {
    if count + levels <= MAX_RECURSE_DEPTH + 1 then p else Bad
  }

  lemma {:induction false} ValueCut(lv: Leaves, s: bytes, count: int, less: int)
    requires count <= less <= MAX_RECURSE_DEPTH + 1
    ensures ParseValue(lv, s, less) == Cut(ParseValue(lv, s, count), Levels(lv, s, count), less)
    decreases MAX_RECURSE_DEPTH + 1 - count, |s|, 0
  {
    hide ParseBody, LevelsBelow, ParseLeaf, ParseInt;
    if s != [] && less <= MAX_RECURSE_DEPTH && IsAggregate(s[0]) {
      BodyCut(lv, s[0], ParseInt(lv, s[1..]), count, less);
    }
  }

  lemma {:induction false} BodyCut(lv: Leaves, tag: byte, header: Parsed<int>, count: int, less: int)
    requires count <= less <= MAX_RECURSE_DEPTH && IsAggregate(tag) && ValidHeader(header)
    ensures ParseBody(lv, tag, header, less) ==
            Cut(ParseBody(lv, tag, header, count), 1 + LevelsBelow(lv, tag, header, count), less)
    decreases MAX_RECURSE_DEPTH + 1 - count, 0, 0
  {
    hide ParseItems, LevelsOfItems, PlanFor, Build;
    if header.Done? {
      var plan := PlanFor(tag, header.value);
      if plan.Collect? {
        ItemsCut(lv, header.rest, plan.n, count + 1, less + 1);
      }
    }
  }

  lemma {:induction false} ItemsCut(lv: Leaves, s: bytes, n: nat, count: int, less: int)
    requires count <= less <= MAX_RECURSE_DEPTH + 1
    ensures ParseItems(lv, s, n, less) == Cut(ParseItems(lv, s, n, count), LevelsOfItems(lv, s, n, count), less)
    decreases MAX_RECURSE_DEPTH + 1 - count, |s|, 1
  {
    hide ParseValue, Levels;
    if n == 0 {
    } else {
      ValueCut(lv, s, count, less);
      var first := ParseValue(lv, s, count);
      if first.Done? {
        ItemsCut(lv, first.rest, n - 1, count, less);
      }
    }
  }

  /**
   For all bytes and all leaves, complete or not: what a parser with a larger limit
   completes, waits for or rejects, the client does alike while it nests at most 100
   levels; as soon as the first byte of a deeper level has arrived it rejects.
   */
  lemma {:induction false} LimitIsExact(lv: Leaves, s: bytes, limit: nat)
    requires limit >= 100
    ensures Parse(lv, s) == if Levels(lv, s, 101 - limit) <= 100 then ParseWithin(lv, s, limit) else Bad
  {
    ValueCut(lv, s, 101 - limit, 1);
  }

  /** In particular no value nested deeper than 100 levels gets through, and its frame is an error. */
  lemma {:induction false} DeepValuesRejected(lv: Leaves, s: bytes, limit: nat)
    requires limit >= 100 && ParseWithin(lv, s, limit).Done? && Depth(ParseWithin(lv, s, limit).value) > 100
    ensures Parse(lv, s).Bad?
  {
    LimitIsExact(lv, s, limit);
    ParsedDepthAtMost100(lv, s);
  }
}
