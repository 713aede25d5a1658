/**
 Where a reply ends: the verdict on the bytes received so far is final once it
 is not `More`, a reply is decided by its own bytes alone, and no strict prefix
 of a reply is ever taken for a reply.
 */
module Framing {
  import opened Resp
  import opened Text
  import opened Parser

  /**
   How a verdict `p` on some bytes and the verdict `q` on the same bytes followed
   by `t` are related: decided stays decided, and a parse that was short of
   input can only complete by using bytes of `t`.
   */
  ghost predicate Stable<T(!new)>(p: Parsed<T>, q: Parsed<T>, t: bytes) {
    match p
    case Done(v, rest) => q == Done(v, rest + t)
    case Bad => q == Bad
    case More => q.Done? ==> |q.rest| < |t|
  }

  lemma {:induction false} LineStable(lv: Leaves, s: bytes, t: bytes)
    ensures Stable(ParseLine(lv, s), ParseLine(lv, s + t), t)
  {
    FindCrlfExtends(s, t);
    match FindCrlf(s)
    case None =>
    case Some(i) =>
      assert (s + t)[..i] == s[..i];
      assert (s + t)[i + 2..] == s[i + 2..] + t;
  }

  lemma {:induction false} IntStable(lv: Leaves, s: bytes, t: bytes)
    ensures Stable(ParseInt(lv, s), ParseInt(lv, s + t), t)
  {
    LineStable(lv, s, t);
  }

  lemma {:induction false} TakeStable(n: nat, s: bytes, t: bytes)
    ensures Stable(TakeCrlf(n, s), TakeCrlf(n, s + t), t)
  {
    if |s| > n + 1 {
      assert (s + t)[..n] == s[..n];
      assert (s + t)[n + 2..] == s[n + 2..] + t;
    }
  }

  lemma {:induction false} BulkStable(lv: Leaves, s: bytes, t: bytes)
    ensures Stable(ParseBulk(lv, s), ParseBulk(lv, s + t), t)
  {
    IntStable(lv, s, t);
    var p := ParseInt(lv, s);
    if p.Done? && p.value >= 0 {
      TakeStable(p.value, p.rest, t);
    }
  }

  lemma {:induction false} BlobStable(lv: Leaves, s: bytes, t: bytes)
    ensures Stable(ParseBlob(lv, s), ParseBlob(lv, s + t), t)
  {
    IntStable(lv, s, t);
    var p := ParseInt(lv, s);
    if p.Done? {
      TakeStable(AsUsize(p.value), p.rest, t);
    }
  }

  lemma {:induction false} LeafStable(lv: Leaves, tag: byte, s: bytes, t: bytes)
    ensures Stable(ParseLeaf(lv, tag, s), ParseLeaf(lv, tag, s + t), t)
  {
    hide ParseBulk, ParseBlob, ParseLine, LineValue, BlobValue;
    if tag == TAG_BULK {
      BulkStable(lv, s, t);
    } else if IsLineTag(tag) {
      LineStable(lv, s, t);
    } else {
      BlobStable(lv, s, t);
    }
  }

  lemma {:induction false} ValueStable(lv: Leaves, s: bytes, t: bytes, count: int)
    requires count <= MAX_RECURSE_DEPTH + 1
    ensures Stable(ParseValue(lv, s, count), ParseValue(lv, s + t, count), t)
    decreases MAX_RECURSE_DEPTH + 1 - count, |s|, 0
  {
    if s == [] {
      assert s + t == t;
    } else if count <= MAX_RECURSE_DEPTH {
      var body := s[1..];
      assert (s + t)[1..] == body + t;
      if !IsAggregate(s[0]) {
        LeafStable(lv, s[0], body, t);
      } else {
        IntStable(lv, body, t);
        BodyStable(lv, s[0], ParseInt(lv, body), ParseInt(lv, body + t), t, count);
      }
    }
  }

  lemma {:induction false} BodyStable(
    lv: Leaves, tag: byte, h: Parsed<int>, h': Parsed<int>, t: bytes, count: int)
    requires count <= MAX_RECURSE_DEPTH && IsAggregate(tag) && ValidHeader(h) && ValidHeader(h')
    requires Stable(h, h', t)
    ensures Stable(ParseBody(lv, tag, h, count), ParseBody(lv, tag, h', count), t)
    decreases MAX_RECURSE_DEPTH + 1 - count, 0, 0
  {
    hide ParseItems, Build;
    if h.Done? {
      var plan := PlanFor(tag, h.value);
      if plan.Collect? {
        ItemsStable(lv, h.rest, t, plan.n, count + 1);
      }
    }
  }

  lemma {:induction false} ItemsStable(lv: Leaves, s: bytes, t: bytes, n: nat, count: int)
    requires count <= MAX_RECURSE_DEPTH + 1
    ensures Stable(ParseItems(lv, s, n, count), ParseItems(lv, s + t, n, count), t)
    decreases MAX_RECURSE_DEPTH + 1 - count, |s|, 1
  {
    hide ParseValue;
    if n == 0 {
    } else {
      ValueStable(lv, s, t, count);
      var p, p' := ParseValue(lv, s, count), ParseValue(lv, s + t, count);
      if p.Done? {
        ItemsStable(lv, p.rest, t, n - 1, count);
      }
      ConsStable(
        p, if p.Done? then ParseItems(lv, p.rest, n - 1, count) else More,
        p', if p'.Done? then ParseItems(lv, p'.rest, n - 1, count) else More, t);
    }
  }

  lemma {:induction false} ConsStable(
    p: Parsed<Value>, q: Parsed<seq<Value>>, p': Parsed<Value>, q': Parsed<seq<Value>>, t: bytes)
    requires Stable(p, p', t)
    requires p.Done? ==> Stable(q, q', t)
    requires p'.Done? && q'.Done? ==> |q'.rest| <= |p'.rest|
    ensures Stable(Cons(p, q), Cons(p', q'), t)
  {
  }

  // -------------------------------------------------------------- consequences

  /** A completed or rejected parse does not change when more bytes arrive. */
  lemma {:induction false} VerdictIsFinal(lv: Leaves, s: bytes, t: bytes)
    ensures Parse(lv, s).Done? ==> Parse(lv, s + t) == Done(Parse(lv, s).value, Parse(lv, s).rest + t)
    ensures Parse(lv, s).Bad? ==> Parse(lv, s + t).Bad?
  {
    ValueStable(lv, s, t, 1);
  }

  lemma {:induction false} SuffixTrans(a: bytes, b: bytes, c: bytes)
    requires Suffix(a, b) && Suffix(b, c)
    ensures Suffix(a, c)
  {
    assert a == c[|c| - |b|..][|b| - |a|..];
  }

  lemma {:induction false} TakeRestIsSuffix(header: Parsed<int>, n: nat, s: bytes)
    requires header.Done? && Suffix(header.rest, s)
    ensures var r := TakeCrlf(n, header.rest); r.Done? ==> Suffix(r.rest, s)
  {
    var r := TakeCrlf(n, header.rest);
    if r.Done? {
      SuffixTrans(r.rest, header.rest, s);
    }
  }

  lemma {:induction false} BulkRestIsSuffix(lv: Leaves, s: bytes)
    ensures var r := ParseBulk(lv, s); r.Done? ==> Suffix(r.rest, s)
  {
    var p := ParseInt(lv, s);
    if p.Done? && p.value >= 0 {
      TakeRestIsSuffix(p, p.value, s);
    }
  }

  lemma {:induction false} BlobRestIsSuffix(lv: Leaves, s: bytes)
    ensures var r := ParseBlob(lv, s); r.Done? ==> Suffix(r.rest, s)
  {
    var p := ParseInt(lv, s);
    if p.Done? {
      TakeRestIsSuffix(p, AsUsize(p.value), s);
    }
  }

  lemma {:induction false} LeafRestIsSuffix(lv: Leaves, tag: byte, s: bytes)
    ensures var r := ParseLeaf(lv, tag, s); r.Done? ==> Suffix(r.rest, s)
  {
    hide ParseBulk, ParseBlob;
    BulkRestIsSuffix(lv, s);
    BlobRestIsSuffix(lv, s);
  }

  lemma {:induction false} BodyRestIsSuffix(lv: Leaves, tag: byte, header: Parsed<int>, count: int)
    requires count <= MAX_RECURSE_DEPTH && IsAggregate(tag) && ValidHeader(header)
    ensures var r := ParseBody(lv, tag, header, count); r.Done? ==> Suffix(r.rest, header.rest)
    decreases MAX_RECURSE_DEPTH + 1 - count, 0, 0
  {
    hide ParseItems;
    if header.Done? {
      var plan := PlanFor(tag, header.value);
      if plan.Collect? {
        ItemsRestIsSuffix(lv, header.rest, plan.n, count + 1);
      }
    }
  }

  /** What is left over is a suffix of the input. */
  lemma {:induction false} RestIsSuffix(lv: Leaves, s: bytes, count: int)
    requires count <= MAX_RECURSE_DEPTH + 1
    ensures var r := ParseValue(lv, s, count); r.Done? ==> Suffix(r.rest, s)
    decreases MAX_RECURSE_DEPTH + 1 - count, |s|, 0
  {
    var r := ParseValue(lv, s, count);
    if r.Done? {
      if IsAggregate(s[0]) {
        var header := ParseInt(lv, s[1..]);
        BodyRestIsSuffix(lv, s[0], header, count);
        SuffixTrans(r.rest, header.rest, s[1..]);
      } else {
        LeafRestIsSuffix(lv, s[0], s[1..]);
      }
      SuffixTrans(r.rest, s[1..], s);
    }
  }

  lemma {:induction false} ItemsRestIsSuffix(lv: Leaves, s: bytes, n: nat, count: int)
    requires count <= MAX_RECURSE_DEPTH + 1
    ensures var r := ParseItems(lv, s, n, count); r.Done? ==> Suffix(r.rest, s)
    decreases MAX_RECURSE_DEPTH + 1 - count, |s|, 1
  {
    hide ParseValue;
    var r := ParseItems(lv, s, n, count);
    if n == 0 || !r.Done? {
    } else {
      var p := ParseValue(lv, s, count);
      RestIsSuffix(lv, s, count);
      ItemsRestIsSuffix(lv, p.rest, n - 1, count);
      SuffixTrans(r.rest, p.rest, s);
    }
  }

  /** The bytes `frame` are exactly one reply. */
  ghost predicate IsFrame(lv: Leaves, frame: bytes, v: Value) {
    Parse(lv, frame) == Done(v, [])
  }

  /** Input that parses starts with one frame, which alone gives the same value. */
  lemma {:induction false} ParseSplitsOffAFrame(lv: Leaves, s: bytes)
    requires Parse(lv, s).Done?
    ensures
      var r := Parse(lv, s);
      var frame := s[..|s| - |r.rest|];
      s == frame + r.rest && frame != [] && IsFrame(lv, frame, r.value)
  {
    RestIsSuffix(lv, s, 1);
    var r := Parse(lv, s);
    var frame := s[..|s| - |r.rest|];
    assert s == frame + r.rest;
    ValueStable(lv, frame, r.rest, 1);
    NothingLeft(Parse(lv, frame), r.value, r.rest);
  }

  lemma {:induction false} NothingLeft(p: Parsed<Value>, v: Value, t: bytes)
    requires Stable(p, Done(v, t), t)
    ensures p == Done(v, [])
  {
    assert p.Done? && |p.rest + t| == |t|;
  }

  /** No strict prefix of a frame is a reply, nor is it rejected. */
  lemma {:induction false} StrictPrefixNeedsMore(lv: Leaves, prefix: bytes, tail: bytes, v: Value)
    requires tail != [] && IsFrame(lv, prefix + tail, v)
    ensures Parse(lv, prefix).More?
  {
    ValueStable(lv, prefix, tail, 1);
  }

  /** A byte stream starts with at most one frame. */
  lemma {:induction false} FrameIsUnique(lv: Leaves, f: bytes, g: bytes, s: bytes, t: bytes, v: Value, w: Value)
    requires IsFrame(lv, f, v) && IsFrame(lv, g, w) && f + s == g + t
    ensures f == g && v == w && s == t
  {
    VerdictIsFinal(lv, f, s);
    VerdictIsFinal(lv, g, t);
    assert [] + s == s && [] + t == t;
    assert f == (f + s)[..|f|] && g == (g + t)[..|g|];
  }

  // ----------------------------------------------------------------- nesting

  lemma {:induction false} DepthAllCons(v: Value, vs: seq<Value>)
    ensures DepthAll([v] + vs) == Max(Depth(v), DepthAll(vs))
  {
    assert ([v] + vs)[1..] == vs;
  }

  lemma {:induction false} DepthOfPairs(vs: seq<Value>)
    ensures DepthPairs(Pairs(vs)) <= DepthAll(vs)
  {
    if |vs| < 2 {
    } else {
      DepthOfPairs(vs[2..]);
      DepthAllCons(vs[0], vs[1..]);
      DepthAllCons(vs[1], vs[2..]);
      assert vs == [vs[0]] + vs[1..] && vs[1..] == [vs[1]] + vs[2..];
      assert Pairs(vs)[1..] == Pairs(vs[2..]);
    }
  }

  lemma {:induction false} DepthOfElement(vs: seq<Value>, i: nat)
    requires i < |vs|
    ensures Depth(vs[i]) <= DepthAll(vs)
  {
    if i == 0 {
    } else {
      DepthOfElement(vs[1..], i - 1);
    }
  }

  /** One value directly inside another. */
  predicate PartOf(part: Value, v: Value) {
    match v
    case Array(items) => part in items
    case Set(members) => part in members
    case Push(_, payload) => part in payload
    case Map(pairs) => exists i | 0 <= i < |pairs| :: part == pairs[i].key || part == pairs[i].value
    case Attribute(inner, attributes) =>
      part == inner || exists i | 0 <= i < |attributes| :: part == attributes[i].key || part == attributes[i].value
    case _ => false
  }

  lemma {:induction false} DepthOfPair(ps: seq<Pair>, i: nat)
    requires i < |ps|
    ensures Depth(ps[i].key) <= DepthPairs(ps) && Depth(ps[i].value) <= DepthPairs(ps)
  {
    if i == 0 {
    } else {
      DepthOfPair(ps[1..], i - 1);
    }
  }

  /** Whatever is inside a value nests less deeply than the value. */
  lemma {:induction false} PartsAreShallower(part: Value, v: Value)
    requires PartOf(part, v)
    ensures Depth(part) < Depth(v)
  {
    hide DepthAll, DepthPairs;
    match v {
      case Map(pairs) =>
        var i :| 0 <= i < |pairs| && (part == pairs[i].key || part == pairs[i].value);
        DepthOfPair(pairs, i);
      case Attribute(inner, attributes) =>
        if part != inner {
          var i :| 0 <= i < |attributes| && (part == attributes[i].key || part == attributes[i].value);
          DepthOfPair(attributes, i);
        }
      case Array(items) =>
        var i :| 0 <= i < |items| && items[i] == part;
        DepthOfElement(items, i);
      case Set(members) =>
        var i :| 0 <= i < |members| && members[i] == part;
        DepthOfElement(members, i);
      case Push(_, payload) =>
        var i :| 0 <= i < |payload| && payload[i] == part;
        DepthOfElement(payload, i);
    }
  }

  lemma {:induction false} PushDepth(kind: PushKind, vs: seq<Value>)
    requires vs != []
    ensures Depth(Push(kind, vs[1..])) <= 1 + DepthAll(vs)
  {
  }

  lemma {:induction false} PairsDepth(vs: seq<Value>)
    ensures Depth(Map(Pairs(vs))) <= 1 + DepthAll(vs)
    ensures vs != [] ==> Depth(Attribute(vs[|vs| - 1], Pairs(vs))) <= 1 + DepthAll(vs)
  {
    DepthOfPairs(vs);
    if vs != [] {
      DepthOfElement(vs, |vs| - 1);
    }
  }

  lemma {:induction false} BuildDepth(lv: Leaves, tag: byte, vs: seq<Value>)
    requires IsAggregate(tag) && ElementsFit(tag, |vs|)
    ensures var r := Build(lv, tag, vs); r.Some? ==> Depth(r.value) <= 1 + DepthAll(vs)
  {
    var r := Build(lv, tag, vs);
    if tag == TAG_MAP || tag == TAG_ATTRIBUTE {
      PairsDepth(vs);
    } else if tag == TAG_PUSH && r.Some? {
      PushDepth(r.value.kind, vs);
    }
  }

  lemma {:induction false} AssembleDepth(lv: Leaves, tag: byte, items: Parsed<seq<Value>>, limit: nat)
    requires IsAggregate(tag) && (items.Done? ==> ElementsFit(tag, |items.value|) && DepthAll(items.value) <= limit)
    ensures var r := Assemble(lv, tag, items); r.Done? ==> Depth(r.value) <= limit + 1
  {
    if items.Done? {
      BuildDepth(lv, tag, items.value);
    }
  }

  /** No value nests deeper than the recursion limit allows from its level on. */
  lemma {:induction false} DepthBounded(lv: Leaves, s: bytes, count: int)
    requires count <= MAX_RECURSE_DEPTH + 1
    ensures var r := ParseValue(lv, s, count); r.Done? ==> Depth(r.value) + count <= MAX_RECURSE_DEPTH + 1
    decreases MAX_RECURSE_DEPTH + 1 - count, |s|, 0
  {
    if s != [] && count <= MAX_RECURSE_DEPTH && IsAggregate(s[0]) {
      BodyDepthBounded(lv, s[0], ParseInt(lv, s[1..]), count);
    }
  }

  lemma {:induction false} BodyDepthBounded(lv: Leaves, tag: byte, header: Parsed<int>, count: int)
    requires count <= MAX_RECURSE_DEPTH && IsAggregate(tag) && ValidHeader(header)
    ensures var r := ParseBody(lv, tag, header, count);
            r.Done? ==> Depth(r.value) + count <= MAX_RECURSE_DEPTH + 1
    decreases MAX_RECURSE_DEPTH + 1 - count, 0, 0
  {
    hide ParseItems, Assemble;
    if header.Done? {
      var plan := PlanFor(tag, header.value);
      if plan.Collect? {
        ItemsDepthBounded(lv, header.rest, plan.n, count + 1);
        AssembleDepth(lv, tag, ParseItems(lv, header.rest, plan.n, count + 1), MAX_RECURSE_DEPTH - count);
      }
    }
  }

  lemma {:induction false} ItemsDepthBounded(lv: Leaves, s: bytes, n: nat, count: int)
    requires count <= MAX_RECURSE_DEPTH + 1
    ensures var r := ParseItems(lv, s, n, count); r.Done? ==> DepthAll(r.value) + count <= MAX_RECURSE_DEPTH + 1
    decreases MAX_RECURSE_DEPTH + 1 - count, |s|, 1
  {
    hide ParseValue, Depth;
    if n == 0 {
    } else {
      DepthBounded(lv, s, count);
      var p := ParseValue(lv, s, count);
      if p.Done? {
        ItemsDepthBounded(lv, p.rest, n - 1, count);
        var q := ParseItems(lv, p.rest, n - 1, count);
        if q.Done? {
          DepthAllCons(p.value, q.value);
        }
      }
    }
  }

  /** Every value the client hands out nests at most 100 levels. */
  lemma {:induction false} ParsedDepthAtMost100(lv: Leaves, s: bytes)
    ensures Parse(lv, s).Done? ==> Depth(Parse(lv, s).value) <= 100
  {
    DepthBounded(lv, s, 1);
  }

  // -------------------------------------------------- map and attribute lengths

  /**
   Lengths of maps and attributes in 64-bit arithmetic: doubling the declared
   length overflows exactly when it is negative, and the extra element of an
   attribute never does.
   */
  lemma {:induction false} PairLengths(tag: byte, length: int)
    requires tag == TAG_MAP || tag == TAG_ATTRIBUTE
    requires -TWO_63 <= length < TWO_63
    ensures PlanFor(tag, length).Reject? <==> length < 0
    ensures length >= 0 ==>
              PlanFor(tag, length) == Collect(2 * length + (if tag == TAG_MAP then 0 else 1)) &&
              PlanFor(tag, length).n < TWO_64
  {
  }

  /** `v` is the map or attribute made of the first `k` pairs of `items`, in order. */
  ghost predicate HoldsPairs(v: Value, tag: byte, items: seq<Value>, k: nat)
    requires |items| >= 2 * k + (if tag == TAG_MAP then 0 else 1)
  {
    && (if tag == TAG_MAP then v.Map? else v.Attribute? && v.inner == items[2 * k])
    && var ps := if v.Map? then v.pairs else v.attributes;
    && |ps| == k
    && forall i | 0 <= i < k :: ps[i] == Pair(items[2 * i], items[2 * i + 1])
  }

  /**
   A successful map or attribute has exactly the declared number of pairs, in
   wire order, and an attribute always has its payload, the last element.
   */
  lemma {:induction false} MapAndAttributeFraming(lv: Leaves, tag: byte, header: Parsed<int>, count: int)
    requires count <= MAX_RECURSE_DEPTH
    requires (tag == TAG_MAP || tag == TAG_ATTRIBUTE) && ValidHeader(header)
    requires ParseBody(lv, tag, header, count).Done?
    ensures
      && header.Done? && header.value >= 0
      && var k := header.value;
      var items := ParseItems(lv, header.rest, if tag == TAG_MAP then 2 * k else 2 * k + 1, count + 1);
      && items.Done? && ParseBody(lv, tag, header, count).rest == items.rest
      && HoldsPairs(ParseBody(lv, tag, header, count).value, tag, items.value, k)
  {
    hide ParseItems;
    PairLengths(tag, header.value);
    PairsInOrder(ParseItems(lv, header.rest, PlanFor(tag, header.value).n, count + 1).value);
  }

  /** The pairing loop of the map and attribute branches, over an iterator it drains. */
  method CollectPairs(items: seq<Value>, kvLength: nat) returns (pairs: seq<Pair>, left: seq<Value>)
    requires 2 * kvLength <= |items|
    ensures pairs == Pairs(items[..2 * kvLength]) && left == items[2 * kvLength..]
  {
    pairs, left := [], items;
    for i := 0 to kvLength
      invariant left == items[2 * i..]
      invariant |pairs| == i && forall j | 0 <= j < i :: pairs[j] == Pair(items[2 * j], items[2 * j + 1])
    {
      pairs := pairs + [Pair(left[0], left[1])];
      left := left[2..];
    }
    PairsInOrder(items[..2 * kvLength]);
  }
}
