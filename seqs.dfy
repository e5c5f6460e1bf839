/** Facts about sequences shared by the URL list, the digest and the counters. */
module Seqs {
  import opened Wrappers

  /** No element occurs twice. */
  predicate NoDuplicates<T(==)>(s: seq<T>) {
    forall i, j :: 0 <= i < j < |s| ==> s[i] != s[j]
  }

  /** The distinct elements of `s`, each kept where it first occurs: the order
      in which a Python dict remembers its keys. */
  function Dedup<T(==, !new)>(s: seq<T>): (r: seq<T>)
    ensures NoDuplicates(r)
    ensures forall x :: x in r <==> x in s
    ensures |r| <= |s|
    decreases |s|
  {
    if s == [] then []
    else
      var d := Dedup(s[..|s| - 1]);
      var last := s[|s| - 1];
      if last in d then d else d + [last]
  }

  /** The lists of `ss` one after the other: what a loop of `list.extend`
      calls builds. */
  function Flatten<T>(ss: seq<seq<T>>): seq<T>
    decreases |ss|
  {
    if ss == [] then [] else Flatten(ss[..|ss| - 1]) + ss[|ss| - 1]
  }

  /** Extending by one more list: the step of an `extend` loop. */
  lemma FlattenSnoc<T>(ss: seq<seq<T>>, s: seq<T>)
    ensures Flatten(ss + [s]) == Flatten(ss) + s
  {
    assert (ss + [s])[..|ss|] == ss;
  }

  /** A loop of `out.extend(f(x))` for each x of xs, starting from `[]`. */
  method ExtendEach<A, T>(f: A -> seq<T>, xs: seq<A>) returns (out: seq<T>)
    ensures out == Flatten(Map(f, xs))
  {
    out := [];
    var i := 0;
    while i < |xs|
      invariant 0 <= i <= |xs|
      invariant out == Flatten(Map(f, xs[..i]))
    {
      MapPrefix(f, xs, i);
      FlattenSnoc(Map(f, xs[..i]), f(xs[i]));
      out := out + f(xs[i]);
      i := i + 1;
    }
    assert xs[..i] == xs;
  }

  /** The sum of the lengths of the lists of `ss`. */
  function TotalLength<T>(ss: seq<seq<T>>): nat
    decreases |ss|
  {
    if ss == [] then 0 else TotalLength(ss[..|ss| - 1]) + |ss[|ss| - 1]|
  }

  lemma {:induction false} FlattenLength<T>(ss: seq<seq<T>>)
    ensures |Flatten(ss)| == TotalLength(ss)
    decreases |ss|
  {
    if ss != [] {
      FlattenLength(ss[..|ss| - 1]);
    }
  }

  /** An element is in the flattened list exactly when it is in one of the lists. */
  lemma {:induction false} FlattenMember<T>(ss: seq<seq<T>>, x: T)
    ensures x in Flatten(ss) <==> exists i :: 0 <= i < |ss| && x in ss[i]
    decreases |ss|
  {
    if ss != [] {
      var p := ss[..|ss| - 1];
      FlattenMember(p, x);
      assert forall i :: 0 <= i < |p| ==> p[i] == ss[i];
      if x in ss[|ss| - 1] {
        assert x in Flatten(ss);
      }
    }
  }

  lemma {:induction false} FlattenAppend<T>(a: seq<seq<T>>, b: seq<seq<T>>)
    ensures Flatten(a + b) == Flatten(a) + Flatten(b)
    decreases |b|
  {
    if b == [] {
      assert a + b == a;
    } else {
      var b', last := b[..|b| - 1], b[|b| - 1];
      assert (a + b)[..|a + b| - 1] == a + b' && (a + b)[|a + b| - 1] == last;
      FlattenAppend(a, b');
      assert Flatten(a + b) == (Flatten(a) + Flatten(b')) + last;
      assert Flatten(b) == Flatten(b') + last;
    }
  }

  /** Flattening a list that starts with `x` starts with `x`. */
  lemma FlattenCons<T>(x: seq<T>, xs: seq<seq<T>>)
    ensures Flatten([x] + xs) == x + Flatten(xs)
  {
    FlattenAppend([x], xs);
    assert Flatten([x]) == Flatten([x][..0]) + x;
  }

  /** The flattened list keeps the lists in order: list i sits right after the
      lists before it. */
  lemma FlattenSlot<T>(ss: seq<seq<T>>, i: nat)
    requires i < |ss|
    ensures TotalLength(ss[..i]) + |ss[i]| <= |Flatten(ss)|
    ensures Flatten(ss)[TotalLength(ss[..i])..TotalLength(ss[..i]) + |ss[i]|] == ss[i]
  {
    var head := ss[..i + 1];
    assert ss == head + ss[i + 1..];
    FlattenAppend(head, ss[i + 1..]);
    assert head[..i] == ss[..i];
    FlattenLength(ss[..i]);
    assert Flatten(head) == Flatten(ss[..i]) + ss[i];
  }

  /** `[f(x) for x in s]`. */
  function Map<A, B>(f: A -> B, s: seq<A>): (r: seq<B>)
    ensures |r| == |s| && forall i :: 0 <= i < |s| ==> r[i] == f(s[i])
    decreases |s|
  {
    if s == [] then [] else Map(f, s[..|s| - 1]) + [f(s[|s| - 1])]
  }

  /** One more element mapped: the step of a loop over `s`. */
  lemma MapPrefix<A, B>(f: A -> B, s: seq<A>, i: nat)
    requires i < |s|
    ensures Map(f, s[..i + 1]) == Map(f, s[..i]) + [f(s[i])]
  {
    assert s[..i + 1][..i] == s[..i];
  }

  /** Mapping a prefix gives the prefix of the mapped sequence. */
  lemma MapOfPrefix<A, B>(f: A -> B, s: seq<A>, k: nat)
    requires k <= |s|
    ensures Map(f, s)[..k] == Map(f, s[..k])
  {
  }

  /** All the values in order, or `None` once one of them is missing: a loop
      that appends results and gives up at the first failure. */
  function Collect<T>(os: seq<Option<T>>): Option<seq<T>>
    decreases |os|
  {
    if os == [] then Some([])
    else
      match Collect(os[..|os| - 1])
      case None => None
      case Some(vs) =>
        match os[|os| - 1]
        case None => None
        case Some(v) => Some(vs + [v])
  }

  /** Collecting fails exactly when a value is missing, and otherwise yields
      every value, in order. */
  lemma {:induction false} CollectSpec<T>(os: seq<Option<T>>)
    ensures Collect(os).None? <==> exists i :: 0 <= i < |os| && os[i].None?
    ensures Collect(os).Some? ==>
              |Collect(os).value| == |os|
              && forall i :: 0 <= i < |os| ==> os[i] == Some(Collect(os).value[i])
    decreases |os|
  {
    if os != [] {
      var p := os[..|os| - 1];
      CollectSpec(p);
      assert forall i :: 0 <= i < |p| ==> p[i] == os[i];
      if Collect(p).None? {
        var i :| 0 <= i < |p| && p[i].None?;
        assert os[i].None?;
      }
    }
  }

  /** Once a prefix fails, the whole sequence fails. */
  lemma {:induction false} CollectFailed<T>(os: seq<Option<T>>, k: nat)
    requires k <= |os| && Collect(os[..k]) == None
    ensures Collect(os) == None
    decreases |os| - k
  {
    if k < |os| {
      assert os[..k + 1][..k] == os[..k];
      CollectFailed(os, k + 1);
    } else {
      assert os[..k] == os;
    }
  }

  /** The step of such a loop. */
  lemma CollectPrefix<T>(os: seq<Option<T>>, i: nat)
    requires i < |os|
    ensures Collect(os[..i + 1]) ==
              match Collect(os[..i])
              case None => None
              case Some(vs) => match os[i] case None => None case Some(v) => Some(vs + [v])
  {
    assert os[..i + 1][..i] == os[..i];
  }

  /** One turn of a loop that appends `f(s[i])` and gives up at the first
      failure: a failure fails the whole sequence, a value extends the ones
      collected so far. */
  lemma CollectStep<A, T>(f: A -> Option<T>, s: seq<A>, i: nat, vs: seq<T>)
    requires i < |s| && Collect(Map(f, s[..i])) == Some(vs)
    ensures f(s[i]).None? ==> Collect(Map(f, s)) == None
    ensures f(s[i]).Some? ==> Collect(Map(f, s[..i + 1])) == Some(vs + [f(s[i]).value])
  {
    var os := Map(f, s[..i + 1]);
    MapPrefix(f, s, i);
    CollectPrefix(os, i);
    assert os[..i] == Map(f, s[..i]);
    if f(s[i]).None? {
      MapOfPrefix(f, s, i + 1);
      CollectFailed(Map(f, s), i + 1);
    }
  }
}
