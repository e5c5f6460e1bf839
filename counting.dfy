/** The counting dictionaries of `create_digest` and their ranking.
    A Python dict keeps its keys in insertion order, so a counter is an
    ordered list of entries; `sorted(d.items(), key=lambda x: x[1],
    reverse=True)[:n]` is a stable sort by descending count, then a prefix. */
module Counting {
  import opened Seqs

  datatype Entry = Entry(key: string, count: nat)

  function Keys(t: seq<Entry>): (ks: seq<string>)
    ensures |ks| == |t| && forall i :: 0 <= i < |t| ==> ks[i] == t[i].key
  {
    if t == [] then [] else [t[0].key] + Keys(t[1..])
  }

  /** `d.get(k, 0)` for the first entry with key k. */
  function CountOf(t: seq<Entry>, k: string): (c: nat)
  {
    if t == [] then 0 else if t[0].key == k then t[0].count else CountOf(t[1..], k)
  }

  /** A key the counter does not hold has count 0. */
  lemma {:induction false} CountOfMissing(t: seq<Entry>, k: string)
    requires k !in Keys(t)
    ensures CountOf(t, k) == 0
    decreases |t|
  {
    if t != [] {
      assert Keys(t) == [t[0].key] + Keys(t[1..]);
      CountOfMissing(t[1..], k);
    }
  }

  /** The sum of the counts. */
  function Sum(t: seq<Entry>): nat
  {
    if t == [] then 0 else t[0].count + Sum(t[1..])
  }

  /** `d[k] = d.get(k, 0) + 1`: an existing key keeps its place, a new key
      goes last. */
  function Bump(t: seq<Entry>, k: string): (r: seq<Entry>)
    ensures Keys(r) == if k in Keys(t) then Keys(t) else Keys(t) + [k]
    ensures CountOf(r, k) == CountOf(t, k) + 1
    ensures forall j :: j != k ==> CountOf(r, j) == CountOf(t, j)
    ensures Sum(r) == Sum(t) + 1
  {
    if t == [] then [Entry(k, 1)]
    else if t[0].key == k then [Entry(k, t[0].count + 1)] + t[1..]
    else
      var r := [t[0]] + Bump(t[1..], k);
      assert r[1..] == Bump(t[1..], k);
      r
  }

  /** The counter after bumping each key of `keys` in order. */
  function Tally(keys: seq<string>): seq<Entry>
  {
    if keys == [] then [] else Bump(Tally(keys[..|keys| - 1]), keys[|keys| - 1])
  }

  /** Counting one more key is one more `Bump`: the step of a counting loop. */
  lemma TallySnoc(keys: seq<string>, k: string)
    ensures Tally(keys + [k]) == Bump(Tally(keys), k)
  {
    assert (keys + [k])[..|keys|] == keys;
  }

  /** A loop of `counts[f(x)] = counts.get(f(x), 0) + 1` for each x of xs,
      starting from `{}`. */
  method CountEach<A>(f: A -> string, xs: seq<A>) returns (counts: seq<Entry>)
    ensures counts == Tally(Map(f, xs))
  {
    counts := [];
    var i := 0;
    while i < |xs|
      invariant 0 <= i <= |xs|
      invariant counts == Tally(Map(f, xs[..i]))
    {
      MapPrefix(f, xs, i);
      TallySnoc(Map(f, xs[..i]), f(xs[i]));
      counts := Bump(counts, f(xs[i]));
      i := i + 1;
    }
    assert xs[..i] == xs;
  }

  /** How often k occurs in `keys`. */
  function Occurrences(keys: seq<string>, k: string): nat
  {
    if keys == [] then 0
    else Occurrences(keys[..|keys| - 1], k) + (if keys[|keys| - 1] == k then 1 else 0)
  }

  /** The counter holds each distinct key once, in order of first appearance,
      with its number of occurrences; the counts add up to the number of keys. */
  lemma {:induction false} TallyIsCount(keys: seq<string>)
    ensures Keys(Tally(keys)) == Dedup(keys)
    ensures forall k :: CountOf(Tally(keys), k) == Occurrences(keys, k)
    ensures Sum(Tally(keys)) == |keys|
    decreases |keys|
  {
    if keys != [] {
      TallyIsCount(keys[..|keys| - 1]);
    }
  }

  /** In a counter with distinct keys, each entry's count is the count of
      its key. */
  lemma {:induction false} EntryCount(t: seq<Entry>, i: nat)
    requires NoDuplicates(Keys(t)) && i < |t|
    ensures CountOf(t, t[i].key) == t[i].count
    decreases i
  {
    if i > 0 {
      assert Keys(t)[0] != Keys(t)[i];
      assert NoDuplicates(Keys(t[1..])) by {
        assert forall a :: 0 <= a < |t| - 1 ==> Keys(t[1..])[a] == Keys(t)[a + 1];
      }
      EntryCount(t[1..], i - 1);
    }
  }

  // ----- stable sort by descending count -----

  predicate SortedDesc(t: seq<Entry>) {
    forall i, j :: 0 <= i < j < |t| ==> t[i].count >= t[j].count
  }

  /** The entries with count c, in order. */
  function WithCount(t: seq<Entry>, c: nat): seq<Entry>
  {
    if t == [] then [] else (if t[0].count == c then [t[0]] else []) + WithCount(t[1..], c)
  }

  /** Place x before the first entry whose count is not larger, so that x
      stays ahead of the entries it ties with. */
  function Insert(t: seq<Entry>, x: Entry): (r: seq<Entry>)
    ensures |r| == |t| + 1
  {
    if t == [] then [x]
    else if t[0].count <= x.count then [x] + t
    else [t[0]] + Insert(t[1..], x)
  }

  lemma {:induction false} InsertElements(t: seq<Entry>, x: Entry)
    ensures multiset(Insert(t, x)) == multiset(t) + multiset{x}
    ensures Sum(Insert(t, x)) == Sum(t) + x.count
    decreases |t|
  {
    if t != [] && t[0].count > x.count {
      InsertElements(t[1..], x);
      var r := Insert(t, x);
      assert r[1..] == Insert(t[1..], x);
      assert t == [t[0]] + t[1..];
      assert r == [t[0]] + Insert(t[1..], x);
    }
  }

  /** Inserting an entry no larger than a bound keeps every count under it. */
  lemma {:induction false} InsertBounded(t: seq<Entry>, x: Entry, b: nat)
    requires forall k :: 0 <= k < |t| ==> t[k].count <= b
    requires x.count <= b
    ensures forall k :: 0 <= k < |t| + 1 ==> Insert(t, x)[k].count <= b
    decreases |t|
  {
    if t != [] && t[0].count > x.count {
      InsertBounded(t[1..], x, b);
      var r := Insert(t, x);
      assert r[1..] == Insert(t[1..], x);
    }
  }

  lemma {:induction false} InsertSorted(t: seq<Entry>, x: Entry)
    requires SortedDesc(t)
    ensures SortedDesc(Insert(t, x))
    decreases |t|
  {
    if t == [] {
    } else if t[0].count <= x.count {
      var r := [x] + t;
      forall i, j | 0 <= i < j < |r| ensures r[i].count >= r[j].count {
        assert r[j] == t[j - 1];
        if i > 0 {
          assert r[i] == t[i - 1];
        } else {
          assert t[0].count >= t[j - 1].count;
        }
      }
    } else {
      var t' := t[1..];
      var rest := Insert(t', x);
      InsertSorted(t', x);
      InsertBounded(t', x, t[0].count);
      var r := [t[0]] + rest;
      assert r == Insert(t, x);
      forall i, j | 0 <= i < j < |r| ensures r[i].count >= r[j].count {
        assert r[j] == rest[j - 1];
        if i > 0 {
          assert r[i] == rest[i - 1];
        }
      }
    }
  }

  lemma {:induction false} InsertWithCount(t: seq<Entry>, x: Entry, c: nat)
    ensures WithCount(Insert(t, x), c) == (if x.count == c then [x] else []) + WithCount(t, c)
    decreases |t|
  {
    if t == [] {
    } else if t[0].count <= x.count {
      assert ([x] + t)[1..] == t;
    } else {
      var r, rest := Insert(t, x), Insert(t[1..], x);
      assert r[1..] == rest;
      InsertWithCount(t[1..], x, c);
      var head := if t[0].count == c then [t[0]] else [];
      assert WithCount(r, c) == head + WithCount(rest, c);
      assert WithCount(t, c) == head + WithCount(t[1..], c);
      if x.count == c {
        assert head == [];
        assert WithCount(r, c) == [x] + WithCount(t[1..], c);
        assert WithCount(t, c) == WithCount(t[1..], c);
      } else {
        assert WithCount(rest, c) == WithCount(t[1..], c);
      }
    }
  }

  /** `sorted(items, key=count, reverse=True)`: Python's sort is stable, and
      `reverse=True` keeps entries with equal counts in their original order. */
  function SortByCountDesc(t: seq<Entry>): (r: seq<Entry>)
    ensures SortedDesc(r)
    ensures forall c :: WithCount(r, c) == WithCount(t, c)
    ensures multiset(r) == multiset(t)
    ensures Sum(r) == Sum(t)
    ensures |r| == |t|
  {
    if t == [] then []
    else
      var s := SortByCountDesc(t[1..]);
      InsertSorted(s, t[0]);
      InsertElements(s, t[0]);
      assert forall c :: WithCount(Insert(s, t[0]), c) == WithCount(t, c) by {
        forall c ensures WithCount(Insert(s, t[0]), c) == WithCount(t, c) {
          InsertWithCount(s, t[0], c);
        }
      }
      assert t == [t[0]] + t[1..];
      Insert(s, t[0])
  }

  /** `s[:n]`: the first min(n, |s|) entries. */
  function Take(t: seq<Entry>, n: nat): (r: seq<Entry>)
    ensures r <= t
    ensures |r| == if |t| <= n then |t| else n
  {
    if |t| <= n then t else t[..n]
  }

  lemma {:induction false} WithCountOfPrefix(t: seq<Entry>, p: seq<Entry>, c: nat)
    requires p <= t
    ensures WithCount(p, c) <= WithCount(t, c)
    decreases |p|
  {
    if p != [] {
      assert p[1..] <= t[1..];
      WithCountOfPrefix(t[1..], p[1..], c);
    }
  }

  lemma {:induction false} SumOfPrefix(t: seq<Entry>, p: seq<Entry>)
    requires p <= t
    ensures Sum(p) <= Sum(t)
    decreases |p|
  {
    if p == [] {
    } else {
      assert p[1..] <= t[1..];
      SumOfPrefix(t[1..], p[1..]);
    }
  }

  lemma KeysOfPrefix(t: seq<Entry>, p: seq<Entry>)
    requires p <= t
    ensures Keys(p) <= Keys(t)
  {
  }

  /** The n most frequent keys of `keys` with their counts, as
      `sorted(Counter-dict.items(), key=count, reverse=True)[:n]` builds them. */
  function Ranked(keys: seq<string>, n: nat): seq<Entry>
  {
    Take(SortByCountDesc(Tally(keys)), n)
  }

  /** Two positions of a permutation of a counter with distinct keys never
      hold the same entry. */
  lemma SortedEntriesDistinct(t: seq<Entry>, s: seq<Entry>, i: nat, j: nat)
    requires NoDuplicates(Keys(t)) && multiset(s) == multiset(t)
    requires i < j < |s|
    ensures s[i] != s[j]
  {
    var x := s[i];
    AtMostOnce(t, x);
    assert s == s[..j] + [s[j]] + s[j + 1..];
    assert x in s[..j];
    assert s[i] == s[j] ==> multiset(s)[x] >= 2;
  }

  lemma {:induction false} AtMostOnce(t: seq<Entry>, x: Entry)
    requires NoDuplicates(Keys(t))
    ensures multiset(t)[x] <= 1
    decreases |t|
  {
    if t != [] {
      assert t == [t[0]] + t[1..];
      assert NoDuplicates(Keys(t[1..])) by {
        assert forall a :: 0 <= a < |t| - 1 ==> Keys(t[1..])[a] == Keys(t)[a + 1];
      }
      AtMostOnce(t[1..], x);
      assert t[0] == x ==> x !in t[1..] by {
        forall a | 0 <= a < |t| - 1 ensures t[1..][a].key != t[0].key {
          assert Keys(t)[0] != Keys(t)[a + 1];
        }
      }
    }
  }

  /** An entry of a permuted counter is an entry of the counter. */
  lemma PermutedEntry(t: seq<Entry>, s: seq<Entry>, i: nat)
    requires NoDuplicates(Keys(t)) && multiset(s) == multiset(t) && i < |s|
    ensures s[i].key in Keys(t) && CountOf(t, s[i].key) == s[i].count
  {
    assert s[i] in multiset(t);
    var j :| 0 <= j < |t| && t[j] == s[i];
    EntryCount(t, j);
    assert Keys(t)[j] == t[j].key;
  }

  /** Permuting a counter with distinct keys keeps its keys distinct. */
  lemma PermutedDistinct(t: seq<Entry>, s: seq<Entry>)
    requires NoDuplicates(Keys(t)) && multiset(s) == multiset(t)
    ensures NoDuplicates(Keys(s))
  {
    forall i, j | 0 <= i < j < |s| ensures Keys(s)[i] != Keys(s)[j] {
      SortedEntriesDistinct(t, s, i, j);
      PermutedEntry(t, s, i);
      PermutedEntry(t, s, j);
    }
  }

  /** A position below the length of a prefix holds one of the prefix's keys. */
  lemma PrefixKeys(s: seq<Entry>, r: seq<Entry>, p: nat)
    requires r <= s && p < |s|
    ensures p < |r| ==> s[p].key in Keys(r)
  {
    if p < |r| {
      assert Keys(r)[p] == r[p].key;
    }
  }

  /** In a sorted permutation of a counter, a key missing from a prefix counts
      no more than any entry of the prefix. */
  lemma PrefixIsTop(t: seq<Entry>, s: seq<Entry>, r: seq<Entry>, k: string)
    requires NoDuplicates(Keys(t)) && multiset(s) == multiset(t) && SortedDesc(s) && r <= s
    requires k in Keys(t) && k !in Keys(r)
    ensures forall i :: 0 <= i < |r| ==> CountOf(t, k) <= r[i].count
  {
    var j :| 0 <= j < |t| && Keys(t)[j] == k;
    EntryCount(t, j);
    assert t[j] in multiset(s);
    var p :| 0 <= p < |s| && s[p] == t[j];
    PrefixKeys(s, r, p);
    forall i | 0 <= i < |r| ensures CountOf(t, k) <= r[i].count {
      assert r[i] == s[i];
      assert s[i].count >= s[p].count;
    }
  }

  /** Every entry of the ranking is a key of the input with its number of
      occurrences, and no key appears twice. */
  lemma RankedEntries(keys: seq<string>, n: nat)
    ensures var r := Ranked(keys, n);
            && NoDuplicates(Keys(r))
            && forall i :: 0 <= i < |r| ==> r[i].key in keys && r[i].count == Occurrences(keys, r[i].key)
  {
    var t := Tally(keys);
    var s := SortByCountDesc(t);
    var r := Take(s, n);
    TallyIsCount(keys);
    forall i | 0 <= i < |r|
      ensures r[i].key in keys && r[i].count == Occurrences(keys, r[i].key)
    {
      assert r[i] == s[i];
      PermutedEntry(t, s, i);
    }
    PermutedDistinct(t, s);
    KeysOfPrefix(s, r);
  }

  /** A key left out of the ranking is not more frequent than any kept one. */
  lemma RankedIsTop(keys: seq<string>, n: nat, k: string)
    requires k in keys && k !in Keys(Ranked(keys, n))
    ensures forall i :: 0 <= i < |Ranked(keys, n)| ==> Occurrences(keys, k) <= Ranked(keys, n)[i].count
  {
    var t := Tally(keys);
    var s := SortByCountDesc(t);
    TallyIsCount(keys);
    PrefixIsTop(t, s, Take(s, n), k);
  }

  /** What a ranking promises: n entries, or every distinct key when there
      are fewer; counts non-increasing; each entry a distinct key of the
      input with its true number of occurrences; no left-out key more
      frequent than a kept one; among equal counts the kept keys are the
      first ones of the counter; and the counts add up to at most the number
      of keys. */
  ghost predicate IsTopRanking(r: seq<Entry>, keys: seq<string>, n: nat) {
    && |r| == (if |Dedup(keys)| <= n then |Dedup(keys)| else n)
    && SortedDesc(r)
    && NoDuplicates(Keys(r))
    && (forall i :: 0 <= i < |r| ==> r[i].key in keys && r[i].count == Occurrences(keys, r[i].key))
    && (forall i, k :: 0 <= i < |r| && k in keys && k !in Keys(r) ==> Occurrences(keys, k) <= r[i].count)
    && (forall c :: WithCount(r, c) <= WithCount(Tally(keys), c))
    && Sum(r) <= |keys|
  }

  /** `sorted(counter.items(), key=count, reverse=True)[:n]` is the top-n
      ranking, and the counter lists the keys in order of first appearance. */
  lemma RankedSpec(keys: seq<string>, n: nat)
    ensures IsTopRanking(Ranked(keys, n), keys, n)
    ensures Keys(Tally(keys)) == Dedup(keys)
  {
    var t := Tally(keys);
    var s := SortByCountDesc(t);
    var r := Take(s, n);
    TallyIsCount(keys);
    assert |t| == |Dedup(keys)|;
    assert SortedDesc(r) by {
      forall i, j | 0 <= i < j < |r| ensures r[i].count >= r[j].count {
        assert r[i] == s[i] && r[j] == s[j];
      }
    }
    RankedEntries(keys, n);
    forall k | k in keys && k !in Keys(r)
      ensures forall i :: 0 <= i < |r| ==> Occurrences(keys, k) <= r[i].count
    {
      RankedIsTop(keys, n, k);
    }
    forall c ensures WithCount(r, c) <= WithCount(t, c) {
      WithCountOfPrefix(s, r, c);
    }
    SumOfPrefix(s, r);
  }
}
