/**
 * Generic views of the collections the JavaScript loops build: an object or
 * `Map` filled by `m[k] = v` in a loop (later writes win), a `Set` spread back
 * into an array (first-occurrence order), and `Map.get`.
 */
module Folds {
  import opened Wrappers

  /** The map a loop `for (const [k, v] of entries) m[k] = v;` leaves behind. */
  function FoldLast<K(==), V>(entries: seq<(K, V)>): (m: map<K, V>)
    decreases |entries|
  {
    if entries == [] then map[]
    else
      var last := entries[|entries| - 1];
      FoldLast(entries[..|entries| - 1])[last.0 := last.1]
  }

  /** The keys of the folded map are exactly the keys of the entries. */
  lemma {:induction false} FoldLastKeys<K, V>(entries: seq<(K, V)>)
    ensures FoldLast(entries).Keys == set i | 0 <= i < |entries| :: entries[i].0
    decreases |entries|
  {
    if entries != [] {
      var init := entries[..|entries| - 1];
      FoldLastKeys(init);
      assert forall i :: 0 <= i < |init| ==> init[i] == entries[i];
    }
  }

  lemma FoldLastSnoc<K, V>(entries: seq<(K, V)>, e: (K, V))
    ensures FoldLast(entries + [e]) == FoldLast(entries)[e.0 := e.1]
  {
    assert (entries + [e])[..|entries|] == entries;
  }

  /** Last write wins: the value stored under a key is the one of the last entry with that key. */
  lemma {:induction false} FoldLastAt<K, V>(entries: seq<(K, V)>, i: nat)
    requires i < |entries|
    requires forall j :: i < j < |entries| ==> entries[j].0 != entries[i].0
    ensures entries[i].0 in FoldLast(entries)
    ensures FoldLast(entries)[entries[i].0] == entries[i].1
  {
    var n := |entries|;
    if i < n - 1 {
      var init := entries[..n - 1];
      assert forall j :: i < j < |init| ==> init[j] == entries[j];
      FoldLastAt(init, i);
    }
  }

  /** Every value of the folded map is the value of some entry. */
  lemma {:induction false} FoldLastValues<K, V>(entries: seq<(K, V)>, k: K)
    requires k in FoldLast(entries)
    ensures exists i :: 0 <= i < |entries| && entries[i] == (k, FoldLast(entries)[k])
  {
    var n := |entries|;
    if entries[n - 1].0 != k {
      var init := entries[..n - 1];
      FoldLastValues(init, k);
      var i :| 0 <= i < |init| && init[i] == (k, FoldLast(init)[k]);
      assert entries[i] == init[i];
    } else {
      assert entries[n - 1] == (k, FoldLast(entries)[k]);
    }
  }

  /** The entries `[key(k), val(v)]` a loop writes for the entries `[k, v]`, in order. */
  function Rekeyed<K, V, K2, V2>(entries: seq<(K, V)>, key: K -> K2, val: V -> V2): (es: seq<(K2, V2)>)
    ensures |es| == |entries|
    ensures forall j :: 0 <= j < |entries| ==> es[j] == (key(entries[j].0), val(entries[j].1))
  {
    seq(|entries|, j requires 0 <= j < |entries| => (key(entries[j].0), val(entries[j].1)))
  }

  /** Every entry of the rewritten map comes from one entry of the input: `key(k)` maps to `val(v)`. */
  lemma RekeyedValues<K, V, K2, V2>(entries: seq<(K, V)>, key: K -> K2, val: V -> V2, k: K2)
    requires k in FoldLast(Rekeyed(entries, key, val))
    ensures exists j ::
      0 <= j < |entries| && key(entries[j].0) == k && FoldLast(Rekeyed(entries, key, val))[k] == val(entries[j].1)
  {
    var es := Rekeyed(entries, key, val);
    FoldLastValues(es, k);
    var j :| 0 <= j < |es| && es[j] == (k, FoldLast(es)[k]);
    assert es[j].0 == key(entries[j].0) && es[j].1 == val(entries[j].1);
  }

  /** The loop `for (const [k, v] of entries) m[key(k)] = val(v);` over a fresh object. */
  method FoldRekeyed<K, V, K2(==), V2>(entries: seq<(K, V)>, key: K -> K2, val: V -> V2) returns (m: map<K2, V2>)
    ensures m == FoldLast(Rekeyed(entries, key, val))
  {
    m := map[];
    var i := 0;
    while i < |entries|
      invariant 0 <= i <= |entries|
      invariant m == FoldLast(Rekeyed(entries[..i], key, val))
    {
      var (k, v) := entries[i];
      assert Rekeyed(entries[..i + 1], key, val) == Rekeyed(entries[..i], key, val) + [(key(k), val(v))];
      FoldLastSnoc(Rekeyed(entries[..i], key, val), (key(k), val(v)));
      m := m[key(k) := val(v)];
      i := i + 1;
    }
    assert entries[..i] == entries;
  }

  /** The entries `f` yields for `xs`, in order; an element `f` yields nothing for contributes none. */
  function Collect<A, K, V>(xs: seq<A>, f: A -> Option<(K, V)>): (es: seq<(K, V)>)
    ensures |es| <= |xs|
    decreases |xs|
  {
    if xs == [] then []
    else
      var e := f(xs[|xs| - 1]);
      Collect(xs[..|xs| - 1], f) + (if e.Some? then [e.value] else [])
  }

  /** Every collected entry is what `f` yields for some element. */
  lemma {:induction false} CollectFrom<A, K, V>(xs: seq<A>, f: A -> Option<(K, V)>, i: nat)
    requires i < |Collect(xs, f)|
    ensures exists j :: 0 <= j < |xs| && f(xs[j]) == Some(Collect(xs, f)[i])
    decreases |xs|
  {
    var init := xs[..|xs| - 1];
    var e := f(xs[|xs| - 1]);
    if i < |Collect(init, f)| {
      CollectFrom(init, f, i);
      var j :| 0 <= j < |init| && f(init[j]) == Some(Collect(init, f)[i]);
      assert init[j] == xs[j];
    } else {
      assert f(xs[|xs| - 1]) == Some(Collect(xs, f)[i]);
    }
  }

  /** The map a `continue`-or-assign loop over `xs` leaves, written out step by step. */
  function AssignedBy<A, K, V>(xs: seq<A>, f: A -> Option<(K, V)>): map<K, V>
    decreases |xs|
  {
    if xs == [] then map[]
    else
      var before := AssignedBy(xs[..|xs| - 1], f);
      match f(xs[|xs| - 1])
      case None => before
      case Some(e) => before[e.0 := e.1]
  }

  lemma {:induction false} AssignedByFold<A, K, V>(xs: seq<A>, f: A -> Option<(K, V)>)
    ensures AssignedBy(xs, f) == FoldLast(Collect(xs, f))
    decreases |xs|
  {
    if xs != [] {
      var init := xs[..|xs| - 1];
      AssignedByFold(init, f);
      var e := f(xs[|xs| - 1]);
      if e.None? {
        assert Collect(init, f) + [] == Collect(init, f);
      } else {
        FoldLastSnoc(Collect(init, f), e.value);
      }
    }
  }

  lemma CollectSnoc<A, K, V>(xs: seq<A>, f: A -> Option<(K, V)>, i: nat)
    requires i < |xs|
    ensures Collect(xs[..i + 1], f) == Collect(xs[..i], f) + (if f(xs[i]).Some? then [f(xs[i]).value] else [])
    ensures AssignedBy(xs[..i + 1], f) == match f(xs[i])
      case None => AssignedBy(xs[..i], f)
      case Some(e) => AssignedBy(xs[..i], f)[e.0 := e.1]
  {
    assert xs[..i + 1][..i] == xs[..i];
  }

  /** Every key the loop leaves holds what `f` yields for some element. */
  lemma {:induction false} CollectedValue<A, K, V>(xs: seq<A>, f: A -> Option<(K, V)>, k: K)
    requires k in FoldLast(Collect(xs, f))
    ensures exists j :: 0 <= j < |xs| && f(xs[j]) == Some((k, FoldLast(Collect(xs, f))[k]))
  {
    var es := Collect(xs, f);
    FoldLastValues(es, k);
    var i :| 0 <= i < |es| && es[i] == (k, FoldLast(es)[k]);
    CollectFrom(xs, f, i);
    var j :| 0 <= j < |xs| && f(xs[j]) == Some(es[i]);
  }

  /** Removing an element `f` yields nothing for changes nothing. */
  lemma {:induction false} CollectSkips<A, K, V>(xs: seq<A>, f: A -> Option<(K, V)>, i: nat)
    requires i < |xs| && f(xs[i]).None?
    ensures Collect(xs[..i] + xs[i + 1..], f) == Collect(xs, f)
    decreases |xs|
  {
    var ys := xs[..i] + xs[i + 1..];
    var init := xs[..|xs| - 1];
    if i == |xs| - 1 {
      assert ys == init;
      assert Collect(xs, f) == Collect(init, f) + [];
    } else {
      CollectSkips(init, f, i);
      assert ys[..|ys| - 1] == init[..i] + init[i + 1..];
      assert ys[|ys| - 1] == xs[|xs| - 1];
    }
  }

  /** The last element to yield a key decides that key's value. */
  lemma {:induction false} AssignedLast<A, K, V>(xs: seq<A>, f: A -> Option<(K, V)>, i: nat)
    requires i < |xs| && f(xs[i]).Some?
    requires forall j :: i < j < |xs| ==> f(xs[j]).None? || f(xs[j]).value.0 != f(xs[i]).value.0
    ensures f(xs[i]).value.0 in AssignedBy(xs, f)
    ensures AssignedBy(xs, f)[f(xs[i]).value.0] == f(xs[i]).value.1
    decreases |xs|
  {
    var init := xs[..|xs| - 1];
    if i < |xs| - 1 {
      assert init[i] == xs[i];
      forall j | i < j < |init|
        ensures f(init[j]).None? || f(init[j]).value.0 != f(init[i]).value.0
      {
        assert init[j] == xs[j];
      }
      AssignedLast(init, f, i);
    }
  }

  lemma {:induction false} CollectLastWins<A, K, V>(xs: seq<A>, f: A -> Option<(K, V)>, i: nat)
    requires i < |xs| && f(xs[i]).Some?
    requires forall j :: i < j < |xs| ==> f(xs[j]).None? || f(xs[j]).value.0 != f(xs[i]).value.0
    ensures f(xs[i]).value.0 in FoldLast(Collect(xs, f))
    ensures FoldLast(Collect(xs, f))[f(xs[i]).value.0] == f(xs[i]).value.1
  {
    AssignedLast(xs, f, i);
    AssignedByFold(xs, f);
  }

  /** The loop `for (const x of xs) { const e = f(x); if (!e) continue; m[e.key] = e.value; }` over a fresh object. */
  method FoldCollect<A, K(==), V>(xs: seq<A>, f: A -> Option<(K, V)>) returns (m: map<K, V>)
    ensures m == FoldLast(Collect(xs, f))
  {
    m := map[];
    var i := 0;
    while i < |xs|
      invariant 0 <= i <= |xs|
      invariant m == AssignedBy(xs[..i], f)
    {
      assert xs[..i + 1][..i] == xs[..i];
      var e := f(xs[i]);
      if e.Some? {
        m := m[e.value.0 := e.value.1];
      }
      i := i + 1;
    }
    assert xs[..i] == xs;
    AssignedByFold(xs, f);
  }

  /** The element of an optional slot, as a sequence of length zero or one. */
  function Present<T>(o: Option<T>): (r: seq<T>)
    ensures |r| <= 1 && (r == [] <==> o.None?)
    ensures o.Some? ==> r == [o.value]
  {
    if o.Some? then [o.value] else []
  }

  /** `[...new Set(s)]`: each element once, where it first occurs. */
  function Dedup<T(==)>(s: seq<T>): (r: seq<T>)
    ensures |r| <= |s|
  {
    DedupUpTo(s, |s|)
  }

  /** The distinct elements of the first `n` elements of `s`, in first-occurrence order. */
  function DedupUpTo<T(==)>(s: seq<T>, n: nat): (r: seq<T>)
    requires n <= |s|
    ensures |r| <= n
    decreases n
  {
    if n == 0 then []
    else
      var d := DedupUpTo(s, n - 1);
      if s[n - 1] in d then d else d + [s[n - 1]]
  }

  /** The first index at or after `k` holding `x`, or `|s|` when there is none. */
  function IndexFrom<T(==)>(s: seq<T>, x: T, k: nat): (i: nat)
    requires k <= |s|
    ensures k <= i <= |s|
    ensures i < |s| ==> s[i] == x
    ensures forall j :: k <= j < i ==> s[j] != x
    decreases |s| - k
  {
    if k == |s| || s[k] == x then k else IndexFrom(s, x, k + 1)
  }

  /** Where `x` first occurs in `s`. */
  function FirstIndex<T(==)>(s: seq<T>, x: T): (i: nat)
    requires x in s
    ensures i < |s| && s[i] == x
    ensures forall j :: 0 <= j < i ==> s[j] != x
  {
    IndexFrom(s, x, 0)
  }

  /**
   * The elements kept from the first `n` are those that first occur before
   * `n`, all of them, ordered by where they first occur.
   */
  lemma {:induction false} DedupUpToMeaning<T>(s: seq<T>, n: nat)
    requires n <= |s|
    ensures forall i :: 0 <= i < |DedupUpTo(s, n)| ==> DedupUpTo(s, n)[i] in s && FirstIndex(s, DedupUpTo(s, n)[i]) < n
    ensures forall k :: 0 <= k < n ==> s[k] in DedupUpTo(s, n)
    ensures forall i, j :: 0 <= i < j < |DedupUpTo(s, n)| ==>
      FirstIndex(s, DedupUpTo(s, n)[i]) < FirstIndex(s, DedupUpTo(s, n)[j])
    decreases n
  {
    if n > 0 {
      DedupUpToMeaning(s, n - 1);
      var d := DedupUpTo(s, n - 1);
      var x := s[n - 1];
      if x !in d {
        var r := d + [x];
        assert forall i :: 0 <= i < |d| ==> r[i] == d[i];
      }
    }
  }

  /** `Dedup(s)` holds the elements of `s` and no other, none of them twice. */
  lemma {:induction false} DedupMeaning<T>(s: seq<T>)
    ensures forall i :: 0 <= i < |Dedup(s)| ==> Dedup(s)[i] in s
    ensures forall i :: 0 <= i < |s| ==> s[i] in Dedup(s)
    ensures forall i, j :: 0 <= i < j < |Dedup(s)| ==> Dedup(s)[i] != Dedup(s)[j]
  {
    DedupUpToMeaning(s, |s|);
  }

  /** The elements of `Dedup(s)` are ordered by where they first occur in `s`. */
  lemma {:induction false} DedupOrder<T>(s: seq<T>, i: nat, j: nat)
    requires i < j < |Dedup(s)|
    ensures Dedup(s)[i] in s && Dedup(s)[j] in s
    ensures FirstIndex(s, Dedup(s)[i]) < FirstIndex(s, Dedup(s)[j])
  {
    DedupUpToMeaning(s, |s|);
  }

  /** Only the first `n` elements matter to `DedupUpTo(s, n)`. */
  lemma {:induction false} DedupUpToAgree<T>(s: seq<T>, t: seq<T>, n: nat)
    requires n <= |s| && n <= |t|
    requires forall k :: 0 <= k < n ==> s[k] == t[k]
    ensures DedupUpTo(s, n) == DedupUpTo(t, n)
    decreases n
  {
    if n > 0 {
      DedupUpToAgree(s, t, n - 1);
    }
  }

  /** Pushing one more element adds it at the end, unless it is already there. */
  lemma {:induction false} DedupSnoc<T>(s: seq<T>, x: T)
    ensures Dedup(s + [x]) == if x in Dedup(s) then Dedup(s) else Dedup(s) + [x]
  {
    DedupUpToAgree(s + [x], s, |s|);
  }

  /** `set.has(x)`, looking from position `i` on. */
  predicate HasFrom<T(==)>(elems: seq<T>, x: T, i: nat)
    requires i <= |elems|
    decreases |elems| - i
  {
    i < |elems| && (elems[i] == x || HasFrom(elems, x, i + 1))
  }

  lemma {:induction false} HasFromIn<T>(elems: seq<T>, x: T, i: nat)
    requires i <= |elems|
    ensures HasFrom(elems, x, i) <==> exists k :: i <= k < |elems| && elems[k] == x
    decreases |elems| - i
  {
    if i < |elems| {
      HasFromIn(elems, x, i + 1);
    }
  }

  /** `set.add(x)` on a `Set` kept as its elements in insertion order. */
  function SetAdd<T(==)>(elems: seq<T>, x: T): (r: seq<T>)
  {
    if HasFrom(elems, x, 0) then elems else elems + [x]
  }

  /** One more element added to the `Set` of the distinct elements of `s`. */
  lemma {:induction false} DedupAdd<T>(s: seq<T>, x: T)
    ensures SetAdd(Dedup(s), x) == Dedup(s + [x])
  {
    DedupSnoc(s, x);
    HasFromIn(Dedup(s), x, 0);
  }

  /** The `Set` after `for (const x of xs.slice(i)) set.add(x);`. */
  function AddAll<T(==)>(elems: seq<T>, xs: seq<T>, i: nat): (r: seq<T>)
    requires i <= |xs|
    decreases |xs| - i
  {
    if i == |xs| then elems else AddAll(SetAdd(elems, xs[i]), xs, i + 1)
  }

  /** Only the elements from `i` on matter, wherever they sit. */
  lemma {:induction false} AddAllShift<T>(elems: seq<T>, xs: seq<T>, i: nat, ys: seq<T>, j: nat)
    requires i <= |xs| && j <= |ys| && xs[i..] == ys[j..]
    ensures AddAll(elems, xs, i) == AddAll(elems, ys, j)
    decreases |xs| - i
  {
    if i < |xs| {
      assert xs[i] == xs[i..][0] && ys[j] == ys[j..][0];
      assert xs[i + 1..] == xs[i..][1..] && ys[j + 1..] == ys[j..][1..];
      AddAllShift(SetAdd(elems, xs[i]), xs, i + 1, ys, j + 1);
    }
  }

  /** Adding `x` and then `rest` is adding `[x] + rest`. */
  lemma {:induction false} AddAllCons<T>(elems: seq<T>, x: T, rest: seq<T>, xs: seq<T>)
    requires xs == [x] + rest
    ensures AddAll(elems, xs, 0) == AddAll(SetAdd(elems, x), rest, 0)
  {
    assert xs[0] == x;
    AddAllShift(SetAdd(elems, x), xs, 1, rest, 0);
  }

  /** Adding `xs[i..]` to the `Set` of the distinct elements of `seen` gives the distinct elements of `seen + xs[i..]`. */
  lemma {:induction false} AddAllDedup<T>(seen: seq<T>, xs: seq<T>, i: nat)
    requires i <= |xs|
    ensures AddAll(Dedup(seen), xs, i) == Dedup(seen + xs[i..])
    decreases |xs| - i
  {
    if i == |xs| {
      assert seen + xs[i..] == seen;
    } else {
      DedupAdd(seen, xs[i]);
      AddAllDedup(seen + [xs[i]], xs, i + 1);
      assert seen + [xs[i]] + xs[i + 1..] == seen + xs[i..];
    }
  }

  /** `Map.get(k)` on a map kept as its insertion-ordered entries (the first entry with key `k`). */
  function Lookup<K(==), V>(entries: seq<(K, V)>, k: K): (r: Option<V>)
    ensures r.None? <==> forall i :: 0 <= i < |entries| ==> entries[i].0 != k
    ensures r.Some? ==> exists i :: 0 <= i < |entries| && entries[i] == (k, r.value)
    decreases |entries|
  {
    if entries == [] then None
    else if entries[0].0 == k then Some(entries[0].1)
    else
      var r := Lookup(entries[1..], k);
      assert forall i :: 0 <= i < |entries| - 1 ==> entries[1..][i] == entries[i + 1];
      r
  }

  /** `Map.get` after `set(e.0, e.1)` on a map without `e.0` already: the earlier entries are found first. */
  lemma {:induction false} LookupSnoc<K, V>(entries: seq<(K, V)>, e: (K, V), k: K)
    ensures Lookup(entries + [e], k) ==
      if Lookup(entries, k).Some? then Lookup(entries, k) else if e.0 == k then Some(e.1) else None
    decreases |entries|
  {
    if entries != [] && entries[0].0 != k {
      assert (entries + [e])[1..] == entries[1..] + [e];
      LookupSnoc(entries[1..], e, k);
    }
  }

  /** Every key that `f` yields for an element is a key of the loop's map. */
  lemma {:induction false} CollectHas<A, K, V>(xs: seq<A>, f: A -> Option<(K, V)>, j: nat)
    requires j < |xs| && f(xs[j]).Some?
    ensures f(xs[j]).value.0 in FoldLast(Collect(xs, f))
  {
    CollectContains(xs, f, j);
    FoldLastKeys(Collect(xs, f));
    var es := Collect(xs, f);
    var i :| 0 <= i < |es| && es[i] == f(xs[j]).value;
    assert es[i].0 in FoldLast(es).Keys;
  }

  lemma {:induction false} CollectContains<A, K, V>(xs: seq<A>, f: A -> Option<(K, V)>, j: nat)
    requires j < |xs| && f(xs[j]).Some?
    ensures f(xs[j]).value in Collect(xs, f)
    decreases |xs|
  {
    var init := xs[..|xs| - 1];
    if j < |xs| - 1 {
      assert init[j] == xs[j];
      CollectContains(init, f, j);
    }
  }

  // ---------------------------------------------------------------------------
  // Arrays filled by `push`

  /** The array a loop `for (const x of xs) { const y = f(x); if (y) out.push(y); }` fills, in order. */
  function Kept<A, B>(xs: seq<A>, f: A -> Option<B>): (ys: seq<B>)
    ensures |ys| <= |xs|
    decreases |xs|
  {
    if xs == [] then [] else Kept(xs[..|xs| - 1], f) + Present(f(xs[|xs| - 1]))
  }

  lemma KeptSnoc<A, B>(xs: seq<A>, f: A -> Option<B>, i: nat)
    requires i < |xs|
    ensures Kept(xs[..i + 1], f) == Kept(xs[..i], f) + Present(f(xs[i]))
  {
    assert xs[..i + 1][..i] == xs[..i];
  }

  /** An element is kept exactly when `f` yields it for some element of the input. */
  lemma {:induction false} KeptMembers<A, B>(xs: seq<A>, f: A -> Option<B>, y: B)
    ensures y in Kept(xs, f) <==> exists j :: 0 <= j < |xs| && f(xs[j]) == Some(y)
    decreases |xs|
  {
    if xs != [] {
      var init := xs[..|xs| - 1];
      KeptMembers(init, f, y);
      assert forall j :: 0 <= j < |init| ==> init[j] == xs[j];
    }
  }

  /** The loop `for (const x of xs) { const y = f(x); if (!y) continue; out.push(y); }` over a fresh array. */
  method FoldKept<A, B>(xs: seq<A>, f: A -> Option<B>) returns (ys: seq<B>)
    ensures ys == Kept(xs, f)
  {
    ys := [];
    var i := 0;
    while i < |xs|
      invariant 0 <= i <= |xs|
      invariant ys == Kept(xs[..i], f)
    {
      KeptSnoc(xs, f, i);
      var y := f(xs[i]);
      if y.Some? {
        ys := ys + [y.value];
      }
      i := i + 1;
    }
    assert xs[..i] == xs;
  }

  // ---------------------------------------------------------------------------
  // A `Map` that keeps the first value seen under each key

  /**
   * The insertion-ordered entries of a `Map` filled by
   * `for (const x of xs) { const k = key(x); if (!k) continue; if (!m.has(k)) m.set(k, x); }`.
   */
  function FirstSeen<T, K(==)>(xs: seq<T>, key: T -> Option<K>): (es: seq<(K, T)>)
    ensures |es| <= |xs|
    decreases |xs|
  {
    if xs == [] then []
    else
      var es := FirstSeen(xs[..|xs| - 1], key);
      var x := xs[|xs| - 1];
      var k := key(x);
      if k.None? || Lookup(es, k.value).Some? then es else es + [(k.value, x)]
  }

  lemma FirstSeenSnoc<T, K>(xs: seq<T>, key: T -> Option<K>, i: nat)
    requires i < |xs|
    ensures FirstSeen(xs[..i + 1], key) ==
      var es := FirstSeen(xs[..i], key);
      if key(xs[i]).None? || Lookup(es, key(xs[i]).value).Some? then es else es + [(key(xs[i]).value, xs[i])]
  {
    assert xs[..i + 1][..i] == xs[..i];
  }

  /** The loop `for (const x of xs) { const k = key(x); if (!k) continue; if (!m.has(k)) m.set(k, x); }` over a fresh `Map`. */
  method FoldFirstSeen<T, K(==)>(xs: seq<T>, key: T -> Option<K>) returns (es: seq<(K, T)>)
    ensures es == FirstSeen(xs, key)
  {
    es := [];
    var i := 0;
    while i < |xs|
      invariant 0 <= i <= |xs|
      invariant es == FirstSeen(xs[..i], key)
    {
      FirstSeenSnoc(xs, key, i);
      var k := key(xs[i]);
      if k.Some? && Lookup(es, k.value).None? {
        es := es + [(k.value, xs[i])];
      }
      i := i + 1;
    }
    assert xs[..i] == xs;
  }

  /**
   * A key is present exactly when some element yields it, and it maps to the
   * first such element: later elements with the same key are ignored.
   */
  lemma {:induction false} FirstSeenLookup<T, K>(xs: seq<T>, key: T -> Option<K>, k: K)
    ensures Lookup(FirstSeen(xs, key), k).Some? <==> exists i :: 0 <= i < |xs| && key(xs[i]) == Some(k)
    ensures Lookup(FirstSeen(xs, key), k).Some? ==>
      exists i :: 0 <= i < |xs| && key(xs[i]) == Some(k) && xs[i] == Lookup(FirstSeen(xs, key), k).value &&
        forall j :: 0 <= j < i ==> key(xs[j]) != Some(k)
    decreases |xs|
  {
    if xs != [] {
      var n := |xs|;
      var init := xs[..n - 1];
      var es := FirstSeen(init, key);
      var x := xs[n - 1];
      FirstSeenLookup(init, key, k);
      forall i | 0 <= i < n - 1 ensures xs[i] == init[i] { }
      if key(x).None? || Lookup(es, key(x).value).Some? {
        if Lookup(es, k).Some? {
          var i :| 0 <= i < |init| && key(init[i]) == Some(k) && init[i] == Lookup(es, k).value &&
            forall j :: 0 <= j < i ==> key(init[j]) != Some(k);
          assert key(xs[i]) == Some(k) && xs[i] == Lookup(FirstSeen(xs, key), k).value;
        }
      } else {
        LookupSnoc(es, (key(x).value, x), k);
        if key(x).value == k && Lookup(es, k).None? {
          assert key(xs[n - 1]) == Some(k) && xs[n - 1] == Lookup(FirstSeen(xs, key), k).value;
        } else if Lookup(es, k).Some? {
          var i :| 0 <= i < |init| && key(init[i]) == Some(k) && init[i] == Lookup(es, k).value &&
            forall j :: 0 <= j < i ==> key(init[j]) != Some(k);
          assert key(xs[i]) == Some(k) && xs[i] == Lookup(FirstSeen(xs, key), k).value;
        }
      }
    }
  }

  /** Each entry holds an element of the input under that element's own key, and no key twice. */
  lemma {:induction false} FirstSeenEntries<T, K>(xs: seq<T>, key: T -> Option<K>)
    ensures forall i :: 0 <= i < |FirstSeen(xs, key)| ==>
      FirstSeen(xs, key)[i].1 in xs && key(FirstSeen(xs, key)[i].1) == Some(FirstSeen(xs, key)[i].0)
    ensures forall i, j :: 0 <= i < j < |FirstSeen(xs, key)| ==> FirstSeen(xs, key)[i].0 != FirstSeen(xs, key)[j].0
    decreases |xs|
  {
    if xs != [] {
      var n := |xs|;
      var init := xs[..n - 1];
      FirstSeenEntries(init, key);
      assert forall i :: 0 <= i < n - 1 ==> xs[i] == init[i];
      var es := FirstSeen(init, key);
      var x := xs[n - 1];
      if !(key(x).None? || Lookup(es, key(x).value).Some?) {
        assert x == xs[n - 1];
      }
    }
  }
}
