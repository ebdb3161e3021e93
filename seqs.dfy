/** `Array.prototype.map` and `Array.prototype.filter`, and counting. */
module Seqs {

  function MapSeq<A, B>(s: seq<A>, f: A -> B): (r: seq<B>)
    ensures |r| == |s|
    ensures forall i :: 0 <= i < |s| ==> r[i] == f(s[i])
  {
    seq(|s|, i requires 0 <= i < |s| => f(s[i]))
  }

  /** `filter(p)`: the elements satisfying `p`, in their original order. */
  function Filter<T>(s: seq<T>, p: T -> bool): (r: seq<T>)
    ensures |r| <= |s|
    ensures forall x :: x in r ==> x in s && p(x)
    ensures forall x :: x in s && p(x) ==> x in r
  {
    if s == [] then []
    else (if p(s[0]) then [s[0]] else []) + Filter(s[1..], p)
  }

  /** Number of elements satisfying `p`. */
  function CountIf<T>(s: seq<T>, p: T -> bool): nat {
    if s == [] then 0 else (if p(s[0]) then 1 else 0) + CountIf(s[1..], p)
  }

  lemma {:induction false} FilterConcat<T>(a: seq<T>, b: seq<T>, p: T -> bool)
    ensures Filter(a + b, p) == Filter(a, p) + Filter(b, p)
  {
    if a == [] {
      assert a + b == b;
    } else {
      assert (a + b)[0] == a[0] && (a + b)[1..] == a[1..] + b;
      FilterConcat(a[1..], b, p);
    }
  }

  lemma {:induction false} FilterLength<T>(s: seq<T>, p: T -> bool)
    ensures |Filter(s, p)| == CountIf(s, p)
    ensures |Filter(s, p)| == |s| - CountIf(s, x => !p(x))
  {
    if s != [] {
      FilterLength(s[1..], p);
    }
  }

  /** Filtering keeps everything when every element passes. */
  lemma {:induction false} FilterAll<T>(s: seq<T>, p: T -> bool)
    requires forall i :: 0 <= i < |s| ==> p(s[i])
    ensures Filter(s, p) == s
  {
    if s != [] {
      assert p(s[0]);
      FilterAll(s[1..], p);
    }
  }

  /** A rejected element, then elements that all pass, then the rest. */
  lemma FilterRound<T>(x: T, a: seq<T>, b: seq<T>, p: T -> bool)
    requires !p(x) && forall i :: 0 <= i < |a| ==> p(a[i])
    ensures Filter([x] + (a + b), p) == a + Filter(b, p)
  {
    FilterConcat([x], a + b, p);
    FilterConcat(a, b, p);
    FilterAll(a, p);
    assert Filter([x], p) == [];
  }

  lemma {:induction false} MapConcat<A, B>(a: seq<A>, b: seq<A>, f: A -> B)
    ensures MapSeq(a + b, f) == MapSeq(a, f) + MapSeq(b, f)
  {
  }

  /** Filtering after mapping distributes over concatenation. */
  lemma MapFilterConcat<A, B>(a: seq<A>, b: seq<A>, f: A -> B, p: B -> bool)
    ensures Filter(MapSeq(a + b, f), p) == Filter(MapSeq(a, f), p) + Filter(MapSeq(b, f), p)
  {
    MapConcat(a, b, f);
    FilterConcat(MapSeq(a, f), MapSeq(b, f), p);
  }

  /**
   * Filtering after mapping keeps as many elements as there are inputs whose
   * image passes, and drops as many as there are inputs whose image fails.
   */
  lemma {:induction false} MapFilterLength<A, B>(s: seq<A>, f: A -> B, p: B -> bool, keep: A -> bool)
    requires forall x :: x in s ==> keep(x) == p(f(x))
    ensures |Filter(MapSeq(s, f), p)| == CountIf(s, keep)
    ensures |s| - |Filter(MapSeq(s, f), p)| == CountIf(s, x => !keep(x))
  {
    if s != [] {
      assert MapSeq(s, f) == [f(s[0])] + MapSeq(s[1..], f);
      assert forall x :: x in s[1..] ==> x in s;
      MapFilterLength(s[1..], f, p, keep);
    }
  }

  /** Filtering a single mapped element. */
  lemma MapFilterSingle<A, B>(x: A, f: A -> B, p: B -> bool)
    ensures Filter(MapSeq([x], f), p) == if p(f(x)) then [f(x)] else []
  {
    assert MapSeq([x], f) == [f(x)];
  }

  /** A prefix grows by its next element. */
  lemma TakeNext<T>(s: seq<T>, i: nat)
    requires i < |s|
    ensures s[..i + 1] == s[..i] + [s[i]]
  {
  }

  /** A sequence is its three slices at `i` and `j`. */
  lemma Slices3<T>(s: seq<T>, i: nat, j: nat)
    requires i <= j <= |s|
    ensures s == s[..i] + s[i..j] + s[j..]
  {
  }

  /** A sequence is the slice before `i`, its element at `i`, and the slice after. */
  lemma Around<T>(s: seq<T>, i: nat)
    requires i < |s|
    ensures s == s[..i] + [s[i]] + s[i + 1..]
  {
  }

  /** A sequence is its two slices at `i`. */
  lemma Slices2<T>(s: seq<T>, i: nat)
    requires i <= |s|
    ensures s == s[..i] + s[i..]
  {
  }

  lemma AppendAssoc<T>(a: seq<T>, b: seq<T>, c: seq<T>)
    ensures a + b + c == a + (b + c)
  {
  }

  /** Sum of a sequence of naturals. */
  function Sum(s: seq<nat>): nat {
    if s == [] then 0 else s[0] + Sum(s[1..])
  }

  /** Concatenation of a sequence of sequences. */
  function Flatten<T>(ss: seq<seq<T>>): seq<T> {
    if ss == [] then [] else ss[0] + Flatten(ss[1..])
  }

  lemma {:induction false} FlattenAppend<T>(ss: seq<seq<T>>, s: seq<T>)
    ensures Flatten(ss + [s]) == Flatten(ss) + s
  {
    if ss == [] {
      assert [] + [s] == [s];
    } else {
      assert (ss + [s])[1..] == ss[1..] + [s];
      FlattenAppend(ss[1..], s);
    }
  }
}

/**
 * Filling a dictionary in a loop (`out[key] = value`), with some iterations
 * writing nothing: a later write of a key overwrites an earlier one.
 */
module Dicts {
  import opened Wrappers
  import Seqs

  /** Whether an entry writes `k`. */
  predicate Writes<K(==), V>(e: Option<(K, V)>, k: K) {
    e.Some? && e.value.0 == k
  }

  /** The dictionary after performing the writes in order. */
  function Assign<K(==), V>(entries: seq<Option<(K, V)>>): map<K, V> {
    if entries == [] then map[]
    else
      var m := Assign(entries[..|entries| - 1]);
      var e := entries[|entries| - 1];
      if e.Some? then m[e.value.0 := e.value.1] else m
  }

  /** A key is present exactly when some entry writes it. */
  lemma {:induction false} AssignKeys<K, V>(entries: seq<Option<(K, V)>>, k: K)
    ensures k in Assign(entries) <==> exists i :: 0 <= i < |entries| && Writes(entries[i], k)
  {
    if entries != [] {
      var init := entries[..|entries| - 1];
      AssignKeys(init, k);
      assert forall i :: 0 <= i < |init| ==> init[i] == entries[i];
    }
  }

  /** The value of a key is the one written by the last entry that writes it. */
  lemma {:induction false} AssignLast<K, V>(entries: seq<Option<(K, V)>>, i: nat, k: K, v: V)
    requires i < |entries| && entries[i] == Some((k, v))
    requires forall j :: i < j < |entries| ==> !Writes(entries[j], k)
    ensures k in Assign(entries) && Assign(entries)[k] == v
  {
    var init := entries[..|entries| - 1];
    if i < |entries| - 1 {
      assert init[i] == entries[i];
      assert forall j :: i < j < |init| ==> init[j] == entries[j];
      AssignLast(init, i, k, v);
    }
  }

  /** Every value in the dictionary was written by some entry. */
  lemma {:induction false} AssignValues<K, V>(entries: seq<Option<(K, V)>>, k: K)
    requires k in Assign(entries)
    ensures exists i :: 0 <= i < |entries| && entries[i] == Some((k, Assign(entries)[k]))
  {
    var init := entries[..|entries| - 1];
    var e := entries[|entries| - 1];
    if !(e.Some? && e.value.0 == k) {
      AssignValues(init, k);
      var i :| 0 <= i < |init| && init[i] == Some((k, Assign(init)[k]));
      assert entries[i] == init[i];
    }
  }

  /** The value of a key is the one written by the last entry that writes it. */
  lemma {:induction false} AssignLastWriter<K, V>(entries: seq<Option<(K, V)>>, k: K)
    requires k in Assign(entries)
    ensures exists i :: (0 <= i < |entries| && entries[i] == Some((k, Assign(entries)[k]))
      && forall j :: i < j < |entries| ==> !Writes(entries[j], k))
  {
    var init := entries[..|entries| - 1];
    var e := entries[|entries| - 1];
    if !(e.Some? && e.value.0 == k) {
      AssignLastWriter(init, k);
      var i :| (0 <= i < |init| && init[i] == Some((k, Assign(init)[k]))
        && forall j :: i < j < |init| ==> !Writes(init[j], k));
      assert entries[i] == init[i];
      assert forall j :: i < j < |init| ==> entries[j] == init[j];
    }
  }

  /**
   * `AssignKeys` and `AssignLastWriter` for the writes `f` gives each element
   * of `xs`: a key is present exactly when some element writes it, and holds
   * what the last such element writes.
   */
  lemma AssignMapEntries<A, K, V>(xs: seq<A>, f: A -> Option<(K, V)>, k: K)
    ensures k in Assign(Seqs.MapSeq(xs, f)) <==> exists i :: 0 <= i < |xs| && Writes(f(xs[i]), k)
    ensures k in Assign(Seqs.MapSeq(xs, f)) ==> exists i :: (0 <= i < |xs| && f(xs[i]) == Some((k, Assign(Seqs.MapSeq(xs, f))[k]))
      && forall j :: i < j < |xs| ==> !Writes(f(xs[j]), k))
  {
    var entries := Seqs.MapSeq(xs, f);
    AssignKeys(entries, k);
    if k in Assign(entries) {
      AssignLastWriter(entries, k);
      var i :| (0 <= i < |entries| && entries[i] == Some((k, Assign(entries)[k]))
        && forall j :: i < j < |entries| ==> !Writes(entries[j], k));
      assert f(xs[i]) == entries[i];
    }
  }

  /** A second write to the same key replaces the first. */
  lemma UpdateTwice<K, V>(m: map<K, V>, k: K, a: V, b: V)
    ensures m[k := a][k := b] == m[k := b]
  {
  }

  /** The writes of one more element, each element's write given by `f`. */
  lemma AssignMapNext<A, K, V>(xs: seq<A>, i: nat, f: A -> Option<(K, V)>)
    requires i < |xs|
    ensures f(xs[i]).Some? ==>
      Assign(Seqs.MapSeq(xs[..i + 1], f)) == Assign(Seqs.MapSeq(xs[..i], f))[f(xs[i]).value.0 := f(xs[i]).value.1]
    ensures f(xs[i]).None? ==> Assign(Seqs.MapSeq(xs[..i + 1], f)) == Assign(Seqs.MapSeq(xs[..i], f))
  {
    Seqs.TakeNext(xs, i);
    Seqs.MapConcat(xs[..i], [xs[i]], f);
    AssignSnoc(Seqs.MapSeq(xs[..i], f), f(xs[i]));
  }

  /** Assigning one more entry. */
  lemma AssignSnoc<K, V>(entries: seq<Option<(K, V)>>, e: Option<(K, V)>)
    ensures e.Some? ==> Assign(entries + [e]) == Assign(entries)[e.value.0 := e.value.1]
    ensures e.None? ==> Assign(entries + [e]) == Assign(entries)
  {
    assert (entries + [e])[..|entries|] == entries;
  }
}
