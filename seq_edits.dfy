/**
 * The Swift array operations the session edits with: `firstIndex(where:)`,
 * `removeAll(where:)`, `insert(_:at:)`, `remove(at:)`, and the move built
 * from the last two. Elements are matched by a key (their id).
 */
module SeqEdits {
  import opened Wrappers

  /** The keys of `s`, in order. */
  function Map<T, K>(s: seq<T>, key: T -> K): (r: seq<K>)
    ensures |r| == |s| && forall i :: 0 <= i < |s| ==> r[i] == key(s[i])
  {
    seq(|s|, i requires 0 <= i < |s| => key(s[i]))
  }

  /** `firstIndex(where: { key($0) == k })`. */
  function FirstIndex<T, K(==)>(s: seq<T>, key: T -> K, k: K): (r: Option<nat>)
    ensures r.Some? ==>
      && r.value < |s| && key(s[r.value]) == k
      && forall j :: 0 <= j < r.value ==> key(s[j]) != k
    ensures r.None? ==> forall j :: 0 <= j < |s| ==> key(s[j]) != k
  {
    if s == [] then None
    else if key(s[0]) == k then Some(0)
    else match FirstIndex(s[1..], key, k)
      case None => None
      case Some(i) => Some(i + 1)
  }

  /** An index holding the key, with none before it, is the first index. */
  lemma {:induction false} FirstIndexAt<T, K>(s: seq<T>, key: T -> K, k: K, i: nat)
    requires i < |s| && key(s[i]) == k
    requires forall j :: 0 <= j < i ==> key(s[j]) != k
    ensures FirstIndex(s, key, k) == Some(i)
  {
    if i > 0 {
      FirstIndexAt(s[1..], key, k, i - 1);
    }
  }

  /** `removeAll(where: { key($0) == k })`. */
  function RemoveAll<T(!new), K(==)>(s: seq<T>, key: T -> K, k: K): (r: seq<T>)
    // every element with the key goes, every other one stays as often as it was there
    ensures forall x {:trigger multiset(r)[x]} :: multiset(r)[x] == if key(x) == k then 0 else multiset(s)[x]
    ensures (forall j :: 0 <= j < |s| ==> key(s[j]) != k) ==> r == s
  {
    if s == [] then []
    else
      assert s == [s[0]] + s[1..];
      (if key(s[0]) == k then [] else [s[0]]) + RemoveAll(s[1..], key, k)
  }

  /** Removal works piecewise, so the survivors keep their relative order. */
  lemma {:induction false} RemoveAllAppend<T(!new), K>(a: seq<T>, b: seq<T>, key: T -> K, k: K)
    ensures RemoveAll(a + b, key, k) == RemoveAll(a, key, k) + RemoveAll(b, key, k)
  {
    if a == [] {
      assert a + b == b;
    } else {
      var head := if key(a[0]) == k then [] else [a[0]];
      var ab := a + b;
      assert ab[0] == a[0] && ab[1..] == a[1..] + b;
      RemoveAllAppend(a[1..], b, key, k);
      var x, y := RemoveAll(a[1..], key, k), RemoveAll(b, key, k);
      calc {
        RemoveAll(ab, key, k);
        head + RemoveAll(a[1..] + b, key, k);
        head + (x + y);
        { assert head + (x + y) == (head + x) + y; }
        (head + x) + y;
        RemoveAll(a, key, k) + y;
      }
    }
  }

  /** Removal around one element: that element goes exactly when it has the key. */
  lemma RemoveAllAround<T(!new), K>(a: seq<T>, x: T, b: seq<T>, key: T -> K, k: K)
    ensures RemoveAll(a + [x] + b, key, k) ==
      RemoveAll(a, key, k) + (if key(x) == k then [] else [x]) + RemoveAll(b, key, k)
  {
    RemoveAllAppend(a + [x], b, key, k);
    RemoveAllAppend(a, [x], key, k);
    assert [x][1..] == [];
    assert RemoveAll([x], key, k) == (if key(x) == k then [] else [x]) + RemoveAll([], key, k);
  }

  /** `insert(x, at: i)`. */
  function InsertAt<T>(s: seq<T>, x: T, i: nat): (r: seq<T>)
    requires i <= |s|
    ensures |r| == |s| + 1 && r[i] == x
    // the prefix stays, the suffix shifts up by one
    ensures forall j :: 0 <= j < i ==> r[j] == s[j]
    ensures forall j :: i < j < |r| ==> r[j] == s[j - 1]
    ensures multiset(r) == multiset(s) + multiset{x}
  {
    assert s == s[..i] + s[i..];
    s[..i] + [x] + s[i..]
  }

  /** `remove(at: i)`. */
  function RemoveAt<T>(s: seq<T>, i: nat): (r: seq<T>)
    requires i < |s|
    ensures |r| == |s| - 1
    ensures multiset(r) + multiset{s[i]} == multiset(s)
  {
    assert s == s[..i] + [s[i]] + s[i + 1..];
    s[..i] + s[i + 1..]
  }

  /** Removing what was just inserted gives the sequence back. */
  lemma InsertThenRemove<T>(s: seq<T>, x: T, i: nat)
    requires i <= |s|
    ensures RemoveAt(InsertAt(s, x, i), i) == s
  {
    var r := InsertAt(s, x, i);
    assert r[..i] == s[..i] && r[i + 1..] == s[i..];
    assert s == s[..i] + s[i..];
  }

  /** Putting a removed element back where it was gives the sequence back. */
  lemma RemoveThenInsert<T>(s: seq<T>, i: nat)
    requires i < |s|
    ensures InsertAt(RemoveAt(s, i), s[i], i) == s
  {
    var r := RemoveAt(s, i);
    assert r[..i] == s[..i] && r[i..] == s[i + 1..];
    assert s == s[..i] + [s[i]] + s[i + 1..];
  }

  /** Where `moveEvent` re-inserts: one less when the removal shifted the target. */
  function MoveDestination(from: nat, to: nat): nat
    requires from < to ==> to > 0
  {
    if from < to then to - 1 else to
  }

  /** The position in the old sequence of what ends up at `j` after the move. */
  function MoveSource(from: nat, to: nat, j: nat): nat
    requires from < to ==> to > 0
  {
    var d := MoveDestination(from, to);
    if j == d then from
    else if from < to && from <= j < d then j + 1
    else if to <= from && d < j <= from then j - 1
    else j
  }

  /** Remove at `from`, then insert at the adjusted `to`. */
  function Move<T>(s: seq<T>, from: nat, to: nat): (r: seq<T>)
    requires from < |s| && to <= |s|
    ensures |r| == |s| && r[MoveDestination(from, to)] == s[from]
    ensures forall j :: 0 <= j < |r| ==> r[j] == s[MoveSource(from, to, j)]
    ensures multiset(r) == multiset(s)
  {
    var rest := RemoveAt(s, from);
    var d := MoveDestination(from, to);
    assert rest == s[..from] + s[from + 1..];
    InsertAt(rest, s[from], d)
  }

  /** Moving commutes with taking keys, so the multiset of keys is kept. */
  lemma MoveKeys<T, K>(s: seq<T>, from: nat, to: nat, key: T -> K)
    requires from < |s| && to <= |s|
    ensures Map(Move(s, from, to), key) == Move(Map(s, key), from, to)
    ensures multiset(Map(Move(s, from, to), key)) == multiset(Map(s, key))
  {
    var m := Move(s, from, to);
    var keys := Map(s, key);
    var a, b := Map(m, key), Move(keys, from, to);
    assert |a| == |s| == |b|;
    forall j | 0 <= j < |a|
      ensures a[j] == b[j]
    {
      var i := MoveSource(from, to, j);
      assert m[j] == s[i] && b[j] == keys[i];
    }
    assert a == b;
  }

  /** Moving an element before itself or just after itself changes nothing. */
  lemma MoveToOwnPlace<T>(s: seq<T>, i: nat)
    requires i < |s|
    ensures Move(s, i, i) == s
    ensures Move(s, i, i + 1) == s
  {
    var a, b := Move(s, i, i), Move(s, i, i + 1);
    assert forall j :: 0 <= j < |s| ==> a[j] == s[j];
    assert forall j :: 0 <= j < |s| ==> b[j] == s[j];
  }

  /** Moving the last of three elements to the front. */
  lemma MoveLastToFront<T>(a: T, b: T, c: T)
    ensures Move([a, b, c], 2, 0) == [c, a, b]
  {
  }
}
