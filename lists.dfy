/** Generic list operations behind the catalog editors: JavaScript's `Array.filter`,
    a keyed `filter(x => x.id !== id)`, a keyed `map(x => x.id === id ? f(x) : x)`
    and `filter((_, i) => i !== index)`. */
module Lists {
  import opened Wrappers

  /** `xs.filter(keep)`: the elements satisfying `keep`, in their original order. */
  function Filter<T>(xs: seq<T>, keep: T -> bool): (r: seq<T>)
    ensures |r| <= |xs|
    ensures forall i :: 0 <= i < |r| ==> r[i] in xs && keep(r[i])
    ensures forall i :: 0 <= i < |xs| && keep(xs[i]) ==> xs[i] in r
    ensures (forall i :: 0 <= i < |xs| ==> keep(xs[i])) ==> r == xs
  {
    if xs == [] then []
    else (if keep(xs[0]) then [xs[0]] else []) + Filter(xs[1..], keep)
  }

  /** Filtering distributes over concatenation, so the relative order of the kept
      elements is the input order. */
  lemma {:induction false} FilterConcat<T>(a: seq<T>, b: seq<T>, keep: T -> bool)
    ensures Filter(a + b, keep) == Filter(a, keep) + Filter(b, keep)
  {
    if a == [] {
      assert a + b == b;
    } else {
      assert (a + b)[0] == a[0];
      assert (a + b)[1..] == a[1..] + b;
      FilterConcat(a[1..], b, keep);
    }
  }

  /** Filtering twice with the same predicate is filtering once. */
  lemma {:induction false} FilterIdempotent<T>(xs: seq<T>, keep: T -> bool)
    ensures Filter(Filter(xs, keep), keep) == Filter(xs, keep)
  {
    var r := Filter(xs, keep);
    assert forall i :: 0 <= i < |r| ==> keep(r[i]);
  }

  function KeyOtherThan<T>(key: T -> string, k: string): T -> bool {
    x => key(x) != k
  }

  /** `xs.filter(x => key(x) !== k)`: delete-by-id. */
  function RemoveKey<T>(xs: seq<T>, key: T -> string, k: string): (r: seq<T>)
    ensures |r| <= |xs|
    ensures forall i :: 0 <= i < |r| ==> r[i] in xs && key(r[i]) != k
    ensures forall i :: 0 <= i < |xs| && key(xs[i]) != k ==> xs[i] in r
    ensures (forall i :: 0 <= i < |xs| ==> key(xs[i]) != k) ==> r == xs
  {
    Filter(xs, KeyOtherThan(key, k))
  }

  /** Deleting by key commutes with concatenation: the survivors keep their order. */
  lemma RemoveKeyConcat<T>(a: seq<T>, b: seq<T>, key: T -> string, k: string)
    ensures RemoveKey(a + b, key, k) == RemoveKey(a, key, k) + RemoveKey(b, key, k)
  {
    FilterConcat(a, b, KeyOtherThan(key, k));
  }

  /** Deleting the key of an element just appended removes that element again. */
  lemma RemoveKeyAfterAppend<T>(xs: seq<T>, x: T, key: T -> string)
    ensures RemoveKey(xs + [x], key, key(x)) == RemoveKey(xs, key, key(x))
  {
    RemoveKeyConcat(xs, [x], key, key(x));
    assert Filter([x], KeyOtherThan(key, key(x))) == [];
  }

  /** `xs.map(x => key(x) === k ? f(x) : x)`: replace-by-id. */
  function ReplaceKey<T>(xs: seq<T>, key: T -> string, k: string, f: T -> T): (r: seq<T>)
    ensures |r| == |xs|
    ensures forall i :: 0 <= i < |xs| ==> r[i] == if key(xs[i]) == k then f(xs[i]) else xs[i]
  {
    if xs == [] then []
    else [if key(xs[0]) == k then f(xs[0]) else xs[0]] + ReplaceKey(xs[1..], key, k, f)
  }

  /** The keys of a list, in order. */
  function Keys<T>(xs: seq<T>, key: T -> string): (r: seq<string>)
    ensures |r| == |xs|
    ensures forall i :: 0 <= i < |xs| ==> r[i] == key(xs[i])
  {
    seq(|xs|, i requires 0 <= i < |xs| => key(xs[i]))
  }

  /** A replacement that keeps the key leaves the key sequence unchanged. */
  lemma ReplaceKeyKeepsKeys<T>(xs: seq<T>, key: T -> string, k: string, f: T -> T)
    requires forall x :: key(x) == k ==> key(f(x)) == k
    ensures Keys(ReplaceKey(xs, key, k, f), key) == Keys(xs, key)
  {
  }

  /** Replacing a key nobody carries changes nothing. */
  lemma ReplaceAbsentKey<T>(xs: seq<T>, key: T -> string, k: string, f: T -> T)
    requires forall i :: 0 <= i < |xs| ==> key(xs[i]) != k
    ensures ReplaceKey(xs, key, k, f) == xs
  {
  }

  /** Deleting a key after replacing the records that carry it is the same as
      deleting it straight away. */
  lemma {:induction false} RemoveKeyAfterReplace<T>(xs: seq<T>, key: T -> string, k: string, f: T -> T)
    requires forall x :: key(x) == k ==> key(f(x)) == k
    ensures RemoveKey(ReplaceKey(xs, key, k, f), key, k) == RemoveKey(xs, key, k)
  {
    if xs != [] {
      var r := ReplaceKey(xs, key, k, f);
      assert r == [r[0]] + r[1..];
      assert xs == [xs[0]] + xs[1..];
      assert r[1..] == ReplaceKey(xs[1..], key, k, f);
      RemoveKeyAfterReplace(xs[1..], key, k, f);
      RemoveKeyConcat([r[0]], r[1..], key, k);
      RemoveKeyConcat([xs[0]], xs[1..], key, k);
    }
  }

  /** Replacing twice with the same replacement is replacing once, provided the
      replacement keeps the key and is idempotent. */
  lemma ReplaceKeyIdempotent<T>(xs: seq<T>, key: T -> string, k: string, f: T -> T)
    requires forall x :: key(x) == k ==> key(f(x)) == k && f(f(x)) == f(x)
    ensures ReplaceKey(ReplaceKey(xs, key, k, f), key, k, f) == ReplaceKey(xs, key, k, f)
  {
  }

  /** `xs.filter((_, i) => i !== index)`: remove the element at `index`; an index
      outside the list removes nothing. */
  function DropIndex<T>(xs: seq<T>, index: int): (r: seq<T>)
    ensures 0 <= index < |xs| ==> r == xs[..index] + xs[index + 1..]
    ensures !(0 <= index < |xs|) ==> r == xs
  {
    if xs == [] then []
    else (if index == 0 then [] else [xs[0]]) + DropIndex(xs[1..], index - 1)
  }

  /** `xs.findIndex(p)`, with `|xs|` in place of -1: the first position whose element
      satisfies `p`. */
  function FindIndex<T>(xs: seq<T>, p: T -> bool): (k: nat)
    ensures k <= |xs|
    ensures k < |xs| ==> p(xs[k])
    ensures forall i :: 0 <= i < k ==> !p(xs[i])
  {
    if xs == [] || p(xs[0]) then 0 else 1 + FindIndex(xs[1..], p)
  }

  /** `xs.find(p)`: the first element satisfying `p`, or nothing. */
  function Find<T>(xs: seq<T>, p: T -> bool): (r: Option<T>)
    ensures r.None? <==> forall i :: 0 <= i < |xs| ==> !p(xs[i])
    ensures forall i :: 0 <= i < |xs| && p(xs[i]) && (forall j :: 0 <= j < i ==> !p(xs[j])) ==> r == Some(xs[i])
  {
    var k := FindIndex(xs, p);
    if k < |xs| then Some(xs[k]) else None
  }
}
