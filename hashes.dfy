/** Ruby's Hash as the quote engine uses it: a finite map that remembers the
    order in which its keys were first inserted. */
module Hashes {
  import opened Wrappers

  /** Every element of `s` occurs once. */
  predicate Distinct<T(==)>(s: seq<T>) {
    forall i, j :: 0 <= i < j < |s| ==> s[i] != s[j]
  }

  /** `s` with every occurrence of `x` taken out, the rest in order. */
  function Without<T(==,!new)>(s: seq<T>, x: T): (r: seq<T>)
    ensures forall y :: y in r <==> y in s && y != x
    ensures Distinct(s) ==> Distinct(r)
    ensures |r| <= |s|
  {
    if s == [] then []
    else if s[0] == x then Without(s[1..], x)
    else
      assert Distinct(s) ==> s[0] !in s[1..];
      [s[0]] + Without(s[1..], x)
  }

  lemma {:induction false} WithoutAbsent<T(!new)>(s: seq<T>, x: T)
    requires x !in s
    ensures Without(s, x) == s
  {
    if s != [] {
      WithoutAbsent(s[1..], x);
    }
  }

  lemma {:induction false} WithoutConcat<T(!new)>(a: seq<T>, b: seq<T>, x: T)
    ensures Without(a + b, x) == Without(a, x) + Without(b, x)
  {
    if a == [] {
      assert a + b == b;
    } else {
      assert (a + b)[1..] == a[1..] + b;
      WithoutConcat(a[1..], b, x);
    }
  }

  /** The elements of `s` that are in `keep`, in their order in `s`. */
  function Restrict<T(==,!new)>(s: seq<T>, keep: set<T>): (r: seq<T>)
    ensures forall y :: y in r <==> y in s && y in keep
    ensures Distinct(s) ==> Distinct(r)
    decreases |s|
  {
    if s == [] then []
    else
      var init, last := s[..|s| - 1], s[|s| - 1];
      assert forall y :: y in init ==> y in s;
      assert Distinct(s) ==> last !in init;
      if last in keep then Restrict(init, keep) + [last] else Restrict(init, keep)
  }

  /** Extending the prefix of `s` by one element extends its restriction by
      that element when it is kept. */
  lemma RestrictPrefix<T(!new)>(s: seq<T>, keep: set<T>, i: int)
    requires 0 <= i < |s|
    ensures Restrict(s[..i + 1], keep) ==
      if s[i] in keep then Restrict(s[..i], keep) + [s[i]] else Restrict(s[..i], keep)
  {
    assert s[..i + 1][..i] == s[..i];
  }

  /** The elements of `s` in the order of their first occurrence, each
      once. */
  function FirstSeen<T(==,!new)>(s: seq<T>): (r: seq<T>)
    ensures Distinct(r)
    ensures forall y :: y in r <==> y in s
    ensures s != [] ==> r != [] && r[0] == s[0]
    decreases |s|
  {
    if s == [] then []
    else
      var init, last := s[..|s| - 1], s[|s| - 1];
      var seen := FirstSeen(init);
      assert forall y :: y in init ==> y in s;
      assert init != [] ==> init[0] == s[0];
      if last in seen then seen else seen + [last]
  }

  /** Keys in insertion order, and the value of each key. */
  datatype Hash<K(==,!new), V> = Hash(keys: seq<K>, vals: map<K, V>) {

    /** Each key is listed once, and exactly the mapped keys are listed. */
    ghost predicate Wf() {
      Distinct(keys) && forall k :: k in vals <==> k in keys
    }

    /** `h.empty?` */
    predicate IsEmpty() {
      keys == []
    }

    /** `h[k]`, nil when `k` is absent. */
    function Get(k: K): Option<V> {
      if k in vals then Some(vals[k]) else None
    }

    /** `h[k] = v`: a key already present keeps its place, a new key goes last. */
    function Put(k: K, v: V): (h: Hash<K, V>)
      requires Wf()
      ensures h.Wf()
    {
      Hash(if k in vals then keys else keys + [k], vals[k := v])
    }

    /** `h.delete(k)`: the other keys keep their order. */
    function Delete(k: K): (h: Hash<K, V>)
      requires Wf()
      ensures h.Wf()
      ensures h.vals == vals - {k}
      ensures h.keys == Without(keys, k)
    {
      Hash(Without(keys, k), vals - {k})
    }

    /** `h.keys.first`, nil for an empty hash. */
    function FirstKey(): Option<K> {
      if keys == [] then None else Some(keys[0])
    }

    /** `h.keys.last`, nil for an empty hash. */
    function LastKey(): Option<K> {
      if keys == [] then None else Some(keys[|keys| - 1])
    }

    /** `h.values.first`, nil for an empty hash. */
    function FirstValue(): Option<V>
      requires Wf()
    {
      if keys == [] then None else Some(vals[keys[0]])
    }
  }

  /** Storing twice under one key is storing the second value: the key
      keeps the place the first store gave it. */
  lemma PutPut<K(!new), V>(h: Hash<K, V>, k: K, v: V, w: V)
    requires h.Wf()
    ensures h.Put(k, v).Put(k, w) == h.Put(k, w)
  {
    assert h.vals[k := v][k := w] == h.vals[k := w];
  }

  /** `{}` */
  function Empty<K(==,!new), V>(): (h: Hash<K, V>)
    ensures h.Wf()
  {
    Hash([], map[])
  }

  /** The keys of `ks` whose value in `m` is not nil, in order. */
  function PresentKeys<K(==,!new), V>(ks: seq<K>, m: map<K, Option<V>>): (r: seq<K>)
    requires forall k :: k in ks ==> k in m
  {
    if ks == [] then []
    else if m[ks[0]].Some? then [ks[0]] + PresentKeys(ks[1..], m)
    else PresentKeys(ks[1..], m)
  }

  /** Compacting keeps exactly the keys whose value is set, each once. */
  lemma {:induction false} PresentKeysMembers<K(!new), V>(ks: seq<K>, m: map<K, Option<V>>)
    requires forall k :: k in ks ==> k in m
    ensures forall k :: k in PresentKeys(ks, m) <==> k in ks && m[k].Some?
    ensures Distinct(ks) ==> Distinct(PresentKeys(ks, m))
  {
    if ks != [] {
      PresentKeysMembers(ks[1..], m);
    }
  }

  lemma PresentKeysCons<K(!new), V>(k: K, rest: seq<K>, m: map<K, Option<V>>)
    requires k in m && forall x :: x in rest ==> x in m
    ensures PresentKeys([k] + rest, m) == (if m[k].Some? then [k] else []) + PresentKeys(rest, m)
  {
    assert ([k] + rest)[1..] == rest;
  }

  /** Compacting keys that are all set keeps them all. */
  lemma {:induction false} PresentKeysAllSet<K(!new), V>(ks: seq<K>, m: map<K, Option<V>>)
    requires forall k :: k in ks ==> k in m && m[k].Some?
    ensures PresentKeys(ks, m) == ks
  {
    if ks != [] {
      PresentKeysAllSet(ks[1..], m);
    }
  }

  /** Compacting keys `[a, b, c, d] + tail` where `a` and `b` are set and
      `c` and `d` are both set or both nil. */
  lemma PresentKeysFront<K(!new), V>(a: K, b: K, c: K, d: K, tail: seq<K>, m: map<K, Option<V>>)
    requires a in m && b in m && c in m && d in m && forall k :: k in tail ==> k in m
    requires m[a].Some? && m[b].Some? && m[c].Some? == m[d].Some?
    ensures PresentKeys([a, b, c, d] + tail, m) ==
      [a, b] + (if m[c].Some? then [c, d] else []) + PresentKeys(tail, m)
  {
    assert [a, b, c, d] + tail == [a] + ([b] + ([c] + ([d] + tail)));
    PresentKeysCons(d, tail, m);
    PresentKeysCons(c, [d] + tail, m);
    PresentKeysCons(b, [c] + ([d] + tail), m);
    PresentKeysCons(a, [b] + ([c] + ([d] + tail)), m);
  }

  /** The same when every key of `tail` is set. */
  lemma PresentKeysFrontSet<K(!new), V>(a: K, b: K, c: K, d: K, tail: seq<K>, m: map<K, Option<V>>)
    requires a in m && b in m && c in m && d in m && forall k :: k in tail ==> k in m && m[k].Some?
    requires m[a].Some? && m[b].Some? && m[c].Some? == m[d].Some?
    ensures PresentKeys([a, b, c, d] + tail, m) ==
      [a, b] + (if m[c].Some? then [c, d] else []) + tail
  {
    PresentKeysFront(a, b, c, d, tail, m);
    PresentKeysAllSet(tail, m);
  }

  /** The same with one more set key `e` between the pair and `tail`. */
  lemma PresentKeysFrontLast<K(!new), V>(a: K, b: K, c: K, d: K, e: K, tail: seq<K>, m: map<K, Option<V>>)
    requires a in m && b in m && c in m && d in m && e in m && forall k :: k in tail ==> k in m && m[k].Some?
    requires m[a].Some? && m[b].Some? && m[c].Some? == m[d].Some? && m[e].Some?
    ensures PresentKeys([a, b, c, d, e] + tail, m) ==
      [a, b] + (if m[c].Some? then [c, d] else []) + [e] + tail
  {
    assert [a, b, c, d, e] + tail == [a, b, c, d] + ([e] + tail);
    PresentKeysFrontSet(a, b, c, d, [e] + tail, m);
    var front := [a, b] + (if m[c].Some? then [c, d] else []);
    assert front + ([e] + tail) == front + [e] + tail;
  }

  /** `h.compact`: the entries whose value is nil are removed, the others keep
      their order and value. */
  function Compact<K(==,!new), V>(h: Hash<K, Option<V>>): (r: Hash<K, V>)
    requires h.Wf()
    ensures r.Wf()
    ensures forall k :: k in r.vals <==> k in h.vals && h.vals[k].Some?
    ensures forall k :: k in r.vals ==> h.vals[k] == Some(r.vals[k])
  {
    PresentKeysMembers(h.keys, h.vals);
    Hash(PresentKeys(h.keys, h.vals), map k | k in h.vals && h.vals[k].Some? :: h.vals[k].value)
  }

  /** `h` with the keys of `f` given their value in `f` and every other key
      deleted; the kept keys stay in their order. */
  function Transform<K(==,!new), V>(h: Hash<K, V>, f: map<K, V>): (r: Hash<K, V>)
    requires h.Wf()
    ensures r.Wf()
    ensures forall k :: k in r.vals <==> k in h.vals && k in f
    ensures forall k :: k in r.vals ==> r.vals[k] == f[k]
  {
    Hash(Restrict(h.keys, f.Keys), map k | k in h.vals && k in f :: f[k])
  }

  /** One step of an in-place pass over the keys of `h`: key `h.keys[i]` is
      given its value in `f`, or deleted when `f` has none. */
  function Visit<K(==,!new), V>(h: Hash<K, V>, f: map<K, V>, i: int, cur: Hash<K, V>): (r: Hash<K, V>)
    requires cur.Wf() && 0 <= i < |h.keys|
    ensures r.Wf()
  {
    var k := h.keys[i];
    if k in f then cur.Put(k, f[k]) else cur.Delete(k)
  }

  /** The state of that pass after the first `i` keys: the visited keys that
      `f` keeps hold their new value, the others are gone, and the keys
      still to come are untouched and in place. */
  ghost predicate Visited<K(!new), V>(h: Hash<K, V>, f: map<K, V>, i: int, cur: Hash<K, V>) {
    h.Wf() && cur.Wf() && 0 <= i <= |h.keys| &&
    cur.keys == Restrict(h.keys[..i], f.Keys) + h.keys[i..] &&
    VisitedDomain(h, f, h.keys[i..], cur) &&
    VisitedValues(h, f, h.keys[i..], cur)
  }

  /** Exactly the keys still to come and the kept ones are present. */
  ghost predicate VisitedDomain<K(!new), V>(h: Hash<K, V>, f: map<K, V>, todo: seq<K>, cur: Hash<K, V>) {
    forall k {:trigger k in cur.vals} {:trigger k in h.vals} ::
      k in cur.vals <==> k in h.vals && (k in todo || k in f)
  }

  /** Keys still to come keep their value, visited ones have their new one. */
  ghost predicate VisitedValues<K(!new), V>(h: Hash<K, V>, f: map<K, V>, todo: seq<K>, cur: Hash<K, V>) {
    forall k {:trigger k in cur.vals} :: k in cur.vals ==>
      if k in todo then k in h.vals && cur.vals[k] == h.vals[k] else k in f && cur.vals[k] == f[k]
  }

  lemma VisitStart<K(!new), V>(h: Hash<K, V>, f: map<K, V>)
    requires h.Wf()
    ensures Visited(h, f, 0, h)
  {
    assert h.keys[..0] == [];
    assert h.keys[0..] == h.keys;
  }

  /** Facts about the key `h.keys[i]` that one step visits. */
  lemma VisitKey<K(!new)>(keys: seq<K>, i: int)
    requires Distinct(keys) && 0 <= i < |keys|
    ensures keys[i..] == [keys[i]] + keys[i + 1..]
    ensures keys[i] !in keys[i + 1..] && keys[i] !in keys[..i]
    ensures forall k :: k in keys[i + 1..] ==> k in keys[i..]
  {
    assert forall j :: i < j < |keys| ==> keys[j] != keys[i];
    assert forall j :: 0 <= j < i ==> keys[j] != keys[i];
  }

  lemma VisitKeptKeys<K(!new)>(done: seq<K>, k: K, rest: seq<K>)
    ensures done + ([k] + rest) == (done + [k]) + rest
  {
  }

  lemma VisitDroppedKeys<K(!new)>(done: seq<K>, k: K, rest: seq<K>)
    requires k !in done && k !in rest
    ensures Without(done + ([k] + rest), k) == done + rest
  {
    WithoutConcat(done, [k] + rest, k);
    WithoutAbsent(done, k);
    WithoutConcat([k], rest, k);
    WithoutAbsent(rest, k);
  }

  lemma VisitStepKeys<K(!new), V>(h: Hash<K, V>, f: map<K, V>, i: int, cur: Hash<K, V>)
    requires h.Wf() && cur.Wf() && 0 <= i < |h.keys| && h.keys[i] in cur.vals
    requires cur.keys == Restrict(h.keys[..i], f.Keys) + h.keys[i..]
    ensures Visit(h, f, i, cur).keys == Restrict(h.keys[..i + 1], f.Keys) + h.keys[i + 1..]
  {
    var k, rest := h.keys[i], h.keys[i + 1..];
    var done := Restrict(h.keys[..i], f.Keys);
    VisitKey(h.keys, i);
    RestrictPrefix(h.keys, f.Keys, i);
    if k in f {
      VisitKeptKeys(done, k, rest);
    } else {
      VisitDroppedKeys(done, k, rest);
    }
  }

  lemma VisitStepDomain<K(!new), V>(h: Hash<K, V>, f: map<K, V>, i: int, cur: Hash<K, V>)
    requires h.Wf() && cur.Wf() && 0 <= i < |h.keys|
    requires VisitedDomain(h, f, h.keys[i..], cur)
    ensures VisitedDomain(h, f, h.keys[i + 1..], Visit(h, f, i, cur))
  {
    VisitKey(h.keys, i);
  }

  lemma VisitStepValues<K(!new), V>(h: Hash<K, V>, f: map<K, V>, i: int, cur: Hash<K, V>)
    requires h.Wf() && cur.Wf() && 0 <= i < |h.keys|
    requires VisitedValues(h, f, h.keys[i..], cur)
    ensures VisitedValues(h, f, h.keys[i + 1..], Visit(h, f, i, cur))
  {
    VisitKey(h.keys, i);
  }

  lemma VisitStep<K(!new), V>(h: Hash<K, V>, f: map<K, V>, i: int, cur: Hash<K, V>)
    requires Visited(h, f, i, cur) && i < |h.keys|
    ensures Visited(h, f, i + 1, Visit(h, f, i, cur))
  {
    VisitKey(h.keys, i);
    assert h.keys[i] in cur.vals;
    VisitStepKeys(h, f, i, cur);
    VisitStepDomain(h, f, i, cur);
    VisitStepValues(h, f, i, cur);
  }

  lemma VisitEnd<K(!new), V>(h: Hash<K, V>, f: map<K, V>, cur: Hash<K, V>)
    requires Visited(h, f, |h.keys|, cur)
    ensures cur == Transform(h, f)
  {
    var r := Transform(h, f);
    assert h.keys[..|h.keys|] == h.keys;
    assert h.keys[|h.keys|..] == [];
    assert cur.keys == r.keys;
    assert cur.vals == r.vals;
  }
}
