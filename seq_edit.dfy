/** Generic edits of a list by key, in the shape the page handlers use on every
    level of the tree: `xs.map(x => key(x) === id ? f(x) : x)`,
    `xs.filter(x => key(x) !== id)`, and a first-match lookup. */
module SeqEdit {

  datatype Option<T> = None | Some(value: T)

  /** `f` applied under `Some`. */
  function Apply<T>(f: T -> T, o: Option<T>): Option<T>
  {
    match o
    case None => None
    case Some(x) => Some(f(x))
  }

  /** Applies `f` to every element whose key is `id` and keeps the others. */
  function MapWhere<T, K(==)>(s: seq<T>, key: T -> K, id: K, f: T -> T): (r: seq<T>)
    ensures |r| == |s|
    ensures forall i :: 0 <= i < |s| && key(s[i]) == id ==> r[i] == f(s[i])
    ensures forall i :: 0 <= i < |s| && key(s[i]) != id ==> r[i] == s[i]
  {
    if s == [] then []
    else [if key(s[0]) == id then f(s[0]) else s[0]] + MapWhere(s[1..], key, id, f)
  }

  /** Keeps, in order, the elements whose key differs from `id`. */
  function Without<T, K(==)>(s: seq<T>, key: T -> K, id: K): (r: seq<T>)
    ensures forall i :: 0 <= i < |r| ==> r[i] in s && key(r[i]) != id
    ensures forall i :: 0 <= i < |s| && key(s[i]) != id ==> s[i] in r
    ensures |r| <= |s|
    ensures (forall i :: 0 <= i < |s| ==> key(s[i]) != id) ==> r == s
  {
    if s == [] then []
    else (if key(s[0]) != id then [s[0]] else []) + Without(s[1..], key, id)
  }

  /** The first element whose key is `id`, if any: how the model reads a
      node back by its id. */
  function Find<T, K(==)>(s: seq<T>, key: T -> K, id: K): (r: Option<T>)
    ensures r.Some? ==> r.value in s && key(r.value) == id
    ensures r.None? <==> forall i :: 0 <= i < |s| ==> key(s[i]) != id
  {
    if s == [] then None
    else if key(s[0]) == id then Some(s[0])
    else Find(s[1..], key, id)
  }

  /** `Find` returns the element at the first position whose key is `id`. */
  lemma {:induction false} FindIsFirst<T, K>(s: seq<T>, key: T -> K, id: K, i: nat)
    requires i < |s| && key(s[i]) == id
    requires forall j :: 0 <= j < i ==> key(s[j]) != id
    ensures Find(s, key, id) == Some(s[i])
  {
    if i > 0 {
      FindIsFirst(s[1..], key, id, i - 1);
    }
  }

  /** Filtering distributes over concatenation, so it keeps the survivors in
      their original order. */
  lemma {:induction false} WithoutAppend<T, K>(s: seq<T>, t: seq<T>, key: T -> K, id: K)
    ensures Without(s + t, key, id) == Without(s, key, id) + Without(t, key, id)
  {
    if s == [] {
      assert s + t == t;
    } else {
      assert (s + t)[1..] == s[1..] + t;
      WithoutAppend(s[1..], t, key, id);
    }
  }

  /** Updating by key leaves a list alone when no matching element changes. */
  lemma MapWhereUnchanged<T, K>(s: seq<T>, key: T -> K, id: K, f: T -> T)
    requires forall i :: 0 <= i < |s| && key(s[i]) == id ==> f(s[i]) == s[i]
    ensures MapWhere(s, key, id, f) == s
  {
    var r := MapWhere(s, key, id, f);
    assert forall i :: 0 <= i < |s| ==> r[i] == s[i];
  }

  /** Lookup after an update by key, when the update keeps every key: the
      updated key now finds the updated element, every other key finds what
      it found before. */
  lemma {:induction false} FindMapWhere<T, K>(s: seq<T>, key: T -> K, id: K, f: T -> T, id': K)
    requires forall i :: 0 <= i < |s| ==> key(f(s[i])) == key(s[i])
    ensures id' == id ==> Find(MapWhere(s, key, id, f), key, id') == Apply(f, Find(s, key, id))
    ensures id' != id ==> Find(MapWhere(s, key, id, f), key, id') == Find(s, key, id')
  {
    if s != [] {
      var r := MapWhere(s, key, id, f);
      assert r[1..] == MapWhere(s[1..], key, id, f);
      FindMapWhere(s[1..], key, id, f, id');
    }
  }

  /** Filtering keeps any projection that was pairwise distinct pairwise distinct. */
  lemma {:induction false} WithoutKeepsDistinct<T, K, P>(s: seq<T>, key: T -> K, id: K, proj: T -> P)
    requires forall i, j :: 0 <= i < j < |s| ==> proj(s[i]) != proj(s[j])
    ensures forall i, j :: 0 <= i < j < |Without(s, key, id)| ==>
      proj(Without(s, key, id)[i]) != proj(Without(s, key, id)[j])
  {
    if s != [] {
      var tail := Without(s[1..], key, id);
      WithoutKeepsDistinct(s[1..], key, id, proj);
      if key(s[0]) != id {
        var r := [s[0]] + tail;
        assert Without(s, key, id) == r;
        forall j | 0 <= j < |tail| ensures proj(s[0]) != proj(tail[j]) {
          var k :| 0 <= k < |s[1..]| && s[1..][k] == tail[j];
          assert s[k + 1] == tail[j];
        }
        forall i, j | 0 <= i < j < |r| ensures proj(r[i]) != proj(r[j]) {
          assert r[j] == tail[j - 1];
          if i == 0 {
            assert r[i] == s[0];
          } else {
            assert r[i] == tail[i - 1];
            assert proj(tail[i - 1]) != proj(tail[j - 1]);
          }
        }
      } else {
        assert Without(s, key, id) == tail;
      }
    }
  }
}
