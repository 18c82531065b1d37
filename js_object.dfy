/**
 The plain JavaScript objects that refactor.js builds and consumes: objects
 whose own properties are identifier names mapped to identifier names. An
 object is kept as the list of its (key, value) properties in insertion
 order, which is the order in which `Object.keys` and `Object.values` report
 them for keys that are not array indices (identifier names never are).
 */
module JsObject {

  datatype Option<T> = None | Some(value: T)

  /** An object with string-valued properties, in insertion order. */
  type Obj = seq<(string, string)>

  predicate NoDuplicates(s: seq<string>) {
    forall i, j :: 0 <= i < j < |s| ==> s[i] != s[j]
  }

  /** `Object.keys(o)` */
  function Keys(o: Obj): (ks: seq<string>)
    ensures |ks| == |o|
    ensures forall i :: 0 <= i < |o| ==> ks[i] == o[i].0
  {
    seq(|o|, i requires 0 <= i < |o| => o[i].0)
  }

  /** `Object.values(o)` */
  function Values(o: Obj): (vs: seq<string>)
    ensures |vs| == |o|
    ensures forall i :: 0 <= i < |o| ==> vs[i] == o[i].1
  {
    seq(|o|, i requires 0 <= i < |o| => o[i].1)
  }

  /** An object never holds two properties with the same key. */
  predicate UniqueKeys(o: Obj) {
    NoDuplicates(Keys(o))
  }

  /**
   Own-property lookup: the value of `o`'s own property `k`, or `None` when
   `o` has no own property `k`. Properties inherited from `Object.prototype`
   are not modelled.
   */
  function Get(o: Obj, k: string): (r: Option<string>)
    ensures r.None? <==> k !in Keys(o)
    ensures r.Some? ==> exists i :: 0 <= i < |o| && o[i] == (k, r.value)
  {
    if o == [] then None
    else if o[0].0 == k then Some(o[0].1)
    else
      var r := Get(o[1..], k);
      assert Keys(o) == [o[0].0] + Keys(o[1..]);
      assert r.Some? ==> exists i :: 0 <= i < |o[1..]| && o[1..][i] == (k, r.value);
      r
  }

  /**
   Property assignment `o[k] = v`: a key already present keeps its place and
   takes the new value; a new key is appended at the end.
   */
  function Put(o: Obj, k: string, v: string): (r: Obj)
    requires UniqueKeys(o)
    ensures UniqueKeys(r)
    ensures Keys(r) == if k in Keys(o) then Keys(o) else Keys(o) + [k]
    ensures k in Keys(o) ==> |r| == |o|
    ensures k !in Keys(o) ==> |r| == |o| + 1 && r[|o|] == (k, v)
    ensures forall i :: 0 <= i < |o| ==> r[i] == if o[i].0 == k then (k, v) else o[i]
    ensures Get(r, k) == Some(v)
    ensures forall k' :: k' != k ==> Get(r, k') == Get(o, k')
  {
    if k in Keys(o) then
      var r := seq(|o|, i requires 0 <= i < |o| => if o[i].0 == k then (k, v) else o[i]);
      assert Keys(r) == Keys(o);
      PutGet(o, k, v, r);
      r
    else
      var r := o + [(k, v)];
      assert Keys(r) == Keys(o) + [k];
      PutGet(o, k, v, r);
      r
  }

  /** The lookups after an assignment, from its effect on the property list. */
  lemma PutGet(o: Obj, k: string, v: string, r: Obj)
    requires UniqueKeys(o) && UniqueKeys(r)
    requires |o| <= |r| <= |o| + 1
    requires Keys(r)[..|o|] == Keys(o)
    requires |r| == |o| + 1 ==> k !in Keys(o) && r[|o|] == (k, v)
    requires forall i :: 0 <= i < |o| ==> r[i] == if o[i].0 == k then (k, v) else o[i]
    requires k in Keys(r)
    ensures Get(r, k) == Some(v)
    ensures forall k' :: k' != k ==> Get(r, k') == Get(o, k')
  {
    GetUnique(r, k);
    forall k' | k' != k
      ensures Get(r, k') == Get(o, k')
    {
      if k' in Keys(o) {
        GetUnique(o, k');
        GetUnique(r, k');
      } else {
        assert k' !in Keys(r);
      }
    }
  }

  /** With unique keys, a lookup finds the one property holding that key. */
  lemma GetUnique(o: Obj, k: string)
    requires UniqueKeys(o)
    ensures forall i :: 0 <= i < |o| && o[i].0 == k ==> Get(o, k) == Some(o[i].1)
  {
    if Get(o, k).Some? {
      var j :| 0 <= j < |o| && o[j] == (k, Get(o, k).value);
      assert Keys(o)[j] == k;
      forall i | 0 <= i < |o| && o[i].0 == k
        ensures Get(o, k) == Some(o[i].1)
      {
        assert Keys(o)[i] == k;
      }
    }
  }
}
