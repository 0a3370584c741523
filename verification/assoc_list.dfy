/** JavaScript plain objects as ordered association lists: the order of the
    entries is the `Object.keys` order, and a well-formed list has each key
    at most once. */
module AssocList {
  import opened Wrappers

  /** The keys in entry order (`Object.keys`). */
  function Keys<V>(m: seq<(string, V)>): (ks: seq<string>)
    ensures |ks| == |m|
    ensures forall i :: 0 <= i < |m| ==> ks[i] == m[i].0
  {
    if |m| == 0 then [] else [m[0].0] + Keys(m[1..])
  }

  /** No key occurs twice, as in every JavaScript object. */
  predicate UniqueKeys<V>(m: seq<(string, V)>) {
    Distinct(Keys(m))
  }

  /** No element occurs twice. */
  predicate Distinct(s: seq<string>) {
    forall i, j :: 0 <= i < j < |s| ==> s[i] != s[j]
  }

  /** `m[k]`: the value stored under `k`, or `None` when `k` is not an own key. */
  function Lookup<V>(m: seq<(string, V)>, k: string): (r: Option<V>)
    ensures r.Some? <==> k in Keys(m)
  {
    if |m| == 0 then None
    else if m[0].0 == k then Some(m[0].1)
    else Lookup(m[1..], k)
  }

  /** `{...m, [k]: v}`: `k` reads `v` afterwards and every other key reads as
      before. Where the key ends up is stated by `PutKeys`. */
  function Put<V>(m: seq<(string, V)>, k: string, v: V): (r: seq<(string, V)>)
    ensures Lookup(r, k) == Some(v)
    ensures forall k' :: k' != k ==> Lookup(r, k') == Lookup(m, k')
  {
    if |m| == 0 then [(k, v)]
    else if m[0].0 == k then [(k, v)] + m[1..]
    else
      var rest := Put(m[1..], k, v);
      var r := [m[0]] + rest;
      assert r[0] == m[0] && r[1..] == rest;
      r
  }

  /** An existing key keeps its position; a new key is appended at the end. */
  lemma {:induction false} PutKeys<V>(m: seq<(string, V)>, k: string, v: V)
    ensures k in Keys(m) ==> Keys(Put(m, k, v)) == Keys(m)
    ensures k !in Keys(m) ==> Keys(Put(m, k, v)) == Keys(m) + [k]
  {
    var r := Put(m, k, v);
    if |m| > 0 {
      assert Keys(m) == [m[0].0] + Keys(m[1..]);
      if m[0].0 == k {
        assert r == [(k, v)] + m[1..];
        assert Keys(r) == [k] + Keys(m[1..]);
      } else {
        var rest := Put(m[1..], k, v);
        PutKeys(m[1..], k, v);
        assert r == [m[0]] + rest;
        assert Keys(r) == [m[0].0] + Keys(rest);
      }
    }
  }

  /** Writing a key keeps an object's keys unique. */
  lemma PutKeepsUnique<V>(m: seq<(string, V)>, k: string, v: V)
    requires UniqueKeys(m)
    ensures UniqueKeys(Put(m, k, v))
  {
    var r := Put(m, k, v);
    PutKeys(m, k, v);
    if k !in Keys(m) {
      forall i, j | 0 <= i < j < |Keys(r)|
        ensures Keys(r)[i] != Keys(r)[j]
      {
        if j == |Keys(m)| {
          assert Keys(r)[i] == Keys(m)[i];
        }
      }
    }
  }

  /** The same keys in the same order, each value transformed by `f`. */
  function MapValues<V, W>(m: seq<(string, V)>, f: V -> W): (r: seq<(string, W)>)
    ensures Keys(r) == Keys(m)
    ensures forall k :: Lookup(r, k) == (if k in Keys(m) then Some(f(Lookup(m, k).value)) else None)
  {
    if |m| == 0 then []
    else
      var r := [(m[0].0, f(m[0].1))] + MapValues(m[1..], f);
      assert r[1..] == MapValues(m[1..], f);
      r
  }

  /** Writing the value a key already holds changes nothing. */
  lemma {:induction false} PutSameValue<V>(m: seq<(string, V)>, k: string, v: V)
    requires Lookup(m, k) == Some(v)
    ensures Put(m, k, v) == m
  {
    if m[0].0 != k {
      PutSameValue(m[1..], k, v);
    }
  }

  /** The position of the entry `Lookup` reads for a present key. */
  lemma {:induction false} LookupIndex<V>(m: seq<(string, V)>, k: string) returns (i: nat)
    requires k in Keys(m)
    ensures i < |m| && m[i].0 == k && Lookup(m, k) == Some(m[i].1)
  {
    if m[0].0 == k {
      i := 0;
    } else {
      assert Keys(m) == [m[0].0] + Keys(m[1..]);
      var j := LookupIndex(m[1..], k);
      i := j + 1;
    }
  }
}
