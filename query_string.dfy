/** A URL query string as the client's `URLSearchParams` builds it and as
    the server's `req.query` reads it back: an ordered list of key/value
    pairs. Percent-encoding and decoding are inverse and are not modelled. */
module QueryString {
  import opened Wrappers

  datatype Param = Param(key: string, value: string)

  /** `req.query[key]` for a key that occurs at most once: its value, or
      `undefined` (`None`). */
  function Get(q: seq<Param>, key: string): (r: Option<string>)
    ensures r.Some? ==> Param(key, r.value) in q
    ensures r.None? <==> forall p :: p in q ==> p.key != key
  {
    if |q| == 0 then None
    else if q[0].key == key then Some(q[0].value)
    else Get(q[1..], key)
  }

  /** The keys in order. */
  function Keys(q: seq<Param>): (r: seq<string>)
    ensures |r| == |q| && forall k :: 0 <= k < |q| ==> r[k] == q[k].key
  {
    if |q| == 0 then [] else [q[0].key] + Keys(q[1..])
  }

  lemma {:induction false} GetAppend(a: seq<Param>, b: seq<Param>, key: string)
    ensures Get(a + b, key) == if Get(a, key).Some? then Get(a, key) else Get(b, key)
  {
    if |a| > 0 {
      assert (a + b)[1..] == a[1..] + b;
      GetAppend(a[1..], b, key);
    } else {
      assert a + b == b;
    }
  }

  /** Appending one parameter: an earlier occurrence of the key wins. */
  lemma GetSnoc(a: seq<Param>, p: Param, key: string)
    ensures Get(a + [p], key) ==
      if Get(a, key).Some? then Get(a, key) else if p.key == key then Some(p.value) else None
  {
    GetAppend(a, [p], key);
  }

  /** When every parameter named `key` has value `v`, the key reads as `v`
      if present and as absent otherwise. */
  lemma KeyOnceGet(q: seq<Param>, key: string, v: string)
    requires forall p :: p in q && p.key == key ==> p.value == v
    ensures Get(q, key) == if Param(key, v) in q then Some(v) else None
  {
  }
}
