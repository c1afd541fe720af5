/** The plain JavaScript object the extractors fill in (`data`), as the list of
    its properties in insertion order, which is the order in which the panel
    lists them. JavaScript lists array-index keys ("0", "42") first, in
    ascending order; no key the extractors write is an array index, so the
    model keeps insertion order only. */
module Records {
  import opened Wrappers

  datatype Entry = Entry(key: string, value: string)

  type Record = seq<Entry>

  /** The property names, in order (`Object.keys`). */
  function Keys(r: Record): (ks: seq<string>)
    ensures |ks| == |r|
  {
    if r == [] then [] else [r[0].key] + Keys(r[1..])
  }

  /** The `i`-th name is the name of the `i`-th entry. */
  lemma {:induction false} KeysAt(r: Record, i: nat)
    requires i < |r|
    ensures Keys(r)[i] == r[i].key
  {
    if i > 0 {
      KeysAt(r[1..], i - 1);
    }
  }

  /** Concatenation regrouped. */
  lemma AppendAssoc(a: seq<string>, b: seq<string>, c: seq<string>)
    ensures a + b + c == a + (b + c)
  {
  }

  /** No property name occurs twice, as in every JavaScript object. */
  predicate DistinctKeys(r: Record) {
    Distinct(Keys(r))
  }

  predicate Distinct(ks: seq<string>) {
    forall i, j :: 0 <= i < j < |ks| ==> ks[i] != ks[j]
  }

  /** Reading `data[k]`: the value of property `k`, if there is one. */
  function Get(r: Record, k: string): (v: Option<string>)
    ensures v.Some? <==> k in Keys(r)
    ensures v.Some? ==> Entry(k, v.value) in r
  {
    if r == [] then None
    else if r[0].key == k then Some(r[0].value)
    else Get(r[1..], k)
  }

  /** The assignment `data[k] = v` for a key that is not an array index:
      overwrite the property in place when it exists, append it at the end
      otherwise. */
  function Put(r: Record, k: string, v: string): (r': Record)
    ensures Get(r', k) == Some(v)
    ensures forall k' :: k' != k ==> Get(r', k') == Get(r, k')
  {
    if r == [] then [Entry(k, v)]
    else if r[0].key == k then [Entry(k, v)] + r[1..]
    else [r[0]] + Put(r[1..], k, v)
  }

  /** An existing property keeps its place; a new one goes last. */
  lemma {:induction false} PutKeys(r: Record, k: string, v: string)
    ensures Keys(Put(r, k, v)) == if k in Keys(r) then Keys(r) else Keys(r) + [k]
  {
    if r == [] {
    } else if r[0].key == k {
      var r' := [Entry(k, v)] + r[1..];
      assert r'[1..] == r[1..];
      assert Keys(r)[0] == k;
    } else {
      var t := Put(r[1..], k, v);
      PutKeys(r[1..], k, v);
      var r' := [r[0]] + t;
      assert r'[1..] == t;
      assert Keys(r') == [r[0].key] + Keys(t);
      assert Keys(r) == [r[0].key] + Keys(r[1..]);
      assert (k in Keys(r)) == (k in Keys(r[1..]));
      if k !in Keys(r) {
        AppendAssoc([r[0].key], Keys(r[1..]), [k]);
      }
    }
  }

  /** Assignment keeps the property names distinct. */
  lemma PutDistinct(r: Record, k: string, v: string)
    requires DistinctKeys(r)
    ensures DistinctKeys(Put(r, k, v))
  {
    PutKeys(r, k, v);
  }

  /** With distinct names, every entry is what reading its name gives. */
  lemma {:induction false} KeyedEntry(r: Record, j: nat)
    requires DistinctKeys(r) && j < |r|
    ensures Get(r, r[j].key) == Some(r[j].value)
  {
    if j > 0 {
      assert Keys(r)[0] != Keys(r)[j];
      assert Keys(r[1..]) == Keys(r)[1..];
      KeyedEntry(r[1..], j - 1);
    }
  }

  /** Two lists of distinct names with no name in common concatenate to one. */
  lemma DistinctConcat(a: seq<string>, b: seq<string>)
    requires Distinct(a) && Distinct(b)
    requires forall i :: 0 <= i < |b| ==> b[i] !in a
    ensures Distinct(a + b)
  {
    forall i, j | 0 <= i < j < |a + b| ensures (a + b)[i] != (a + b)[j] {
      if i >= |a| {
        assert (a + b)[i] == b[i - |a|] && (a + b)[j] == b[j - |a|];
      } else if j >= |a| {
        assert (a + b)[j] == b[j - |a|];
      }
    }
  }

  /** Dropping the last name keeps the rest distinct, and the last name is
      not among them. */
  lemma DistinctInitLast(ks: seq<string>)
    requires Distinct(ks) && ks != []
    ensures Distinct(ks[..|ks| - 1]) && ks[|ks| - 1] !in ks[..|ks| - 1]
  {
    var n := |ks| - 1;
    forall j | 0 <= j < n ensures ks[..n][j] != ks[n] {
      assert ks[..n][j] == ks[j];
    }
  }
}
