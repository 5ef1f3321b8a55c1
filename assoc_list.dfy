/** A PHP array used as an ordered dictionary: entries keep the order in which
    their keys were first inserted, and assigning to an existing key replaces
    its value in place (`$a[$k] = $v`). Keys are kept as strings; see
    `Php.IsIntKey` for when PHP would store one as an integer. */
module AssocList {
  import opened Wrappers

  type Entries<V> = seq<(string, V)>

  function Keys<V>(e: Entries<V>): (ks: seq<string>)
    ensures |ks| == |e|
    ensures forall i :: 0 <= i < |e| ==> ks[i] == e[i].0
  {
    if e == [] then [] else [e[0].0] + Keys(e[1..])
  }

  function Values<V>(e: Entries<V>): (vs: seq<V>)
    ensures |vs| == |e|
    ensures forall i :: 0 <= i < |e| ==> vs[i] == e[i].1
  {
    if e == [] then [] else [e[0].1] + Values(e[1..])
  }

  predicate DistinctKeys<V>(e: Entries<V>) {
    forall i, j :: 0 <= i < j < |e| ==> e[i].0 != e[j].0
  }

  /** `$a[$k] ?? null`: the value of the first entry with key `k`. */
  function Lookup<V>(e: Entries<V>, k: string): Option<V> {
    if e == [] then None else if e[0].0 == k then Some(e[0].1) else Lookup(e[1..], k)
  }

  /** A key finds nothing exactly when no entry carries it. */
  lemma {:induction false} LookupNone<V>(e: Entries<V>, k: string)
    ensures Lookup(e, k).None? <==> k !in Keys(e)
    decreases |e|
  {
    if e != [] {
      LookupNone(e[1..], k);
      assert Keys(e) == [e[0].0] + Keys(e[1..]);
    }
  }

  /** In entries with distinct keys, each key finds its own entry. */
  lemma {:induction false} LookupAt<V>(e: Entries<V>, i: nat)
    requires DistinctKeys(e) && i < |e|
    ensures Lookup(e, e[i].0) == Some(e[i].1)
    decreases i
  {
    if i > 0 {
      LookupAt(e[1..], i - 1);
    }
  }

  /** `$a[$k] = $v` */
  function Put<V>(e: Entries<V>, k: string, v: V): Entries<V> {
    if e == [] then [(k, v)]
    else if e[0].0 == k then [(k, v)] + e[1..]
    else [e[0]] + Put(e[1..], k, v)
  }

  /** The array built by assigning the pairs one after the other. */
  function FromPairs<V>(ps: seq<(string, V)>): Entries<V>
    decreases |ps|
  {
    if ps == [] then [] else Put(FromPairs(ps[..|ps| - 1]), ps[|ps| - 1].0, ps[|ps| - 1].1)
  }

  /** Assigning one more pair. */
  lemma FromPairsStep<V>(ps: seq<(string, V)>, i: nat)
    requires i < |ps|
    ensures FromPairs(ps[..i + 1]) == Put(FromPairs(ps[..i]), ps[i].0, ps[i].1)
  {
    assert ps[..i + 1][..i] == ps[..i];
  }

  /** The value paired with `k` by the last pair that has key `k`. */
  function LastValue<V>(ps: seq<(string, V)>, k: string): Option<V>
    decreases |ps|
  {
    if ps == [] then None
    else if ps[|ps| - 1].0 == k then Some(ps[|ps| - 1].1)
    else LastValue(ps[..|ps| - 1], k)
  }

  /** An assignment changes the value of its own key and of no other key. */
  lemma {:induction false} PutLookup<V>(e: Entries<V>, k: string, v: V, k': string)
    ensures Lookup(Put(e, k, v), k') == if k' == k then Some(v) else Lookup(e, k')
    decreases |e|
  {
    if e != [] && e[0].0 != k {
      PutLookup(e[1..], k, v, k');
      assert Put(e, k, v)[1..] == Put(e[1..], k, v);
    }
  }

  /** An assignment keeps the keys where they were and appends a new key at the end. */
  lemma {:induction false} PutKeys<V>(e: Entries<V>, k: string, v: V)
    ensures Keys(Put(e, k, v)) == if k in Keys(e) then Keys(e) else Keys(e) + [k]
    decreases |e|
  {
    if e != [] {
      assert Keys(e) == [e[0].0] + Keys(e[1..]);
      if e[0].0 != k {
        PutKeys(e[1..], k, v);
        var p := Put(e, k, v);
        assert p == [e[0]] + Put(e[1..], k, v);
        assert Keys(p) == [e[0].0] + Keys(Put(e[1..], k, v));
      } else {
        assert Keys(Put(e, k, v)) == [k] + Keys(e[1..]);
      }
    }
  }

  lemma {:induction false} PutDistinct<V>(e: Entries<V>, k: string, v: V)
    requires DistinctKeys(e)
    ensures DistinctKeys(Put(e, k, v))
    decreases |e|
  {
    if e != [] && e[0].0 != k {
      var rest := Put(e[1..], k, v);
      PutDistinct(e[1..], k, v);
      PutKeys(e[1..], k, v);
      assert Keys(e[1..]) == Keys(e)[1..];
      forall j | 0 <= j < |rest| ensures rest[j].0 != e[0].0 {
        assert rest[j].0 == Keys(rest)[j];
      }
      assert Put(e, k, v) == [e[0]] + rest;
    }
  }

  /** Entries built from pairs have distinct keys ... */
  lemma {:induction false} FromPairsDistinct<V>(ps: seq<(string, V)>)
    ensures DistinctKeys(FromPairs(ps))
    decreases |ps|
  {
    if ps != [] {
      FromPairsDistinct(ps[..|ps| - 1]);
      PutDistinct(FromPairs(ps[..|ps| - 1]), ps[|ps| - 1].0, ps[|ps| - 1].1);
    }
  }

  /** ... and each key holds the value of its LAST pair: a later duplicate
      overwrites an earlier one. */
  lemma {:induction false} FromPairsLookup<V>(ps: seq<(string, V)>, k: string)
    ensures Lookup(FromPairs(ps), k) == LastValue(ps, k)
    decreases |ps|
  {
    if ps != [] {
      FromPairsLookup(ps[..|ps| - 1], k);
      PutLookup(FromPairs(ps[..|ps| - 1]), ps[|ps| - 1].0, ps[|ps| - 1].1, k);
    }
  }

  lemma {:induction false} PutFresh<V>(e: Entries<V>, k: string, v: V)
    requires k !in Keys(e)
    ensures Put(e, k, v) == e + [(k, v)]
    decreases |e|
  {
    if e != [] {
      assert Keys(e) == [e[0].0] + Keys(e[1..]);
      PutFresh(e[1..], k, v);
      assert e == [e[0]] + e[1..];
    }
  }

  /** When no key repeats, the array holds exactly the pairs, in their order. */
  lemma {:induction false} FromPairsOfDistinct<V>(ps: seq<(string, V)>)
    requires DistinctKeys(ps)
    ensures FromPairs(ps) == ps
    decreases |ps|
  {
    if ps != [] {
      var init := ps[..|ps| - 1];
      FromPairsOfDistinct(init);
      var last := ps[|ps| - 1];
      assert last.0 !in Keys(init);
      PutFresh(init, last.0, last.1);
      assert ps == init + [last];
    }
  }
}
