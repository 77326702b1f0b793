/**
 * JavaScript plain objects as the soum data service builds them: properties
 * named by strings, enumerated by `Object.keys` in the order in which each
 * property was first assigned.
 */
module JsObject {
  import opened Wrappers

  /** Concatenation is associative. */
  lemma AppendAssoc<T>(a: seq<T>, b: seq<T>, c: seq<T>)
    ensures a + (b + c) == (a + b) + c
  {
  }

  /** No element occurs twice. */
  predicate Distinct<T(==)>(s: seq<T>) {
    forall i, j :: 0 <= i < j < |s| ==> s[i] != s[j]
  }

  /** The elements of `s`, each kept at its first occurrence and repetitions dropped. */
  function Dedup(s: seq<string>): (r: seq<string>)
    ensures Distinct(r)
    ensures forall x :: x in r <==> x in s
    decreases |s|
  {
    if s == [] then []
    else if s[|s| - 1] in s[..|s| - 1] then Dedup(s[..|s| - 1])
    else Dedup(s[..|s| - 1]) + [s[|s| - 1]]
  }

  /** Dedup of a sequence grown by one element. */
  lemma DedupSnoc(s: seq<string>, x: string)
    ensures Dedup(s + [x]) == if x in s then Dedup(s) else Dedup(s) + [x]
  {
    assert (s + [x])[..|s|] == s;
  }

  /** A sequence without repetitions is its own Dedup. */
  lemma {:induction false} DedupOfDistinct(s: seq<string>)
    requires Distinct(s)
    ensures Dedup(s) == s
    decreases |s|
  {
    if s != [] {
      var p := s[..|s| - 1];
      assert Distinct(p);
      DedupOfDistinct(p);
      assert s[|s| - 1] !in p;
      assert p + [s[|s| - 1]] == s;
    }
  }

  /** A sequence without repetitions has as many elements as its set. */
  lemma {:induction false} DistinctCard<T>(s: seq<T>)
    requires Distinct(s)
    ensures |set x | x in s| == |s|
    decreases |s|
  {
    if s != [] {
      var p := s[..|s| - 1];
      assert Distinct(p);
      DistinctCard(p);
      assert s[|s| - 1] !in p;
      assert (set x | x in s) == (set x | x in p) + {s[|s| - 1]};
    }
  }

  /**
   * An object: `keys` is what `Object.keys` returns, `props` holds the
   * own enumerable properties.
   */
  datatype Obj<V> = Obj(keys: seq<string>, props: map<string, V>) {

    /** Object.keys lists every own property exactly once. */
    predicate Valid() {
      && Distinct(keys)
      && (forall k :: k in keys ==> k in props)
      && (forall k :: k in props ==> k in keys)
    }

    /** The property read `o[k]`; None is `undefined`. */
    function Get(k: string): Option<V> {
      if k in props then Some(props[k]) else None
    }

    /**
     * The property assignment `o[k] = v`: a new property goes to the end of
     * the enumeration order, an existing one keeps its place.
     */
    function Put(k: string, v: V): (r: Obj<V>)
      requires Valid()
      ensures r.Valid()
    {
      if k in props then Obj(keys, props[k := v]) else Obj(keys + [k], props[k := v])
    }
  }

  /** The object literal `{}`. */
  function Empty<V>(): (r: Obj<V>)
    ensures r.Valid() && r.keys == [] && r.props == map[]
  {
    Obj([], map[])
  }

  /** An object has exactly one enumerated key per property. */
  lemma ObjSize<V>(o: Obj<V>)
    requires o.Valid()
    ensures |o.props| == |o.keys|
  {
    DistinctCard(o.keys);
    assert o.props.Keys == set x | x in o.keys;
  }

  /** The names assigned by a run of assignments, in order. */
  function KeysOf<V>(kvs: seq<(string, V)>): seq<string> {
    seq(|kvs|, i requires 0 <= i < |kvs| => kvs[i].0)
  }

  /** The assignments `o[k1] = v1; o[k2] = v2; ...` performed in order. */
  function PutEach<V>(o: Obj<V>, kvs: seq<(string, V)>): (r: Obj<V>)
    requires o.Valid()
    ensures r.Valid()
    decreases |kvs|
  {
    if kvs == [] then o
    else PutEach(o, kvs[..|kvs| - 1]).Put(kvs[|kvs| - 1].0, kvs[|kvs| - 1].1)
  }

  /** One more assignment of a run. */
  lemma PutEachStep<V>(o: Obj<V>, kvs: seq<(string, V)>, i: nat)
    requires o.Valid()
    requires i < |kvs|
    ensures PutEach(o, kvs[..i + 1]) == PutEach(o, kvs[..i]).Put(kvs[i].0, kvs[i].1)
  {
    assert kvs[..i + 1][..i] == kvs[..i];
  }

  /** After a run of assignments the properties are the old ones and the assigned ones. */
  lemma {:induction false} PutEachKeys<V>(o: Obj<V>, kvs: seq<(string, V)>)
    requires o.Valid()
    ensures forall k :: k in PutEach(o, kvs).props <==> k in o.props || k in KeysOf(kvs)
    decreases |kvs|
  {
    if kvs != [] {
      var p := kvs[..|kvs| - 1];
      PutEachKeys(o, p);
      assert KeysOf(kvs) == KeysOf(p) + [kvs[|kvs| - 1].0];
    }
  }

  /** The last assignment to a name decides its value. */
  lemma {:induction false} PutEachLastWins<V>(o: Obj<V>, kvs: seq<(string, V)>, i: nat)
    requires o.Valid()
    requires i < |kvs|
    requires forall j :: i < j < |kvs| ==> kvs[j].0 != kvs[i].0
    ensures kvs[i].0 in PutEach(o, kvs).props
    ensures PutEach(o, kvs).props[kvs[i].0] == kvs[i].1
    decreases |kvs|
  {
    if i < |kvs| - 1 {
      PutEachLastWins(o, kvs[..|kvs| - 1], i);
    }
  }

  /** A name that is never assigned keeps whatever the object had. */
  lemma {:induction false} PutEachUntouched<V>(o: Obj<V>, kvs: seq<(string, V)>, k: string)
    requires o.Valid()
    requires k !in KeysOf(kvs)
    ensures k in PutEach(o, kvs).props <==> k in o.props
    ensures k in o.props ==> PutEach(o, kvs).props[k] == o.props[k]
    decreases |kvs|
  {
    if kvs != [] {
      var p := kvs[..|kvs| - 1];
      assert KeysOf(kvs) == KeysOf(p) + [kvs[|kvs| - 1].0];
      PutEachUntouched(o, p, k);
    }
  }

  /** Every value an object ends up with was already there or was assigned. */
  lemma {:induction false} PutEachFrom<V>(o: Obj<V>, kvs: seq<(string, V)>, k: string)
    requires o.Valid()
    requires k in PutEach(o, kvs).props
    ensures (k in o.props && PutEach(o, kvs).props[k] == o.props[k])
            || exists i :: 0 <= i < |kvs| && kvs[i] == (k, PutEach(o, kvs).props[k])
    decreases |kvs|
  {
    if kvs != [] {
      var n := |kvs| - 1;
      if kvs[n].0 != k {
        PutEachFrom(o, kvs[..n], k);
        if !(k in o.props && PutEach(o, kvs).props[k] == o.props[k]) {
          var i :| 0 <= i < n && kvs[..n][i] == (k, PutEach(o, kvs[..n]).props[k]);
          assert kvs[i] == (k, PutEach(o, kvs).props[k]);
        }
      } else {
        assert kvs[n] == (k, PutEach(o, kvs).props[k]);
      }
    }
  }

  /** Enumeration order after a run of assignments: old keys, then new names in order of first assignment. */
  lemma {:induction false} PutEachOrder<V>(o: Obj<V>, kvs: seq<(string, V)>)
    requires o.Valid()
    ensures PutEach(o, kvs).keys == Dedup(o.keys + KeysOf(kvs))
    decreases |kvs|
  {
    if kvs == [] {
      assert o.keys + KeysOf(kvs) == o.keys;
      DedupOfDistinct(o.keys);
    } else {
      var n := |kvs| - 1;
      var p := kvs[..n];
      var (k, v) := kvs[n];
      assert kvs == p + [(k, v)];
      PutEachOrder(o, p);
      PutEachKeys(o, p);
      PutEachSnoc(o, p, k, v);
      AppendAssoc(o.keys, KeysOf(p), [k]);
      PutOrder(PutEach(o, p), k, v, o.keys + KeysOf(p));
    }
  }

  /** `PutEach` and `KeysOf` at one more assignment. */
  lemma PutEachSnoc<V>(o: Obj<V>, kvs: seq<(string, V)>, k: string, v: V)
    requires o.Valid()
    ensures PutEach(o, kvs + [(k, v)]) == PutEach(o, kvs).Put(k, v)
    ensures KeysOf(kvs + [(k, v)]) == KeysOf(kvs) + [k]
  {
    assert (kvs + [(k, v)])[..|kvs|] == kvs;
  }

  /** Assigning a name not yet present appends it to the enumeration order. */
  lemma PutOrder<V>(o: Obj<V>, k: string, v: V, s: seq<string>)
    requires o.Valid()
    requires o.keys == Dedup(s)
    requires k in o.props <==> k in s
    ensures o.Put(k, v).keys == Dedup(s + [k])
  {
    DedupSnoc(s, k);
  }

  /** Two runs of assignments are one run over their concatenation. */
  lemma {:induction false} PutEachAppend<V>(o: Obj<V>, a: seq<(string, V)>, b: seq<(string, V)>)
    requires o.Valid()
    ensures PutEach(PutEach(o, a), b) == PutEach(o, a + b)
    decreases |b|
  {
    if b == [] {
      assert a + b == a;
    } else {
      var n := |b| - 1;
      var (k, v) := b[n];
      assert b == b[..n] + [(k, v)];
      PutEachAppend(o, a, b[..n]);
      AppendAssoc(a, b[..n], [(k, v)]);
      PutEachSnoc(o, a + b[..n], k, v);
      PutEachSnoc(PutEach(o, a), b[..n], k, v);
    }
  }

}
