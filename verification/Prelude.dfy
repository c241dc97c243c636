/** Shared datatypes, and the facts about sequences and finite maps that several modules use. */
module Prelude {

  datatype Option<+T> = None | Some(value: T) {
    predicate IsFailure() {
      None?
    }

    function PropagateFailure<U>(): Option<U>
      requires None?
    {
      None
    }

    function Extract(): T
      requires Some?
    {
      value
    }
  }

  datatype Result<+T, +E> = Ok(value: T) | Err(error: E) {
    predicate IsFailure() {
      Err?
    }

    function PropagateFailure<U>(): Result<U, E>
      requires Err?
    {
      Err(error)
    }

    function Extract(): T
      requires Ok?
    {
      value
    }
  }

  predicate IsHex(c: char) {
    '0' <= c <= '9' || 'a' <= c <= 'f'
  }

  /** A lower-case hexadecimal digest of the given length; SHA-256 digests have 64 characters. */
  predicate IsDigest(s: string, size: nat := 64) {
    |s| == size && forall c <- s :: IsHex(c)
  }

  ghost predicate Injective<X(!new), Y>(f: X -> Y) {
    forall x, y :: f(x) == f(y) ==> x == y
  }

  predicate NoRepeats<T(==)>(s: seq<T>) {
    forall i, j :: 0 <= i < j < |s| ==> s[i] != s[j]
  }

  /** The elements of `s` in order, without the one at position `i`. */
  function RemoveAt<T>(s: seq<T>, i: nat): (r: seq<T>)
    requires i < |s|
    ensures |r| == |s| - 1
    ensures forall k :: 0 <= k < |r| ==> r[k] == if k < i then s[k] else s[k + 1]
  {
    s[..i] + s[i + 1..]
  }

  function Concat<T>(parts: seq<seq<T>>): seq<T> {
    if parts == [] then [] else Concat(parts[..|parts| - 1]) + parts[|parts| - 1]
  }

  /** The sum of the values of a finite map. */
  ghost function Total<K(!new)>(m: map<K, nat>): nat {
    if m == map[] then 0 else
      var k :| k in m;
      m[k] + Total(m - {k})
  }

  /** The sum does not depend on the order in which `Total` picks the keys. */
  lemma {:induction false} TotalSplit<K(!new)>(m: map<K, nat>, k: K)
    requires k in m
    ensures Total(m) == m[k] + Total(m - {k})
  {
    var j :| j in m && Total(m) == m[j] + Total(m - {j});
    if j != k {
      TotalSplit(m - {j}, k);
      TotalSplit(m - {k}, j);
      assert m - {j} - {k} == m - {k} - {j};
    }
  }

  lemma TotalAdd<K(!new)>(m: map<K, nat>, k: K, n: nat)
    requires k !in m
    ensures Total(m[k := n]) == n + Total(m)
  {
    TotalSplit(m[k := n], k);
    assert m[k := n] - {k} == m;
  }

  /** A map whose entries all occur in another one has no larger sum. */
  lemma {:induction false} TotalMonotone<K(!new)>(small: map<K, nat>, big: map<K, nat>)
    requires small.Keys <= big.Keys
    requires forall k <- small :: small[k] == big[k]
    ensures Total(small) <= Total(big)
    decreases big
  {
    if small != map[] {
      var k :| k in small;
      TotalSplit(small, k);
      TotalSplit(big, k);
      TotalMonotone(small - {k}, big - {k});
    }
  }

  /** A one-to-one table of exactly the elements of a set has as many entries as the set. */
  lemma {:induction false} TableSize<K(!new), V(!new)>(table: map<K, V>, elements: set<V>)
    requires forall k <- table :: table[k] in elements
    requires forall v <- elements :: exists k <- table :: table[k] == v
    requires forall j, k | j in table && k in table :: table[j] == table[k] ==> j == k
    ensures |table| == |elements|
  {
    if table != map[] {
      var k :| k in table;
      var rest := table - {k};
      forall v | v in elements - {table[k]} ensures exists j <- rest :: rest[j] == v {
        var j :| j in table && table[j] == v;
        assert j in rest;
      }
      TableSize(rest, elements - {table[k]});
    } else {
      assert elements == {};
    }
  }
}
