/** Inserting into and removing from a sequence. */
module Sequences {
  /** The element at position i, or `none` outside the sequence. */
  ghost function At<T>(s: seq<T>, i: int, none: T): T {
    if 0 <= i < |s| then s[i] else none
  }

  lemma DropAt<T>(s: seq<T>, n: nat, i: nat)
    requires n + i < |s|
    ensures s[n..][i] == s[n + i]
  {
  }

  function Insert<T>(s: seq<T>, p: nat, x: T): (r: seq<T>)
    requires p <= |s|
    ensures |r| == |s| + 1 && r[p] == x
    ensures forall i {:trigger r[i]} :: 0 <= i < p ==> r[i] == s[i]
    ensures forall i {:trigger r[i]} :: p < i < |r| ==> r[i] == s[i - 1]
  {
    seq(|s| + 1, i requires 0 <= i <= |s| => if i < p then s[i] else if i == p then x else s[i - 1])
  }

  function Remove<T>(s: seq<T>, k: nat): (r: seq<T>)
    requires k < |s|
    ensures |r| == |s| - 1
    ensures forall i {:trigger r[i]} :: 0 <= i < k ==> r[i] == s[i]
    ensures forall i {:trigger r[i]} :: k <= i < |r| ==> r[i] == s[i + 1]
  {
    seq(|s| - 1, i requires 0 <= i < |s| - 1 => if i < k then s[i] else s[i + 1])
  }

  lemma MembersInserted<T>(s: seq<T>, p: nat, x: T)
    requires p <= |s|
    ensures forall y :: y in Insert(s, p, x) <==> y == x || y in s
  {
    forall y | y in s
      ensures y in Insert(s, p, x)
    {
      var i :| 0 <= i < |s| && s[i] == y;
      assert Insert(s, p, x)[if i < p then i else i + 1] == y;
    }
  }

  lemma MembersRemoved<T>(s: seq<T>, k: nat)
    requires k < |s|
    ensures forall y :: y in Remove(s, k) ==> y in s
    ensures forall y :: y in s && y != s[k] ==> y in Remove(s, k)
  {
    forall y | y in s && y != s[k]
      ensures y in Remove(s, k)
    {
      var i :| 0 <= i < |s| && s[i] == y;
      assert Remove(s, k)[if i < k then i else i - 1] == y;
    }
  }

  lemma InsertRemoved<T>(s: seq<T>, k: nat)
    requires k < |s|
    ensures Insert(Remove(s, k), k, s[k]) == s
  {
  }

  lemma RemoveFirst<T>(s: seq<T>)
    requires s != []
    ensures Remove(s, 0) == s[1..]
  {
  }

  lemma LastOfJoin<T>(a: seq<T>, b: seq<T>)
    requires b != []
    ensures (a + b)[..|a + b| - 1] == a + b[..|b| - 1] && (a + b)[|a + b| - 1] == b[|b| - 1]
  {
  }

  /** A property holds after every prefix of a run exactly when every step is a safe one, if a
      step from a prefix that has it keeps it exactly when the step is safe. */
  lemma PrefixIff<E>(trace: seq<E>, holds: seq<E> -> bool, safe: (seq<E>, E) -> bool)
    requires holds([])
    requires forall n :: 0 <= n < |trace| && holds(trace[..n]) ==> (holds(trace[..n + 1]) <==> safe(trace[..n], trace[n]))
    ensures (forall n :: 0 <= n <= |trace| ==> holds(trace[..n]))
       <==> (forall n :: 0 <= n < |trace| ==> safe(trace[..n], trace[n]))
  {
    if forall n :: 0 <= n < |trace| ==> safe(trace[..n], trace[n]) {
      var i := 0;
      while i < |trace|
        invariant 0 <= i <= |trace|
        invariant forall n :: 0 <= n <= i ==> holds(trace[..n])
      {
        assert safe(trace[..i], trace[i]);
        i := i + 1;
      }
    } else if forall n :: 0 <= n <= |trace| ==> holds(trace[..n]) {
      forall n | 0 <= n < |trace|
        ensures safe(trace[..n], trace[n])
      {
        assert holds(trace[..n]) && holds(trace[..n + 1]);
      }
    }
  }
}
