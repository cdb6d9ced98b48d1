/** Facts about finite collections used by several of the models. */
module Collections {

  datatype Option<+T> = None | Some(value: T)

  /** How many elements of s satisfy p. */
  function Count<T>(s: seq<T>, p: T -> bool): nat
  {
    if s == [] then 0 else Count(s[..|s| - 1], p) + if p(s[|s| - 1]) then 1 else 0
  }

  lemma {:induction false} CountUpdate<T>(s: seq<T>, p: T -> bool, i: nat, x: T)
    requires i < |s|
    ensures Count(s[i := x], p) + (if p(s[i]) then 1 else 0) == Count(s, p) + if p(x) then 1 else 0
  {
    var n := |s| - 1;
    if i == n {
      assert s[i := x][..n] == s[..n];
    } else {
      assert s[i := x][..n] == s[..n][i := x];
      CountUpdate(s[..n], p, i, x);
    }
  }

  /** The count reaches the length exactly when every element counts. */
  lemma {:induction false} CountAll<T>(s: seq<T>, p: T -> bool)
    ensures Count(s, p) <= |s|
    ensures Count(s, p) == |s| <==> forall i | 0 <= i < |s| :: p(s[i])
  {
    if s != [] {
      CountAll(s[..|s| - 1], p);
      assert forall i | 0 <= i < |s| - 1 :: s[..|s| - 1][i] == s[i];
    }
  }

  lemma {:induction false} CountNone<T>(s: seq<T>, p: T -> bool)
    requires forall i | 0 <= i < |s| :: !p(s[i])
    ensures Count(s, p) == 0
  {
    if s != [] {
      CountNone(s[..|s| - 1], p);
    }
  }

  lemma SubsetSize<T>(a: set<T>, b: set<T>)
    requires a <= b
    ensures |a| <= |b| && (|a| == |b| <==> a == b)
  {
    assert b == a + (b - a);
    assert |b| == |a| + |b - a|;
  }

  lemma ConcatAssociates<T>(a: seq<T>, b: seq<T>, c: seq<T>)
    ensures (a + b) + c == a + (b + c)
  {
  }

  /** x in front of the rest, if there is one. */
  function Prepend<T>(x: T, rest: Option<seq<T>>): Option<seq<T>>
  {
    match rest case None => None case Some(more) => Some([x] + more)
  }

  /** What a loop has collected in front of what it will find. */
  function AddTo<T>(found: seq<T>, rest: Option<seq<T>>): Option<seq<T>>
  {
    match rest case None => None case Some(more) => Some(found + more)
  }

  lemma AddNone<T>(rest: Option<seq<T>>)
    ensures AddTo([], rest) == rest
  {
    if rest.Some? {
      assert [] + rest.value == rest.value;
    }
  }

  lemma AddOne<T>(found: seq<T>, x: T, rest: Option<seq<T>>)
    ensures AddTo(found, Prepend(x, rest)) == AddTo(found + [x], rest)
  {
    if rest.Some? {
      ConcatAssociates(found, [x], rest.value);
    }
  }
}
