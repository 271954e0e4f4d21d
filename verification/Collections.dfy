/** Options, and sums of natural-number weights over finite sets. */
module Collections {

  datatype Option<+T> = None | Some(value: T)

  /** The sum of f over ids. */
  ghost function Sum(ids: set<string>, f: string -> nat): nat {
    if ids == {} then 0 else
    var id :| id in ids;
    f(id) + Sum(ids - {id}, f)
  }

  lemma {:induction false} SumSplit(ids: set<string>, f: string -> nat, x: string)
    requires x in ids
    ensures Sum(ids, f) == f(x) + Sum(ids - {x}, f)
    decreases |ids|
  {
    var id :| id in ids && Sum(ids, f) == f(id) + Sum(ids - {id}, f);
    if id != x {
      SumSplit(ids - {id}, f, x);
      SumSplit(ids - {x}, f, id);
      assert ids - {id} - {x} == ids - {x} - {id};
    }
  }

  /** A sum does not grow when elements leave and weights shrink. */
  lemma {:induction false} SumShrinks(small: set<string>, f: string -> nat, big: set<string>, g: string -> nat)
    requires small <= big
    requires forall id | id in small :: f(id) <= g(id)
    ensures Sum(small, f) <= Sum(big, g)
    decreases |big|
  {
    if big != {} {
      var id :| id in big;
      SumSplit(big, g, id);
      SumShrinks(small - {id}, f, big - {id}, g);
      if id in small {
        SumSplit(small, f, id);
      } else {
        assert small - {id} == small;
      }
    }
  }

  /** ... and it falls by at least the drop at any one element. */
  lemma SumDrops(small: set<string>, f: string -> nat, big: set<string>, g: string -> nat, x: string)
    requires small <= big && x in big
    requires forall id | id in small :: f(id) <= g(id)
    ensures Sum(small, f) + g(x) <= Sum(big, g) + if x in small then f(x) else 0
  {
    SumSplit(big, g, x);
    SumShrinks(small - {x}, f, big - {x}, g);
    if x in small {
      SumSplit(small, f, x);
    } else {
      assert small - {x} == small;
    }
  }

  function Each<A, B>(f: A -> B, s: seq<A>): seq<B> {
    seq(|s|, i requires 0 <= i < |s| => f(s[i]))
  }

  function Concat<T>(ss: seq<seq<T>>): seq<T> {
    if ss == [] then [] else ss[0] + Concat(ss[1..])
  }

  lemma {:induction false} ConcatAppend<T>(a: seq<seq<T>>, b: seq<seq<T>>)
    ensures Concat(a + b) == Concat(a) + Concat(b)
  {
    if a == [] {
      assert a + b == b;
    } else {
      ConcatAppend(a[1..], b);
      assert (a + b)[1..] == a[1..] + b;
      Regroup(a[0], Concat(a[1..]), Concat(b));
    }
  }

  lemma Regroup<T>(a: seq<T>, b: seq<T>, c: seq<T>)
    ensures a + (b + c) == a + b + c
  {
  }

  lemma ConcatNext<T>(ss: seq<seq<T>>, last: seq<T>)
    ensures Concat(ss + [last]) == Concat(ss) + last
  {
    ConcatAppend(ss, [last]);
    assert Concat([last]) == last;
  }

  /** The places where f holds. */
  function Places<T>(f: T -> bool, s: seq<T>): set<nat> {
    set i: nat | i < |s| && f(s[i])
  }

  lemma PlacesNext<T>(f: T -> bool, s: seq<T>, x: T)
    ensures |Places(f, s + [x])| == |Places(f, s)| + if f(x) then 1 else 0
  {
    assert Places(f, s + [x]) == if f(x) then Places(f, s) + {|s|} else Places(f, s);
  }

  lemma {:induction false} PlacesFirst<T>(f: T -> bool, x: T, s: seq<T>)
    ensures |Places(f, [x] + s)| == |Places(f, s)| + if f(x) then 1 else 0
  {
    if s == [] {
      assert [x] + s == [] + [x];
      PlacesNext(f, [], x);
    } else {
      var front, last := s[..|s| - 1], s[|s| - 1];
      PlacesFirst(f, x, front);
      PlacesNext(f, front, last);
      PlacesNext(f, [x] + front, last);
      LastApart(s);
      Regroup([x], front, [last]);
    }
  }

  /** A common tail can be cut off. */
  lemma DropTail<T>(a: seq<T>, b: seq<T>, tail: seq<T>)
    requires a + tail == b + tail
    ensures a == b
  {
    assert |a| == |b|;
    assert a == (a + tail)[..|a|] && b == (b + tail)[..|b|];
  }

  lemma SameTip<T>(a: seq<T>, x: T, b: seq<T>, y: T)
    requires a + [x] == b + [y]
    ensures x == y
  {
    assert |a| == |b|;
    assert (a + [x])[|a|] == x && (b + [y])[|b|] == y;
  }

  lemma LastApart<T>(s: seq<T>)
    requires s != []
    ensures s == s[..|s| - 1] + [s[|s| - 1]]
  {
  }

  lemma PushFront<T>(x: T, s: seq<T>)
    ensures multiset([x] + s) == multiset{x} + multiset(s)
  {
  }

  lemma FirstApart<T>(s: seq<T>)
    requires s != []
    ensures s == [s[0]] + s[1..]
  {
  }

  /** One more element further back is one more element. */
  lemma PushPast<T>(x: T, s: seq<T>, more: seq<T>, y: T)
    requires multiset(more) == multiset(s) + multiset{y}
    ensures multiset([x] + more) == multiset([x] + s) + multiset{y}
  {
    PushFront(x, more);
    PushFront(x, s);
  }

  /** Parts of parts. */
  lemma DropDrop<T>(s: seq<T>, a: nat, b: nat)
    requires a + b <= |s|
    ensures s[a..][b..] == s[a + b..]
  {
  }

  lemma DropTake<T>(s: seq<T>, a: nat, b: nat)
    requires a + b <= |s|
    ensures s[a..][..b] == s[a..a + b]
  {
  }

  lemma TakeTake<T>(s: seq<T>, a: nat, b: nat)
    requires b <= a <= |s|
    ensures s[..a][..b] == s[..b]
  {
  }

  lemma TakeDrop<T>(s: seq<T>, a: nat, b: nat)
    requires b <= a <= |s|
    ensures s[..a][b..] == s[b..a]
  {
  }

  lemma TakeSlice<T>(s: seq<T>, n: nat, a: nat, b: nat)
    requires a <= b <= n <= |s|
    ensures s[..n][a..b] == s[a..b]
  {
  }

  /** At most n elements. */
  function Upto<T>(s: seq<T>, n: nat): seq<T> {
    if n < |s| then s[..n] else s
  }

  lemma UptoNext<T>(s: seq<T>, n: nat)
    requires s != [] && n > 0
    ensures Upto(s, n) == [s[0]] + Upto(s[1..], n - 1)
  {
  }

  function Without<T>(s: seq<T>, j: nat): seq<T>
    requires j < |s|
  {
    s[..j] + s[j + 1..]
  }

  lemma TakeOut<T>(s: seq<T>, j: nat)
    requires j < |s|
    ensures multiset(s) == multiset(Without(s, j)) + multiset{s[j]}
  {
    assert s == s[..j] + [s[j]] + s[j + 1..];
  }

  /** Everything but the last element. */
  lemma TakeOutLast<T>(front: seq<T>, x: T, j: nat)
    requires j <= |front|
    ensures Without(front + [x], j) == if j == |front| then front else Without(front, j) + [x]
  {
  }

  lemma Cancel<T>(a: multiset<T>, b: multiset<T>, x: T)
    requires a + multiset{x} == b + multiset{x}
    ensures a == b
  {
    assert a == a + multiset{x} - multiset{x};
    assert b == b + multiset{x} - multiset{x};
  }

  lemma TakeOutBoth<T>(s: seq<T>, i: nat, t: seq<T>, j: nat)
    requires i < |s| && j < |t| && s[i] == t[j] && multiset(s) == multiset(t)
    ensures multiset(Without(s, i)) == multiset(Without(t, j))
  {
    TakeOut(s, i);
    TakeOut(t, j);
    Cancel(multiset(Without(s, i)), multiset(Without(t, j)), s[i]);
  }

  /** Another place of the first element, and the tails without it. */
  lemma FindFirst<T>(s: seq<T>, t: seq<T>) returns (j: nat)
    requires multiset(s) == multiset(t) && s != []
    ensures j < |t| && t[j] == s[0] && multiset(Without(s, 0)) == multiset(Without(t, j))
  {
    assert s[0] in multiset(t);
    j :| 0 <= j < |t| && t[j] == s[0];
    TakeOutBoth(s, 0, t, j);
  }

  lemma SameLength<T>(s: seq<T>, t: seq<T>)
    requires multiset(s) == multiset(t)
    ensures |s| == |t|
  {
    assert |multiset(s)| == |s| && |multiset(t)| == |t|;
  }

  lemma EachConcatAppend<A, B>(f: A -> seq<B>, a: seq<A>, b: seq<A>)
    ensures Concat(Each(f, a + b)) == Concat(Each(f, a)) + Concat(Each(f, b))
  {
    assert Each(f, a + b) == Each(f, a) + Each(f, b);
    ConcatAppend(Each(f, a), Each(f, b));
  }

  lemma EachWithout<A, B>(f: A -> B, s: seq<A>, j: nat)
    requires j < |s|
    ensures Each(f, Without(s, j)) == Without(Each(f, s), j)
  {
  }

  lemma {:induction false} EachMultiset<A, B>(f: A -> B, s: seq<A>, t: seq<A>)
    requires multiset(s) == multiset(t)
    ensures multiset(Each(f, s)) == multiset(Each(f, t))
  {
    SameLength(s, t);
    if s != [] {
      var j := FindFirst(s, t);
      EachMultiset(f, Without(s, 0), Without(t, j));
      EachWithout(f, s, 0);
      EachWithout(f, t, j);
      TakeOut(Each(f, s), 0);
      TakeOut(Each(f, t), j);
    }
  }

  /** Falling sequences of the same numbers are equal. */
  predicate Falling(s: seq<nat>) {
    forall i, j | 0 <= i < j < |s| :: s[i] >= s[j]
  }

  lemma FallingHead(s: seq<nat>, t: seq<nat>)
    requires Falling(s) && s != [] && t != [] && multiset(s) == multiset(t)
    ensures s[0] >= t[0]
  {
    assert t[0] in multiset(s);
  }

  lemma {:induction false} FallingUnique(s: seq<nat>, t: seq<nat>)
    requires Falling(s) && Falling(t) && multiset(s) == multiset(t)
    ensures s == t
  {
    SameLength(s, t);
    if s != [] {
      FallingHead(s, t);
      FallingHead(t, s);
      TakeOutBoth(s, 0, t, 0);
      assert Without(s, 0) == s[1..] && Without(t, 0) == t[1..];
      FallingUnique(s[1..], t[1..]);
    }
  }
}
