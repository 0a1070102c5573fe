/** Finite sets of ids enumerated newest first: what a descending clustering column returns. */
module IdOrder {
  import opened TimeUuids

  predicate IsNewest(m: Id, s: set<Id>) {
    m in s && forall x <- s :: x == m || Less(x, m)
  }

  lemma {:induction false} NewestExists(s: set<Id>)
    requires s != {}
    ensures exists m :: IsNewest(m, s)
    decreases |s|
  {
    var x :| x in s;
    if s == {x} {
      assert IsNewest(x, s);
    } else {
      var rest := s - {x};
      assert rest != {};
      NewestExists(rest);
      var m :| IsNewest(m, rest);
      assert s == rest + {x};
      assert IsNewest(if Less(m, x) then x else m, s);
    }
  }

  function Newest(s: set<Id>): (m: Id)
    requires s != {}
    ensures IsNewest(m, s)
  {
    NewestExists(s);
    var m :| m in s && IsNewest(m, s);
    m
  }

  /** Every element of `s`, newest first. */
  function Descending(s: set<Id>): seq<Id>
    decreases |s|
  {
    if s == {} then []
    else var m := Newest(s); [m] + Descending(s - {m})
  }

  lemma {:induction false} DescendingMembers(s: set<Id>)
    ensures |Descending(s)| == |s|
    ensures forall x :: x in Descending(s) <==> x in s
    decreases |s|
  {
    if s != {} {
      var m := Newest(s);
      DescendingMembers(s - {m});
      assert Descending(s) == [m] + Descending(s - {m});
    }
  }

  function FirstN<T>(s: seq<T>, n: nat): (r: seq<T>) {
    if n < |s| then s[..n] else s
  }

  lemma {:induction false} DescendingSorted(s: set<Id>, i: nat, j: nat)
    requires i < j < |Descending(s)|
    ensures Less(Descending(s)[j], Descending(s)[i])
    decreases |s|
  {
    var m := Newest(s);
    if i == 0 {
      DescendingMembers(s - {m});
      assert Descending(s)[j] == Descending(s - {m})[j - 1];
      assert Descending(s)[j] in s - {m};
    } else {
      DescendingSorted(s - {m}, i - 1, j - 1);
    }
  }

  /** When all of `a` is newer than all of `b`, their union is listed as `a` then `b`. */
  lemma {:induction false} DescendingUnion(a: set<Id>, b: set<Id>)
    requires forall x, y | x in a && y in b :: Less(y, x)
    ensures Descending(a + b) == Descending(a) + Descending(b)
    decreases |a|
  {
    if a == {} {
      assert a + b == b;
    } else {
      var m := Newest(a);
      assert Newest(a + b) == m;
      assert a + b - {m} == (a - {m}) + b;
      DescendingUnion(a - {m}, b);
    }
  }

  /** Any newest-first listing of the elements of `s` is `Descending(s)`. */
  lemma {:induction false} DescendingUnique(s: set<Id>, l: seq<Id>)
    requires forall x :: x in l <==> x in s
    requires forall i, j | 0 <= i < j < |l| :: Less(l[j], l[i])
    ensures l == Descending(s)
    decreases |l|
  {
    if l == [] {
      assert s == {};
    } else {
      assert l[0] in s;
      forall x | x in s ensures x == l[0] || Less(x, l[0]) {
        assert x in l;
      }
      var rest := s - {l[0]};
      forall x ensures x in l[1..] <==> x in rest {
        if x in l[1..] { assert x in l; }
        if x in rest { assert x in l; }
      }
      DescendingUnique(rest, l[1..]);
    }
  }

  lemma FirstNConcat<T>(a: seq<T>, b: seq<T>, n: nat)
    ensures FirstN(a + b, n) == FirstN(a, n) + FirstN(b, n - |FirstN(a, n)|)
  {
  }
}
