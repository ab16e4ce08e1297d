/** Directory listings in the order Python sorts them: strings compared code
    point by code point, a proper prefix first. */
module Names {
  import opened Tree

  /** `a` sorts before or equal to `b`. */
  predicate Below(a: Name, b: Name)
  {
    |a| == 0 || (|b| != 0 && (a[0] < b[0] || (a[0] == b[0] && Below(a[1..], b[1..]))))
  }

  lemma BelowAntisymmetric(a: Name, b: Name)
    requires Below(a, b) && Below(b, a)
    ensures a == b
  {
    if |a| != 0 && |b| != 0 {
      BelowAntisymmetric(a[1..], b[1..]);
      assert a == [a[0]] + a[1..] && b == [b[0]] + b[1..];
    }
  }

  lemma BelowTransitive(a: Name, b: Name, c: Name)
    requires Below(a, b) && Below(b, c)
    ensures Below(a, c)
  {
    if |a| != 0 && |b| != 0 && |c| != 0 && a[0] == b[0] == c[0] {
      BelowTransitive(a[1..], b[1..], c[1..]);
    }
  }

  lemma BelowTotal(a: Name, b: Name)
    ensures Below(a, b) || Below(b, a)
  {
    if |a| != 0 && |b| != 0 && a[0] == b[0] {
      BelowTotal(a[1..], b[1..]);
    }
  }

  /** `m` is in `s` and sorts before or equal to every name of `s`. */
  predicate IsLeast(m: Name, s: set<Name>)
  {
    m in s && forall x :: x in s ==> Below(m, x)
  }

  /** Adding `y` to a set whose least name is `m` leaves `m` or `y` least. */
  lemma LeastWithOneMore(s: set<Name>, y: Name, m: Name)
    requires y in s && IsLeast(m, s - {y})
    ensures IsLeast(m, s) || IsLeast(y, s)
  {
    BelowTotal(m, y);
    BelowTotal(y, y);
    if !Below(m, y) {
      forall x | x in s && x != y
        ensures Below(y, x)
      {
        BelowTransitive(y, m, x);
      }
    }
  }

  /** Every finite non-empty set of names has a least element. */
  lemma {:induction false} LeastExists(s: set<Name>)
    requires s != {}
    ensures exists m :: IsLeast(m, s)
  {
    var y :| y in s;
    if s == {y} {
      BelowTotal(y, y);
      assert IsLeast(y, s);
    } else {
      LeastExists(s - {y});
      var m :| IsLeast(m, s - {y});
      LeastWithOneMore(s, y, m);
    }
  }

  /** The first name of `s` in sorted order. */
  function Least(s: set<Name>): (m: Name)
    requires s != {}
    ensures m in s
    ensures forall x :: x in s ==> Below(m, x)
  {
    LeastExists(s);
    assert forall a, b :: a in s && b in s && Below(a, b) && Below(b, a) ==> a == b by {
      forall a, b | a in s && b in s && Below(a, b) && Below(b, a) ensures a == b {
        BelowAntisymmetric(a, b);
      }
    }
    var m :| IsLeast(m, s);
    m
  }

  /** Names in ascending order, no name twice. */
  predicate Ascending(names: seq<Name>)
  {
    forall i, j :: 0 <= i < j < |names| ==> Below(names[i], names[j]) && names[i] != names[j]
  }

  /** The listing of a set of names as `sorted()` produces it. */
  function Sorted(s: set<Name>): (names: seq<Name>)
    ensures forall n :: n in names <==> n in s
    ensures |names| == |s|
    ensures Ascending(names)
    decreases |s|
  {
    if s == {} then []
    else
      var m := Least(s);
      [m] + Sorted(s - {m})
  }

  /** Keeping the first name of an ascending listing in front of names drawn,
      in ascending order, from the rest of it keeps the result ascending. */
  lemma AscendingPrepend(names: seq<Name>, rest: seq<Name>)
    requires names != [] && Ascending(names) && Ascending(rest)
    requires forall n :: n in rest ==> n in names[1..]
    ensures Ascending([names[0]] + rest)
  {
    forall j | 0 <= j < |rest|
      ensures Below(names[0], rest[j]) && names[0] != rest[j]
    {
      assert rest[j] in names[1..];
      var k :| 0 <= k < |names[1..]| && names[1..][k] == rest[j];
      assert names[k + 1] == rest[j];
    }
    var r := [names[0]] + rest;
    forall i, j | 0 <= i < j < |r|
      ensures Below(r[i], r[j]) && r[i] != r[j]
    {
      if i > 0 {
        assert r[i] == rest[i - 1] && r[j] == rest[j - 1];
      } else {
        assert r[j] == rest[j - 1];
      }
    }
  }

  lemma AscendingIsDistinct(names: seq<Name>)
    requires Ascending(names)
    ensures Distinct(names)
  {
  }
}
