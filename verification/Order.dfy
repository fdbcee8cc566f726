/** Byte-wise order on strings, and sorting by it. */
module Order {

  predicate Less(a: string, b: string) {
    if b == [] then false
    else if a == [] then true
    else if a[0] != b[0] then a[0] < b[0]
    else Less(a[1..], b[1..])
  }

  lemma {:induction false} Trichotomy(a: string, b: string)
    ensures Less(a, b) || a == b || Less(b, a)
    ensures !(Less(a, b) && Less(b, a))
    ensures !Less(a, a)
    decreases |a|
  {
    if a != [] {
      Trichotomy(a[1..], a[1..]);
      if b != [] && a[0] == b[0] {
        Trichotomy(a[1..], b[1..]);
        assert a == [a[0]] + a[1..] && b == [b[0]] + b[1..];
      }
    }
  }

  lemma {:induction false} Transitive(a: string, b: string, c: string)
    requires Less(a, b) && Less(b, c)
    ensures Less(a, c)
  {
    if a != [] && a[0] == b[0] == c[0] {
      Transitive(a[1..], b[1..], c[1..]);
    }
  }

  predicate Increasing(s: seq<string>) {
    forall i, j | 0 <= i < j < |s| :: Less(s[i], s[j])
  }

  ghost predicate IsLeast(m: string, s: set<string>) {
    m in s && forall x | x in s && x != m :: Less(m, x)
  }

  lemma {:induction false} LeastExists(s: set<string>)
    requires s != {}
    ensures exists m :: IsLeast(m, s)
  {
    var x :| x in s;
    if s == {x} {
      assert IsLeast(x, s);
    } else {
      LeastExists(s - {x});
      var m :| IsLeast(m, s - {x});
      Trichotomy(m, x);
      if Less(m, x) {
        assert IsLeast(m, s);
      } else {
        forall y | y in s && y != x
          ensures Less(x, y)
        {
          if y != m {
            Transitive(x, m, y);
          }
        }
        assert IsLeast(x, s);
      }
    }
  }

  /** The elements of a set in increasing order. */
  ghost function Sorted(s: set<string>): (r: seq<string>)
    ensures Increasing(r)
    ensures |r| == |s|
    ensures forall x :: x in r <==> x in s
  {
    if s == {} then [] else
    LeastExists(s);
    var m :| IsLeast(m, s);
    [m] + Sorted(s - {m})
  }

  lemma IncreasingTail(a: seq<string>)
    requires Increasing(a) && a != []
    ensures Increasing(a[1..]) && a[0] !in a[1..]
    ensures forall x | x in a[1..] :: Less(a[0], x)
  {
    forall i | 0 < i < |a|
      ensures a[i] != a[0]
    {
      Trichotomy(a[0], a[i]);
    }
  }

  lemma HasElement(s: seq<string>)
    ensures s != [] ==> exists x :: x in s
  {
    if s != [] {
      assert s[0] in s;
    }
  }

  /** Only one increasing sequence has given elements. */
  lemma {:induction false} IncreasingUnique(a: seq<string>, b: seq<string>)
    requires Increasing(a) && Increasing(b)
    requires forall x :: x in a <==> x in b
    ensures a == b
  {
    if a == [] {
      HasElement(b);
    } else {
      assert a[0] in a;
      IncreasingTail(a);
      IncreasingTail(b);
      if a[0] != b[0] {
        assert b[0] in b;
        Trichotomy(a[0], b[0]);
      }
      assert a == [a[0]] + a[1..] && b == [b[0]] + b[1..];
      forall x
        ensures x in a[1..] <==> x in b[1..]
      {
        assert x in a <==> x == a[0] || x in a[1..];
        assert x in b <==> x == b[0] || x in b[1..];
      }
      IncreasingUnique(a[1..], b[1..]);
    }
  }

  lemma SortedIs(a: seq<string>, s: set<string>)
    requires Increasing(a) && forall x :: x in a <==> x in s
    ensures a == Sorted(s)
  {
    IncreasingUnique(a, Sorted(s));
  }

  lemma InsertIncreasing(s: seq<string>, x: string, i: nat)
    requires Increasing(s) && i <= |s| && x !in s
    requires forall j | 0 <= j < i :: Less(s[j], x)
    requires i < |s| ==> !Less(s[i], x)
    ensures Increasing(s[..i] + [x] + s[i..])
  {
    forall j | i <= j < |s|
      ensures Less(x, s[j])
    {
      assert s[i] in s;
      Trichotomy(x, s[i]);
      if i < j {
        Transitive(x, s[i], s[j]);
      }
    }
  }

  /** The library sort, on distinct strings. */
  method SortStrings(names: seq<string>) returns (out: seq<string>)
    requires forall i, j | 0 <= i < j < |names| :: names[i] != names[j]
    ensures Increasing(out)
    ensures forall x :: x in out <==> x in names
  {
    out := [];
    var k := 0;
    while k < |names|
      invariant 0 <= k <= |names|
      invariant Increasing(out)
      invariant forall x :: x in out <==> x in names[..k]
    {
      var x, i := names[k], 0;
      assert x !in names[..k];
      while i < |out| && Less(out[i], x)
        invariant 0 <= i <= |out|
        invariant forall j | 0 <= j < i :: Less(out[j], x)
      {
        i := i + 1;
      }
      InsertIncreasing(out, x, i);
      ghost var before := out;
      out := out[..i] + [x] + out[i..];
      assert before == before[..i] + before[i..];
      assert names[..k + 1] == names[..k] + [x];
      k := k + 1;
    }
    assert names[..k] == names;
  }
}
