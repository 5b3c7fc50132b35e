/** Python's ordering of `str` values, which is lexicographic on code points,
    and `sorted` over it. */
module LexOrder {

  /** `a <= b` on Python strings: `a` is a prefix of `b`, or it has the
      smaller character at the first position where they differ. */
  predicate LexLe(a: string, b: string)
    decreases |a|
  {
    a == [] || (b != [] && (a[0] < b[0] || (a[0] == b[0] && LexLe(a[1..], b[1..]))))
  }

  lemma {:induction false} LexLeReflexive(a: string)
    ensures LexLe(a, a)
    decreases |a|
  {
    if a != [] { LexLeReflexive(a[1..]); }
  }

  lemma {:induction false} LexLeTotal(a: string, b: string)
    ensures LexLe(a, b) || LexLe(b, a)
    decreases |a|
  {
    if a != [] && b != [] && a[0] == b[0] { LexLeTotal(a[1..], b[1..]); }
  }

  lemma {:induction false} LexLeAntisymmetric(a: string, b: string)
    requires LexLe(a, b) && LexLe(b, a)
    ensures a == b
    decreases |a|
  {
    if a != [] {
      LexLeAntisymmetric(a[1..], b[1..]);
      assert a == [a[0]] + a[1..] && b == [b[0]] + b[1..];
    }
  }

  lemma {:induction false} LexLeTransitive(a: string, b: string, c: string)
    requires LexLe(a, b) && LexLe(b, c)
    ensures LexLe(a, c)
    decreases |a|
  {
    if a != [] && a[0] == b[0] && b[0] == c[0] { LexLeTransitive(a[1..], b[1..], c[1..]); }
  }

  /** Two strings that share a prefix compare as their remainders do. */
  lemma {:induction false} LexLeCommonPrefix(p: string, a: string, b: string)
    ensures LexLe(p + a, p + b) <==> LexLe(a, b)
    decreases |p|
  {
    if p != [] {
      assert (p + a)[0] == p[0] == (p + b)[0];
      assert (p + a)[1..] == p[1..] + a;
      assert (p + b)[1..] == p[1..] + b;
      LexLeCommonPrefix(p[1..], a, b);
      assert LexLe(p + a, p + b) == LexLe(p[1..] + a, p[1..] + b);
    } else {
      assert p + a == a && p + b == b;
    }
  }

  /** Names are compared character by character, not by the number they
      carry: `frame_10.jpg` comes before `frame_2.jpg`. */
  lemma {:induction false} FrameTenBeforeFrameTwo()
    ensures LexLe("frame_10.jpg", "frame_2.jpg") && !LexLe("frame_2.jpg", "frame_10.jpg")
  {
    LexLeCommonPrefix("frame_", "10.jpg", "2.jpg");
    LexLeCommonPrefix("frame_", "2.jpg", "10.jpg");
    assert "frame_10.jpg" == "frame_" + "10.jpg";
    assert "frame_2.jpg" == "frame_" + "2.jpg";
  }

  predicate Sorted(s: seq<string>) {
    forall i, j :: 0 <= i < j < |s| ==> LexLe(s[i], s[j])
  }

  /** Inserts `x` in front of the first element it does not follow. */
  function Insert(x: string, s: seq<string>): (r: seq<string>)
    requires Sorted(s)
    ensures multiset(r) == multiset(s) + multiset{x}
    ensures Sorted(r)
    decreases |s|
  {
    if s == [] || LexLe(x, s[0]) then
      InsertFront(x, s);
      [x] + s
    else
      var rest := Insert(x, s[1..]);
      LexLeTotal(x, s[0]);
      assert s == [s[0]] + s[1..];
      InsertBehind(s[0], s[1..], x, rest);
      [s[0]] + rest
  }

  lemma {:induction false} InsertFront(x: string, s: seq<string>)
    requires Sorted(s) && (s == [] || LexLe(x, s[0]))
    ensures Sorted([x] + s)
  {
    var r := [x] + s;
    forall i, j | 0 <= i < j < |r|
      ensures LexLe(r[i], r[j])
    {
      if i == 0 {
        if j > 1 {
          assert LexLe(s[0], s[j - 1]);
          LexLeTransitive(x, s[0], s[j - 1]);
        }
      } else {
        assert r[i] == s[i - 1] && r[j] == s[j - 1];
      }
    }
  }

  lemma {:induction false} InsertBehind(h: string, t: seq<string>, x: string, rest: seq<string>)
    requires Sorted([h] + t) && LexLe(h, x) && Sorted(rest)
    requires multiset(rest) == multiset(t) + multiset{x}
    ensures Sorted([h] + rest)
  {
    var r := [h] + rest;
    forall i, j | 0 <= i < j < |r|
      ensures LexLe(r[i], r[j])
    {
      if i == 0 {
        var y := rest[j - 1];
        assert r[0] == h && r[j] == y;
        assert y in multiset(rest);
        if y == x {
        } else {
          assert y in multiset(t);
          var k :| 0 <= k < |t| && t[k] == y;
          assert ([h] + t)[0] == h && ([h] + t)[k + 1] == y;
          assert LexLe(([h] + t)[0], ([h] + t)[k + 1]);
        }
      } else {
        assert r[i] == rest[i - 1] && r[j] == rest[j - 1];
      }
    }
  }

  /** `sorted(names)`, as an insertion sort. */
  function Sort(s: seq<string>): (r: seq<string>)
    ensures Sorted(r)
    ensures multiset(r) == multiset(s)
    decreases |s|
  {
    if s == [] then [] else
      assert s == [s[0]] + s[1..];
      Insert(s[0], Sort(s[1..]))
  }

  /** The head of a sorted sequence precedes each of its elements. */
  lemma {:induction false} SortedHeadFirst(s: seq<string>, y: string)
    requires Sorted(s) && y in multiset(s)
    ensures LexLe(s[0], y)
  {
    var k :| 0 <= k < |s| && s[k] == y;
    if k == 0 { LexLeReflexive(y); }
  }

  lemma {:induction false} SortedTail(s: seq<string>)
    requires Sorted(s) && s != []
    ensures Sorted(s[1..])
  {
    forall i, j | 0 <= i < j < |s| - 1
      ensures LexLe(s[1..][i], s[1..][j])
    {
      assert s[1..][i] == s[i + 1] && s[1..][j] == s[j + 1];
    }
  }

  lemma {:induction false} MultisetTail(a: seq<string>, b: seq<string>)
    requires a != [] && b != [] && a[0] == b[0] && multiset(a) == multiset(b)
    ensures multiset(a[1..]) == multiset(b[1..])
  {
    assert a == [a[0]] + a[1..] && b == [b[0]] + b[1..];
    assert multiset(a) == multiset{a[0]} + multiset(a[1..]);
    assert multiset(b) == multiset{b[0]} + multiset(b[1..]);
    assert multiset(a[1..]) == multiset(a) - multiset{a[0]};
    assert multiset(b[1..]) == multiset(b) - multiset{b[0]};
  }

  /** A sorted rearrangement is unique, so `Sort` is exactly what any correct
      sort, Python's own included, returns. */
  lemma {:induction false} SortedUnique(a: seq<string>, b: seq<string>)
    requires Sorted(a) && Sorted(b) && multiset(a) == multiset(b)
    ensures a == b
    decreases |a|
  {
    if a != [] {
      assert a[0] in multiset(b);
      assert b != [];
      assert b[0] in multiset(a);
      SortedHeadFirst(a, b[0]);
      SortedHeadFirst(b, a[0]);
      LexLeAntisymmetric(a[0], b[0]);
      MultisetTail(a, b);
      SortedTail(a);
      SortedTail(b);
      SortedUnique(a[1..], b[1..]);
      assert a == [a[0]] + a[1..] && b == [b[0]] + b[1..];
    }
  }

}
