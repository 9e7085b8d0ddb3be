/** The Python string operations the exporter applies to property keys:
    `sub in s`, `s.count(c)`, `s.split(c)` and `s.replace(sub, '')`. */
module PyStr {

  /** `s.count(c)` for a one-character `c`. */
  function Count(s: string, c: char): (n: nat)
    ensures n <= |s|
    ensures n == 0 <==> c !in s
  {
    if s == [] then 0 else (if s[0] == c then 1 else 0) + Count(s[1..], c)
  }

  /** `p in s`: `p` occurs in `s` at some position. */
  predicate Contains(s: string, p: string)
  {
    p <= s || (s != [] && Contains(s[1..], p))
  }

  /** `s.split(c)`: the pieces between occurrences of `c`. */
  function Split(s: string, c: char): (r: seq<string>)
    ensures |r| == Count(s, c) + 1
    ensures forall k :: 0 <= k < |r| ==> c !in r[k]
  {
    if s == [] then [""]
    else
      var rest := Split(s[1..], c);
      if s[0] == c then [""] + rest
      else [[s[0]] + rest[0]] + rest[1..]
  }

  /** `s.replace(p, '')`: every occurrence of `p` found scanning left to
      right is removed; text that comes together after a removal is not
      scanned again. */
  function RemoveAll(s: string, p: string): (r: string)
    requires p != []
    ensures |r| <= |s|
  {
    if s == [] then s
    else if p <= s then RemoveAll(s[|p|..], p)
    else [s[0]] + RemoveAll(s[1..], p)
  }

  /** A piece free of `c` followed by `c` splits off as the first piece. */
  lemma {:induction false} SplitAfterPiece(a: string, c: char, rest: string)
    requires c !in a
    ensures Split(a + [c] + rest, c) == [a] + Split(rest, c)
  {
    if a == [] {
      assert a + [c] + rest == [c] + rest;
      assert ([c] + rest)[1..] == rest;
    } else {
      assert (a + [c] + rest)[1..] == a[1..] + [c] + rest;
      SplitAfterPiece(a[1..], c, rest);
      assert [a[0]] + a[1..] == a;
    }
  }

  /** A string free of `c` splits into itself. */
  lemma {:induction false} SplitNone(a: string, c: char)
    requires c !in a
    ensures Split(a, c) == [a]
  {
    if a != [] {
      SplitNone(a[1..], c);
      assert [a[0]] + a[1..] == a;
    }
  }

  lemma {:induction false} CountAppend(a: string, b: string, c: char)
    ensures Count(a + b, c) == Count(a, c) + Count(b, c)
  {
    if a != [] {
      assert (a + b)[0] == a[0];
      assert (a + b)[1..] == a[1..] + b;
      CountAppend(a[1..], b, c);
      assert Count(a + b, c) == (if a[0] == c then 1 else 0) + Count(a[1..] + b, c);
    } else {
      assert a + b == b;
    }
  }

  /** A pattern that holds a character the text lacks never occurs in it. */
  lemma {:induction false} NotContainsMissingChar(s: string, p: string, c: char)
    requires c in p && c !in s
    ensures !Contains(s, p)
  {
    if s != [] {
      NotContainsMissingChar(s[1..], p, c);
    }
  }

  /** Removing a pattern that does not occur leaves the text as it was. */
  lemma {:induction false} RemoveAbsent(s: string, p: string)
    requires p != [] && !Contains(s, p)
    ensures RemoveAll(s, p) == s
  {
    if s != [] {
      RemoveAbsent(s[1..], p);
      assert [s[0]] + s[1..] == s;
    }
  }

  /** `T + c` is a prefix of `A + [c] + B`, where neither `A` nor `T` holds
      `c`, exactly when `A` is `T`. */
  lemma {:induction false} PrefixAtSeparator(t: string, a: string, b: string, c: char)
    requires c !in t && c !in a
    ensures t + [c] <= a + [c] + b <==> a == t
  {
    var s := a + [c] + b;
    if a == [] {
      assert s[0] == c;
      assert t != [] ==> (t + [c])[0] == t[0] != c;
    } else if t == [] {
      assert s[0] == a[0] != c;
    } else {
      PrefixAtSeparator(t[1..], a[1..], b, c);
      assert s == [a[0]] + (a[1..] + [c] + b);
      assert t + [c] == [t[0]] + (t[1..] + [c]);
      assert a == [a[0]] + a[1..] && t == [t[0]] + t[1..];
      PrefixCons(t[0], t[1..] + [c], a[0], a[1..] + [c] + b);
    }
  }

  lemma PrefixCons(x: char, xs: string, y: char, ys: string)
    ensures [x] + xs <= [y] + ys <==> x == y && xs <= ys
  {
    assert |xs| <= |ys| ==> ([y] + ys)[..|xs| + 1] == [y] + ys[..|xs|];
    if [x] + xs <= [y] + ys {
      assert [x] + xs == [y] + ys[..|xs|];
      assert xs == ([x] + xs)[1..] == ys[..|xs|];
    }
  }

  /** The pattern `T + c` occurs in `A + [c] + B`, where none of `A`, `B`
      and `T` holds `c` and `T` is not empty, exactly when `A` ends with
      `T`; removing it then leaves `A` without that ending, followed by `B`. */
  lemma {:induction false} OneSeparator(t: string, a: string, b: string, c: char)
    requires t != [] && c !in t && c !in a && c !in b
    ensures Contains(a + [c] + b, t + [c]) <==> |t| <= |a| && a[|a| - |t|..] == t
    ensures Contains(a + [c] + b, t + [c]) ==>
              RemoveAll(a + [c] + b, t + [c]) == a[..|a| - |t|] + b
  {
    var s := a + [c] + b;
    var p := t + [c];
    PrefixAtSeparator(t, a, b, c);
    if a == [] {
      assert s[1..] == b;
      NotContainsMissingChar(b, p, c);
      assert !(p <= s) by { assert s[0] == c && p[0] == t[0]; }
    } else {
      assert s[1..] == a[1..] + [c] + b;
      OneSeparator(t, a[1..], b, c);
      var ends := |t| <= |a| && a[|a| - |t|..] == t;
      var endsTail := |t| <= |a| - 1 && a[1..][|a| - 1 - |t|..] == t;
      assert ends <==> a == t || endsTail by {
        if endsTail { assert a[|a| - |t|..] == a[1..][|a| - 1 - |t|..]; }
        if ends && a != t { assert a[1..][|a| - 1 - |t|..] == a[|a| - |t|..]; }
      }
      if p <= s {
        assert a == t;
        assert s[|p|..] == b;
        NotContainsMissingChar(b, p, c);
        RemoveAbsent(b, p);
      } else if Contains(s, p) {
        assert endsTail;
        assert RemoveAll(s, p) == [a[0]] + RemoveAll(s[1..], p);
        assert [a[0]] + a[1..][..|a| - 1 - |t|] == a[..|a| - |t|];
      }
    }
  }
}
