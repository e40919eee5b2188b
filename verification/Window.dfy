/** Small arithmetic, associativity, and the window [a, a + n) of a sequence, cut off at both ends. */
module Windows {

  function Clamp(x: int, lo: int, hi: int): (r: int)
    requires lo <= hi
  {
    if x < lo then lo else if x > hi then hi else x
  }

  function Window<T>(s: seq<T>, a: int, n: int): (r: seq<T>) {
    var lo := Clamp(a, 0, |s|);
    s[lo..Clamp(a + n, lo, |s|)]
  }

  function Max(a: int, b: int): int { if a < b then b else a }

  function Min(a: int, b: int): int { if a < b then a else b }

  lemma Assoc<T>(a: seq<T>, b: seq<T>, c: seq<T>)
    ensures a + (b + c) == (a + b) + c
  {
  }

  lemma ModOnce(x: int, n: int)
    requires 1 <= n && 0 <= x < 2 * n
    ensures x % n == if x < n then x else x - n
  {
    if x >= n {
      assert x == n * 1 + (x - n);
      assert x / n == 1;
    }
  }

  lemma WindowAt<T>(s: seq<T>, a: int, n: int)
    requires 0 <= a && 0 <= n
    ensures |Window(s, a, n)| == Max(0, Min(n, |s| - a))
    ensures forall k :: 0 <= k < |Window(s, a, n)| ==> Window(s, a, n)[k] == s[a + k]
  {
  }

  lemma WindowSnoc<T>(s: seq<T>, x: T, a: int, n: int)
    ensures Window(s + [x], a, n) == Window(s, a, n) + if a <= |s| < a + n then [x] else []
  {
    var lo, lo' := Clamp(a, 0, |s|), Clamp(a, 0, |s| + 1);
    var hi, hi' := Clamp(a + n, lo, |s|), Clamp(a + n, lo', |s| + 1);
    if a <= |s| < a + n {
      assert (s + [x])[lo..|s| + 1] == s[lo..|s|] + [x];
    } else if hi' <= |s| {
      assert (s + [x])[lo'..hi'] == s[lo'..hi'];
    }
  }

  lemma WindowOfPrefix<T>(s: seq<T>, t: seq<T>, a: int, n: int)
    requires a + n <= |s|
    ensures Window(s + t, a, n) == Window(s, a, n)
  {
    var u := s + t;
    if n > 0 {
      var lo := Clamp(a, 0, |s|);
      assert lo == Clamp(a, 0, |u|);
      assert u[lo..Clamp(a + n, lo, |s|)] == s[lo..Clamp(a + n, lo, |s|)];
    }
  }

  /** A window over a concatenation is the window over each half, the second one
      shifted by the length of the first and short of what the first supplied. */
  lemma WindowConcat<T>(s: seq<T>, t: seq<T>, a: int, n: int)
    requires 0 <= a && 0 <= n
    ensures Window(s + t, a, n) ==
            Window(s, a, n) + Window(t, Max(0, a - |s|), n - |Window(s, a, n)|)
  {
    if a > |s| {
      WindowPast(s, t, a, n);
    } else if a + n <= |s| {
      assert (s + t)[a..a + n] == s[a..a + n];
    } else {
      WindowAcross(s, t, a, n);
    }
  }

  lemma WindowPast<T>(s: seq<T>, t: seq<T>, a: int, n: int)
    requires |s| < a && 0 <= n
    ensures Window(s, a, n) == [] && Window(s + t, a, n) == Window(t, a - |s|, n)
  {
    var lo := Clamp(a - |s|, 0, |t|);
    var h := Clamp(a - |s| + n, lo, |t|);
    assert (s + t)[|s| + lo..|s| + h] == t[lo..h];
  }

  lemma WindowAcross<T>(s: seq<T>, t: seq<T>, a: int, n: int)
    requires 0 <= a <= |s| < a + n
    ensures Window(s, a, n) == s[a..] && Window(s + t, a, n) == s[a..] + Window(t, 0, a + n - |s|)
  {
    var h := Clamp(a + n, a, |s| + |t|);
    assert (s + t)[a..h] == s[a..] + t[..h - |s|];
  }
}
