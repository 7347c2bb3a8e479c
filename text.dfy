/** String operations the dashboard borrows from Python's `str`: lower-casing,
    substring containment (`q in s`), `strip()` and the default string order
    used by `sorted`. */
module Text {

  // ---------------------------------------------------------------------------
  // Case
  // ---------------------------------------------------------------------------

  /** `str.lower` on one character, restricted to the ASCII letters. */
  function LowerChar(c: char): char
  {
    if 'A' <= c <= 'Z' then (c as int + 32) as char else c
  }

  function Lower(s: string): (r: string)
    ensures |r| == |s|
    ensures forall i :: 0 <= i < |s| ==> r[i] == LowerChar(s[i])
  {
    seq(|s|, i requires 0 <= i < |s| => LowerChar(s[i]))
  }

  // ---------------------------------------------------------------------------
  // Substring containment: Python's `pat in text`
  // ---------------------------------------------------------------------------

  /** `pat` appears as a contiguous slice of `text`. */
  ghost predicate Occurs(pat: string, text: string)
  {
    exists i :: 0 <= i && OccursAt(pat, text, i)
  }

  predicate OccursAt(pat: string, text: string, i: nat)
  {
    i + |pat| <= |text| && text[i..i + |pat|] == pat
  }

  /** A text lacking one of the pattern's characters does not contain it. */
  lemma MissingCharNotOccurs(pat: string, text: string, j: nat)
    requires j < |pat| && forall k :: 0 <= k < |text| ==> text[k] != pat[j]
    ensures !Occurs(pat, text)
  {
    forall i: nat | i + |pat| <= |text| ensures !OccursAt(pat, text, i) {
      assert text[i..i + |pat|][j] == text[i + j];
    }
  }

  lemma OccursStep(pat: string, text: string)
    requires |pat| <= |text| && text[..|pat|] != pat
    ensures Occurs(pat, text) <==> Occurs(pat, text[1..])
  {
    if Occurs(pat, text) {
      var i :| 0 <= i && OccursAt(pat, text, i);
      assert i != 0;
      assert text[1..][i - 1..i - 1 + |pat|] == text[i..i + |pat|];
      assert OccursAt(pat, text[1..], i - 1);
    }
    if Occurs(pat, text[1..]) {
      var i :| 0 <= i && OccursAt(pat, text[1..], i);
      assert text[i + 1..i + 1 + |pat|] == text[1..][i..i + |pat|];
      assert OccursAt(pat, text, i + 1);
    }
  }

  /** A left-to-right search for `pat` in `text`. */
  function Contains(text: string, pat: string): (r: bool)
    ensures r <==> Occurs(pat, text)
    decreases |text|
  {
    if |pat| > |text| then false
    else if text[..|pat|] == pat then assert OccursAt(pat, text, 0); true
    else OccursStep(pat, text); Contains(text[1..], pat)
  }

  // ---------------------------------------------------------------------------
  // Whitespace and `str.strip()`
  // ---------------------------------------------------------------------------

  /** The characters for which Python's `str.isspace()` holds, which are the
      ones a bare `str.strip()` removes. */
  predicate IsSpace(c: char)
  {
    var n := c as int;
    n == 0x20 || 0x09 <= n <= 0x0D || 0x1C <= n <= 0x1F || n == 0x85 || n == 0xA0
    || n == 0x1680 || 0x2000 <= n <= 0x200A || n == 0x2028 || n == 0x2029
    || n == 0x202F || n == 0x205F || n == 0x3000
  }

  predicate AllSpace(s: string)
  {
    forall i :: 0 <= i < |s| ==> IsSpace(s[i])
  }

  /** Neither end of `s` is whitespace. */
  predicate Trimmed(s: string)
  {
    s == [] || (!IsSpace(s[0]) && !IsSpace(s[|s| - 1]))
  }

  function TrimStart(s: string): (r: string)
    ensures |r| <= |s| && r == s[|s| - |r|..]
    ensures AllSpace(s[..|s| - |r|])
    ensures r == [] || !IsSpace(r[0])
  {
    if s != [] && IsSpace(s[0]) then
      var r := TrimStart(s[1..]);
      assert s[..|s| - |r|] == [s[0]] + s[1..][..|s| - 1 - |r|];
      r
    else s
  }

  function TrimEnd(s: string): (r: string)
    ensures |r| <= |s| && r == s[..|r|]
    ensures AllSpace(s[|r|..])
    ensures r == [] || !IsSpace(r[|r| - 1])
  {
    if s != [] && IsSpace(s[|s| - 1]) then
      var r := TrimEnd(s[..|s| - 1]);
      assert s[|r|..] == s[..|s| - 1][|r|..] + [s[|s| - 1]];
      r
    else s
  }

  /** Python's `str.strip()`: the slice of `s` left after removing the
      whitespace at both ends. */
  function Strip(s: string): (r: string)
    ensures Trimmed(r)
    ensures exists i, j :: 0 <= i <= j <= |s| && r == s[i..j] && AllSpace(s[..i]) && AllSpace(s[j..])
  {
    var t := TrimStart(s);
    var r := TrimEnd(t);
    var i := |s| - |t|;
    var j := i + |r|;
    assert r == s[i..j];
    assert AllSpace(s[..i]);
    assert s[j..] == t[|r|..];
    assert AllSpace(s[j..]);
    r
  }

  /** Whitespace padding is exactly what `strip()` removes. */
  lemma {:induction false} StripPadding(front: string, body: string, back: string)
    requires AllSpace(front) && AllSpace(back) && Trimmed(body)
    ensures Strip(front + body + back) == body
  {
    assert front + body + back == front + (body + back);
    if body == [] {
      assert body + back == back;
      TrimStartPadding(front + back, []);
      assert front + back + [] == front + back;
    } else {
      TrimStartPadding(front, body + back);
      TrimEndPadding(body, back);
    }
  }

  lemma {:induction false} TrimStartPadding(front: string, rest: string)
    requires AllSpace(front) && (rest == [] || !IsSpace(rest[0]))
    ensures TrimStart(front + rest) == rest
  {
    if front != [] {
      assert (front + rest)[1..] == front[1..] + rest;
      TrimStartPadding(front[1..], rest);
    }
  }

  lemma {:induction false} TrimEndPadding(body: string, back: string)
    requires AllSpace(back) && (body == [] || !IsSpace(body[|body| - 1]))
    ensures TrimEnd(body + back) == body
  {
    if back != [] {
      assert (body + back)[..|body + back| - 1] == body + back[..|back| - 1];
      TrimEndPadding(body, back[..|back| - 1]);
    } else {
      assert body + back == body;
    }
  }

  // ---------------------------------------------------------------------------
  // Python's default string order (code point by code point) and `sorted(set)`
  // ---------------------------------------------------------------------------

  predicate Less(a: string, b: string)
    decreases |a|
  {
    if |a| == 0 then |b| > 0
    else if |b| == 0 then false
    else if a[0] != b[0] then a[0] < b[0]
    else Less(a[1..], b[1..])
  }

  lemma {:induction false} LessIrreflexive(a: string)
    ensures !Less(a, a)
  {
    if |a| > 0 { LessIrreflexive(a[1..]); }
  }

  lemma {:induction false} LessTransitive(a: string, b: string, c: string)
    requires Less(a, b) && Less(b, c)
    ensures Less(a, c)
    decreases |a|
  {
    if |a| > 0 && |b| > 0 && |c| > 0 && a[0] == b[0] == c[0] {
      LessTransitive(a[1..], b[1..], c[1..]);
    }
  }

  lemma {:induction false} LessTotal(a: string, b: string)
    requires a != b
    ensures Less(a, b) || Less(b, a)
    decreases |a|
  {
    if |a| > 0 && |b| > 0 && a[0] == b[0] {
      assert a == [a[0]] + a[1..] && b == [b[0]] + b[1..];
      LessTotal(a[1..], b[1..]);
    }
  }

  predicate StrictlySorted(s: seq<string>)
  {
    forall i, j :: 0 <= i < j < |s| ==> Less(s[i], s[j])
  }

  /** Adds `x` to a strictly sorted sequence, keeping it strictly sorted. */
  function Insert(s: seq<string>, x: string): (r: seq<string>)
    requires StrictlySorted(s)
    ensures StrictlySorted(r)
    ensures forall y :: y in r <==> y in s || y == x
  {
    if s == [] then [x]
    else if x == s[0] then s
    else if Less(x, s[0]) then
      assert forall j :: 0 <= j < |s| ==> Less(x, s[j]) by {
        forall j | 0 <= j < |s| ensures Less(x, s[j]) {
          if j > 0 { LessTransitive(x, s[0], s[j]); }
        }
      }
      [x] + s
    else
      LessTotal(x, s[0]);
      var t := Insert(s[1..], x);
      assert forall y :: y in t ==> Less(s[0], y);
      [s[0]] + t
  }

  /** `sorted(set(xs))`: the distinct elements of `xs` in ascending order. */
  function SortedDistinct(xs: seq<string>): (r: seq<string>)
    ensures StrictlySorted(r)
    ensures forall y :: y in r <==> y in xs
  {
    if xs == [] then []
    else
      var r := Insert(SortedDistinct(xs[..|xs| - 1]), xs[|xs| - 1]);
      assert xs == xs[..|xs| - 1] + [xs[|xs| - 1]];
      r
  }

  /** The first element of a strictly sorted sequence is its least one. */
  lemma HeadIsLeast(s: seq<string>, y: string)
    requires StrictlySorted(s) && y in s
    ensures y == s[0] || Less(s[0], y)
  {
  }

  lemma HasHead(s: seq<string>)
    ensures s != [] ==> s[0] in s
  {
  }

  /** A strictly sorted sequence is determined by its elements, so
      `SortedDistinct` is the only strictly sorted listing of them. */
  lemma {:induction false} SortedUnique(a: seq<string>, b: seq<string>)
    requires StrictlySorted(a) && StrictlySorted(b)
    requires forall y :: y in a <==> y in b
    ensures a == b
  {
    if a != [] && b != [] {
      var x, y := a[0], b[0];
      assert x in a && y in b;
      HeadIsLeast(b, x);
      HeadIsLeast(a, y);
      if x != y {
        LessIrreflexive(x);
        LessTransitive(x, y, x);
        assert false;
      }
      forall z ensures z in a[1..] <==> z in b[1..] {
        if z in a[1..] {
          var k :| 0 <= k < |a[1..]| && a[1..][k] == z;
          assert Less(a[0], a[k + 1]);
          if z == b[0] { LessIrreflexive(z); }
          assert z in b;
          var m :| 0 <= m < |b| && b[m] == z;
          assert m != 0;
          assert b[1..][m - 1] == z;
        }
        if z in b[1..] {
          var k :| 0 <= k < |b[1..]| && b[1..][k] == z;
          assert Less(b[0], b[k + 1]);
          if z == a[0] { LessIrreflexive(z); }
          assert z in a;
          var m :| 0 <= m < |a| && a[m] == z;
          assert m != 0;
          assert a[1..][m - 1] == z;
        }
      }
      SortedUnique(a[1..], b[1..]);
      assert a == [a[0]] + a[1..] && b == [b[0]] + b[1..];
    } else {
      HasHead(a);
      HasHead(b);
    }
  }
}
