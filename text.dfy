/** The few Python `str` operations the core relies on, on `seq<char>`
    (one `char` per code point). */
module Text {

  /** `pat` occurs in `s` at index `i`. */
  predicate OccursAt(s: string, pat: string, i: int) {
    0 <= i && i + |pat| <= |s| && s[i..i + |pat|] == pat
  }

  /** `s.replace(pat, rep)`: scanning left to right, every occurrence of
      `pat` that does not overlap an earlier replaced one becomes `rep`. */
  function Replace(s: string, pat: string, rep: string): (r: string)
    requires pat != []
    ensures |rep| <= |pat| ==> |r| <= |s|
    ensures rep == pat ==> r == s
    decreases |s|
  {
    if |s| < |pat| then s
    else if s[..|pat|] == pat then
      assert s == s[..|pat|] + s[|pat|..];
      rep + Replace(s[|pat|..], pat, rep)
    else
      assert s == [s[0]] + s[1..];
      [s[0]] + Replace(s[1..], pat, rep)
  }

  /** A string in which the pattern does not occur is left as it is. */
  lemma {:induction false} ReplaceAbsent(s: string, pat: string, rep: string)
    requires pat != []
    requires forall i :: !OccursAt(s, pat, i)
    ensures Replace(s, pat, rep) == s
  {
    if |s| >= |pat| {
      assert !OccursAt(s, pat, 0);
      forall i ensures !OccursAt(s[1..], pat, i) {
        if OccursAt(s[1..], pat, i) {
          assert s[1..][i..i + |pat|] == s[i + 1..i + 1 + |pat|];
          assert OccursAt(s, pat, i + 1);
        }
      }
      ReplaceAbsent(s[1..], pat, rep);
    }
  }

  /** A leading occurrence is replaced and the scan resumes after it. */
  lemma ReplaceLeading(pat: string, s: string, rep: string)
    requires pat != []
    ensures Replace(pat + s, pat, rep) == rep + Replace(s, pat, rep)
  {
    assert (pat + s)[..|pat|] == pat;
    assert (pat + s)[|pat|..] == s;
  }

  /** An occurrence in the tail is an occurrence one place further on. */
  lemma OccursAtShift(s: string, pat: string, i: int)
    requires s != [] && OccursAt(s[1..], pat, i)
    ensures OccursAt(s, pat, i + 1)
  {
    assert s[1..][i..i + |pat|] == s[i + 1..i + 1 + |pat|];
  }

  /** A prefix in which no occurrence of the pattern starts is kept as it
      is, and the scan goes on with the rest. */
  lemma {:induction false} ReplaceAfterPrefix(a: string, b: string, pat: string, rep: string)
    requires pat != []
    requires forall i :: 0 <= i < |a| ==> !OccursAt(a + b, pat, i)
    ensures Replace(a + b, pat, rep) == a + Replace(b, pat, rep)
    decreases |a|
  {
    var s := a + b;
    if a == [] {
      assert s == b;
    } else if |s| >= |pat| {
      assert !OccursAt(s, pat, 0);
      assert s[..|pat|] != pat;
      var tail := s[1..];
      assert tail == a[1..] + b;
      forall i | 0 <= i < |a| - 1 ensures !OccursAt(tail, pat, i) {
        if OccursAt(tail, pat, i) {
          OccursAtShift(s, pat, i);
        }
      }
      ReplaceAfterPrefix(a[1..], b, pat, rep);
      assert Replace(s, pat, rep) == [s[0]] + Replace(tail, pat, rep);
      assert a == [a[0]] + a[1..];
    }
  }

  /** Replacing one character by another maps the string character by character. */
  lemma {:induction false} ReplaceCharwise(s: string, a: char, b: char)
    ensures |Replace(s, [a], [b])| == |s|
    ensures forall i :: 0 <= i < |s| ==> Replace(s, [a], [b])[i] == if s[i] == a then b else s[i]
  {
    if s != [] {
      ReplaceCharwise(s[1..], a, b);
      assert s[..1] == [s[0]];
      var head := if s[0] == a then b else s[0];
      assert Replace(s, [a], [b]) == [head] + Replace(s[1..], [a], [b]);
    }
  }

  /** Python's `str.isspace` for one code point. */
  predicate IsSpace(c: char) {
    var n := c as int;
    (0x09 <= n <= 0x0D) || (0x1C <= n <= 0x20) || n == 0x85 || n == 0xA0 || n == 0x1680 ||
    (0x2000 <= n <= 0x200A) || n == 0x2028 || n == 0x2029 || n == 0x202F || n == 0x205F || n == 0x3000
  }

  /** `s.lstrip()`: the longest suffix of `s` that does not start with whitespace. */
  function LStrip(s: string): (r: string)
    ensures |r| <= |s| && r == s[|s| - |r|..]
    ensures r == [] || !IsSpace(r[0])
    ensures forall i :: 0 <= i < |s| - |r| ==> IsSpace(s[i])
    decreases |s|
  {
    if s != [] && IsSpace(s[0]) then LStrip(s[1..]) else s
  }

  /** `s.rstrip()`: the longest prefix of `s` that does not end with whitespace. */
  function RStrip(s: string): (r: string)
    ensures |r| <= |s| && r == s[..|r|]
    ensures r == [] || !IsSpace(r[|r| - 1])
    ensures forall i :: |r| <= i < |s| ==> IsSpace(s[i])
    decreases |s|
  {
    if s != [] && IsSpace(s[|s| - 1]) then RStrip(s[..|s| - 1]) else s
  }

  /** `r` is the slice of `s` from `i` and everything around it is whitespace. */
  predicate TrimmedAt(s: string, r: string, i: int) {
    0 <= i <= |s| - |r| && r == s[i..i + |r|] &&
    (forall k :: 0 <= k < i ==> IsSpace(s[k])) &&
    (forall k :: i + |r| <= k < |s| ==> IsSpace(s[k]))
  }

  /** A prefix `r` of the suffix `l` of `s` that starts at `i`, with only
      whitespace before `i` and after `r` in `l`, is trimmed out of `s`. */
  lemma TrimmedOfSuffix(s: string, l: string, r: string, i: nat)
    requires i + |l| == |s| && l == s[i..] && |r| <= |l| && r == l[..|r|]
    requires forall k :: 0 <= k < i ==> IsSpace(s[k])
    requires forall j :: |r| <= j < |l| ==> IsSpace(l[j])
    ensures TrimmedAt(s, r, i)
  {
    assert r == s[i..i + |r|];
    forall k | i + |r| <= k < |s| ensures IsSpace(s[k]) {
      assert s[k] == l[k - i];
    }
  }

  /** What `lstrip` removes lies before the slice `rstrip` keeps, and what
      `rstrip` removes lies after it. */
  lemma StripSlice(s: string)
    ensures TrimmedAt(s, RStrip(LStrip(s)), |s| - |LStrip(s)|)
  {
    var l := LStrip(s);
    TrimmedOfSuffix(s, l, RStrip(l), |s| - |l|);
  }

  /** `s.strip()`: `s` without its leading and trailing whitespace. */
  function Strip(s: string): (r: string)
    ensures exists i :: TrimmedAt(s, r, i)
    ensures r == [] || (!IsSpace(r[0]) && !IsSpace(r[|r| - 1]))
  {
    StripSlice(s);
    RStrip(LStrip(s))
  }

  /** A text without surrounding whitespace is what stripping it followed by
      a space gives. */
  lemma StripTrailingSpace(t: string)
    requires t == [] || (!IsSpace(t[0]) && !IsSpace(t[|t| - 1]))
    ensures Strip(t + " ") == t
  {
    var s := t + " ";
    assert IsSpace(' ');
    if t == [] {
      assert s[1..] == [];
      assert LStrip(s) == [];
    } else {
      assert s[0] == t[0];
      assert LStrip(s) == s;
      assert s[..|s| - 1] == t;
      assert RStrip(s) == RStrip(t) == t;
    }
  }

  /** `s.startswith(p)`. */
  predicate StartsWith(s: string, p: string) {
    |p| <= |s| && s[..|p|] == p
  }

  /** `sep.join(parts)`. */
  function Join(parts: seq<string>, sep: string): (r: string)
    ensures parts != [] ==> |parts[0]| <= |r| && r[..|parts[0]|] == parts[0]
    ensures parts != [] ==> |parts[|parts| - 1]| <= |r| && r[|r| - |parts[|parts| - 1]|..] == parts[|parts| - 1]
    decreases |parts|
  {
    if |parts| == 0 then ""
    else if |parts| == 1 then parts[0]
    else Join(parts[..|parts| - 1], sep) + sep + parts[|parts| - 1]
  }

  /** Joining one more part adds the separator and the part. */
  lemma JoinSnoc(parts: seq<string>, p: string, sep: string)
    requires parts != []
    ensures Join(parts + [p], sep) == Join(parts, sep) + sep + p
  {
    assert (parts + [p])[..|parts|] == parts;
  }

  /** `a <= b` on Python strings: lexicographic order on code points, where a
      proper prefix comes first. */
  predicate LexLe(a: string, b: string)
    decreases |a|
  {
    a == [] || (b != [] && (a[0] < b[0] || (a[0] == b[0] && LexLe(a[1..], b[1..]))))
  }

  /** Any two strings are ordered one way or the other. */
  lemma {:induction false} LexLeTotal(a: string, b: string)
    ensures LexLe(a, b) || LexLe(b, a)
    decreases |a|
  {
    if a != [] && b != [] && a[0] == b[0] {
      LexLeTotal(a[1..], b[1..]);
    }
  }

  /** The order is transitive. */
  lemma {:induction false} LexLeTransitive(a: string, b: string, c: string)
    requires LexLe(a, b) && LexLe(b, c)
    ensures LexLe(a, c)
    decreases |a|
  {
    if a != [] && a[0] == b[0] && b[0] == c[0] {
      LexLeTransitive(a[1..], b[1..], c[1..]);
    }
  }
}
