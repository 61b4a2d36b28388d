/** String helpers the catalogue and the movie schema share: case-insensitive substring
    search (a `$regex` with option `i` over a plain query) and JavaScript's `trim`. */
module Text {

  /** Lower-cases the ASCII letters; every other character is left alone. */
  function LowerChar(c: char): char {
    if 'A' <= c <= 'Z' then (c as int + 32) as char else c
  }

  function Fold(s: string): (r: string)
    ensures |r| == |s| && forall i :: 0 <= i < |s| ==> r[i] == LowerChar(s[i])
  {
    seq(|s|, i requires 0 <= i < |s| => LowerChar(s[i]))
  }

  /** `q` occurs in `s` starting at `i`. */
  ghost predicate OccursAt(q: string, s: string, i: int) {
    0 <= i && i + |q| <= |s| && s[i..i + |q|] == q
  }

  /** Whether `q` occurs somewhere in `s`, scanning start positions left to right. */
  function IsInfix(q: string, s: string): bool
    decreases |s|
  {
    q <= s || (s != [] && IsInfix(q, s[1..]))
  }

  /** The scan finds `q` exactly when it occurs at some position. */
  lemma {:induction false} IsInfixIff(q: string, s: string)
    ensures IsInfix(q, s) <==> exists i :: OccursAt(q, s, i)
    decreases |s|
  {
    if q <= s {
      assert s[0..|q|] == q;
      assert OccursAt(q, s, 0);
    } else if s != [] {
      IsInfixIff(q, s[1..]);
      if exists i :: OccursAt(q, s[1..], i) {
        var i :| OccursAt(q, s[1..], i);
        assert s[i + 1..i + 1 + |q|] == s[1..][i..i + |q|];
        assert OccursAt(q, s, i + 1);
      }
      if exists i :: OccursAt(q, s, i) {
        var i :| OccursAt(q, s, i);
        if i > 0 {
          assert s[1..][i - 1..i - 1 + |q|] == s[i..i + |q|];
          assert OccursAt(q, s[1..], i - 1);
        }
      }
    }
  }

  /** `title` matches the search `q` ignoring the case of ASCII letters. */
  predicate ContainsIgnoringCase(title: string, q: string) {
    IsInfix(Fold(q), Fold(title))
  }

  /** The empty search matches every title, and a title always matches itself. */
  lemma ContainsIgnoringCaseFacts(title: string, q: string)
    ensures ContainsIgnoringCase(title, "")
    ensures ContainsIgnoringCase(title, title)
    ensures ContainsIgnoringCase(title, q) ==> |q| <= |title|
  {
    IsInfixIff(Fold(q), Fold(title));
    IsInfixIff(Fold(""), Fold(title));
    IsInfixIff(Fold(title), Fold(title));
    assert OccursAt(Fold(""), Fold(title), 0);
    assert Fold(title)[0..|title|] == Fold(title);
    assert OccursAt(Fold(title), Fold(title), 0);
  }

  /** The white space and line terminators `String.prototype.trim` removes. */
  predicate IsSpace(c: char) {
    || c == '\t' || c == '\n' || c == '\U{000B}' || c == '\U{000C}' || c == '\r' || c == ' '
    || c == '\U{00A0}' || c == '\U{1680}' || ('\U{2000}' <= c <= '\U{200A}')
    || c == '\U{2028}' || c == '\U{2029}' || c == '\U{202F}' || c == '\U{205F}'
    || c == '\U{3000}' || c == '\U{FEFF}'
  }

  /** Every character of `s` is white space. */
  predicate AllSpace(s: string) {
    forall i :: 0 <= i < |s| ==> IsSpace(s[i])
  }

  /** Drops leading white space: what is left is a suffix that does not start with it. */
  function TrimStart(s: string): (r: string)
    ensures |r| <= |s| && r == s[|s| - |r|..]
    ensures AllSpace(s[..|s| - |r|])
    ensures r == [] || !IsSpace(r[0])
    decreases |s|
  {
    if s != [] && IsSpace(s[0]) then
      var r := TrimStart(s[1..]);
      assert s[..|s| - |r|] == [s[0]] + s[1..][..|s| - 1 - |r|];
      r
    else s
  }

  /** Drops trailing white space: what is left is a prefix that does not end with it. */
  function TrimEnd(s: string): (r: string)
    ensures |r| <= |s| && r == s[..|r|]
    ensures AllSpace(s[|r|..])
    ensures r == [] || !IsSpace(r[|r| - 1])
    decreases |s|
  {
    if s != [] && IsSpace(s[|s| - 1]) then
      var r := TrimEnd(s[..|s| - 1]);
      assert s[|r|..] == s[..|s| - 1][|r|..] + [s[|s| - 1]];
      r
    else s
  }

  /** `r` is `s` with the white space before position `k` and after `r` removed. */
  ghost predicate Strips(s: string, r: string, k: int) {
    && 0 <= k && k + |r| <= |s| && r == s[k..k + |r|]
    && AllSpace(s[..k])
    && AllSpace(s[k + |r|..])
  }

  /** Neither starts nor ends with white space. */
  predicate Unpadded(s: string) {
    s == [] || (!IsSpace(s[0]) && !IsSpace(s[|s| - 1]))
  }

  /** `s.trim()`. */
  function Trim(s: string): (r: string)
    ensures exists k :: Strips(s, r, k)
    ensures Unpadded(r)
  {
    var t := TrimStart(s);
    var r := TrimEnd(t);
    TrimStrips(s, t, r);
    r
  }

  /** Dropping white space from the front and then from the back strips `s`. */
  lemma TrimStrips(s: string, t: string, r: string)
    requires |t| <= |s| && t == s[|s| - |t|..] && AllSpace(s[..|s| - |t|])
    requires |r| <= |t| && r == t[..|r|] && AllSpace(t[|r|..])
    ensures Strips(s, r, |s| - |t|)
  {
    var k := |s| - |t|;
    assert r == s[k..k + |r|];
    assert s[k + |r|..] == t[|r|..];
  }

  /** Trimming a string without surrounding white space changes nothing. */
  lemma TrimUnpadded(s: string)
    requires Unpadded(s)
    ensures Trim(s) == s
  {
    assert TrimStart(s) == s;
    assert TrimEnd(s) == s;
  }

  /** Trimming a trimmed string changes nothing. */
  lemma TrimIdempotent(s: string)
    ensures Trim(Trim(s)) == Trim(s)
  {
    TrimUnpadded(Trim(s));
  }
}
