/**
 * The handful of Python `str` operations the recon modules rely on, written
 * out over `seq<char>`: strip, lower/upper, startswith/endswith, substring
 * membership, split on one character, join, replace, padding and decimal
 * rendering of naturals.
 */
module Text {

  /**
   * The ASCII characters Python's `str.isspace()` accepts, which `strip()`
   * and `split()` treat as whitespace: blank, tab, line feed, vertical tab,
   * form feed, carriage return and the four separators 0x1C to 0x1F.
   */
  predicate IsSpace(c: char)
  {
    c == ' ' || '\t' <= c <= '\r' || '\U{1C}' <= c <= '\U{1F}'
  }

  /** A string with no whitespace at either end. */
  predicate Stripped(s: string)
  {
    s == [] || (!IsSpace(s[0]) && !IsSpace(s[|s| - 1]))
  }

  function TrimRight(s: string): (r: string)
    ensures |r| <= |s| && r == s[..|r|]
    ensures r == [] || !IsSpace(r[|r| - 1])
    decreases |s|
  {
    if |s| > 0 && IsSpace(s[|s| - 1]) then TrimRight(s[..|s| - 1]) else s
  }

  /** Python's `s.strip()`: drop leading whitespace, then trailing whitespace. */
  function Strip(s: string): (r: string)
    ensures Stripped(r)
    ensures |r| <= |s|
    decreases |s|
  {
    if |s| > 0 && IsSpace(s[0]) then Strip(s[1..])
    else
      var t := TrimRight(s);
      assert t == [] || !IsSpace(t[0]) by { if t != [] { assert t[0] == s[0]; } }
      t
  }

  /** Stripping a stripped string changes nothing. */
  lemma StripStripped(s: string)
    requires Stripped(s)
    ensures Strip(s) == s
  {
  }

  function LowerChar(c: char): char
  {
    if 'A' <= c <= 'Z' then (c as int + 32) as char else c
  }

  function UpperChar(c: char): char
  {
    if 'a' <= c <= 'z' then (c as int - 32) as char else c
  }

  /** Python's `s.lower()` on the ASCII letters. */
  function Lower(s: string): (r: string)
    ensures |r| == |s|
  {
    if s == [] then [] else [LowerChar(s[0])] + Lower(s[1..])
  }

  lemma {:induction false} LowerAt(s: string, i: int)
    requires 0 <= i < |s|
    ensures Lower(s)[i] == LowerChar(s[i])
  {
    if i > 0 { LowerAt(s[1..], i - 1); }
  }

  /** Python's `s.upper()` on the ASCII letters. */
  function Upper(s: string): (r: string)
    ensures |r| == |s|
  {
    if s == [] then [] else [UpperChar(s[0])] + Upper(s[1..])
  }

  /** Upper-casing never brings in a line break. */
  lemma {:induction false} UpperNoBreak(s: string)
    requires '\n' !in s
    ensures '\n' !in Upper(s)
    decreases |s|
  {
    if s != [] {
      assert s[0] in s;
      assert forall c :: c in s[1..] ==> c in s;
      UpperNoBreak(s[1..]);
    }
  }

  /** Upper-casing a string without ASCII lower-case letters changes nothing. */
  lemma {:induction false} UpperOfUpper(s: string)
    requires forall i :: 0 <= i < |s| ==> !('a' <= s[i] <= 'z')
    ensures Upper(s) == s
  {
    if s != [] { UpperOfUpper(s[1..]); }
  }

  ghost predicate IsLower(s: string)
  {
    forall i :: 0 <= i < |s| ==> LowerChar(s[i]) == s[i]
  }

  /** Lower-casing yields a lower-case string and keeps it stripped. */
  lemma LowerOfStripped(s: string)
    requires Stripped(s)
    ensures IsLower(Lower(s)) && Stripped(Lower(s))
  {
    forall i | 0 <= i < |s| ensures LowerChar(Lower(s)[i]) == Lower(s)[i] { LowerAt(s, i); }
    if s != [] {
      LowerAt(s, 0);
      LowerAt(s, |s| - 1);
    }
  }

  /** Lower-casing a lower-case string changes nothing. */
  lemma LowerOfLower(s: string)
    requires IsLower(s)
    ensures Lower(s) == s
  {
    forall i | 0 <= i < |s| ensures Lower(s)[i] == s[i] { LowerAt(s, i); }
  }

  /** `url.startswith(('http://', 'https://'))`. */
  predicate HasScheme(url: string)
  {
    StartsWith(url, "http://") || StartsWith(url, "https://")
  }

  /** The filter every URL-preparation loop applies to a stripped line: non-empty, not a comment, with a dot. */
  predicate IsHostLine(url: string)
  {
    url != [] && url[0] != '#' && '.' in url
  }

  lemma StartsWithConcat(p: string, s: string)
    ensures StartsWith(p + s, p)
  {
    assert (p + s)[..|p|] == p;
  }

  /** A non-blank prefix keeps a stripped target line a stripped target line. */
  lemma PrefixedHostLine(p: string, url: string)
    requires IsHostLine(url) && Stripped(url)
    requires p != [] && p[0] != '#' && !IsSpace(p[0])
    ensures IsHostLine(p + url) && Stripped(p + url)
  {
    var i :| 0 <= i < |url| && url[i] == '.';
    assert (p + url)[|p| + i] == '.';
    assert (p + url)[|p + url| - 1] == url[|url| - 1];
  }

  /** `name.endswith(('.png', '.jpg'))`. */
  predicate IsImage(name: string)
  {
    EndsWith(name, ".png") || EndsWith(name, ".jpg")
  }

  predicate StartsWith(s: string, p: string)
  {
    |p| <= |s| && s[..|p|] == p
  }

  predicate EndsWith(s: string, p: string)
  {
    |p| <= |s| && s[|s| - |p|..] == p
  }

  /** `sub` occurs in `s` starting at index `i`. */
  predicate OccursAt(s: string, sub: string, i: int)
  {
    0 <= i <= |s| - |sub| && s[i..i + |sub|] == sub
  }

  /** Python's `sub in s` for strings. */
  predicate Contains(s: string, sub: string)
  {
    exists i | 0 <= i <= |s| - |sub| :: OccursAt(s, sub, i)
  }

  lemma ContainsInfix(a: string, sub: string, b: string)
    ensures Contains(a + sub + b, sub)
  {
    var s := a + sub + b;
    assert OccursAt(s, sub, |a|);
  }

  /** Index of the first occurrence of `c` (Python `s.find(c)` when present). */
  function IndexOf(s: string, c: char): (i: nat)
    requires c in s
    ensures i < |s| && s[i] == c && c !in s[..i]
  {
    if s[0] == c then 0 else IndexOf(s[1..], c) + 1
  }

  /** Python's `s.find(c)`: the first index of `c`, or -1. */
  function Find(s: string, c: char): (i: int)
    ensures c in s ==> 0 <= i < |s| && s[i] == c && c !in s[..i]
    ensures c !in s ==> i == -1
  {
    if c in s then IndexOf(s, c) else -1
  }

  /** Python's slice `s[i:j]` for indices that are already within `0..|s|`. */
  function Slice(s: string, i: nat, j: nat): (r: string)
    requires i <= |s| && j <= |s|
    ensures i <= j ==> r == s[i..j]
    ensures j < i ==> r == []
  {
    if i <= j then s[i..j] else []
  }

  /** Python's `s.split(c)` for a one-character separator. */
  function Split(s: string, c: char): (r: seq<string>)
    ensures |r| >= 1
    ensures forall k :: 0 <= k < |r| ==> c !in r[k]
    decreases |s|
  {
    if c in s then
      var i := IndexOf(s, c);
      [s[..i]] + Split(s[i + 1..], c)
    else [s]
  }

  /** The text before the first `c` (all of `s` when there is none). */
  function Before(s: string, c: char): (r: string)
    ensures c !in r && StartsWith(s, r)
    ensures c in s ==> |r| < |s| && s[|r|] == c
  {
    if c in s then s[..IndexOf(s, c)] else s
  }

  /** The text after the first `c`. */
  function After(s: string, c: char): (r: string)
    requires c in s
    ensures s == Before(s, c) + [c] + r
  {
    s[IndexOf(s, c) + 1..]
  }

  /** `s.split(c)[0]` is the text before the first separator. */
  lemma SplitFirst(s: string, c: char)
    ensures Split(s, c)[0] == Before(s, c)
  {
  }

  /** `s.split(c)[1]` exists when `c` occurs and is the text between the first two separators. */
  lemma SplitSecond(s: string, c: char)
    requires c in s
    ensures |Split(s, c)| >= 2 && Split(s, c)[1] == Before(After(s, c), c)
  {
    SplitFirst(After(s, c), c);
  }

  function Join(parts: seq<string>, sep: string): (r: string)
    ensures parts == [] ==> r == []
    ensures |parts| == 1 ==> r == parts[0]
  {
    if parts == [] then []
    else if |parts| == 1 then parts[0]
    else parts[0] + sep + Join(parts[1..], sep)
  }

  /** Joining the pieces of a split with the separator gives back the text. */
  lemma {:induction false} JoinSplit(s: string, c: char)
    ensures Join(Split(s, c), [c]) == s
    decreases |s|
  {
    if c in s {
      var i := IndexOf(s, c);
      var rest := s[i + 1..];
      var parts := Split(rest, c);
      assert Split(s, c) == [s[..i]] + parts;
      JoinSplit(rest, c);
      assert ([s[..i]] + parts)[0] == s[..i];
      assert ([s[..i]] + parts)[1..] == parts;
      assert Join([s[..i]] + parts, [c]) == s[..i] + [c] + Join(parts, [c]);
      assert s == s[..i] + [c] + rest;
    }
  }

  /** Python's `s.replace(pat, rep)`: every non-overlapping occurrence, left to right. */
  function Replace(s: string, pat: string, rep: string): string
    requires pat != []
    decreases |s|
  {
    if |s| < |pat| then s
    else if s[..|pat|] == pat then rep + Replace(s[|pat|..], pat, rep)
    else [s[0]] + Replace(s[1..], pat, rep)
  }

  /** An occurrence at the front is replaced and the rest is replaced on its own. */
  lemma ReplaceFront(pat: string, rest: string, rep: string)
    requires pat != []
    ensures Replace(pat + rest, pat, rep) == rep + Replace(rest, pat, rep)
  {
    assert (pat + rest)[..|pat|] == pat && (pat + rest)[|pat|..] == rest;
  }

  /** A first character that does not start an occurrence is kept. */
  lemma ReplaceKeeps(c: char, rest: string, pat: string, rep: string)
    requires pat != [] && pat[0] != c
    ensures Replace([c] + rest, pat, rep) == [c] + Replace(rest, pat, rep)
  {
    var s := [c] + rest;
    if |s| >= |pat| {
      assert s[..|pat|][0] != pat[0];
    }
    assert s[1..] == rest;
  }

  /**
   * A head that holds no first character of the pattern passes through
   * unchanged, and replacing goes on in the rest on its own.
   */
  lemma {:induction false} ReplaceKeepsHead(head: string, rest: string, pat: string, rep: string)
    requires pat != [] && pat[0] !in head
    ensures Replace(head + rest, pat, rep) == head + Replace(rest, pat, rep)
    decreases |head|
  {
    if head == [] {
      assert head + rest == rest;
    } else {
      var r := Replace(rest, pat, rep);
      ReplaceKeepsHead(head[1..], rest, pat, rep);
      assert head[0] in head;
      ReplaceKeeps(head[0], head[1..] + rest, pat, rep);
      assert head + rest == [head[0]] + (head[1..] + rest);
      assert [head[0]] + (head[1..] + r) == head + r;
    }
  }

  /** Replacing an absent pattern changes nothing. */
  lemma {:induction false} ReplaceAbsent(s: string, pat: string, rep: string)
    requires pat != [] && !Contains(s, pat)
    ensures Replace(s, pat, rep) == s
    decreases |s|
  {
    if |s| >= |pat| {
      assert !OccursAt(s, pat, 0);
      assert !Contains(s[1..], pat) by {
        if Contains(s[1..], pat) {
          var t := s[1..];
          var i :| OccursAt(t, pat, i);
          assert OccursAt(t, pat, i);
          assert s[i + 1..i + 1 + |pat|] == t[i..i + |pat|];
          assert OccursAt(s, pat, i + 1);
        }
      }
      ReplaceAbsent(s[1..], pat, rep);
    }
  }

  /** Deleting a pattern never lengthens the text, and shortens it by at least the pattern when it occurs. */
  lemma {:induction false} ReplaceDeletes(s: string, pat: string)
    requires pat != []
    ensures |Replace(s, pat, [])| <= |s|
    ensures Contains(s, pat) ==> |Replace(s, pat, [])| <= |s| - |pat|
    decreases |s|
  {
    if |s| >= |pat| {
      if s[..|pat|] == pat {
        ReplaceDeletes(s[|pat|..], pat);
      } else {
        ReplaceDeletes(s[1..], pat);
        if Contains(s, pat) {
          var i :| 0 <= i <= |s| - |pat| && OccursAt(s, pat, i);
          assert i != 0;
          assert OccursAt(s[1..], pat, i - 1) by {
            assert s[1..][i - 1..i - 1 + |pat|] == s[i..i + |pat|];
          }
        }
      }
    }
  }

  function Spaces(n: nat): (r: string)
    ensures |r| == n && forall i :: 0 <= i < n ==> r[i] == ' '
  {
    if n == 0 then [] else [' '] + Spaces(n - 1)
  }

  function Repeat(c: char, n: nat): (r: string)
    ensures |r| == n && forall i :: 0 <= i < n ==> r[i] == c
  {
    if n == 0 then [] else [c] + Repeat(c, n - 1)
  }

  /** Python's `f"{s:<w}"`: `s` padded on the right with spaces to width `w`. */
  function PadRight(s: string, w: nat): (r: string)
    ensures StartsWith(r, s)
    ensures |r| == if |s| < w then w else |s|
  {
    if |s| < w then s + Spaces(w - |s|) else s
  }

  /** Python's `f"{n:3d}"` and friends: the decimal digits of `n`, right-aligned to width `w`. */
  function PadLeft(s: string, w: nat): (r: string)
    ensures EndsWith(r, s)
    ensures |r| == if |s| < w then w else |s|
  {
    if |s| < w then Spaces(w - |s|) + s else s
  }

  function DigitChar(d: nat): char
    requires d < 10
  {
    ['0', '1', '2', '3', '4', '5', '6', '7', '8', '9'][d]
  }

  /** Python's `str(n)` for a natural number. */
  function NatToString(n: nat): (r: string)
    ensures |r| >= 1
    decreases n
  {
    if n < 10 then [DigitChar(n)] else NatToString(n / 10) + [DigitChar(n % 10)]
  }
}
