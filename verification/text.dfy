/**
 * The handful of Python `str` operations the validator relies on:
 * `lower()`, `strip()`, `split(sep)`, `startswith`, `endswith` and the
 * substring test `sub in s`. Only the ASCII behaviour is modelled.
 */
module Text {

  /** Python's `str.isspace()` restricted to ASCII: space, \t \n \v \f \r and \x1c-\x1f. */
  predicate IsSpace(c: char)
  {
    c == ' ' || (9 <= c as int <= 13) || (28 <= c as int <= 31)
  }

  predicate IsUpper(c: char)
  {
    'A' <= c <= 'Z'
  }

  /** `c.lower()` for an ASCII character. */
  function LowerChar(c: char): (r: char)
    ensures !IsUpper(r)
    ensures IsUpper(c) ==> r as int == c as int + 32
    ensures !IsUpper(c) ==> r == c
  {
    if IsUpper(c) then (c as int + 32) as char else c
  }

  predicate IsLowerCase(s: string)
  {
    forall k :: 0 <= k < |s| ==> !IsUpper(s[k])
  }

  /** `s.lower()`: every character lower-cased, nothing else changed. */
  function Lower(s: string): (r: string)
    ensures |r| == |s|
  {
    if s == [] then [] else [LowerChar(s[0])] + Lower(s[1..])
  }

  /** `Lower` works character by character, and its result has no upper-case letter. */
  lemma {:induction false} LowerPointwise(s: string)
    ensures forall k :: 0 <= k < |s| ==> Lower(s)[k] == LowerChar(s[k])
    ensures IsLowerCase(Lower(s))
  {
    if s != [] {
      LowerPointwise(s[1..]);
      assert Lower(s) == [LowerChar(s[0])] + Lower(s[1..]);
    }
  }

  /** Lower-casing a string that has no upper-case letter changes nothing. */
  lemma LowerOfLowerCase(s: string)
    requires IsLowerCase(s)
    ensures Lower(s) == s
  {
    LowerPointwise(s);
    assert forall k :: 0 <= k < |s| ==> Lower(s)[k] == s[k];
  }

  /** Lower-casing twice gives the same string as lower-casing once. */
  lemma LowerIdempotent(s: string)
    ensures Lower(Lower(s)) == Lower(s)
  {
    LowerPointwise(s);
    LowerOfLowerCase(Lower(s));
  }

  /** Leading whitespace removed (`lstrip()`). */
  function TrimStart(s: string): (r: string)
    ensures |r| <= |s|
    ensures r == [] || !IsSpace(r[0])
  {
    if |s| > 0 && IsSpace(s[0]) then TrimStart(s[1..]) else s
  }

  /** `TrimStart` keeps a suffix and drops only whitespace before it. */
  lemma {:induction false} TrimStartSuffix(s: string)
    ensures TrimStart(s) == s[|s| - |TrimStart(s)|..]
    ensures forall k :: 0 <= k < |s| - |TrimStart(s)| ==> IsSpace(s[k])
  {
    if |s| > 0 && IsSpace(s[0]) {
      TrimStartSuffix(s[1..]);
      assert s[1..][|s| - 1 - |TrimStart(s)|..] == s[|s| - |TrimStart(s)|..];
      assert forall k :: 1 <= k < |s| - |TrimStart(s)| ==> s[k] == s[1..][k - 1];
    }
  }

  /** Trailing whitespace removed (`rstrip()`). */
  function TrimEnd(s: string): (r: string)
    ensures |r| <= |s|
    ensures r == [] || !IsSpace(r[|r| - 1])
  {
    if |s| > 0 && IsSpace(s[|s| - 1]) then TrimEnd(s[..|s| - 1]) else s
  }

  /** `TrimEnd` keeps a prefix and drops only whitespace after it. */
  lemma {:induction false} TrimEndPrefix(s: string)
    ensures TrimEnd(s) == s[..|TrimEnd(s)|]
    ensures forall k :: |TrimEnd(s)| <= k < |s| ==> IsSpace(s[k])
  {
    if |s| > 0 && IsSpace(s[|s| - 1]) {
      var n := |s| - 1;
      TrimEndPrefix(s[..n]);
      assert s[..n][..|TrimEnd(s)|] == s[..|TrimEnd(s)|];
      assert forall k :: |TrimEnd(s)| <= k < n ==> s[k] == s[..n][k];
    }
  }

  predicate IsStripped(s: string)
  {
    s == [] || (!IsSpace(s[0]) && !IsSpace(s[|s| - 1]))
  }

  /** `s.strip()`: leading and trailing whitespace removed; the result is a slice of `s`. */
  function Strip(s: string): (r: string)
    ensures IsStripped(r)
    ensures |r| <= |s|
  {
    TrimEndPrefix(TrimStart(s));
    TrimEnd(TrimStart(s))
  }

  /** The stripped string is a contiguous slice of the original. */
  lemma StripIsSlice(s: string) returns (i: nat)
    ensures i + |Strip(s)| <= |s| && Strip(s) == s[i..i + |Strip(s)|]
  {
    var t := TrimStart(s);
    TrimStartSuffix(s);
    TrimEndPrefix(t);
    i := |s| - |t|;
    var r := TrimEnd(t);
    assert t == s[i..];
    assert r == t[..|r|] == s[i..i + |r|];
  }

  /** Stripping a string that is already stripped changes nothing. */
  lemma StripOfStripped(s: string)
    requires IsStripped(s)
    ensures Strip(s) == s
  {
    assert TrimStart(s) == s;
  }

  /** Stripping keeps a string lower-case. */
  lemma StripKeepsLowerCase(s: string)
    requires IsLowerCase(s)
    ensures IsLowerCase(Strip(s))
  {
    var i := StripIsSlice(s);
    var r := Strip(s);
    assert forall k :: 0 <= k < |r| ==> r[k] == s[i + k];
  }

  /** Stripping never introduces a character. */
  lemma StripKeepsOut(s: string, c: char)
    requires c !in s
    ensures c !in Strip(s)
  {
    var i := StripIsSlice(s);
    var r := Strip(s);
    assert forall k :: 0 <= k < |r| ==> r[k] == s[i + k];
  }

  /** A character that is neither an upper-case letter nor `c` itself never becomes `c`. */
  lemma LowerKeepsOut(s: string, c: char)
    requires c !in s && !IsUpper(c) && (c as int < 97 || c as int > 122)
    ensures c !in Lower(s)
  {
    var r := Lower(s);
    LowerPointwise(s);
    forall k | 0 <= k < |r|
      ensures r[k] != c
    {
      assert r[k] == LowerChar(s[k]);
    }
  }

  /** Lower-casing maps whitespace to whitespace and nothing else to whitespace. */
  lemma LowerCharSpace(c: char)
    ensures IsSpace(LowerChar(c)) == IsSpace(c)
  {
  }

  lemma {:induction false} TrimStartLower(s: string)
    ensures TrimStart(Lower(s)) == Lower(TrimStart(s))
  {
    if |s| > 0 {
      LowerCharSpace(s[0]);
      assert Lower(s)[1..] == Lower(s[1..]);
      if IsSpace(s[0]) {
        TrimStartLower(s[1..]);
      }
    }
  }

  lemma {:induction false} TrimEndLower(s: string)
    ensures TrimEnd(Lower(s)) == Lower(TrimEnd(s))
  {
    if |s| > 0 {
      var n := |s| - 1;
      LowerCharSpace(s[n]);
      LowerPointwise(s);
      LowerPointwise(s[..n]);
      assert Lower(s)[..n] == Lower(s[..n]);
      if IsSpace(s[n]) {
        TrimEndLower(s[..n]);
      }
    }
  }

  /**
   * `s.lower().strip() == s.strip().lower()`: the request normaliser lower-cases
   * first, the list loaders strip first, and the two orders agree.
   */
  lemma LowerStripCommute(s: string)
    ensures Strip(Lower(s)) == Lower(Strip(s))
  {
    TrimStartLower(s);
    TrimEndLower(TrimStart(s));
  }

  /** Python's `sub in s`. */
  function Contains(s: string, sub: string): (b: bool)
    ensures b <==> exists i :: 0 <= i <= |s| - |sub| && sub <= s[i..]
  {
    if sub <= s then
      assert sub <= s[0..];
      true
    else if s == [] then
      false
    else
      var b := Contains(s[1..], sub);
      assert forall i :: 1 <= i <= |s| - |sub| ==> s[i..] == s[1..][i - 1..];
      assert b ==> exists i :: 0 <= i <= |s| - |sub| && sub <= s[i..] by {
        if b {
          var i :| 0 <= i <= |s[1..]| - |sub| && sub <= s[1..][i..];
          assert s[1..][i..] == s[i + 1..];
        }
      }
      b
  }

  /** Every character of `sub` occurs in any string that contains `sub`. */
  lemma ContainsNeedsChar(s: string, sub: string, c: char)
    requires c in sub
    ensures Contains(s, sub) ==> c in s
  {
    if Contains(s, sub) {
      var i :| 0 <= i <= |s| - |sub| && sub <= s[i..];
      var k :| 0 <= k < |sub| && sub[k] == c;
      assert s[i + k] == c;
    }
  }

  /** Python's `s.startswith(prefix)`. */
  predicate StartsWith(s: string, prefix: string)
  {
    prefix <= s
  }

  /** Python's `s.endswith(suffix)`. */
  predicate EndsWith(s: string, suffix: string)
  {
    |suffix| <= |s| && s[|s| - |suffix|..] == suffix
  }

  /** Python's `any(s.endswith(t) for t in suffixes)`. */
  predicate EndsWithAny(s: string, suffixes: seq<string>)
  {
    exists j :: 0 <= j < |suffixes| && EndsWith(s, suffixes[j])
  }

  /** An ending shared by `s` is shared by every string that ends with `s`. */
  lemma {:induction false} EndsWithTransitive(p: string, s: string, suffix: string)
    requires EndsWith(s, suffix)
    ensures EndsWith(p + s, suffix)
  {
    assert (p + s)[|p + s| - |suffix|..] == s[|s| - |suffix|..];
  }

  /** The inverse of `Split`: `sep.join(parts)`. */
  function Join(parts: seq<string>, sep: char): (s: string)
  {
    if |parts| == 0 then []
    else if |parts| == 1 then parts[0]
    else parts[0] + [sep] + Join(parts[1..], sep)
  }

  /** Python's `s.split(sep)` for a one-character separator. */
  function Split(s: string, sep: char): (parts: seq<string>)
    ensures |parts| >= 1
    ensures forall k :: 0 <= k < |parts| ==> sep !in parts[k]
    ensures sep in s <==> |parts| > 1
  {
    if s == [] then [[]]
    else
      var rest := Split(s[1..], sep);
      if s[0] == sep then
        [[]] + rest
      else
        assert s[0] != sep && (sep in s <==> sep in s[1..]);
        [[s[0]] + rest[0]] + rest[1..]
  }

  lemma JoinCons(p: string, rest: seq<string>, sep: char)
    requires |rest| >= 1
    ensures Join([p] + rest, sep) == p + [sep] + Join(rest, sep)
  {
    assert ([p] + rest)[1..] == rest;
  }

  /** Joining the parts of a split with the separator gives back the original string. */
  lemma {:induction false} SplitJoin(s: string, sep: char)
    ensures Join(Split(s, sep), sep) == s
  {
    if s != [] {
      var rest := Split(s[1..], sep);
      SplitJoin(s[1..], sep);
      assert s == [s[0]] + s[1..];
      if s[0] == sep {
        assert Split(s, sep) == [[]] + rest;
        JoinCons([], rest, sep);
      } else if |rest| == 1 {
        assert Split(s, sep) == [[s[0]] + rest[0]];
      } else {
        var tail := rest[1..];
        assert rest == [rest[0]] + tail;
        assert Split(s, sep) == [[s[0]] + rest[0]] + tail;
        JoinCons([s[0]] + rest[0], tail, sep);
        JoinCons(rest[0], tail, sep);
      }
    }
  }

  /** A string without the separator splits into itself alone. */
  lemma {:induction false} SplitWithoutSeparator(s: string, sep: char)
    requires sep !in s
    ensures Split(s, sep) == [s]
  {
    if s != [] {
      assert s[0] != sep && sep !in s[1..];
      SplitWithoutSeparator(s[1..], sep);
      assert s == [s[0]] + s[1..];
    }
  }

  /** Splitting cuts at the first separator: the part before it comes first. */
  lemma {:induction false} SplitAtFirst(a: string, b: string, sep: char)
    requires sep !in a
    ensures Split(a + [sep] + b, sep) == [a] + Split(b, sep)
  {
    var s := a + [sep] + b;
    if a == [] {
      assert s[1..] == b;
    } else {
      assert s[1..] == a[1..] + [sep] + b;
      SplitAtFirst(a[1..], b, sep);
      assert [a[0]] + a[1..] == a;
    }
  }
}
