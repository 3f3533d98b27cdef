/**
 * The JavaScript string operations the chat client relies on: `trim`,
 * `slice(0, n)`, `startsWith`, `split` on one separator, and `+=`
 * concatenation over a list of fragments. `join` is defined only as the
 * inverse of `split`, for the round-trip lemmas. Strings are sequences of
 * characters.
 */
module Text {

  /** The characters `String.prototype.trim` removes: white space and line terminators. */
  predicate IsWhitespace(c: char) {
    || c == ' ' || c == '\t' || c == '\n' || c == '\r'
    || c == '\U{000B}' || c == '\U{000C}' || c == '\U{00A0}' || c == '\U{1680}'
    || ('\U{2000}' <= c <= '\U{200A}')
    || c == '\U{2028}' || c == '\U{2029}' || c == '\U{202F}' || c == '\U{205F}'
    || c == '\U{3000}' || c == '\U{FEFF}'
  }

  /** Every character of `s` is white space (the empty string included). */
  predicate IsBlank(s: string) {
    forall i :: 0 <= i < |s| ==> IsWhitespace(s[i])
  }

  /** Drops leading white space: the result is the suffix that starts at the first non-blank. */
  function TrimStart(s: string): (r: string)
    ensures |r| <= |s| && r == s[|s| - |r|..]
    ensures forall i :: 0 <= i < |s| - |r| ==> IsWhitespace(s[i])
    ensures r != [] ==> !IsWhitespace(r[0])
  {
    if s != [] && IsWhitespace(s[0]) then TrimStart(s[1..]) else s
  }

  /** Drops trailing white space: the result is the prefix that ends at the last non-blank. */
  function TrimEnd(s: string): (r: string)
    ensures |r| <= |s| && r == s[..|r|]
    ensures forall i :: |r| <= i < |s| ==> IsWhitespace(s[i])
    ensures r != [] ==> !IsWhitespace(r[|r| - 1])
  {
    if s != [] && IsWhitespace(s[|s| - 1]) then TrimEnd(s[..|s| - 1]) else s
  }

  /**
   * `s.trim()`: the characters after the leading white space, up to the
   * trailing white space, starting and ending with a character that is not
   * white space.
   */
  function Trim(s: string): (r: string)
    ensures |s| - |TrimStart(s)| + |r| <= |s|
    ensures r == s[|s| - |TrimStart(s)|..|s| - |TrimStart(s)| + |r|]
    ensures r != [] ==> !IsWhitespace(r[0]) && !IsWhitespace(r[|r| - 1])
  {
    var t := TrimStart(s);
    var r := TrimEnd(t);
    PrefixOfSuffix(s, t, r);
    r
  }

  /** A prefix `r` of a suffix `t` of `s` is a slice of `s`, and shares `t`'s first character. */
  lemma PrefixOfSuffix(s: string, t: string, r: string)
    requires |t| <= |s| && t == s[|s| - |t|..]
    requires |r| <= |t| && r == t[..|r|]
    ensures |s| - |t| + |r| <= |s| && r == s[|s| - |t|..|s| - |t| + |r|]
    ensures r != [] ==> r[0] == t[0]
  {
  }

  /** `s.trim()` drops only white space: everything before and after the kept slice is blank. */
  lemma TrimDropsOnlyBlank(s: string)
    ensures var k := |s| - |TrimStart(s)|;
            && (forall i :: 0 <= i < k ==> IsWhitespace(s[i]))
            && (forall i :: k + |Trim(s)| <= i < |s| ==> IsWhitespace(s[i]))
  {
    var t := TrimStart(s);
    var k := |s| - |t|;
    forall i | k + |TrimEnd(t)| <= i < |s|
      ensures IsWhitespace(s[i])
    {
      assert s[i] == t[i - k];
    }
  }

  /** `s.trim()` is empty exactly when `s` holds nothing but white space. */
  lemma TrimEmptyIffBlank(s: string)
    ensures Trim(s) == "" <==> IsBlank(s)
  {
    var t := TrimStart(s);
    if Trim(s) == "" {
      assert t == [];
    } else {
      var k := |s| - |t|;
      assert t != [] && !IsWhitespace(t[0]);
      assert s[k] == t[0];
    }
  }

  /**
   * When `s` neither starts with white space nor has white space at index `n - 1`,
   * trimming leaves its first `n` characters in place.
   */
  lemma TrimKeepsPrefix(s: string, n: nat)
    requires 0 < n <= |s|
    requires !IsWhitespace(s[0]) && !IsWhitespace(s[n - 1])
    ensures n <= |Trim(s)| && Trim(s)[..n] == s[..n]
  {
    assert TrimStart(s) == s;
  }

  /** `s.slice(0, n)` for a non-negative `n`. */
  function Take(s: string, n: nat): (r: string)
    ensures |r| == if n < |s| then n else |s|
    ensures r == s[..|r|]
  {
    if n < |s| then s[..n] else s
  }

  /** `s.startsWith(prefix)`. */
  predicate StartsWith(s: string, prefix: string) {
    |prefix| <= |s| && s[..|prefix|] == prefix
  }

  /** The running concatenation `fragments[0] + fragments[1] + ...`, built from the right. */
  function Concat(fragments: seq<string>): string {
    if fragments == [] then "" else Concat(fragments[..|fragments| - 1]) + fragments[|fragments| - 1]
  }

  /** Index of the first `c` in `s`, or `|s|` when there is none. */
  function IndexOf(s: string, c: char): (k: nat)
    ensures k <= |s|
    ensures forall i :: 0 <= i < k ==> s[i] != c
    ensures k < |s| ==> s[k] == c
  {
    if s == [] then 0 else if s[0] == c then 0 else 1 + IndexOf(s[1..], c)
  }

  /** `s.split(sep)` for a one-character separator. */
  function Split(s: string, sep: char): (fields: seq<string>)
    ensures |fields| >= 1
    ensures fields[0] == s[..IndexOf(s, sep)]
    ensures forall j :: 0 <= j < |fields| ==> sep !in fields[j]
    decreases |s|
  {
    var k := IndexOf(s, sep);
    if k == |s| then [s] else [s[..k]] + Split(s[k + 1..], sep)
  }

  /** `fields.join(sep)` for a one-character separator. */
  function Join(fields: seq<string>, sep: char): string {
    if fields == [] then ""
    else if |fields| == 1 then fields[0]
    else fields[0] + [sep] + Join(fields[1..], sep)
  }

  /** A string without `c` has no index of `c`. */
  lemma {:induction false} IndexOfAbsent(s: string, c: char)
    requires c !in s
    ensures IndexOf(s, c) == |s|
  {
    if s != [] {
      assert s[0] in s;
      IndexOfAbsent(s[1..], c);
    }
  }

  /** The first `sep` of `a + [sep] + b` is the one just after `a` when `a` holds none. */
  lemma {:induction false} IndexOfAfter(a: string, sep: char, b: string)
    requires sep !in a
    ensures IndexOf(a + [sep] + b, sep) == |a|
  {
    if a != [] {
      assert a[0] in a;
      IndexOfAfter(a[1..], sep, b);
      assert (a + [sep] + b)[1..] == a[1..] + [sep] + b;
    }
  }

  /** Joining a field in front of a non-empty list puts one separator between them. */
  lemma JoinCons(field: string, fields: seq<string>, sep: char)
    requires |fields| >= 1
    ensures Join([field] + fields, sep) == field + [sep] + Join(fields, sep)
  {
    assert ([field] + fields)[1..] == fields;
  }

  /** Joining the fields of a split gives the string back. */
  lemma {:induction false} JoinSplit(s: string, sep: char)
    ensures Join(Split(s, sep), sep) == s
    decreases |s|
  {
    var k := IndexOf(s, sep);
    if k < |s| {
      var rest := s[k + 1..];
      var fields := Split(rest, sep);
      assert Split(s, sep) == [s[..k]] + fields;
      JoinCons(s[..k], fields, sep);
      JoinSplit(rest, sep);
      assert s == s[..k] + [sep] + rest;
    }
  }

  /** Splitting a join of separator-free fields gives the fields back. */
  lemma {:induction false} SplitJoin(fields: seq<string>, sep: char)
    requires |fields| >= 1
    requires forall j :: 0 <= j < |fields| ==> sep !in fields[j]
    ensures Split(Join(fields, sep), sep) == fields
  {
    if |fields| == 1 {
      IndexOfAbsent(fields[0], sep);
    } else {
      var rest := Join(fields[1..], sep);
      var s := fields[0] + [sep] + rest;
      assert Join(fields, sep) == s;
      assert Split(s, sep) == [fields[0]] + Split(rest, sep) by {
        IndexOfAfter(fields[0], sep, rest);
        assert s[..|fields[0]|] == fields[0];
        assert s[|fields[0]| + 1..] == rest;
      }
      SplitJoin(fields[1..], sep);
      assert fields == [fields[0]] + fields[1..];
    }
  }
}
