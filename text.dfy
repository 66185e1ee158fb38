/**
 The string operations the form handling relies on, with Python's meaning:
 `str.strip()` without arguments, `str.split(sep)` with a one-character
 separator, and `sep.join(parts)`.
 */
module Text {
  import opened Optional

  /** Python's `str.isspace` for one character: the characters CPython treats as whitespace. */
  predicate IsSpace(c: char) {
    || c == ' '
    || ('\t' <= c <= '\r')
    || ('\U{1C}' <= c <= '\U{1F}')
    || c == '\U{85}' || c == '\U{A0}' || c == '\U{1680}'
    || ('\U{2000}' <= c <= '\U{200A}')
    || c == '\U{2028}' || c == '\U{2029}' || c == '\U{202F}' || c == '\U{205F}' || c == '\U{3000}'
  }

  predicate AllSpace(s: string) {
    forall i :: 0 <= i < |s| ==> IsSpace(s[i])
  }

  /** Neither end of `s` is whitespace: what `strip()` leaves behind. */
  predicate IsTrimmed(s: string) {
    s == [] || (!IsSpace(s[0]) && !IsSpace(s[|s| - 1]))
  }

  /** How many whitespace characters `s` starts with (what `s.lstrip()` drops). */
  function LeadingSpaces(s: string): (n: nat)
    ensures n <= |s|
    ensures forall i :: 0 <= i < n ==> IsSpace(s[i])
    ensures n < |s| ==> !IsSpace(s[n])
    decreases |s|
  {
    if s != [] && IsSpace(s[0]) then 1 + LeadingSpaces(s[1..]) else 0
  }

  /** How many whitespace characters `s` ends with (what `s.rstrip()` drops). */
  function TrailingSpaces(s: string): (n: nat)
    ensures n <= |s|
    ensures forall i :: |s| - n <= i < |s| ==> IsSpace(s[i])
    ensures n < |s| ==> !IsSpace(s[|s| - 1 - n])
    decreases |s|
  {
    if s != [] && IsSpace(s[|s| - 1]) then 1 + TrailingSpaces(s[..|s| - 1]) else 0
  }

  /**
   `s.strip()`: the part of `s` between a whitespace prefix and a whitespace
   suffix that starts and ends with a non-whitespace character. It is empty
   exactly when `s` is all whitespace (Python's falsy `s.strip()`).
   */
  function Strip(s: string): (r: string)
    ensures IsTrimmed(r)
    ensures r == [] <==> AllSpace(s)
    ensures var a := LeadingSpaces(s);
      && a + |r| <= |s| && r == s[a..a + |r|]
      && (forall i :: 0 <= i < a ==> IsSpace(s[i]))
      && (forall i :: a + |r| <= i < |s| ==> IsSpace(s[i]))
  {
    var a := LeadingSpaces(s);
    if a == |s| then "" else s[a..|s| - TrailingSpaces(s)]
  }

  /**
   `strip()` is characterised by its result: whenever `s` is a trimmed string
   between two whitespace runs, that string is what `strip()` returns.
   */
  lemma StripUnique(pre: string, mid: string, post: string)
    requires AllSpace(pre) && AllSpace(post) && IsTrimmed(mid)
    ensures Strip(pre + mid + post) == mid
  {
    var s := pre + mid + post;
    if mid == [] {
      assert AllSpace(s) by {
        forall i | 0 <= i < |s| ensures IsSpace(s[i]) {
          if i < |pre| { assert s[i] == pre[i]; } else { assert s[i] == post[i - |pre|]; }
        }
      }
    } else {
      assert s[|pre|] == mid[0];
      assert s[|pre| + |mid| - 1] == mid[|mid| - 1];
      assert LeadingSpaces(s) == |pre|;
      assert TrailingSpaces(s) == |post|;
      assert s[|pre|..|pre| + |mid|] == mid;
    }
  }

  /** Stripping twice is stripping once. */
  lemma StripIdempotent(s: string)
    ensures Strip(Strip(s)) == Strip(s)
  {
    StripUnique([], Strip(s), []);
    assert [] + Strip(s) + [] == Strip(s);
  }

  /**
   `s.split(c)`: the pieces between occurrences of `c`, in order; there is one
   more piece than there are separators, so `"".split(c)` is `[""]`.
   */
  function Split(s: string, c: char): (r: seq<string>)
    ensures |r| >= 1
    ensures forall i :: 0 <= i < |r| ==> c !in r[i]
    ensures forall i, j :: 0 <= i < |r| && 0 <= j < |r[i]| ==> r[i][j] in s
    decreases |s|
  {
    if s == [] then [""]
    else if s[0] == c then [""] + Split(s[1..], c)
    else
      var rest := Split(s[1..], c);
      [[s[0]] + rest[0]] + rest[1..]
  }

  /**
   `sep.join(parts)`. It is empty (falsy) exactly when every part is empty
   and no separator stands between two of them.
   */
  function Join(parts: seq<string>, sep: string): (r: string)
    ensures r == "" <==> (|parts| <= 1 || sep == "") && forall k :: 0 <= k < |parts| ==> parts[k] == ""
    decreases |parts|
  {
    if |parts| == 0 then ""
    else if |parts| == 1 then parts[0]
    else parts[0] + sep + Join(parts[1..], sep)
  }

  lemma {:induction false} JoinAppend(a: seq<string>, b: seq<string>, sep: string)
    requires a != [] && b != []
    ensures Join(a + b, sep) == Join(a, sep) + sep + Join(b, sep)
    decreases |a|
  {
    if |a| == 1 {
      assert (a + b)[1..] == b;
    } else {
      assert (a + b)[1..] == a[1..] + b;
      JoinAppend(a[1..], b, sep);
    }
  }

  /** A character in none of the parts and not in the separator is not in the joined string. */
  lemma {:induction false} JoinAvoids(parts: seq<string>, sep: string, c: char)
    requires c !in sep
    requires forall i :: 0 <= i < |parts| ==> c !in parts[i]
    ensures c !in Join(parts, sep)
    decreases |parts|
  {
    if |parts| > 1 {
      JoinAvoids(parts[1..], sep, c);
    }
  }

  /** Rejoining the pieces of a split with the same separator gives the string back. */
  lemma {:induction false} JoinSplit(s: string, c: char)
    ensures Join(Split(s, c), [c]) == s
    decreases |s|
  {
    if s != [] {
      var rest := Split(s[1..], c);
      JoinSplit(s[1..], c);
      if s[0] == c {
        assert Split(s, c) == [""] + rest;
        assert ([""] + rest)[1..] == rest;
        assert s == [c] + s[1..];
      } else {
        var r := Split(s, c);
        assert r == [[s[0]] + rest[0]] + rest[1..];
        if |rest| == 1 {
          assert s == [s[0]] + s[1..];
        } else {
          assert r[1..] == rest[1..];
          assert s == [s[0]] + s[1..];
        }
      }
    }
  }

  /** A piece free of the separator, followed by the separator, splits off as the first piece. */
  lemma {:induction false} SplitAtSeparator(a: string, c: char, b: string)
    requires c !in a
    ensures Split(a + [c] + b, c) == [a] + Split(b, c)
    decreases |a|
  {
    if a == [] {
      assert a + [c] + b == [c] + b;
      assert ([c] + b)[1..] == b;
    } else {
      assert (a + [c] + b)[1..] == a[1..] + [c] + b;
      SplitAtSeparator(a[1..], c, b);
      assert [a[0]] + a[1..] == a;
    }
  }

  /** Splitting a join of separator-free parts gives the parts back. */
  lemma {:induction false} SplitJoin(parts: seq<string>, c: char)
    requires |parts| >= 1
    requires forall i :: 0 <= i < |parts| ==> c !in parts[i]
    ensures Split(Join(parts, [c]), c) == parts
    decreases |parts|
  {
    if |parts| == 1 {
      SplitWithoutSeparator(parts[0], c);
    } else {
      SplitJoin(parts[1..], c);
      SplitAtSeparator(parts[0], c, Join(parts[1..], [c]));
      assert parts == [parts[0]] + parts[1..];
    }
  }

  /** One more separator between two strings: the pieces of each, one after the other. */
  lemma {:induction false} SplitAppend(a: string, c: char, b: string)
    ensures Split(a + [c] + b, c) == Split(a, c) + Split(b, c)
    decreases |a|
  {
    if a == [] {
      assert a + [c] + b == [c] + b;
      SplitCons(c, b, c);
    } else {
      var left, right := Split(a[1..], c), Split(b, c);
      var tail := a[1..] + [c] + b;
      assert a + [c] + b == [a[0]] + tail;
      assert [a[0]] + a[1..] == a;
      SplitAppend(a[1..], c, b);
      SplitCons(a[0], tail, c);
      SplitCons(a[0], a[1..], c);
      if a[0] == c {
        assert [""] + (left + right) == ([""] + left) + right;
      } else {
        FirstPieceAppend(a[0], left, right);
      }
    }
  }

  lemma FirstPieceAppend(x: char, left: seq<string>, right: seq<string>)
    requires |left| >= 1
    ensures [[x] + (left + right)[0]] + (left + right)[1..] == ([[x] + left[0]] + left[1..]) + right
  {
    assert (left + right)[0] == left[0];
    assert (left + right)[1..] == left[1..] + right;
  }

  /** The pieces of a string after its first character. */
  lemma SplitCons(x: char, s: string, c: char)
    ensures x == c ==> Split([x] + s, c) == [""] + Split(s, c)
    ensures x != c ==> Split([x] + s, c) == [[x] + Split(s, c)[0]] + Split(s, c)[1..]
  {
    assert ([x] + s)[0] == x;
    assert ([x] + s)[1..] == s;
  }

  /** A string without the separator splits into itself alone. */
  lemma {:induction false} SplitWithoutSeparator(s: string, c: char)
    requires c !in s
    ensures Split(s, c) == [s]
    decreases |s|
  {
    if s != [] {
      SplitWithoutSeparator(s[1..], c);
      assert [s[0]] + s[1..] == s;
    }
  }

  /** `t` occurs somewhere inside `s` (Python's `t in s`). */
  predicate Contains(s: string, t: string)
    decreases |s|
  {
    (|t| <= |s| && s[..|t|] == t) || (s != [] && Contains(s[1..], t))
  }

  lemma {:induction false} ContainsMiddle(a: string, t: string, b: string)
    ensures Contains(a + t + b, t)
    decreases |a|
  {
    if a == [] {
      assert (a + t + b)[..|t|] == t;
    } else {
      assert (a + t + b)[1..] == a[1..] + t + b;
      ContainsMiddle(a[1..], t, b);
    }
  }

  /** Whatever contains `a + t + b` contains `t`. */
  lemma {:induction false} ContainsInfix(s: string, a: string, t: string, b: string)
    requires Contains(s, a + t + b)
    ensures Contains(s, t)
    decreases |s|
  {
    var u := a + t + b;
    if |u| <= |s| && s[..|u|] == u {
      assert s == a + t + (b + s[|u|..]);
      ContainsMiddle(a, t, b + s[|u|..]);
    } else {
      ContainsInfix(s[1..], a, t, b);
    }
  }

  /** `s` begins with `prefix`. */
  predicate StartsWith(s: string, prefix: string) {
    |prefix| <= |s| && s[..|prefix|] == prefix
  }

  /**
   The first line of `s` and what follows its line break (`s.partition("\n")`
   without the separator); with no line break, all of `s` and nothing.
   */
  function TakeLine(s: string): (r: (string, string))
    ensures '\n' !in r.0
    decreases |s|
  {
    if s == [] then ("", "")
    else if s[0] == '\n' then ("", s[1..])
    else
      var (line, rest) := TakeLine(s[1..]);
      ([s[0]] + line, rest)
  }

  lemma {:induction false} TakeLineOf(a: string, b: string)
    requires '\n' !in a
    ensures TakeLine(a + "\n" + b) == (a, b)
    ensures TakeLine(a + ("\n" + b)) == (a, b)
    decreases |a|
  {
    if a == [] {
      assert a + "\n" + b == "\n" + b;
      assert ("\n" + b)[1..] == b;
    } else {
      assert (a + "\n" + b)[1..] == a[1..] + "\n" + b;
      TakeLineOf(a[1..], b);
      assert [a[0]] + a[1..] == a;
    }
    assert a + "\n" + b == a + ("\n" + b);
  }

  /** The concatenation of `parts`, in order. */
  function Concat(parts: seq<string>): string
    decreases |parts|
  {
    if parts == [] then "" else parts[0] + Concat(parts[1..])
  }

  lemma {:induction false} ContainsExtendLeft(a: string, s: string, t: string)
    requires Contains(s, t)
    ensures Contains(a + s, t)
    decreases |a|
  {
    if a != [] {
      assert (a + s)[1..] == a[1..] + s;
      ContainsExtendLeft(a[1..], s, t);
    } else {
      assert a + s == s;
    }
  }

  /** Every part occurs in the concatenation. */
  lemma {:induction false} ConcatContains(parts: seq<string>, k: int)
    requires 0 <= k < |parts|
    ensures Contains(Concat(parts), parts[k])
    decreases |parts|
  {
    if k == 0 {
      ContainsMiddle([], parts[0], Concat(parts[1..]));
      assert [] + parts[0] + Concat(parts[1..]) == Concat(parts);
    } else {
      ConcatContains(parts[1..], k - 1);
      ContainsExtendLeft(parts[0], Concat(parts[1..]), parts[k]);
    }
  }

  /** What follows `prefix` in `s`, when `s` begins with it. */
  function After(s: string, prefix: string): (r: Option<string>)
    ensures r.Some? <==> StartsWith(s, prefix)
    ensures r.Some? ==> s == prefix + r.value
  {
    if StartsWith(s, prefix) then Some(s[|prefix|..]) else None
  }

  lemma AfterPrefix(prefix: string, rest: string)
    ensures After(prefix + rest, prefix) == Some(rest)
  {
    assert (prefix + rest)[..|prefix|] == prefix;
    assert (prefix + rest)[|prefix|..] == rest;
  }
}
