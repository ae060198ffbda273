/**
 * The Python `str` operations the site code relies on, each with Python's
 * semantics: `in`, `startswith`, `split(sep)` (non-overlapping, left to
 * right), `join`, `replace`, `count`, `lstrip(chars)`, `strip()`, the ASCII
 * part of `lower()`, `*` on strings, and code-point ordering of strings.
 */
module PyStr {
  import opened Wrappers

  /** s.startswith(prefix) */
  predicate StartsWith(s: string, prefix: string)
  {
    prefix <= s
  }

  /** str.endswith(suffix). */
  predicate EndsWith(s: string, suffix: string)
  {
    |suffix| <= |s| && s[|s| - |suffix|..] == suffix
  }

  /** `sub` occurs in `s` starting at index `i`. */
  predicate OccursAt(s: string, sub: string, i: int)
  {
    0 <= i && i + |sub| <= |s| && s[i..i + |sub|] == sub
  }

  lemma {:induction false} OccursShift(s: string, sub: string)
    requires s != []
    ensures forall j :: 1 <= j ==> (OccursAt(s, sub, j) <==> OccursAt(s[1..], sub, j - 1))
  {
    forall j | 1 <= j
      ensures OccursAt(s, sub, j) <==> OccursAt(s[1..], sub, j - 1)
    {
      if j + |sub| <= |s| {
        assert s[1..][j - 1..j - 1 + |sub|] == s[j..j + |sub|];
      }
    }
  }

  /** Index of the leftmost occurrence of `sub` in `s` (str.find, with None for -1). */
  function IndexOf(s: string, sub: string): (r: Option<nat>)
    ensures r.Some? ==> OccursAt(s, sub, r.value)
    ensures forall j :: 0 <= j && (r.None? || j < r.value) ==> !OccursAt(s, sub, j)
    decreases |s|
  {
    if |s| < |sub| then None
    else if s[..|sub|] == sub then Some(0)
    else
      OccursShift(s, sub);
      match IndexOf(s[1..], sub)
      case None => None
      case Some(i) => Some(i + 1)
  }

  /** sub in s */
  predicate Contains(s: string, sub: string)
  {
    IndexOf(s, sub).Some?
  }

  lemma {:induction false} OccursContains(s: string, sub: string, i: int)
    requires OccursAt(s, sub, i)
    ensures Contains(s, sub)
  {
  }

  /** A string lacking one of the characters of `sub` does not contain `sub`. */
  lemma {:induction false} CharAbsent(s: string, sub: string, k: nat)
    requires k < |sub| && sub[k] !in s
    ensures !Contains(s, sub)
  {
  }

  /** A string holding a character contains it as a one-character string. */
  lemma {:induction false} CharContains(s: string, c: char)
    requires c in s
    ensures Contains(s, [c])
  {
    var i :| 0 <= i < |s| && s[i] == c;
    assert OccursAt(s, [c], i) by {
      assert s[i..i + 1] == [c];
    }
    OccursContains(s, [c], i);
  }

  /** An occurrence at i is the leftmost when the text before its last character lacks `sub`. */
  lemma {:induction false} IndexOfAt(s: string, sub: string, i: nat)
    requires sub != [] && OccursAt(s, sub, i) && !Contains(s[..i + |sub| - 1], sub)
    ensures IndexOf(s, sub) == Some(i)
  {
    var j := IndexOf(s, sub).value;
    if j < i {
      assert s[..i + |sub| - 1][j..j + |sub|] == s[j..j + |sub|];
      assert OccursAt(s[..i + |sub| - 1], sub, j);
      OccursContains(s[..i + |sub| - 1], sub, j);
    }
  }

  /** A piece cut out of a string that does not contain `sub` does not contain it either. */
  lemma {:induction false} InfixFree(a: string, t: string, b: string, sub: string)
    requires !Contains(a + t + b, sub)
    ensures !Contains(t, sub)
  {
    if Contains(t, sub) {
      var j := IndexOf(t, sub).value;
      var s := a + t + b;
      assert s[|a| + j..|a| + j + |sub|] == t[j..j + |sub|];
      OccursContains(s, sub, |a| + j);
    }
  }

  /** Concatenation regrouped; naming the step keeps long appends cheap to check. */
  lemma {:induction false} Assoc(a: string, b: string, c: string)
    ensures (a + b) + c == a + (b + c)
  {
  }

  /** s.split(sep) for a non-empty separator. */
  function Split(s: string, sep: string): (parts: seq<string>)
    requires sep != []
    ensures |parts| >= 1
    decreases |s|
  {
    match IndexOf(s, sep)
    case None => [s]
    case Some(i) => [s[..i]] + Split(s[i + |sep|..], sep)
  }

  /** Splitting at a first occurrence of a one-character separator. */
  lemma {:induction false} SplitFirstChar(a: string, b: string, c: char)
    requires c !in a
    ensures Split(a + [c] + b, [c]) == [a] + Split(b, [c])
  {
    var s := a + [c] + b;
    assert OccursAt(s, [c], |a|) by {
      assert s[|a|..|a| + 1] == [c];
    }
    assert s[..|a|] == a;
    CharAbsent(a, [c], 0);
    IndexOfAt(s, [c], |a|);
    assert s[|a| + 1..] == b;
  }

  /** A string without the separator splits into itself. */
  lemma {:induction false} SplitNoChar(b: string, c: char)
    requires c !in b
    ensures Split(b, [c]) == [b]
  {
    CharAbsent(b, [c], 0);
  }

  /** sep.join(parts) */
  function Join(parts: seq<string>, sep: string): string
  {
    if |parts| == 0 then ""
    else if |parts| == 1 then parts[0]
    else parts[0] + sep + Join(parts[1..], sep)
  }

  /** A separator that occurs once splits the string in two, and what precedes it is kept by BeforeLast. */
  lemma {:induction false} SplitOnce(s: string, sep: string, i: nat)
    requires sep != [] && IndexOf(s, sep) == Some(i) && !Contains(s[i + |sep|..], sep)
    ensures Split(s, sep) == [s[..i], s[i + |sep|..]]
    ensures BeforeLast(s, sep) == s[..i]
  {
    var rest := s[i + |sep|..];
    assert Split(rest, sep) == [rest];
    var parts := Split(s, sep);
    assert parts == [s[..i]] + [rest];
    assert parts[..|parts| - 1] == [s[..i]];
  }

  /** Joining the pieces of a split with the same separator gives the string back. */
  lemma {:induction false} JoinSplit(s: string, sep: string)
    requires sep != []
    ensures Join(Split(s, sep), sep) == s
    decreases |s|
  {
    match IndexOf(s, sep)
    case None =>
    case Some(i) =>
      var rest := s[i + |sep|..];
      var tail := Split(rest, sep);
      JoinSplit(rest, sep);
      var parts := Split(s, sep);
      assert parts == [s[..i]] + tail;
      assert parts[1..] == tail;
      assert Join(parts, sep) == s[..i] + sep + Join(tail, sep);
      assert s[i..i + |sep|] == sep;
      assert s == s[..i] + s[i..i + |sep|] + rest;
  }

  /** An occurrence in a prefix is an occurrence in the whole string, inside the prefix. */
  lemma {:induction false} PrefixOccurs(s: string, sub: string, i: nat, j: int)
    requires i <= |s|
    ensures OccursAt(s[..i], sub, j) ==> OccursAt(s, sub, j) && j + |sub| <= i
  {
    if OccursAt(s[..i], sub, j) {
      assert s[..i][j..j + |sub|] == s[j..j + |sub|];
    }
  }

  /** The text before the first occurrence holds none. */
  lemma {:induction false} BeforeFirstFree(s: string, sep: string, i: nat)
    requires sep != [] && IndexOf(s, sep) == Some(i)
    ensures !Contains(s[..i], sep)
  {
    var head := s[..i];
    forall j | 0 <= j ensures !OccursAt(head, sep, j) {
      PrefixOccurs(s, sep, i, j);
    }
  }

  /** No piece of a split contains the separator. */
  lemma {:induction false} SplitPiecesFree(s: string, sep: string)
    requires sep != []
    ensures forall k :: 0 <= k < |Split(s, sep)| ==> !Contains(Split(s, sep)[k], sep)
    decreases |s|
  {
    match IndexOf(s, sep)
    case None =>
    case Some(i) =>
      var rest := s[i + |sep|..];
      SplitPiecesFree(rest, sep);
      var head := s[..i];
      BeforeFirstFree(s, sep, i);
      var parts := Split(s, sep);
      var tail := Split(rest, sep);
      assert parts == [head] + tail;
      forall k | 0 <= k < |parts| ensures !Contains(parts[k], sep) {
        if k > 0 {
          assert parts[k] == tail[k - 1];
        }
      }
  }

  lemma {:induction false} JoinSnoc(parts: seq<string>, sep: string)
    requires |parts| >= 2
    ensures Join(parts, sep) == Join(parts[..|parts| - 1], sep) + sep + parts[|parts| - 1]
    decreases |parts|
  {
    if |parts| == 2 {
      assert parts[..1] == [parts[0]];
    } else {
      JoinSnoc(parts[1..], sep);
      assert parts[1..][..|parts| - 2] == parts[..|parts| - 1][1..];
    }
  }

  /** s.split(sep)[-1]: the text after the last occurrence of sep. */
  function AfterLast(s: string, sep: string): string
    requires sep != []
  {
    var parts := Split(s, sep);
    parts[|parts| - 1]
  }

  /** sep.join(s.split(sep)[:-1]): the text before the last occurrence of sep. */
  function BeforeLast(s: string, sep: string): string
    requires sep != []
  {
    var parts := Split(s, sep);
    Join(parts[..|parts| - 1], sep)
  }

  /**
   * The two halves around the last occurrence of `sep`: the tail holds no
   * `sep`, and when `sep` does not occur the tail is the whole string.
   */
  lemma {:induction false} SplitAtLast(s: string, sep: string)
    requires sep != []
    ensures !Contains(AfterLast(s, sep), sep)
    ensures Contains(s, sep) ==> s == BeforeLast(s, sep) + sep + AfterLast(s, sep)
    ensures !Contains(s, sep) ==> AfterLast(s, sep) == s && BeforeLast(s, sep) == ""
  {
    var parts := Split(s, sep);
    assert !Contains(AfterLast(s, sep), sep) by {
      SplitPiecesFree(s, sep);
    }
    if Contains(s, sep) {
      assert |parts| >= 2;
      assert s == Join(parts, sep) by {
        JoinSplit(s, sep);
      }
      JoinSnoc(parts, sep);
    } else {
      assert parts == [s];
    }
  }

  /** The text after the last occurrence is a suffix of the string. */
  lemma {:induction false} AfterLastSuffix(s: string, sep: string)
    requires sep != []
    ensures EndsWith(s, AfterLast(s, sep))
  {
    SplitAtLast(s, sep);
  }

  /** A suffix of a suffix is a suffix. */
  lemma {:induction false} SuffixTrans(a: string, b: string, c: string)
    requires EndsWith(a, b) && EndsWith(b, c)
    ensures EndsWith(a, c)
  {
    assert a[|a| - |c|..] == a[|a| - |b|..][|b| - |c|..];
  }

  /** The first piece of a split is a prefix of the string. */
  lemma {:induction false} SplitHeadPrefix(s: string, sep: string)
    requires sep != []
    ensures StartsWith(s, Split(s, sep)[0])
  {
  }

  /**
   * Splitting a string that starts with the separator: the first piece is
   * empty and the second is the text up to the next occurrence.
   */
  lemma {:induction false} SplitAfterLeading(s: string, sep: string)
    requires sep != [] && StartsWith(s, sep)
    ensures |Split(s, sep)| >= 2 && Split(s, sep)[0] == ""
    ensures StartsWith(s, sep + Split(s, sep)[1])
    ensures !Contains(Split(s, sep)[1], sep)
  {
    assert s[..|sep|] == sep;
    assert IndexOf(s, sep) == Some(0);
    var rest := s[|sep|..];
    assert Split(s, sep) == [s[..0]] + Split(rest, sep);
    SplitHeadPrefix(rest, sep);
    SplitPiecesFree(s, sep);
    assert s == sep + rest;
  }

  /**
   * In a string that starts with the separator, the second piece of the
   * split runs up to the next occurrence at or after the end of the first
   * one, or to the end of the string when there is none.
   */
  lemma {:induction false} SplitSecondPiece(s: string, sep: string)
    requires sep != [] && StartsWith(s, sep)
    ensures |Split(s, sep)| >= 2
    ensures var n := |sep| + |Split(s, sep)[1]|;
      && n <= |s|
      && (n == |s| || OccursAt(s, sep, n))
      && forall j :: |sep| <= j < n ==> !OccursAt(s, sep, j)
  {
    SplitAfterLeading(s, sep);
    var rest := s[|sep|..];
    assert Split(s, sep) == [s[..0]] + Split(rest, sep) by {
      assert s[..|sep|] == sep;
      assert IndexOf(s, sep) == Some(0);
    }
    forall j | |sep| <= j
      ensures OccursAt(s, sep, j) <==> OccursAt(rest, sep, j - |sep|)
    {
      if j + |sep| <= |s| {
        assert s[j..j + |sep|] == rest[j - |sep|..j - |sep| + |sep|];
      }
    }
    match IndexOf(rest, sep)
    case None =>
      assert Split(rest, sep)[0] == rest;
    case Some(i) =>
      assert Split(rest, sep)[0] == rest[..i];
  }

  /** s.count(c) for a single character. */
  function CountChar(s: string, c: char): nat
  {
    if s == [] then 0 else (if s[0] == c then 1 else 0) + CountChar(s[1..], c)
  }

  lemma {:induction false} CountCharAppend(a: string, b: string, c: char)
    ensures CountChar(a + b, c) == CountChar(a, c) + CountChar(b, c)
    decreases |a|
  {
    if a != [] {
      CountCharAppend(a[1..], b, c);
      assert (a + b)[1..] == a[1..] + b;
    } else {
      assert a + b == b;
    }
  }

  lemma {:induction false} CountCharAbsent(s: string, c: char)
    requires !Contains(s, [c])
    ensures CountChar(s, c) == 0
    decreases |s|
  {
    if s != [] {
      if s[0] == c {
        OccursContains(s, [c], 0);
      }
      assert [s[0]] + s[1..] + [] == s;
      InfixFree([s[0]], s[1..], [], [c]);
      CountCharAbsent(s[1..], c);
    }
  }

  /** Splitting on one character gives one more piece than there are occurrences of it. */
  lemma {:induction false} SplitCharCount(s: string, c: char)
    ensures |Split(s, [c])| == CountChar(s, c) + 1
    decreases |s|
  {
    match IndexOf(s, [c])
    case None =>
      CountCharAbsent(s, c);
    case Some(i) =>
      var rest := s[i + 1..];
      SplitCharCount(rest, c);
      if Contains(s[..i], [c]) {
        var j := IndexOf(s[..i], [c]).value;
        assert s[j..j + 1] == s[..i][j..j + 1];
        assert OccursAt(s, [c], j);
      }
      CountCharAbsent(s[..i], c);
      assert s[i..i + 1] == [c];
      assert s[i] == c;
      var tail := [s[i]] + rest;
      assert s == s[..i] + tail;
      CountCharAppend(s[..i], tail, c);
      assert tail[1..] == rest;
      assert CountChar(tail, c) == 1 + CountChar(rest, c);
      assert Split(s, [c]) == [s[..i]] + Split(rest, [c]);
  }

  /**
   * s.lstrip(chars): drops the longest prefix made of characters in `chars`
   * (a character set, not a prefix string).
   */
  function LStrip(s: string, chars: set<char>): (r: string)
    ensures |r| <= |s| && r == s[|s| - |r|..]
    ensures r == [] || r[0] !in chars
    ensures forall i :: 0 <= i < |s| - |r| ==> s[i] in chars
  {
    if s != [] && s[0] in chars then LStrip(s[1..], chars) else s
  }

  /** s.rstrip(chars): drops trailing characters of the set. */
  function RStrip(s: string, chars: set<char>): (r: string)
    ensures |r| <= |s| && r == s[..|r|]
    ensures r == [] || r[|r| - 1] !in chars
    ensures forall i :: |r| <= i < |s| ==> s[i] in chars
  {
    if s != [] && s[|s| - 1] in chars then RStrip(s[..|s| - 1], chars) else s
  }

  /** lstrip keeps a suffix whose first character is not stripped. */
  lemma {:induction false} LStripKeepsSuffix(s: string, t: string, chars: set<char>)
    requires t != [] && EndsWith(s, t) && t[0] !in chars
    ensures EndsWith(LStrip(s, chars), t)
  {
    var r := LStrip(s, chars);
    assert s[|s| - |t|] !in chars;
    assert |t| <= |r|;
    assert r[|r| - |t|..] == s[|s| - |t|..];
  }

  /** rstrip leaves alone a string whose last character is not stripped. */
  lemma {:induction false} RStripUntouched(s: string, chars: set<char>)
    requires s != [] && s[|s| - 1] !in chars
    ensures RStrip(s, chars) == s
  {
  }

  /** s.strip(chars): both ends. */
  function StripChars(s: string, chars: set<char>): string
  {
    RStrip(LStrip(s, chars), chars)
  }

  /** Python's str.isspace() for one character. */
  predicate IsSpace(c: char)
  {
    var n := c as int;
    (9 <= n <= 13) || (28 <= n <= 32) || n == 0x85 || n == 0xA0 || n == 0x1680
    || (0x2000 <= n <= 0x200A) || n == 0x2028 || n == 0x2029 || n == 0x202F
    || n == 0x205F || n == 0x3000
  }

  function LStripSpace(s: string): (r: string)
    ensures |r| <= |s| && r == s[|s| - |r|..]
    ensures r == [] || !IsSpace(r[0])
    ensures forall i :: 0 <= i < |s| - |r| ==> IsSpace(s[i])
  {
    if s != [] && IsSpace(s[0]) then LStripSpace(s[1..]) else s
  }

  function RStripSpace(s: string): (r: string)
    ensures |r| <= |s| && r == s[..|r|]
    ensures r == [] || !IsSpace(r[|r| - 1])
    ensures forall i :: |r| <= i < |s| ==> IsSpace(s[i])
  {
    if s != [] && IsSpace(s[|s| - 1]) then RStripSpace(s[..|s| - 1]) else s
  }

  /** s.strip() with no argument: whitespace removed at both ends. */
  function Strip(s: string): string
  {
    RStripSpace(LStripSpace(s))
  }

  /** `not s.strip()`: the string is empty or all whitespace. */
  lemma {:induction false} StripEmpty(s: string)
    ensures Strip(s) == "" <==> forall i :: 0 <= i < |s| ==> IsSpace(s[i])
  {
    var l := LStripSpace(s);
  }

  /** s.replace(pat, rep) for a non-empty `pat`. */
  function ReplaceAll(s: string, pat: string, rep: string): string
    requires pat != []
  {
    Join(Split(s, pat), rep)
  }

  /**
   * s.replace(pat, rep) cuts s at every occurrence of pat: putting pat back
   * between the pieces gives s, putting rep there gives the result, and no
   * piece holds pat.
   */
  lemma {:induction false} ReplaceAllPieces(s: string, pat: string, rep: string)
    requires pat != []
    ensures Join(Split(s, pat), pat) == s
    ensures ReplaceAll(s, pat, rep) == Join(Split(s, pat), rep)
    ensures forall k :: 0 <= k < |Split(s, pat)| ==> !Contains(Split(s, pat)[k], pat)
    ensures !Contains(s, pat) ==> ReplaceAll(s, pat, rep) == s
  {
    JoinSplit(s, pat);
    SplitPiecesFree(s, pat);
    if !Contains(s, pat) {
      assert Split(s, pat) == [s];
    }
  }

  /** Replacing one character by one character rewrites exactly its occurrences, in place. */
  lemma {:induction false} ReplaceChar(s: string, c: char, d: char)
    ensures |ReplaceAll(s, [c], [d])| == |s|
    ensures forall i :: 0 <= i < |s| ==> ReplaceAll(s, [c], [d])[i] == if s[i] == c then d else s[i]
    decreases |s|
  {
    match IndexOf(s, [c])
    case None =>
      assert ReplaceAll(s, [c], [d]) == s;
      forall i | 0 <= i < |s| ensures s[i] != c {
        if s[i] == c {
          assert s[i..i + 1] == [c];
          OccursContains(s, [c], i);
        }
      }
    case Some(k) =>
      var rest := s[k + 1..];
      ReplaceChar(rest, c, d);
      var parts := Split(s, [c]);
      assert parts[1..] == Split(rest, [c]);
      assert ReplaceAll(s, [c], [d]) == s[..k] + [d] + ReplaceAll(rest, [c], [d]);
      assert s[k..k + 1] == [c];
      forall i | 0 <= i < k ensures s[i] != c {
        if s[i] == c {
          assert s[i..i + 1] == [c];
          assert OccursAt(s, [c], i);
        }
      }
  }

  /** The ASCII part of str.lower(). */
  function Lower(s: string): (r: string)
    ensures |r| == |s|
  {
    seq(|s|, i requires 0 <= i < |s| => if 'A' <= s[i] <= 'Z' then (s[i] as int + 32) as char else s[i])
  }

  /** s.count(sub): non-overlapping occurrences; Python counts len(s) + 1 for the empty string. */
  function CountOcc(s: string, sub: string): nat
  {
    if sub == [] then |s| + 1 else |Split(s, sub)| - 1
  }

  lemma {:induction false} CountOccPositive(s: string, sub: string)
    ensures CountOcc(s, sub) > 0 <==> Contains(s, sub)
  {
  }

  /** s * n */
  function Repeat(s: string, n: nat): (r: string)
    ensures |r| == n * |s|
  {
    if n == 0 then [] else s + Repeat(s, n - 1)
  }

  /** a <= b on Python strings: code-point lexicographic order. */
  predicate LexLe(a: string, b: string)
    decreases |a|
  {
    a == [] || (b != [] && (a[0] < b[0] || (a[0] == b[0] && LexLe(a[1..], b[1..]))))
  }

  lemma {:induction false} LexLeRefl(a: string)
    ensures LexLe(a, a)
    decreases |a|
  {
    if a != [] {
      LexLeRefl(a[1..]);
    }
  }

  lemma {:induction false} LexLeTotal(a: string, b: string)
    ensures LexLe(a, b) || LexLe(b, a)
    decreases |a|
  {
    if a != [] && b != [] && a[0] == b[0] {
      LexLeTotal(a[1..], b[1..]);
    }
  }

  lemma {:induction false} LexLeAntisym(a: string, b: string)
    requires LexLe(a, b) && LexLe(b, a)
    ensures a == b
    decreases |a|
  {
    if a != [] {
      LexLeAntisym(a[1..], b[1..]);
      assert a == [a[0]] + a[1..];
      assert b == [b[0]] + b[1..];
    }
  }

  lemma {:induction false} LexLeTrans(a: string, b: string, c: string)
    requires LexLe(a, b) && LexLe(b, c)
    ensures LexLe(a, c)
    decreases |a|
  {
    if a != [] && a[0] == b[0] && b[0] == c[0] {
      LexLeTrans(a[1..], b[1..], c[1..]);
    }
  }
}
