/**
 * The few JavaScript string operations the application relies on, with their
 * ECMAScript semantics: `String.prototype.split` with a non-empty string
 * separator, `Array.prototype.join`, `trim`, `startsWith`, `toLowerCase`
 * (on the characters that matter here) and `replace` with a string pattern,
 * including the `$` patterns of the replacement string (GetSubstitution).
 * Strings are sequences of characters.
 */
module JsText {
  import opened Wrappers

  // ---------------------------------------------------------------------------
  // Occurrences of a separator
  // ---------------------------------------------------------------------------

  /** `sep` occurs in `s` starting at index `i`. */
  predicate OccursAt(s: string, sep: string, i: nat) {
    i + |sep| <= |s| && s[i..i + |sep|] == sep
  }

  /** `sep` occurs nowhere in `s`. */
  predicate Free(s: string, sep: string) {
    forall i: nat :: i <= |s| ==> !OccursAt(s, sep, i)
  }

  lemma {:induction false} OccursAtTail(s: string, sep: string, i: nat)
    requires |s| > 0
    ensures OccursAt(s, sep, i + 1) <==> OccursAt(s[1..], sep, i)
  {
    if i + 1 + |sep| <= |s| {
      assert s[1..][i..i + |sep|] == s[i + 1..i + 1 + |sep|];
    }
  }

  /** The index of the first occurrence, as `indexOf` finds it (`None` for -1). */
  function IndexOf(s: string, sep: string): (r: Option<nat>)
    requires |sep| > 0
    ensures r.Some? ==> OccursAt(s, sep, r.value)
    ensures r.Some? ==> forall j: nat :: j < r.value ==> !OccursAt(s, sep, j)
    ensures r.None? <==> Free(s, sep)
    decreases |s|
  {
    if |s| < |sep| then None
    else if s[..|sep|] == sep then Some(0)
    else
      match IndexOf(s[1..], sep)
      case None =>
        assert Free(s, sep) by {
          forall i: nat | i <= |s| ensures !OccursAt(s, sep, i) {
            if i > 0 { OccursAtTail(s, sep, i - 1); }
          }
        }
        None
      case Some(k) =>
        OccursAtTail(s, sep, k);
        assert forall j: nat :: j < k + 1 ==> !OccursAt(s, sep, j) by {
          forall j: nat | j < k + 1 ensures !OccursAt(s, sep, j) {
            if j > 0 { OccursAtTail(s, sep, j - 1); }
          }
        }
        Some(k + 1)
  }

  /** The first occurrence is the one with no occurrence before it. */
  lemma {:induction false} IndexOfIs(s: string, sep: string, n: nat)
    requires |sep| > 0
    requires OccursAt(s, sep, n)
    requires forall j: nat :: j < n ==> !OccursAt(s, sep, j)
    ensures IndexOf(s, sep) == Some(n)
  {
    assert !Free(s, sep);
  }

  /** No occurrence can start before `n` when no character before `n` starts one. */
  lemma {:induction false} NoOccurrenceBefore(s: string, sep: string, n: nat)
    requires |sep| > 0 && n <= |s|
    requires forall j :: 0 <= j < n ==> s[j] != sep[0]
    ensures forall j: nat :: j < n ==> !OccursAt(s, sep, j)
  {
    forall j: nat | j < n ensures !OccursAt(s, sep, j) {
      if j + |sep| <= |s| { assert s[j..j + |sep|][0] == s[j]; }
    }
  }

  /**
   * Reference count of non-overlapping occurrences, scanning left to right one
   * character at a time and skipping over each occurrence found.
   */
  function Occurrences(s: string, sep: string): nat
    requires |sep| > 0
    decreases |s|
  {
    if |s| < |sep| then 0
    else if s[..|sep|] == sep then 1 + Occurrences(s[|sep|..], sep)
    else Occurrences(s[1..], sep)
  }

  // ---------------------------------------------------------------------------
  // split and join
  // ---------------------------------------------------------------------------

  /**
   * `s.split(sep)` for a non-empty string separator: the pieces between the
   * non-overlapping occurrences of `sep`, found left to right.  `Split("", sep)`
   * is `[""]`.
   */
  function Split(s: string, sep: string): (parts: seq<string>)
    requires |sep| > 0
    ensures |parts| >= 1
    decreases |s|
  {
    match IndexOf(s, sep)
    case None => [s]
    case Some(i) => [s[..i]] + Split(s[i + |sep|..], sep)
  }

  /** `parts.join(sep)`. */
  function Join(parts: seq<string>, sep: string): string
  {
    if |parts| == 0 then ""
    else if |parts| == 1 then parts[0]
    else parts[0] + sep + Join(parts[1..], sep)
  }

  lemma {:induction false} JoinCons(p: string, ps: seq<string>, sep: string)
    requires |ps| > 0
    ensures Join([p] + ps, sep) == p + sep + Join(ps, sep)
  {
    assert ([p] + ps)[1..] == ps;
  }

  /** Joining the pieces of a split with the same separator gives the string back. */
  lemma {:induction false} JoinSplit(s: string, sep: string)
    requires |sep| > 0
    ensures Join(Split(s, sep), sep) == s
    decreases |s|
  {
    match IndexOf(s, sep)
    case None =>
    case Some(i) =>
      var rest := s[i + |sep|..];
      assert Split(s, sep) == [s[..i]] + Split(rest, sep);
      JoinSplit(rest, sep);
      JoinCons(s[..i], Split(rest, sep), sep);
      SplitAround(s, i, |sep|);
  }

  /** A string is its text before `i`, its `n` characters from `i`, and the rest. */
  lemma {:induction false} SplitAround(s: string, i: nat, n: nat)
    requires i + n <= |s|
    ensures s == s[..i] + s[i..i + n] + s[i + n..]
  {
  }

  /** No piece of a split contains the separator. */
  lemma {:induction false} SplitPiecesFree(s: string, sep: string)
    requires |sep| > 0
    ensures forall k :: 0 <= k < |Split(s, sep)| ==> Free(Split(s, sep)[k], sep)
    decreases |s|
  {
    match IndexOf(s, sep)
    case None =>
    case Some(i) =>
      var rest := s[i + |sep|..];
      SplitPiecesFree(rest, sep);
      forall j: nat ensures !OccursAt(s[..i], sep, j) {
        if OccursAt(s[..i], sep, j) {
          assert s[..i][j..j + |sep|] == s[j..j + |sep|];
          assert OccursAt(s, sep, j);
        }
      }
      assert Split(s, sep) == [s[..i]] + Split(rest, sep);
  }

  /** A split yields exactly one piece, the whole string, iff the separator does not occur. */
  lemma {:induction false} SplitSingle(s: string, sep: string)
    requires |sep| > 0
    ensures |Split(s, sep)| == 1 <==> Free(s, sep)
    ensures Free(s, sep) ==> Split(s, sep) == [s]
  {
    match IndexOf(s, sep)
    case None =>
    case Some(i) =>
      assert |Split(s, sep)| == 1 + |Split(s[i + |sep|..], sep)|;
  }

  /** No occurrence starts before `i`, so counting may start at `i`. */
  lemma {:induction false} OccurrencesSkip(s: string, sep: string, i: nat)
    requires |sep| > 0 && i <= |s|
    requires forall j: nat :: j < i ==> !OccursAt(s, sep, j)
    ensures Occurrences(s, sep) == Occurrences(s[i..], sep)
    decreases i
  {
    if i > 0 {
      assert !OccursAt(s, sep, 0);
      if |s| < |sep| {
        assert Occurrences(s[i..], sep) == 0;
      } else {
        assert s[..|sep|] != sep;
        forall j: nat | j < i - 1 ensures !OccursAt(s[1..], sep, j) {
          OccursAtTail(s, sep, j);
        }
        OccurrencesSkip(s[1..], sep, i - 1);
        assert s[1..][i - 1..] == s[i..];
      }
    }
  }

  /** Split yields one more piece than there are occurrences of the separator. */
  lemma {:induction false} SplitCountsOccurrences(s: string, sep: string)
    requires |sep| > 0
    ensures |Split(s, sep)| == Occurrences(s, sep) + 1
    decreases |s|
  {
    var r := IndexOf(s, sep);
    if r.None? {
      assert Split(s, sep) == [s];
      OccurrencesSkip(s, sep, |s|);
      assert Occurrences(s[|s|..], sep) == 0;
    } else {
      var i := r.value;
      var rest := s[i + |sep|..];
      assert Split(s, sep) == [s[..i]] + Split(rest, sep);
      OccurrencesAtFirst(s, sep, i);
      SplitCountsOccurrences(rest, sep);
    }
  }

  /** Counting skips to the first occurrence, counts it and resumes after it. */
  lemma {:induction false} OccurrencesAtFirst(s: string, sep: string, i: nat)
    requires |sep| > 0 && OccursAt(s, sep, i)
    requires forall j: nat :: j < i ==> !OccursAt(s, sep, j)
    ensures Occurrences(s, sep) == 1 + Occurrences(s[i + |sep|..], sep)
  {
    var t := s[i..];
    OccurrencesSkip(s, sep, i);
    assert t[..|sep|] == s[i..i + |sep|];
    assert t[|sep|..] == s[i + |sep|..];
    OccurrencesAtMatch(t, sep);
  }

  /** An occurrence at the front is counted, and counting resumes after it. */
  lemma {:induction false} OccurrencesAtMatch(t: string, sep: string)
    requires |sep| > 0 && |sep| <= |t| && t[..|sep|] == sep
    ensures Occurrences(t, sep) == 1 + Occurrences(t[|sep|..], sep)
  {
  }

  /** For a one-character separator the occurrences are the copies of that character. */
  lemma {:induction false} OccurrencesOfChar(s: string, c: char)
    ensures Occurrences(s, [c]) == multiset(s)[c]
    decreases |s|
  {
    if |s| > 0 {
      OccurrencesOfChar(s[1..], c);
      assert s == [s[0]] + s[1..];
      assert multiset(s) == multiset([s[0]]) + multiset(s[1..]);
      assert s[..1] == [s[0]];
      assert s[1..] == s[|[c]|..];
    }
  }

  /** Splitting on a one-character separator yields (copies of it) + 1 pieces. */
  lemma {:induction false} SplitCountChar(s: string, c: char)
    ensures |Split(s, [c])| == multiset(s)[c] + 1
  {
    SplitCountsOccurrences(s, [c]);
    OccurrencesOfChar(s, c);
  }

  lemma {:induction false} FreeOfChar(s: string, c: char)
    ensures Free(s, [c]) <==> c !in s
  {
    if c in s {
      var i :| 0 <= i < |s| && s[i] == c;
      assert s[i..i + 1] == [c];
      assert OccursAt(s, [c], i);
    } else {
      forall i: nat | i <= |s| ensures !OccursAt(s, [c], i) {
        if i + 1 <= |s| { assert s[i..i + 1] == [s[i]]; }
      }
    }
  }

  /**
   * For a one-character separator, split undoes join: pieces that do not
   * contain the separator come back unchanged.
   */
  lemma {:induction false} SplitJoinChar(ps: seq<string>, c: char)
    requires |ps| > 0
    requires forall k :: 0 <= k < |ps| ==> c !in ps[k]
    ensures Split(Join(ps, [c]), [c]) == ps
    decreases |ps|
  {
    FreeOfChar(ps[0], c);
    if |ps| == 1 {
      SplitSingle(ps[0], [c]);
    } else {
      var rest := Join(ps[1..], [c]);
      JoinCons(ps[0], ps[1..], [c]);
      assert ps == [ps[0]] + ps[1..];
      SplitAppendChar(ps[0], c, rest);
      SplitSingle(ps[0], [c]);
      SplitJoinChar(ps[1..], c);
    }
  }

  lemma {:induction false} JoinSnoc(ps: seq<string>, p: string, sep: string)
    requires |ps| > 0
    ensures Join(ps + [p], sep) == Join(ps, sep) + sep + p
    decreases |ps|
  {
    if |ps| == 1 {
      assert (ps + [p])[1..] == [p];
    } else {
      assert (ps + [p])[1..] == ps[1..] + [p];
      JoinSnoc(ps[1..], p, sep);
    }
  }

  /** A character found neither in the pieces nor in the separator is not in the join. */
  lemma {:induction false} NotInJoin(c: char, ps: seq<string>, sep: string)
    requires c !in sep
    requires forall k :: 0 <= k < |ps| ==> c !in ps[k]
    ensures c !in Join(ps, sep)
    decreases |ps|
  {
    if |ps| > 1 {
      NotInJoin(c, ps[1..], sep);
    }
  }

  /** An occurrence found in `a` is still the first one once more text follows. */
  lemma {:induction false} IndexOfExtend(a: string, t: string, sep: string)
    requires |sep| > 0 && IndexOf(a, sep).Some?
    ensures IndexOf(a + t, sep) == IndexOf(a, sep)
  {
    var i := IndexOf(a, sep).value;
    assert (a + t)[i..i + |sep|] == a[i..i + |sep|];
    forall j: nat | j < i ensures !OccursAt(a + t, sep, j) {
      assert !OccursAt(a, sep, j);
      assert (a + t)[j..j + |sep|] == a[j..j + |sep|];
    }
    IndexOfIs(a + t, sep, i);
  }

  /** Splitting on a one-character separator distributes over an occurrence of it. */
  lemma {:induction false} SplitAppendChar(a: string, c: char, b: string)
    ensures Split(a + [c] + b, [c]) == Split(a, [c]) + Split(b, [c])
    decreases |a|
  {
    var s := a + [c] + b;
    FreeOfChar(a, c);
    match IndexOf(a, [c])
    case None =>
      NoOccurrenceBefore(s, [c], |a|) by {
        forall j | 0 <= j < |a| ensures s[j] != [c][0] {
          assert s[j] == a[j];
        }
      }
      assert s[|a|..|a| + 1] == [c];
      IndexOfIs(s, [c], |a|);
      assert s[..|a|] == a && s[|a| + 1..] == b;
      SplitSingle(a, [c]);
    case Some(i) =>
      var r := a[i + 1..];
      assert s == a + ([c] + b);
      IndexOfExtend(a, [c] + b, [c]);
      assert s[..i] == a[..i];
      assert s[i + 1..] == r + [c] + b;
      SplitAppendChar(r, c, b);
      calc == {
        Split(s, [c]);
        [a[..i]] + Split(r + [c] + b, [c]);
        [a[..i]] + (Split(r, [c]) + Split(b, [c]));
        ([a[..i]] + Split(r, [c])) + Split(b, [c]);
      }
  }

  // ---------------------------------------------------------------------------
  // trim
  // ---------------------------------------------------------------------------

  /** WhiteSpace and LineTerminator code points of ECMAScript, which `trim` removes. */
  predicate IsWhiteSpace(c: char) {
    c == '\t' || c == '\n' || c == '\U{B}' || c == '\U{C}' || c == '\r' || c == ' '
    || c == '\U{A0}' || c == '\U{1680}' || ('\U{2000}' <= c <= '\U{200A}')
    || c == '\U{2028}' || c == '\U{2029}' || c == '\U{202F}' || c == '\U{205F}'
    || c == '\U{3000}' || c == '\U{FEFF}'
  }

  predicate AllWhiteSpace(s: string) {
    forall i :: 0 <= i < |s| ==> IsWhiteSpace(s[i])
  }

  /** `r` is `s` with its leading and trailing white space removed, and nothing else. */
  ghost predicate IsTrimOf(r: string, s: string) {
    exists a, b :: 0 <= a <= b <= |s| && r == s[a..b]
      && AllWhiteSpace(s[..a]) && AllWhiteSpace(s[b..])
      && (r == [] || (!IsWhiteSpace(r[0]) && !IsWhiteSpace(r[|r| - 1])))
  }

  lemma {:induction false} AllWhiteSpaceAppend(a: string, b: string)
    requires AllWhiteSpace(a) && AllWhiteSpace(b)
    ensures AllWhiteSpace(a + b)
  {
    forall i | 0 <= i < |a + b| ensures IsWhiteSpace((a + b)[i]) {
      if i < |a| { assert (a + b)[i] == a[i]; } else { assert (a + b)[i] == b[i - |a|]; }
    }
  }

  function TrimStart(s: string): (r: string)
    ensures |r| <= |s| && r == s[|s| - |r|..]
    ensures AllWhiteSpace(s[..|s| - |r|])
    ensures r == [] || !IsWhiteSpace(r[0])
    decreases |s|
  {
    if |s| > 0 && IsWhiteSpace(s[0]) then
      var t := s[1..];
      var r := TrimStart(t);
      assert t[|t| - |r|..] == s[|s| - |r|..];
      assert s[..|s| - |r|] == [s[0]] + t[..|t| - |r|];
      AllWhiteSpaceAppend([s[0]], t[..|t| - |r|]);
      r
    else
      assert s[..0] == [];
      s
  }

  function TrimEnd(s: string): (r: string)
    ensures |r| <= |s| && r == s[..|r|]
    ensures AllWhiteSpace(s[|r|..])
    ensures r == [] || !IsWhiteSpace(r[|r| - 1])
    decreases |s|
  {
    if |s| > 0 && IsWhiteSpace(s[|s| - 1]) then
      var t := s[..|s| - 1];
      var r := TrimEnd(t);
      assert t[..|r|] == s[..|r|];
      assert s[|r|..] == t[|r|..] + [s[|s| - 1]];
      AllWhiteSpaceAppend(t[|r|..], [s[|s| - 1]]);
      r
    else
      assert s[|s|..] == [];
      s
  }

  /** `s.trim()`. */
  function Trim(s: string): (r: string)
    ensures IsTrimOf(r, s)
  {
    var t := TrimStart(s);
    var r := TrimEnd(t);
    var a := |s| - |t|;
    assert r == s[a..a + |r|];
    assert s[a + |r|..] == t[|r|..];
    assert r != [] ==> r[0] == t[0];
    var b := a + |r|;
    assert 0 <= a <= b <= |s| && r == s[a..b];
    assert AllWhiteSpace(s[..a]) && AllWhiteSpace(s[b..]);
    assert r == [] || (!IsWhiteSpace(r[0]) && !IsWhiteSpace(r[|r| - 1]));
    r
  }

  lemma {:induction false} WhiteInPrefix(s: string, k: int, i: int)
    requires 0 <= i < k <= |s| && AllWhiteSpace(s[..k])
    ensures IsWhiteSpace(s[i])
  {
    assert s[..k][i] == s[i];
  }

  lemma {:induction false} WhiteInSuffix(s: string, k: int, i: int)
    requires 0 <= k <= i < |s| && AllWhiteSpace(s[k..])
    ensures IsWhiteSpace(s[i])
  {
    assert s[k..][i - k] == s[i];
  }

  /** The trim of a string is unique: `IsTrimOf` pins `Trim` down completely. */
  lemma {:induction false} TrimOfUnique(r1: string, r2: string, s: string)
    requires IsTrimOf(r1, s) && IsTrimOf(r2, s)
    ensures r1 == r2
  {
    var a1, b1 :| 0 <= a1 <= b1 <= |s| && r1 == s[a1..b1]
      && AllWhiteSpace(s[..a1]) && AllWhiteSpace(s[b1..])
      && (r1 == [] || (!IsWhiteSpace(r1[0]) && !IsWhiteSpace(r1[|r1| - 1])));
    var a2, b2 :| 0 <= a2 <= b2 <= |s| && r2 == s[a2..b2]
      && AllWhiteSpace(s[..a2]) && AllWhiteSpace(s[b2..])
      && (r2 == [] || (!IsWhiteSpace(r2[0]) && !IsWhiteSpace(r2[|r2| - 1])));
    if r1 != [] && r2 != [] {
      assert a1 == a2 by {
        if a1 < a2 { WhiteInPrefix(s, a2, a1); assert false; }
        if a2 < a1 { WhiteInPrefix(s, a1, a2); assert false; }
      }
      assert b1 == b2 by {
        if b2 < b1 { WhiteInSuffix(s, b2, b1 - 1); assert false; }
        if b1 < b2 { WhiteInSuffix(s, b1, b2 - 1); assert false; }
      }
    } else if r1 != [] {
      if a1 < a2 { WhiteInPrefix(s, a2, a1); } else { WhiteInSuffix(s, b2, a1); }
      assert false;
    } else if r2 != [] {
      if a2 < a1 { WhiteInPrefix(s, a1, a2); } else { WhiteInSuffix(s, b1, a2); }
      assert false;
    }
  }

  /** `s.trim() === ''` exactly when `s` consists of white space only. */
  lemma {:induction false} TrimEmptyIffBlank(s: string)
    ensures Trim(s) == [] <==> AllWhiteSpace(s)
  {
    var r := Trim(s);
    var a, b :| 0 <= a <= b <= |s| && r == s[a..b]
      && AllWhiteSpace(s[..a]) && AllWhiteSpace(s[b..])
      && (r == [] || (!IsWhiteSpace(r[0]) && !IsWhiteSpace(r[|r| - 1])));
    if r == [] {
      assert a == b;
      assert s == s[..a] + s[b..];
      AllWhiteSpaceAppend(s[..a], s[b..]);
    } else {
      assert s[a] == r[0] && !IsWhiteSpace(s[a]);
    }
  }

  /** A string without surrounding white space is its own trim. */
  lemma {:induction false} TrimIdentity(s: string)
    requires s == [] || (!IsWhiteSpace(s[0]) && !IsWhiteSpace(s[|s| - 1]))
    ensures Trim(s) == s
  {
    assert s[..0] == [] && s[|s|..] == [] && s[0..|s|] == s;
    assert IsTrimOf(s, s);
    TrimOfUnique(Trim(s), s, s);
  }

  // ---------------------------------------------------------------------------
  // startsWith and toLowerCase
  // ---------------------------------------------------------------------------

  /** `s.startsWith(prefix)`. */
  function StartsWith(s: string, prefix: string): (b: bool)
    ensures b <==> |prefix| <= |s| && s[..|prefix|] == prefix
    ensures b ==> s == prefix + s[|prefix|..]
  {
    prefix <= s
  }

  /**
   * `toLowerCase` on one character, for the ASCII letters.  No other character
   * lower-cases to one of the ASCII letters of "pdf" or "docx", so comparisons
   * of a lower-cased extension against those names are decided exactly.
   */
  function LowerChar(c: char): (r: char)
    ensures !('A' <= r <= 'Z')
    ensures 'A' <= c <= 'Z' ==> r == "abcdefghijklmnopqrstuvwxyz"[c as int - 'A' as int]
    ensures !('A' <= c <= 'Z') ==> r == c
  {
    if 'A' <= c <= 'Z' then (c as int + 32) as char else c
  }

  function ToLowerCase(s: string): (r: string)
    ensures |r| == |s|
    ensures forall i :: 0 <= i < |s| ==> r[i] == LowerChar(s[i])
  {
    if s == [] then [] else [LowerChar(s[0])] + ToLowerCase(s[1..])
  }

  /** Lower-casing leaves no upper-case letter, so doing it twice changes nothing more. */
  lemma {:induction false} ToLowerCaseIdempotent(s: string)
    ensures forall i :: 0 <= i < |s| ==> !('A' <= ToLowerCase(s)[i] <= 'Z')
    ensures ToLowerCase(ToLowerCase(s)) == ToLowerCase(s)
  {
    var r := ToLowerCase(s);
    forall i | 0 <= i < |r| ensures ToLowerCase(r)[i] == r[i] {
      assert r[i] == LowerChar(s[i]);
    }
  }

  // ---------------------------------------------------------------------------
  // replace with a string pattern
  // ---------------------------------------------------------------------------

  /**
   * The replacement text that `replace` inserts for one match (GetSubstitution
   * with no capture groups): `$$` stands for `$`, `$&` for the matched text,
   * `` $` `` for the text before the match and `$'` for the text after it; every
   * other character, a `$` that starts none of these included, is copied.
   */
  function Substitution(replacement: string, before: string, matched: string, after: string): string
    decreases |replacement|
  {
    if |replacement| == 0 then ""
    else if |replacement| >= 2 && replacement[0] == '$' && replacement[1] == '$' then
      "$" + Substitution(replacement[2..], before, matched, after)
    else if |replacement| >= 2 && replacement[0] == '$' && replacement[1] == '&' then
      matched + Substitution(replacement[2..], before, matched, after)
    else if |replacement| >= 2 && replacement[0] == '$' && replacement[1] == '`' then
      before + Substitution(replacement[2..], before, matched, after)
    else if |replacement| >= 2 && replacement[0] == '$' && replacement[1] == '\'' then
      after + Substitution(replacement[2..], before, matched, after)
    else
      [replacement[0]] + Substitution(replacement[1..], before, matched, after)
  }

  /** A replacement without `$` is inserted literally. */
  lemma {:induction false} SubstitutionLiteral(replacement: string, before: string, matched: string, after: string)
    requires '$' !in replacement
    ensures Substitution(replacement, before, matched, after) == replacement
    decreases |replacement|
  {
    if |replacement| > 0 {
      assert replacement[0] != '$';
      assert '$' !in replacement[1..] by {
        forall i | 0 <= i < |replacement[1..]| ensures replacement[1..][i] != '$' {
          assert replacement[1..][i] == replacement[i + 1];
        }
      }
      SubstitutionLiteral(replacement[1..], before, matched, after);
      assert replacement == [replacement[0]] + replacement[1..];
    }
  }

  /** A part of the replacement without `$` is copied literally, whatever follows it. */
  lemma {:induction false} SubstitutionPrefixLiteral(a: string, b: string, before: string, matched: string, after: string)
    requires '$' !in a
    ensures Substitution(a + b, before, matched, after) == a + Substitution(b, before, matched, after)
    decreases |a|
  {
    if |a| > 0 {
      assert (a + b)[0] == a[0] && a[0] != '$';
      assert (a + b)[1..] == a[1..] + b;
      assert '$' !in a[1..] by {
        forall i | 0 <= i < |a[1..]| ensures a[1..][i] != '$' {
          assert a[1..][i] == a[i + 1];
        }
      }
      SubstitutionPrefixLiteral(a[1..], b, before, matched, after);
      assert a == [a[0]] + a[1..];
    } else {
      assert a + b == b;
    }
  }

  /** `$$` stands for one `$`: a text between two `$$` comes out between two `$`. */
  lemma {:induction false} SubstitutionDollarPairs(x: string, before: string, matched: string, after: string)
    requires '$' !in x
    ensures Substitution("$$" + x + "$$", before, matched, after) == "$" + x + "$"
  {
    var r := "$$" + x + "$$";
    assert r[2..] == x + "$$";
    assert Substitution(r, before, matched, after) == "$" + Substitution(x + "$$", before, matched, after);
    SubstitutionPrefixLiteral(x, "$$", before, matched, after);
    assert Substitution("$$", before, matched, after) == "$" + Substitution("", before, matched, after);
  }

  /** `$&` stands for the matched text. */
  lemma {:induction false} SubstitutionMatchPattern(a: string, b: string, before: string, matched: string, after: string)
    requires '$' !in a && '$' !in b
    ensures Substitution(a + "$&" + b, before, matched, after) == a + matched + b
  {
    SubstitutionPrefixLiteral(a, "$&" + b, before, matched, after);
    assert a + "$&" + b == a + ("$&" + b);
    assert ("$&" + b)[2..] == b;
    assert Substitution("$&" + b, before, matched, after) == matched + Substitution(b, before, matched, after);
    SubstitutionLiteral(b, before, matched, after);
  }

  /** `s.replace(pattern, replacement)`: only the first occurrence is replaced. */
  function ReplaceFirst(s: string, pattern: string, replacement: string): (r: string)
    requires |pattern| > 0
    ensures Free(s, pattern) ==> r == s
    ensures IndexOf(s, pattern).Some? ==>
      var i := IndexOf(s, pattern).value;
      var tail := s[i + |pattern|..];
      i + |tail| <= |r| && r[..i] == s[..i] && r[|r| - |tail|..] == tail
  {
    match IndexOf(s, pattern)
    case None => s
    case Some(i) =>
      s[..i] + Substitution(replacement, s[..i], pattern, s[i + |pattern|..]) + s[i + |pattern|..]
  }

  /**
   * When the pattern does not start anywhere inside `p`, replacing in
   * `p + pattern + q` rewrites exactly that occurrence and keeps `p` and `q`.
   */
  lemma {:induction false} ReplaceFirstAt(p: string, pattern: string, q: string, replacement: string)
    requires |pattern| > 0
    requires forall j: nat :: j < |p| ==> !OccursAt(p + pattern + q, pattern, j)
    ensures ReplaceFirst(p + pattern + q, pattern, replacement)
         == p + Substitution(replacement, p, pattern, q) + q
  {
    var s := p + pattern + q;
    assert s[|p|..|p| + |pattern|] == pattern;
    IndexOfIs(s, pattern, |p|);
    assert s[..|p|] == p;
    assert s[|p| + |pattern|..] == q;
  }

  /** Concatenation of a list of strings. */
  function Concat(pieces: seq<string>): string {
    if pieces == [] then "" else pieces[0] + Concat(pieces[1..])
  }

  lemma {:induction false} NotInConcat(c: char, pieces: seq<string>)
    requires forall k :: 0 <= k < |pieces| ==> c !in pieces[k]
    ensures c !in Concat(pieces)
    decreases |pieces|
  {
    if pieces != [] {
      NotInConcat(c, pieces[1..]);
    }
  }
}
