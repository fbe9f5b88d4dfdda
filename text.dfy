/**
 * The Python `str` operations that the trainer and the bot rely on:
 * `isspace()`, `strip()`, `split()` on a one-character separator,
 * `join()`, `replace()`, and decimal rendering of integers.
 */
module Text {

  /** Python's `str.isspace()` for one character. */
  predicate IsSpace(c: char) {
    || ('\U{0009}' <= c <= '\U{000D}')
    || ('\U{001C}' <= c <= '\U{0020}')
    || c == '\U{0085}' || c == '\U{00A0}' || c == '\U{1680}'
    || ('\U{2000}' <= c <= '\U{200A}')
    || c == '\U{2028}' || c == '\U{2029}' || c == '\U{202F}' || c == '\U{205F}' || c == '\U{3000}'
  }

  predicate AllSpace(s: string) {
    forall k :: 0 <= k < |s| ==> IsSpace(s[k])
  }

  /** Neither end of `s` is whitespace. */
  predicate Trimmed(s: string) {
    s != [] ==> !IsSpace(s[0]) && !IsSpace(s[|s| - 1])
  }

  // ---------------------------------------------------------------- strip

  /** `s.lstrip()`: a suffix of `s`, everything dropped is whitespace. */
  function StripStart(s: string): (r: string)
    ensures |r| <= |s| && r == s[|s| - |r|..]
    ensures forall k :: 0 <= k < |s| - |r| ==> IsSpace(s[k])
    ensures r != [] ==> !IsSpace(r[0])
    decreases |s|
  {
    if s != [] && IsSpace(s[0]) then StripStart(s[1..]) else s
  }

  /** `s.rstrip()`: a prefix of `s`, everything dropped is whitespace. */
  function StripEnd(s: string): (r: string)
    ensures |r| <= |s| && r == s[..|r|]
    ensures forall k :: |r| <= k < |s| ==> IsSpace(s[k])
    ensures r != [] ==> !IsSpace(r[|r| - 1])
    decreases |s|
  {
    if s != [] && IsSpace(s[|s| - 1]) then StripEnd(s[..|s| - 1]) else s
  }

  /**
   * `s.strip()`: what is left once the whitespace at both ends is removed
   * (it is a slice of `s`, see `StripSlice`); empty exactly when `s` is all
   * whitespace.
   */
  function Strip(s: string): (r: string)
    ensures |r| <= |s| && Trimmed(r)
    ensures r == [] <==> AllSpace(s)
  {
    StripEnd(StripStart(s))
  }

  /** `strip()` removes whitespace from the two ends and nothing else. */
  lemma StripSlice(s: string) returns (i: nat)
    ensures i + |Strip(s)| <= |s| && Strip(s) == s[i..i + |Strip(s)|]
    ensures forall k :: 0 <= k < i ==> IsSpace(s[k])
    ensures forall k :: i + |Strip(s)| <= k < |s| ==> IsSpace(s[k])
  {
    var t := StripStart(s);
    var r := StripEnd(t);
    i := |s| - |t|;
    PrefixOfSuffix(s, i, |r|);
    SpaceInSuffix(s, i, |r|);
  }

  lemma PrefixOfSuffix<T>(s: seq<T>, i: nat, m: nat)
    requires i + m <= |s|
    ensures s[i..][..m] == s[i..i + m]
  {
  }

  lemma SpaceInSuffix(s: string, i: nat, m: nat)
    requires i + m <= |s|
    requires forall k :: m <= k < |s[i..]| ==> IsSpace(s[i..][k])
    ensures forall k :: i + m <= k < |s| ==> IsSpace(s[k])
  {
    forall k | i + m <= k < |s| ensures IsSpace(s[k]) {
      assert s[k] == s[i..][k - i];
    }
  }

  /** Python's `not s.strip()`. */
  predicate Blank(s: string) {
    Strip(s) == []
  }

  /** Every character of `Strip(s)` occurs in `s`. */
  lemma StripChars(s: string, c: char)
    requires c in Strip(s)
    ensures c in s
  {
    var i := StripSlice(s);
    var r := Strip(s);
    var k :| 0 <= k < |r| && r[k] == c;
    assert s[i + k] == c;
  }

  /** `strip()` leaves a string alone exactly when neither end is whitespace. */
  lemma StripFixedPoint(s: string)
    ensures Strip(s) == s <==> Trimmed(s)
  {
    var i := StripSlice(s);
  }

  /** `strip()` is idempotent. */
  lemma StripIdempotent(s: string)
    ensures Strip(Strip(s)) == Strip(s)
  {
    StripFixedPoint(Strip(s));
  }

  /** `sep.join(parts)`: all the pieces, in order, with one separator between each two. */
  function Join(parts: seq<string>, sep: string): (r: string)
    ensures parts != [] ==> |parts[0]| <= |r| && r[..|parts[0]|] == parts[0]
    decreases |parts|
  {
    if |parts| == 0 then []
    else if |parts| == 1 then parts[0]
    else
      var r := parts[0] + sep + Join(parts[1..], sep);
      assert r[..|parts[0]|] == parts[0];
      r
  }

  lemma JoinCons(p: string, rest: seq<string>, sep: string)
    ensures Join([p] + rest, sep) == if rest == [] then p else p + sep + Join(rest, sep)
  {
    if rest != [] { assert ([p] + rest)[1..] == rest; }
  }

  /** A part holding a non-whitespace character keeps the joined string from being blank. */
  lemma {:induction false} JoinNotAllSpace(parts: seq<string>, sep: string, i: nat)
    requires i < |parts| && !AllSpace(parts[i])
    ensures !AllSpace(Join(parts, sep))
    decreases |parts|
  {
    var j := Join(parts, sep);
    if |parts| == 1 {
    } else if i == 0 {
      var k :| 0 <= k < |parts[0]| && !IsSpace(parts[0][k]);
      assert j[k] == parts[0][k];
    } else {
      JoinNotAllSpace(parts[1..], sep, i - 1);
      var rest := Join(parts[1..], sep);
      var k :| 0 <= k < |rest| && !IsSpace(rest[k]);
      var d := |parts[0] + sep|;
      assert j == (parts[0] + sep) + rest;
      assert j[d + k] == rest[k];
    }
  }

  /** `s.split(sep)`: the separator-free pieces between separators, in order; always at least one. */
  function Split(s: string, sep: char): (r: seq<string>)
    ensures |r| >= 1
    ensures forall i :: 0 <= i < |r| ==> sep !in r[i]
    ensures Join(r, [sep]) == s
    decreases |s|
  {
    if s == [] then [[]]
    else
      var rest := Split(s[1..], sep);
      if s[0] == sep then
        JoinCons([], rest, [sep]);
        [[]] + rest
      else
        JoinExtendFirst(s[0], rest, [sep]);
        assert s == [s[0]] + s[1..];
        var r := [[s[0]] + rest[0]] + rest[1..];
        assert sep !in r[0] && forall i :: 1 <= i < |r| ==> r[i] == rest[i];
        r
  }

  /** Putting a character in front of the first piece puts it in front of the joined text. */
  lemma JoinExtendFirst(c: char, parts: seq<string>, sep: string)
    requires parts != []
    ensures Join([[c] + parts[0]] + parts[1..], sep) == [c] + Join(parts, sep)
  {
    var p0, more := parts[0], parts[1..];
    assert parts == [p0] + more;
    JoinCons(p0, more, sep);
    JoinCons([c] + p0, more, sep);
    if more != [] {
      assert [c] + p0 + sep + Join(more, sep) == [c] + (p0 + sep + Join(more, sep));
    }
  }

  lemma {:induction false} SplitSeparatorFree(a: string, rest: string, sep: char)
    requires sep !in a
    ensures Split(a + rest, sep) == [a + Split(rest, sep)[0]] + Split(rest, sep)[1..]
    decreases |a|
  {
    var S := Split(rest, sep);
    if a != [] {
      var a1 := a[1..];
      assert a[0] in a && forall c :: c in a1 ==> c in a;
      assert a + rest == [a[0]] + (a1 + rest);
      SplitSeparatorFree(a1, rest, sep);
      SplitOrdinaryFirst(a[0], a1 + rest, sep);
      var R := Split(a1 + rest, sep);
      assert R[0] == a1 + S[0] && R[1..] == S[1..];
      assert [a[0]] + (a1 + S[0]) == a + S[0];
    } else {
      assert a + rest == rest;
      assert a + S[0] == S[0];
      assert S == [S[0]] + S[1..];
    }
  }

  /** A first character other than the separator joins the first piece. */
  lemma SplitOrdinaryFirst(c: char, t: string, sep: char)
    requires c != sep
    ensures Split([c] + t, sep) == [[c] + Split(t, sep)[0]] + Split(t, sep)[1..]
  {
    assert ([c] + t)[0] == c && ([c] + t)[1..] == t;
  }

  /** Splitting undoes joining, as long as no piece holds the separator. */
  lemma {:induction false} SplitJoin(parts: seq<string>, sep: char)
    requires |parts| >= 1
    requires forall i :: 0 <= i < |parts| ==> sep !in parts[i]
    ensures Split(Join(parts, [sep]), sep) == parts
    decreases |parts|
  {
    if |parts| == 1 {
      SplitSingle(parts[0], sep);
    } else {
      var more := parts[1..];
      assert forall i :: 0 <= i < |more| ==> more[i] == parts[i + 1];
      SplitJoin(more, sep);
      SplitJoinStep(parts[0], more, sep);
      assert parts == [parts[0]] + more;
    }
  }

  lemma SplitSingle(p: string, sep: char)
    requires sep !in p
    ensures Split(Join([p], [sep]), sep) == [p]
  {
    SplitSeparatorFree(p, [], sep);
    assert p + [] == p;
  }

  lemma SplitJoinStep(p: string, more: seq<string>, sep: char)
    requires sep !in p && |more| >= 1
    requires Split(Join(more, [sep]), sep) == more
    ensures Split(Join([p] + more, [sep]), sep) == [p] + more
  {
    var tail := Join(more, [sep]);
    var after := [sep] + tail;
    SplitAfterSeparator(tail, sep);
    var S := Split(after, sep);
    assert S == [[]] + more;
    assert S[0] == [] && S[1..] == more;
    SplitSeparatorFree(p, after, sep);
    assert Split(p + after, sep) == [p + S[0]] + S[1..];
    assert p + S[0] == p;
    JoinCons(p, more, [sep]);
    assert Join([p] + more, [sep]) == p + after;
  }

  lemma SplitAfterSeparator(t: string, sep: char)
    ensures Split([sep] + t, sep) == [[]] + Split(t, sep)
  {
    assert ([sep] + t)[1..] == t;
  }

  /** Joining non-empty newline-free pieces with "\n" never yields two newlines in a row. */
  lemma {:induction false} JoinNoDoubleSeparator(parts: seq<string>, sep: char)
    requires forall i :: 0 <= i < |parts| ==> parts[i] != [] && sep !in parts[i]
    ensures forall k :: 0 <= k < |Join(parts, [sep])| - 1 ==>
              !(Join(parts, [sep])[k] == sep && Join(parts, [sep])[k + 1] == sep)
    ensures parts != [] ==> var j := Join(parts, [sep]);
              j != [] && j[0] != sep && j[|j| - 1] != sep
    decreases |parts|
  {
    if |parts| > 1 {
      JoinNoDoubleSeparator(parts[1..], sep);
      var p, t := parts[0], Join(parts[1..], [sep]);
      var j := p + [sep] + t;
      forall k | 0 <= k < |j| - 1 ensures !(j[k] == sep && j[k + 1] == sep) {
        if k < |p| {
          if k + 1 < |p| { assert j[k] == p[k]; } else { assert j[k] == p[k]; }
        } else if k == |p| {
          assert j[k + 1] == t[0];
        } else {
          assert j[k] == t[k - |p| - 1] && j[k + 1] == t[k - |p|];
        }
      }
      assert j[0] == p[0];
      assert j[|j| - 1] == t[|t| - 1];
    } else if |parts| == 1 {
      assert parts[0][0] in parts[0];
      assert parts[0][|parts[0]| - 1] in parts[0];
    }
  }

  /** The position of the first `c` in `s`, or `|s|` when there is none: the scan for the `>` that closes a tag. */
  function IndexOf(s: string, c: char): (k: nat)
    ensures k <= |s|
    ensures forall i :: 0 <= i < k ==> s[i] != c
    ensures k < |s| ==> s[k] == c
    ensures k == |s| <==> c !in s
  {
    if s == [] then 0 else if s[0] == c then 0 else 1 + IndexOf(s[1..], c)
  }

  /** The first `c` after a `c`-free prefix is the one that ends the prefix. */
  lemma IndexOfAfterPrefix(a: string, c: char, b: string)
    requires c !in a
    ensures IndexOf(a + [c] + b, c) == |a|
  {
    var s := a + [c] + b;
    assert s[|a|] == c;
    assert forall i :: 0 <= i < |a| ==> s[i] == a[i];
  }

  // -------------------------------------------------------------- replace

  /** `pat` starts at index `k` of `t`. */
  predicate OccursAt(t: string, pat: string, k: nat) {
    k + |pat| <= |t| && t[k..k + |pat|] == pat
  }

  /** Python's `t.startswith(p)`. */
  predicate StartsWith(t: string, p: string) {
    |p| <= |t| && t[..|p|] == p
  }

  lemma StartsWithConcat(p: string, t: string)
    ensures StartsWith(p + t, p)
  {
    assert (p + t)[..|p|] == p;
  }

  /** Python's `pat in t`. */
  predicate Contains(t: string, pat: string) {
    exists k :: 0 <= k <= |t| && OccursAt(t, pat, k)
  }

  /** `s.replace(pat, rep)`: the occurrences of `pat`, found left to right without overlap, become `rep`. */
  function Replace(s: string, pat: string, rep: string): (r: string)
    requires pat != []
    ensures forall c :: c in r ==> c in s || c in rep
    decreases |s|
  {
    if |s| < |pat| then s
    else if s[..|pat|] == pat then
      var rest := s[|pat|..];
      assert forall c :: c in rest ==> c in s;
      rep + Replace(rest, pat, rep)
    else
      var rest := s[1..];
      assert forall c :: c in rest ==> c in s;
      [s[0]] + Replace(rest, pat, rep)
  }

  /** Where the replacement string does not show, the result still reads as the input. */
  lemma {:induction false} ReplaceKeepsPrefix(s: string, pat: string, rep: string, m: nat)
    requires pat != [] && rep != []
    requires m <= |Replace(s, pat, rep)|
    requires forall i :: 0 <= i < m ==> Replace(s, pat, rep)[i] !in rep
    ensures m <= |s| && Replace(s, pat, rep)[..m] == s[..m]
    decreases |s|
  {
    var r := Replace(s, pat, rep);
    if |s| < |pat| {
    } else if s[..|pat|] == pat {
      assert r[0] == rep[0];
    } else if m > 0 {
      var r' := Replace(s[1..], pat, rep);
      assert r == [s[0]] + r';
      forall i | 0 <= i < m - 1 ensures r'[i] !in rep { assert r'[i] == r[i + 1]; }
      ReplaceKeepsPrefix(s[1..], pat, rep, m - 1);
      assert r[..m] == [s[0]] + r'[..m - 1];
    }
  }

  /** An occurrence in a suffix is an occurrence in the whole string. */
  lemma OccursInSuffix(t: string, d: nat, q: string, k: nat)
    requires d <= |t| && OccursAt(t[d..], q, k)
    ensures OccursAt(t, q, d + k)
  {
    assert t[d + k..d + k + |q|] == t[d..][k..k + |q|];
  }

  lemma NoOccurrenceInSuffix(t: string, d: nat, q: string)
    requires d <= |t| && !Contains(t, q)
    ensures !Contains(t[d..], q)
  {
    forall k | 0 <= k <= |t[d..]| && OccursAt(t[d..], q, k) ensures false {
      OccursInSuffix(t, d, q, k);
    }
  }

  /** Prepending text that cannot start `q` adds no occurrence of `q`. */
  lemma NoOccurrenceAfterPrefix(p: string, t: string, q: string)
    requires q != [] && !Contains(t, q)
    requires forall i :: 0 <= i < |p| ==> p[i] !in q
    ensures forall k :: |p| <= k <= |p + t| ==> !OccursAt(p + t, q, k)
  {
    forall k | |p| <= k <= |p + t| ensures !OccursAt(p + t, q, k) {
      if k + |q| <= |p + t| {
        assert (p + t)[k..k + |q|] == t[k - |p|..k - |p| + |q|];
        assert !OccursAt(t, q, k - |p|);
      }
    }
  }

  /**
   * When `q` shares no character with a non-empty `rep`, `s.replace(pat, rep)`
   * contains no `q` if `q` is `pat` itself, or if `s` contained none.
   */
  lemma {:induction false} ReplaceLeavesNoOccurrence(s: string, pat: string, rep: string, q: string)
    requires pat != [] && rep != [] && q != []
    requires forall i :: 0 <= i < |q| ==> q[i] !in rep
    requires q == pat || !Contains(s, q)
    ensures !Contains(Replace(s, pat, rep), q)
    decreases |s|
  {
    if |s| < |pat| {
    } else if s[..|pat|] == pat {
      if q != pat { NoOccurrenceInSuffix(s, |pat|, q); }
      ReplaceLeavesNoOccurrence(s[|pat|..], pat, rep, q);
      ReplaceMatchStep(s, pat, rep, q);
    } else {
      if q != pat { NoOccurrenceInSuffix(s, 1, q); }
      ReplaceLeavesNoOccurrence(s[1..], pat, rep, q);
      ReplaceKeptLeadingOccurrence(s, pat, rep, q);
      assert !OccursAt(s, q, 0);
      ReplaceKeepStep(s, pat, rep, q);
    }
  }

  /** `ReplaceLeavesNoOccurrence` where `s` starts with `pat`. */
  lemma ReplaceMatchStep(s: string, pat: string, rep: string, q: string)
    requires pat != [] && rep != [] && q != []
    requires forall i :: 0 <= i < |q| ==> q[i] !in rep
    requires |s| >= |pat| && s[..|pat|] == pat
    requires !Contains(Replace(s[|pat|..], pat, rep), q)
    ensures !Contains(Replace(s, pat, rep), q)
  {
    var r := Replace(s, pat, rep);
    assert r == rep + Replace(s[|pat|..], pat, rep);
    NoOccurrenceAfterPrefix(rep, Replace(s[|pat|..], pat, rep), q);
    forall k | 0 <= k < |rep| ensures !OccursAt(r, q, k) {
      assert r[k] == rep[k];
    }
  }

  /** `ReplaceLeavesNoOccurrence` where the first character of `s` is kept. */
  lemma ReplaceKeepStep(s: string, pat: string, rep: string, q: string)
    requires pat != [] && q != []
    requires |s| >= |pat| && s[..|pat|] != pat
    requires !Contains(Replace(s[1..], pat, rep), q)
    requires !OccursAt(Replace(s, pat, rep), q, 0)
    ensures !Contains(Replace(s, pat, rep), q)
  {
    var r' := Replace(s[1..], pat, rep);
    var r := Replace(s, pat, rep);
    assert r == [s[0]] + r';
    forall k | 1 <= k <= |r| ensures !OccursAt(r, q, k) {
      if k + |q| <= |r| {
        assert r[k..k + |q|] == r'[k - 1..k - 1 + |q|];
        assert !OccursAt(r', q, k - 1);
      }
    }
  }

  /** `q` occurs at the front of `[c] + t` exactly when `c` starts `q` and `t` starts with the rest of `q`. */
  lemma LeadingOccurrenceOfCons(c: char, t: string, q: string)
    requires q != []
    ensures OccursAt([c] + t, q, 0) <==> c == q[0] && |q| - 1 <= |t| && t[..|q| - 1] == q[1..]
  {
    var u := [c] + t;
    if |q| <= |u| {
      assert u[..|q|] == [c] + t[..|q| - 1];
      assert q == [q[0]] + q[1..];
    }
  }

  lemma RestAvoids(t: string, q: string, rep: string)
    requires q != [] && |q| - 1 <= |t| && t[..|q| - 1] == q[1..]
    requires forall i :: 0 <= i < |q| ==> q[i] !in rep
    ensures forall i :: 0 <= i < |q| - 1 ==> t[i] !in rep
  {
    forall i | 0 <= i < |q| - 1 ensures t[i] !in rep {
      assert t[i] == t[..|q| - 1][i] == q[i + 1];
    }
  }

  /** An occurrence at the front of the result, when the first character was kept, was already in the input. */
  lemma ReplaceKeptLeadingOccurrence(s: string, pat: string, rep: string, q: string)
    requires pat != [] && rep != [] && q != []
    requires forall i :: 0 <= i < |q| ==> q[i] !in rep
    requires |s| >= |pat| && s[..|pat|] != pat
    ensures OccursAt(Replace(s, pat, rep), q, 0) ==> OccursAt(s, q, 0)
  {
    var tail := s[1..];
    var r' := Replace(tail, pat, rep);
    assert Replace(s, pat, rep) == [s[0]] + r';
    if OccursAt([s[0]] + r', q, 0) {
      LeadingOccurrenceOfCons(s[0], r', q);
      RestAvoids(r', q, rep);
      ReplaceKeepsPrefix(tail, pat, rep, |q| - 1);
      LeadingOccurrenceOfCons(s[0], tail, q);
      assert s == [s[0]] + tail;
    }
  }

  /** A string without `pat` is left as it is. */
  lemma {:induction false} ReplaceAbsent(s: string, pat: string, rep: string)
    requires pat != [] && !Contains(s, pat)
    ensures Replace(s, pat, rep) == s
    decreases |s|
  {
    if |s| >= |pat| {
      assert !OccursAt(s, pat, 0);
      forall k: nat | OccursAt(s[1..], pat, k) ensures false {
        assert s[1 + k..1 + k + |pat|] == s[1..][k..k + |pat|];
        assert OccursAt(s, pat, 1 + k);
      }
      ReplaceAbsent(s[1..], pat, rep);
    }
  }

  /** A string without the first character of `pat` cannot contain `pat`. */
  lemma AbsentFirstChar(s: string, pat: string)
    requires pat != [] && pat[0] !in s
    ensures !Contains(s, pat)
  {
    forall k | 0 <= k <= |s| ensures !OccursAt(s, pat, k) {
      if k + |pat| <= |s| {
        assert s[k..k + |pat|][0] == s[k];
      }
    }
  }

  // -------------------------------------------------------------- decimal

  predicate IsDigit(c: char) {
    '0' <= c <= '9'
  }

  predicate AllDigits(s: string) {
    forall i :: 0 <= i < |s| ==> IsDigit(s[i])
  }

  function DigitChar(d: nat): (c: char)
    requires d < 10
    ensures IsDigit(c) && c as int - '0' as int == d
  {
    ('0' as int + d) as char
  }

  /** The number a string of decimal digits denotes (leading zeros allowed). */
  function DigitsValue(s: string): nat
    requires AllDigits(s)
    decreases |s|
  {
    if s == [] then 0 else DigitsValue(s[..|s| - 1]) * 10 + (s[|s| - 1] as int - '0' as int)
  }

  /** `str(n)` for a natural number: decimal digits, no leading zero. */
  function NatToString(n: nat): (r: string)
    ensures r != [] && AllDigits(r)
    ensures r[0] == '0' ==> r == "0"
    ensures (n < 10 <==> |r| == 1) && (n < 100 <==> |r| <= 2)
    decreases n
  {
    if n < 10 then [DigitChar(n)] else NatToString(n / 10) + [DigitChar(n % 10)]
  }

  /** Reading back the digits of `str(n)` gives `n`. */
  lemma {:induction false} NatToStringValue(n: nat)
    ensures DigitsValue(NatToString(n)) == n
    decreases n
  {
    if n >= 10 {
      NatToStringValue(n / 10);
      var s := NatToString(n);
      assert s[..|s| - 1] == NatToString(n / 10);
    }
  }

  lemma NatToStringInjective(a: nat, b: nat)
    requires NatToString(a) == NatToString(b)
    ensures a == b
  {
    NatToStringValue(a);
    NatToStringValue(b);
  }

  /** `str(i)` for any integer: a leading '-' for negative values. */
  function IntToString(i: int): (r: string)
    ensures r != [] && ':' !in r
    ensures i >= 0 ==> AllDigits(r)
    ensures r[0] == '-' <==> i < 0
  {
    if i < 0 then "-" + NatToString(-i) else NatToString(i)
  }

  /** Distinct integers have distinct decimal renderings. */
  lemma IntToStringInjective(a: int, b: int)
    requires IntToString(a) == IntToString(b)
    ensures a == b
  {
    var s := IntToString(a);
    if a < 0 {
      assert NatToString(-a) == s[1..] == NatToString(-b);
      NatToStringInjective(-a, -b);
    } else {
      NatToStringInjective(a, b);
    }
  }

  /** `f"{n:02d}"`: decimal digits left-padded with '0' to at least two. */
  function PadTwo(n: nat): (r: string)
    ensures AllDigits(r) && DigitsValue(r) == n
    ensures |r| >= 2 && (n < 100 <==> |r| == 2)
  {
    NatToStringValue(n);
    var d := NatToString(n);
    if |d| < 2 then
      assert ("0" + d)[..1] == "0";
      "0" + d
    else
      d
  }
}
