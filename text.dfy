/** Python string operations as the crawler uses them: `sep in s`, `s.startswith(p)`,
    `s[k:]`, `s.split(sep)`, `sep.join(parts)`, `s.replace(c, '')`, `int(d)` on a run of
    digits and `str(n)` on a natural number. */
module Text {
  import opened Base

  /** `sep` occurs in `s` at index `i`. */
  predicate OccursAt(s: string, sep: string, i: nat)
  {
    i + |sep| <= |s| && s[i..i + |sep|] == sep
  }

  /** Python's `sep in s`. */
  predicate Contains(s: string, sep: string)
  {
    exists i | 0 <= i <= |s| :: OccursAt(s, sep, i)
  }

  /** Python's `s.startswith(p)`. */
  predicate StartsWith(s: string, p: string)
  {
    |p| <= |s| && s[..|p|] == p
  }

  /** Python's `s[k:]`, which is empty when `k` is past the end. */
  function Drop(s: string, k: nat): (r: string)
    ensures |r| == if k <= |s| then |s| - k else 0
    ensures k <= |s| ==> s == s[..k] + r
  {
    if k <= |s| then s[k..] else ""
  }

  /** The first index at or after `from` where `sep` occurs (Python's `s.find(sep, from)`). */
  function FindFrom(s: string, sep: string, from: nat): (r: Option<nat>)
    decreases |s| - from
    ensures r.Some? ==> from <= r.value && OccursAt(s, sep, r.value)
    ensures r.Some? ==> forall j :: from <= j < r.value ==> !OccursAt(s, sep, j)
    ensures r.None? ==> forall j :: from <= j ==> !OccursAt(s, sep, j)
  {
    if from + |sep| > |s| then None
    else if s[from..from + |sep|] == sep then Some(from)
    else FindFrom(s, sep, from + 1)
  }

  /** Python's `s.find(sep)`; `FindSpec` states what it finds. */
  function Find(s: string, sep: string): (r: Option<nat>)
    ensures r.Some? ==> r.value + |sep| <= |s|
  {
    FindFrom(s, sep, 0)
  }

  /** `Find` succeeds exactly when `sep` occurs in `s`, and then finds the first
      occurrence. */
  lemma FindSpec(s: string, sep: string)
    ensures Find(s, sep).Some? <==> Contains(s, sep)
    ensures Find(s, sep).Some? ==> OccursAt(s, sep, Find(s, sep).value)
    ensures Find(s, sep).Some? ==> forall j: nat :: j < Find(s, sep).value ==> !OccursAt(s, sep, j)
  {
  }

  /** Python's `s.split(sep)` for a non-empty separator: the pieces between the
      occurrences of `sep`, found from left to right without overlap. */
  function Split(s: string, sep: string): (r: seq<string>)
    requires |sep| > 0
    ensures |r| >= 1
    decreases |s|
  {
    match Find(s, sep)
    case None => [s]
    case Some(i) => [s[..i]] + Split(s[i + |sep|..], sep)
  }

  /** Python's `sep.join(parts)`. */
  function Join(parts: seq<string>, sep: string): string
    decreases |parts|
  {
    if |parts| == 0 then ""
    else if |parts| == 1 then parts[0]
    else parts[0] + sep + Join(parts[1..], sep)
  }

  function Last<T>(xs: seq<T>): T
    requires |xs| > 0
  {
    xs[|xs| - 1]
  }

  /** Python's `s.replace(c, '')` for a single character. */
  function RemoveChar(s: string, c: char): (r: string)
    ensures forall i :: 0 <= i < |r| ==> r[i] != c
    ensures |r| <= |s|
  {
    if |s| == 0 then ""
    else if s[0] == c then RemoveChar(s[1..], c)
    else [s[0]] + RemoveChar(s[1..], c)
  }

  /** Joining the pieces of a split with the same separator gives back the string. */
  lemma {:induction false} SplitJoin(s: string, sep: string)
    requires |sep| > 0
    ensures Join(Split(s, sep), sep) == s
    decreases |s|
  {
    var f := Find(s, sep);
    if f.Some? {
      var i := f.value;
      var rest := s[i + |sep|..];
      SplitJoin(rest, sep);
      SplitStep(s, sep, i);
      JoinCons(s[..i], Split(rest, sep), sep);
      CutAt(s, sep, i);
    }
  }

  /** One step of the split: the first piece, then the pieces of the rest. */
  lemma SplitStep(s: string, sep: string, i: nat)
    requires |sep| > 0 && Find(s, sep) == Some(i)
    ensures i + |sep| <= |s|
    ensures Split(s, sep) == [s[..i]] + Split(s[i + |sep|..], sep)
  {
  }

  lemma JoinCons(a: string, tail: seq<string>, sep: string)
    requires |tail| > 0
    ensures Join([a] + tail, sep) == a + sep + Join(tail, sep)
  {
    assert ([a] + tail)[1..] == tail;
  }

  /** An occurrence of `sep` at `i` cuts `s` into the part before, `sep` and the rest. */
  lemma CutAt(s: string, sep: string, i: nat)
    requires OccursAt(s, sep, i)
    ensures s == s[..i] + sep + s[i + |sep|..]
  {
    assert s == s[..i] + s[i..i + |sep|] + s[i + |sep|..];
  }

  /** No piece of a split contains the separator. */
  lemma {:induction false} SplitPiecesFree(s: string, sep: string)
    requires |sep| > 0
    ensures forall k :: 0 <= k < |Split(s, sep)| ==> !Contains(Split(s, sep)[k], sep)
    decreases |s|
  {
    match Find(s, sep)
    case None =>
    case Some(i) =>
      var rest := s[i + |sep|..];
      SplitPiecesFree(rest, sep);
      var p := s[..i];
      FindSpec(s, sep);
      forall j | 0 <= j <= |p| ensures !OccursAt(p, sep, j) {
        PrefixOccurs(s, i, sep, j);
      }
      assert Split(s, sep) == [p] + Split(rest, sep);
  }

  /** An occurrence in a prefix of `s` is an occurrence in `s`, ending within the prefix. */
  lemma PrefixOccurs(s: string, i: nat, sep: string, j: nat)
    requires i <= |s|
    ensures OccursAt(s[..i], sep, j) ==> OccursAt(s, sep, j) && j + |sep| <= i
  {
    if OccursAt(s[..i], sep, j) {
      assert s[j..j + |sep|] == s[..i][j..j + |sep|];
    }
  }

  /** A string without the separator splits into itself alone. */
  lemma SplitWithout(s: string, sep: string)
    requires |sep| > 0 && !Contains(s, sep)
    ensures Split(s, sep) == [s]
  {
  }

  /** No non-empty proper prefix of `sep` is also a suffix of it, so two occurrences of
      `sep` can never overlap. */
  predicate Unbordered(sep: string)
  {
    forall k :: 0 < k < |sep| ==> sep[..k] != sep[|sep| - k..]
  }

  /** `Find` returns an occurrence that has no occurrence before it. */
  lemma FindIs(s: string, sep: string, k: nat)
    requires OccursAt(s, sep, k)
    requires forall j: nat :: j < k ==> !OccursAt(s, sep, j)
    ensures Find(s, sep) == Some(k)
  {
    assert k <= |s|;
    assert Contains(s, sep);
  }

  /** In `a + sep + b`, an unbordered `sep` absent from `a` does not occur before `|a|`. */
  lemma NoEarlierOccurrence(a: string, sep: string, b: string, j: nat)
    requires Unbordered(sep) && !Contains(a, sep) && j < |a|
    ensures !OccursAt(a + sep + b, sep, j)
  {
    var s := a + sep + b;
    if j + |sep| <= |a| {
      assert s[j..j + |sep|] == a[j..j + |sep|];
      assert j <= |a| && !OccursAt(a, sep, j);
    } else if j + |sep| <= |s| {
      var k := j + |sep| - |a|;
      assert 0 < k < |sep|;
      assert s[j..j + |sep|][|sep| - k..] == s[|a|..|a| + k] == sep[..k];
      assert sep[|sep| - k..] != sep[..k];
    }
  }

  /** The first occurrence of an unbordered `sep` in `a + sep + b`, with `a` free of it,
      is the one right after `a`. */
  lemma FindAround(a: string, sep: string, b: string)
    requires Unbordered(sep) && !Contains(a, sep)
    ensures Find(a + sep + b, sep) == Some(|a|)
  {
    var s := a + sep + b;
    assert OccursAt(s, sep, |a|) by { assert s[|a|..|a| + |sep|] == sep; }
    assert forall j: nat :: j < |a| ==> !OccursAt(s, sep, j) by {
      forall j: nat | j < |a| ensures !OccursAt(s, sep, j) {
        NoEarlierOccurrence(a, sep, b, j);
      }
    }
    FindIs(s, sep, |a|);
  }

  /** Splitting `a + sep + b` where neither part contains an unbordered separator gives
      exactly the two parts back. */
  lemma SplitAround(a: string, sep: string, b: string)
    requires |sep| > 0 && Unbordered(sep)
    requires !Contains(a, sep) && !Contains(b, sep)
    ensures Split(a + sep + b, sep) == [a, b]
  {
    FindAround(a, sep, b);
    var s := a + sep + b;
    assert s[|a| + |sep|..] == b;
    assert s[..|a|] == a;
    SplitWithout(b, sep);
  }

  /** A string with at least one separator splits into at least two pieces, the first
      being the text before the first separator. */
  lemma SplitFirst(s: string, sep: string)
    requires |sep| > 0 && Contains(s, sep)
    ensures |Split(s, sep)| >= 2 && Split(s, sep)[0] == s[..Find(s, sep).value]
  {
  }

  /** An occurrence found in `a` is still the first one once text is appended. */
  lemma FindInPrefix(a: string, t: string, sep: string)
    requires Find(a, sep).Some?
    ensures Find(a + t, sep) == Find(a, sep)
  {
    var i := Find(a, sep).value;
    var s := a + t;
    assert OccursAt(a, sep, i);
    assert s[i..i + |sep|] == a[i..i + |sep|];
    forall j: nat | j < i ensures !OccursAt(s, sep, j) {
      assert !OccursAt(a, sep, j);
      assert s[j..j + |sep|] == a[j..j + |sep|];
    }
    FindIs(s, sep, i);
  }

  /** With a one-character separator, the last piece of `a + sep + b` is `b` when `b`
      holds no separator, whatever `a` holds. */
  lemma {:induction false} SplitLast(a: string, sep: string, b: string)
    requires |sep| == 1 && !Contains(b, sep)
    ensures Last(Split(a + sep + b, sep)) == b
    decreases |a|
  {
    match Find(a, sep)
    case None =>
      SplitAtOnly(a, sep, b);
    case Some(i) =>
      SplitAtFirst(a, sep, b, i);
      SplitLast(a[i + 1..], sep, b);
  }

  /** The one separator between two separator-free strings splits them apart. */
  lemma SplitAtOnly(a: string, sep: string, b: string)
    requires |sep| == 1 && !Contains(a, sep) && !Contains(b, sep)
    ensures Last(Split(a + sep + b, sep)) == b
  {
    var s := a + sep + b;
    FindAround(a, sep, b);
    assert s[|a| + 1..] == b;
    SplitWithout(b, sep);
  }

  /** A separator inside `a` ends the first piece there, and the rest is split alike. */
  lemma SplitAtFirst(a: string, sep: string, b: string, i: nat)
    requires |sep| == 1 && Find(a, sep) == Some(i)
    ensures i < |a|
    ensures Split(a + sep + b, sep) == [a[..i]] + Split(a[i + 1..] + sep + b, sep)
  {
    var s := a + sep + b;
    FindInPrefix(a, sep + b, sep);
    assert a + (sep + b) == s;
    assert s[i + 1..] == a[i + 1..] + sep + b;
    assert s[..i] == a[..i];
  }

  /** A string lacking the character `c` does not contain the one-character string. */
  lemma LacksNotContains(s: string, c: char)
    requires Lacks(s, c)
    ensures !Contains(s, [c])
  {
    forall j | 0 <= j <= |s| ensures !OccursAt(s, [c], j) {
      if j + 1 <= |s| {
        assert s[j..j + 1][0] == s[j];
      }
    }
  }

  // ---- digits -------------------------------------------------------------------

  predicate IsDigit(c: char)
  {
    '0' <= c <= '9'
  }

  predicate AllDigits(s: string)
  {
    forall i :: 0 <= i < |s| ==> IsDigit(s[i])
  }

  /** The decimal value of a string of digits (leading zeros allowed, as `int()` does). */
  function DigitsValue(s: string): nat
    requires AllDigits(s)
  {
    if |s| == 0 then 0
    else 10 * DigitsValue(s[..|s| - 1]) + (s[|s| - 1] as int - '0' as int)
  }

  /** Python's `int(d)` for a `\d*` capture: `''` raises ValueError. */
  function ParseDigits(d: string): (r: Result<nat>)
    requires AllDigits(d)
    ensures r.Err? <==> d == ""
  {
    if d == "" then Err(ValueError) else Ok(DigitsValue(d))
  }

  function DigitChar(n: nat): (c: char)
    requires n < 10
    ensures IsDigit(c)
  {
    ('0' as int + n) as char
  }

  /** Python's `str(n)` for a natural number: decimal, no leading zero. */
  function NatToString(n: nat): (r: string)
    ensures |r| > 0 && AllDigits(r)
  {
    if n < 10 then [DigitChar(n)] else NatToString(n / 10) + [DigitChar(n % 10)]
  }

  /** Reading back the decimal form of `n` gives `n`. */
  lemma {:induction false} NatToStringValue(n: nat)
    ensures DigitsValue(NatToString(n)) == n
  {
    if n >= 10 {
      NatToStringValue(n / 10);
      var s := NatToString(n);
      assert s[..|s| - 1] == NatToString(n / 10);
    }
  }

  /** Different numbers have different decimal forms. */
  lemma NatToStringInjective(m: nat, n: nat)
    requires NatToString(m) == NatToString(n)
    ensures m == n
  {
    NatToStringValue(m);
    NatToStringValue(n);
  }

  /** The end of the longest run of digits that starts at `i`. */
  function DigitRunEnd(s: string, i: nat): (k: nat)
    requires i <= |s|
    ensures i <= k <= |s| && AllDigits(s[i..k])
    ensures k < |s| ==> !IsDigit(s[k])
    decreases |s| - i
  {
    if i < |s| && IsDigit(s[i]) then
      var k := DigitRunEnd(s, i + 1);
      assert s[i..k] == [s[i]] + s[i + 1..k];
      k
    else i
  }

  /** Python's `\s` on a `str` pattern: the characters for which `str.isspace()` holds. */
  predicate IsSpace(c: char)
  {
    ('\t' <= c <= '\r') || ('\U{1C}' <= c <= ' ') || c == '\U{85}' || c == '\U{A0}'
    || c == '\U{1680}' || ('\U{2000}' <= c <= '\U{200A}') || c == '\U{2028}' || c == '\U{2029}'
    || c == '\U{202F}' || c == '\U{205F}' || c == '\U{3000}'
  }

  /** The end of the longest run of whitespace that starts at `i`. */
  function SpaceRunEnd(s: string, i: nat): (k: nat)
    requires i <= |s|
    ensures i <= k <= |s| && forall j :: i <= j < k ==> IsSpace(s[j])
    ensures k < |s| ==> !IsSpace(s[k])
    decreases |s| - i
  {
    if i < |s| && IsSpace(s[i]) then SpaceRunEnd(s, i + 1) else i
  }

  /** The run of digits starting at `i` in `d + t`, when `d` is all digits and `t` does
      not start with one, is `d` itself. */
  lemma DigitRunOf(s: string, i: nat, d: string)
    requires i + |d| <= |s| && s[i..i + |d|] == d && AllDigits(d)
    requires i + |d| < |s| ==> !IsDigit(s[i + |d|])
    ensures DigitRunEnd(s, i) == i + |d|
    decreases |d|
  {
    if |d| > 0 {
      assert s[i] == d[0];
      DigitRunOf(s, i + 1, d[1..]);
    }
  }

  /** The run of whitespace starting at `i` in `s` is exactly `w` when `w` is all
      whitespace and is not followed by more. */
  lemma SpaceRunOf(s: string, i: nat, w: string)
    requires i + |w| <= |s| && s[i..i + |w|] == w
    requires forall j :: 0 <= j < |w| ==> IsSpace(w[j])
    requires i + |w| < |s| ==> !IsSpace(s[i + |w|])
    ensures SpaceRunEnd(s, i) == i + |w|
    decreases |w|
  {
    if |w| > 0 {
      assert s[i] == w[0];
      SpaceRunOf(s, i + 1, w[1..]);
    }
  }

  /** `c` does not occur in `s`. */
  predicate Lacks(s: string, c: char)
  {
    forall i :: 0 <= i < |s| ==> s[i] != c
  }

  /** A literal that starts with a character `p` lacks, and that `rest` does not contain,
      does not occur in `p + rest`. */
  lemma NotInConcat(p: string, rest: string, lit: string, k: nat)
    requires |lit| > 0 && Lacks(p, lit[0]) && !Contains(rest, lit)
    ensures !OccursAt(p + rest, lit, k)
  {
    var s := p + rest;
    if k < |p| && k + |lit| <= |s| {
      assert s[k..k + |lit|][0] == p[k];
    } else if k + |lit| <= |s| {
      assert s[k..k + |lit|] == rest[k - |p|..k - |p| + |lit|];
      assert !OccursAt(rest, lit, k - |p|);
    }
  }

  // ---- regular-expression search ----------------------------------------------------

  /** Python's `re.findall(pattern, s)[0]` when it exists: the captures of the match at the
      leftmost position, scanning from `from`. `at(s, i)` gives the captures of the
      pattern matched at position `i`, or `None` when it does not match there. */
  function FirstMatch<T>(s: string, at: (string, nat) -> Option<T>, from: nat): (r: Option<(nat, T)>)
    decreases |s| + 1 - from
    ensures r.Some? ==> from <= r.value.0 <= |s| && at(s, r.value.0) == Some(r.value.1)
    ensures r.Some? ==> forall j :: from <= j < r.value.0 ==> at(s, j).None?
    ensures r.None? ==> forall j :: from <= j <= |s| ==> at(s, j).None?
  {
    if from > |s| then None
    else match at(s, from)
      case Some(v) => Some((from, v))
      case None => FirstMatch(s, at, from + 1)
  }

  /** A pattern that matches at the start is found there. */
  lemma FirstMatchAtStart<T>(s: string, at: (string, nat) -> Option<T>)
    requires at(s, 0).Some?
    ensures FirstMatch(s, at, 0) == Some((0, at(s, 0).value))
  {
  }

  /** A pattern that matches nowhere from `from` on is not found. */
  lemma {:induction false} FirstMatchNone<T>(s: string, at: (string, nat) -> Option<T>, from: nat)
    requires forall j :: from <= j <= |s| ==> at(s, j).None?
    ensures FirstMatch(s, at, from).None?
    decreases |s| + 1 - from
  {
    if from <= |s| {
      FirstMatchNone(s, at, from + 1);
    }
  }

  /** The first position from `from` on where a pattern matches is the one found. */
  lemma {:induction false} FirstMatchFrom<T>(s: string, at: (string, nat) -> Option<T>, from: nat, k: nat)
    requires from <= k <= |s| && at(s, k).Some?
    requires forall j :: from <= j < k ==> at(s, j).None?
    ensures FirstMatch(s, at, from) == Some((k, at(s, k).value))
    decreases k - from
  {
    if from < k {
      FirstMatchFrom(s, at, from + 1, k);
    }
  }
}
