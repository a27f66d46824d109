/**
 * The string operations the scrapers and the database importer rely on:
 * Python's `str.split(sep)`, `str.strip()`, `str.replace('\n', ' ')` and the
 * decimal rendering of a page number in an f-string.
 */
module Text {

  /** The last element of a non-empty sequence (Python's `xs[-1]`). */
  function Last<T>(xs: seq<T>): T
    requires |xs| > 0
  {
    xs[|xs| - 1]
  }

  /** Concatenation regroups freely. */
  lemma AppendAssoc<T>(a: seq<T>, b: seq<T>, c: seq<T>)
    ensures (a + b) + c == a + (b + c)
  {
  }

  /** `prefix` is a head of `s`. */
  ghost predicate IsPrefix(prefix: string, s: string) {
    |prefix| <= |s| && forall i {:trigger prefix[i]} :: 0 <= i < |prefix| ==> prefix[i] == s[i]
  }

  /** The last element of a concatenation is that of its non-empty right part. */
  lemma LastOfAppend<T>(a: seq<T>, b: seq<T>)
    requires |b| > 0
    ensures Last(a + b) == Last(b)
  {
  }

  /** `suffix` is a tail of `s`. */
  ghost predicate IsSuffix(suffix: string, s: string) {
    |suffix| <= |s| && forall i :: 0 <= i < |suffix| ==> suffix[i] == s[|s| - |suffix| + i]
  }

  /** Position of the first `c` in `s`, or `|s|` when `c` does not occur. */
  function IndexOf(s: string, c: char): (i: nat)
    ensures i <= |s|
    ensures c !in s[..i]
    ensures i < |s| ==> s[i] == c
  {
    if s == [] then 0
    else if s[0] == c then 0
    else 1 + IndexOf(s[1..], c)
  }

  /**
   * Python's `s.split(sep)` for a one-character separator: the maximal
   * separator-free pieces between occurrences of `sep`, empty pieces included.
   */
  function Split(s: string, sep: char): (parts: seq<string>)
    ensures |parts| >= 1
    ensures forall i :: 0 <= i < |parts| ==> sep !in parts[i]
    decreases |s|
  {
    var i := IndexOf(s, sep);
    if i == |s| then [s] else [s[..i]] + Split(s[i + 1..], sep)
  }

  /** Python's `sep.join(parts)`. */
  function Join(parts: seq<string>, sep: char): string
    requires |parts| >= 1
  {
    if |parts| == 1 then parts[0] else parts[0] + [sep] + Join(parts[1..], sep)
  }

  /** Splitting loses nothing: joining the pieces gives the string back. */
  lemma {:induction false} JoinSplit(s: string, sep: char)
    ensures Join(Split(s, sep), sep) == s
    decreases |s|
  {
    var i := IndexOf(s, sep);
    if i < |s| {
      var rest := s[i + 1..];
      var parts := Split(s, sep);
      assert parts == [s[..i]] + Split(rest, sep);
      assert parts[0] == s[..i] && parts[1..] == Split(rest, sep);
      JoinSplit(rest, sep);
      assert Join(parts, sep) == s[..i] + [sep] + Join(Split(rest, sep), sep);
      assert s == s[..i] + [sep] + rest;
    }
  }

  /** Splitting a join of separator-free pieces gives the pieces back. */
  lemma {:induction false} SplitJoin(parts: seq<string>, sep: char)
    requires |parts| >= 1
    requires forall i :: 0 <= i < |parts| ==> sep !in parts[i]
    ensures Split(Join(parts, sep), sep) == parts
  {
    var s := Join(parts, sep);
    if |parts| == 1 {
      IndexOfAbsent(parts[0], sep);
    } else {
      var rest := Join(parts[1..], sep);
      assert s == parts[0] + ([sep] + rest);
      IndexOfFirst(parts[0], [sep] + rest, sep);
      assert IndexOf(s, sep) == |parts[0]|;
      assert s[..|parts[0]|] == parts[0];
      assert s[|parts[0]| + 1..] == rest;
      SplitJoin(parts[1..], sep);
    }
  }

  lemma {:induction false} IndexOfAbsent(s: string, c: char)
    requires c !in s
    ensures IndexOf(s, c) == |s|
  {
    if s != [] {
      assert s[0] in s;
      assert forall x :: x in s[1..] ==> x in s;
      IndexOfAbsent(s[1..], c);
    }
  }

  lemma {:induction false} IndexOfFirst(a: string, b: string, c: char)
    requires c !in a
    requires |b| > 0 && b[0] == c
    ensures IndexOf(a + b, c) == |a|
  {
    if a != [] {
      assert a[0] in a;
      assert forall x :: x in a[1..] ==> x in a;
      assert (a + b)[1..] == a[1..] + b;
      IndexOfFirst(a[1..], b, c);
    }
  }

  /** Splitting at a first separator peels off the piece before it. */
  lemma SplitAt(a: string, b: string, sep: char)
    requires sep !in a
    ensures Split(a + [sep] + b, sep) == [a] + Split(b, sep)
  {
    var s := a + [sep] + b;
    assert s == a + ([sep] + b);
    IndexOfFirst(a, [sep] + b, sep);
    assert s[..|a|] == a;
    assert s[|a| + 1..] == b;
  }

  /** `t` ends `s`, and unless it is all of `s` a `sep` comes right before it. */
  ghost predicate EndsAfter(t: string, s: string, sep: char) {
    IsSuffix(t, s) && (|t| == |s| || s[|s| - |t| - 1] == sep)
  }

  /** The last piece of a split is the separator-free tail of the string. */
  lemma {:induction false} LastSplitIsTail(s: string, sep: char)
    ensures EndsAfter(Last(Split(s, sep)), s, sep)
    decreases |s|
  {
    var i := IndexOf(s, sep);
    if i < |s| {
      var rest := s[i + 1..];
      LastSplitIsTail(rest, sep);
      LastSplitStep(s, sep);
      TailAfterSeparator(s, i, Last(Split(rest, sep)), sep);
    } else {
      LastSplitNone(s, sep);
    }
  }

  lemma LastSplitNone(s: string, sep: char)
    requires IndexOf(s, sep) == |s|
    ensures Last(Split(s, sep)) == s && EndsAfter(s, s, sep)
  {
  }

  /** Past a first separator, the last piece is the last piece of what follows it. */
  lemma LastSplitStep(s: string, sep: char)
    requires IndexOf(s, sep) < |s|
    ensures Last(Split(s, sep)) == Last(Split(s[IndexOf(s, sep) + 1..], sep))
  {
    var i := IndexOf(s, sep);
    var tail := Split(s[i + 1..], sep);
    assert Split(s, sep) == [s[..i]] + tail;
    LastOfAppend([s[..i]], tail);
  }

  /** A tail of `s[i + 1..]` is a tail of `s`; when it is all of it, `s[i]` precedes it. */
  lemma TailAfterSeparator(s: string, i: nat, t: string, sep: char)
    requires i < |s| && s[i] == sep
    requires EndsAfter(t, s[i + 1..], sep)
    ensures EndsAfter(t, s, sep)
  {
    var rest := s[i + 1..];
    DropIsSuffix(s, i + 1);
    SuffixTrans(t, rest, s);
    if |t| != |rest| {
      assert rest[|rest| - |t| - 1] == s[|s| - |t| - 1];
    }
  }

  lemma DropIsSuffix(s: string, j: nat)
    requires j <= |s|
    ensures IsSuffix(s[j..], s)
  {
  }

  /** A tail of a tail is a tail. */
  lemma SuffixTrans(t: string, u: string, s: string)
    requires IsSuffix(t, u) && IsSuffix(u, s)
    ensures IsSuffix(t, s)
  {
    forall k | 0 <= k < |t|
      ensures t[k] == s[|s| - |t| + k]
    {
      assert t[k] == u[|u| - |t| + k];
    }
  }

  /** The text after the last `sep` (the whole string when `sep` does not occur). */
  function LastSegment(s: string, sep: char): (t: string)
    ensures sep !in t
  {
    Last(Split(s, sep))
  }

  /**
   * The last segment ends the string and is preceded by a separator unless it
   * is the whole string; without a separator it is the whole string.
   */
  lemma LastSegmentIsTail(s: string, sep: char)
    ensures var t := LastSegment(s, sep);
      && EndsAfter(t, s, sep)
      && (sep !in s ==> t == s)
  {
    LastSplitIsTail(s, sep);
    if sep !in s {
      IndexOfAbsent(s, sep);
    }
  }

  /**
   * The characters Python's `str.strip()` removes, restricted to ASCII: space, tab,
   * line feed, vertical tab, form feed, carriage return and the separators 0x1C-0x1F.
   */
  predicate IsSpace(c: char) {
    c == ' ' || c == '\t' || c == '\n' || c == '\r' || c as int == 11 || c as int == 12 || 28 <= c as int <= 31
  }

  /** Text that neither starts nor ends with whitespace, as `strip()` leaves it. */
  predicate Trimmed(s: string) {
    s == [] || (!IsSpace(s[0]) && !IsSpace(s[|s| - 1]))
  }

  function TrimStart(s: string): (r: string)
    ensures |r| <= |s|
  {
    if s == [] || !IsSpace(s[0]) then s else TrimStart(s[1..])
  }

  /** Trimming the front leaves a tail of the string. */
  lemma {:induction false} TrimStartIsSuffix(s: string)
    ensures IsSuffix(TrimStart(s), s)
  {
    if s != [] && IsSpace(s[0]) {
      TrimStartIsSuffix(s[1..]);
      DropIsSuffix(s, 1);
      SuffixTrans(TrimStart(s[1..]), s[1..], s);
    }
  }

  /** Trimming the front removes only spaces and stops at a non-space. */
  lemma {:induction false} TrimStartRemovesSpaces(s: string)
    ensures var r := TrimStart(s); r == [] || !IsSpace(r[0])
    ensures forall i :: 0 <= i < |s| - |TrimStart(s)| ==> IsSpace(s[i])
  {
    if s != [] && IsSpace(s[0]) {
      var rest := s[1..];
      TrimStartRemovesSpaces(rest);
      forall i | 0 <= i < |s| - |TrimStart(rest)|
        ensures IsSpace(s[i])
      {
        if i > 0 {
          assert s[i] == rest[i - 1];
        }
      }
    }
  }

  function TrimEnd(s: string): (r: string)
    ensures |r| <= |s|
  {
    if s == [] || !IsSpace(s[|s| - 1]) then s else TrimEnd(s[..|s| - 1])
  }

  /** Trimming the back leaves a head of the string. */
  lemma {:induction false} TrimEndIsPrefix(s: string)
    ensures IsPrefix(TrimEnd(s), s)
  {
    if s != [] && IsSpace(s[|s| - 1]) {
      var init := s[..|s| - 1];
      TrimEndIsPrefix(init);
      var r := TrimEnd(init);
      forall k | 0 <= k < |r|
        ensures r[k] == s[k]
      {
        assert r[k] == init[k];
      }
    }
  }

  /** Trimming the back removes only spaces and stops at a non-space. */
  lemma {:induction false} TrimEndRemovesSpaces(s: string)
    ensures var r := TrimEnd(s); r == [] || !IsSpace(r[|r| - 1])
    ensures forall i :: |TrimEnd(s)| <= i < |s| ==> IsSpace(s[i])
  {
    if s != [] && IsSpace(s[|s| - 1]) {
      var init := s[..|s| - 1];
      TrimEndRemovesSpaces(init);
      forall i | |TrimEnd(init)| <= i < |s|
        ensures IsSpace(s[i])
      {
        if i < |s| - 1 {
          assert s[i] == init[i];
        }
      }
    }
  }

  /** Python's `s.strip()`: `s` without its leading and trailing whitespace. */
  function Strip(s: string): (r: string)
    ensures |r| <= |s|
    ensures Trimmed(r)
  {
    StripEnds(s);
    TrimStart(TrimEnd(s))
  }

  /** How many leading spaces `Strip` removes. */
  function StripLead(s: string): nat {
    |TrimEnd(s)| - |Strip(s)|
  }

  /** The stripped text sits in `s` right after the leading spaces. */
  lemma StripIsSlice(s: string)
    ensures StripLead(s) + |Strip(s)| <= |s|
    ensures forall i :: 0 <= i < |Strip(s)| ==> Strip(s)[i] == s[StripLead(s) + i]
  {
    TrimEndIsPrefix(s);
    TrimStartIsSuffix(TrimEnd(s));
    SuffixOfPrefix(Strip(s), TrimEnd(s), s, StripLead(s));
  }

  /** A tail of a head of `s` sits in `s` at the matching offset. */
  lemma SuffixOfPrefix(r: string, e: string, s: string, lead: int)
    requires IsSuffix(r, e) && IsPrefix(e, s) && lead == |e| - |r|
    ensures lead + |r| <= |s|
    ensures forall i :: 0 <= i < |r| ==> r[i] == s[lead + i]
  {
    forall i | 0 <= i < |r|
      ensures r[i] == s[lead + i]
    {
      assert r[i] == e[lead + i];
    }
  }

  /** Only spaces come before and after the stripped text. */
  lemma StripRemovesSpaces(s: string)
    ensures forall i :: 0 <= i < StripLead(s) ==> IsSpace(s[i])
    ensures forall i :: StripLead(s) + |Strip(s)| <= i < |s| ==> IsSpace(s[i])
  {
    var e := TrimEnd(s);
    TrimEndIsPrefix(s);
    TrimEndRemovesSpaces(s);
    TrimStartRemovesSpaces(e);
    var r := TrimStart(e);
    forall i | 0 <= i < |e| - |r|
      ensures IsSpace(s[i])
    {
      assert IsSpace(e[i]);
    }
  }

  /** Trimming both ends leaves text that neither starts nor ends with a space. */
  lemma StripEnds(s: string)
    ensures Trimmed(TrimStart(TrimEnd(s)))
  {
    var e := TrimEnd(s);
    TrimEndRemovesSpaces(s);
    TrimStartRemovesSpaces(e);
    TrimStartIsSuffix(e);
    var r := TrimStart(e);
    if r != [] {
      assert r[|r| - 1] == e[|e| - 1];
    }
  }

  /**
   * `s` is a run of spaces, then `Strip(s)`, then a run of spaces, and the
   * stripped text neither starts nor ends with a space.
   */
  lemma StripIsCore(s: string)
    ensures StripLead(s) + |Strip(s)| <= |s|
    ensures forall i :: 0 <= i < |Strip(s)| ==> Strip(s)[i] == s[StripLead(s) + i]
    ensures forall i :: 0 <= i < StripLead(s) ==> IsSpace(s[i])
    ensures forall i :: StripLead(s) + |Strip(s)| <= i < |s| ==> IsSpace(s[i])
    ensures Trimmed(Strip(s))
  {
    StripIsSlice(s);
    StripRemovesSpaces(s);
    StripEnds(s);
  }

  /** Stripping gives the empty string exactly when every character is a space. */
  lemma StripEmpty(s: string)
    ensures Strip(s) == [] <==> forall i :: 0 <= i < |s| ==> IsSpace(s[i])
  {
    var e := TrimEnd(s);
    TrimEndRemovesSpaces(s);
    TrimStartRemovesSpaces(e);
    if Strip(s) == [] {
      assert e == [];
    } else {
      TrimEndIsPrefix(s);
      assert !IsSpace(s[|e| - 1]);
    }
  }

  /** Python's `s.replace('\n', ' ')`. */
  function ReplaceNewlines(s: string): (r: string)
    ensures |r| == |s|
    ensures '\n' !in r
  {
    if s == [] then []
    else [if s[0] == '\n' then ' ' else s[0]] + ReplaceNewlines(s[1..])
  }

  /** Replacing newlines turns each newline into a space and keeps every other character. */
  lemma {:induction false} ReplaceNewlinesAt(s: string, i: nat)
    requires i < |s|
    ensures ReplaceNewlines(s)[i] == if s[i] == '\n' then ' ' else s[i]
  {
    if i > 0 {
      ReplaceNewlinesAt(s[1..], i - 1);
    }
  }

  predicate IsDigit(c: char) {
    '0' <= c <= '9'
  }

  function DigitChar(d: nat): (c: char)
    requires d < 10
    ensures IsDigit(c)
  {
    (48 + d) as char
  }

  function DigitValue(c: char): nat
    requires IsDigit(c)
  {
    c as int - 48
  }

  predicate AllDigits(s: string) {
    forall i :: 0 <= i < |s| ==> IsDigit(s[i])
  }

  /** The decimal rendering of `n`, as Python's `f"{n}"` writes it. */
  function Decimal(n: nat): (s: string)
    ensures |s| >= 1
    ensures s[0] == '0' <==> n == 0
  {
    if n < 10 then [DigitChar(n)] else Decimal(n / 10) + [DigitChar(n % 10)]
  }

  /** A rendered number consists of decimal digits only. */
  lemma {:induction false} DecimalDigits(n: nat)
    ensures AllDigits(Decimal(n))
  {
    if n >= 10 {
      DecimalDigits(n / 10);
      var s := Decimal(n);
      assert s == Decimal(n / 10) + [DigitChar(n % 10)];
      forall i | 0 <= i < |s|
        ensures IsDigit(s[i])
      {
        if i < |s| - 1 {
          assert s[i] == Decimal(n / 10)[i];
        }
      }
    }
  }

  /** The number a string of decimal digits denotes. */
  function ParseDecimal(s: string): nat
    requires AllDigits(s)
  {
    if s == [] then 0 else ParseDecimal(s[..|s| - 1]) * 10 + DigitValue(s[|s| - 1])
  }

  /** Reading back a rendered number gives the number. */
  lemma {:induction false} ParseDecimalOfDecimal(n: nat)
    ensures AllDigits(Decimal(n)) && ParseDecimal(Decimal(n)) == n
  {
    DecimalDigits(n);
    if n >= 10 {
      ParseDecimalOfDecimal(n / 10);
      assert Decimal(n)[..|Decimal(n)| - 1] == Decimal(n / 10);
    }
  }

}
