/** The JavaScript string primitives the resume builder relies on, over `string`
    (a sequence of UTF-16 code units in the original, of `char`s here):
    `\s` and `trim`, `toLowerCase`, `split`, `join`, `startsWith`, `includes`,
    `replace(/\s+/g, c)` and the decimal rendering of a number in a template literal. */
module Text {
  import opened Seqs

  // ---------------------------------------------------------------------------
  // Whitespace
  // ---------------------------------------------------------------------------

  /** The ECMAScript WhiteSpace and LineTerminator code points: exactly the
      characters matched by the regular-expression class `\s` and removed by
      `String.prototype.trim`. */
  predicate IsSpace(c: char) {
    || c == '\t' || c == '\n' || c == '\U{B}' || c == '\U{C}' || c == '\r' || c == ' '
    || c == '\U{A0}' || c == '\U{1680}' || ('\U{2000}' <= c <= '\U{200A}')
    || c == '\U{2028}' || c == '\U{2029}' || c == '\U{202F}' || c == '\U{205F}'
    || c == '\U{3000}' || c == '\U{FEFF}'
  }

  predicate NoSpace(s: string) {
    forall i | 0 <= i < |s| :: !IsSpace(s[i])
  }

  predicate AllSpace(s: string) {
    forall i | 0 <= i < |s| :: IsSpace(s[i])
  }

  /** `s` has no whitespace at either end: what `trim` returns. */
  predicate Trimmed(s: string) {
    s == [] || (!IsSpace(s[0]) && !IsSpace(s[|s| - 1]))
  }

  /** The length of the leading whitespace run. */
  function LeadingSpaces(s: string): (n: nat)
    ensures n <= |s|
    ensures forall i | 0 <= i < n :: IsSpace(s[i])
    ensures n < |s| ==> !IsSpace(s[n])
    decreases |s|
  {
    if |s| > 0 && IsSpace(s[0]) then 1 + LeadingSpaces(s[1..]) else 0
  }

  /** The length of the trailing whitespace run. */
  function TrailingSpaces(s: string): (n: nat)
    ensures n <= |s|
    ensures forall i | |s| - n <= i < |s| :: IsSpace(s[i])
    ensures n < |s| ==> !IsSpace(s[|s| - n - 1])
    decreases |s|
  {
    if |s| > 0 && IsSpace(s[|s| - 1]) then 1 + TrailingSpaces(s[..|s| - 1]) else 0
  }

  /** `trimStart`: the suffix of `s` after its leading whitespace. */
  function TrimStart(s: string): (r: string)
    ensures r == [] || !IsSpace(r[0])
  {
    s[LeadingSpaces(s)..]
  }

  /** `trimEnd`: the prefix of `s` before its trailing whitespace. */
  function TrimEnd(s: string): (r: string)
    ensures r == [] || !IsSpace(r[|r| - 1])
  {
    s[..|s| - TrailingSpaces(s)]
  }

  /** `String.prototype.trim`: the text between the leading and the trailing
      whitespace margins of `s`, with no whitespace at either end. */
  function Trim(s: string): (r: string)
    ensures Trimmed(r)
    ensures LeadingSpaces(s) + |r| <= |s|
    ensures r == s[LeadingSpaces(s)..LeadingSpaces(s) + |r|]
    ensures AllSpace(s[..LeadingSpaces(s)]) && AllSpace(s[LeadingSpaces(s) + |r|..])
  {
    var t := TrimStart(s);
    var r := TrimEnd(t);
    assert s[LeadingSpaces(s) + |r|..] == t[|r|..];
    r
  }

  lemma TrimStartOfTrimmed(s: string)
    requires s == [] || !IsSpace(s[0])
    ensures TrimStart(s) == s
  {
    EmptyUnit(s);
  }

  lemma {:induction false} TrailingOfAppendSpace(c: string, w: string)
    requires AllSpace(w)
    ensures TrailingSpaces(c + w) == TrailingSpaces(c) + |w|
    decreases |w|
  {
    if |w| > 0 {
      var w' := w[..|w| - 1];
      assert (c + w)[..|c + w| - 1] == c + w';
      assert (c + w)[|c + w| - 1] == w[|w| - 1];
      TrailingOfAppendSpace(c, w');
    } else {
      EmptyUnit(c);
    }
  }

  lemma TrimEndAppendSpace(c: string, w: string)
    requires AllSpace(w)
    ensures TrimEnd(c + w) == TrimEnd(c)
  {
    TrailingOfAppendSpace(c, w);
    var n := TrailingSpaces(c);
    assert (c + w)[..|c + w| - (n + |w|)] == c[..|c| - n];
  }

  lemma {:induction false} LeadingOfPrependSpace(w: string, c: string)
    requires AllSpace(w)
    ensures LeadingSpaces(w + c) == |w| + LeadingSpaces(c)
    decreases |w|
  {
    if |w| > 0 {
      ConsTail(w, c);
      LeadingOfPrependSpace(w[1..], c);
    } else {
      EmptyUnit(c);
    }
  }

  lemma TrimStartPrependSpace(w: string, c: string)
    requires AllSpace(w)
    ensures TrimStart(w + c) == TrimStart(c)
  {
    LeadingOfPrependSpace(w, c);
    var n := LeadingSpaces(c);
    assert (w + c)[|w| + n..] == c[n..];
  }

  /** Trimming is idempotent and leaves already-trimmed text alone. */
  lemma TrimOfTrimmed(s: string)
    requires Trimmed(s)
    ensures Trim(s) == s
  {
  }

  /** Whitespace around trimmed text is exactly what `trim` removes. */
  lemma TrimMargins(w1: string, c: string, w2: string)
    requires AllSpace(w1) && AllSpace(w2) && Trimmed(c)
    ensures Trim(w1 + c + w2) == c
  {
    assert w1 + c + w2 == w1 + (c + w2);
    TrimStartPrependSpace(w1, c + w2);
    if c == [] {
      assert c + w2 == w2;
      TrimStartPrependSpace(w2, []);
      assert w2 + [] == w2;
      assert TrimStart(w2) == [];
    } else {
      TrimStartOfTrimmed(c + w2);
      TrimEndAppendSpace(c, w2);
    }
  }

  // ---------------------------------------------------------------------------
  // Case
  // ---------------------------------------------------------------------------

  /** `toLowerCase` on one character, restricted to ASCII letters. */
  function LowerChar(c: char): char {
    if 'A' <= c <= 'Z' then (c as int + 32) as char else c
  }

  /** `toLowerCase` on a string: no upper-case ASCII letter is left, every
      whitespace character stays where it was, and the result is already
      lower-case, so lower-casing twice is lower-casing once. */
  function Lower(s: string): (r: string)
    ensures |r| == |s|
    ensures forall i | 0 <= i < |s| :: r[i] == LowerChar(s[i])
    ensures forall i | 0 <= i < |r| :: !('A' <= r[i] <= 'Z')
    ensures forall i | 0 <= i < |s| :: IsSpace(r[i]) <==> IsSpace(s[i])
    ensures forall i | 0 <= i < |r| :: LowerChar(r[i]) == r[i]
  {
    seq(|s|, i requires 0 <= i < |s| => LowerChar(s[i]))
  }

  /** Lower-casing leaves no upper-case ASCII letter, keeps every whitespace
      character where it was, and is idempotent. */
  lemma LowerProperties(s: string)
    ensures Lower(Lower(s)) == Lower(s)
  {
  }

  // ---------------------------------------------------------------------------
  // Splitting and joining
  // ---------------------------------------------------------------------------

  /** `s.split(sep)` for a one-character separator: the pieces between
      separators, so `""` gives `[""]` and `n` separators give `n + 1` pieces. */
  function Split(s: string, sep: char): (r: seq<string>)
    ensures |r| >= 1
    ensures forall i | 0 <= i < |r| :: sep !in r[i]
    decreases |s|
  {
    if |s| == 0 then [""]
    else
      var rest := Split(s[1..], sep);
      if s[0] == sep then [""] + rest
      else [[s[0]] + rest[0]] + rest[1..]
  }

  /** `parts.join(sep)`. */
  function Join(parts: seq<string>, sep: string): string
    decreases |parts|
  {
    if |parts| == 0 then ""
    else if |parts| == 1 then parts[0]
    else parts[0] + sep + Join(parts[1..], sep)
  }

  function CountChar(s: string, c: char): nat
    decreases |s|
  {
    if |s| == 0 then 0 else (if s[0] == c then 1 else 0) + CountChar(s[1..], c)
  }

  /** There is one more piece than there are separators. */
  lemma {:induction false} SplitLength(s: string, sep: char)
    ensures |Split(s, sep)| == CountChar(s, sep) + 1
    decreases |s|
  {
    if |s| > 0 {
      SplitLength(s[1..], sep);
    }
  }

  /** Joining the pieces with the separator gives back the input. */
  lemma {:induction false} SplitThenJoin(s: string, sep: char)
    ensures Join(Split(s, sep), [sep]) == s
    decreases |s|
  {
    if |s| > 0 {
      var rest := Split(s[1..], sep);
      SplitThenJoin(s[1..], sep);
      if s[0] == sep {
        assert Split(s, sep) == [""] + rest;
        assert ([""] + rest)[1..] == rest;
      } else {
        var r := Split(s, sep);
        assert r == [[s[0]] + rest[0]] + rest[1..];
        if |rest| == 1 {
          assert Join(rest, [sep]) == rest[0];
        } else {
          assert r[1..] == rest[1..];
          assert Join(rest, [sep]) == rest[0] + [sep] + Join(rest[1..], [sep]);
        }
      }
    }
  }

  lemma {:induction false} SplitWithoutSeparator(s: string, sep: char)
    requires sep !in s
    ensures Split(s, sep) == [s]
    decreases |s|
  {
    if |s| > 0 {
      SplitWithoutSeparator(s[1..], sep);
      HeadTail(s);
    }
  }

  /** Splitting distributes over a separator occurrence. */
  lemma {:induction false} SplitAround(a: string, sep: char, b: string)
    ensures Split(a + [sep] + b, sep) == Split(a, sep) + Split(b, sep)
    decreases |a|
  {
    Assoc(a, [sep], b);
    if |a| == 0 {
      EmptyUnit([sep] + b);
      ConsTail([sep], b);
    } else {
      SplitAround(a[1..], sep, b);
      SplitAroundStep(a, sep, b);
    }
  }

  lemma {:induction false} SplitAroundStep(a: string, sep: char, b: string)
    requires |a| > 0
    requires Split(a[1..] + [sep] + b, sep) == Split(a[1..], sep) + Split(b, sep)
    ensures Split(a + [sep] + b, sep) == Split(a, sep) + Split(b, sep)
  {
    var s := a + [sep] + b;
    var p, q := Split(a[1..], sep), Split(b, sep);
    Assoc(a, [sep], b);
    ConsTail(a, [sep] + b);
    Assoc(a[1..], [sep], b);
    assert s[0] == a[0] && s[1..] == a[1..] + [sep] + b;
    if a[0] == sep {
      Assoc([""], p, q);
    } else {
      MergeHead([a[0]], p, q);
    }
  }

  /** A doubled separator splits off one empty piece between the two sides. */
  lemma {:induction false} SplitAroundBlank(a: string, sep: char, b: string)
    ensures Split(a + [sep, sep] + b, sep) == Split(a, sep) + [""] + Split(b, sep)
  {
    assert a + [sep, sep] + b == a + [sep] + ([sep] + b);
    SplitAround(a, sep, [sep] + b);
    assert ([sep] + b)[1..] == b;
  }

  lemma {:induction false} JoinCons(x: string, parts: seq<string>, sep: string)
    requires |parts| >= 1
    ensures Join([x] + parts, sep) == x + sep + Join(parts, sep)
  {
    ConsTail([x], parts);
  }

  lemma {:induction false} JoinSnoc(parts: seq<string>, x: string, sep: string)
    requires |parts| >= 1
    ensures Join(parts + [x], sep) == Join(parts, sep) + sep + x
    decreases |parts|
  {
    ConsTail(parts, [x]);
    if |parts| > 1 {
      JoinSnoc(parts[1..], x, sep);
      Assoc(parts[0] + sep, Join(parts[1..], sep) + sep, x);
    }
  }

  lemma {:induction false} JoinThenSplit(parts: seq<string>, sep: char)
    requires |parts| >= 1
    requires forall i | 0 <= i < |parts| :: sep !in parts[i]
    ensures Split(Join(parts, [sep]), sep) == parts
    decreases |parts|
  {
    SplitWithoutSeparator(parts[0], sep);
    if |parts| > 1 {
      JoinThenSplit(parts[1..], sep);
      SplitAround(parts[0], sep, Join(parts[1..], [sep]));
      HeadTail(parts);
    }
  }

  // ---------------------------------------------------------------------------
  // Prefixes and substrings
  // ---------------------------------------------------------------------------

  /** `s.startsWith(p)`. */
  predicate StartsWith(s: string, p: string) {
    |p| <= |s| && s[..|p|] == p
  }

  predicate OccursAt(s: string, sub: string, i: int) {
    0 <= i && i + |sub| <= |s| && s[i..i + |sub|] == sub
  }

  /** `s.includes(sub)`, scanning start positions left to right. */
  predicate Contains(s: string, sub: string)
    decreases |s|
  {
    StartsWith(s, sub) || (|s| > 0 && Contains(s[1..], sub))
  }

  lemma OccursShift(s: string, sub: string, i: int)
    requires |s| > 0 && i > 0
    ensures OccursAt(s, sub, i) <==> OccursAt(s[1..], sub, i - 1)
  {
    if i + |sub| <= |s| {
      assert s[1..][i - 1..i - 1 + |sub|] == s[i..i + |sub|];
    }
  }

  /** The scan finds `sub` exactly when it occurs at some position. */
  lemma {:induction false} ContainsIffOccurs(s: string, sub: string)
    ensures Contains(s, sub) <==> exists i :: OccursAt(s, sub, i)
    decreases |s|
  {
    if StartsWith(s, sub) {
      assert OccursAt(s, sub, 0);
    } else if |s| == 0 {
      forall i ensures !OccursAt(s, sub, i) {
      }
    } else {
      ContainsIffOccurs(s[1..], sub);
      if Contains(s[1..], sub) {
        var j :| OccursAt(s[1..], sub, j);
        OccursShift(s, sub, j + 1);
      } else {
        forall i ensures !OccursAt(s, sub, i) {
          if i > 0 {
            OccursShift(s, sub, i);
          }
        }
      }
    }
  }

  // ---------------------------------------------------------------------------
  // replace(/\s+/g, rep)
  // ---------------------------------------------------------------------------

  /** `s.replace(/\s+/g, rep)` for a one-character replacement: every maximal
      run of whitespace becomes a single `rep`. */
  function ReplaceSpaceRuns(s: string, rep: char): (r: string)
    ensures |r| <= |s|
    ensures |s| > 0 ==> |r| > 0
    ensures !IsSpace(rep) ==> NoSpace(r)
    ensures NoSpace(s) ==> r == s
    decreases |s|
  {
    if |s| == 0 then ""
    else if IsSpace(s[0]) then [rep] + ReplaceSpaceRuns(TrimStart(s), rep)
    else [s[0]] + ReplaceSpaceRuns(s[1..], rep)
  }

  /** A leading run that stops inside `a` is not affected by what follows `a`. */
  lemma {:induction false} LeadingStopsInside(a: string, b: string)
    requires LeadingSpaces(a) < |a|
    ensures LeadingSpaces(a + b) == LeadingSpaces(a)
    decreases |a|
  {
    ConsTail(a, b);
    if IsSpace(a[0]) {
      LeadingStopsInside(a[1..], b);
    }
  }

  lemma {:induction false} TrimStartAppend(a: string, b: string)
    ensures AllSpace(a) ==> TrimStart(a + b) == TrimStart(b)
    ensures !AllSpace(a) ==> TrimStart(a + b) == TrimStart(a) + b
  {
    AllSpaceIffLeadingCoversAll(a);
    if AllSpace(a) {
      TrimStartPrependSpace(a, b);
    } else {
      LeadingStopsInside(a, b);
      DropConcat(a, b, LeadingSpaces(a));
    }
  }

  /** A non-empty run of whitespace becomes exactly one `rep`. */
  lemma RunBecomesOne(w: string, rep: char)
    requires |w| > 0 && AllSpace(w)
    ensures ReplaceSpaceRuns(w, rep) == [rep]
  {
    assert TrimStart(w) == [];
  }

  /** A text that ends in whitespace ends in `rep` after the replacement:
      its trailing run becomes one `rep`. */
  lemma {:induction false} TrailingRunBecomesRep(s: string, rep: char)
    requires |s| > 0 && IsSpace(s[|s| - 1])
    ensures |ReplaceSpaceRuns(s, rep)| > 0
    ensures ReplaceSpaceRuns(s, rep)[|ReplaceSpaceRuns(s, rep)| - 1] == rep
  {
    var a := TrimEnd(s);
    var w := s[|a|..];
    assert s == a + w;
    assert |w| > 0 && AllSpace(w);
    ReplaceRunsConcat(a, w, rep);
    RunBecomesOne(w, rep);
  }

  /** Runs never straddle a non-whitespace boundary, so the replacement
      distributes over concatenation at such a boundary. */
  lemma {:induction false} ReplaceRunsConcat(a: string, b: string, rep: char)
    requires |a| == 0 || |b| == 0 || !IsSpace(a[|a| - 1]) || !IsSpace(b[0])
    ensures ReplaceSpaceRuns(a + b, rep) == ReplaceSpaceRuns(a, rep) + ReplaceSpaceRuns(b, rep)
    decreases |a|
  {
    if |a| == 0 {
      EmptyUnit(b);
      EmptyUnit(ReplaceSpaceRuns(b, rep));
    } else if !IsSpace(a[0]) {
      ReplaceRunsConcat(a[1..], b, rep);
      PlainHeadConcat(a, b, rep);
    } else {
      LeadingRunConcat(a, b, rep);
    }
  }

  /** The case of `ReplaceRunsConcat` where `a` opens with a non-whitespace
      character, given the property for the rest of `a`. */
  lemma {:induction false} PlainHeadConcat(a: string, b: string, rep: char)
    requires |a| > 0 && !IsSpace(a[0])
    requires ReplaceSpaceRuns(a[1..] + b, rep) == ReplaceSpaceRuns(a[1..], rep) + ReplaceSpaceRuns(b, rep)
    ensures ReplaceSpaceRuns(a + b, rep) == ReplaceSpaceRuns(a, rep) + ReplaceSpaceRuns(b, rep)
  {
    ConsTail(a, b);
    Assoc([a[0]], ReplaceSpaceRuns(a[1..], rep), ReplaceSpaceRuns(b, rep));
  }

  /** Unfolds the replacement once at a leading whitespace character. */
  lemma {:induction false} ReplaceRunsAtSpace(s: string, rep: char)
    requires |s| > 0 && IsSpace(s[0])
    ensures ReplaceSpaceRuns(s, rep) == [rep] + ReplaceSpaceRuns(TrimStart(s), rep)
  {
  }

  lemma {:induction false} AllSpaceRunConcat(a: string, b: string, rep: char)
    requires |a| > 0 && AllSpace(a)
    requires |b| == 0 || !IsSpace(b[0])
    ensures ReplaceSpaceRuns(TrimStart(a + b), rep) == ReplaceSpaceRuns(TrimStart(a), rep) + ReplaceSpaceRuns(b, rep)
  {
    TrimStartAppend(a, b);
    TrimStartOfTrimmed(b);
    AllSpaceIffLeadingCoversAll(a);
    EmptyUnit(ReplaceSpaceRuns(b, rep));
  }

  /** The leading run covers the whole text exactly when the text is all whitespace. */
  lemma {:induction false} AllSpaceIffLeadingCoversAll(a: string)
    ensures AllSpace(a) <==> LeadingSpaces(a) == |a|
  {
  }

  lemma {:induction false} TrimStartKeepsLast(a: string)
    requires !AllSpace(a)
    ensures |TrimStart(a)| > 0 && TrimStart(a)[|TrimStart(a)| - 1] == a[|a| - 1]
  {
    AllSpaceIffLeadingCoversAll(a);
  }

  /** The case of `ReplaceRunsConcat` where `a` opens with whitespace. */
  lemma {:induction false} LeadingRunConcat(a: string, b: string, rep: char)
    requires |a| > 0 && IsSpace(a[0])
    requires |b| == 0 || !IsSpace(a[|a| - 1]) || !IsSpace(b[0])
    ensures ReplaceSpaceRuns(a + b, rep) == ReplaceSpaceRuns(a, rep) + ReplaceSpaceRuns(b, rep)
    decreases |a|, 1
  {
    var x, y := ReplaceSpaceRuns(TrimStart(a), rep), ReplaceSpaceRuns(b, rep);
    ConsTail(a, b);
    ReplaceRunsAtSpace(a + b, rep);
    ReplaceRunsAtSpace(a, rep);
    TrimmedRunConcat(a, b, rep);
    Assoc([rep], x, y);
  }

  /** After the leading run of `a` is dropped, the rest of `a` and `b` still
      meet at a boundary the replacement respects. */
  lemma {:induction false} TrimmedRunConcat(a: string, b: string, rep: char)
    requires |a| > 0 && IsSpace(a[0])
    requires |b| == 0 || !IsSpace(a[|a| - 1]) || !IsSpace(b[0])
    ensures ReplaceSpaceRuns(TrimStart(a + b), rep)
      == ReplaceSpaceRuns(TrimStart(a), rep) + ReplaceSpaceRuns(b, rep)
    decreases |a|, 0
  {
    if AllSpace(a) {
      AllSpaceRunConcat(a, b, rep);
    } else {
      var t := TrimStart(a);
      TrimStartKeepsLast(a);
      assert t[0] == a[|a| - |t|];
      TrimStartAppend(a, b);
      ReplaceRunsConcat(t, b, rep);
    }
  }

  // ---------------------------------------------------------------------------
  // Decimal rendering of a natural number
  // ---------------------------------------------------------------------------

  predicate IsDigit(c: char) {
    '0' <= c <= '9'
  }

  predicate AllDigits(s: string) {
    forall i | 0 <= i < |s| :: IsDigit(s[i])
  }

  function DigitChar(d: nat): (c: char)
    requires d < 10
    ensures IsDigit(c)
  {
    ('0' as int + d) as char
  }

  /** `${n}` for a non-negative integer: its shortest decimal digits. */
  function NatToString(n: nat): (r: string)
    ensures |r| >= 1
    ensures AllDigits(r)
    decreases n
  {
    if n < 10 then [DigitChar(n)] else NatToString(n / 10) + [DigitChar(n % 10)]
  }

  function DigitsValue(s: string): nat
    requires AllDigits(s)
    decreases |s|
  {
    if |s| == 0 then 0 else DigitsValue(s[..|s| - 1]) * 10 + (s[|s| - 1] as int - '0' as int)
  }

  /** Reading the digits back gives the number. */
  lemma {:induction false} DigitsValueOfNatToString(n: nat)
    ensures DigitsValue(NatToString(n)) == n
    decreases n
  {
    if n >= 10 {
      DigitsValueOfNatToString(n / 10);
      var s := NatToString(n);
      assert s[..|s| - 1] == NatToString(n / 10);
    }
  }

  /** Distinct numbers render to distinct strings. */
  lemma NatToStringInjective(m: nat, n: nat)
    requires NatToString(m) == NatToString(n)
    ensures m == n
  {
    DigitsValueOfNatToString(m);
    DigitsValueOfNatToString(n);
  }
}
