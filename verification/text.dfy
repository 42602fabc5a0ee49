/** Character classes and string primitives of the JavaScript runtime the
    harvester runs on: the regular-expression classes `\s`, `\w` and `\d`,
    `String.prototype.trim`, ASCII lower-casing, `startsWith`, `join` and the
    decimal rendering of integers in template strings. */
module Text {

  /** `\s` of ECMAScript regular expressions, which is also exactly the set of
      code points `trim` removes (WhiteSpace and LineTerminator). */
  predicate IsSpace(c: char) {
    var n := c as int;
    || n == 0x20
    || 0x09 <= n <= 0x0D
    || n == 0xA0
    || n == 0x1680
    || 0x2000 <= n <= 0x200A
    || n == 0x2028
    || n == 0x2029
    || n == 0x202F
    || n == 0x205F
    || n == 0x3000
    || n == 0xFEFF
  }

  predicate IsDigit(c: char) { '0' <= c <= '9' }

  predicate IsUpper(c: char) { 'A' <= c <= 'Z' }

  predicate IsLower(c: char) { 'a' <= c <= 'z' }

  /** `\w`: ASCII letters, ASCII digits and the underscore. */
  predicate IsWordChar(c: char) {
    IsUpper(c) || IsLower(c) || IsDigit(c) || c == '_'
  }

  predicate AllSpace(s: string) {
    forall i :: 0 <= i < |s| ==> IsSpace(s[i])
  }

  predicate AllDigits(s: string) {
    forall i :: 0 <= i < |s| ==> IsDigit(s[i])
  }

  function LowerChar(c: char): (r: char)
    ensures !IsUpper(r)
    ensures IsWordChar(r) <==> IsWordChar(c)
    ensures IsSpace(r) <==> IsSpace(c)
  {
    if IsUpper(c) then (c as int + 32) as char else c
  }

  /** `toLowerCase`, restricted to the ASCII letters. */
  function Lower(s: string): (r: string)
    ensures |r| == |s|
    ensures forall i :: 0 <= i < |s| ==> r[i] == LowerChar(s[i])
    ensures forall c :: c in r ==> !IsUpper(c)
  {
    if s == [] then [] else [LowerChar(s[0])] + Lower(s[1..])
  }

  predicate AllOf(s: string, p: char -> bool) {
    forall i :: 0 <= i < |s| ==> p(s[i])
  }

  /** The leading run of characters satisfying `inRun` removed. */
  function DropRun(s: string, inRun: char -> bool): (r: string)
    ensures |r| <= |s| && r == s[|s| - |r|..]
    ensures AllOf(s[..|s| - |r|], inRun)
    ensures r == [] || !inRun(r[0])
  {
    if s != [] && inRun(s[0]) then DropRun(s[1..], inRun) else s
  }

  /** `s.replace(/X+/g, rep)` for the character class `inRun`: every maximal
      run of characters in the class becomes the single character `rep`. */
  function CollapseRuns(s: string, inRun: char -> bool, rep: char): (r: string)
    requires inRun(rep)
    ensures r == [] <==> s == []
    decreases |s|
  {
    if s == [] then []
    else if inRun(s[0]) then [rep] + CollapseRuns(DropRun(s[1..], inRun), inRun, rep)
    else [s[0]] + CollapseRuns(s[1..], inRun, rep)
  }

  /** A collapsed string holds `rep` and the characters of `s` outside the
      class. */
  lemma {:induction false} CollapseRunsChars(s: string, inRun: char -> bool, rep: char)
    requires inRun(rep)
    ensures forall c :: c in CollapseRuns(s, inRun, rep) ==> c == rep || (c in s && !inRun(c))
    decreases |s|
  {
    if s != [] {
      if inRun(s[0]) {
        var rest := DropRun(s[1..], inRun);
        CollapseRunsChars(rest, inRun, rep);
        assert forall c :: c in rest ==> c in s;
      } else {
        CollapseRunsChars(s[1..], inRun, rep);
        assert forall c :: c in s[1..] ==> c in s;
      }
    }
  }

  /** No two characters of the class stand next to each other in `s`. */
  predicate NoAdjacent(s: string, inRun: char -> bool) {
    forall i :: 0 <= i < |s| - 1 ==> !(inRun(s[i]) && inRun(s[i + 1]))
  }

  /** A collapsed string never holds two class characters in a row. */
  lemma {:induction false} CollapseRunsNoAdjacent(s: string, inRun: char -> bool, rep: char)
    requires inRun(rep)
    ensures NoAdjacent(CollapseRuns(s, inRun, rep), inRun)
    decreases |s|
  {
    if s != [] {
      var r := CollapseRuns(s, inRun, rep);
      if inRun(s[0]) {
        var rest := DropRun(s[1..], inRun);
        CollapseRunsNoAdjacent(rest, inRun, rep);
        var tail := CollapseRuns(rest, inRun, rep);
        assert r == [rep] + tail;
        if rest != [] {
          assert !inRun(rest[0]);
          assert tail == [rest[0]] + CollapseRuns(rest[1..], inRun, rep);
        }
      } else {
        CollapseRunsNoAdjacent(s[1..], inRun, rep);
        var tail := CollapseRuns(s[1..], inRun, rep);
        assert r == [s[0]] + tail;
        forall i | 0 <= i < |r| - 1 ensures !(inRun(r[i]) && inRun(r[i + 1])) {
          if i > 0 {
            assert r[i] == tail[i - 1] && r[i + 1] == tail[i];
          } else {
            assert r[0] == s[0];
          }
        }
      }
    }
  }

  /** Both shape facts of a collapsed string. */
  lemma CollapseRunsShape(s: string, inRun: char -> bool, rep: char)
    requires inRun(rep)
    ensures var r := CollapseRuns(s, inRun, rep);
      && (forall c :: c in r ==> c == rep || (c in s && !inRun(c)))
      && (forall i :: 0 <= i < |r| - 1 ==> !(inRun(r[i]) && inRun(r[i + 1])))
  {
    CollapseRunsChars(s, inRun, rep);
    CollapseRunsNoAdjacent(s, inRun, rep);
  }

  /** The leading run of `a + b` ends inside `a` unless all of `a` is in the
      run. */
  lemma {:induction false} DropRunAppend(a: string, b: string, inRun: char -> bool)
    ensures AllOf(a, inRun) ==> DropRun(a + b, inRun) == DropRun(b, inRun)
    ensures !AllOf(a, inRun) ==> DropRun(a + b, inRun) == DropRun(a, inRun) + b
    decreases |a|
  {
    if a == [] {
      assert a + b == b;
    } else if !inRun(a[0]) {
      assert (a + b)[0] == a[0];
      assert DropRun(a + b, inRun) == a + b;
      assert DropRun(a, inRun) == a;
      assert !AllOf(a, inRun);
    } else {
      assert (a + b)[0] == a[0];
      assert (a + b)[1..] == a[1..] + b;
      assert DropRun(a + b, inRun) == DropRun(a[1..] + b, inRun);
      assert DropRun(a, inRun) == DropRun(a[1..], inRun);
      assert AllOf(a, inRun) <==> AllOf(a[1..], inRun);
      DropRunAppend(a[1..], b, inRun);
    }
  }

  /** A string that opens with a non-empty run collapses to `rep` followed
      by the collapse of what follows the run. */
  lemma CollapseRunsLeadingRun(w: string, b: string, inRun: char -> bool, rep: char)
    requires inRun(rep)
    requires w != [] && AllOf(w, inRun)
    ensures CollapseRuns(w + b, inRun, rep)
         == [rep] + CollapseRuns(DropRun(b, inRun), inRun, rep)
  {
    assert (w + b)[1..] == w[1..] + b;
    DropRunAppend(w[1..], b, inRun);
  }

  /** Replacing one non-empty run by another of any length or composition does
      not change the collapsed string. */
  lemma {:induction false} CollapseRunsIgnoresRunShape(
    a: string, w1: string, w2: string, b: string, inRun: char -> bool, rep: char)
    requires inRun(rep)
    requires w1 != [] && AllOf(w1, inRun)
    requires w2 != [] && AllOf(w2, inRun)
    ensures CollapseRuns(a + w1 + b, inRun, rep) == CollapseRuns(a + w2 + b, inRun, rep)
    decreases |a|
  {
    if a == [] {
      assert a + w1 + b == w1 + b && a + w2 + b == w2 + b;
      CollapseRunsLeadingRun(w1, b, inRun, rep);
      CollapseRunsLeadingRun(w2, b, inRun, rep);
    } else if !inRun(a[0]) {
      CollapseRunsSkipHead(a, w1, b, inRun, rep);
      CollapseRunsSkipHead(a, w2, b, inRun, rep);
      CollapseRunsIgnoresRunShape(a[1..], w1, w2, b, inRun, rep);
    } else if AllOf(a, inRun) {
      assert a + w1 + b == (a + w1) + b && a + w2 + b == (a + w2) + b;
      CollapseRunsLeadingRun(a + w1, b, inRun, rep);
      CollapseRunsLeadingRun(a + w2, b, inRun, rep);
    } else {
      CollapseRunsAfterRun(a, w1, b, inRun, rep);
      CollapseRunsAfterRun(a, w2, b, inRun, rep);
      CollapseRunsIgnoresRunShape(DropRun(a, inRun), w1, w2, b, inRun, rep);
    }
  }

  lemma CollapseRunsSkipHead(a: string, w: string, b: string, inRun: char -> bool, rep: char)
    requires inRun(rep)
    requires a != [] && !inRun(a[0])
    ensures CollapseRuns(a + w + b, inRun, rep)
         == [a[0]] + CollapseRuns(a[1..] + w + b, inRun, rep)
  {
    assert (a + w + b)[1..] == a[1..] + w + b;
  }

  /** When `a` opens with a run but is not all run, the run is replaced and
      the rest of `a` is kept. */
  lemma CollapseRunsAfterRun(a: string, w: string, b: string, inRun: char -> bool, rep: char)
    requires inRun(rep)
    requires a != [] && inRun(a[0]) && !AllOf(a, inRun)
    ensures |DropRun(a, inRun)| < |a|
    ensures CollapseRuns(a + w + b, inRun, rep)
         == [rep] + CollapseRuns(DropRun(a, inRun) + w + b, inRun, rep)
  {
    var t := w + b;
    var x := a + t;
    AppendAssoc(a, w, b);
    assert x[0] == a[0] && x[1..] == a[1..] + t;
    TailOfRunNotAllRun(a, inRun);
    DropRunAppend(a[1..], t, inRun);
    var d := DropRun(a, inRun);
    assert DropRun(x[1..], inRun) == d + t;
    AppendAssoc(d, w, b);
    CollapseRunsAtRun(x, inRun, rep);
  }

  /** A string opening with a run collapses it to one `rep`. */
  lemma CollapseRunsAtRun(x: string, inRun: char -> bool, rep: char)
    requires inRun(rep) && x != [] && inRun(x[0])
    ensures CollapseRuns(x, inRun, rep) == [rep] + CollapseRuns(DropRun(x[1..], inRun), inRun, rep)
  {
  }

  lemma AppendAssoc(a: string, b: string, c: string)
    ensures (a + b) + c == a + (b + c)
  {
  }

  lemma TailOfRunNotAllRun(a: string, inRun: char -> bool)
    requires a != [] && inRun(a[0]) && !AllOf(a, inRun)
    ensures !AllOf(a[1..], inRun)
    ensures DropRun(a, inRun) == DropRun(a[1..], inRun)
  {
    var i :| 0 <= i < |a| && !inRun(a[i]);
    assert a[1..][i - 1] == a[i];
  }

  /** Leading `\s` removed. */
  function TrimStart(s: string): (r: string)
    ensures |r| <= |s| && r == s[|s| - |r|..]
    ensures AllSpace(s[..|s| - |r|])
    ensures r == [] || !IsSpace(r[0])
  {
    DropRun(s, IsSpace)
  }

  /** Trailing `\s` removed. */
  function TrimEnd(s: string): (r: string)
    ensures |r| <= |s| && r == s[..|r|]
    ensures AllSpace(s[|r|..])
    ensures r == [] || !IsSpace(r[|r| - 1])
  {
    if s != [] && IsSpace(s[|s| - 1]) then TrimEnd(s[..|s| - 1]) else s
  }

  /** `String.prototype.trim`. */
  function Trim(s: string): (r: string)
    ensures forall c :: c in r ==> c in s
    ensures r == [] || (!IsSpace(r[0]) && !IsSpace(r[|r| - 1]))
  {
    var t := TrimStart(s);
    assert forall c :: c in t ==> c in s;
    TrimEnd(t)
  }

  predicate StartsWith(s: string, prefix: string) {
    |prefix| <= |s| && s[..|prefix|] == prefix
  }

  /** `Array.prototype.join`. */
  function Join(parts: seq<string>, sep: string): string {
    if parts == [] then ""
    else if |parts| == 1 then parts[0]
    else parts[0] + sep + Join(parts[1..], sep)
  }

  lemma JoinCons(parts: seq<string>, sep: string)
    requires |parts| >= 2
    ensures Join(parts, sep) == parts[0] + sep + Join(parts[1..], sep)
  {
  }

  /** `s.split(sep)` for a one-character separator. */
  function Split(s: string, sep: char): (r: seq<string>)
    ensures |r| >= 1
  {
    if s == [] then [[]]
    else if s[0] == sep then [[]] + Split(s[1..], sep)
    else
      var rest := Split(s[1..], sep);
      [[s[0]] + rest[0]] + rest[1..]
  }

  lemma {:induction false} SplitNoSeparator(x: string, sep: char)
    requires sep !in x
    ensures Split(x, sep) == [x]
  {
    if x != [] {
      SplitNoSeparator(x[1..], sep);
      assert [x[0]] + x[1..] == x;
    }
  }

  lemma {:induction false} SplitAtFirstSeparator(x: string, y: string, sep: char)
    requires sep !in x
    ensures Split(x + [sep] + y, sep) == [x] + Split(y, sep)
  {
    if x == [] {
      assert x + [sep] + y == [sep] + y;
      assert ([sep] + y)[1..] == y;
    } else {
      assert (x + [sep] + y)[1..] == x[1..] + [sep] + y;
      SplitAtFirstSeparator(x[1..], y, sep);
      assert [x[0]] + x[1..] == x;
    }
  }

  /** Splitting on a separator the pieces do not hold undoes joining them
      with it. */
  lemma {:induction false} SplitOfJoin(parts: seq<string>, d: char)
    requires parts != []
    requires forall i :: 0 <= i < |parts| ==> d !in parts[i]
    ensures Split(Join(parts, [d]), d) == parts
  {
    if |parts| == 1 {
      SplitNoSeparator(parts[0], d);
    } else {
      SplitOfJoin(parts[1..], d);
      SplitAtFirstSeparator(parts[0], Join(parts[1..], [d]), d);
      assert [parts[0]] + parts[1..] == parts;
    }
  }

  /** A character in neither the pieces nor the separator is not in their join. */
  lemma {:induction false} JoinAvoids(parts: seq<string>, sep: string, x: char)
    requires x !in sep
    requires forall i :: 0 <= i < |parts| ==> x !in parts[i]
    ensures x !in Join(parts, sep)
  {
    if |parts| > 1 {
      JoinAvoids(parts[1..], sep, x);
    }
  }

  function DigitChar(d: int): (c: char)
    requires 0 <= d < 10
    ensures IsDigit(c)
  {
    ('0' as int + d) as char
  }

  function DigitValue(c: char): (d: nat)
    requires IsDigit(c)
    ensures d < 10
  {
    c as int - '0' as int
  }

  /** Decimal digits of a natural number, most significant first, without
      leading zeros. */
  function NatToString(n: nat): (r: string)
    ensures |r| >= 1 && AllDigits(r)
    decreases n
  {
    if n < 10 then [DigitChar(n)] else NatToString(n / 10) + [DigitChar(n % 10)]
  }

  /** What `${n}` prints for an integer-valued number. */
  function IntToString(n: int): (r: string)
    ensures |r| >= 1
    ensures n >= 0 <==> IsDigit(r[0])
  {
    if n < 0 then "-" + NatToString(-n) else NatToString(n)
  }

  /** Value of a string of decimal digits. */
  function DigitsValue(s: string): nat
    requires AllDigits(s)
  {
    if s == [] then 0 else DigitsValue(s[..|s| - 1]) * 10 + DigitValue(s[|s| - 1])
  }

  lemma {:induction false} DigitsValueOfNatToString(n: nat)
    ensures DigitsValue(NatToString(n)) == n
    decreases n
  {
    var r := NatToString(n);
    if n >= 10 {
      DigitsValueOfNatToString(n / 10);
      assert r[..|r| - 1] == NatToString(n / 10);
    }
  }

  lemma NatToStringInjective(a: nat, b: nat)
    requires NatToString(a) == NatToString(b)
    ensures a == b
  {
    DigitsValueOfNatToString(a);
    DigitsValueOfNatToString(b);
  }

  /** Decimal rendering is injective, so distinct page numbers give distinct
      URL suffixes. */
  lemma IntToStringInjective(a: int, b: int)
    requires IntToString(a) == IntToString(b)
    ensures a == b
  {
    var r := IntToString(a);
    if a < 0 {
      assert !IsDigit(r[0]) && b < 0;
      assert r == "-" + NatToString(-a) && r == "-" + NatToString(-b);
      assert NatToString(-a) == r[1..] == NatToString(-b);
      NatToStringInjective(-a, -b);
    } else {
      assert IsDigit(r[0]) && b >= 0;
      NatToStringInjective(a, b);
    }
  }

  lemma LowerAppend(a: string, b: string)
    ensures Lower(a + b) == Lower(a) + Lower(b)
  {
    assert forall i :: 0 <= i < |a + b| ==> Lower(a + b)[i] == (Lower(a) + Lower(b))[i];
  }

  lemma LowerOfSpaces(w: string)
    requires AllSpace(w)
    ensures Lower(w) == w
  {
    assert forall i :: 0 <= i < |w| ==> Lower(w)[i] == w[i];
  }

  /** Leading whitespace of `a + b`: it stops inside `a` unless `a` is all
      whitespace. */
  lemma TrimStartAppend(a: string, b: string)
    ensures AllSpace(a) ==> TrimStart(a + b) == TrimStart(b)
    ensures !AllSpace(a) ==> TrimStart(a + b) == TrimStart(a) + b
  {
    DropRunAppend(a, b, IsSpace);
  }

  /** Trailing whitespace of `a + b`: it stops inside `b` unless `b` is all
      whitespace. */
  lemma {:induction false} TrimEndAppend(a: string, b: string)
    ensures AllSpace(b) ==> TrimEnd(a + b) == TrimEnd(a)
    ensures !AllSpace(b) ==> TrimEnd(a + b) == a + TrimEnd(b)
    decreases |b|
  {
    if b != [] {
      var b' := b[..|b| - 1];
      assert (a + b)[..|a + b| - 1] == a + b';
      TrimEndAppend(a, b');
      if !IsSpace(b[|b| - 1]) {
        assert !AllSpace(b);
      } else {
        assert AllSpace(b) <==> AllSpace(b');
      }
    } else {
      assert a + b == a;
    }
  }

  /** Lower-casing leaves a string without upper-case letters unchanged. */
  lemma LowerFixesNonUpper(s: string)
    requires forall i :: 0 <= i < |s| ==> !IsUpper(s[i])
    ensures Lower(s) == s
  {
  }

  /** Trimming leaves a string with no space at either end unchanged. */
  lemma TrimFixesUnpadded(s: string)
    requires s == [] || (!IsSpace(s[0]) && !IsSpace(s[|s| - 1]))
    ensures Trim(s) == s
  {
    assert TrimStart(s) == s;
  }

  /** Collapsing leaves a string unchanged when its class characters are
      already single and already `rep`. */
  lemma {:induction false} CollapseRunsFixes(s: string, inRun: char -> bool, rep: char)
    requires inRun(rep)
    requires NoAdjacent(s, inRun)
    requires forall i :: 0 <= i < |s| && inRun(s[i]) ==> s[i] == rep
    ensures CollapseRuns(s, inRun, rep) == s
    decreases |s|
  {
    if s != [] {
      var t := s[1..];
      assert NoAdjacent(t, inRun) by {
        forall i | 0 <= i < |t| - 1 ensures !(inRun(t[i]) && inRun(t[i + 1])) {
          assert t[i] == s[i + 1] && t[i + 1] == s[i + 2];
        }
      }
      forall i | 0 <= i < |t| && inRun(t[i]) ensures t[i] == rep {
        assert t[i] == s[i + 1];
      }
      CollapseRunsFixes(t, inRun, rep);
      if inRun(s[0]) {
        if t != [] {
          assert t[0] == s[1];
        }
        assert DropRun(t, inRun) == t;
      }
      assert [s[0]] + t == s;
    }
  }
}
