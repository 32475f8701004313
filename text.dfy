/** Generic string helpers: searching, splitting and joining on one character, line
    assembly, and decimal rendering of integers as Python's `str` and `format` do it. */
module Text {

  /** Index of the first occurrence of `c` in `s`, or `|s|` when `c` does not occur. */
  function IndexOf(s: string, c: char): (k: nat)
    ensures k <= |s|
    ensures k < |s| ==> s[k] == c
    ensures forall j :: 0 <= j < k ==> s[j] != c
  {
    if s == [] then 0 else if s[0] == c then 0 else 1 + IndexOf(s[1..], c)
  }

  /** Python's `s.split(sep)` for a one-character separator: always at least one piece. */
  function SplitOn(s: string, sep: char): (parts: seq<string>)
    ensures |parts| >= 1
    decreases |s|
  {
    var k := IndexOf(s, sep);
    if k == |s| then [s] else [s[..k]] + SplitOn(s[k + 1..], sep)
  }

  /** Python's `sep.join(xs)` for a one-character separator. */
  function Join(xs: seq<string>, sep: char): string
  {
    if xs == [] then "" else if |xs| == 1 then xs[0] else xs[0] + [sep] + Join(xs[1..], sep)
  }

  /** Concatenation of a sequence of strings: Python's `"".join(parts)`. */
  function Concat(parts: seq<string>): string
  {
    if parts == [] then "" else parts[0] + Concat(parts[1..])
  }

  /** Each line followed by a line feed: the text of a multi-line string literal. */
  function Terminated(lines: seq<string>): string
  {
    if lines == [] then "" else lines[0] + "\n" + Terminated(lines[1..])
  }

  /** Every string of `ls` is free of line feeds. */
  predicate NoLineFeeds(ls: seq<string>)
  {
    forall i :: 0 <= i < |ls| ==> '\n' !in ls[i]
  }

  lemma SplitNone(s: string, sep: char)
    requires sep !in s
    ensures SplitOn(s, sep) == [s]
  {
  }

  /** Splitting stops at the first separator. */
  lemma SplitAt(a: string, sep: char, b: string)
    requires sep !in a
    ensures SplitOn(a + [sep] + b, sep) == [a] + SplitOn(b, sep)
  {
    var s := a + [sep] + b;
    assert s[|a|] == sep;
    forall j | 0 <= j < |a| ensures s[j] != sep {
      assert s[j] == a[j];
      assert a[j] in a;
    }
    assert IndexOf(s, sep) == |a|;
    assert s[..|a|] == a;
    assert s[|a| + 1..] == b;
  }

  /** Splitting a joined list gives the list back when no item holds the separator. */
  lemma {:induction false} SplitJoin(xs: seq<string>, sep: char)
    requires |xs| >= 1
    requires forall i :: 0 <= i < |xs| ==> sep !in xs[i]
    ensures SplitOn(Join(xs, sep), sep) == xs
  {
    if |xs| == 1 {
      SplitNone(xs[0], sep);
    } else {
      SplitAt(xs[0], sep, Join(xs[1..], sep));
      SplitJoin(xs[1..], sep);
    }
  }

  lemma {:induction false} ConcatAppend(a: seq<string>, b: seq<string>)
    ensures Concat(a + b) == Concat(a) + Concat(b)
  {
    if a == [] {
      assert a + b == b;
    } else {
      assert (a + b)[1..] == a[1..] + b;
      ConcatAppend(a[1..], b);
    }
  }

  /** The lines of a text built from line-feed-free lines are exactly those lines,
      followed by the pieces of whatever comes after the last line feed. */
  lemma TerminatedCons(lines: seq<string>, tail: string)
    requires lines != []
    ensures Terminated(lines) + tail == lines[0] + ['\n'] + (Terminated(lines[1..]) + tail)
  {
  }

  lemma {:induction false} SplitTerminated(lines: seq<string>, tail: string)
    requires NoLineFeeds(lines)
    ensures SplitOn(Terminated(lines) + tail, '\n') == lines + SplitOn(tail, '\n')
  {
    if lines == [] {
      assert Terminated(lines) + tail == tail;
    } else {
      var rest := Terminated(lines[1..]) + tail;
      SplitTerminated(lines[1..], tail);
      SplitBefore(lines[0], rest, lines[1..], SplitOn(tail, '\n'));
      TerminatedCons(lines, tail);
      assert lines == [lines[0]] + lines[1..];
    }
  }

  /** The lines of a text made of line-feed-terminated lines are those lines and the
      empty string after the last line feed, as Python's `split("\n")` gives them. */
  lemma SplitLines(lines: seq<string>)
    requires NoLineFeeds(lines)
    ensures SplitOn(Terminated(lines), '\n') == lines + [""]
  {
    SplitTerminated(lines, "");
    assert Terminated(lines) + "" == Terminated(lines);
    SplitNone("", '\n');
  }

  lemma SplitBefore(a: string, rest: string, more: seq<string>, after: seq<string>)
    requires '\n' !in a
    requires SplitOn(rest, '\n') == more + after
    ensures SplitOn(a + ['\n'] + rest, '\n') == [a] + more + after
  {
    SplitAt(a, '\n', rest);
  }

  /** `t` is non-empty and its last character is a line feed. */
  predicate EndsLine(t: string)
  {
    |t| > 0 && t[|t| - 1] == '\n'
  }

  /** How many strings of `xs` equal `x`. */
  function Count(xs: seq<string>, x: string): nat
  {
    if xs == [] then 0 else (if xs[0] == x then 1 else 0) + Count(xs[1..], x)
  }

  lemma CountAbsent(xs: seq<string>, x: string)
    requires forall k :: 0 <= k < |xs| ==> xs[k] != x
    ensures Count(xs, x) == 0
  {
  }

  /** Lines joined with line feeds, the first of them `x` and no other: the text ends in
      a line feed and holds `x` as exactly one line. */
  lemma OpeningLine(lines: seq<string>, x: string)
    requires NoLineFeeds(lines) && lines != [] && lines[0] == x && x != ""
    requires forall k :: 1 <= k < |lines| ==> lines[k] != x
    ensures EndsLine(Terminated(lines)) && LineCount(Terminated(lines), x) == 1
  {
    TerminatedEndsLine(lines);
    SplitLines(lines);
    CountOpening(lines, x);
  }

  lemma CountOpening(lines: seq<string>, x: string)
    requires lines != [] && lines[0] == x && x != ""
    requires forall k :: 1 <= k < |lines| ==> lines[k] != x
    ensures Count(lines + [""], x) == 1
  {
    var rest := lines[1..];
    assert forall k :: 0 <= k < |rest| ==> rest[k] == lines[k + 1];
    CountAbsent(rest, x);
    CountAppend(lines, [""], x);
  }

  /** How many lines of `t`, split at line feeds, equal `x`. */
  function LineCount(t: string, x: string): nat
  {
    Count(SplitOn(t, '\n'), x)
  }

  lemma {:induction false} CountAppend(a: seq<string>, b: seq<string>, x: string)
    ensures Count(a + b, x) == Count(a, x) + Count(b, x)
  {
    if a == [] {
      assert a + b == b;
    } else {
      assert (a + b)[1..] == a[1..] + b;
      CountAppend(a[1..], b, x);
    }
  }

  lemma TerminatedEndsLine(lines: seq<string>)
    requires lines != []
    ensures EndsLine(Terminated(lines))
  {
  }

  /** A text that ends in a line feed splits, in front of whatever follows it, into its
      own lines without the empty piece after its last line feed. */
  lemma {:induction false} SplitAfterLine(t: string, u: string)
    requires EndsLine(t)
    ensures var ts := SplitOn(t, '\n');
      ts[|ts| - 1] == "" && SplitOn(t + u, '\n') == ts[..|ts| - 1] + SplitOn(u, '\n')
    decreases |t|
  {
    SplitStep(t, u);
    var k := IndexOf(t, '\n');
    var a, rest := t[..k], t[k + 1..];
    if rest == [] {
      SplitNone(rest, '\n');
      assert rest + u == u;
      LastPiece(a, SplitOn(t, '\n'));
    } else {
      assert EndsLine(rest) by {
        assert rest[|rest| - 1] == t[|t| - 1];
      }
      SplitAfterLine(rest, u);
      Recombine(a, SplitOn(rest, '\n'), SplitOn(rest + u, '\n'), SplitOn(u, '\n'));
    }
  }

  /** Both `t` and `t + u` split first at the first line feed of `t`. */
  lemma SplitStep(t: string, u: string)
    requires EndsLine(t)
    ensures var k := IndexOf(t, '\n');
      k < |t| &&
      SplitOn(t, '\n') == [t[..k]] + SplitOn(t[k + 1..], '\n') &&
      SplitOn(t + u, '\n') == [t[..k]] + SplitOn(t[k + 1..] + u, '\n')
  {
    var k := IndexOf(t, '\n');
    var a, rest := t[..k], t[k + 1..];
    assert t + u == a + ['\n'] + (rest + u);
    SplitAt(a, '\n', rest + u);
  }

  lemma LastPiece(a: string, ts: seq<string>)
    requires ts == [a] + [""]
    ensures ts[|ts| - 1] == "" && ts[..|ts| - 1] == [a]
  {
  }

  lemma Recombine(a: string, rs: seq<string>, more: seq<string>, us: seq<string>)
    requires |rs| >= 1 && more == rs[..|rs| - 1] + us
    ensures var ts := [a] + rs;
      ts[|ts| - 1] == rs[|rs| - 1] && [a] + more == ts[..|ts| - 1] + us
  {
    var ts := [a] + rs;
    assert ts[..|ts| - 1] == [a] + rs[..|rs| - 1];
  }


  /** Counting lines is additive across a text that ends in a line feed. */
  lemma LineCountAppend(t: string, u: string, x: string)
    requires EndsLine(t) && x != ""
    ensures LineCount(t + u, x) == LineCount(t, x) + LineCount(u, x)
  {
    SplitAfterLine(t, u);
    var ts := SplitOn(t, '\n');
    assert ts == ts[..|ts| - 1] + [ts[|ts| - 1]];
    CountAppend(ts[..|ts| - 1], [ts[|ts| - 1]], x);
    CountAppend(ts[..|ts| - 1], SplitOn(u, '\n'), x);
  }

  /** Joining texts that each end in a line feed and each hold one line equal to `x`,
      in front of `s`, holds one such line per text plus those of `s`. */
  lemma {:induction false} LineCountConcat(parts: seq<string>, s: string, x: string)
    requires x != ""
    requires forall k :: 0 <= k < |parts| ==> EndsLine(parts[k]) && LineCount(parts[k], x) == 1
    ensures LineCount(Concat(parts) + s, x) == |parts| + LineCount(s, x)
  {
    if parts == [] {
      assert Concat(parts) + s == s;
    } else {
      var tail := parts[1..];
      var rest := Concat(tail) + s;
      assert Concat(parts) + s == parts[0] + rest;
      assert forall k :: 0 <= k < |tail| ==> tail[k] == parts[k + 1];
      LineCountConcat(tail, s, x);
      LineCountAppend(parts[0], rest, x);
    }
  }

  // ---- decimal numbers ----

  predicate IsDigit(c: char)
  {
    '0' <= c <= '9'
  }

  predicate AllDigits(s: string)
  {
    forall i :: 0 <= i < |s| ==> IsDigit(s[i])
  }

  function DigitChar(d: nat): (c: char)
    requires d < 10
    ensures IsDigit(c) && c as int - '0' as int == d
  {
    ('0' as int + d) as char
  }

  function DigitValue(c: char): nat
    requires IsDigit(c)
  {
    c as int - '0' as int
  }

  /** Python's `str(n)` for a natural number: decimal, no leading zero. */
  function NatToString(n: nat): (s: string)
    ensures |s| >= 1 && AllDigits(s)
    ensures s[0] == '0' ==> n == 0
  {
    if n < 10 then [DigitChar(n)] else NatToString(n / 10) + [DigitChar(n % 10)]
  }

  /** Python's `str(n)` for an integer. */
  function IntToString(n: int): (s: string)
    ensures forall i :: 0 <= i < |s| ==> IsDigit(s[i]) || s[i] == '-'
  {
    if n < 0 then "-" + NatToString(-n) else NatToString(n)
  }

  /** The value of a string of decimal digits (leading zeros allowed). */
  function ParseNat(s: string): nat
    requires AllDigits(s)
  {
    if s == [] then 0 else ParseNat(s[..|s| - 1]) * 10 + DigitValue(s[|s| - 1])
  }

  /** Reads an optionally signed decimal integer. */
  function ParseInt(s: string): int
    requires |s| >= 1
    requires AllDigits(if s[0] == '-' then s[1..] else s)
  {
    if s[0] == '-' then 0 - ParseNat(s[1..]) else ParseNat(s)
  }

  lemma {:induction false} ParseNatToString(n: nat)
    ensures ParseNat(NatToString(n)) == n
  {
    if n >= 10 {
      var s := NatToString(n);
      assert s[..|s| - 1] == NatToString(n / 10);
      ParseNatToString(n / 10);
    }
  }

  /** `str(n)` is read back as `n`, and has no leading zero: the rendering is exact. */
  lemma IntToStringRoundTrip(n: int)
    ensures |IntToString(n)| >= 1
    ensures AllDigits(if IntToString(n)[0] == '-' then IntToString(n)[1..] else IntToString(n))
    ensures ParseInt(IntToString(n)) == n
  {
    if n < 0 {
      assert IntToString(n)[1..] == NatToString(-n);
      ParseNatToString(-n);
    } else {
      ParseNatToString(n);
    }
  }

  function Pow10(k: nat): (p: nat)
    ensures p >= 1
  {
    if k == 0 then 1 else 10 * Pow10(k - 1)
  }

  lemma {:induction false} NatToStringLength(n: nat, k: nat)
    requires 1 <= k && n < Pow10(k)
    ensures |NatToString(n)| <= k
  {
    if n >= 10 {
      NatToStringLength(n / 10, k - 1);
    }
  }

  function Zeros(k: nat): (s: string)
    ensures |s| == k && AllDigits(s)
  {
    if k == 0 then "" else Zeros(k - 1) + "0"
  }

  lemma {:induction false} ParseLeadingZeros(k: nat, s: string)
    requires AllDigits(s)
    ensures ParseNat(Zeros(k) + s) == ParseNat(s)
  {
    if s == [] {
      assert Zeros(k) + s == Zeros(k);
      ZerosValue(k);
    } else {
      var t := Zeros(k) + s;
      assert t[..|t| - 1] == Zeros(k) + s[..|s| - 1];
      ParseLeadingZeros(k, s[..|s| - 1]);
    }
  }

  lemma {:induction false} ZerosValue(k: nat)
    ensures ParseNat(Zeros(k)) == 0
  {
    if k > 0 {
      var z := Zeros(k);
      assert z[..|z| - 1] == Zeros(k - 1);
      ZerosValue(k - 1);
    }
  }

  /** Python's `format(n, "0<width>d")` (and `strftime`'s zero-padded fields): the decimal
      digits of `n`, left-padded with zeros to at least `width` characters. */
  function ZeroPad(n: nat, width: nat): (s: string)
    ensures AllDigits(s)
    ensures |s| == if |NatToString(n)| >= width then |NatToString(n)| else width
    ensures ParseNat(s) == n
  {
    var digits := NatToString(n);
    ParseNatToString(n);
    if |digits| >= width then digits
    else
      ParseLeadingZeros(width - |digits|, digits);
      Zeros(width - |digits|) + digits
  }

  /** A number below `10^width` pads to exactly `width` digits. */
  lemma ZeroPadWidth(n: nat, width: nat)
    requires 1 <= width && n < Pow10(width)
    ensures |ZeroPad(n, width)| == width
  {
    NatToStringLength(n, width);
  }
}
