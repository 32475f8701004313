/** TEXT value escaping for iCalendar (section 3.3.11 of RFC 5545), the way
    `sanitize_text` performs it: four successive `str.replace` passes. */
module Escaping {
  import opened Wrappers

  /** Python's `s.replace(c, by)` for a one-character pattern. */
  function Replace(s: string, c: char, rep: string): (r: string)
    ensures c !in rep ==> c !in r
  {
    if s == [] then "" else (if s[0] == c then rep else [s[0]]) + Replace(s[1..], c, rep)
  }

  /** `sanitize_text`: a falsy argument (`None` or the empty string) gives the empty
      string; any other string goes through the four replacements, backslash first. */
  function SanitizeText(s: Option<string>): string
  {
    if s.None? || s.value == "" then "" else Passes(s.value)
  }

  /** The four characters that section 3.3.11 of RFC 5545 requires to be escaped in TEXT. */
  predicate IsSpecial(c: char)
  {
    c == '\\' || c == ';' || c == ',' || c == '\n'
  }

  /** Reference escaping of one character: a special becomes a backslash and its code. */
  function EscapeChar(c: char): (r: string)
    ensures IsSpecial(c) ==> |r| == 2 && r[0] == '\\'
    ensures !IsSpecial(c) ==> r == [c]
  {
    if c == '\\' then "\\\\"
    else if c == ';' then "\\;"
    else if c == ',' then "\\,"
    else if c == '\n' then "\\n"
    else [c]
  }

  /** Reference escaping of a string, one character at a time. */
  function Escaped(s: string): string
  {
    if s == [] then "" else EscapeChar(s[0]) + Escaped(s[1..])
  }

  /** Reference unescaping of TEXT: `\\`, `\;`, `\,`, `\n` and `\N` stand for the
      corresponding character; anything else is taken literally. */
  function Unescape(s: string): string
  {
    if |s| >= 2 && s[0] == '\\' && s[1] in "\\;,nN" then
      [if s[1] == 'n' || s[1] == 'N' then '\n' else s[1]] + Unescape(s[2..])
    else if s == [] then ""
    else [s[0]] + Unescape(s[1..])
  }

  lemma {:induction false} ReplaceAppend(a: string, b: string, c: char, rep: string)
    ensures Replace(a + b, c, rep) == Replace(a, c, rep) + Replace(b, c, rep)
  {
    if a == [] {
      assert a + b == b;
    } else {
      assert (a + b)[1..] == a[1..] + b;
      ReplaceAppend(a[1..], b, c, rep);
    }
  }

  /** The four `replace` passes of `sanitize_text`, in the order the source applies them. */
  function Passes(s: string): string
  {
    Replace(Replace(Replace(Replace(s, '\\', "\\\\"), ';', "\\;"), ',', "\\,"), '\n', "\\n")
  }

  lemma {:induction false} ReplaceAbsent(s: string, c: char, rep: string)
    requires c !in s
    ensures Replace(s, c, rep) == s
  {
    if s != [] {
      assert s[0] in s;
      ReplaceAbsent(s[1..], c, rep);
    }
  }

  lemma ReplaceSingle(x: char, c: char, rep: string)
    ensures Replace([x], c, rep) == if x == c then rep else [x]
  {
    assert [x][1..] == [];
  }

  lemma PassesOne(c: char)
    ensures Passes([c]) == EscapeChar(c)
  {
    var r1 := Replace([c], '\\', "\\\\");
    ReplaceSingle(c, '\\', "\\\\");
    var r2 := Replace(r1, ';', "\\;");
    if c == '\\' {
      ReplaceAbsent(r1, ';', "\\;");
      ReplaceAbsent(r1, ',', "\\,");
      ReplaceAbsent(r1, '\n', "\\n");
    } else {
      ReplaceSingle(c, ';', "\\;");
      if c == ';' {
        ReplaceAbsent(r2, ',', "\\,");
        ReplaceAbsent(r2, '\n', "\\n");
      } else {
        ReplaceSingle(c, ',', "\\,");
        if c == ',' {
          ReplaceAbsent("\\,", '\n', "\\n");
        } else {
          ReplaceSingle(c, '\n', "\\n");
        }
      }
    }
  }

  lemma PassesAppend(a: string, b: string)
    ensures Passes(a + b) == Passes(a) + Passes(b)
  {
    var r1a, r1b := Replace(a, '\\', "\\\\"), Replace(b, '\\', "\\\\");
    ReplaceAppend(a, b, '\\', "\\\\");
    var r2a, r2b := Replace(r1a, ';', "\\;"), Replace(r1b, ';', "\\;");
    ReplaceAppend(r1a, r1b, ';', "\\;");
    var r3a, r3b := Replace(r2a, ',', "\\,"), Replace(r2b, ',', "\\,");
    ReplaceAppend(r2a, r2b, ',', "\\,");
    ReplaceAppend(r3a, r3b, '\n', "\\n");
  }

  lemma {:induction false} PassesEscaped(s: string)
    ensures Passes(s) == Escaped(s)
  {
    if s != [] {
      assert s == [s[0]] + s[1..];
      PassesAppend([s[0]], s[1..]);
      PassesOne(s[0]);
      PassesEscaped(s[1..]);
    }
  }

  /** Running the replacements one after the other is the same as escaping each
      character on its own: backslash goes first, so no backslash introduced by a
      later pass is doubled again. */
  lemma SanitizeIsEscaped(s: string)
    ensures SanitizeText(Some(s)) == Escaped(s)
  {
    PassesEscaped(s);
  }

  /** A falsy argument gives the empty string. */
  lemma SanitizeFalsy(s: Option<string>)
    ensures SanitizeText(s) == "" <==> s.None? || s.value == ""
  {
    if s.Some? && s.value != "" {
      PassesEscaped(s.value);
      EscapedLength(s.value);
    }
  }

  lemma {:induction false} EscapedLength(s: string)
    ensures |Escaped(s)| >= |s|
  {
    if s != [] {
      EscapedLength(s[1..]);
    }
  }

  lemma {:induction false} EscapedAppend(a: string, b: string)
    ensures Escaped(a + b) == Escaped(a) + Escaped(b)
  {
    if a == [] {
      assert a + b == b;
    } else {
      assert (a + b)[1..] == a[1..] + b;
      EscapedAppend(a[1..], b);
    }
  }

  /** A string without special characters is left as it is. */
  lemma {:induction false} EscapedPlain(s: string)
    requires forall i :: 0 <= i < |s| ==> !IsSpecial(s[i])
    ensures Escaped(s) == s
  {
    if s != [] {
      EscapedPlain(s[1..]);
    }
  }

  /** Escaped text never holds a raw line feed, so it always stays on one content line. */
  lemma {:induction false} EscapedNoLineFeed(s: string)
    ensures '\n' !in Escaped(s)
  {
    if s != [] {
      EscapedNoLineFeed(s[1..]);
    }
  }

  /** Unescaping per section 3.3.11 of RFC 5545 recovers the original text exactly. */
  lemma {:induction false} UnescapeEscaped(s: string)
    ensures Unescape(Escaped(s)) == s
  {
    if s != [] {
      var e := EscapeChar(s[0]);
      var rest := Escaped(s[1..]);
      assert Escaped(s) == e + rest;
      if IsSpecial(s[0]) {
        assert (e + rest)[2..] == rest;
      } else {
        assert (e + rest)[1..] == rest;
      }
      UnescapeEscaped(s[1..]);
    }
  }

  /** The escaped form of a value is unescaped back to it: escaping is injective. */
  lemma EscapedInjective(a: string, b: string)
    requires Escaped(a) == Escaped(b)
    ensures a == b
  {
    UnescapeEscaped(a);
    UnescapeEscaped(b);
  }
}
