/** The Python `str` operations the monitor relies on: `strip()`, `split(',')`,
    `replace(old, new)` and `int()` applied to a string of decimal digits. */
module PyStr {

  datatype Option<+T> = None | Some(value: T)

  /** `str.isspace()` of one character: the whitespace set of Python 3. */
  predicate IsSpace(c: char) {
    || c == ' '
    || ('\t' <= c <= '\r')
    || ('\U{1C}' <= c <= '\U{1F}')
    || c == '\U{85}' || c == '\U{A0}' || c == '\U{1680}'
    || ('\U{2000}' <= c <= '\U{200A}')
    || c == '\U{2028}' || c == '\U{2029}' || c == '\U{202F}' || c == '\U{205F}' || c == '\U{3000}'
  }

  predicate AllSpace(s: string) {
    forall k :: 0 <= k < |s| ==> IsSpace(s[k])
  }

  // ---------------------------------------------------------------------------
  // strip()

  function LStrip(s: string): string
    decreases |s|
  {
    if |s| > 0 && IsSpace(s[0]) then LStrip(s[1..]) else s
  }

  function RStrip(s: string): string
    decreases |s|
  {
    if |s| > 0 && IsSpace(s[|s| - 1]) then RStrip(s[..|s| - 1]) else s
  }

  /** `s.strip()` with no argument. */
  function Strip(s: string): string {
    RStrip(LStrip(s))
  }

  lemma {:induction false} LStripSpec(s: string)
    ensures |LStrip(s)| <= |s|
    ensures LStrip(s) == s[|s| - |LStrip(s)|..]
    ensures AllSpace(s[..|s| - |LStrip(s)|])
    ensures LStrip(s) != [] ==> !IsSpace(LStrip(s)[0])
    decreases |s|
  {
    if |s| > 0 && IsSpace(s[0]) {
      LStripSpec(s[1..]);
      var n := |s| - |LStrip(s)|;
      assert s[..n] == [s[0]] + s[1..][..n - 1];
    }
  }

  lemma {:induction false} RStripSpec(s: string)
    ensures |RStrip(s)| <= |s|
    ensures RStrip(s) == s[..|RStrip(s)|]
    ensures AllSpace(s[|RStrip(s)|..])
    ensures RStrip(s) != [] ==> !IsSpace(RStrip(s)[|RStrip(s)| - 1])
    decreases |s|
  {
    if |s| > 0 && IsSpace(s[|s| - 1]) {
      var t := s[..|s| - 1];
      RStripSpec(t);
      var n := |RStrip(s)|;
      assert s[n..] == t[n..] + [s[|s| - 1]];
    }
  }

  /** `strip()` keeps the slice of its argument that lies between the leading and
      the trailing whitespace, and that slice neither starts nor ends with whitespace. */
  lemma StripSpec(s: string)
    ensures var t := Strip(s);
      && (t == [] || (!IsSpace(t[0]) && !IsSpace(t[|t| - 1])))
      && exists i, j :: 0 <= i <= j <= |s| && t == s[i..j] && AllSpace(s[..i]) && AllSpace(s[j..])
  {
    var u := LStrip(s);
    LStripSpec(s);
    RStripSpec(u);
    var t := RStrip(u);
    var i := |s| - |u|;
    var j := i + |t|;
    assert t == s[i..j];
    assert s[j..] == u[|t|..];
    if t != [] {
      assert t[0] == u[0];
    }
  }

  /** An address that is already stripped is left as it is. */
  lemma StripKeepsTrimmed(s: string)
    requires s == [] || (!IsSpace(s[0]) && !IsSpace(s[|s| - 1]))
    ensures Strip(s) == s
  {
  }

  lemma StripIdempotent(s: string)
    ensures Strip(Strip(s)) == Strip(s)
  {
    StripSpec(s);
    StripKeepsTrimmed(Strip(s));
  }

  // ---------------------------------------------------------------------------
  // split(sep)

  /** `s.split(sep)` with a one-character separator: the pieces between separators,
      empty pieces included; never an empty list. */
  function Split(s: string, sep: char): (parts: seq<string>)
    ensures |parts| >= 1
    decreases |s|
  {
    if |s| == 0 then [[]]
    else
      var rest := Split(s[1..], sep);
      if s[0] == sep then [[]] + rest
      else [[s[0]] + rest[0]] + rest[1..]
  }

  /** `sep.join(parts)`. */
  function JoinWith(parts: seq<string>, sep: char): string
    requires |parts| >= 1
    decreases |parts|
  {
    if |parts| == 1 then parts[0] else parts[0] + [sep] + JoinWith(parts[1..], sep)
  }

  /** Splitting loses nothing: joining the pieces with the separator gives back the text. */
  lemma {:induction false} SplitJoin(s: string, sep: char)
    ensures JoinWith(Split(s, sep), sep) == s
    decreases |s|
  {
    if |s| > 0 {
      var rest := Split(s[1..], sep);
      SplitJoin(s[1..], sep);
      var parts := Split(s, sep);
      if s[0] == sep {
        assert parts[1..] == rest;
      } else if |rest| > 1 {
        assert parts[1..] == rest[1..];
        assert JoinWith(rest, sep) == rest[0] + [sep] + JoinWith(rest[1..], sep);
      }
    }
  }

  /** A text without the separator is one piece. */
  lemma {:induction false} SplitWithoutSep(s: string, sep: char)
    requires sep !in s
    ensures Split(s, sep) == [s]
    decreases |s|
  {
    if |s| > 0 {
      assert s[0] != sep && sep !in s[1..];
      SplitWithoutSep(s[1..], sep);
      assert [s[0]] + s[1..] == s;
    }
  }

  /** The piece before the first separator comes first, then the pieces of the rest. */
  lemma {:induction false} SplitAtFirstSep(a: string, b: string, sep: char)
    requires sep !in a
    ensures Split(a + [sep] + b, sep) == [a] + Split(b, sep)
    decreases |a|
  {
    if a == [] {
      assert a + [sep] + b == [sep] + b;
      assert ([sep] + b)[1..] == b;
    } else {
      assert (a + [sep] + b)[1..] == a[1..] + [sep] + b;
      assert a[0] != sep && sep !in a[1..];
      SplitAtFirstSep(a[1..], b, sep);
      assert [a[0]] + a[1..] == a;
    }
  }

  /** No piece contains the separator. */
  lemma {:induction false} SplitPiecesFree(s: string, sep: char)
    ensures forall i :: 0 <= i < |Split(s, sep)| ==> sep !in Split(s, sep)[i]
    decreases |s|
  {
    if |s| > 0 {
      SplitPiecesFree(s[1..], sep);
      var rest := Split(s[1..], sep);
      var parts := Split(s, sep);
      if s[0] != sep {
        forall i | 0 <= i < |parts| ensures sep !in parts[i] {
          if i > 0 {
            assert parts[i] == rest[i];
          }
        }
      } else {
        forall i | 0 <= i < |parts| ensures sep !in parts[i] {
          if i > 0 {
            assert parts[i] == rest[i - 1];
          }
        }
      }
    }
  }

  // ---------------------------------------------------------------------------
  // replace(pat, rep)

  predicate StartsWith(s: string, p: string) {
    |p| <= |s| && s[..|p|] == p
  }

  /** `p in s` */
  predicate Contains(s: string, p: string)
    decreases |s|
  {
    StartsWith(s, p) || (|s| > 0 && Contains(s[1..], p))
  }

  /** `s.replace(pat, rep)`: scans left to right and replaces every
      non-overlapping occurrence of `pat`. */
  function ReplaceAll(s: string, pat: string, rep: string): string
    requires pat != []
    decreases |s|
  {
    if |s| == 0 then []
    else if StartsWith(s, pat) then rep + ReplaceAll(s[|pat|..], pat, rep)
    else [s[0]] + ReplaceAll(s[1..], pat, rep)
  }

  /** A text without the pattern comes back unchanged. */
  lemma {:induction false} ReplaceAbsent(s: string, pat: string, rep: string)
    requires pat != []
    requires !Contains(s, pat)
    ensures ReplaceAll(s, pat, rep) == s
    decreases |s|
  {
    if |s| > 0 {
      ReplaceAbsent(s[1..], pat, rep);
    }
  }

  /** When the first character of the pattern occurs nowhere else in it, an
      occurrence appended at the end cannot overlap the text before it, so it is
      replaced on its own. */
  lemma {:induction false} ReplaceAppended(stem: string, pat: string, rep: string)
    requires pat != [] && pat[0] !in pat[1..]
    ensures ReplaceAll(stem + pat, pat, rep) == ReplaceAll(stem, pat, rep) + rep
    decreases |stem|
  {
    var s := stem + pat;
    if 0 < |stem| < |pat| {
      // s carries the pattern's first character at |stem|, where the pattern has another
      assert s[|stem|] == pat[0] && pat[|stem|] == pat[1..][|stem| - 1];
    }
    if |stem| == 0 {
      assert s == pat;
      assert s[|pat|..] == [];
    } else if StartsWith(s, pat) {
      assert |stem| >= |pat|;
      assert stem[..|pat|] == s[..|pat|];
      assert s[|pat|..] == stem[|pat|..] + pat;
      ReplaceAppended(stem[|pat|..], pat, rep);
    } else {
      assert !StartsWith(stem, pat) by {
        if |pat| <= |stem| {
          assert s[..|pat|] == stem[..|pat|];
        }
      }
      assert s[1..] == stem[1..] + pat;
      ReplaceAppended(stem[1..], pat, rep);
    }
  }

  /** A replaced text begins with a word in which the replacement's first
      character does not occur only if the original text already began with it. */
  lemma {:induction false} ReplacedPrefix(t: string, w: string, pat: string, rep: string)
    requires pat != [] && rep != [] && rep[0] !in w
    requires StartsWith(ReplaceAll(t, pat, rep), w)
    ensures StartsWith(t, w)
    decreases |w|
  {
    if w != [] {
      var r := ReplaceAll(t, pat, rep);
      assert r[0] == w[0];
      assert |t| > 0;
      assert !StartsWith(t, pat);
      assert r == [t[0]] + ReplaceAll(t[1..], pat, rep);
      assert StartsWith(ReplaceAll(t[1..], pat, rep), w[1..]) by {
        assert r[1..][..|w| - 1] == r[..|w|][1..];
      }
      ReplacedPrefix(t[1..], w[1..], pat, rep);
      assert t[..|w|] == [t[0]] + t[1..][..|w| - 1];
    }
  }

  /** Text whose characters all differ from the pattern's first character adds no
      occurrence in front of a text that has none. */
  lemma {:induction false} PrefixAddsNoOccurrence(u: string, t: string, pat: string)
    requires pat != [] && pat[0] !in u
    requires !Contains(t, pat)
    ensures !Contains(u + t, pat)
    decreases |u|
  {
    if u == [] {
      assert u + t == t;
    } else {
      assert (u + t)[1..] == u[1..] + t;
      PrefixAddsNoOccurrence(u[1..], t, pat);
      assert (u + t)[0] == u[0] && u[0] in u;
    }
  }

  // ---------------------------------------------------------------------------
  // int(s) for a string of decimal digits

  predicate IsDigit(c: char) {
    '0' <= c <= '9'
  }

  function DigitValue(c: char): nat
    requires IsDigit(c)
  {
    (c as int - '0' as int) as nat
  }

  /** The value of a string of decimal digits, most significant first. */
  function DigitsValue(s: string): nat
    requires forall k :: 0 <= k < |s| ==> IsDigit(s[k])
    decreases |s|
  {
    if |s| == 0 then 0 else DigitsValue(s[..|s| - 1]) * 10 + DigitValue(s[|s| - 1])
  }

  /** `int(s)` on a non-empty string of ASCII digits; `None` where `int` raises. */
  function ParseInt(s: string): Option<int> {
    if s != [] && forall k :: 0 <= k < |s| ==> IsDigit(s[k]) then Some(DigitsValue(s)) else None
  }

  function DigitChar(d: nat): (c: char)
    requires d < 10
    ensures IsDigit(c) && DigitValue(c) == d
  {
    ('0' as int + d) as char
  }

  /** `str(n)` for a natural number. */
  function DecimalString(n: nat): (s: string)
    ensures s != [] && forall k :: 0 <= k < |s| ==> IsDigit(s[k])
    decreases n
  {
    (if n < 10 then [] else DecimalString(n / 10)) + [DigitChar(n % 10)]
  }

  /** `int(str(n)) == n`. */
  lemma {:induction false} ParseDecimal(n: nat)
    ensures ParseInt(DecimalString(n)) == Some(n)
    decreases n
  {
    var s := DecimalString(n);
    if n >= 10 {
      ParseDecimal(n / 10);
      assert s[..|s| - 1] == DecimalString(n / 10);
    } else {
      assert s == [DigitChar(n)] && s[..|s| - 1] == [];
      assert DigitsValue(s) == n;
    }
  }
}
