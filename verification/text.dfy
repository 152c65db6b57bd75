/** The handful of Python string operations the dashboard relies on, written
    out over `seq<char>`: case mapping, `strip`, `replace`, `split` on one
    character, `isdigit`, and `str` of a non-negative integer. Character
    classes follow Python's definitions restricted to Latin-1. */
module Text {

  datatype Option<+T> = None | Some(value: T)

  /** `str.isspace` for Latin-1 characters. */
  predicate IsSpace(c: char) {
    c == ' ' || ('\t' <= c <= '\r') || ('\U{1C}' <= c <= '\U{1F}') || c == '\U{85}' || c == '\U{A0}'
  }

  /** `str.isdigit` for Latin-1 characters (the superscripts one, two and three count). */
  predicate IsDigit(c: char) {
    ('0' <= c <= '9') || c == '\U{B2}' || c == '\U{B3}' || c == '\U{B9}'
  }

  predicate HasDigit(s: string) {
    exists i | 0 <= i < |s| :: IsDigit(s[i])
  }

  /** The digits of `s`, in order. */
  function Digits(s: string): (d: string)
    ensures |d| <= |s|
    ensures forall i | 0 <= i < |d| :: IsDigit(d[i])
  {
    if s == [] then []
    else (if IsDigit(s[0]) then [s[0]] else []) + Digits(s[1..])
  }

  lemma {:induction false} DigitsEmpty(s: string)
    ensures Digits(s) == [] <==> !HasDigit(s)
  {
    if s != [] {
      DigitsEmpty(s[1..]);
      if !IsDigit(s[0]) && HasDigit(s) {
        var i :| 0 <= i < |s| && IsDigit(s[i]);
        assert IsDigit(s[1..][i - 1]);
      }
    }
  }

  lemma {:induction false} DigitsAppend(a: string, b: string)
    ensures Digits(a + b) == Digits(a) + Digits(b)
  {
    if a == [] {
      assert a + b == b;
    } else {
      assert (a + b)[1..] == a[1..] + b;
      DigitsAppend(a[1..], b);
    }
  }

  // ---------------------------------------------------------------------
  // Case mapping

  /** `str.lower` on one Latin-1 character. */
  function LowerChar(c: char): char {
    if ('A' <= c <= 'Z') || ('\U{C0}' <= c <= '\U{DE}' && c != '\U{D7}') then (c as int + 32) as char else c
  }

  function Lower(s: string): (r: string)
    ensures |r| == |s|
    ensures forall i | 0 <= i < |s| :: r[i] == LowerChar(s[i])
  {
    seq(|s|, i requires 0 <= i < |s| => LowerChar(s[i]))
  }

  /** Lower-casing twice is lower-casing once. */
  lemma LowerIdempotent(s: string)
    ensures Lower(Lower(s)) == Lower(s)
  {
  }

  /** `str.upper` on one Latin-1 character; the sharp s becomes two letters. */
  function UpperOf(c: char): (r: string)
    ensures |r| >= 1 && forall i | 0 <= i < |r| :: !('a' <= r[i] <= 'z')
  {
    if ('a' <= c <= 'z') || ('\U{E0}' <= c <= '\U{FE}' && c != '\U{F7}') then [(c as int - 32) as char]
    else if c == '\U{DF}' then "SS"
    else if c == '\U{FF}' then ['\U{178}']
    else if c == '\U{B5}' then ['\U{39C}']
    else [c]
  }

  /** `str.upper`: no text grows shorter and no ASCII lower-case letter is left. */
  function Upper(s: string): (r: string)
    ensures |r| >= |s|
    ensures forall i | 0 <= i < |r| :: !('a' <= r[i] <= 'z')
  {
    if s == [] then [] else UpperOf(s[0]) + Upper(s[1..])
  }

  // ---------------------------------------------------------------------
  // strip

  function TrimLeft(s: string): (r: string)
    ensures |r| <= |s| && r == s[|s| - |r|..]
    ensures r == [] || !IsSpace(r[0])
    ensures forall i | 0 <= i < |s| - |r| :: IsSpace(s[i])
  {
    if s != [] && IsSpace(s[0]) then
      var r := TrimLeft(s[1..]);
      assert s[|s| - |r|..] == s[1..][|s| - 1 - |r|..];
      assert forall i | 1 <= i < |s| - |r| :: s[i] == s[1..][i - 1];
      r
    else s
  }

  function TrimRight(s: string): (r: string)
    ensures |r| <= |s| && r == s[..|r|]
    ensures r == [] || !IsSpace(r[|r| - 1])
    ensures forall i | |r| <= i < |s| :: IsSpace(s[i])
  {
    if s != [] && IsSpace(s[|s| - 1]) then TrimRight(s[..|s| - 1]) else s
  }

  /** `str.strip()`: drops the whitespace at both ends of `s`. */
  function Strip(s: string): (r: string)
    ensures r == [] || (!IsSpace(r[0]) && !IsSpace(r[|r| - 1]))
    ensures |r| <= |s|
  {
    TrimRight(TrimLeft(s))
  }

  /** A text with no whitespace at either end is its own strip. */
  lemma StripUnspaced(s: string)
    requires s != [] && !IsSpace(s[0]) && !IsSpace(s[|s| - 1])
    ensures Strip(s) == s
  {
  }

  lemma {:induction false} DigitsOfTrimLeft(s: string)
    ensures Digits(TrimLeft(s)) == Digits(s)
  {
    if s == [] {
    } else if IsSpace(s[0]) {
      var rest := s[1..];
      calc {
        Digits(TrimLeft(s));
        Digits(TrimLeft(rest));
        { DigitsOfTrimLeft(rest); }
        Digits(rest);
        Digits(s);
      }
    } else {
      assert TrimLeft(s) == s;
    }
  }

  lemma {:induction false} DigitsOfTrimRight(s: string)
    ensures Digits(TrimRight(s)) == Digits(s)
  {
    if s != [] && IsSpace(s[|s| - 1]) {
      var init, last := s[..|s| - 1], s[|s| - 1];
      assert TrimRight(s) == TrimRight(init);
      DigitsOfTrimRight(init);
      assert s == init + [last];
      DigitsAppend(init, [last]);
      assert Digits([last]) == [];
    }
  }

  /** Removing whitespace never removes a digit. */
  lemma DigitsOfStrip(s: string)
    ensures Digits(Strip(s)) == Digits(s)
  {
    DigitsOfTrimLeft(s);
    DigitsOfTrimRight(TrimLeft(s));
  }

  /** Stripping twice is stripping once. */
  lemma StripIdempotent(s: string)
    ensures Strip(Strip(s)) == Strip(s)
  {
    var r := Strip(s);
    if r != [] {
      assert TrimLeft(r) == r;
      assert TrimRight(r) == r;
    }
  }

  // ---------------------------------------------------------------------
  // replace

  /** `pat` occurs in `s` at position `i`. */
  predicate OccursAt(s: string, pat: string, i: int) {
    0 <= i && i + |pat| <= |s| && s[i..i + |pat|] == pat
  }

  /** `s.replace(pat, repl)`: every non-overlapping occurrence of `pat`, scanning
      from the left, is replaced by `repl`. */
  function ReplaceAll(s: string, pat: string, repl: string): string
    requires pat != []
    decreases |s|
  {
    if |s| < |pat| then s
    else if s[..|pat|] == pat then repl + ReplaceAll(s[|pat|..], pat, repl)
    else [s[0]] + ReplaceAll(s[1..], pat, repl)
  }

  /** Replacing one character: each occurrence of `c` becomes `repl`, each other
      character stays. */
  lemma {:induction false} ReplaceCharAppend(a: string, b: string, c: char, repl: string)
    ensures ReplaceAll(a + b, [c], repl) == ReplaceAll(a, [c], repl) + ReplaceAll(b, [c], repl)
  {
    if a == [] {
      assert a + b == b;
    } else {
      assert (a + b)[1..] == a[1..] + b;
      assert (a + b)[..1] == [a[0]];
      ReplaceCharAppend(a[1..], b, c, repl);
    }
  }

  lemma {:induction false} ReplaceCharAbsent(s: string, c: char, repl: string)
    requires c !in s
    ensures ReplaceAll(s, [c], repl) == s
  {
    if s != [] {
      assert s[..1] == [s[0]];
      ReplaceCharAbsent(s[1..], c, repl);
    }
  }

  /** After replacing `c` by a text without `c`, no `c` is left; no other
      character that was absent from `s` and from `repl` appears. */
  lemma {:induction false} ReplaceCharRemoves(s: string, c: char, repl: string, d: char)
    requires c !in repl
    requires d !in repl && d !in s
    ensures c !in ReplaceAll(s, [c], repl)
    ensures d !in ReplaceAll(s, [c], repl)
  {
    if s != [] {
      assert s[..1] == [s[0]];
      ReplaceCharRemoves(s[1..], c, repl, d);
    }
  }

  lemma {:induction false} ReplaceCharRemovesOnly(s: string, c: char, repl: string)
    requires c !in repl
    ensures c !in ReplaceAll(s, [c], repl)
  {
    if s != [] {
      assert s[..1] == [s[0]];
      ReplaceCharRemovesOnly(s[1..], c, repl);
    }
  }

  /** After replacing `c` by a text without `c`, no `c` is left, and no
      character of `out`, absent from `s` and from `repl`, appears. */
  lemma ReplaceCharKeepsOut(s: string, c: char, repl: string, out: set<char>)
    requires c !in repl
    requires forall d | d in out :: d !in s && d !in repl
    ensures forall d | d in out + {c} :: d !in ReplaceAll(s, [c], repl)
  {
    ReplaceCharRemovesOnly(s, c, repl);
    forall d | d in out ensures d !in ReplaceAll(s, [c], repl) {
      ReplaceCharRemoves(s, c, repl, d);
    }
  }

  /** Replacing a non-digit by a text without digits keeps the digits. */
  lemma {:induction false} DigitsOfReplaceChar(s: string, c: char, repl: string)
    requires !IsDigit(c) && Digits(repl) == []
    ensures Digits(ReplaceAll(s, [c], repl)) == Digits(s)
  {
    if s != [] {
      assert s[..1] == [s[0]];
      DigitsOfReplaceChar(s[1..], c, repl);
      if s[0] == c {
        DigitsAppend(repl, ReplaceAll(s[1..], [c], repl));
      } else {
        DigitsAppend([s[0]], ReplaceAll(s[1..], [c], repl));
      }
    }
  }

  // ---------------------------------------------------------------------
  // split on one character

  /** `s.split(sep)` for a one-character separator. */
  function Split(s: string, sep: char): (parts: seq<string>)
    ensures |parts| >= 1
  {
    if s == [] then [""]
    else
      var rest := Split(s[1..], sep);
      if s[0] == sep then [""] + rest else [[s[0]] + rest[0]] + rest[1..]
  }

  /** Joining the parts with the separator gives back the text, and no part
      holds the separator. */
  lemma {:induction false} SplitJoin(s: string, sep: char)
    ensures forall k | 0 <= k < |Split(s, sep)| :: sep !in Split(s, sep)[k]
    ensures Join(Split(s, sep), sep) == s
  {
    if s != [] {
      SplitJoin(s[1..], sep);
      var rest := Split(s[1..], sep);
      if s[0] == sep {
        assert Join([""] + rest, sep) == "" + [sep] + Join(rest, sep);
      } else {
        var parts := [[s[0]] + rest[0]] + rest[1..];
        if |rest| == 1 {
          assert Join(parts, sep) == [s[0]] + rest[0];
        } else {
          assert Join(rest, sep) == rest[0] + [sep] + Join(rest[1..], sep);
          assert Join(parts, sep) == [s[0]] + rest[0] + [sep] + Join(rest[1..], sep);
        }
        forall k | 0 <= k < |parts| ensures sep !in parts[k] {
          if k > 0 {
            assert parts[k] == rest[k];
          }
        }
      }
    }
  }

  function Join(parts: seq<string>, sep: char): string
    requires |parts| >= 1
  {
    if |parts| == 1 then parts[0] else parts[0] + [sep] + Join(parts[1..], sep)
  }

  // ---------------------------------------------------------------------
  // str(n)

  function DigitChar(d: nat): (c: char)
    requires d < 10
    ensures '0' <= c <= '9'
  {
    ('0' as int + d) as char
  }

  /** `str(n)` for a non-negative integer: decimal, no leading zeros. */
  function NatToString(n: nat): (r: string)
    ensures r != []
    ensures forall i | 0 <= i < |r| :: '0' <= r[i] <= '9'
  {
    if n < 10 then [DigitChar(n)] else NatToString(n / 10) + [DigitChar(n % 10)]
  }

  /** Different numbers print differently. */
  lemma {:induction false} NatToStringInjective(a: nat, b: nat)
    requires NatToString(a) == NatToString(b)
    ensures a == b
  {
    if a >= 10 && b >= 10 {
      var sa, sb := NatToString(a), NatToString(b);
      assert sa[|sa| - 1] == DigitChar(a % 10) && sb[|sb| - 1] == DigitChar(b % 10);
      assert sa[..|sa| - 1] == NatToString(a / 10);
      assert sb[..|sb| - 1] == NatToString(b / 10);
      NatToStringInjective(a / 10, b / 10);
    }
  }
}
