/**
 * String helpers the server relies on: splitting into tokens (Python's
 * `str.split()` and pathlib's splitting of a path into its parts), suffix
 * tests (`str.endswith`) and the decimal rendering of a length
 * (`str(len(content))`), with the reader a client uses to get it back.
 */
module Strings {
  import opened Wrappers

  /** The characters for which Python's `str.isspace()` holds. */
  predicate IsSpace(c: char) {
    c == ' ' || ('\t' <= c <= '\r') || ('\U{1c}' <= c <= '\U{1f}')
    || c == '\U{85}' || c == '\U{a0}' || c == '\U{1680}'
    || ('\U{2000}' <= c <= '\U{200a}') || c == '\U{2028}' || c == '\U{2029}'
    || c == '\U{202f}' || c == '\U{205f}' || c == '\U{3000}'
  }

  predicate IsSlash(c: char) { c == '/' }

  /** `w` contains no separator character. */
  predicate NoSep(w: string, isSep: char -> bool) {
    forall i :: 0 <= i < |w| ==> !isSep(w[i])
  }

  /** A token: a nonempty run of non-separator characters. */
  predicate IsToken(w: string, isSep: char -> bool) {
    w != [] && NoSep(w, isSep)
  }

  /** Length of the run of non-separator characters that starts `s`. */
  function RunLength(s: string, isSep: char -> bool): (n: nat)
    ensures n <= |s|
    ensures NoSep(s[..n], isSep)
    ensures n < |s| ==> isSep(s[n])
  {
    if s == [] || isSep(s[0]) then 0
    else
      var m := RunLength(s[1..], isSep);
      assert s[..1 + m] == [s[0]] + s[1..][..m];
      1 + m
  }

  /**
   * The maximal runs of non-separator characters of `s`, in order: Python's
   * `s.split()` when `isSep` is `IsSpace`, and the runs between slashes of a
   * path when `isSep` is `IsSlash` (empty parts between repeated slashes are
   * dropped; `.` parts, which pathlib drops when parsing, are kept here and
   * dropped by resolution).
   */
  function Tokens(s: string, isSep: char -> bool): (r: seq<string>)
    ensures forall i :: 0 <= i < |r| ==> IsToken(r[i], isSep)
    decreases |s|
  {
    if s == [] then []
    else if isSep(s[0]) then Tokens(s[1..], isSep)
    else
      var n := RunLength(s, isSep);
      [s[..n]] + Tokens(s[n..], isSep)
  }

  /** Python's `str.split()` with no argument. */
  function Words(s: string): seq<string> {
    Tokens(s, IsSpace)
  }

  /** The words joined with one separator character between neighbours. */
  function JoinWith(ws: seq<string>, sep: char): string {
    if ws == [] then []
    else if |ws| == 1 then ws[0]
    else ws[0] + [sep] + JoinWith(ws[1..], sep)
  }

  /** The run length of a token followed by a separator, or by nothing, is the token's length. */
  lemma {:induction false} RunLengthOfToken(w: string, t: string, isSep: char -> bool)
    requires NoSep(w, isSep)
    requires t == [] || isSep(t[0])
    ensures RunLength(w + t, isSep) == |w|
    decreases |w|
  {
    if w != [] {
      assert (w + t)[1..] == w[1..] + t;
      RunLengthOfToken(w[1..], t, isSep);
    }
  }

  /** A separator at the end of a string adds no token. */
  lemma {:induction false} TokensTrailingSep(s: string, c: char, isSep: char -> bool)
    requires isSep(c)
    ensures Tokens(s + [c], isSep) == Tokens(s, isSep)
    decreases |s|
  {
    var t := s + [c];
    if s == [] {
      assert t[1..] == [];
    } else if isSep(s[0]) {
      assert t[1..] == s[1..] + [c];
      TokensTrailingSep(s[1..], c, isSep);
    } else {
      var n := RunLength(s, isSep);
      assert s == s[..n] + s[n..];
      assert t == s[..n] + (s[n..] + [c]);
      RunLengthOfToken(s[..n], s[n..] + [c], isSep);
      assert t[..n] == s[..n];
      assert t[n..] == s[n..] + [c];
      TokensTrailingSep(s[n..], c, isSep);
    }
  }

  /** A separator at the start of a string adds no token. */
  lemma TokensLeadingSep(c: char, s: string, isSep: char -> bool)
    requires isSep(c)
    ensures Tokens([c] + s, isSep) == Tokens(s, isSep)
  {
    assert ([c] + s)[1..] == s;
  }

  /** Joining words free of separators with a character that is not one gives a string free of them. */
  lemma {:induction false} JoinNoSep(ws: seq<string>, sep: char, isSep: char -> bool)
    requires !isSep(sep)
    requires forall i :: 0 <= i < |ws| ==> NoSep(ws[i], isSep)
    ensures NoSep(JoinWith(ws, sep), isSep)
    decreases |ws|
  {
    if |ws| > 1 {
      JoinNoSep(ws[1..], sep, isSep);
      var j := JoinWith(ws, sep);
      assert j == ws[0] + [sep] + JoinWith(ws[1..], sep);
      forall i | 0 <= i < |j| ensures !isSep(j[i]) {
        if i < |ws[0]| {
          assert j[i] == ws[0][i];
        } else if i > |ws[0]| {
          assert j[i] == JoinWith(ws[1..], sep)[i - |ws[0]| - 1];
        }
      }
    } else if |ws| == 1 {
      assert NoSep(ws[0], isSep);
    }
  }

  /** Splitting undoes joining: the tokens of tokens joined by a separator are those tokens. */
  lemma {:induction false} TokensOfJoin(ws: seq<string>, sep: char, isSep: char -> bool)
    requires isSep(sep)
    requires forall i :: 0 <= i < |ws| ==> IsToken(ws[i], isSep)
    ensures Tokens(JoinWith(ws, sep), isSep) == ws
    decreases |ws|
  {
    if ws == [] {
    } else if |ws| == 1 {
      var w := ws[0];
      RunLengthOfToken(w, [], isSep);
      assert w + [] == w;
      assert w[..|w|] == w;
      assert w[|w|..] == [];
    } else {
      var w, rest := ws[0], JoinWith(ws[1..], sep);
      var s := w + [sep] + rest;
      assert s == w + ([sep] + rest);
      RunLengthOfToken(w, [sep] + rest, isSep);
      assert s[..|w|] == w;
      assert s[|w|..] == [sep] + rest;
      TokensLeadingSep(sep, rest, isSep);
      TokensOfJoin(ws[1..], sep, isSep);
      assert [w] + ws[1..] == ws;
    }
  }

  /** Python's `s.endswith(suffix)`. */
  predicate EndsWith(s: string, suffix: string) {
    |suffix| <= |s| && s[|s| - |suffix|..] == suffix
  }

  /** Python's `s.startswith(prefix)`. */
  predicate StartsWith(s: string, prefix: string) {
    |prefix| <= |s| && s[..|prefix|] == prefix
  }

  predicate IsDigit(c: char) { '0' <= c <= '9' }

  predicate AllDigits(s: string) {
    forall i :: 0 <= i < |s| ==> IsDigit(s[i])
  }

  function DigitChar(d: nat): (c: char)
    requires d < 10
    ensures IsDigit(c) && c as int - '0' as int == d
  {
    ('0' as int + d) as char
  }

  /** The decimal numeral of `n`, as Python's `str(n)` and an f-string write it. */
  function NatToString(n: nat): (s: string)
    ensures s != [] && AllDigits(s)
    ensures |s| > 1 ==> s[0] != '0'
  {
    if n < 10 then [DigitChar(n)]
    else NatToString(n / 10) + [DigitChar(n % 10)]
  }

  /** The value of a string of decimal digits. */
  function DigitsValue(s: string): nat
    requires AllDigits(s)
  {
    if s == [] then 0
    else DigitsValue(s[..|s| - 1]) * 10 + (s[|s| - 1] as int - '0' as int)
  }

  /** How a client reads a Content-Length value: a nonempty string of decimal digits. */
  function ParseNat(s: string): (r: Option<nat>)
    ensures r.Some? <==> s != [] && AllDigits(s)
  {
    if s != [] && AllDigits(s) then Some(DigitsValue(s)) else None
  }

  /** Reading back a rendered length gives the length. */
  lemma {:induction false} ParseNatToString(n: nat)
    ensures ParseNat(NatToString(n)) == Some(n)
  {
    var s := NatToString(n);
    if n < 10 {
      assert s[..|s| - 1] == [];
      assert DigitsValue(s) == n;
    } else {
      ParseNatToString(n / 10);
      assert s[..|s| - 1] == NatToString(n / 10);
      assert s[|s| - 1] == DigitChar(n % 10);
    }
  }
}
