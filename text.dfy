/**
 * Character-level string helpers shared by the model: ASCII lower-casing
 * (`toLowerCase`), substring search (`includes`), prefix test (`startsWith`),
 * Python's `str.strip()` and decimal rendering of naturals (template literals).
 */
module Text {

  /** Lower-cases one character; only the ASCII letters A-Z are mapped. */
  function LowerChar(c: char): char {
    if 'A' <= c <= 'Z' then (c as int - 'A' as int + 'a' as int) as char else c
  }

  /** `s.toLowerCase()`, restricted to ASCII letters. */
  function ToLower(s: string): (r: string)
    ensures |r| == |s|
    ensures forall i :: 0 <= i < |s| ==> r[i] == LowerChar(s[i])
  {
    seq(|s|, i requires 0 <= i < |s| => LowerChar(s[i]))
  }

  /** Lower-casing twice is lower-casing once. */
  lemma ToLowerIdempotent(s: string)
    ensures ToLower(ToLower(s)) == ToLower(s)
  {
  }

  /** `s.startsWith(prefix)` */
  predicate StartsWith(s: string, prefix: string) {
    |prefix| <= |s| && s[..|prefix|] == prefix
  }

  /** `s.includes(sub)`: `sub` occurs in `s` at some position. */
  predicate Contains(s: string, sub: string)
    decreases |s|
  {
    StartsWith(s, sub) || (s != [] && Contains(s[1..], sub))
  }

  /** The characters Python's `str.strip()` removes (the ASCII and Latin-1 ones). */
  predicate IsSpace(c: char) {
    c == ' ' || 9 <= c as int <= 13 || 28 <= c as int <= 31 || c as int == 0x85 || c as int == 0xA0
  }

  function TrimStart(s: string): (r: string)
    ensures |r| <= |s| && r == s[|s| - |r|..]
    ensures r == [] || !IsSpace(r[0])
  {
    if s != [] && IsSpace(s[0]) then TrimStart(s[1..]) else s
  }

  function TrimEnd(s: string): (r: string)
    ensures |r| <= |s| && r == s[..|r|]
    ensures r == [] || !IsSpace(r[|r| - 1])
  {
    if s != [] && IsSpace(s[|s| - 1]) then TrimEnd(s[..|s| - 1]) else s
  }

  /** Python's `line.strip()`. */
  function Strip(s: string): string {
    TrimEnd(TrimStart(s))
  }

  /** Trimming the end never removes a non-space character, nor anything before it. */
  lemma {:induction false} TrimEndKeeps(s: string, k: nat)
    requires k < |s| && !IsSpace(s[k])
    ensures k < |TrimEnd(s)| && TrimEnd(s)[..k + 1] == s[..k + 1]
    decreases |s|
  {
    if IsSpace(s[|s| - 1]) {
      assert k < |s| - 1;
      TrimEndKeeps(s[..|s| - 1], k);
      assert s[..|s| - 1][..k + 1] == s[..k + 1];
    }
  }

  /** A text that starts with a non-space character strips to one starting with that character. */
  lemma StripFirstChar(s: string)
    requires s != [] && !IsSpace(s[0])
    ensures Strip(s) != [] && Strip(s)[0] == s[0]
  {
    assert TrimStart(s) == s;
    TrimEndKeeps(s, 0);
  }

  /** A prefix that neither starts nor ends with whitespace survives stripping. */
  lemma StripKeepsPrefix(s: string, p: string)
    requires StartsWith(s, p) && p != [] && !IsSpace(p[0]) && !IsSpace(p[|p| - 1])
    ensures StartsWith(Strip(s), p)
  {
    assert s[0] == p[0];
    assert TrimStart(s) == s;
    assert s[|p| - 1] == p[|p| - 1];
    TrimEndKeeps(s, |p| - 1);
    assert s[..|p|] == p;
  }

  /** Leading whitespace is dropped the same way with one more space character after the text. */
  lemma {:induction false} TrimStartSpaceAfter(s: string, c: char)
    requires IsSpace(c)
    ensures TrimStart(s + [c]) == if TrimStart(s) == [] then [] else TrimStart(s) + [c]
    decreases |s|
  {
    var sc := s + [c];
    if s == [] {
      assert sc == [c] && sc[1..] == [];
      assert TrimStart(sc) == TrimStart([]);
    } else if IsSpace(s[0]) {
      assert sc[0] == s[0] && sc[1..] == s[1..] + [c];
      assert TrimStart(sc) == TrimStart(s[1..] + [c]);
      assert TrimStart(s) == TrimStart(s[1..]);
      TrimStartSpaceAfter(s[1..], c);
    } else {
      assert sc[0] == s[0];
      assert TrimStart(sc) == sc;
      assert TrimStart(s) == s;
    }
  }

  /** A trailing newline does not change what a text strips to. */
  lemma StripNewline(s: string)
    ensures Strip(s + "\n") == Strip(s)
  {
    TrimStartSpaceAfter(s, '\n');
    var t := TrimStart(s);
    if t != [] {
      var tn := t + "\n";
      assert tn[..|tn| - 1] == t;
      assert TrimEnd(tn) == TrimEnd(t);
    }
  }

  function DigitChar(d: nat): char
    requires d < 10
  {
    "0123456789"[d]
  }

  /** Decimal rendering of a natural number, as a template literal prints it. */
  function NatToString(n: nat): (r: string)
    ensures 1 <= |r|
    ensures |r| == 1 <==> n < 10
  {
    if n < 10 then [DigitChar(n)] else NatToString(n / 10) + [DigitChar(n % 10)]
  }

  lemma DigitCharInjective(a: nat, b: nat)
    requires a < 10 && b < 10 && DigitChar(a) == DigitChar(b)
    ensures a == b
  {
  }

  /** Distinct numbers print differently. */
  lemma {:induction false} NatToStringInjective(m: nat, n: nat)
    requires NatToString(m) == NatToString(n)
    ensures m == n
  {
    if m < 10 && n < 10 {
      DigitCharInjective(m, n);
    } else if m >= 10 && n >= 10 {
      var sm, sn := NatToString(m), NatToString(n);
      assert sm[|sm| - 1] == DigitChar(m % 10) && sn[|sn| - 1] == DigitChar(n % 10);
      DigitCharInjective(m % 10, n % 10);
      assert sm[..|sm| - 1] == NatToString(m / 10);
      assert sn[..|sn| - 1] == NatToString(n / 10);
      NatToStringInjective(m / 10, n / 10);
    }
  }
}
