/**
 * String operations the program relies on: ASCII lower-casing for `icontains`,
 * substring search, `str.strip`, `os.path.basename` and `os.path.dirname`, and
 * decimal rendering and parsing of integers (`f"{n}"` and `int(s)`).
 */
module Text {
  import opened Wrappers

  function Lower(c: char): char
  {
    if 'A' <= c <= 'Z' then (c as int + 32) as char else c
  }

  function LowerStr(s: string): (r: string)
    ensures |r| == |s|
    ensures forall i :: 0 <= i < |s| ==> r[i] == Lower(s[i])
  {
    seq(|s|, i requires 0 <= i < |s| => Lower(s[i]))
  }

  /** Python's `q in s` on strings, by scanning the start positions of `s`. */
  predicate Contains(s: string, q: string)
    decreases |s|
  {
    q <= s || (s != [] && Contains(s[1..], q))
  }

  /** `q` occurs in `s` starting at position `i`. */
  predicate OccursAt(s: string, q: string, i: int)
  {
    0 <= i && i + |q| <= |s| && s[i..i + |q|] == q
  }

  /** Where the scan succeeds, `q` occurs at the returned position. */
  lemma {:induction false} ContainsAt(s: string, q: string) returns (i: int)
    requires Contains(s, q)
    ensures OccursAt(s, q, i)
    decreases |s|
  {
    if q <= s {
      i := 0;
      assert s[..|q|] == q;
    } else {
      var j := ContainsAt(s[1..], q);
      assert s[1..][j..j + |q|] == s[j + 1..j + 1 + |q|];
      i := j + 1;
    }
  }

  /** An occurrence at any position is found by the scan. */
  lemma {:induction false} OccursThenContains(s: string, q: string, i: int)
    requires OccursAt(s, q, i)
    ensures Contains(s, q)
    decreases i
  {
    if i == 0 {
      assert q == s[..|q|];
    } else {
      assert s[1..][i - 1..i - 1 + |q|] == s[i..i + |q|];
      OccursThenContains(s[1..], q, i - 1);
    }
  }

  /** The scanning definition agrees with "occurs at some position". */
  lemma ContainsIffOccurs(s: string, q: string)
    ensures Contains(s, q) <==> exists i :: OccursAt(s, q, i)
  {
    if Contains(s, q) {
      var i := ContainsAt(s, q);
    }
    if exists i :: OccursAt(s, q, i) {
      var i :| OccursAt(s, q, i);
      OccursThenContains(s, q, i);
    }
  }

  /** Django's `icontains`, with ASCII case folding. */
  predicate IContains(s: string, q: string)
    ensures IContains(s, q) <==> exists i :: OccursAt(LowerStr(s), LowerStr(q), i)
  {
    ContainsIffOccurs(LowerStr(s), LowerStr(q));
    Contains(LowerStr(s), LowerStr(q))
  }

  /** The empty query is contained in every string. */
  lemma IContainsEmpty(s: string)
    ensures IContains(s, "")
  {
  }

  /** Case does not matter: folding either side first gives the same answer. */
  lemma IContainsIgnoresCase(s: string, q: string)
    ensures IContains(LowerStr(s), q) == IContains(s, q)
    ensures IContains(s, LowerStr(q)) == IContains(s, q)
  {
    assert LowerStr(LowerStr(s)) == LowerStr(s);
    assert LowerStr(LowerStr(q)) == LowerStr(q);
  }

  /** The ASCII characters Python's `str.isspace` accepts: space, `\t` to `\r`, and the four separators 0x1c to 0x1f. */
  predicate IsSpace(c: char)
  {
    c == ' ' || 9 <= c as int <= 13 || 28 <= c as int <= 31
  }

  /** `str.lstrip()`: the suffix left once the leading whitespace is gone. */
  function StripLeft(s: string): (r: string)
    ensures |r| <= |s| && r == s[|s| - |r|..]
    ensures r == [] || !IsSpace(r[0])
  {
    if s != [] && IsSpace(s[0]) then StripLeft(s[1..]) else s
  }

  /** `str.rstrip()`: the prefix left once the trailing whitespace is gone. */
  function StripRight(s: string): (r: string)
    ensures |r| <= |s| && r == s[..|r|]
    ensures r == [] || !IsSpace(r[|r| - 1])
  {
    if s != [] && IsSpace(s[|s| - 1]) then StripRight(s[..|s| - 1]) else s
  }

  /** `str.strip()`: leading and trailing whitespace removed, the middle untouched. */
  function Strip(s: string): (r: string)
    ensures |r| <= |s|
    ensures r == [] || (!IsSpace(r[0]) && !IsSpace(r[|r| - 1]))
    ensures (s == [] || (!IsSpace(s[0]) && !IsSpace(s[|s| - 1]))) ==> r == s
  {
    StripRight(StripLeft(s))
  }

  /** What `str.lstrip()` removes is whitespace only. */
  lemma {:induction false} StripLeftRemovesSpaces(s: string)
    ensures forall i :: 0 <= i < |s| - |StripLeft(s)| ==> IsSpace(s[i])
  {
    if s != [] && IsSpace(s[0]) {
      StripLeftRemovesSpaces(s[1..]);
      forall i | 0 < i < |s| - |StripLeft(s)| ensures IsSpace(s[i]) {
        assert s[i] == s[1..][i - 1];
      }
    }
  }

  /** What `str.rstrip()` removes is whitespace only. */
  lemma {:induction false} StripRightRemovesSpaces(s: string)
    ensures forall i :: |StripRight(s)| <= i < |s| ==> IsSpace(s[i])
  {
    if s != [] && IsSpace(s[|s| - 1]) {
      StripRightRemovesSpaces(s[..|s| - 1]);
      forall i | |StripRight(s)| <= i < |s| - 1 ensures IsSpace(s[i]) {
        assert s[i] == s[..|s| - 1][i];
      }
    }
  }

  /** Stripping twice strips nothing more. */
  lemma StripIdempotent(s: string)
    ensures Strip(Strip(s)) == Strip(s)
  {
  }

  /** A trailing space after a word that starts and ends with a non-space is stripped off again. */
  lemma StripTrailingSpace(t: string)
    requires t != [] && !IsSpace(t[0]) && !IsSpace(t[|t| - 1])
    ensures Strip(t + " ") == t
  {
    var padded := t + " ";
    assert padded[0] == t[0] && padded[..|padded| - 1] == t;
    assert StripRight(t) == t;
  }

  /** Python's `os.path.basename` on '/'-separated paths: what follows the last '/'. */
  function Basename(p: string): (r: string)
    ensures '/' !in r
    decreases |p|
  {
    if p == [] || p[|p| - 1] == '/' then []
    else
      Basename(p[..|p| - 1]) + [p[|p| - 1]]
  }

  /** A path with no '/' is its own basename. */
  lemma {:induction false} BasenameOfPlain(p: string)
    requires '/' !in p
    ensures Basename(p) == p
    decreases |p|
  {
    if p != [] {
      assert p == p[..|p| - 1] + [p[|p| - 1]];
      BasenameOfPlain(p[..|p| - 1]);
    }
  }

  /** Whatever precedes the last '/' does not matter. */
  lemma {:induction false} BasenameAfterSlash(a: string, b: string)
    ensures Basename(a + "/" + b) == Basename(b)
    decreases |b|
  {
    var p := a + "/" + b;
    if b == [] {
      assert p[|p| - 1] == '/';
    } else {
      assert p[|p| - 1] == b[|b| - 1];
      assert p[..|p| - 1] == a + "/" + b[..|b| - 1];
      BasenameAfterSlash(a, b[..|b| - 1]);
    }
  }

  /** The directory part of a '/'-separated path: what precedes its last '/'. */
  function Dirname(p: string): (r: string)
    ensures |r| < |p| || r == []
    decreases |p|
  {
    if p == [] then []
    else if p[|p| - 1] == '/' then p[..|p| - 1]
    else Dirname(p[..|p| - 1])
  }

  /** A path with a '/' splits into its directory and its basename. */
  lemma {:induction false} SplitPath(p: string)
    requires '/' in p
    ensures p == Dirname(p) + "/" + Basename(p)
    decreases |p|
  {
    var last := p[|p| - 1];
    var init := p[..|p| - 1];
    assert p == init + [last];
    if last != '/' {
      assert '/' in init by {
        var i :| 0 <= i < |p| && p[i] == '/';
        assert i < |p| - 1 && init[i] == '/';
      }
      SplitPath(init);
    }
  }

  /** The directory a file with a plain name is placed in is what precedes its '/'. */
  lemma {:induction false} DirnameAfterSlash(a: string, b: string)
    requires '/' !in b
    ensures Dirname(a + "/" + b) == a
    decreases |b|
  {
    var p := a + "/" + b;
    if b == [] {
      assert p[..|p| - 1] == a;
    } else {
      assert p[|p| - 1] == b[|b| - 1];
      assert p[..|p| - 1] == a + "/" + b[..|b| - 1];
      DirnameAfterSlash(a, b[..|b| - 1]);
    }
  }

  predicate IsDigit(c: char)
  {
    '0' <= c <= '9'
  }

  predicate AllDigits(s: string)
  {
    forall i :: 0 <= i < |s| ==> IsDigit(s[i])
  }

  function DigitChar(d: int): (c: char)
    requires 0 <= d < 10
    ensures IsDigit(c)
  {
    ('0' as int + d) as char
  }

  /** `str(n)` for a non-negative integer. */
  function NatToString(n: nat): (r: string)
    ensures |r| >= 1 && AllDigits(r)
    decreases n
  {
    if n < 10 then [DigitChar(n)] else NatToString(n / 10) + [DigitChar(n % 10)]
  }

  /** `str(n)` (and `f"{n}"`) for any integer. */
  function IntToString(n: int): (r: string)
    ensures r != [] && '/' !in r
  {
    if n < 0 then "-" + NatToString(-n) else NatToString(n)
  }

  /** The value of a non-empty run of decimal digits. */
  function DigitsValue(s: string): nat
    requires AllDigits(s)
    decreases |s|
  {
    if s == [] then 0 else DigitsValue(s[..|s| - 1]) * 10 + (s[|s| - 1] as int - '0' as int)
  }

  /** An optional '+' or '-' followed by at least one ASCII digit. */
  predicate IsIntLiteral(s: string)
  {
    s != [] && (AllDigits(s) || (|s| > 1 && (s[0] == '-' || s[0] == '+') && AllDigits(s[1..])))
  }

  /** `int(s)` for an optional sign followed by ASCII digits; anything else is rejected. */
  function ParseInt(s: string): (r: Option<int>)
    ensures r.Some? <==> IsIntLiteral(s)
    ensures r.Some? && AllDigits(s) ==> r.value == DigitsValue(s)
    ensures r.Some? && s[0] == '-' ==> r.value <= 0
    ensures r.Some? && s[0] != '-' ==> r.value >= 0
    ensures r.Some? && (s[0] == '-' || s[0] == '+') ==>
              r.value == (if s[0] == '-' then -(DigitsValue(s[1..]) as int) else DigitsValue(s[1..]) as int)
  {
    if s == [] then None
    else if s[0] == '-' || s[0] == '+' then
      if |s| > 1 && AllDigits(s[1..]) then
        var magnitude: int := DigitsValue(s[1..]);
        Some(if s[0] == '-' then -magnitude else magnitude)
      else None
    else if AllDigits(s) then Some(DigitsValue(s))
    else None
  }

  lemma {:induction false} DigitsValueOfNat(n: nat)
    ensures DigitsValue(NatToString(n)) == n
    decreases n
  {
    var s := NatToString(n);
    if n >= 10 {
      DigitsValueOfNat(n / 10);
      assert s[..|s| - 1] == NatToString(n / 10);
    }
  }

  /** Parsing what `str` rendered gives the number back. */
  lemma ParseIntRoundTrip(n: int)
    ensures ParseInt(IntToString(n)) == Some(n)
  {
    var s := IntToString(n);
    if n < 0 {
      var digits := NatToString(-n);
      assert s == "-" + digits && s[1..] == digits;
      DigitsValueOfNat(-n);
      var magnitude: int := DigitsValue(digits);
      assert ParseInt(s) == Some(-magnitude);
    } else {
      assert s == NatToString(n) && IsDigit(s[0]);
      DigitsValueOfNat(n);
      assert ParseInt(s) == Some(DigitsValue(s));
    }
  }
}
