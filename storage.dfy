/**
 * The names the default file storage gives uploaded files. A `FileField` hands the
 * path its `upload_to` builds to the storage's `generate_filename`, which keeps the
 * directory and replaces the final component by `get_valid_name` of it: surrounding
 * whitespace stripped, spaces turned into '_', and every character other than a
 * letter, a digit, '_', '-' or '.' dropped. A component that comes out empty, "." or
 * ".." is refused (`SuspiciousFileOperation`).
 */
module Storage {
  import opened Wrappers
  import Text

  datatype StorageError = SuspiciousFileOperation

  /** The characters `get_valid_filename` keeps: ASCII `\w`, '-' and '.'. */
  predicate IsNameChar(c: char)
  {
    'a' <= c <= 'z' || 'A' <= c <= 'Z' || '0' <= c <= '9' || c == '_' || c == '-' || c == '.'
  }

  /** Every character of `s` is a name character. */
  predicate IsPlainName(s: string)
    decreases |s|
  {
    s == [] || (IsNameChar(s[0]) && IsPlainName(s[1..]))
  }

  /** Each character of a plain name is a name character. */
  lemma {:induction false} PlainAt(s: string, i: int)
    requires IsPlainName(s) && 0 <= i < |s|
    ensures IsNameChar(s[i])
    decreases i
  {
    if i > 0 {
      PlainAt(s[1..], i - 1);
    }
  }

  /** Two plain names joined are plain. */
  lemma {:induction false} PlainAppend(a: string, b: string)
    requires IsPlainName(a) && IsPlainName(b)
    ensures IsPlainName(a + b)
  {
    if a != [] {
      assert (a + b)[0] == a[0] && (a + b)[1..] == a[1..] + b;
      PlainAppend(a[1..], b);
    } else {
      assert a + b == b;
    }
  }

  /** A plain name has no directory part. */
  lemma {:induction false} PlainHasNoSlash(s: string)
    requires IsPlainName(s)
    ensures '/' !in s
  {
    if s != [] {
      PlainHasNoSlash(s[1..]);
      assert s == [s[0]] + s[1..];
    }
  }

  /** `s.replace(" ", "_")` followed by removing every character that is not a name character. */
  function Sanitize(s: string): (r: string)
    ensures IsPlainName(r) && |r| <= |s|
  {
    if s == [] then []
    else
      var head := if s[0] == ' ' then "_" else if IsNameChar(s[0]) then [s[0]] else [];
      assert IsPlainName(head) by {
        if head != [] { assert head[1..] == []; }
      }
      PlainAppend(head, Sanitize(s[1..]));
      head + Sanitize(s[1..])
  }

  /** A name made of name characters only is left as it is. */
  lemma {:induction false} SanitizePlain(s: string)
    requires IsPlainName(s)
    ensures Sanitize(s) == s
  {
    if s != [] {
      SanitizePlain(s[1..]);
      assert s == [s[0]] + s[1..];
    }
  }

  /** Sanitizing works character by character. */
  lemma {:induction false} SanitizeAppend(a: string, b: string)
    ensures Sanitize(a + b) == Sanitize(a) + Sanitize(b)
  {
    if a != [] {
      assert (a + b)[0] == a[0] && (a + b)[1..] == a[1..] + b;
      SanitizeAppend(a[1..], b);
    } else {
      assert a + b == b;
    }
  }

  /** The names `get_valid_filename` refuses. */
  predicate IsSuspicious(s: string)
  {
    s == "" || s == "." || s == ".."
  }

  /** `get_valid_filename`: the stripped, sanitized name, or a refusal. */
  function GetValidFilename(s: string): (r: Result<string, StorageError>)
    ensures r.Success? ==> IsPlainName(r.value) && !IsSuspicious(r.value) && '/' !in r.value
    ensures r.Failure? <==> IsSuspicious(Sanitize(Text.Strip(s)))
  {
    var v := Sanitize(Text.Strip(s));
    PlainHasNoSlash(v);
    if IsSuspicious(v) then Failure(SuspiciousFileOperation) else Success(v)
  }

  /** A name the storage accepts unchanged: plain, and neither empty, "." nor "..". */
  lemma ValidNameKeepsPlain(s: string)
    requires IsPlainName(s) && !IsSuspicious(s)
    ensures GetValidFilename(s) == Success(s)
  {
    assert !Text.IsSpace(s[0]) && !Text.IsSpace(s[|s| - 1]);
    SanitizePlain(s);
  }

  /** What the storage accepts once is accepted again as it stands. */
  lemma ValidNameIdempotent(s: string)
    requires GetValidFilename(s).Success?
    ensures GetValidFilename(GetValidFilename(s).value) == GetValidFilename(s)
  {
    ValidNameKeepsPlain(GetValidFilename(s).value);
  }

  /** A name that begins and ends with a name character is not stripped. */
  lemma StripKeepsNameEnds(s: string)
    requires s != [] && IsNameChar(s[0]) && IsNameChar(s[|s| - 1])
    ensures Text.Strip(s) == s
  {
  }

  /** A leading space becomes '_'. */
  lemma SanitizeSpace(b: string)
    ensures Sanitize([' '] + b) == ['_'] + Sanitize(b)
  {
    var s := [' '] + b;
    assert s[0] == ' ' && s[1..] == b;
  }

  /** A leading character that is neither a name character nor a space is dropped. */
  lemma SanitizeOther(c: char, b: string)
    requires !IsNameChar(c) && c != ' '
    ensures Sanitize([c] + b) == Sanitize(b)
  {
    var s := [c] + b;
    assert s[0] == c && s[1..] == b;
  }

  /** A plain prefix passes through sanitizing unchanged. */
  lemma SanitizePlainPrefix(a: string, t: string)
    requires IsPlainName(a)
    ensures Sanitize(a + t) == a + Sanitize(t)
  {
    SanitizeAppend(a, t);
    SanitizePlain(a);
  }

  /** Sanitizing two plain words around a space joins them with '_'. */
  lemma SanitizeSpaced(a: string, b: string)
    requires IsPlainName(a) && IsPlainName(b)
    ensures Sanitize(a + [' '] + b) == a + ['_'] + b
  {
    var t := [' '] + b;
    assert a + [' '] + b == a + t;
    SanitizePlainPrefix(a, t);
    SanitizeSpace(b);
    SanitizePlain(b);
    assert a + (['_'] + b) == a + ['_'] + b;
  }

  /** A space between two plain words becomes '_': "My Report.pdf" is stored as "My_Report.pdf". */
  lemma SpaceBecomesUnderscore(a: string, b: string)
    requires IsPlainName(a) && IsPlainName(b) && a != [] && b != []
    ensures GetValidFilename(a + [' '] + b) == Success(a + ['_'] + b)
  {
    var s := a + [' '] + b;
    assert s[0] == a[0] && s[|s| - 1] == b[|b| - 1];
    PlainAt(a, 0);
    PlainAt(b, |b| - 1);
    StripKeepsNameEnds(s);
    SanitizeSpaced(a, b);
    var v := a + ['_'] + b;
    assert |v| >= 3;
  }

  /**
   * A character that is neither a name character nor a space is dropped:
   * "Bob's.txt" is stored as "Bobs.txt".
   */
  lemma OtherCharacterDropped(a: string, c: char, b: string)
    requires IsPlainName(a) && IsPlainName(b) && a != [] && b != [] && !IsSuspicious(a + b)
    requires !IsNameChar(c) && c != ' '
    ensures GetValidFilename(a + [c] + b) == Success(a + b)
  {
    var t := [c] + b;
    var s := a + t;
    assert a + [c] + b == s;
    assert s[0] == a[0] && s[|s| - 1] == b[|b| - 1];
    PlainAt(a, 0);
    PlainAt(b, |b| - 1);
    StripKeepsNameEnds(s);
    SanitizePlainPrefix(a, t);
    SanitizeOther(c, b);
    SanitizePlain(b);
  }

  /** The path is one the storage wrote: its final component is plain and not refused. */
  predicate IsStoredName(path: string)
  {
    IsPlainName(Text.Basename(path)) && !IsSuspicious(Text.Basename(path))
  }

  /** A stored name is exactly one whose final component is its own valid form. */
  lemma StoredNameIsValidForm(path: string)
    ensures IsStoredName(path) <==> GetValidFilename(Text.Basename(path)) == Success(Text.Basename(path))
  {
    if IsStoredName(path) {
      ValidNameKeepsPlain(Text.Basename(path));
    }
  }

  /**
   * `Storage.generate_filename`: the directory of `path`, then '/', then the valid form
   * of its final component. `FileField.generate_filename` already refuses a final
   * component that is empty, "." or "..", which is the same refusal.
   */
  function GenerateFilename(path: string): (r: Result<string, StorageError>)
    ensures r.Failure? <==> GetValidFilename(Text.Basename(path)).Failure?
    ensures r.Success? ==> Text.Basename(r.value) == GetValidFilename(Text.Basename(path)).value
    ensures r.Success? ==> IsStoredName(r.value)
    ensures r.Success? ==> Text.Dirname(r.value) == Text.Dirname(path)
  {
    var v := GetValidFilename(Text.Basename(path));
    if v.Failure? then Failure(v.error)
    else
      var name := Text.Dirname(path) + "/" + v.value;
      Text.BasenameAfterSlash(Text.Dirname(path), v.value);
      Text.BasenameOfPlain(v.value);
      Text.DirnameAfterSlash(Text.Dirname(path), v.value);
      ValidNameKeepsPlain(v.value);
      Success(name)
  }

  /** A stored name is generated again unchanged. */
  lemma GenerateStoredName(path: string)
    requires '/' in path && IsStoredName(path)
    ensures GenerateFilename(path) == Success(path)
  {
    Text.SplitPath(path);
    StoredNameIsValidForm(path);
  }
}
