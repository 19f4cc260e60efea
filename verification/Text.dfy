/** String operations the registry applies to titles and tokens. */
module Text {

  /** `s.rsplit("-", 1)[-1]`: what follows the last hyphen, or all of `s` when it has none. */
  function LastSegment(s: string): (r: string)
    ensures '-' !in r && |r| <= |s|
  {
    if s == "" || s[|s| - 1] == '-' then ""
    else LastSegment(s[..|s| - 1]) + [s[|s| - 1]]
  }

  lemma {:induction false} LastSegmentOfWhole(s: string)
    requires '-' !in s
    ensures LastSegment(s) == s
  {
    if s != "" {
      LastSegmentOfWhole(s[..|s| - 1]);
    }
  }

  /** Whatever stands before a hyphen does not change the last segment. */
  lemma {:induction false} LastSegmentAfterHyphen(prefix: string, s: string)
    ensures LastSegment(prefix + "-" + s) == LastSegment(s)
  {
    var whole := prefix + "-" + s;
    if s != "" {
      assert whole[..|whole| - 1] == prefix + "-" + s[..|s| - 1];
      LastSegmentAfterHyphen(prefix, s[..|s| - 1]);
    }
  }

  predicate IsLower(c: char) { 'a' <= c <= 'z' }
  predicate IsDigit(c: char) { '0' <= c <= '9' }

  /** `re.fullmatch("[a-z]+", s)`. */
  predicate LowerWord(s: string) {
    s != "" && forall c | c in s :: IsLower(c)
  }

  /** `re.fullmatch("[a-z0-9]*[a-z][a-z0-9]*", s)`: letters and digits, at least one of them a letter. */
  predicate LabelWord(s: string) {
    && (forall c | c in s :: IsLower(c) || IsDigit(c))
    && (exists c | c in s :: IsLower(c))
  }

  predicate StartsWith(s: string, prefix: string) { prefix <= s }

  /** `PurePosixPath(s).is_absolute()`, `PureWindowsPath(s).is_absolute()`, or a home path. */
  predicate IsAbsolutePath(s: string) {
    |s| > 0
    && (|| s[0] == '~'
        || s[0] == '/'
        || (|s| > 2 && s[1] == ':' && IsSeparator(s[2]))
        || (|s| > 1 && IsSeparator(s[0]) && IsSeparator(s[1])))
  }

  predicate IsSeparator(c: char) { c == '/' || c == '\\' }

  /** A lower-case word, and a label's token, by the code points of their letters and digits. */
  lemma WordsIff(s: string)
    ensures LowerWord(s) <==> |s| > 0 && forall c | c in s :: 97 <= c as int < 123
    ensures LabelWord(s)
            <==> (&& (forall c | c in s :: 97 <= c as int < 123 || 48 <= c as int < 58)
                  && (exists c | c in s :: 97 <= c as int < 123))
  {
  }

  /** A path is absolute from the root, from a home, from a drive's root, or from a network share. */
  lemma AbsolutePathIff(s: string)
    ensures IsAbsolutePath(s)
            <==> (|| "/" <= s || "~" <= s
                  || (|s| >= 3 && (s[1..3] == ":/" || s[1..3] == ":\\"))
                  || "\\\\" <= s || "\\/" <= s)
  {
    if |s| >= 3 {
      assert s[1..3] == [s[1], s[2]];
    }
  }
}
