/** The two regular expressions of the manager, written as token lists, and
    Python's `re.match` on them: a match is anchored at the start of the text
    only, so any prefix of the text may be the part that matches. */
module PyRegex {

  /** `[0-9]` or `.`; without the DOTALL flag, `.` matches every character but a newline. */
  datatype CharClass = Digit | AnyButNewline

  /** One regex token, optionally followed by `?`. */
  datatype Atom = Atom(cls: CharClass, optional: bool)

  type Pattern = seq<Atom>

  predicate Accepts(cls: CharClass, c: char)
  {
    match cls
    case Digit => '0' <= c <= '9'
    case AnyButNewline => c != '\n'
  }

  /** `re.compile("[0-9][0-9].[0-9][0-9]?.?[0-9]?[0-9]")`: Ubuntu release numbers. */
  const UbuntuVersion: Pattern := [
    Atom(Digit, false), Atom(Digit, false), Atom(AnyButNewline, false), Atom(Digit, false),
    Atom(Digit, true), Atom(AnyButNewline, true), Atom(Digit, true), Atom(Digit, false)]

  /** `re.compile("[0-9][0-9][0-9][0-9].[0-9][0-9].[0-9][0-9]")`: Arch build dates. */
  const ArchDate: Pattern := [
    Atom(Digit, false), Atom(Digit, false), Atom(Digit, false), Atom(Digit, false),
    Atom(AnyButNewline, false), Atom(Digit, false), Atom(Digit, false),
    Atom(AnyButNewline, false), Atom(Digit, false), Atom(Digit, false)]

  /** `re.match(p, s)` succeeds: some way of taking or skipping the optional
      tokens consumes the whole pattern against a prefix of `s`. */
  predicate Match(p: Pattern, s: string)
    decreases |p|
  {
    if |p| == 0 then true
    else
      (p[0].optional && Match(p[1..], s)) ||
      (|s| > 0 && Accepts(p[0].cls, s[0]) && Match(p[1..], s[1..]))
  }

  /** `re.fullmatch(p, s)`: the pattern consumes all of `s`. */
  predicate FullMatch(p: Pattern, s: string)
    decreases |p|
  {
    if |p| == 0 then |s| == 0
    else
      (p[0].optional && FullMatch(p[1..], s)) ||
      (|s| > 0 && Accepts(p[0].cls, s[0]) && FullMatch(p[1..], s[1..]))
  }

  /** `re.match` succeeds exactly when the pattern fully matches some prefix:
      the match is anchored at the start and not at the end. */
  lemma {:induction false} MatchIffPrefixFullMatch(p: Pattern, s: string)
    ensures Match(p, s) <==> exists k :: 0 <= k <= |s| && FullMatch(p, s[..k])
    decreases |p|
  {
    if |p| == 0 {
      assert FullMatch(p, s[..0]);
    } else {
      var q := p[1..];
      MatchIffPrefixFullMatch(q, s);
      if |s| > 0 {
        MatchIffPrefixFullMatch(q, s[1..]);
      }
      if Match(p, s) {
        if p[0].optional && Match(q, s) {
          var k :| 0 <= k <= |s| && FullMatch(q, s[..k]);
          assert FullMatch(p, s[..k]);
        } else {
          var k :| 0 <= k <= |s| - 1 && FullMatch(q, s[1..][..k]);
          assert s[..k + 1][1..] == s[1..][..k];
          assert FullMatch(p, s[..k + 1]);
        }
      }
      if exists k :: 0 <= k <= |s| && FullMatch(p, s[..k]) {
        var k :| 0 <= k <= |s| && FullMatch(p, s[..k]);
        if p[0].optional && FullMatch(q, s[..k]) {
          assert Match(q, s);
        } else {
          assert s[..k][1..] == s[1..][..k - 1];
          assert Match(q, s[1..]);
        }
      }
    }
  }

  /** Appending text never breaks a match: only the start is anchored. */
  lemma {:induction false} MatchExtends(p: Pattern, s: string, t: string)
    requires Match(p, s)
    ensures Match(p, s + t)
    decreases |p|
  {
    if |p| > 0 {
      if p[0].optional && Match(p[1..], s) {
        MatchExtends(p[1..], s, t);
      } else {
        assert (s + t)[1..] == s[1..] + t;
        MatchExtends(p[1..], s[1..], t);
      }
    }
  }

  /** The number of tokens that are not optional. */
  function MinLength(p: Pattern): nat
  {
    if |p| == 0 then 0 else MinLength(p[1..]) + (if p[0].optional then 0 else 1)
  }

  /** A matched text is at least as long as the pattern's mandatory tokens. */
  lemma {:induction false} MatchNeedsMinLength(p: Pattern, s: string)
    requires Match(p, s)
    ensures |s| >= MinLength(p)
    decreases |p|
  {
    if |p| > 0 {
      if p[0].optional && Match(p[1..], s) {
        MatchNeedsMinLength(p[1..], s);
      } else {
        MatchNeedsMinLength(p[1..], s[1..]);
      }
    }
  }

  /** Release numbers of both shapes in use match. */
  lemma UbuntuVersionExamples()
    ensures Match(UbuntuVersion, "24.04") && Match(UbuntuVersion, "24.04.1")
  {
  }

  /** Names of other entries do not match, nor does a one-digit year. */
  lemma NonVersionExamples()
    ensures !Match(UbuntuVersion, "current") && !Match(UbuntuVersion, "4.10")
  {
  }

  /** An Arch build date matches, also with any text after it. */
  lemma ArchDateExamples(rest: string)
    ensures Match(ArchDate, "2024.10.01") && Match(ArchDate, "2024.10.01" + rest)
  {
    assert Match(ArchDate, "2024.10.01");
    MatchExtends(ArchDate, "2024.10.01", rest);
  }

  /** An architecture name and a truncated date do not match. */
  lemma ArchDateCounterExamples()
    ensures !Match(ArchDate, "x86_64.iso") && !Match(ArchDate, "2024.1")
  {
    assert !Match(ArchDate, "x86_64.iso");
  }
}
