/** The pieces of Python's `str` and `list` behaviour that the manager relies
    on: `list.index`, subscripts with negative indices, `str.split` on one
    character and on the two-character separator "= ", `str.strip()` and
    `int(...)` on decimal text. */
module PyStr {
  import opened Wrappers

  // ---------------------------------------------------------------------------
  // Lists
  // ---------------------------------------------------------------------------

  /** `s.index(x)`: the first position that holds `x`. */
  function FirstIndex<T(==)>(s: seq<T>, x: T): (i: nat)
    requires x in s
    ensures i < |s| && s[i] == x
    ensures x !in s[..i]
  {
    if s[0] == x then 0
    else
      var j := FirstIndex(s[1..], x);
      assert s[..j + 1] == [s[0]] + s[1..][..j];
      j + 1
  }

  /** A position holding `x` with no `x` before it is the one `index` finds. */
  lemma FirstIndexUnique<T>(s: seq<T>, x: T, i: nat)
    requires i < |s| && s[i] == x
    requires forall j :: 0 <= j < i ==> s[j] != x
    ensures FirstIndex(s, x) == i
  {
    var k := FirstIndex(s, x);
    assert s[k] == x;
    assert x in s[..i + 1];
  }

  /** `s[k]` with Python's reading of a negative `k` as counting from the end;
      an index outside `-len(s) .. len(s) - 1` raises `IndexError`. */
  function PyIndex<T>(s: seq<T>, k: int): (r: Result<T>)
    ensures r.Ok? <==> -|s| <= k < |s|
    ensures r.Ok? ==> r.value == s[if k >= 0 then k else |s| + k]
    ensures r.Fail? ==> r.error == IndexError
  {
    if 0 <= k < |s| then Ok(s[k])
    else if -|s| <= k < 0 then Ok(s[|s| + k])
    else Fail(IndexError)
  }

  // ---------------------------------------------------------------------------
  // str.split(c) for a one-character separator
  // ---------------------------------------------------------------------------

  /** `s.split(c)`: the pieces between the occurrences of `c`, left to right. */
  function Split(s: string, c: char): (r: seq<string>)
    ensures |r| >= 1 && (c in s ==> |r| >= 2)
    ensures forall i :: 0 <= i < |r| ==> c !in r[i]
    decreases |s|
  {
    if c !in s then [s]
    else
      var i := FirstIndex(s, c);
      [s[..i]] + Split(s[i + 1..], c)
  }

  /** `c.join(pieces)`, the inverse of `Split`. */
  function Join(pieces: seq<string>, c: char): string
  {
    if |pieces| == 0 then ""
    else if |pieces| == 1 then pieces[0]
    else pieces[0] + [c] + Join(pieces[1..], c)
  }

  /** `s.split(c)[-1]`: the text after the last `c` (all of `s` if there is none). */
  function LastPiece(s: string, c: char): string
  {
    var p := Split(s, c);
    p[|p| - 1]
  }

  lemma {:induction false} JoinSplit(s: string, c: char)
    ensures Join(Split(s, c), c) == s
    decreases |s|
  {
    if c in s {
      var i := FirstIndex(s, c);
      JoinSplit(s[i + 1..], c);
      assert s == s[..i] + [c] + s[i + 1..];
    }
  }

  /** The first `c` after a text without `c` is at the end of that text. */
  lemma {:induction false} FirstIndexAfter(a: string, c: char, b: string)
    requires c !in a
    ensures FirstIndex(a + [c] + b, c) == |a|
    decreases |a|
  {
    if |a| > 0 {
      assert (a + [c] + b)[1..] == a[1..] + [c] + b;
      FirstIndexAfter(a[1..], c, b);
    }
  }

  /** Splitting at a first occurrence: the text before it is the first piece. */
  lemma SplitAtFirst(a: string, c: char, b: string)
    requires c !in a
    ensures Split(a + [c] + b, c) == [a] + Split(b, c)
  {
    var s := a + [c] + b;
    FirstIndexAfter(a, c, b);
    assert s[..|a|] == a && s[|a| + 1..] == b;
  }

  /** The last piece of a text whose first `c` is at `i` is the last piece of
      what follows position `i`. */
  lemma LastPieceRest(s: string, c: char, i: nat)
    requires i < |s| && s[i] == c && c !in s[..i]
    ensures LastPiece(s, c) == LastPiece(s[i + 1..], c)
  {
    assert Split(s, c) == [s[..i]] + Split(s[i + 1..], c);
  }

  /** A suffix of `s[i + 1..]` is the suffix of `s` of the same length, and the
      position before it is inside `s[i..]`. */
  lemma SuffixOfRest(s: string, i: nat, n: nat)
    requires i < |s| && n <= |s| - i - 1
    ensures s[i + 1..][|s| - i - 1 - n..] == s[|s| - n..]
    ensures n < |s| - i - 1 ==> s[|s| - n - 1] == s[i + 1..][|s| - i - 1 - n - 1]
    ensures n == |s| - i - 1 ==> s[|s| - n - 1] == s[i]
  {
  }

  /** The last piece is a suffix without `c`, preceded by `c` unless it is all of `s`. */
  lemma {:induction false} LastPieceIsSuffix(s: string, c: char)
    ensures |LastPiece(s, c)| <= |s|
    ensures LastPiece(s, c) == s[|s| - |LastPiece(s, c)|..]
    ensures c !in LastPiece(s, c)
    ensures |LastPiece(s, c)| < |s| ==> s[|s| - |LastPiece(s, c)| - 1] == c
    decreases |s|
  {
    if c in s {
      var i := FirstIndex(s, c);
      var t := s[i + 1..];
      LastPieceRest(s, c, i);
      LastPieceIsSuffix(t, c);
      SuffixOfRest(s, i, |LastPiece(t, c)|);
    }
  }

  /** Two suffixes of `s` without `c`, each all of `s` or preceded by `c`, are
      the same when one of them is preceded by `c`. */
  lemma SameSuffix(s: string, c: char, l: string, b: string)
    requires |l| <= |s| && l == s[|s| - |l|..] && c !in l
    requires |l| < |s| ==> s[|s| - |l| - 1] == c
    requires |b| < |s| && b == s[|s| - |b|..] && c !in b && s[|s| - |b| - 1] == c
    ensures l == b
  {
    assert forall k :: |s| - |l| <= k < |s| ==> s[k] == l[k - (|s| - |l|)] != c;
    assert forall k :: |s| - |b| <= k < |s| ==> s[k] == b[k - (|s| - |b|)] != c;
    assert |l| == |b|;
  }

  /** After the last `c` comes exactly the text that has no `c`. */
  lemma LastPieceAfter(a: string, c: char, b: string)
    requires c !in b
    ensures LastPiece(a + [c] + b, c) == b
  {
    var s := a + [c] + b;
    LastPieceIsSuffix(s, c);
    assert s[|s| - |b|..] == b;
    assert s[|s| - |b| - 1] == c;
    SameSuffix(s, c, LastPiece(s, c), b);
  }

  /** A name ending in ".iso" has the extension "iso". */
  lemma IsoSuffixExtension(s: string)
    requires |s| >= 4 && s[|s| - 4..] == ".iso"
    ensures LastPiece(s, '.') == "iso"
  {
    LastPieceIsSuffix(s, '.');
    var b := s[|s| - 3..];
    assert b == s[|s| - 4..][1..] == "iso";
    assert s[|s| - 4] == '.';
    SameSuffix(s, '.', LastPiece(s, '.'), b);
  }

  /** The extension "iso" is all of the name or comes after a '.'. */
  lemma ExtensionIsoSuffix(s: string)
    requires LastPiece(s, '.') == "iso"
    ensures s == "iso" || (|s| >= 4 && s[|s| - 4..] == ".iso")
  {
    LastPieceIsSuffix(s, '.');
    if |s| > 3 {
      assert s[|s| - 4..] == [s[|s| - 4]] + s[|s| - 3..];
    }
  }

  /** `s.split(".")[-1] == "iso"` holds exactly for "iso" and names ending in ".iso". */
  lemma ExtensionIsIso(s: string)
    ensures LastPiece(s, '.') == "iso" <==> s == "iso" || (|s| >= 4 && s[|s| - 4..] == ".iso")
  {
    if LastPiece(s, '.') == "iso" {
      ExtensionIsoSuffix(s);
    }
    if s == "iso" {
      assert '.' !in s;
      assert Split(s, '.') == [s];
    }
    if |s| >= 4 && s[|s| - 4..] == ".iso" {
      IsoSuffixExtension(s);
    }
  }

  // ---------------------------------------------------------------------------
  // str.split("= ")
  // ---------------------------------------------------------------------------

  /** The separator "= " starts at position `i` of `s`. */
  predicate SepAt(s: string, i: int)
  {
    0 <= i && i + 1 < |s| && s[i] == '=' && s[i + 1] == ' '
  }

  /** The first occurrence of "= " at or after position `i`. */
  function FindSepFrom(s: string, i: nat): (r: Option<nat>)
    requires i <= |s|
    ensures r.Some? ==> i <= r.value && SepAt(s, r.value)
    ensures r.Some? ==> forall j :: i <= j < r.value ==> !SepAt(s, j)
    ensures r.None? ==> forall j :: i <= j ==> !SepAt(s, j)
    decreases |s| - i
  {
    if i + 1 >= |s| then None
    else if SepAt(s, i) then Some(i)
    else FindSepFrom(s, i + 1)
  }

  /** The first occurrence of "= " in `s`. */
  function FindSep(s: string): (r: Option<nat>)
    ensures r.Some? ==> SepAt(s, r.value) && forall j :: 0 <= j < r.value ==> !SepAt(s, j)
    ensures r.None? <==> forall j :: !SepAt(s, j)
  {
    FindSepFrom(s, 0)
  }

  /** `s.split("= ")`. */
  function SplitSep(s: string): (r: seq<string>)
    ensures |r| >= 1
    ensures |r| == 1 <==> FindSep(s).None?
    decreases |s|
  {
    match FindSep(s)
    case None => [s]
    case Some(i) => [s[..i]] + SplitSep(s[i + 2..])
  }

  /** `"= ".join(pieces)`, the inverse of `SplitSep`. */
  function JoinSep(pieces: seq<string>): string
  {
    if |pieces| == 0 then ""
    else if |pieces| == 1 then pieces[0]
    else pieces[0] + "= " + JoinSep(pieces[1..])
  }

  /** Joining the pieces of `s.split("= ")` with "= " gives back `s`. */
  lemma {:induction false} JoinSplitSep(s: string)
    ensures JoinSep(SplitSep(s)) == s
    decreases |s|
  {
    match FindSep(s)
    case None =>
    case Some(i) =>
      JoinSplitSep(s[i + 2..]);
      assert s == s[..i] + "= " + s[i + 2..];
  }

  /** No piece of `s.split("= ")` contains "= ". */
  lemma {:induction false} SplitSepPiecesHaveNoSep(s: string, k: nat)
    requires k < |SplitSep(s)|
    ensures FindSep(SplitSep(s)[k]).None?
    decreases |s|
  {
    match FindSep(s)
    case None =>
    case Some(i) =>
      if k == 0 {
        forall j ensures !SepAt(s[..i], j) {
          assert SepAt(s[..i], j) ==> SepAt(s, j) && j < i;
        }
      } else {
        SplitSepPiecesHaveNoSep(s[i + 2..], k - 1);
      }
  }

  /** In `a + "= " + b` with no "= " in `a`, the first separator is the one
      placed after `a`. */
  lemma SepAfter(a: string, b: string)
    requires FindSep(a).None?
    ensures FindSep(a + "= " + b) == Some(|a|)
    ensures SplitSep(a + "= " + b) == [a] + SplitSep(b)
  {
    var s := a + "= " + b;
    assert SepAt(s, |a|);
    forall j | 0 <= j < |a| ensures !SepAt(s, j) {
      assert SepAt(s, j) ==> SepAt(a, j) || j == |a| - 1;
    }
    assert s[..|a|] == a && s[|a| + 2..] == b;
  }

  // ---------------------------------------------------------------------------
  // str.strip()
  // ---------------------------------------------------------------------------

  /** The characters for which Python's `str.isspace()` holds. */
  predicate IsSpace(c: char)
  {
    var n := c as int;
    n == 0x20 || 0x09 <= n <= 0x0D || 0x1C <= n <= 0x1F || n == 0x85 || n == 0xA0 ||
    n == 0x1680 || 0x2000 <= n <= 0x200A || n == 0x2028 || n == 0x2029 ||
    n == 0x202F || n == 0x205F || n == 0x3000
  }

  /** `s.lstrip()`. */
  function StripStart(s: string): (r: string)
    ensures |r| <= |s| && r == s[|s| - |r|..]
    ensures forall j :: 0 <= j < |s| - |r| ==> IsSpace(s[j])
    ensures r == [] || !IsSpace(r[0])
    decreases |s|
  {
    if |s| > 0 && IsSpace(s[0]) then StripStart(s[1..]) else s
  }

  /** `s.rstrip()`. */
  function StripEnd(s: string): (r: string)
    ensures |r| <= |s| && r == s[..|r|]
    ensures forall j :: |r| <= j < |s| ==> IsSpace(s[j])
    ensures r == [] || !IsSpace(r[|r| - 1])
    decreases |s|
  {
    if |s| > 0 && IsSpace(s[|s| - 1]) then StripEnd(s[..|s| - 1]) else s
  }

  /** `s.strip()`. */
  function Strip(s: string): string
  {
    StripEnd(StripStart(s))
  }

  /** Stripping cannot create a "= " that was not in the text. */
  lemma StripKeepsNoSep(s: string)
    requires FindSep(s).None?
    ensures FindSep(Strip(s)).None?
  {
    var a := StripStart(s);
    var r := StripEnd(a);
    forall j ensures !SepAt(a, j) {
      assert SepAt(a, j) ==> SepAt(s, j + |s| - |a|);
    }
    forall j ensures !SepAt(r, j) {
      assert SepAt(r, j) ==> SepAt(a, j);
    }
  }

  // ---------------------------------------------------------------------------
  // int(s) and str(n) on decimal text
  // ---------------------------------------------------------------------------

  predicate IsDigit(c: char)
  {
    '0' <= c <= '9'
  }

  predicate AllDigits(s: string)
  {
    forall i :: 0 <= i < |s| ==> IsDigit(s[i])
  }

  /** The number written by the decimal digits `ds`, most significant first. */
  function DigitsValue(ds: string): nat
    requires AllDigits(ds)
  {
    if |ds| == 0 then 0
    else 10 * DigitsValue(ds[..|ds| - 1]) + (ds[|ds| - 1] as int - '0' as int)
  }

  /** Integer text as `int()` accepts it once stripped: one or more ASCII
      digits, or a sign followed by one or more ASCII digits. */
  predicate IsIntText(t: string)
  {
    |t| > 0 && (AllDigits(t) || ((t[0] == '+' || t[0] == '-') && |t| > 1 && AllDigits(t[1..])))
  }

  /** `int(s)` for ASCII decimal text: surrounding whitespace, an optional sign
      and at least one digit; anything else raises `ValueError`. */
  function ParseInt(s: string): (r: Result<int>)
    ensures r.Ok? <==> IsIntText(Strip(s))
    ensures r.Fail? ==> r.error == ValueError
    ensures |Strip(s)| > 0 && AllDigits(Strip(s)) ==> r == Ok(DigitsValue(Strip(s)))
    ensures |Strip(s)| > 1 && Strip(s)[0] == '+' && AllDigits(Strip(s)[1..]) ==>
              r == Ok(DigitsValue(Strip(s)[1..]))
    ensures |Strip(s)| > 1 && Strip(s)[0] == '-' && AllDigits(Strip(s)[1..]) ==>
              r == Ok(-(DigitsValue(Strip(s)[1..]) as int))
  {
    var t := Strip(s);
    var negative := |t| > 0 && t[0] == '-';
    var ds := if |t| > 0 && (t[0] == '-' || t[0] == '+') then t[1..] else t;
    if |ds| == 0 || !AllDigits(ds) then Fail(ValueError)
    else if negative then Ok(-(DigitsValue(ds) as int))
    else Ok(DigitsValue(ds))
  }

  /** Text that starts with a character other than a digit, a sign or white
      space raises, as `int("abc")` does. */
  lemma ParseRejectsNonDigit(t: string)
    requires |t| > 0 && !IsSpace(t[0]) && !IsSpace(t[|t| - 1])
    requires !IsDigit(t[0]) && t[0] != '+' && t[0] != '-'
    ensures ParseInt(t) == Fail(ValueError)
  {
    StripPlain(t);
  }

  /** `str(n)` for a natural number. */
  function ShowNat(n: nat): (r: string)
    ensures |r| > 0 && AllDigits(r)
  {
    var d := ['0' + (n % 10) as char];
    if n < 10 then d else ShowNat(n / 10) + d
  }

  /** `str(n)`. */
  function ShowInt(n: int): string
  {
    if n < 0 then "-" + ShowNat(-n) else ShowNat(n)
  }

  lemma {:induction false} DigitsValueShowNat(n: nat)
    ensures DigitsValue(ShowNat(n)) == n
  {
    var s := ShowNat(n);
    if n >= 10 {
      DigitsValueShowNat(n / 10);
      assert s[..|s| - 1] == ShowNat(n / 10);
    }
  }

  /** A text that neither starts nor ends with white space is its own stripped form. */
  lemma StripPlain(t: string)
    requires |t| > 0 && !IsSpace(t[0]) && !IsSpace(t[|t| - 1])
    ensures Strip(t) == t
  {
    assert StripStart(t) == t;
  }

  /** `int(str(n)) == n`: the option index written by `str` reads back unchanged. */
  lemma ParseShowInt(n: int)
    ensures ParseInt(ShowInt(n)) == Ok(n)
  {
    var t := ShowInt(n);
    if n < 0 {
      var ds := ShowNat(-n);
      assert t == "-" + ds && t[1..] == ds;
      StripPlain(t);
      DigitsValueShowNat(-n);
    } else {
      StripPlain(t);
      DigitsValueShowNat(n);
    }
  }

  /** A written integer is its own stripped form and holds no "= ". */
  lemma ShowIntPlain(n: int)
    ensures Strip(ShowInt(n)) == ShowInt(n)
    ensures FindSep(ShowInt(n)).None?
  {
    var t := ShowInt(n);
    assert !IsSpace(t[0]) && !IsSpace(t[|t| - 1]);
    assert StripStart(t) == t;
    forall j ensures !SepAt(t, j) {
      assert 0 <= j < |t| ==> t[j] != '=' by {
        if n < 0 && 0 < j < |t| {
          assert t[j] == ShowNat(-n)[j - 1];
        }
      }
    }
  }
}
