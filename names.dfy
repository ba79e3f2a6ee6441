/** How image names are put together: hyphen-separated tokens, the last one
    ending in ".iso". */
module ImageNames {
  import opened PyStr

  /** `a-b`. */
  function Hyphenate(a: string, b: string): string
  {
    a + "-" + b
  }

  lemma HyphenateSplits(a: string, b: string)
    requires '-' !in a
    ensures Split(Hyphenate(a, b), '-') == [a] + Split(b, '-')
  {
    SplitAtFirst(a, '-', b);
    assert a + "-" + b == a + ['-'] + b;
  }

  /** A name ending in ".iso" still does after a prefix is put before it. */
  lemma HyphenateKeepsIso(a: string, b: string)
    requires |b| >= 4 && b[|b| - 4..] == ".iso"
    ensures |Hyphenate(a, b)| >= 4 && Hyphenate(a, b)[|Hyphenate(a, b)| - 4..] == ".iso"
    ensures LastPiece(Hyphenate(a, b), '.') == "iso"
  {
    var s := Hyphenate(a, b);
    assert s[|s| - 4..] == b[|b| - 4..];
    ExtensionIsIso(s);
  }

  /** `<flavour>-<v>-<edition>-<arch>`, the naming of Ubuntu images. */
  function ImageName(flavour: string, v: string, edition: string, arch: string): string
  {
    Hyphenate(flavour, Hyphenate(v, Hyphenate(edition, arch)))
  }

  lemma TwoTokens(a: string, b: string)
    requires '-' !in a && '-' !in b
    ensures Split(Hyphenate(a, b), '-') == [a, b]
  {
    HyphenateSplits(a, b);
    assert Split(b, '-') == [b];
  }

  lemma MoreTokens(a: string, rest: string, tokens: seq<string>)
    requires '-' !in a && Split(rest, '-') == tokens
    ensures Split(Hyphenate(a, rest), '-') == [a] + tokens
  {
    HyphenateSplits(a, rest);
  }

  lemma ThreeTokens(v: string, edition: string, arch: string)
    requires '-' !in v && '-' !in edition && '-' !in arch
    ensures Split(Hyphenate(v, Hyphenate(edition, arch)), '-') == [v, edition, arch]
  {
    TwoTokens(edition, arch);
    HyphenateSplits(v, Hyphenate(edition, arch));
  }

  lemma FourTokens(tokens: seq<string>, flavour: string, v: string, edition: string, arch: string)
    requires tokens == [flavour] + [v, edition, arch]
    ensures tokens == [flavour, v, edition, arch]
  {
  }

  /** The four tokens of an image name built from four hyphen-free tokens. */
  lemma ImageNameTokens(flavour: string, v: string, edition: string, arch: string)
    requires '-' !in flavour && '-' !in v && '-' !in edition && '-' !in arch
    ensures Split(ImageName(flavour, v, edition, arch), '-') == [flavour, v, edition, arch]
  {
    ThreeTokens(v, edition, arch);
    MoreTokens(flavour, Hyphenate(v, Hyphenate(edition, arch)), [v, edition, arch]);
    FourTokens(Split(ImageName(flavour, v, edition, arch), '-'), flavour, v, edition, arch);
  }

  lemma ImageNameIsIso(flavour: string, v: string, edition: string, arch: string)
    requires |arch| >= 4 && arch[|arch| - 4..] == ".iso"
    ensures LastPiece(ImageName(flavour, v, edition, arch), '.') == "iso"
  {
    var t1 := Hyphenate(edition, arch);
    var t2 := Hyphenate(v, t1);
    HyphenateKeepsIso(edition, arch);
    HyphenateKeepsIso(v, t1);
    HyphenateKeepsIso(flavour, t2);
  }

  /** The second token of `archlinux-<date>-<tail>` is the date, and the name
      ends in ".iso". */
  lemma ArchNameTokens(date: string, tail: string)
    requires '-' !in date
    requires |tail| >= 4 && tail[|tail| - 4..] == ".iso"
    ensures var name := Hyphenate("archlinux", Hyphenate(date, tail));
            '-' in name && Split(name, '-')[1] == date && LastPiece(name, '.') == "iso"
  {
    var rest := Hyphenate(date, tail);
    var name := Hyphenate("archlinux", rest);
    assert name[9] == '-';
    HyphenateSplits("archlinux", rest);
    HyphenateSplits(date, tail);
    assert Split(name, '-')[1] == date;
    HyphenateKeepsIso(date, tail);
    HyphenateKeepsIso("archlinux", rest);
  }
}
